/** The media step of a game that is published: its logo, background, preview
    video, inline style sheets, icon and avatar image. Each is looked for by
    the game's name first and by broader names after; what is missing is noted
    in the report. */
module Media {
  import opened Js
  import opened Strings
  import opened Records
  import opened Assets
  import opened Report

  function LogoPath(stem: string): Path { ["images", "logos", stem + ".png"] }
  function BackgroundPath(stem: string): Path { ["images", "backgrounds", stem + ".png"] }
  /** Genre backgrounds are looked for outside `images`, as the source does. */
  function GenreBackgroundPath(genre: string): Path { ["backgrounds", genre + " Games.png"] }
  function VideoPath(stem: string): Path { ["video", "previews", stem + ".mp4"] }
  function StylePath(stem: string): Path { ["style", stem + ".css"] }
  function IconPath(stem: string): Path { ["icons", stem + ".ico"] }
  function AvatarPath(folder: string, stem: string): Path { ["images", folder, stem + ".png"] }

  /** The logo: by name, then by description. */
  function Logo(store: Store, g: Game): (r: Chosen)
    ensures r.name == (if Exists(store, LogoPath(g.name)) then Some(g.name)
                       else if Exists(store, LogoPath(g.description)) then Some(g.description)
                       else None)
  {
    var cands := [Candidate(LogoPath(g.name), g.name), Candidate(LogoPath(g.description), g.description)];
    assert cands[0].path == LogoPath(g.name) && cands[1].path == LogoPath(g.description);
    match FirstExisting(store, cands)
    case Some(i) => PublishFirst(store, cands)
    case None => PublishFirst(store, cands)
  }

  /** The background: the game's own, else every genre background is copied
      and the last one is used, else the system's. */
  datatype Background = Background(name: string, copies: seq<Copy>, missing: bool)

  function GenreBackgroundPaths(genres: seq<string>): (r: seq<Path>)
    ensures |r| == |genres| && forall i :: 0 <= i < |genres| ==> r[i] == GenreBackgroundPath(genres[i])
  {
    seq(|genres|, i requires 0 <= i < |genres| => GenreBackgroundPath(genres[i]))
  }

  function ChooseBackground(store: Store, g: Game): (r: Background)
    ensures r.missing <==> !Exists(store, BackgroundPath(g.name))
    ensures !r.missing ==> r.name == g.name && r.copies == [Copy(BackgroundPath(g.name), ["public"] + BackgroundPath(g.name))]
    ensures r.missing ==> match LastExisting(store, GenreBackgroundPaths(g.genres))
                          case Some(i) => r.name == g.genres[i] + " Games"
                          case None => r.name == g.system
    ensures r.missing ==> r.copies == PublishAll(store, GenreBackgroundPaths(g.genres))
  {
    if Exists(store, BackgroundPath(g.name)) then
      Background(g.name, CopiesOf(Publish(store, BackgroundPath(g.name))), false)
    else
      var paths := GenreBackgroundPaths(g.genres);
      var name := match LastExisting(store, paths)
        case Some(i) => g.genres[i] + " Games"
        case None => g.system;
      Background(name, PublishAll(store, paths), true)
  }

  /** The preview video: by name, by description, then the parent's. */
  function Video(store: Store, g: Game): (r: Chosen)
    ensures r.name.Some? <==>
              || Exists(store, VideoPath(g.name))
              || Exists(store, VideoPath(g.description))
              || (Present(g.cloneOf) && Exists(store, VideoPath(g.cloneOf.value)))
    ensures Exists(store, VideoPath(g.name)) ==> r.name == Some(g.name)
    ensures !Exists(store, VideoPath(g.name)) && Exists(store, VideoPath(g.description)) ==> r.name == Some(g.description)
    ensures (!Exists(store, VideoPath(g.name)) && !Exists(store, VideoPath(g.description))
             && Present(g.cloneOf) && Exists(store, VideoPath(g.cloneOf.value)))
            ==> r.name == Some(g.cloneOf.value)
    ensures r.name.Some? ==> r.copies == [Copy(VideoPath(r.name.value), ["public"] + VideoPath(r.name.value))]
    ensures r.name.None? ==> r.copies == []
  {
    var own := [Candidate(VideoPath(g.name), g.name), Candidate(VideoPath(g.description), g.description)];
    var cands := own + (if Present(g.cloneOf) then [Candidate(VideoPath(g.cloneOf.value), g.cloneOf.value)] else []);
    assert cands[0].path == VideoPath(g.name) && cands[1].path == VideoPath(g.description);
    assert Present(g.cloneOf) ==> |cands| == 3 && cands[2].path == VideoPath(g.cloneOf.value);
    assert !Present(g.cloneOf) ==> |cands| == 2;
    match FirstExisting(store, cands)
    case Some(i) => PublishFirst(store, cands)
    case None => PublishFirst(store, cands)
  }

  /** `existsSync(p)` then `loadTextFile(p)`: an existing file that cannot be
      read fails the run. */
  function ReadStyle(store: Store, path: Path): (r: Result<Option<string>>)
    ensures r.Ok? && r.value.Some? <==> path in store.files
    ensures r.Ok? && r.value.None? <==> !Exists(store, path)
    ensures r.Ok? && r.value.Some? ==> r.value.value == store.files[path]
    ensures r.Fail? ==> r.error == UnreadableStyle(path)
  {
    if !Exists(store, path) then Ok(None)
    else match ReadText(store, path)
      case Some(t) => Ok(Some(t))
      case None => Fail(UnreadableStyle(path))
  }

  function GenreStylePaths(genres: seq<string>): (r: seq<Path>)
    ensures |r| == |genres| && forall i :: 0 <= i < |genres| ==> r[i] == StylePath(genres[i])
  {
    seq(|genres|, i requires 0 <= i < |genres| => StylePath(genres[i]))
  }

  /** Every genre style sheet present is read; the last one's text is kept. */
  function GenreCss(store: Store, paths: seq<Path>, acc: string): (r: Result<string>)
    ensures r.Ok? <==> forall i :: 0 <= i < |paths| && Exists(store, paths[i]) ==> paths[i] in store.files
    ensures r.Ok? ==> match LastExisting(store, paths)
                      case Some(i) => r.value == store.files[paths[i]]
                      case None => r.value == acc
    decreases |paths|
  {
    if |paths| == 0 then Ok(acc)
    else match ReadStyle(store, paths[0])
      case Fail(e) => Fail(e)
      case Ok(t) =>
        var r := GenreCss(store, paths[1..], t.GetOr(acc));
        LastExistingOfTail(store, paths);
        r
  }

  lemma LastExistingOfTail(store: Store, paths: seq<Path>)
    requires |paths| > 0
    ensures match LastExisting(store, paths[1..])
            case Some(i) => LastExisting(store, paths) == Some(i + 1)
            case None => LastExisting(store, paths) == (if Exists(store, paths[0]) then Some(0) else None)
  {
    var tail := LastExisting(store, paths[1..]);
    var whole := LastExisting(store, paths);
    assert forall k :: 1 <= k < |paths| ==> paths[k] == paths[1..][k - 1];
    match tail
    case Some(i) =>
      LastExistingUnique(store, paths, i + 1);
    case None =>
      if Exists(store, paths[0]) {
        LastExistingUnique(store, paths, 0);
      }
  }

  /** The last existing position is the only one with nothing existing after it. */
  lemma LastExistingUnique(store: Store, paths: seq<Path>, i: nat)
    requires i < |paths| && Exists(store, paths[i])
    requires forall k :: i < k < |paths| ==> !Exists(store, paths[k])
    ensures LastExisting(store, paths) == Some(i)
  {
  }

  /** The `<style>` element of the document, with the game-document, system,
      genre and game style sheets in that order. */
  datatype Styles = Styles(game: Option<string>, system: Option<string>, genre: string, own: Option<string>)

  function ReadStyles(store: Store, g: Game): (r: Result<Styles>)
    ensures r.Ok? ==> (r.value.game.Some? <==> Exists(store, StylePath("game")))
    ensures r.Ok? ==> (r.value.system.Some? <==> Exists(store, StylePath(g.system)))
    ensures r.Ok? ==> (r.value.own.Some? <==> Exists(store, StylePath(g.name)))
    ensures r.Ok? <==> && (Exists(store, StylePath("game")) ==> StylePath("game") in store.files)
                       && (forall i :: 0 <= i < |g.genres| && Exists(store, StylePath(g.genres[i])) ==>
                             StylePath(g.genres[i]) in store.files)
                       && (Exists(store, StylePath(g.system)) ==> StylePath(g.system) in store.files)
                       && (Exists(store, StylePath(g.name)) ==> StylePath(g.name) in store.files)
  {
    var paths := GenreStylePaths(g.genres);
    match ReadStyle(store, StylePath("game"))
    case Fail(e) => Fail(e)
    case Ok(game) =>
      match GenreCss(store, paths, "")
      case Fail(e) => Fail(e)
      case Ok(genre) =>
        match ReadStyle(store, StylePath(g.system))
        case Fail(e) => Fail(e)
        case Ok(system) =>
          match ReadStyle(store, StylePath(g.name))
          case Fail(e) => Fail(e)
          case Ok(own) => Ok(Styles(game, system, genre, own))
  }

  function Appended(t: Option<string>): string {
    match t
    case Some(x) => "\n" + x
    case None => ""
  }

  /** `inlineCssHtml`. The genre sheet is appended only when it has text. */
  function InlineCssHtml(s: Styles): (r: string)
    ensures r == "" <==> s.game.None? && s.system.None? && s.genre == "" && s.own.None?
    ensures r != "" ==> StartsWith(r, "<style>\n") && EndsWith(r, "</style>")
  {
    var css := Appended(s.game) + Appended(s.system) + Appended(if s.genre == "" then None else Some(s.genre))
               + Appended(s.own);
    if css == "" then ""
    else
      assert css[0] == '\n';
      "<style>" + css + "</style>"
  }

  /** The icon step. A game icon is used without setting `hasIcon`; the
      parent's icon sets it. Without either, the game's genres are reversed
      in place and the first of them with an icon, if it has a name, is
      used without being copied. */
  datatype Icon = Icon(name: Option<string>, hasIcon: bool, genres: seq<string>, copies: seq<Copy>, missing: bool)

  function GenreIconPaths(genres: seq<string>): (r: seq<Path>)
    ensures |r| == |genres| && forall i :: 0 <= i < |genres| ==> r[i] == IconPath(genres[i])
  {
    seq(|genres|, i requires 0 <= i < |genres| => IconPath(genres[i]))
  }

  function ChooseIcon(store: Store, g: Game): (r: Icon)
    ensures Exists(store, IconPath(g.name)) ==> r == Icon(Some(g.name), false, g.genres, [Copy(IconPath(g.name), ["public"] + IconPath(g.name))], false)
    ensures !Exists(store, IconPath(g.name)) && Exists(store, IconPath(Text(g.cloneOf))) ==>
              r == Icon(g.cloneOf, true, g.genres, [Copy(IconPath(Text(g.cloneOf)), ["public"] + IconPath(Text(g.cloneOf)))], false)
    ensures r.missing <==> !Exists(store, IconPath(g.name)) && !Exists(store, IconPath(Text(g.cloneOf)))
    ensures r.missing ==> r.genres == Reverse(g.genres) && !r.hasIcon && r.copies == []
    ensures r.missing ==> r.name == Some(GenreIcon(store, Reverse(g.genres)).GetOr(g.system))
  {
    if Exists(store, IconPath(g.name)) then
      Icon(Some(g.name), false, g.genres, CopiesOf(Publish(store, IconPath(g.name))), false)
    else if Exists(store, IconPath(Text(g.cloneOf))) then
      Icon(g.cloneOf, true, g.genres, CopiesOf(Publish(store, IconPath(Text(g.cloneOf)))), false)
    else
      var genres := Reverse(g.genres);
      Icon(Some(GenreIcon(store, genres).GetOr(g.system)), false, genres, [], true)
  }

  /** `i` is the first genre that has an icon. */
  predicate FirstIconAt(store: Store, genres: seq<string>, i: int) {
    && 0 <= i < |genres|
    && Exists(store, IconPath(genres[i]))
    && forall k :: 0 <= k < i ==> !Exists(store, IconPath(genres[k]))
  }

  /** `genres.find(g => existsSync(icons/g.ico))`, kept only when non-empty. */
  function GenreIcon(store: Store, genres: seq<string>): (r: Option<string>)
    ensures r.Some? ==> r.value != "" && exists i :: FirstIconAt(store, genres, i) && genres[i] == r.value
    ensures r.None? ==> forall i :: FirstIconAt(store, genres, i) ==> genres[i] == ""
  {
    var cands := seq(|genres|, i requires 0 <= i < |genres| => Candidate(IconPath(genres[i]), genres[i]));
    assert forall k :: 0 <= k < |genres| ==> cands[k].path == IconPath(genres[k]);
    match FirstExisting(store, cands)
    case Some(i) =>
      assert FirstIconAt(store, genres, i);
      if genres[i] == "" then None else Some(genres[i])
    case None => None
  }

  /** Box art for a non-MAME game that has a box image; cabinets otherwise. */
  function AvatarFolder(store: Store, g: Game): (r: string)
    ensures r == "boxes" || r == "cabinets"
    ensures r == "boxes" <==> Lower(g.system) != "mame"
                              && (Exists(store, AvatarPath("boxes", g.name)) || Exists(store, AvatarPath("boxes", g.description)))
  {
    if Lower(g.system) == "mame" then "cabinets"
    else if Exists(store, AvatarPath("boxes", g.name)) || Exists(store, AvatarPath("boxes", g.description)) then "boxes"
    else "cabinets"
  }

  datatype Avatar = Avatar(folder: string, name: string, copies: seq<Copy>, missing: bool, missingSystem: bool)

  /** The avatar: by name, then by description, in the chosen folder; else
      the system's image stands in and the game is noted. The source's second
      system fallback, to the cabinets folder, can never be reached: a game
      only gets the boxes folder when one of its own box images exists. */
  function ChooseAvatar(store: Store, g: Game): (r: Avatar)
    ensures r.missing <==> !Exists(store, AvatarPath(AvatarFolder(store, g), g.name))
                           && !Exists(store, AvatarPath(AvatarFolder(store, g), g.description))
    ensures !r.missing ==> r.folder == AvatarFolder(store, g) && Exists(store, AvatarPath(r.folder, r.name))
    ensures !r.missing && Exists(store, AvatarPath(r.folder, g.name)) ==> r.name == g.name
    ensures r.missing ==> r.name == g.system && r.folder == "cabinets"
    ensures r.missingSystem <==> r.missing && !Exists(store, AvatarPath("cabinets", g.system))
  {
    var folder := AvatarFolder(store, g);
    var cands := [Candidate(AvatarPath(folder, g.name), g.name), Candidate(AvatarPath(folder, g.description), g.description)];
    assert cands[0].path == AvatarPath(folder, g.name) && cands[1].path == AvatarPath(folder, g.description);
    match FirstExisting(store, cands)
    case Some(i) => Avatar(folder, cands[i].result, PublishFirst(store, cands).copies, false, false)
    case None =>
      var own := Publish(store, AvatarPath(folder, g.system));
      if own.Some? then Avatar(folder, g.system, CopiesOf(own), true, false)
      else if folder != "cabinets" && Exists(store, AvatarPath("cabinets", g.system)) then
        Avatar("cabinets", g.system, CopiesOf(Publish(store, AvatarPath("cabinets", g.system))), true, false)
      else Avatar(folder, g.system, [], true, true)
  }

  /** What the media step decided for one game. */
  datatype Published = Published(
    logoName: Option<string>,
    background: string,
    videoName: Option<string>,
    inlineCssHtml: string,
    icon: Icon,
    avatar: Avatar,
    copies: seq<Copy>,
    report: Report)

  /** The report after the media step: one push per missing item. */
  function NoteMissing(report: Report, name: string, logo: bool, background: bool, video: bool,
                       icon: bool, avatar: bool, systemAvatar: bool): Report
  {
    var r1 := NoteIf(report, logo, MissingLogoGames, name);
    var r2 := NoteIf(r1, background, MissingBackgroundGames, name);
    var r3 := NoteIf(r2, video, MissingVideoGames, name);
    var r4 := NoteIf(r3, icon, MissingIconGames, name);
    var r5 := BumpIf(r4, systemAvatar, MissingSystemCabinetImages);
    NoteIf(r5, avatar, MissingCabinetGames, name)
  }

  /** A missing logo, background or video puts the game on that list. */
  lemma NoteMissingImages(report: Report, name: string, logo: bool, background: bool, video: bool,
                          icon: bool, avatar: bool, systemAvatar: bool)
    ensures var r := NoteMissing(report, name, logo, background, video, icon, avatar, systemAvatar);
            && Entries(r, MissingLogoGames) == Entries(report, MissingLogoGames) + (if logo then [name] else [])
            && Entries(r, MissingBackgroundGames) == Entries(report, MissingBackgroundGames) + (if background then [name] else [])
            && Entries(r, MissingVideoGames) == Entries(report, MissingVideoGames) + (if video then [name] else [])
  {
    var r1 := NoteIf(report, logo, MissingLogoGames, name);
    var r2 := NoteIf(r1, background, MissingBackgroundGames, name);
    var r3 := NoteIf(r2, video, MissingVideoGames, name);
    var r4 := NoteIf(r3, icon, MissingIconGames, name);
    var r5 := BumpIf(r4, systemAvatar, MissingSystemCabinetImages);
    var r6 := NoteIf(r5, avatar, MissingCabinetGames, name);
    assert Entries(r6, MissingLogoGames) == Entries(r1, MissingLogoGames);
    assert Entries(r6, MissingBackgroundGames) == Entries(r2, MissingBackgroundGames);
    assert Entries(r6, MissingVideoGames) == Entries(r3, MissingVideoGames);
  }

  /** A missing icon or avatar puts the game on that list; a missing system
      image raises its total. */
  lemma NoteMissingAvatar(report: Report, name: string, logo: bool, background: bool, video: bool,
                          icon: bool, avatar: bool, systemAvatar: bool)
    ensures var r := NoteMissing(report, name, logo, background, video, icon, avatar, systemAvatar);
            && Entries(r, MissingIconGames) == Entries(report, MissingIconGames) + (if icon then [name] else [])
            && Entries(r, MissingCabinetGames) == Entries(report, MissingCabinetGames) + (if avatar then [name] else [])
            && Count(r, MissingSystemCabinetImages)
               == Count(report, MissingSystemCabinetImages) + (if systemAvatar then 1 else 0)
  {
    var r1 := NoteIf(report, logo, MissingLogoGames, name);
    var r2 := NoteIf(r1, background, MissingBackgroundGames, name);
    var r3 := NoteIf(r2, video, MissingVideoGames, name);
    var r4 := NoteIf(r3, icon, MissingIconGames, name);
    var r5 := BumpIf(r4, systemAvatar, MissingSystemCabinetImages);
    var r6 := NoteIf(r5, avatar, MissingCabinetGames, name);
    assert Entries(r3, MissingIconGames) == Entries(report, MissingIconGames);
    assert Entries(r5, MissingCabinetGames) == Entries(report, MissingCabinetGames);
    assert Count(r3, MissingSystemCabinetImages) == Count(report, MissingSystemCabinetImages);
    assert Count(r4, MissingSystemCabinetImages) == Count(r3, MissingSystemCabinetImages);
    assert Count(r6, MissingSystemCabinetImages) == Count(r5, MissingSystemCabinetImages);
  }

  /** The media step leaves every other list alone. */
  lemma NoteMissingFrame(report: Report, name: string, logo: bool, background: bool, video: bool,
                         icon: bool, avatar: bool, systemAvatar: bool, l: GameList)
    requires l != MissingLogoGames && l != MissingBackgroundGames && l != MissingVideoGames
    requires l != MissingIconGames && l != MissingCabinetGames
    ensures Entries(NoteMissing(report, name, logo, background, video, icon, avatar, systemAvatar), l) == Entries(report, l)
  {
    var r1 := NoteIf(report, logo, MissingLogoGames, name);
    var r2 := NoteIf(r1, background, MissingBackgroundGames, name);
    var r3 := NoteIf(r2, video, MissingVideoGames, name);
    var r4 := NoteIf(r3, icon, MissingIconGames, name);
    var r5 := BumpIf(r4, systemAvatar, MissingSystemCabinetImages);
    assert Entries(r1, l) == Entries(report, l);
    assert Entries(r2, l) == Entries(r1, l);
    assert Entries(r3, l) == Entries(r2, l);
    assert Entries(r4, l) == Entries(r3, l);
    assert Entries(r5, l) == Entries(r4, l);
    assert Entries(NoteIf(r5, avatar, MissingCabinetGames, name), l) == Entries(r5, l);
  }

  /** The media step keeps every list and its total in step. */
  lemma NoteMissingKeepsConsistent(report: Report, name: string, logo: bool, background: bool, video: bool,
                                   icon: bool, avatar: bool, systemAvatar: bool)
    ensures Consistent(report) ==> Consistent(NoteMissing(report, name, logo, background, video, icon, avatar, systemAvatar))
  {
    if Consistent(report) {
      var r1 := NoteIf(report, logo, MissingLogoGames, name);
      var r2 := NoteIf(r1, background, MissingBackgroundGames, name);
      var r3 := NoteIf(r2, video, MissingVideoGames, name);
      var r4 := NoteIf(r3, icon, MissingIconGames, name);
      var r5 := BumpIf(r4, systemAvatar, MissingSystemCabinetImages);
      NoteKeepsConsistent(report, MissingLogoGames, name);
      NoteKeepsConsistent(r1, MissingBackgroundGames, name);
      NoteKeepsConsistent(r2, MissingVideoGames, name);
      NoteKeepsConsistent(r3, MissingIconGames, name);
      BumpKeepsConsistent(r4, MissingSystemCabinetImages, 1);
      NoteKeepsConsistent(r5, MissingCabinetGames, name);
    }
  }

  /** The media step. It fails only on a style sheet that exists but cannot
      be read. */
  function PublishMedia(store: Store, g: Game, report: Report): (r: Result<Published>)
    ensures r.Fail? <==> ReadStyles(store, g).Fail?
    ensures r.Ok? ==> r.value.logoName == Logo(store, g).name
    ensures r.Ok? ==> r.value.videoName == Video(store, g).name
    ensures r.Ok? ==> r.value.background == ChooseBackground(store, g).name
    ensures r.Ok? ==> r.value.icon == ChooseIcon(store, g)
    ensures r.Ok? ==> r.value.avatar == ChooseAvatar(store, g)
    ensures r.Ok? ==> r.value.inlineCssHtml == InlineCssHtml(ReadStyles(store, g).value)
    ensures r.Ok? ==> r.value.report == NoteMissing(report, g.name, Logo(store, g).name.None?,
                                                     ChooseBackground(store, g).missing, Video(store, g).name.None?,
                                                     ChooseIcon(store, g).missing, ChooseAvatar(store, g).missing,
                                                     ChooseAvatar(store, g).missingSystem)
    ensures r.Ok? && Consistent(report) ==> Consistent(r.value.report)
  {
    var logo := Logo(store, g);
    var background := ChooseBackground(store, g);
    var video := Video(store, g);
    match ReadStyles(store, g)
    case Fail(e) => Fail(e)
    case Ok(styles) =>
      var icon := ChooseIcon(store, g);
      var avatar := ChooseAvatar(store, g);
      var report' := NoteMissing(report, g.name, logo.name.None?, background.missing, video.name.None?,
                                 icon.missing, avatar.missing, avatar.missingSystem);
      NoteMissingKeepsConsistent(report, g.name, logo.name.None?, background.missing, video.name.None?,
                                 icon.missing, avatar.missing, avatar.missingSystem);
      Ok(Published(logo.name, background.name, video.name, InlineCssHtml(styles), icon, avatar,
                   logo.copies + background.copies + video.copies + icon.copies + avatar.copies, report'))
  }
}
