/** The game document: template pieces stitched into a page (head, sections,
    header with tabstrip and genre list, footer, extras), the button labels
    that stand for joystick directions turned into controls, every
    placeholder filled, and the page refused when placeholders are left. */
module Document {
  import opened Js
  import opened Strings
  import opened Records
  import opened Assets
  import opened Report
  import Template
  import Extras
  import Artwork
  import Media

  /** What the document step takes from the configuration and from the
      common template pieces loaded before the games are processed. */
  datatype Settings = Settings(
    language: string,
    rtl: bool,                              // the language is written right to left
    fullScreen: bool,
    sections: seq<string>,                  // the section pieces, by name
    defaultSectionId: string,
    resources: seq<(string, string)>,       // the language's resource strings
    yes: Value,                             // its `yes` and `no` resources
    no: Value,
    author: Value,
    appName: Value,
    yearCurrent: Value,
    dosboxEmulator: string,
    htmlHash: string,                       // the run id in document names
    listingDepth: nat,                      // bound on recursive listings
    tabTemplate: string,
    tabstripTemplate: string,
    genreListTemplate: string,
    genreItemTemplate: string,              // the `genre-image-item` piece
    encode: string -> string,               // html-entities `encode`
    encodeUri: string -> string,            // `encodeURIComponent`
    fields: Game -> seq<(string, Value)>,   // `Object.keys(game)` with each value
    stringify: Game -> string)              // `JSON.stringify(game)`

  // ---------------------------------------------------------------------
  // Template pieces

  /** The file `loadGameTemplatePiece` reads, for the error it raises. */
  function PieceSource(store: Store, piece: string, g: Game): Path {
    Template.TierPath(Template.PieceTier(store, piece, g.name, g.genres, g.system), piece, g.name, g.system)
  }

  function LoadPiece(store: Store, piece: string, g: Game): (r: Result<string>)
    ensures r.Ok? <==> Template.GamePiece(store, piece, g.name, g.genres, g.system).Some?
    ensures r.Ok? ==> r.value == Template.GamePiece(store, piece, g.name, g.genres, g.system).value
  {
    match Template.GamePiece(store, piece, g.name, g.genres, g.system)
    case Some(t) => Ok(t)
    case None => Fail(UnreadableTemplate(PieceSource(store, piece, g)))
  }

  function SectionSource(store: Store, id: string, g: Game): Path {
    if Exists(store, Template.SectionPath([g.name], id)) then Template.SectionPath([g.name], id)
    else if Exists(store, Template.SectionPath([g.system], id)) then Template.SectionPath([g.system], id)
    else Template.SectionPath([], id)
  }

  /** A section is shown unless it is the video section of a game without a
      video. */
  predicate Shown(section: string, hasVideo: bool) {
    section != "video" || hasVideo
  }

  /** What one section adds to the main content: nothing when it is not
      shown, else its panel, hidden unless it is the default section. */
  function SectionText(store: Store, id: string, s: Settings, g: Game, hasVideo: bool): string {
    if !Shown(id, hasVideo) then ""
    else Template.SectionHtml(store, id, g.name, g.system, id == s.defaultSectionId, s.encode).GetOr("")
  }

  function SectionTexts(store: Store, sections: seq<string>, s: Settings, g: Game, hasVideo: bool): (r: seq<string>)
    ensures |r| == |sections|
    ensures forall i :: 0 <= i < |sections| ==> r[i] == SectionText(store, sections[i], s, g, hasVideo)
  {
    seq(|sections|, i requires 0 <= i < |sections| => SectionText(store, sections[i], s, g, hasVideo))
  }

  /** The main content: every shown section, in order, visible when it is
      the default. */
  function SectionsHtml(store: Store, sections: seq<string>, s: Settings, g: Game, hasVideo: bool): (r: Result<string>)
    ensures r.Ok? <==> forall i :: 0 <= i < |sections| && Shown(sections[i], hasVideo) ==>
                         Template.SectionPiece(store, sections[i], g.name, g.system).Some?
    ensures r.Ok? ==> r.value == Concat(SectionTexts(store, sections, s, g, hasVideo))
    decreases |sections|
  {
    if |sections| == 0 then Ok("")
    else
      var id := sections[0];
      var rest := SectionsHtml(store, sections[1..], s, g, hasVideo);
      assert forall i :: 1 <= i < |sections| ==> sections[i] == sections[1..][i - 1];
      var texts := SectionTexts(store, sections, s, g, hasVideo);
      assert texts[1..] == SectionTexts(store, sections[1..], s, g, hasVideo);
      if !Shown(id, hasVideo) then rest
      else match Template.SectionHtml(store, id, g.name, g.system, id == s.defaultSectionId, s.encode)
        case None =>
          Template.SectionVisibility(store, id, g.name, g.system, id == s.defaultSectionId, s.encode);
          Fail(UnreadableTemplate(SectionSource(store, id, g)))
        case Some(h) =>
          Template.SectionVisibility(store, id, g.name, g.system, id == s.defaultSectionId, s.encode);
          match rest
          case Fail(e) => Fail(e)
          case Ok(t) => Ok(h + t)
  }

  /** `sections` without the video section. */
  function WithoutVideo(sections: seq<string>): (r: seq<string>)
    ensures forall x :: x in r <==> x in sections && x != "video"
    decreases |sections|
  {
    if |sections| == 0 then []
    else if sections[0] == "video" then WithoutVideo(sections[1..])
    else [sections[0]] + WithoutVideo(sections[1..])
  }

  /** A game without a video gets the page it would get if the video section
      did not exist; a game with one gets every section. */
  lemma {:induction false} VideoSectionOnlyWithVideo(store: Store, sections: seq<string>, s: Settings, g: Game)
    ensures SectionsHtml(store, sections, s, g, false) == SectionsHtml(store, WithoutVideo(sections), s, g, true)
    decreases |sections|
  {
    if |sections| > 0 {
      VideoSectionOnlyWithVideo(store, sections[1..], s, g);
      if sections[0] != "video" {
        var w := WithoutVideo(sections);
        assert w[0] == sections[0] && w[1..] == WithoutVideo(sections[1..]);
      }
    }
  }

  // ---------------------------------------------------------------------
  // Tabstrip

  /** The tab marked as selected: the default section when it is one of the
      sections, else the first. (Content visibility compares with the
      default section only, so when it is missing no panel is visible.) */
  predicate IsDefaultTab(sections: seq<string>, defaultId: string, section: string) {
    if defaultId in sections then section == defaultId else |sections| > 0 && section == sections[0]
  }

  lemma TabSelection(sections: seq<string>, defaultId: string)
    requires |sections| > 0
    ensures var chosen := if defaultId in sections then defaultId else sections[0];
            && chosen in sections
            && forall i :: 0 <= i < |sections| ==>
                 (IsDefaultTab(sections, defaultId, sections[i]) <==> sections[i] == chosen)
    ensures defaultId !in sections ==>
              && IsDefaultTab(sections, defaultId, sections[0])
              && forall i :: 0 <= i < |sections| ==> sections[i] != defaultId
  {
  }

  function TabHtml(tab: string, section: string, isDefault: bool, encode: string -> string): string {
    var t1 := Template.ReplacePlaceholder("section", Str(section), tab, false, encode);
    var t2 := Template.ReplacePlaceholder("caption", Str(section), t1, false, encode);
    var t3 := Template.ReplacePlaceholder("data", Str(if isDefault then "data-autofocus" else ""), t2, false, encode);
    var t4 := Template.ReplacePlaceholder("tabIndex", Str(if isDefault then "0" else "-1"), t3, false, encode);
    Template.ReplacePlaceholder("selected", Str(if isDefault then "true" else "false"), t4, false, encode)
  }

  /** One tab per section, the video section included. */
  function TabsHtml(s: Settings, sections: seq<string>): (r: seq<string>)
    ensures |r| == |sections|
    ensures forall i :: 0 <= i < |sections| ==>
              r[i] == TabHtml(s.tabTemplate, sections[i], IsDefaultTab(s.sections, s.defaultSectionId, sections[i]), s.encode)
  {
    seq(|sections|, i requires 0 <= i < |sections| =>
      TabHtml(s.tabTemplate, sections[i], IsDefaultTab(s.sections, s.defaultSectionId, sections[i]), s.encode))
  }

  function Concat(xs: seq<string>): string
    decreases |xs|
  {
    if |xs| == 0 then "" else xs[0] + Concat(xs[1..])
  }

  // ---------------------------------------------------------------------
  // Genre list

  function GenreLogo(genre: string): Path { Media.LogoPath(genre + " Games") }

  /** A genre with a logo gets its image; either way the `genre-image-item`
      piece is filled, since both item templates are read from it. */
  function GenreItem(store: Store, s: Settings, genre: string): (r: string)
    ensures !Exists(store, GenreLogo(genre)) ==>
              r == Template.ReplacePlaceholder("name", Str(genre), s.genreItemTemplate, false, s.encode)
  {
    var named := Template.ReplacePlaceholder("name", Str(genre), s.genreItemTemplate, false, s.encode);
    if Exists(store, GenreLogo(genre)) then
      Template.ReplacePlaceholder("source", Str("../images/logos/" + genre + " Games.png"), named, false, s.encode)
    else named
  }

  function GenreItems(store: Store, s: Settings, genres: seq<string>): (r: seq<string>)
    ensures |r| == |genres| && forall i :: 0 <= i < |genres| ==> r[i] == GenreItem(store, s, genres[i])
  {
    seq(|genres|, i requires 0 <= i < |genres| => GenreItem(store, s, genres[i]))
  }

  // ---------------------------------------------------------------------
  // Button labels that are joystick directions

  /** `text.toLowerCase().split(' ').includes(word)`. */
  predicate Mentions(text: string, word: string) {
    word in Split(Lower(text), " ")
  }

  /** The first two labels become the given directions; every label is still
      counted as a button. */
  function AsDirections(g: Game, labels: seq<string>, p: PlayerControls, dirs: seq<string>): Game
    requires |labels| >= 2
  {
    g.(buttonLabels := Some(labels[2..]),
       controls := Some(Controls(Some(p.(ways := Some(2), buttons := Some(|labels|),
                                         numberOfButtons := Some(|labels|), directions := Some(dirs))))))
  }

  /** The first two labels of a pedal or button-only player 1 name a
      left/right or up/down pair. */
  predicate SteersWithButtons(g: Game) {
    && g.controls.Some? && g.buttonLabels.Some? && |g.buttonLabels.value| >= 2
    && g.controls.value.player1.Some?
    && (g.controls.value.player1.value.kind == "only_buttons" || g.controls.value.player1.value.kind == "pedal")
    && var labels := g.buttonLabels.value;
       || (Mentions(labels[0], "left") && Mentions(labels[1], "right"))
       || (Mentions(labels[0], "up") && Mentions(labels[1], "down"))
  }

  /** The button rewrite for games whose first two buttons steer (both tests
      read the original labels; the second wins when both hold). Reading the
      type of an absent player-1 entry fails the run. */
  function RewriteButtons(g: Game): (r: Result<Game>)
    ensures r.Fail? <==> && g.controls.Some? && g.buttonLabels.Some? && |g.buttonLabels.value| >= 2
                         && g.controls.value.player1.None?
    ensures r.Fail? ==> r.error == MissingPlayerControls(g.name)
    ensures r.Ok? ==> (r.value != g <==> SteersWithButtons(g))
    ensures r.Ok? ==> r.value.(buttonLabels := g.buttonLabels, controls := g.controls) == g
    ensures r.Ok? && r.value != g ==>
              && g.buttonLabels.Some? && |g.buttonLabels.value| >= 2
              && r.value.buttonLabels == Some(g.buttonLabels.value[2..])
              && r.value.controls.Some? && r.value.controls.value.player1.Some?
              && var p := r.value.controls.value.player1.value;
                 && p.ways == Some(2) && p.buttons == Some(|g.buttonLabels.value|)
                 && p.numberOfButtons == p.buttons
                 && (p.directions == Some(["left", "right"]) || p.directions == Some(["up", "down"]))
    ensures r.Ok? && g.buttonLabels.Some? && |g.buttonLabels.value| >= 2 && g.controls.Some?
            && g.controls.value.player1.Some?
            && (g.controls.value.player1.value.kind == "only_buttons" || g.controls.value.player1.value.kind == "pedal")
            && Mentions(g.buttonLabels.value[0], "up") && Mentions(g.buttonLabels.value[1], "down")
            ==> r.value.controls.value.player1.value.directions == Some(["up", "down"])
    ensures r.Ok? && g.buttonLabels.Some? && |g.buttonLabels.value| >= 2 && g.controls.Some?
            && g.controls.value.player1.Some?
            && (g.controls.value.player1.value.kind == "only_buttons" || g.controls.value.player1.value.kind == "pedal")
            && Mentions(g.buttonLabels.value[0], "left") && Mentions(g.buttonLabels.value[1], "right")
            && !(Mentions(g.buttonLabels.value[0], "up") && Mentions(g.buttonLabels.value[1], "down"))
            ==> r.value.controls.value.player1.value.directions == Some(["left", "right"])
  {
    if g.controls.None? || g.buttonLabels.None? then Ok(g)
    else
      var labels := g.buttonLabels.value;
      if |labels| < 2 then Ok(g)
      else match g.controls.value.player1
        case None => Fail(MissingPlayerControls(g.name))
        case Some(p) =>
          if p.kind != "only_buttons" && p.kind != "pedal" then Ok(g)
          else
            var g1 := if Mentions(labels[0], "left") && Mentions(labels[1], "right")
                      then AsDirections(g, labels, p, ["left", "right"]) else g;
            var p1 := g1.controls.value.player1.value;
            var g2 := if Mentions(labels[0], "up") && Mentions(labels[1], "down")
                      then AsDirections(g1, labels, p1, ["up", "down"]) else g1;
            Ok(g2)
  }

  // ---------------------------------------------------------------------
  // Placeholder filling

  /** One replacement: key, value, and whether the value is inserted as HTML. */
  datatype Fill = Fill(key: string, value: Value, isHtml: bool)

  function FillAll(html: string, fills: seq<Fill>, encode: string -> string): (r: string)
    ensures |fills| == 0 ==> r == html
    decreases |fills|
  {
    if |fills| == 0 then html
    else FillAll(Template.ReplacePlaceholder(fills[0].key, fills[0].value, html, fills[0].isHtml, encode), fills[1..], encode)
  }

  /** `replaceResourcePlaceholder` for each resource string. */
  function ResourceFills(resources: seq<(string, string)>): (r: seq<Fill>)
    ensures |r| == |resources|
    ensures forall i :: 0 <= i < |resources| ==> r[i] == Fill("resource-" + resources[i].0, Str(resources[i].1), false)
  {
    seq(|resources|, i requires 0 <= i < |resources| => Fill("resource-" + resources[i].0, Str(resources[i].1), false))
  }

  function FieldFills(fields: seq<(string, Value)>): (r: seq<Fill>)
    ensures |r| == |fields|
    ensures forall i :: 0 <= i < |fields| ==> r[i] == Fill(fields[i].0, fields[i].1, false)
  {
    seq(|fields|, i requires 0 <= i < |fields| => Fill(fields[i].0, fields[i].1, false))
  }

  /** The artwork of a MAME game as the document uses it; other games leave
      it undefined. */
  datatype Art = Art(choice: Artwork.Choice, aspectStyle: string)

  function ArtName(art: Option<Art>): Option<string> {
    match art case Some(a) => Some(a.choice.artworkName) case None => None
  }

  function BezelName(art: Option<Art>): Option<string> {
    match art case Some(a) => Some(a.choice.bezel) case None => None
  }

  function BezelStyle(s: Settings, art: Option<Art>): (r: string)
    ensures var directive := if art.Some? && art.value.aspectStyle != "" then "aspect-ratio:" + art.value.aspectStyle else "";
            EndsWith(r, ");" + directive + "\"")
  {
    var directive := if art.Some? && art.value.aspectStyle != "" then "aspect-ratio:" + art.value.aspectStyle else "";
    var head := "style=\"background-image: url(&quot;../mame/artwork/" + s.encodeUri(Text(ArtName(art))) + "/"
                + s.encodeUri(Text(BezelName(art))) + ".png&quot;";
    var r := head + ");" + directive + "\"";
    assert r[|r| - |");" + directive + "\""|..] == ");" + directive + "\"";
    r
  }

  function OverlayStyle(s: Settings, art: Option<Art>): (r: string)
    ensures r == "" <==> art.None? || !Present(art.value.choice.overlay)
  {
    if art.Some? && Present(art.value.choice.overlay) then
      "style=\"background-image: url(../mame/artwork/" + s.encodeUri(art.value.choice.artworkName) + "/"
        + s.encodeUri(art.value.choice.overlay.value) + ".png)\""
    else ""
  }

  /** `game.players || 'NA'`. */
  function Players(players: Option<int>): (v: Value)
    ensures players.None? || players == Some(0) <==> v == Str("NA")
  {
    match players
    case Some(n) => if n == 0 then Str("NA") else Num(n)
    case None => Str("NA")
  }

  /** `players == 1 ? 'N/A' : alternating ? yes : no`. */
  function AlternatingYesNo(s: Settings, g: Game): Value {
    if g.players == Some(1) then Str("N/A") else if g.alternating then s.yes else s.no
  }

  /** The placeholders filled after the game's own fields, in order. */
  const FixedKeys: seq<string> :=
    [ "video-name", "bezel-style", "overlay-style", "artwork-name", "bezel-image-name", "logo-name",
      "rating", "story", "json", "dosbox-emulator", "author", "appName", "yearCurrent", "genres",
      "avatarName", "avatarFolder", "iconName", "players", "buttonLabels", "generalOrMature",
      "alternatingYesNo" ]

  /** Whether each of them is inserted as HTML rather than encoded: the
      URL parts, the styles, the JSON and the avatar and icon names are. */
  const FixedIsHtml: seq<bool> :=
    [ true, true, true, true, true, true,
      false, false, true, false, false, false, false, false,
      true, true, true, false, false, false,
      false ]

  /** The replacements after the game's own fields, in order. */
  function FixedFills(s: Settings, g: Game, m: Media.Published, art: Option<Art>): (r: seq<Fill>)
    ensures |r| == |FixedKeys| == |FixedIsHtml| == 21
    ensures forall i :: 0 <= i < |r| ==> r[i].key != ""
    ensures forall i :: 0 <= i < |r| ==> r[i].key == FixedKeys[i] && r[i].isHtml == FixedIsHtml[i]
  {
    [ Fill("video-name", Str(s.encodeUri(Text(m.videoName))), true),
      Fill("bezel-style", Str(BezelStyle(s, art)), true),
      Fill("overlay-style", Str(OverlayStyle(s, art)), true),
      Fill("artwork-name", Str(s.encodeUri(Text(ArtName(art)))), true),
      Fill("bezel-image-name", Str(s.encodeUri(Text(BezelName(art)))), true),
      Fill("logo-name", Str(s.encodeUri(Text(m.logoName))), true),
      Fill("rating", Str("--"), false),
      Fill("story", Str(""), false),
      Fill("json", Str(s.stringify(g)), true),
      Fill("dosbox-emulator", Str(s.dosboxEmulator), false),
      Fill("author", s.author, false),
      Fill("appName", s.appName, false),
      Fill("yearCurrent", s.yearCurrent, false),
      Fill("genres", Str(Join(g.genres, ", ")), false),
      Fill("avatarName", Str(s.encodeUri(m.avatar.name)), true),
      Fill("avatarFolder", Str(s.encodeUri(m.avatar.folder)), true),
      Fill("iconName", Str(s.encodeUri(Text(m.icon.name))), true),
      Fill("players", Players(g.players), false),
      Fill("buttonLabels", Str(Join(g.buttonLabels.GetOr([]), ", ")), false),
      Fill("generalOrMature", Str(if g.mature then "mature" else "general"), false),
      Fill("alternatingYesNo", AlternatingYesNo(s, g), false) ]
  }

  /** Every replacement of the document, in the order they are applied. */
  function AllFills(s: Settings, g: Game, m: Media.Published, art: Option<Art>): seq<Fill> {
    ResourceFills(s.resources) + FieldFills(s.fields(g)) + FixedFills(s, g, m, art)
  }

  // ---------------------------------------------------------------------
  // The page

  function BodyOpen(s: Settings, background: string): string {
    "<body class=\"" + (if s.fullScreen then "full-screen" else "") + "\" dir=\"" + (if s.rtl then "rtl" else "ltr")
      + "\" style=\"background-image:url(../images/backgrounds/" + background + ".png)\">"
  }

  function Wrap(language: string, html: string): string {
    "<!DOCTYPE html><html lang=\"" + language + "\">" + html + "</html>"
  }

  /** The leftover-placeholder backstop, then the wrapper. */
  function Finish(language: string, name: string, html: string): (r: Result<string>)
    ensures r.Fail? <==> Contains(html, "{{") && Contains(html, "}}")
    ensures r.Fail? ==> r.error == BadTemplate(name)
    ensures r.Ok? ==> r.value == Wrap(language, html)
  {
    if Contains(html, "{{") && Contains(html, "}}") then Fail(BadTemplate(name)) else Ok(Wrap(language, html))
  }

  /** `<system lowercased>-<name>-<run id>.html` under `public/games`. */
  function PagePath(system: string, name: string, hash: string): Path {
    ["public", "games", Lower(system) + "-" + name + "-" + hash + ".html"]
  }

  /** What the document step produces. */
  datatype Page = Page(
    path: Path,
    html: string,
    game: Game,                     // the game as serialised into the page
    genresUsed: set<string>,
    systemsUsed: set<string>,
    copies: seq<Copy>)              // the extra images copied

  /** The pieces of one document, each from the most specific tier that
      has it. */
  datatype Pieces = Pieces(head: string, content: string, headline: string, navigation: string,
                           extras: string, decoration: string, footer: string, scripts: string)

  /** Loading the pieces fails on the first one that cannot be read. The
      head, sections, headline, navigation and extras pieces see the genres
      as the media step left them, the footer and scripts pieces the genres
      after the extra-image search. */
  function LoadPieces(store: Store, s: Settings, g: Game, late: Game, hasLogo: bool, hasVideo: bool,
                      decoration: string): (r: Result<Pieces>)
    ensures r.Ok? <==> && LoadPiece(store, "head", g).Ok?
                       && SectionsHtml(store, s.sections, s, g, hasVideo).Ok?
                       && LoadPiece(store, if hasLogo then "headline-image" else "headline", g).Ok?
                       && LoadPiece(store, "navigation", g).Ok? && LoadPiece(store, "extras", g).Ok?
                       && Template.CommonPiece(store, decoration).Some?
                       && LoadPiece(store, "footer", late).Ok? && LoadPiece(store, "scripts", late).Ok?
    ensures r.Ok? ==> && r.value.headline == LoadPiece(store, if hasLogo then "headline-image" else "headline", g).value
                      && r.value.footer == LoadPiece(store, "footer", late).value
                      && r.value.decoration == Template.CommonPiece(store, decoration).value
  {
    match LoadPiece(store, "head", g)
    case Fail(e) => Fail(e)
    case Ok(head) =>
    match SectionsHtml(store, s.sections, s, g, hasVideo)
    case Fail(e) => Fail(e)
    case Ok(content) =>
    match LoadPiece(store, if hasLogo then "headline-image" else "headline", g)
    case Fail(e) => Fail(e)
    case Ok(headline) =>
    match LoadPiece(store, "navigation", g)
    case Fail(e) => Fail(e)
    case Ok(navigation) =>
    match LoadPiece(store, "extras", g)
    case Fail(e) => Fail(e)
    case Ok(extras) =>
    match Template.CommonPiece(store, decoration)
    case None => Fail(UnreadableTemplate(Template.PiecePath(["common"], decoration)))
    case Some(decorationTemplate) =>
    match LoadPiece(store, "footer", late)
    case Fail(e) => Fail(e)
    case Ok(footer) =>
    match LoadPiece(store, "scripts", late)
    case Fail(e) => Fail(e)
    case Ok(scripts) =>
      Ok(Pieces(head, content, headline, navigation, extras, decorationTemplate, footer, scripts))
  }

  /** The header: the tabstrip and then the genre list placed into the
      headline and navigation pieces. */
  function HeaderHtml(store: Store, s: Settings, p: Pieces, genres: seq<string>): string {
    var tabstrip := Template.ReplaceComponentPlaceholderHtml("tabs", Concat(TabsHtml(s, s.sections)), s.tabstripTemplate);
    var genreList := Template.ReplaceComponentPlaceholderHtml("genres", Concat(GenreItems(store, s, genres)), s.genreListTemplate);
    Template.ReplaceComponentPlaceholderHtml("genre-list", genreList,
      Template.ReplaceComponentPlaceholderHtml("tabstrip", tabstrip, p.headline + p.navigation))
  }

  /** The document before its placeholders are filled. */
  function Skeleton(s: Settings, p: Pieces, inlineCssHtml: string, background: string, header: string,
                    extraHtml: string): (r: string)
    ensures StartsWith(r, "<head>" + p.head + inlineCssHtml + "</head>" + BodyOpen(s, background))
    ensures EndsWith(r, extraHtml + p.scripts + "</body>")
  {
    var open := "<head>" + p.head + inlineCssHtml + "</head>" + BodyOpen(s, background);
    var mid := "<header>" + header + "</header>" + "<main>" + p.content + "</main>"
               + "<footer>" + p.footer + "</footer>";
    var close := extraHtml + p.scripts + "</body>";
    assert (open + mid + close)[..|open|] == open;
    assert (open + mid + close)[|open + mid|..] == close;
    open + mid + close
  }

  /** The document step. `g` carries the genres as the media step left them. */
  function Compose(store: Store, s: Settings, g: Game, m: Media.Published, art: Option<Art>,
                   genresUsed: set<string>, systemsUsed: set<string>): (r: Result<Page>)
    ensures r.Ok? ==> r.value.path == PagePath(g.system, g.name, s.htmlHash)
    ensures r.Ok? ==> r.value.genresUsed == genresUsed + (set x | x in g.genres)
    ensures r.Ok? ==> r.value.systemsUsed == systemsUsed + {g.system}
    ensures r.Ok? ==> exists inner :: r.value.html == Wrap(s.language, inner) && !(Contains(inner, "{{") && Contains(inner, "}}"))
    ensures var src := Extras.ChooseExtras(store, g.name, g.system, g.genres, s.listingDepth);
            var late := g.(genres := src.genres);
            var pieces := LoadPieces(store, s, g, late, m.logoName.Some?, m.videoName.Some?, Extras.DecorationPiece(src.kind));
            && (pieces.Fail? ==> r == Fail(pieces.error))
            && (pieces.Ok? && RewriteButtons(late).Fail? ==> r == Fail(MissingPlayerControls(g.name)))
            && (r.Ok? ==> && pieces.Ok? && RewriteButtons(late).Ok?
                          && r.value.game == RewriteButtons(late).value
                          && r.value.game.genres == src.genres
                          && r.value.copies == PublishAll(store, Extras.ImagePaths(src.dir, src.images)))
  {
    var src := Extras.ChooseExtras(store, g.name, g.system, g.genres, s.listingDepth);
    var late := g.(genres := src.genres);
    match LoadPieces(store, s, g, late, m.logoName.Some?, m.videoName.Some?, Extras.DecorationPiece(src.kind))
    case Fail(e) => Fail(e)
    case Ok(p) =>
    var extraHtml := Extras.ExtrasBlock(p.extras, Extras.ImagesHtml(p.decoration, src.urlPath, src.images, s.encode));
    var template := Skeleton(s, p, m.inlineCssHtml, m.background, HeaderHtml(store, s, p, late.genres), extraHtml);
    match RewriteButtons(late)
    case Fail(e) => Fail(e)
    case Ok(final) =>
    var html := FillAll(template, AllFills(s, final, m, art), s.encode);
    match Finish(s.language, g.name, html)
    case Fail(e) => Fail(e)
    case Ok(page) =>
      Ok(Page(PagePath(g.system, g.name, s.htmlHash), page, final, genresUsed + (set x | x in g.genres),
              systemsUsed + {g.system}, PublishAll(store, Extras.ImagePaths(src.dir, src.images))))
  }

  predicate BraceFreeText(s: string) {
    forall k :: 0 <= k < |s| ==> s[k] != '{' && s[k] != '}'
  }

  /** A two-brace marker found in `a + b + c` lies inside `b` when `a` and
      `c` have no braces. */
  lemma MarkerInMiddle(a: string, b: string, c: string, marker: string)
    requires marker == "{{" || marker == "}}"
    requires BraceFreeText(a) && BraceFreeText(c)
    ensures Contains(a + b + c, marker) ==> Contains(b, marker)
  {
    var w := a + b + c;
    if Contains(w, marker) {
      var i: nat :| i + |marker| <= |w| && OccursAt(w, marker, i);
      assert w[i] == w[i..i + 2][0] == marker[0];
      assert w[i + 1] == w[i..i + 2][1] == marker[1];
      assert |a| <= i && i + 1 < |a| + |b|;
      var k := i - |a|;
      assert b[k] == w[i] && b[k + 1] == w[i + 1];
      assert b[k..k + 2] == marker;
      assert OccursAt(b, marker, k);
    }
  }

  lemma MarkerStaysInside(a: string, b: string, c: string, marker: string)
    ensures Contains(b, marker) ==> Contains(a + b + c, marker)
  {
    if Contains(b, marker) {
      var j: nat :| j + |marker| <= |b| && OccursAt(b, marker, j);
      var w := a + b + c;
      assert w[|a| + j..|a| + j + |marker|] == b[j..j + |marker|];
      assert OccursAt(w, marker, |a| + j);
    }
  }

  /** Wrapping a page in a language tag without braces adds no placeholder
      markers, so no written document contains both `{{` and `}}`. */
  lemma WrapAddsNoMarkers(language: string, html: string, marker: string)
    requires marker == "{{" || marker == "}}"
    requires BraceFreeText(language)
    ensures Contains(Wrap(language, html), marker) <==> Contains(html, marker)
  {
    var pre := "<!DOCTYPE html><html lang=\"" + language + "\">";
    var post := "</html>";
    assert Wrap(language, html) == pre + html + post;
    BraceFree(pre, language);
    MarkerInMiddle(pre, html, post, marker);
    MarkerStaysInside(pre, html, post, marker);
  }

  lemma BraceFree(pre: string, language: string)
    requires pre == "<!DOCTYPE html><html lang=\"" + language + "\">"
    requires BraceFreeText(language)
    ensures BraceFreeText(pre)
  {
    var a := "<!DOCTYPE html><html lang=\"";
    assert forall k :: |a| <= k < |a| + |language| ==> pre[k] == language[k - |a|];
  }

  /** The backstop: for a configured language without braces, no document
      written contains both placeholder markers. */
  lemma NoWrittenPageHasMarkers(store: Store, s: Settings, g: Game, m: Media.Published, art: Option<Art>,
                                genresUsed: set<string>, systemsUsed: set<string>)
    requires BraceFreeText(s.language)
    ensures var r := Compose(store, s, g, m, art, genresUsed, systemsUsed);
            r.Ok? ==> !(Contains(r.value.html, "{{") && Contains(r.value.html, "}}"))
  {
    var r := Compose(store, s, g, m, art, genresUsed, systemsUsed);
    if r.Ok? {
      var inner :| r.value.html == Wrap(s.language, inner) && !(Contains(inner, "{{") && Contains(inner, "}}"));
      WrapAddsNoMarkers(s.language, inner, "{{");
      WrapAddsNoMarkers(s.language, inner, "}}");
    }
  }
}
