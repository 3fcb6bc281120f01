/** The extra images shown beside a game: where they are taken from (the
    game's own image or folder, then a genre's, then the system's), the
    decoration template each one fills, and the position number each image
    gets from a leading integer in its file name. */
module Extras {
  import opened Js
  import opened Strings
  import opened Assets
  import Files
  import Template

  // ---------------------------------------------------------------------
  // `parseInt(s, 10)`

  predicate IsDigit(c: char) { '0' <= c <= '9' }

  function DigitValue(c: char): (d: nat)
    requires IsDigit(c)
    ensures d < 10
  {
    (c as int - '0' as int) as nat
  }

  /** The length of the run of decimal digits that starts `s`. */
  function DigitRun(s: string): (n: nat)
    ensures n <= |s|
    ensures forall i :: 0 <= i < n ==> IsDigit(s[i])
    ensures n < |s| ==> !IsDigit(s[n])
    decreases |s|
  {
    if |s| == 0 || !IsDigit(s[0]) then 0 else 1 + DigitRun(s[1..])
  }

  /** The value of a string of decimal digits. */
  function DigitsValue(s: string): nat
    requires forall i :: 0 <= i < |s| ==> IsDigit(s[i])
    decreases |s|
  {
    if |s| == 0 then 0 else DigitsValue(s[..|s| - 1]) * 10 + DigitValue(s[|s| - 1])
  }

  /** `parseInt(s, 10)`: leading whitespace, an optional sign, then at least
      one digit; `None` stands for `NaN`. */
  function ParseInt(s: string): (r: Option<int>)
    ensures r.None? <==> var t := s[Template.WsRun(s)..];
                         var u := if |t| > 0 && (t[0] == '-' || t[0] == '+') then t[1..] else t;
                         DigitRun(u) == 0
  {
    var t := s[Template.WsRun(s)..];
    var negative := |t| > 0 && t[0] == '-';
    var u := if |t| > 0 && (t[0] == '-' || t[0] == '+') then t[1..] else t;
    var n := DigitRun(u);
    if n == 0 then None
    else
      var v: int := DigitsValue(u[..n]);
      Some(if negative then -v else v)
  }

  lemma DigitOfDigit(d: nat)
    requires d < 10
    ensures IsDigit(Digit(d)) && DigitValue(Digit(d)) == d
  {
  }

  lemma {:induction false} DigitsOfNatText(n: nat)
    ensures DigitsValue(NatText(n)) == n
    decreases n
  {
    var t := NatText(n);
    if n < 10 {
      DigitOfDigit(n);
      assert t == [Digit(n)];
      assert t[..0] == [];
    } else {
      DigitsOfNatText(n / 10);
      DigitOfDigit(n % 10);
      assert t[..|t| - 1] == NatText(n / 10);
    }
  }

  lemma {:induction false} DigitRunOfDigitsThen(ds: string, rest: string)
    requires forall i :: 0 <= i < |ds| ==> IsDigit(ds[i])
    requires |rest| == 0 || !IsDigit(rest[0])
    ensures DigitRun(ds + rest) == |ds|
    decreases |ds|
  {
    if |ds| > 0 {
      assert (ds + rest)[1..] == ds[1..] + rest;
      DigitRunOfDigitsThen(ds[1..], rest);
    } else {
      assert ds + rest == rest;
    }
  }

  /** `parseInt` reads back the decimal text of a number, whatever
      non-digit text follows it: an image named `3.png` is number 3. */
  lemma ParseIntOfNatText(n: nat, rest: string)
    requires |rest| == 0 || !IsDigit(rest[0])
    ensures ParseInt(NatText(n) + rest) == Some(n)
  {
    var s := NatText(n) + rest;
    assert s[0] == NatText(n)[0];
    assert Template.WsRun(s) == 0;
    assert s[0..] == s;
    DigitRunOfDigitsThen(NatText(n), rest);
    assert s[..|NatText(n)|] == NatText(n);
    DigitsOfNatText(n);
  }

  /** The `index` of the `i`-th image: its leading integer, else its
      position counted from one and capped at 4. */
  function ImageIndex(image: string, i: nat): (r: int)
    ensures ParseInt(image).Some? ==> r == ParseInt(image).value
    ensures ParseInt(image).None? ==> 1 <= r <= 4 && (i < 4 ==> r == i + 1)
  {
    match ParseInt(image)
    case Some(n) => n
    case None => if i + 1 < 4 then i + 1 else 4
  }

  // ---------------------------------------------------------------------
  // Where the extra images come from

  const ExtrasDir: Path := ["images", "extras"]

  function ExtraPath(stem: string): Path { ExtrasDir + [stem] }

  /** `genres.some(g => existsSync(images/extras/<g><suffix>))`. */
  predicate SomeGenreHas(store: Store, genres: seq<string>, suffix: string) {
    exists i :: 0 <= i < |genres| && Exists(store, ExtraPath(genres[i] + suffix))
  }

  /** `i` is the first genre that has the item. */
  predicate FirstGenreAt(store: Store, genres: seq<string>, suffix: string, i: int) {
    && 0 <= i < |genres|
    && Exists(store, ExtraPath(genres[i] + suffix))
    && forall k :: 0 <= k < i ==> !Exists(store, ExtraPath(genres[k] + suffix))
  }

  /** `genres.find(...)` when some genre has the item. */
  function FirstGenreWith(store: Store, genres: seq<string>, suffix: string): (r: nat)
    requires SomeGenreHas(store, genres, suffix)
    ensures FirstGenreAt(store, genres, suffix, r)
    decreases |genres|
  {
    if Exists(store, ExtraPath(genres[0] + suffix)) then 0
    else
      var i :| 0 <= i < |genres| && Exists(store, ExtraPath(genres[i] + suffix));
      assert genres[1..][i - 1] == genres[i];
      1 + FirstGenreWith(store, genres[1..], suffix)
  }

  /** Which tier the images came from: '' for the game's own, else 'genre'
      or 'system'. */
  datatype Source = Source(
    images: seq<string>,   // `extraImages`
    urlPath: string,       // `extraImagesUrlPath`
    dir: Path,             // `extraGameImagesPath`
    kind: string,          // `extraImagesType`
    genres: seq<string>)   // the game's genres afterwards

  /** Neither the game nor any of its genres has extra images. */
  predicate NoOwnOrGenreExtras(store: Store, name: string, genres: seq<string>) {
    && !Exists(store, ExtraPath(name + ".png")) && !Exists(store, ExtraPath(name + ".gif"))
    && !Exists(store, ExtraPath(name))
    && !SomeGenreHas(store, genres, " games.png") && !SomeGenreHas(store, genres, " games.gif")
    && !SomeGenreHas(store, genres, " games")
  }

  /** The extra-image chain. The genre tiers reverse the genres in place
      before searching them; their single image is named after the genre
      alone, and the genre folder's URL is built from the game's name, as the
      source does. */
  function ChooseExtras(store: Store, name: string, system: string, genres: seq<string>, depth: nat): (r: Source)
    ensures r.kind == "" || r.kind == "genre" || r.kind == "system"
    ensures r.genres == genres || (r.kind == "genre" && r.genres == Reverse(genres))
    // the game's own image, then its own folder
    ensures Exists(store, ExtraPath(name + ".png")) ==>
              r == Source([name + ".png"], "../images/extras", ExtrasDir, "", genres)
    ensures !Exists(store, ExtraPath(name + ".png")) && Exists(store, ExtraPath(name + ".gif")) ==>
              r == Source([name + ".gif"], "../images/extras", ExtrasDir, "", genres)
    ensures !Exists(store, ExtraPath(name + ".png")) && !Exists(store, ExtraPath(name + ".gif"))
            && Exists(store, ExtraPath(name)) ==>
              r == Source(Files.GetAllFileNames(store.listings, ExtraPath(name), ["png", "gif"], true, false, 1),
                          "../images/extras/" + name, ExtraPath(name), "", genres)
    // the genre tiers, searched in the reversed genre list
    ensures r.kind == "genre" <==>
              && !Exists(store, ExtraPath(name + ".png")) && !Exists(store, ExtraPath(name + ".gif"))
              && !Exists(store, ExtraPath(name))
              && (SomeGenreHas(store, genres, " games.png") || SomeGenreHas(store, genres, " games.gif")
                  || SomeGenreHas(store, genres, " games"))
    ensures r.kind == "genre" && SomeGenreHas(store, genres, " games.png") ==>
              exists i :: FirstGenreAt(store, Reverse(genres), " games.png", i)
                          && r == Source([Reverse(genres)[i] + ".png"], "../images/extras", ExtrasDir, "genre", Reverse(genres))
    ensures r.kind == "genre" && !SomeGenreHas(store, genres, " games.png") && SomeGenreHas(store, genres, " games.gif") ==>
              exists i :: FirstGenreAt(store, Reverse(genres), " games.gif", i)
                          && r == Source([Reverse(genres)[i] + ".gif"], "../images/extras", ExtrasDir, "genre", Reverse(genres))
    ensures r.kind == "genre" && !SomeGenreHas(store, genres, " games.png") && !SomeGenreHas(store, genres, " games.gif") ==>
              exists i :: FirstGenreAt(store, Reverse(genres), " games", i)
                          && r == Source(Files.GetAllFileNames(store.listings, ExtraPath(Reverse(genres)[i] + " games"),
                                                               ["png", "gif"], true, true, depth),
                                         "../images/extras/" + name + " games", ExtraPath(Reverse(genres)[i] + " games"),
                                         "genre", Reverse(genres))
    // the system tiers, then nothing
    ensures r.kind == "system" ==> !SomeGenreHas(store, genres, " games") && r.genres == genres
    ensures NoOwnOrGenreExtras(store, name, genres) && Exists(store, ExtraPath(system + ".png")) ==>
              r == Source([system + ".png"], "../images/extras", ExtrasDir, "system", genres)
    ensures NoOwnOrGenreExtras(store, name, genres) && !Exists(store, ExtraPath(system + ".png"))
            && Exists(store, ExtraPath(system + ".gif")) ==>
              r == Source([system + ".gif"], "../images/extras", ExtrasDir, "system", genres)
    ensures NoOwnOrGenreExtras(store, name, genres) && !Exists(store, ExtraPath(system + ".png"))
            && !Exists(store, ExtraPath(system + ".gif")) && Exists(store, ExtraPath(system)) ==>
              r == Source(Files.GetAllFileNames(store.listings, ExtraPath(system), ["png", "gif"], true, true, depth),
                          "../images/extras/" + system, ExtraPath(system), "system", genres)
    ensures NoOwnOrGenreExtras(store, name, genres) && !Exists(store, ExtraPath(system + ".png"))
            && !Exists(store, ExtraPath(system + ".gif")) && !Exists(store, ExtraPath(system)) ==>
              r == Source([], "../images/extras", ExtrasDir, "", genres)
  {
    var reversed := Reverse(genres);
    if Exists(store, ExtraPath(name + ".png")) then Source([name + ".png"], "../images/extras", ExtrasDir, "", genres)
    else if Exists(store, ExtraPath(name + ".gif")) then Source([name + ".gif"], "../images/extras", ExtrasDir, "", genres)
    else if Exists(store, ExtraPath(name)) then
      Source(Files.GetAllFileNames(store.listings, ExtraPath(name), ["png", "gif"], true, false, 1),
             "../images/extras/" + name, ExtraPath(name), "", genres)
    else if SomeGenreHas(store, genres, " games.png") then
      ReversedStillHas(store, genres, " games.png");
      Source([reversed[FirstGenreWith(store, reversed, " games.png")] + ".png"], "../images/extras", ExtrasDir, "genre", reversed)
    else if SomeGenreHas(store, genres, " games.gif") then
      ReversedStillHas(store, genres, " games.gif");
      Source([reversed[FirstGenreWith(store, reversed, " games.gif")] + ".gif"], "../images/extras", ExtrasDir, "genre", reversed)
    else if SomeGenreHas(store, genres, " games") then
      ReversedStillHas(store, genres, " games");
      var g := reversed[FirstGenreWith(store, reversed, " games")];
      Source(Files.GetAllFileNames(store.listings, ExtraPath(g + " games"), ["png", "gif"], true, true, depth),
             "../images/extras/" + name + " games", ExtraPath(g + " games"), "genre", reversed)
    else if Exists(store, ExtraPath(system + ".png")) then Source([system + ".png"], "../images/extras", ExtrasDir, "system", genres)
    else if Exists(store, ExtraPath(system + ".gif")) then Source([system + ".gif"], "../images/extras", ExtrasDir, "system", genres)
    else if Exists(store, ExtraPath(system)) then
      Source(Files.GetAllFileNames(store.listings, ExtraPath(system), ["png", "gif"], true, true, depth),
             "../images/extras/" + system, ExtraPath(system), "system", genres)
    else Source([], "../images/extras", ExtrasDir, "", genres)
  }

  lemma ReversedStillHas(store: Store, genres: seq<string>, suffix: string)
    requires SomeGenreHas(store, genres, suffix)
    ensures SomeGenreHas(store, Reverse(genres), suffix)
  {
    var i :| 0 <= i < |genres| && Exists(store, ExtraPath(genres[i] + suffix));
    assert Reverse(genres)[|genres| - 1 - i] == genres[i];
  }

  /** A genre tier uses the last-declared genre that has the item: searching
      the reversed list front to back finds the last match of the original. */
  lemma GenreTierTakesLastDeclared(store: Store, genres: seq<string>, suffix: string)
    requires SomeGenreHas(store, genres, suffix)
    ensures SomeGenreHas(store, Reverse(genres), suffix)
    ensures var i := |genres| - 1 - FirstGenreWith(store, Reverse(genres), suffix);
            && 0 <= i < |genres|
            && Reverse(genres)[FirstGenreWith(store, Reverse(genres), suffix)] == genres[i]
            && Exists(store, ExtraPath(genres[i] + suffix))
            && forall k :: i < k < |genres| ==> !Exists(store, ExtraPath(genres[k] + suffix))
  {
    ReversedStillHas(store, genres, suffix);
    var j := FirstGenreWith(store, Reverse(genres), suffix);
    var i := |genres| - 1 - j;
    forall k | i < k < |genres| ensures !Exists(store, ExtraPath(genres[k] + suffix)) {
      assert Reverse(genres)[|genres| - 1 - k] == genres[k];
    }
  }

  /** `'decoration' + kind + '-decoration'` for a genre or system image,
      plain `decoration` otherwise. */
  function DecorationPiece(kind: string): (r: string)
    ensures kind == "" ==> r == "decoration"
    ensures kind == "genre" ==> r == "decorationgenre-decoration"
    ensures kind == "system" ==> r == "decorationsystem-decoration"
  {
    if kind == "" then "decoration" else "decoration" + kind + "-decoration"
  }

  /** One filled decoration per image, in order. */
  function ImagesHtml(template: string, urlPath: string, images: seq<string>, encode: string -> string): (r: seq<string>)
    ensures |r| == |images|
    ensures forall i :: 0 <= i < |images| ==>
              r[i] == Template.ReplacePlaceholder("source", Str(urlPath + "/" + images[i]),
                        Template.ReplacePlaceholder("index", Num(ImageIndex(images[i], i)), template, false, encode),
                        false, encode)
  {
    seq(|images|, i requires 0 <= i < |images| =>
      Template.ReplacePlaceholder("source", Str(urlPath + "/" + images[i]),
        Template.ReplacePlaceholder("index", Num(ImageIndex(images[i], i)), template, false, encode),
        false, encode))
  }

  /** The images are copied from the folder they were found in. */
  function ImagePaths(dir: Path, images: seq<string>): (r: seq<Path>)
    ensures |r| == |images| && forall i :: 0 <= i < |images| ==> r[i] == dir + [images[i]]
  {
    seq(|images|, i requires 0 <= i < |images| => dir + [images[i]])
  }

  /** The extras block: the images joined with "," (an array turned into a
      string) into the extras piece, wrapped when anything is left. */
  function ExtrasBlock(extrasPiece: string, imagesHtml: seq<string>): (r: string)
    ensures var filled := Template.ReplaceComponentPlaceholderHtml("extraImages", Join(imagesHtml, ","), extrasPiece);
            r == (if filled == "" then "" else "<div id=\"extra\">" + filled + "</div>")
  {
    var filled := Template.ReplaceComponentPlaceholderHtml("extraImages", Join(imagesHtml, ","), extrasPiece);
    if filled == "" then "" else "<div id=\"extra\">" + filled + "</div>"
  }
}
