/** HTML template pieces and `{{ key }}` placeholder substitution. A piece is
    looked up game-first, then by genre, then by system, then in the common
    game templates; a placeholder is `{{`, optional whitespace, the key
    literally, optional whitespace, `}}`, and every occurrence is replaced. */
module Template {
  import opened Js
  import opened Strings
  import opened Assets

  // ---------------------------------------------------------------------
  // Placeholder matching

  /** The length of the run of `\s` characters that starts `s`. */
  function WsRun(s: string): (n: nat)
    ensures n <= |s|
    ensures AllSpace(s[..n])
    ensures n < |s| ==> !IsJsSpace(s[n])
    decreases |s|
  {
    if |s| == 0 || !IsJsSpace(s[0]) then 0
    else
      var k := WsRun(s[1..]);
      assert s[..k + 1] == [s[0]] + s[1..][..k];
      k + 1
  }

  /** `t[0..n]` is `{{`, whitespace up to `j`, the key, whitespace, `}}`. */
  predicate MatchShape(t: string, key: string, j: int, n: int) {
    && 2 <= j && j + |key| + 2 <= n <= |t|
    && t[..2] == "{{"
    && AllSpace(t[2..j])
    && t[j..j + |key|] == key
    && AllSpace(t[j + |key|..n - 2])
    && t[n - 2..n] == "}}"
  }

  /** With the first whitespace run ending at `j`, the key follows and the
      second (maximal) whitespace run is followed by `}}`. */
  predicate KeyFitsAt(t: string, key: string, j: nat)
    requires j <= |t|
  {
    && StartsWith(t[j..], key)
    && StartsWith(t[j + |key| + WsRun(t[j + |key|..])..], "}}")
  }

  /** The regular expression's backtracking over the first `\s*`: the longest
      whitespace run is tried first, then shorter ones down to none. */
  function TryKeyFrom(t: string, key: string, j: nat): (r: Option<nat>)
    requires 2 <= j <= |t|
    requires t[..2] == "{{" && AllSpace(t[2..j])
    ensures r.Some? ==> exists j' :: MatchShape(t, key, j', r.value)
    decreases j
  {
    if KeyFitsAt(t, key, j) then
      var a := j + |key|;
      var n := a + WsRun(t[a..]) + 2;
      assert t[a..n - 2] == t[a..][..WsRun(t[a..])];
      assert t[n - 2..n] == t[n - 2..][..2];
      assert MatchShape(t, key, j, n);
      Some(n)
    else if j == 2 then None
    else
      assert t[2..j - 1] == t[2..j][..j - 3];
      TryKeyFrom(t, key, j - 1)
  }

  /** The length of the placeholder for `key` that starts `t`, if one does. */
  function MatchLen(t: string, key: string): (r: Option<nat>)
    ensures r.Some? ==> exists j :: MatchShape(t, key, j, r.value)
  {
    if |t| < 2 || t[..2] != "{{" then None
    else
      var w := WsRun(t[2..]);
      assert t[2..2 + w] == t[2..][..w];
      TryKeyFrom(t, key, 2 + w)
  }

  /** `t.replace(/\{\{\s*key\s*\}\}/g, rep)`: a left-to-right scan that
      replaces each placeholder and resumes after it. */
  function ReplaceAll(t: string, key: string, rep: string): string
    decreases |t|
  {
    if |t| == 0 then ""
    else match MatchLen(t, key)
      case Some(n) => rep + ReplaceAll(t[n..], key, rep)
      case None => [t[0]] + ReplaceAll(t[1..], key, rep)
  }

  /** A placeholder for `key` starts somewhere in `t`. */
  ghost predicate HasPlaceholder(t: string, key: string) {
    exists i, j, n :: 0 <= i <= |t| && MatchShape(t[i..], key, j, n)
  }

  /** The placeholder text `{{` w1 key w2 `}}`. */
  function Placeholder(key: string, w1: string, w2: string): string {
    "{{" + w1 + key + w2 + "}}"
  }

  // ---------------------------------------------------------------------
  // Replacement entry points

  /** html-entities `encode`: falsy input gives '' without calling the
      encoder, otherwise the encoder sees the value's string form. */
  function EncodeValue(encode: string -> string, v: Value): (r: string)
    ensures Falsy(v) ==> r == ""
    ensures !Falsy(v) ==> r == encode(ToText(v))
  {
    if Falsy(v) then "" else encode(ToText(v))
  }

  /** `replacePlaceholder(key, value, template, isHtml)`. */
  function ReplacePlaceholder(key: string, value: Value, template: string, isHtml: bool,
                              encode: string -> string): string
  {
    ReplaceAll(template, key, if isHtml then ToText(value) else EncodeValue(encode, value))
  }

  function ReplaceResourcePlaceholder(key: string, value: string, template: string,
                                      encode: string -> string): string
  {
    ReplacePlaceholder("resource-" + key, Str(value), template, false, encode)
  }

  function ReplaceComponentPlaceholderHtml(key: string, value: string, template: string): string {
    ReplaceAll(template, "component-" + key, value)
  }

  // ---------------------------------------------------------------------
  // Properties of the substitution

  lemma WsRunOfSpacePrefix(w: string, x: string)
    requires AllSpace(w)
    ensures WsRun(w + x) == |w| + WsRun(x)
    decreases |w|
  {
    if |w| > 0 {
      assert (w + x)[1..] == w[1..] + x;
      WsRunOfSpacePrefix(w[1..], x);
    } else {
      assert w + x == x;
    }
  }

  lemma WsRunStops(x: string)
    requires |x| > 0 && !IsJsSpace(x[0])
    ensures WsRun(x) == 0
  {
  }

  /** A placeholder at the head of the text is matched whole, provided the
      key does not itself start with whitespace. */
  lemma {:induction false} PlaceholderMatches(key: string, w1: string, w2: string, rest: string)
    requires AllSpace(w1) && AllSpace(w2)
    requires |key| > 0 && !IsJsSpace(key[0])
    ensures MatchLen(Placeholder(key, w1, w2) + rest, key) == Some(|Placeholder(key, w1, w2)|)
  {
    var t := Placeholder(key, w1, w2) + rest;
    var close := "}}" + rest;
    assert t == "{{" + (w1 + (key + (w2 + close)));
    var j := 2 + |w1|;
    assert t[..2] == "{{";
    FirstRunEndsBeforeKey(key, w1, w2 + close);
    assert t[2..] == w1 + (key + (w2 + close));
    assert t[j..] == key + (w2 + close);
    assert t[j + |key|..] == w2 + close;
    SecondRunEndsBeforeClose(w2, close);
    assert t[j + |key| + |w2|..] == close;
    assert KeyFitsAt(t, key, j);
    MatchLenUnfold(t, key);
    TryKeyFromFits(t, key, j);
  }

  lemma FirstRunEndsBeforeKey(key: string, w1: string, rest: string)
    requires AllSpace(w1)
    requires |key| > 0 && !IsJsSpace(key[0])
    ensures WsRun(w1 + (key + rest)) == |w1|
  {
    WsRunOfSpacePrefix(w1, key + rest);
    assert (key + rest)[0] == key[0];
  }

  lemma SecondRunEndsBeforeClose(w2: string, close: string)
    requires AllSpace(w2)
    requires |close| > 0 && close[0] == '}'
    ensures WsRun(w2 + close) == |w2|
  {
    WsRunOfSpacePrefix(w2, close);
  }

  lemma MatchLenUnfold(t: string, key: string)
    requires |t| >= 2 && t[..2] == "{{"
    ensures 2 + WsRun(t[2..]) <= |t|
    ensures AllSpace(t[2..2 + WsRun(t[2..])])
    ensures MatchLen(t, key) == TryKeyFrom(t, key, 2 + WsRun(t[2..]))
  {
    assert t[2..2 + WsRun(t[2..])] == t[2..][..WsRun(t[2..])];
  }

  lemma TryKeyFromFits(t: string, key: string, j: nat)
    requires 2 <= j <= |t|
    requires t[..2] == "{{" && AllSpace(t[2..j])
    requires KeyFitsAt(t, key, j)
    ensures TryKeyFrom(t, key, j) == Some(j + |key| + WsRun(t[j + |key|..]) + 2)
  {
  }

  /** A text that does not start with `{` starts no placeholder. */
  lemma NoMatchWithoutBrace(t: string, key: string)
    requires |t| > 0 && t[0] != '{'
    ensures MatchLen(t, key) == None
  {
    if |t| >= 2 {
      assert t[..2][0] == t[0];
    }
  }

  /** One step of the scan over a character that starts no placeholder. */
  lemma ScanStep(t: string, key: string, rep: string)
    requires |t| > 0 && MatchLen(t, key) == None
    ensures ReplaceAll(t, key, rep) == [t[0]] + ReplaceAll(t[1..], key, rep)
  {
  }

  /** Text without `{` passes through the scan unchanged. */
  lemma {:induction false} BraceFreePrefix(x: string, y: string, key: string, rep: string)
    requires '{' !in x
    ensures ReplaceAll(x + y, key, rep) == x + ReplaceAll(y, key, rep)
    decreases |x|
  {
    if |x| > 0 {
      var t := x + y;
      assert t[0] == x[0];
      NoMatchWithoutBrace(t, key);
      ScanStep(t, key, rep);
      assert t[1..] == x[1..] + y;
      BraceFreePrefix(x[1..], y, key, rep);
      assert x == [x[0]] + x[1..];
    } else {
      assert x + y == y;
    }
  }

  /** With a key free of `{`, a placeholder holds `{` only in its opening
      `{{`. */
  lemma ShapeHasNoLaterBrace(t: string, key: string, j: int, n: int, k: int)
    requires MatchShape(t, key, j, n)
    requires '{' !in key
    requires 2 <= k < n
    ensures t[k] != '{'
  {
    if k < j {
      assert t[2..j][k - 2] == t[k];
    } else if k < j + |key| {
      assert t[j..j + |key|][k - j] == t[k];
      assert key[k - j] in key;
    } else if k < n - 2 {
      assert t[j + |key|..n - 2][k - j - |key|] == t[k];
    } else {
      assert t[n - 2..n][k - n + 2] == t[k];
    }
  }

  lemma SliceOfSharedPrefix(t: string, u: string, n: int, a: int, b: int)
    requires 0 <= a <= b <= n <= |t| && n <= |u| && t[..n] == u[..n]
    ensures t[a..b] == u[a..b]
  {
    forall k | a <= k < b ensures t[k] == u[k] {
      assert t[k] == t[..n][k] && u[k] == u[..n][k];
    }
  }

  /** A placeholder depends only on the characters it spans. */
  lemma ShapeOfPrefix(t: string, u: string, key: string, j: int, n: int)
    requires MatchShape(t, key, j, n)
    requires n <= |u| && t[..n] == u[..n]
    ensures MatchShape(u, key, j, n)
  {
    SliceOfSharedPrefix(t, u, n, 0, 2);
    SliceOfSharedPrefix(t, u, n, 2, j);
    SliceOfSharedPrefix(t, u, n, j, j + |key|);
    SliceOfSharedPrefix(t, u, n, j + |key|, n - 2);
    SliceOfSharedPrefix(t, u, n, n - 2, n);
    assert t[..2] == t[0..2] && u[..2] == u[0..2];
  }

  lemma ShapeIsPlaceholder(x: string, key: string, j: int, n: int)
    requires MatchShape(x, key, j, n)
    ensures HasPlaceholder(x, key)
  {
    assert x[0..] == x;
  }

  /** No placeholder starts in a segment that has none of its own when a
      `{{` follows the segment. */
  lemma NoMatchInSegment(x: string, y: string, key: string)
    requires |x| > 0 && !HasPlaceholder(x, key)
    requires '{' !in key
    requires |y| >= 2 && y[0] == '{' && y[1] == '{'
    ensures MatchLen(x + y, key) == None
  {
    var t := x + y;
    if MatchLen(t, key).Some? {
      var n := MatchLen(t, key).value;
      var j :| MatchShape(t, key, j, n);
      if n <= |x| {
        assert t[..n] == x[..n];
        ShapeOfPrefix(t, x, key, j, n);
        ShapeIsPlaceholder(x, key, j, n);
        assert false;
      } else {
        var k := if |x| >= 2 then |x| else 2;
        assert t[k] == '{';
        ShapeHasNoLaterBrace(t, key, j, n, k);
        assert false;
      }
    }
  }

  lemma TailHasNoPlaceholder(x: string, key: string)
    requires |x| > 0 && !HasPlaceholder(x, key)
    ensures !HasPlaceholder(x[1..], key)
  {
    forall i, j, n | 0 <= i <= |x[1..]| ensures !MatchShape(x[1..][i..], key, j, n) {
      assert x[1..][i..] == x[i + 1..];
    }
  }

  /** A segment without a placeholder of its own passes through the scan
      unchanged when a `{{` follows it. */
  lemma {:induction false} SegmentPassesThrough(x: string, y: string, key: string, rep: string)
    requires !HasPlaceholder(x, key)
    requires '{' !in key
    requires |y| >= 2 && y[0] == '{' && y[1] == '{'
    ensures ReplaceAll(x + y, key, rep) == x + ReplaceAll(y, key, rep)
    decreases |x|
  {
    if |x| > 0 {
      var t := x + y;
      NoMatchInSegment(x, y, key);
      ScanStep(t, key, rep);
      assert t[1..] == x[1..] + y;
      TailHasNoPlaceholder(x, key);
      SegmentPassesThrough(x[1..], y, key, rep);
      assert x == [x[0]] + x[1..];
    } else {
      assert x + y == y;
    }
  }

  /** Every occurrence is replaced: a template made of segments joined by
      placeholders for the key becomes the segments joined by the
      replacement, whatever else the segments hold (other placeholders,
      braces of inline style or script), provided no segment holds a
      placeholder for the key itself. */
  lemma {:induction false} ReplacesEveryOccurrence(segs: seq<string>, key: string, w1: string, w2: string, rep: string)
    requires |segs| >= 1
    requires forall s :: s in segs ==> !HasPlaceholder(s, key)
    requires AllSpace(w1) && AllSpace(w2)
    requires |key| > 0 && !IsJsSpace(key[0]) && '{' !in key
    ensures ReplaceAll(Join(segs, Placeholder(key, w1, w2)), key, rep) == Join(segs, rep)
    decreases |segs|
  {
    var p := Placeholder(key, w1, w2);
    assert segs[0] in segs;
    assert forall s :: s in segs[1..] ==> s in segs;
    if |segs| == 1 {
      NoPlaceholderUnchanged(segs[0], key, rep);
    } else {
      var tail := Join(segs[1..], p);
      assert Join(segs, p) == segs[0] + (p + tail);
      assert (p + tail)[0] == '{' && (p + tail)[1] == '{';
      SegmentPassesThrough(segs[0], p + tail, key, rep);
      ReplaceAtPlaceholder(key, w1, w2, tail, rep);
      ReplacesEveryOccurrence(segs[1..], key, w1, w2, rep);
      assert Join(segs, rep) == segs[0] + (rep + Join(segs[1..], rep));
    }
  }

  /** Text without `{` holds no placeholder. */
  lemma BraceFreeHasNoPlaceholder(x: string, key: string)
    requires '{' !in x
    ensures !HasPlaceholder(x, key)
  {
    forall i, j, n | 0 <= i <= |x| ensures !MatchShape(x[i..], key, j, n) {
      if i < |x| {
        assert x[i] in x;
      }
    }
  }

  /** A placeholder at the front is replaced whole. */
  lemma ReplaceAtPlaceholder(key: string, w1: string, w2: string, tail: string, rep: string)
    requires AllSpace(w1) && AllSpace(w2)
    requires |key| > 0 && !IsJsSpace(key[0])
    ensures ReplaceAll(Placeholder(key, w1, w2) + tail, key, rep) == rep + ReplaceAll(tail, key, rep)
  {
    var p := Placeholder(key, w1, w2);
    PlaceholderMatches(key, w1, w2, tail);
    assert (p + tail)[|p|..] == tail;
  }

  /** Nothing is replaced where no placeholder for the key occurs. */
  lemma {:induction false} NoPlaceholderUnchanged(t: string, key: string, rep: string)
    requires !HasPlaceholder(t, key)
    ensures ReplaceAll(t, key, rep) == t
    decreases |t|
  {
    if |t| > 0 {
      MatchGivesPlaceholder(t, key);
      forall i, j, n | 0 <= i <= |t[1..]| ensures !MatchShape(t[1..][i..], key, j, n) {
        assert t[1..][i..] == t[i + 1..];
      }
      NoPlaceholderUnchanged(t[1..], key, rep);
      assert t == [t[0]] + t[1..];
    }
  }

  lemma MatchGivesPlaceholder(t: string, key: string)
    ensures MatchLen(t, key).Some? ==> HasPlaceholder(t, key)
  {
    if MatchLen(t, key).Some? {
      var n := MatchLen(t, key).value;
      var j :| MatchShape(t, key, j, n);
      assert t[0..] == t;
      assert MatchShape(t[0..], key, j, n);
    }
  }

  /** A text placeholder carries the encoded value, or '' for a falsy one;
      an HTML placeholder carries the value's string form verbatim. */
  lemma PlaceholderValueForms(segs: seq<string>, key: string, w1: string, w2: string,
                              value: Value, encode: string -> string)
    requires |segs| >= 1
    requires forall s :: s in segs ==> !HasPlaceholder(s, key)
    requires AllSpace(w1) && AllSpace(w2)
    requires |key| > 0 && !IsJsSpace(key[0]) && '{' !in key
    ensures ReplacePlaceholder(key, value, Join(segs, Placeholder(key, w1, w2)), true, encode)
            == Join(segs, ToText(value))
    ensures !Falsy(value) ==>
              ReplacePlaceholder(key, value, Join(segs, Placeholder(key, w1, w2)), false, encode)
              == Join(segs, encode(ToText(value)))
    ensures Falsy(value) ==>
              ReplacePlaceholder(key, value, Join(segs, Placeholder(key, w1, w2)), false, encode)
              == Join(segs, "")
  {
    ReplacesEveryOccurrence(segs, key, w1, w2, ToText(value));
    ReplacesEveryOccurrence(segs, key, w1, w2, EncodeValue(encode, value));
  }

  /** Resource placeholders are `resource-` keys with encoded values;
      component placeholders are `component-` keys with verbatim HTML. */
  lemma PrefixedPlaceholders(segs: seq<string>, key: string, w1: string, w2: string,
                             value: string, encode: string -> string)
    requires |segs| >= 1
    requires forall s :: s in segs ==> !HasPlaceholder(s, "component-" + key) && !HasPlaceholder(s, "resource-" + key)
    requires AllSpace(w1) && AllSpace(w2)
    requires '{' !in key
    ensures ReplaceComponentPlaceholderHtml(key, value, Join(segs, Placeholder("component-" + key, w1, w2)))
            == Join(segs, value)
    ensures value != "" ==>
              ReplaceResourcePlaceholder(key, value, Join(segs, Placeholder("resource-" + key, w1, w2)), encode)
              == Join(segs, encode(value))
  {
    assert forall s :: s in segs ==> !HasPlaceholder(s, "component-" + key);
    assert forall s :: s in segs ==> !HasPlaceholder(s, "resource-" + key);
    ReplacesEveryOccurrence(segs, "component-" + key, w1, w2, value);
    ReplacesEveryOccurrence(segs, "resource-" + key, w1, w2, EncodeValue(encode, Str(value)));
  }

  // ---------------------------------------------------------------------
  // Template pieces

  /** `html/<dir>/<piece>.html`. */
  function PiecePath(dir: seq<string>, piece: string): Path {
    ["html"] + dir + [piece + ".html"]
  }

  /** `loadCommonTemplatePiece(piece)`; None when the read throws. */
  function CommonPiece(store: Store, piece: string): Option<string> {
    ReadText(store, PiecePath(["common"], piece))
  }

  /** Where `loadGameTemplatePiece` takes a piece from. */
  datatype Tier = GameTier | GenreTier(genre: string) | SystemTier | CommonTier

  /** The last genre, in list order, that has its own copy of the piece. */
  function LastGenreWithPiece(store: Store, genres: seq<string>, piece: string): (r: Option<nat>)
    ensures r.Some? ==> r.value < |genres| && Exists(store, PiecePath(["game", genres[r.value]], piece))
    ensures r.Some? ==> forall k :: r.value < k < |genres| ==> !Exists(store, PiecePath(["game", genres[k]], piece))
    ensures r.None? ==> forall k :: 0 <= k < |genres| ==> !Exists(store, PiecePath(["game", genres[k]], piece))
    decreases |genres|
  {
    if |genres| == 0 then None
    else
      var last := |genres| - 1;
      if Exists(store, PiecePath(["game", genres[last]], piece)) then Some(last)
      else LastGenreWithPiece(store, genres[..last], piece)
  }

  function PieceTier(store: Store, piece: string, name: string, genres: seq<string>, system: string): Tier {
    if Exists(store, PiecePath(["game", name], piece)) then GameTier
    else match LastGenreWithPiece(store, genres, piece)
      case Some(k) => GenreTier(genres[k])
      case None =>
        if Exists(store, PiecePath(["game", system], piece)) then SystemTier else CommonTier
  }

  /** The file a tier names. */
  function TierPath(t: Tier, piece: string, name: string, system: string): Path {
    match t
    case GameTier => PiecePath(["game", name], piece)
    case GenreTier(g) => PiecePath(["game", g], piece)
    case SystemTier => PiecePath(["game", system], piece)
    case CommonTier => PiecePath(["game"], piece)
  }

  /** `loadGameTemplatePiece(piece, game)` as written: a genre-level piece
      yields its path rather than its contents. */
  function GamePieceAsWritten(store: Store, piece: string, name: string, genres: seq<string>, system: string): (r: Option<string>)
    ensures PieceTier(store, piece, name, genres, system).GenreTier? ==>
              r == Some(JoinPath(TierPath(PieceTier(store, piece, name, genres, system), piece, name, system)))
    ensures !PieceTier(store, piece, name, genres, system).GenreTier? ==>
              r == ReadText(store, TierPath(PieceTier(store, piece, name, genres, system), piece, name, system))
  {
    match PieceTier(store, piece, name, genres, system)
    case GameTier => ReadText(store, PiecePath(["game", name], piece))
    case GenreTier(g) => Some(JoinPath(PiecePath(["game", g], piece)))
    case SystemTier => ReadText(store, PiecePath(["game", system], piece))
    case CommonTier => ReadText(store, PiecePath(["game"], piece))
  }

  /** `loadGameTemplatePiece(piece, game)` reading the piece of every tier,
      the genre tier included; None when the read throws. */
  function GamePiece(store: Store, piece: string, name: string, genres: seq<string>, system: string): (r: Option<string>)
    ensures var p := TierPath(PieceTier(store, piece, name, genres, system), piece, name, system);
            && (r.Some? <==> p in store.files)
            && (r.Some? ==> r.value == store.files[p])
  {
    ReadText(store, TierPath(PieceTier(store, piece, name, genres, system), piece, name, system))
  }

  /** A game whose only copy of `header` is its genre's gets the text of
      that file's path as its header, not the header. */
  lemma GenrePieceAsWrittenIsPath()
    ensures var store := Store(map[PiecePath(["game", "shooter"], "header") := "<header>"], map[], map[], map[]);
            && GamePieceAsWritten(store, "header", "zaxxon", ["shooter"], "mame")
               == Some(JoinPath(PiecePath(["game", "shooter"], "header")))
            && GamePiece(store, "header", "zaxxon", ["shooter"], "mame") == Some("<header>")
            && JoinPath(PiecePath(["game", "shooter"], "header")) != "<header>"
  {
    var store := Store(map[PiecePath(["game", "shooter"], "header") := "<header>"], map[], map[], map[]);
    assert PiecePath(["game", "zaxxon"], "header")[2] != PiecePath(["game", "shooter"], "header")[2];
    assert LastGenreWithPiece(store, ["shooter"], "header") == Some(0);
    assert PieceTier(store, "header", "zaxxon", ["shooter"], "mame") == GenreTier("shooter");
    var p := PiecePath(["game", "shooter"], "header");
    assert JoinPath(p) == p[0] + "/" + Join(p[1..], "/");
    assert JoinPath(p)[0] == 'h';
  }

  /** The resolution order of `loadGameTemplatePiece`, tier by tier. */
  lemma GamePieceOrder(store: Store, piece: string, name: string, genres: seq<string>, system: string)
    ensures PieceTier(store, piece, name, genres, system) == GameTier
            <==> Exists(store, PiecePath(["game", name], piece))
    ensures PieceTier(store, piece, name, genres, system).GenreTier? ==>
              var g := PieceTier(store, piece, name, genres, system).genre;
              && !Exists(store, PiecePath(["game", name], piece))
              && exists k :: 0 <= k < |genres| && genres[k] == g
                   && Exists(store, PiecePath(["game", g], piece))
                   && forall m :: k < m < |genres| ==> !Exists(store, PiecePath(["game", genres[m]], piece))
    ensures PieceTier(store, piece, name, genres, system) == SystemTier
            <==> && !Exists(store, PiecePath(["game", name], piece))
                 && (forall k :: 0 <= k < |genres| ==> !Exists(store, PiecePath(["game", genres[k]], piece)))
                 && Exists(store, PiecePath(["game", system], piece))
  {
  }

  /** `html/game[/<dir>]/sections/<piece>.html`. */
  function SectionPath(dir: seq<string>, piece: string): Path {
    ["html", "game"] + dir + ["sections", piece + ".html"]
  }

  /** `loadGameTemplateSectionPiece(piece, game)`: game, then system, then
      common; sections have no genre tier. */
  function SectionPiece(store: Store, piece: string, name: string, system: string): (r: Option<string>)
    ensures Exists(store, SectionPath([name], piece)) ==> r == ReadText(store, SectionPath([name], piece))
    ensures !Exists(store, SectionPath([name], piece)) && Exists(store, SectionPath([system], piece))
            ==> r == ReadText(store, SectionPath([system], piece))
    ensures !Exists(store, SectionPath([name], piece)) && !Exists(store, SectionPath([system], piece))
            ==> r == ReadText(store, SectionPath([], piece))
  {
    if Exists(store, SectionPath([name], piece)) then ReadText(store, SectionPath([name], piece))
    else if Exists(store, SectionPath([system], piece)) then ReadText(store, SectionPath([system], piece))
    else ReadText(store, SectionPath([], piece))
  }

  /** The opening tag of a section panel. */
  function SectionOpen(id: string, visible: bool, encode: string -> string): string {
    "<section role=\"tabpanel\" id=\"" + EncodeValue(encode, Str(id)) + "\""
      + (if visible then "" else " hidden") + ">"
  }

  /** `loadGameSectionHtml(id, game, id, visible)`. */
  function SectionHtml(store: Store, id: string, name: string, system: string, visible: bool,
                       encode: string -> string): Option<string>
  {
    match SectionPiece(store, id, name, system)
    case Some(body) => Some(SectionOpen(id, visible, encode) + body + "</section>")
    case None => None
  }

  /** Only the default section is shown: the panel's opening tag ends in
      `hidden>` exactly when it is not visible, and the panel wraps the
      section piece. */
  lemma SectionVisibility(store: Store, id: string, name: string, system: string, visible: bool,
                          encode: string -> string)
    ensures EndsWith(SectionOpen(id, visible, encode), " hidden>") <==> !visible
    ensures SectionHtml(store, id, name, system, visible, encode).Some?
            <==> SectionPiece(store, id, name, system).Some?
    ensures SectionHtml(store, id, name, system, visible, encode).Some? ==>
              var h := SectionHtml(store, id, name, system, visible, encode).value;
              && StartsWith(h, "<section role=\"tabpanel\" id=\"")
              && EndsWith(h, SectionPiece(store, id, name, system).value + "</section>")
  {
    var o := SectionOpen(id, visible, encode);
    if visible {
      assert o[|o| - 8..][6] == o[|o| - 2] == '"';
    }
    var prefix := "<section role=\"tabpanel\" id=\"";
    assert StartsWith(o, prefix);
    match SectionPiece(store, id, name, system)
    case Some(body) =>
      var h := o + body + "</section>";
      assert h[..|prefix|] == o[..|prefix|];
      assert h[|h| - |body + "</section>"|..] == body + "</section>";
    case None =>
  }
}
