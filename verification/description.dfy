/** Normalising a game's display title: a trailing ", The" is moved to the
    front, and for MAME games a trailing parenthetical (region, revision) is
    dropped together with the whitespace around it. */
module Titles {
  import opened Js
  import opened Strings

  /** `d.split(', The').reverse().join('The ')`. */
  function MoveArticle(d: string): string {
    Join(Reverse(Split(d, ", The")), "The ")
  }

  /** A title without ", The" is left alone. */
  lemma MoveArticleWithoutArticle(d: string)
    requires !Contains(d, ", The")
    ensures MoveArticle(d) == d
  {
  }

  /** "Simpsons, The" becomes "The Simpsons". */
  lemma {:induction false} MoveArticleToFront(x: string)
    requires !Contains(x, ", The")
    ensures MoveArticle(x + ", The") == "The " + x
  {
    var p := ", The";
    var t := x + p;
    assert OccursAt(t, p, |x|) by {
      assert t[|x|..|x| + |p|] == p;
    }
    forall j | 0 <= j < |x| ensures !OccursAt(t, p, j) {
      if j + |p| <= |x| {
        OccursInPrefix(x, p, p, j);
        assert !OccursAt(x, p, j);
      } else {
        assert OccursAt(p, p, 0);
        NoStraddle(x, p, p, j);
      }
    }
    assert IndexOf(t, p) == Some(|x|);
    assert t[..|x|] == x;
    assert t[|x| + |p|..] == "";
    assert IndexOf("", p) == None;
    assert Split(t, p) == [x, ""];
    assert Reverse([x, ""]) == ["", x];
    assert ["", x][1..] == [x];
    assert Join(["", x], "The ") == "" + "The " + Join([x], "The ");
  }

  /** The index of the last non-`\s` character. */
  function LastNonSpace(t: string): (r: Option<nat>)
    ensures r.Some? ==> r.value < |t| && !IsJsSpace(t[r.value]) && AllSpace(t[r.value + 1..])
    ensures r.None? ==> AllSpace(t)
    decreases |t|
  {
    if |t| == 0 then None
    else if !IsJsSpace(t[|t| - 1]) then Some(|t| - 1)
    else
      var r := LastNonSpace(t[..|t| - 1]);
      assert r.Some? ==> t[r.value + 1..] == t[..|t| - 1][r.value + 1..] + [t[|t| - 1]];
      r
  }

  predicate NoLineTerminator(s: string) {
    forall i :: 0 <= i < |s| ==> !IsLineTerminator(s[i])
  }

  /** The maximal run of `\s` starting at `p` ends at `q`. */
  function RunEnd(t: string, p: nat): (q: nat)
    requires p <= |t|
    ensures p <= q <= |t| && AllSpace(t[p..q])
    ensures q < |t| ==> !IsJsSpace(t[q])
    decreases |t| - p
  {
    if p == |t| || !IsJsSpace(t[p]) then p
    else
      var q := RunEnd(t, p + 1);
      assert t[p..q] == [t[p]] + t[p + 1..q];
      q
  }

  /** `/\s*\(.*\)\s*$/` matches starting at `p`: whitespace, `(`, characters
      other than line terminators, `)`, whitespace to the end. Since `(` and
      `)` are not whitespace, the first run is maximal and `)` is the last
      non-whitespace character. */
  predicate TailMatchesAt(t: string, p: nat)
    requires p <= |t|
  {
    var q := RunEnd(t, p);
    && q < |t| && t[q] == '('
    && match LastNonSpace(t)
       case None => false
       case Some(r) => q < r && t[r] == ')' && NoLineTerminator(t[q + 1..r])
  }

  /** The leftmost position at or after `from` where the pattern matches. */
  function LeftmostMatch(t: string, from: nat): (r: Option<nat>)
    requires from <= |t|
    ensures r.Some? ==> from <= r.value <= |t| && TailMatchesAt(t, r.value)
    ensures r.Some? ==> forall p :: from <= p < r.value ==> !TailMatchesAt(t, p)
    ensures r.None? ==> forall p :: from <= p <= |t| ==> !TailMatchesAt(t, p)
    decreases |t| - from
  {
    if TailMatchesAt(t, from) then Some(from)
    else if from == |t| then None
    else LeftmostMatch(t, from + 1)
  }

  /** `d.replace(/\s*\(.*\)\s*$/, '')`. */
  function StripParenthetical(d: string): (r: string)
    ensures StartsWith(d, r)
    ensures r != d ==> TailMatchesAt(d, |r|)
    ensures forall p :: 0 <= p < |r| ==> !TailMatchesAt(d, p)
  {
    match LeftmostMatch(d, 0)
    case Some(p) => d[..p]
    case None => d
  }

  /** The title as the build stores it back into the game. */
  function NormalizeDescription(d: string, isMame: bool): string {
    var moved := MoveArticle(d);
    if isMame then StripParenthetical(moved) else moved
  }

  /** "Pac-Man (Midway)" becomes "Pac-Man": the parenthetical and the spaces
      before it go, when the title proper has no `(` and does not end in
      whitespace. */
  lemma {:induction false} StripsTrailingParenthetical(x: string, w: string, inner: string)
    requires '(' !in x
    requires |x| == 0 || !IsJsSpace(x[|x| - 1])
    requires AllSpace(w)
    requires NoLineTerminator(inner)
    ensures StripParenthetical(x + w + "(" + inner + ")") == x
  {
    var t := x + w + "(" + inner + ")";
    var q := |x| + |w|;
    assert t[q] == '(';
    assert LastNonSpace(t) == Some(|t| - 1);
    RunFromTitleEnd(x, w, "(" + inner + ")");
    assert t[q + 1..|t| - 1] == inner;
    assert TailMatchesAt(t, |x|);
    forall p | 0 <= p < |x| ensures !TailMatchesAt(t, p) {
      RunStaysInTitle(t, x, p);
    }
    NoEarlierMatch(t, |x|);
    assert t[..|x|] == x;
  }

  lemma RunFromTitleEnd(x: string, w: string, rest: string)
    requires AllSpace(w)
    requires |rest| > 0 && !IsJsSpace(rest[0])
    ensures RunEnd(x + w + rest, |x|) == |x| + |w|
    decreases |w|
  {
    var t := x + w + rest;
    if |w| == 0 {
      assert t[|x|] == rest[0];
    } else {
      assert t[|x|] == w[0];
      assert x + w + rest == (x + [w[0]]) + w[1..] + rest;
      RunFromTitleEnd(x + [w[0]], w[1..], rest);
    }
  }

  /** A whitespace run that starts inside the title stops inside it, on a
      character that is not `(`. */
  lemma RunStaysInTitle(t: string, x: string, p: nat)
    requires StartsWith(t, x) && p < |x|
    requires '(' !in x
    requires !IsJsSpace(x[|x| - 1])
    ensures !TailMatchesAt(t, p)
  {
    var q := RunEnd(t, p);
    assert q < |x| ==> t[q] == x[q];
  }

  lemma NoEarlierMatch(t: string, k: nat)
    requires k <= |t| && TailMatchesAt(t, k)
    requires forall p :: 0 <= p < k ==> !TailMatchesAt(t, p)
    ensures LeftmostMatch(t, 0) == Some(k)
  {
  }
}
