/** Choosing a MAME game's bezel and overlay images from its artwork
    directory, falling back to the generic horizontal or vertical artwork, and
    deriving the CSS aspect ratio of the bezel. */
module Artwork {
  import opened Js
  import opened Strings
  import opened Records

  /** The generic artwork for a resolution: horizontal when unknown or at
      least as wide as high. */
  function Generic(res: Option<Resolution>): (r: string)
    ensures r == "genhorizontal" <==> res.None? || res.value.width >= res.value.height
    ensures r == "genvertical" <==> res.Some? && res.value.width < res.value.height
  {
    if res.None? || res.value.width >= res.value.height then "genhorizontal" else "genvertical"
  }

  /** The generic artwork as the source computes it where it does not check
      for a missing resolution: reading `[0]` of `undefined` throws. */
  function GenericUnguarded(res: Option<Resolution>): (r: Option<string>)
    ensures r.None? <==> res.None?
    ensures r.Some? ==> r.value == Generic(res)
  {
    match res
    case None => None
    case Some(x) => Some(if x.width >= x.height then "genhorizontal" else "genvertical")
  }

  /** A game without a resolution and without artwork images makes the
      unguarded form fail, where the guarded one picks horizontal artwork. */
  lemma UnguardedFailsWithoutResolution()
    ensures GenericUnguarded(None).None?
    ensures Generic(None) == "genhorizontal"
  {
  }

  /** How many times `x` occurs in the listing. */
  function CountOf(xs: seq<string>, x: string): (n: nat)
    ensures n <= |xs|
    ensures n == 0 <==> x !in xs
    ensures n == multiset(xs)[x]
    decreases |xs|
  {
    if |xs| == 0 then 0
    else
      assert xs == [xs[0]] + xs[1..];
      (if xs[0] == x then 1 else 0) + CountOf(xs[1..], x)
  }

  /** The images whose lower-cased name contains "bezel", in order. */
  function WithBezel(pngs: seq<string>): (r: seq<string>)
    ensures |r| <= |pngs|
    ensures forall f :: f in r <==> f in pngs && Contains(Lower(f), "bezel")
    decreases |pngs|
  {
    if |pngs| == 0 then []
    else if Contains(Lower(pngs[0]), "bezel") then [pngs[0]] + WithBezel(pngs[1..])
    else WithBezel(pngs[1..])
  }

  /** `i` is the first position of `files` named "bezel" in any case. */
  predicate FirstExactAt(files: seq<string>, i: int) {
    0 <= i < |files| && Lower(files[i]) == "bezel" && forall j :: 0 <= j < i ==> Lower(files[j]) != "bezel"
  }

  lemma FirstExactShift(files: seq<string>)
    requires |files| > 0 && Lower(files[0]) != "bezel"
    ensures forall i :: FirstExactAt(files[1..], i) ==> FirstExactAt(files, i + 1)
  {
    forall i | FirstExactAt(files[1..], i) ensures FirstExactAt(files, i + 1) {
      assert forall j :: 1 <= j < i + 1 ==> files[j] == files[1..][j - 1];
    }
  }

  /** `find(f => f.toLowerCase() == 'bezel')`. */
  function FindExactBezel(files: seq<string>): (r: Option<string>)
    ensures r.Some? ==> r.value in files && Lower(r.value) == "bezel"
    ensures r.None? <==> forall f :: f in files ==> Lower(f) != "bezel"
    ensures r.Some? ==> exists i :: FirstExactAt(files, i) && files[i] == r.value
    decreases |files|
  {
    if |files| == 0 then None
    else if Lower(files[0]) == "bezel" then Some(files[0])
    else
      var r := FindExactBezel(files[1..]);
      assert forall f :: f in files[1..] ==> f in files;
      FirstExactShift(files);
      r
  }

  /** The directory the artwork is read from afterwards, the bezel image
      name and the overlay image name. */
  datatype Choice = Choice(artworkName: string, bezel: string, overlay: Option<string>)

  /** Bezel and overlay for a game with an artwork directory `dir` holding
      the images `pngs` (names without extension). */
  function SelectBezel(dir: string, pngs: seq<string>, res: Option<Resolution>): (r: Choice)
    ensures r.overlay == (if CountOf(pngs, "overlay") == 1 then Some("overlay") else None)
    ensures |pngs| == 1 ==> r.bezel == pngs[0] && r.artworkName == dir
    ensures |pngs| > 1 && |WithBezel(pngs)| == 1 ==> r.bezel == WithBezel(pngs)[0] && r.artworkName == dir
    ensures |pngs| > 1 && |WithBezel(pngs)| > 1 && FindExactBezel(WithBezel(pngs)).Some? ==>
              r.bezel == FindExactBezel(WithBezel(pngs)).value && r.artworkName == dir
    ensures (|pngs| > 1 && |WithBezel(pngs)| > 1 && FindExactBezel(WithBezel(pngs)).None?) || |pngs| == 0
              || (|pngs| > 1 && |WithBezel(pngs)| == 0)
            ==> r.bezel == "bezel" && r.artworkName == Generic(res)
    ensures r.artworkName == dir || r.artworkName == Generic(res)
  {
    var overlay := if CountOf(pngs, "overlay") == 1 then Some("overlay") else None;
    if |pngs| == 1 then Choice(dir, pngs[0], overlay)
    else if |pngs| > 1 then
      var withBezel := WithBezel(pngs);
      if |withBezel| == 1 then Choice(dir, withBezel[0], overlay)
      else if |withBezel| > 1 then
        match FindExactBezel(withBezel)
        case Some(b) => Choice(dir, b, overlay)
        case None => Choice(Generic(res), "bezel", overlay)
      else Choice(Generic(res), "bezel", overlay)
    else Choice(Generic(res), "bezel", overlay)
  }

  /** The chosen bezel is one of the directory's images unless the generic
      `bezel` image was chosen; in particular a lone image is the bezel even
      when it is the overlay. */
  lemma BezelIsListedOrGeneric(dir: string, pngs: seq<string>, res: Option<Resolution>)
    ensures var r := SelectBezel(dir, pngs, res);
            (r.bezel in pngs && r.artworkName == dir) || (r.bezel == "bezel" && r.artworkName == Generic(res))
    ensures pngs == ["overlay"] ==>
              SelectBezel(dir, pngs, res) == Choice(dir, "overlay", Some("overlay"))
  {
    var r := SelectBezel(dir, pngs, res);
    if |pngs| > 1 && |WithBezel(pngs)| >= 1 {
      assert WithBezel(pngs)[0] in WithBezel(pngs);
    }
    if pngs == ["overlay"] {
      assert CountOf(pngs, "overlay") == 1 by {
        assert pngs[1..] == [];
      }
    }
  }

  /** The bezel for a game without an artwork directory, as corrected: the
      generic artwork, horizontal when the resolution is unknown. */
  function NoArtworkDirectory(res: Option<Resolution>): (r: Choice)
    ensures r.bezel == "bezel" && r.overlay.None?
    ensures r.artworkName == "genhorizontal" <==> res.None? || res.value.width >= res.value.height
  {
    Choice(Generic(res), "bezel", None)
  }

  /** The CSS `aspect-ratio` value: empty for a 16:9 bezel, otherwise
      `<width> / <height>`. */
  function AspectStyle(width: nat, height: nat): (r: string)
    ensures r == "" <==> 9 * width == 16 * height
    ensures r != "" ==> r == NatText(width) + " / " + NatText(height)
  {
    if 9 * width == 16 * height then "" else NatText(width) + " / " + NatText(height)
  }
}
