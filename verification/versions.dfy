/** Choosing the MAME ROM dump-set version of a game and publishing its ROM
    archives. A version passes when every ROM the game needs is present in
    that version's directory; under a `merged` romset a clone's own archive is
    folded into its parent's and is neither required nor published. */
module Versions {
  import opened Js
  import opened Strings
  import opened Assets

  /** `romsetTypes[v] == 'merged'`; a version without an entry is not merged. */
  predicate IsMerged(romsetTypes: map<string, string>, v: string) {
    v in romsetTypes && romsetTypes[v] == "merged"
  }

  /** `mame/roms/<version>/<rom>.zip`. */
  function RomPath(version: string, rom: string): Path {
    ["mame", "roms", version, rom + ".zip"]
  }

  /** `xs.filter(x => x != drop)`. */
  function Without(xs: seq<string>, drop: string): (r: seq<string>)
    ensures |r| <= |xs|
    ensures forall x :: x in r <==> x in xs && x != drop
    ensures drop !in xs ==> r == xs
    decreases |xs|
  {
    if |xs| == 0 then []
    else if xs[0] == drop then Without(xs[1..], drop)
    else [xs[0]] + Without(xs[1..], drop)
  }

  /** The ROM ids a version must hold for the game. */
  function Required(romsetTypes: map<string, string>, v: string, roms: seq<string>,
                    name: string, cloneOf: Option<string>): seq<string>
  {
    if IsMerged(romsetTypes, v) && Present(cloneOf) then Without(roms, name) else roms
  }

  predicate Passes(store: Store, romsetTypes: map<string, string>, v: string, roms: seq<string>,
                   name: string, cloneOf: Option<string>)
  {
    forall r :: r in Required(romsetTypes, v, roms, name, cloneOf) ==> Exists(store, RomPath(v, r))
  }

  /** The number of entries of `versions` that pass (`foundVersions.length`). */
  function PassCount(store: Store, romsetTypes: map<string, string>, versions: seq<string>,
                     roms: seq<string>, name: string, cloneOf: Option<string>): (n: nat)
    ensures n <= |versions|
    ensures n == 0 <==> forall i :: 0 <= i < |versions| ==> !Passes(store, romsetTypes, versions[i], roms, name, cloneOf)
    decreases |versions|
  {
    if |versions| == 0 then 0
    else
      var rest := PassCount(store, romsetTypes, versions[1..], roms, name, cloneOf);
      assert forall i :: 1 <= i < |versions| ==> versions[1..][i - 1] == versions[i];
      (if Passes(store, romsetTypes, versions[0], roms, name, cloneOf) then 1 else 0) + rest
  }

  /** `versionMap.findIndex(v => !!v)`. */
  function FirstPassing(store: Store, romsetTypes: map<string, string>, versions: seq<string>,
                        roms: seq<string>, name: string, cloneOf: Option<string>): (r: Option<nat>)
    ensures r.Some? ==> r.value < |versions| && Passes(store, romsetTypes, versions[r.value], roms, name, cloneOf)
    ensures r.Some? ==> forall j :: 0 <= j < r.value ==> !Passes(store, romsetTypes, versions[j], roms, name, cloneOf)
    ensures r.None? <==> forall j :: 0 <= j < |versions| ==> !Passes(store, romsetTypes, versions[j], roms, name, cloneOf)
    decreases |versions|
  {
    if |versions| == 0 then None
    else if Passes(store, romsetTypes, versions[0], roms, name, cloneOf) then Some(0)
    else
      var rest := FirstPassing(store, romsetTypes, versions[1..], roms, name, cloneOf);
      assert forall i :: 1 <= i < |versions| ==> versions[1..][i - 1] == versions[i];
      match rest
      case Some(i) => Some(i + 1)
      case None => None
  }

  /** The chosen version and whether the choice was ambiguous. */
  datatype Choice = Choice(version: string, ambiguous: bool)

  /** The version-resolving function of the build. */
  function ResolveVersion(store: Store, romsetTypes: map<string, string>, versions: seq<string>,
                          preferred: string, roms: seq<string>, name: string,
                          cloneOf: Option<string>): (r: Choice)
    ensures var prefPasses := preferred in versions && Passes(store, romsetTypes, preferred, roms, name, cloneOf);
            && (prefPasses ==> r.version == preferred)
            && (r.ambiguous <==> PassCount(store, romsetTypes, versions, roms, name, cloneOf) > 1 && !prefPasses)
            && (!prefPasses ==> match FirstPassing(store, romsetTypes, versions, roms, name, cloneOf)
                                case Some(i) => r.version == versions[i]
                                case None => r.version == "")
    ensures r.version == "" || (r.version in versions && Passes(store, romsetTypes, r.version, roms, name, cloneOf))
  {
    var prefPasses := preferred in versions && Passes(store, romsetTypes, preferred, roms, name, cloneOf);
    var ambiguous := PassCount(store, romsetTypes, versions, roms, name, cloneOf) > 1 && !prefPasses;
    if prefPasses then Choice(preferred, ambiguous)
    else match FirstPassing(store, romsetTypes, versions, roms, name, cloneOf)
      case Some(i) => Choice(versions[i], ambiguous)
      case None => Choice("", ambiguous)
  }

  /** An ambiguous choice means two different positions of the version list
      pass. */
  lemma {:induction false} AmbiguousMeansTwoPass(store: Store, romsetTypes: map<string, string>, versions: seq<string>,
                                                 roms: seq<string>, name: string, cloneOf: Option<string>)
    requires PassCount(store, romsetTypes, versions, roms, name, cloneOf) > 1
    ensures exists i, j :: 0 <= i < j < |versions|
              && Passes(store, romsetTypes, versions[i], roms, name, cloneOf)
              && Passes(store, romsetTypes, versions[j], roms, name, cloneOf)
    decreases |versions|
  {
    var tail := versions[1..];
    assert forall i :: 1 <= i < |versions| ==> tail[i - 1] == versions[i];
    if Passes(store, romsetTypes, versions[0], roms, name, cloneOf) {
      var k :| 0 <= k < |tail| && Passes(store, romsetTypes, tail[k], roms, name, cloneOf);
      assert Passes(store, romsetTypes, versions[k + 1], roms, name, cloneOf);
    } else {
      AmbiguousMeansTwoPass(store, romsetTypes, tail, roms, name, cloneOf);
      var i, j :| 0 <= i < j < |tail|
              && Passes(store, romsetTypes, tail[i], roms, name, cloneOf)
              && Passes(store, romsetTypes, tail[j], roms, name, cloneOf);
      assert versions[i + 1] == tail[i] && versions[j + 1] == tail[j];
    }
  }

  /** The ROM list the game keeps once its version is known. */
  function FinalRoms(romsetTypes: map<string, string>, version: string, roms: seq<string>,
                     name: string, cloneOf: Option<string>): (r: seq<string>)
    ensures IsMerged(romsetTypes, version) && Present(cloneOf) ==>
              forall x :: x in r <==> x in roms && x != name
    ensures !(IsMerged(romsetTypes, version) && Present(cloneOf)) ==> r == roms
  {
    Required(romsetTypes, version, roms, name, cloneOf)
  }

  /** A chosen non-empty version holds every ROM the game keeps. */
  lemma ChosenVersionHoldsFinalRoms(store: Store, romsetTypes: map<string, string>, versions: seq<string>,
                                    preferred: string, roms: seq<string>, name: string, cloneOf: Option<string>)
    ensures var v := ResolveVersion(store, romsetTypes, versions, preferred, roms, name, cloneOf).version;
            v != "" ==> forall r :: r in FinalRoms(romsetTypes, v, roms, name, cloneOf) ==> Exists(store, RomPath(v, r))
  {
  }

  /** What publishing the ROM archives did: the copies and `missingRoms`. */
  datatype RomPublication = RomPublication(copies: seq<Copy>, missing: nat)

  /** The ROM loop. A MAME game copies from `<system>/roms/<version>/` to
      `public/<system>/roms/`, counting every ROM as missing when no version
      was found and none when one was (a failed copy is not counted); any
      other system copies `<system>/roms/<rom>.zip` and counts each ROM whose
      archive is absent. */
  function PublishRoms(store: Store, system: string, version: string, roms: seq<string>): (r: RomPublication)
    ensures Lower(system) == "mame" && version == "" ==> r == RomPublication([], |roms|)
    ensures Lower(system) == "mame" && version != "" ==> r.missing == 0
    ensures Lower(system) != "mame" ==> r.missing == |roms| - |r.copies|
    ensures forall c :: c in r.copies ==> Exists(store, c.source)
    ensures forall c :: c in r.copies ==> exists rom :: rom in roms && c == RomCopy(system, version, rom)
    ensures !(Lower(system) == "mame" && version == "") ==>
              forall rom :: rom in roms && Exists(store, RomCopy(system, version, rom).source) ==>
                RomCopy(system, version, rom) in r.copies
    ensures !(Lower(system) == "mame" && version == "") ==>
              |r.copies| + |AbsentRoms(store, system, version, roms)| == |roms|
    ensures Lower(system) != "mame" ==> r.missing == |AbsentRoms(store, system, version, roms)|
    decreases |roms|
  {
    if |roms| == 0 then RomPublication([], 0)
    else
      var rest := PublishRoms(store, system, version, roms[1..]);
      var rom := roms[0];
      assert forall x :: x in roms[1..] ==> x in roms;
      if Lower(system) == "mame" && version == "" then RomPublication([], rest.missing + 1)
      else if Exists(store, RomCopy(system, version, rom).source)
      then RomPublication([RomCopy(system, version, rom)] + rest.copies, rest.missing)
      else RomPublication(rest.copies, rest.missing + (if Lower(system) == "mame" then 0 else 1))
  }

  /** The ROMs whose archive is not in the store, in order. */
  function AbsentRoms(store: Store, system: string, version: string, roms: seq<string>): (r: seq<string>)
    ensures |r| <= |roms|
    ensures forall rom :: rom in r <==> rom in roms && !Exists(store, RomCopy(system, version, rom).source)
    decreases |roms|
  {
    if |roms| == 0 then []
    else
      var rest := AbsentRoms(store, system, version, roms[1..]);
      assert forall x :: x in roms <==> x == roms[0] || x in roms[1..];
      if Exists(store, RomCopy(system, version, roms[0]).source) then rest else [roms[0]] + rest
  }

  /** The copy made for one ROM. */
  function RomCopy(system: string, version: string, rom: string): Copy {
    if Lower(system) == "mame"
    then Copy([system, "roms", version, rom + ".zip"], ["public", system, "roms", rom + ".zip"])
    else Copy([system, "roms", rom + ".zip"], ["public", system, "roms", rom + ".zip"])
  }
}
