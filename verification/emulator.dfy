/** Publishing the emulator binaries a game needs. DosBox games share one
    binary; a MAME game runs a binary named after its driver, which is derived
    from `parentSystem` and `cloneOf`. A binary is published once per run: its
    id joins the published set only when all of its files were copied. */
module Emulators {
  import opened Js
  import opened Strings
  import opened Assets

  /** Clones whose binary is their parent's, whatever `parentSystem` says. */
  const OddClones: seq<string> := ["gradius", "crimfghtu", "cyberbalt"]

  /** MAME games for which no binary can be found anywhere. */
  const UndiscoveredAssemblies: seq<string> :=
    ["ace", "carpolo", "clayshoo", "cybsled", "ddrdismx", "ddrstraw", "primrage", "tmek"]

  /** The binary id (`wasmFilename`); absent when it comes from an absent field. */
  function BinaryId(name: string, cloneOf: Option<string>, parentSystem: Option<string>): (w: Option<string>)
    ensures name in OddClones ==> w == cloneOf
    ensures name !in OddClones && parentSystem == cloneOf ==> w == Some(name)
    ensures name !in OddClones && parentSystem != cloneOf ==> w == parentSystem
  {
    if name in OddClones then cloneOf
    else if parentSystem == cloneOf then Some(name)
    else parentSystem
  }

  /** A game with neither `parentSystem` nor `cloneOf` runs its own binary,
      and so does a clone whose `parentSystem` names its parent; a game with a
      `parentSystem` of its own shares that binary. */
  lemma BinaryIdCases(name: string, cloneOf: Option<string>, parentSystem: Option<string>)
    requires name !in OddClones
    ensures cloneOf.None? && parentSystem.None? ==> BinaryId(name, cloneOf, parentSystem) == Some(name)
    ensures cloneOf.Some? && parentSystem == cloneOf ==> BinaryId(name, cloneOf, parentSystem) == Some(name)
    ensures parentSystem.Some? && cloneOf.None? ==> BinaryId(name, cloneOf, parentSystem) == parentSystem
  {
  }

  /** `mame${ w }`: an absent id prints as "undefined". */
  function MameBinaryName(w: Option<string>): string {
    "mame" + Text(w)
  }

  function DosboxWasm(emu: string): Path { ["dosbox", emu + ".wasm.gz"] }
  function DosboxScript(emu: string): Path { ["dosbox", emu + ".js.gz"] }
  function DosboxMeta(emu: string): Path { ["dosbox", emu + ".json"] }
  function MameWasm(w: Option<string>): Path { ["mame", MameBinaryName(w) + ".wasm.gz"] }
  function MameScript(w: Option<string>): Path { ["mame", MameBinaryName(w) + ".js.gz"] }

  const DosboxKey: Option<string> := Some("dosbox")

  /** What the emulator step did for one game. */
  datatype Outcome = Outcome(
    published: set<Option<string>>,           // `publishedEmulators` afterwards
    copies: seq<Copy>,
    missing: nat,                             // `missingEmulators` of the game
    totalMissing: nat,                        // added to `totalMissingEmulators`
    missingMetaData: bool,                    // the DosBox metadata file was absent
    externalEmulatorLocation: Option<string>) // the game's field afterwards

  function Miss(c: Option<Copy>): nat {
    if c.None? then 1 else 0
  }

  /** The DosBox branch. */
  function PublishDosbox(store: Store, published: set<Option<string>>, emu: string,
                         external: Option<string>): (r: Outcome)
    ensures DosboxKey in published ==> r == Outcome(published, [], 0, 0, false, external)
    ensures DosboxKey !in published ==>
              && r.missing == r.totalMissing
              && r.missing == Miss(Publish(store, DosboxWasm(emu))) + Miss(Publish(store, DosboxScript(emu)))
              && (r.missingMetaData <==> !Exists(store, DosboxMeta(emu)))
              && (DosboxKey in r.published <==> r.missing == 0 && !r.missingMetaData)
    ensures r.published == published || r.published == published + {DosboxKey}
    ensures DosboxKey in r.published && DosboxKey !in published ==>
              && Copy(DosboxWasm(emu), ["public"] + DosboxWasm(emu)) in r.copies
              && Copy(DosboxScript(emu), ["public"] + DosboxScript(emu)) in r.copies
              && Copy(DosboxMeta(emu), ["public"] + DosboxMeta(emu)) in r.copies
  {
    if DosboxKey in published then Outcome(published, [], 0, 0, false, external)
    else
      var wasm := Publish(store, DosboxWasm(emu));
      var script := Publish(store, DosboxScript(emu));
      var meta := Publish(store, DosboxMeta(emu));
      var missing := Miss(wasm) + Miss(script);
      var missingMeta := meta.None?;
      var published' := if missing == 0 && !missingMeta then published + {DosboxKey} else published;
      Outcome(published', CopiesOf(wasm) + CopiesOf(script) + CopiesOf(meta), missing, missing, missingMeta, external)
  }

  /** The MAME branch. Missing files of a binary are referenced remotely when
      an external location is configured, and counted otherwise. */
  function PublishMame(store: Store, published: set<Option<string>>, w: Option<string>,
                       external: Option<string>, configured: Option<string>): (r: Outcome)
    ensures w in published ==> r == Outcome(published, [], 0, 0, false, external)
    ensures w !in published ==>
              && r.missing == Miss(Publish(store, MameWasm(w))) + Miss(Publish(store, MameScript(w)))
              && (w in r.published <==> r.missing == 0)
    ensures r.missing > 0 && Present(configured) ==> r.totalMissing == 0 && r.externalEmulatorLocation == configured
    ensures r.missing > 0 && !Present(configured) ==> r.totalMissing == r.missing && r.externalEmulatorLocation == external
    ensures r.missing == 0 ==> r.totalMissing == 0 && r.externalEmulatorLocation == external
    ensures !r.missingMetaData
    ensures r.published == published || r.published == published + {w}
    ensures w in r.published && w !in published ==>
              && Copy(MameWasm(w), ["public"] + MameWasm(w)) in r.copies
              && Copy(MameScript(w), ["public"] + MameScript(w)) in r.copies
  {
    if w in published then Outcome(published, [], 0, 0, false, external)
    else
      var wasm := Publish(store, MameWasm(w));
      var script := Publish(store, MameScript(w));
      var missing := Miss(wasm) + Miss(script);
      var published' := if missing == 0 then published + {w} else published;
      var copies := CopiesOf(wasm) + CopiesOf(script);
      if missing > 0 && Present(configured) then Outcome(published', copies, missing, 0, false, configured)
      else Outcome(published', copies, missing, missing, false, external)
  }

  /** The emulator step for a game of any system. */
  function PublishEmulator(store: Store, published: set<Option<string>>, system: string, w: Option<string>,
                           dosboxEmulator: string, external: Option<string>, configured: Option<string>): (r: Outcome)
    ensures Lower(system) != "dosbox" && Lower(system) != "mame" ==>
              r == Outcome(published, [], 0, 0, false, external)
    ensures published <= r.published
  {
    if Lower(system) == "dosbox" then PublishDosbox(store, published, dosboxEmulator, external)
    else if Lower(system) == "mame" then PublishMame(store, published, w, external, configured)
    else Outcome(published, [], 0, 0, false, external)
  }

  /** The published set only grows, by at most one id, and an id joins it
      only once every file of that binary was copied in this step. */
  lemma PublishedOnlyGrowsWhenComplete(store: Store, published: set<Option<string>>, system: string,
                                       w: Option<string>, emu: string, external: Option<string>,
                                       configured: Option<string>)
    ensures var r := PublishEmulator(store, published, system, w, emu, external, configured);
            && published <= r.published
            && |r.published - published| <= 1
            && (forall k :: k in r.published - published ==>
                  || (k == DosboxKey && Lower(system) == "dosbox"
                      && Exists(store, DosboxWasm(emu)) && Exists(store, DosboxScript(emu))
                      && Exists(store, DosboxMeta(emu)))
                  || (k == w && Lower(system) == "mame"
                      && Exists(store, MameWasm(w)) && Exists(store, MameScript(w))))
  {
    var r := PublishEmulator(store, published, system, w, emu, external, configured);
    var k := if Lower(system) == "dosbox" then DosboxKey else w;
    assert r.published - published <= {k};
  }

  /** A binary already published is not copied again. */
  lemma PublishedOnce(store: Store, published: set<Option<string>>, system: string, w: Option<string>,
                      emu: string, external: Option<string>, configured: Option<string>)
    requires Lower(system) == "mame" && w in published
    ensures PublishEmulator(store, published, system, w, emu, external, configured).copies == []
    ensures PublishEmulator(store, published, system, w, emu, external, configured).missing == 0
  {
  }
}
