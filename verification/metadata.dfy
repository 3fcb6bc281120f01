/** The emulator metadata of a MAME game: chosen from the canonical files
    (the game's own, else its parent's), or fabricated from the naming
    conventions, then reconciled with the game record before it is written.
    The reconciliation keeps a run-wide cache of file-location "variations"
    per binary id, with a count of the games that needed one out of the games
    seen once a variation was known. */
module Canonical {
  import opened Js
  import opened Strings
  import opened Records
  import opened Assets
  import opened Report
  import Emulators

  /** The stem of the canonical file to load, if any. */
  function SelectStem(store: Store, name: string, cloneOf: Option<string>): (r: Option<string>)
    ensures HasCanonical(store, name) ==> r == Some(name)
    ensures !HasCanonical(store, name) && Present(cloneOf) && HasCanonical(store, cloneOf.value) ==> r == cloneOf
    ensures r.Some? ==> HasCanonical(store, r.value)
    ensures r.None? <==> !HasCanonical(store, name) && !(Present(cloneOf) && HasCanonical(store, cloneOf.value))
  {
    if HasCanonical(store, name) then Some(name)
    else if Present(cloneOf) && HasCanonical(store, cloneOf.value) then cloneOf
    else None
  }

  /** `mame<w>.js.gz`, `mame<w>.wasm.gz` and the key `mame<w>.wasm`. */
  function ScriptName(w: Option<string>): string { Emulators.MameBinaryName(w) + ".js.gz" }
  function WasmName(w: Option<string>): string { Emulators.MameBinaryName(w) + ".wasm.gz" }
  function WasmKey(w: Option<string>): string { Emulators.MameBinaryName(w) + ".wasm" }

  /** The run-wide variation cache, keyed by the binary id as an object key. */
  datatype Variations = Variations(locations: map<string, FileLocations>, counts: map<string, (nat, nat)>)

  /** Every count has its numerator at most its denominator. */
  ghost predicate CountsOrdered(v: Variations) {
    forall k :: k in v.counts ==> v.counts[k].0 <= v.counts[k].1
  }

  /** Metadata made up from the conventions, or from a known variation. */
  function Fabricate(description: string, name: string, w: Option<string>, v: Variations): (md: Metadata)
    ensures md.fileLocations.Some?
    ensures Text(w) in v.locations ==> md.fileLocations == Some(v.locations[Text(w)])
    ensures Text(w) !in v.locations ==> md.fileLocations == Some([(WasmKey(w), WasmKey(w) + ".gz")])
    ensures md.wasmjsFilename == Some(ScriptName(w)) && md.wasmFilename == Some(WasmName(w))
    ensures md.nativeResolution.None? && md.biosFilenames.None? && md.virtualFileSystem.None?
  {
    var locations :=
      if Text(w) in v.locations then v.locations[Text(w)] else [(WasmKey(w), WasmKey(w) + ".gz")];
    Metadata(description, w, name, Some("1"), Some([""]), Some([""]), Some(ScriptName(w)), Some(WasmName(w)),
             Some(locations), None, None, false, None, None)
  }

  /** The metadata the game starts from, whether it is missing canonical
      metadata, and `game.wasmProgramName` afterwards. */
  datatype Acquired = Acquired(md: Metadata, missingMetaData: bool, wasmProgramName: Option<string>)

  function Acquire(store: Store, description: string, name: string, cloneOf: Option<string>,
                   w: Option<string>, v: Variations, wasmProgramName: Option<string>): (r: Acquired)
    ensures match SelectStem(store, name, cloneOf)
            case Some(s) => (store.canonical[s].Some? ==>
                               r == Acquired(store.canonical[s].value.(name := description, driver := w, machineName := name),
                                             false, wasmProgramName))
                            && (store.canonical[s].None? ==> r.missingMetaData)
            case None => r.missingMetaData
    ensures r.missingMetaData ==> r.md == Fabricate(description, name, w, v)
    ensures r.missingMetaData && Text(w) in v.locations ==>
              r.wasmProgramName == (if |v.locations[Text(w)]| > 0 then Some(v.locations[Text(w)][0].0) else None)
    ensures r.missingMetaData && Text(w) !in v.locations ==> r.wasmProgramName == wasmProgramName
  {
    var loaded := match SelectStem(store, name, cloneOf)
      case Some(s) => store.canonical[s]
      case None => None;
    match loaded
    case Some(m) => Acquired(m.(name := description, driver := w, machineName := name), false, wasmProgramName)
    case None =>
      var program :=
        if Text(w) in v.locations
        then (if |v.locations[Text(w)]| > 0 then Some(v.locations[Text(w)][0].0) else None)
        else wasmProgramName;
      Acquired(Fabricate(description, name, w, v), true, program)
  }

  // ---------------------------------------------------------------------
  // Native resolution

  /** The published resolution, the game's resolution afterwards, and
      whether a mismatch is recorded. */
  datatype ResolutionOutcome = ResolutionOutcome(published: Resolution, game: Option<Resolution>, mismatch: bool)

  /** The canonical resolution is the source of truth: a differing width is
      a mismatch, a differing height is one except for 'invaders'. A vector
      game without a resolution publishes `[0, 0]`. */
  function ReconcileResolution(local: Option<Resolution>, canonical: Option<Resolution>, name: string): (r: ResolutionOutcome)
    ensures local.None? ==> r == ResolutionOutcome(Resolution(0, 0), None, false)
    ensures local.Some? && canonical.None? ==> r == ResolutionOutcome(local.value, local, false)
    ensures local.Some? && canonical.Some? ==>
              && r.published == canonical.value
              && r.game == canonical
              && (r.mismatch <==> canonical.value.width != local.value.width
                                  || (canonical.value.height != local.value.height && name != "invaders"))
  {
    match (local, canonical)
    case (None, _) => ResolutionOutcome(Resolution(0, 0), None, false)
    case (Some(l), None) => ResolutionOutcome(l, local, false)
    case (Some(l), Some(c)) =>
      // The width check first adopts the canonical value, so the height
      // check compares against it.
      var widthDiffers := c.width != l.width;
      var afterWidth := if widthDiffers then c else l;
      var heightDiffers := c.height != afterWidth.height;
      var mismatch := widthDiffers || (heightDiffers && name != "invaders");
      var after := if heightDiffers then c else afterWidth;
      ResolutionOutcome(c, Some(after), mismatch)
  }

  // ---------------------------------------------------------------------
  // File-location variations

  datatype VariationOutcome = VariationOutcome(cache: Variations, counted: bool)

  /** Metadata whose file locations lack the conventional key is a variation:
      it is cached for the binary and both counts go up, from `[0, 0]` when
      there were none. Otherwise only the denominator goes up, and only when
      counts exist. */
  function RecordVariation(v: Variations, w: Option<string>, locations: FileLocations): (r: VariationOutcome)
    ensures r.counted <==> WasmKey(w) !in Keys(locations)
    ensures var k := Text(w);
            var before := if k in v.counts then v.counts[k] else (0, 0);
            && (r.counted ==> r.cache == Variations(v.locations[k := locations], v.counts[k := (before.0 + 1, before.1 + 1)]))
            && (!r.counted && k in v.counts ==> r.cache == v.(counts := v.counts[k := (before.0, before.1 + 1)]))
            && (!r.counted && k !in v.counts ==> r.cache == v)
  {
    var k := Text(w);
    if WasmKey(w) !in Keys(locations) then
      var before := if k in v.counts then v.counts[k] else (0, 0);
      VariationOutcome(Variations(v.locations[k := locations], v.counts[k := (before.0 + 1, before.1 + 1)]), true)
    else if k in v.counts then
      var c := v.counts[k];
      VariationOutcome(v.(counts := v.counts[k := (c.0, c.1 + 1)]), false)
    else VariationOutcome(v, false)
  }

  /** The numerator never exceeds the denominator, and the first variation
      of a binary is counted `[1, 1]`. */
  lemma VariationCountsOrdered(v: Variations, w: Option<string>, locations: FileLocations)
    requires CountsOrdered(v)
    ensures CountsOrdered(RecordVariation(v, w, locations).cache)
    ensures Text(w) !in v.counts && WasmKey(w) !in Keys(locations) ==>
              RecordVariation(v, w, locations).cache.counts[Text(w)] == (1, 1)
  {
  }

  /** Fabricated conventional metadata is never counted as a variation. */
  lemma ConventionalNotCounted(description: string, name: string, w: Option<string>, v: Variations)
    requires Text(w) !in v.locations
    ensures !RecordVariation(v, w, Fabricate(description, name, w, v).fileLocations.value).counted
  {
    var fl := Fabricate(description, name, w, v).fileLocations.value;
    assert Keys(fl)[0] == WasmKey(w);
  }

  /** Metadata fabricated from a cached variation is counted again, since the
      cached locations lack the conventional key. */
  lemma CachedVariationCountedAgain(v: Variations, w: Option<string>, locations: FileLocations,
                                    description: string, name: string)
    requires WasmKey(w) !in Keys(locations)
    ensures var cache := RecordVariation(v, w, locations).cache;
            RecordVariation(cache, w, Fabricate(description, name, w, cache).fileLocations.value).counted
  {
  }

  // ---------------------------------------------------------------------
  // BIOS

  /** `files.map(file => file + '.zip')`. */
  function Zipped(files: seq<string>): (r: seq<string>)
    ensures |r| == |files|
    ensures forall i :: 0 <= i < |files| ==> r[i] == files[i] + ".zip"
  {
    seq(|files|, i requires 0 <= i < |files| => files[i] + ".zip")
  }

  datatype BiosOutcome = BiosOutcome(filenames: Option<seq<string>>, mismatch: bool)

  /** With BIOS files on the game, the published list is those files with
      `.zip` appended (`['']` when there are none), and a mismatch is counted
      when both first entries are non-empty and differ. */
  function ReconcileBios(gameBios: Option<seq<string>>, canonical: Option<seq<string>>): (r: BiosOutcome)
    ensures gameBios.None? ==> r == BiosOutcome(canonical, false)
    ensures gameBios.Some? && |gameBios.value| > 0 ==> r.filenames == Some(Zipped(gameBios.value))
    ensures gameBios.Some? && |gameBios.value| == 0 ==> r.filenames == Some([""])
    ensures r.mismatch <==>
              && gameBios.Some? && |gameBios.value| > 0 && gameBios.value[0] != ""
              && canonical.Some? && |canonical.value| > 0 && canonical.value[0] != ""
              && canonical.value[0] != gameBios.value[0]
  {
    match gameBios
    case None => BiosOutcome(canonical, false)
    case Some(files) =>
      // An empty canonical list reads `undefined` at index 0, which differs
      // from the game's entry but is falsy.
      var first := if canonical.Some? && |canonical.value| > 0 then Some(canonical.value[0]) else None;
      var mismatch := |files| > 0 && files[0] != "" && canonical.Some?
                      && first != Some(files[0]) && Present(first);
      var zipped := Zipped(files);
      BiosOutcome(Some(if |zipped| == 0 then [""] else zipped), mismatch)
  }

  // ---------------------------------------------------------------------
  // The whole reconciliation

  /** What reconciliation produced: the metadata to write, the game's
      resolution afterwards, the flags for the counters, and the cache. */
  datatype Reconciled = Reconciled(
    md: Metadata,
    gameResolution: Option<Resolution>,
    resolutionMismatch: bool,
    extraArguments: bool,
    scriptMismatch: bool,
    wasmMismatch: bool,
    variation: bool,
    biosMismatch: bool,
    cache: Variations)

  function Reconcile(md: Metadata, name: string, w: Option<string>, resolution: Option<Resolution>,
                     bios: Option<seq<string>>, vfs: Vfs, files: seq<VfsFile>, v: Variations): (r: Result<Reconciled>)
    ensures md.virtualFileSystem.Some? ==> r == Fail(ExistingVirtualFileSystem(name))
    ensures md.virtualFileSystem.None? && md.fileLocations.None? ==> r == Fail(MissingFileLocations(name))
    ensures md.virtualFileSystem.None? && md.fileLocations.Some? ==> r.Ok?
    ensures r.Ok? ==>
              && r.value.md.virtualFileSystem == Some(vfs)
              && r.value.md.files == Some(files)
              && r.value.md.keepAspect
              && r.value.md.fileLocations == md.fileLocations
              && (r.value.extraArguments <==> md.extraArgs.Some? && |md.extraArgs.value| > 0 && md.extraArgs.value[0] != "")
              && (r.value.scriptMismatch <==> Present(md.wasmjsFilename) && md.wasmjsFilename.value != ScriptName(w))
              && (r.value.wasmMismatch <==> Present(md.wasmFilename) && md.wasmFilename.value != WasmName(w))
              && (r.value.variation <==> WasmKey(w) !in Keys(md.fileLocations.value))
    ensures r.Ok? ==>
              var res := ReconcileResolution(resolution, md.nativeResolution, name);
              && r.value.md.nativeResolution == Some(res.published)
              && r.value.gameResolution == res.game
              && r.value.resolutionMismatch == res.mismatch
    ensures r.Ok? ==>
              var b := ReconcileBios(bios, md.biosFilenames);
              && r.value.md.biosFilenames == b.filenames
              && r.value.biosMismatch == b.mismatch
              && r.value.cache == RecordVariation(v, w, md.fileLocations.value).cache
  {
    if md.virtualFileSystem.Some? then Fail(ExistingVirtualFileSystem(name))
    else
      var extra := md.extraArgs.Some? && |md.extraArgs.value| > 0 && md.extraArgs.value[0] != "";
      var res := ReconcileResolution(resolution, md.nativeResolution, name);
      var scriptMismatch := Present(md.wasmjsFilename) && md.wasmjsFilename.value != ScriptName(w);
      var wasmMismatch := Present(md.wasmFilename) && md.wasmFilename.value != WasmName(w);
      match md.fileLocations
      case None => Fail(MissingFileLocations(name))
      case Some(locations) =>
        var variation := RecordVariation(v, w, locations);
        var b := ReconcileBios(bios, md.biosFilenames);
        var out := md.(virtualFileSystem := Some(vfs), files := Some(files), keepAspect := true,
                       nativeResolution := Some(res.published), biosFilenames := b.filenames);
        Ok(Reconciled(out, res.game, res.mismatch, extra, scriptMismatch, wasmMismatch,
                      variation.counted, b.mismatch, variation.cache))
  }

  /** The canonical resolution is what gets published: the written metadata
      and the game carry it, a mismatch is flagged exactly when the widths
      differ or, outside 'invaders', the heights do, and a game without a
      resolution publishes `[0, 0]` and keeps none. */
  lemma ReconciledResolution(md: Metadata, name: string, w: Option<string>, resolution: Option<Resolution>,
                             bios: Option<seq<string>>, vfs: Vfs, files: seq<VfsFile>, v: Variations)
    requires md.virtualFileSystem.None? && md.fileLocations.Some?
    ensures var r := Reconcile(md, name, w, resolution, bios, vfs, files, v);
            && r.Ok?
            && (resolution.None? ==>
                  r.value.md.nativeResolution == Some(Resolution(0, 0)) && r.value.gameResolution.None?
                  && !r.value.resolutionMismatch)
            && (resolution.Some? && md.nativeResolution.Some? ==>
                  && r.value.md.nativeResolution == md.nativeResolution
                  && r.value.gameResolution == md.nativeResolution
                  && (r.value.resolutionMismatch <==>
                        md.nativeResolution.value.width != resolution.value.width
                        || (md.nativeResolution.value.height != resolution.value.height && name != "invaders")))
            && (resolution.Some? && md.nativeResolution.None? ==>
                  r.value.md.nativeResolution == resolution && r.value.gameResolution == resolution
                  && !r.value.resolutionMismatch)
  {
  }

  /** Fabricated metadata for a binary without a cached variation has no
      mismatch and no variation, and carries the game's resolution or
      `[0, 0]`. */
  lemma FabricatedIsConventional(description: string, name: string, w: Option<string>, v: Variations,
                                 resolution: Option<Resolution>, vfs: Vfs, files: seq<VfsFile>)
    requires Text(w) !in v.locations
    ensures var r := Reconcile(Fabricate(description, name, w, v), name, w, resolution, None, vfs, files, v);
            && r.Ok?
            && !r.value.scriptMismatch && !r.value.wasmMismatch && !r.value.variation
            && !r.value.resolutionMismatch && !r.value.biosMismatch && !r.value.extraArguments
            && r.value.md.nativeResolution == Some(if resolution.Some? then resolution.value else Resolution(0, 0))
  {
    ConventionalNotCounted(description, name, w, v);
  }
}
