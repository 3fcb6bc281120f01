/** The per-game loop of the build: ROM version and archives, title,
    emulator binaries, for MAME games the metadata, manifest and artwork, the
    decision to skip the game, and for a game that is kept its media and its
    document. The loop stops the whole run at the first fatal error. */
module Pipeline {
  import opened Js
  import opened Strings
  import opened Records
  import opened Assets
  import opened Report
  import Versions
  import Titles
  import Emulators
  import Canonical
  import Manifest
  import Filters
  import Media
  import Document

  /** The run's configuration. */
  datatype Config = Config(
    romsetTypes: map<string, string>,
    mameVersions: seq<string>,
    preferredVersion: string,
    externalEmulatorLocation: Option<string>,  // where missing MAME binaries are fetched from
    publishFilter: Filters.PublishFilter,
    document: Document.Settings)

  /** What the loop has produced so far. */
  datatype RunState = RunState(
    report: Report,
    published: set<Option<string>>,            // `publishedEmulators`
    variations: Canonical.Variations,
    genresUsed: set<string>,
    systemsUsed: set<string>,
    copies: seq<Copy>,
    manifests: seq<(Path, Metadata)>,          // metadata written to `public/mame`
    pages: seq<Document.Page>)

  // ---------------------------------------------------------------------
  // Report events

  /** A change to the report: a total raised, or a game pushed onto a list
      (together with the list's total). */
  datatype Event = Bumped(counter: Counter, amount: nat) | Pushed(list: GameList, game: string)

  /** No event raises a total that belongs to a list: those move only with
      their list. */
  predicate ValidEvents(events: seq<Event>) {
    forall e :: e in events && e.Bumped? ==> !Paired(e.counter)
  }

  /** The games pushed onto list `l`, in order. */
  function Pushes(events: seq<Event>, l: GameList): seq<string>
    decreases |events|
  {
    if |events| == 0 then []
    else (if events[0].Pushed? && events[0].list == l then [events[0].game] else []) + Pushes(events[1..], l)
  }

  /** How much total `c` is raised. */
  function Bumps(events: seq<Event>, c: Counter): nat
    decreases |events|
  {
    if |events| == 0 then 0
    else (if events[0].Bumped? && events[0].counter == c then events[0].amount else 0) + Bumps(events[1..], c)
  }

  lemma TallyIsPaired(l: GameList)
    ensures Tally(l).Some? ==> Paired(Tally(l).value)
  {
  }

  lemma ValidTail(events: seq<Event>)
    requires |events| > 0 && ValidEvents(events)
    ensures ValidEvents(events[1..]) && (events[0].Bumped? ==> !Paired(events[0].counter))
  {
    assert events[0] in events;
    assert forall x :: x in events[1..] ==> x in events;
  }

  /** Applying the events in order. */
  function Apply(r: Report, events: seq<Event>): (r': Report)
    requires ValidEvents(events)
    ensures forall l :: Entries(r', l) == Entries(r, l) + Pushes(events, l)
    ensures forall c :: !Paired(c) ==> Count(r', c) == Count(r, c) + Bumps(events, c)
    decreases |events|
  {
    if |events| == 0 then r
    else
      var e := events[0];
      ValidTail(events);
      if e.Bumped? then Apply(Bump(r, e.counter, e.amount), events[1..])
      else
        TallyIsPaired(e.list);
        Apply(Note(r, e.list, e.game), events[1..])
  }

  /** Applying valid events keeps every list and its total in step. */
  lemma {:induction false} ApplyKeepsConsistent(r: Report, events: seq<Event>)
    requires ValidEvents(events)
    ensures Consistent(r) ==> Consistent(Apply(r, events))
    decreases |events|
  {
    if |events| > 0 && Consistent(r) {
      var e := events[0];
      ValidTail(events);
      if e.Bumped? {
        BumpKeepsConsistent(r, e.counter, e.amount);
        ApplyKeepsConsistent(Bump(r, e.counter, e.amount), events[1..]);
      } else {
        NoteKeepsConsistent(r, e.list, e.game);
        ApplyKeepsConsistent(Note(r, e.list, e.game), events[1..]);
      }
    }
  }

  lemma {:induction false} PushesAppend(a: seq<Event>, b: seq<Event>, l: GameList)
    ensures Pushes(a + b, l) == Pushes(a, l) + Pushes(b, l)
    decreases |a|
  {
    if |a| > 0 {
      assert (a + b)[0] == a[0];
      assert (a + b)[1..] == a[1..] + b;
      PushesAppend(a[1..], b, l);
      var h := if a[0].Pushed? && a[0].list == l then [a[0].game] else [];
      assert Pushes(a, l) == h + Pushes(a[1..], l);
      assert Pushes(a + b, l) == h + Pushes(a[1..] + b, l);
      assert h + (Pushes(a[1..], l) + Pushes(b, l)) == (h + Pushes(a[1..], l)) + Pushes(b, l);
    } else {
      assert a + b == b;
    }
  }

  lemma {:induction false} NoPushes(events: seq<Event>, l: GameList)
    requires forall e :: e in events && e.Pushed? ==> e.list != l
    ensures Pushes(events, l) == []
    decreases |events|
  {
    if |events| > 0 {
      assert events[0] in events;
      assert forall x :: x in events[1..] ==> x in events;
      NoPushes(events[1..], l);
    }
  }

  /** No event pushes onto the skipped list. */
  predicate NoSkipPush(events: seq<Event>) {
    forall e :: e in events && e.Pushed? ==> e.list != SkippedGameList
  }

  // ---------------------------------------------------------------------
  // ROMs, title and emulator

  predicate IsMame(g: Game) { Lower(g.system) == "mame" }

  /** The emulator metadata file a non-MAME system must have. */
  function MetaDataFile(g: Game, dosboxEmulator: string): Path {
    [Lower(g.system), (if Lower(g.system) == "dosbox" then dosboxEmulator else g.name) + ".json"]
  }

  datatype Prepared = Prepared(
    game: Game,
    version: string,                  // '' outside MAME and when no version holds the ROMs
    binary: Option<string>,           // `wasmFilename`
    events: seq<Event>,
    published: set<Option<string>>,
    copies: seq<Copy>,
    missingRoms: nat,
    missingEmulators: nat,
    missingMetaData: bool)

  /** The ambiguity, missing-ROM and missing-emulator totals. */
  function PrepareEvents(ambiguous: bool, missingRoms: nat, missingEmulators: nat): (r: seq<Event>)
    ensures ValidEvents(r)
    ensures forall e :: e in r ==> e.Bumped?
    ensures Bumped(MissingRoms, missingRoms) in r
    ensures Bumped(AmbiguousRomVersions, 1) in r <==> ambiguous
  {
    (if ambiguous then [Bumped(AmbiguousRomVersions, 1)] else [])
    + [Bumped(MissingRoms, missingRoms), Bumped(MissingEmulators, missingEmulators)]
  }

  /** The steps every game goes through before its metadata. */
  function Prepare(store: Store, cfg: Config, g: Game, published: set<Option<string>>): (r: Result<Prepared>)
    ensures r.Fail? <==> !IsMame(g) && !Exists(store, MetaDataFile(g, cfg.document.dosboxEmulator))
    ensures r.Fail? ==> r.error == MissingEmulatorMetaData(g.system)
    ensures r.Ok? ==> r.value.game == g.(roms := r.value.game.roms, version := r.value.game.version,
                                         description := Titles.NormalizeDescription(g.description, IsMame(g)),
                                         externalEmulatorLocation := r.value.game.externalEmulatorLocation)
    ensures r.Ok? && !IsMame(g) ==> r.value.game.roms == g.roms && r.value.game.version == g.version
    ensures r.Ok? && IsMame(g) ==>
              && r.value.version == Versions.ResolveVersion(store, cfg.romsetTypes, cfg.mameVersions, cfg.preferredVersion,
                                                            g.roms, g.name, g.cloneOf).version
              && r.value.game.version == Some(r.value.version)
    ensures r.Ok? ==> published <= r.value.published
    ensures r.Ok? ==> ValidEvents(r.value.events)
    ensures r.Ok? ==> forall e :: e in r.value.events ==> e.Bumped?
    ensures r.Ok? ==> Bumped(MissingRoms, r.value.missingRoms) in r.value.events
  {
    var mame := IsMame(g);
    var choice := Versions.ResolveVersion(store, cfg.romsetTypes, cfg.mameVersions, cfg.preferredVersion,
                                          g.roms, g.name, g.cloneOf);
    var version := if mame then choice.version else "";
    var roms := if mame then Versions.FinalRoms(cfg.romsetTypes, version, g.roms, g.name, g.cloneOf) else g.roms;
    var pub := Versions.PublishRoms(store, g.system, version, roms);
    if !mame && !Exists(store, MetaDataFile(g, cfg.document.dosboxEmulator)) then
      Fail(MissingEmulatorMetaData(g.system))
    else
      var w := Emulators.BinaryId(g.name, g.cloneOf, g.parentSystem);
      var emu := Emulators.PublishEmulator(store, published, g.system, w, cfg.document.dosboxEmulator,
                                           g.externalEmulatorLocation, cfg.externalEmulatorLocation);
      var game := g.(roms := roms, version := if mame then Some(version) else g.version,
                     description := Titles.NormalizeDescription(g.description, mame),
                     externalEmulatorLocation := emu.externalEmulatorLocation);
      var events := PrepareEvents(mame && choice.ambiguous, pub.missing, emu.totalMissing);
      Ok(Prepared(game, version, w, events, emu.published, pub.copies + emu.copies,
                  pub.missing, emu.missing, emu.missingMetaData))
  }

  /** A MAME game that found a version carries the final ROM list, every
      archive of which that version holds. */
  lemma PreparedRomsPresent(store: Store, cfg: Config, g: Game, published: set<Option<string>>)
    ensures var r := Prepare(store, cfg, g, published);
            r.Ok? && IsMame(g) && r.value.version != "" ==>
              forall x :: x in r.value.game.roms ==> Exists(store, Versions.RomPath(r.value.version, x))
  {
    Versions.ChosenVersionHoldsFinalRoms(store, cfg.romsetTypes, cfg.mameVersions, cfg.preferredVersion,
                                         g.roms, g.name, g.cloneOf);
  }

  // ---------------------------------------------------------------------
  // MAME metadata, manifest and artwork

  /** `public/mame/<name>.json`. */
  function ManifestPath(name: string): Path { ["public", "mame", name + ".json"] }

  datatype Machine = Machine(
    game: Game,
    events: seq<Event>,
    variations: Canonical.Variations,
    copies: seq<Copy>,
    manifest: Option<(Path, Metadata)>,
    art: Option<Document.Art>,
    hasMameArtwork: bool,
    missingMetaData: bool)

  /** Only lists other than the skipped and missing-metadata ones. */
  predicate MachineLists(events: seq<Event>) {
    forall e :: e in events && e.Pushed? ==> e.list != SkippedGameList && e.list != MissingMetaDataGames
  }

  /** `e` when `b` holds, nothing otherwise. */
  function When(b: bool, e: Event): (r: seq<Event>)
    ensures e in r <==> b
    ensures forall x :: x in r ==> x == e
  {
    if b then [e] else []
  }

  /** The artwork lists: a missing directory, a directory without images,
      and a bezel that is not 16:9. */
  function ArtworkEvents(name: string, b: Manifest.Built): (r: seq<Event>)
    ensures ValidEvents(r) && MachineLists(r)
    ensures Pushed(MissingArtworkGames, name) in r <==> b.missingArtwork
    ensures Pushed(MissingBezelGames, name) in r <==> b.missingBezelImage
    ensures Pushed(OddBezelGames, name) in r <==> b.aspectStyle != ""
  {
    When(b.missingBezelImage, Pushed(MissingBezelGames, name))
    + When(b.missingArtwork, Pushed(MissingArtworkGames, name))
    + When(b.aspectStyle != "", Pushed(OddBezelGames, name))
  }

  /** The totals of the metadata's own fields. */
  function FieldTotals(c: Canonical.Reconciled): (r: seq<Event>)
    ensures ValidEvents(r) && forall e :: e in r ==> e.Bumped?
    ensures Bumped(ExistingExtraArguments, 1) in r <==> c.extraArguments
    ensures Bumped(BiosMismatches, 1) in r <==> c.biosMismatch
  {
    When(c.extraArguments, Bumped(ExistingExtraArguments, 1)) + When(c.biosMismatch, Bumped(BiosMismatches, 1))
  }

  /** The totals of the emulator file names. */
  function BinaryTotals(c: Canonical.Reconciled): (r: seq<Event>)
    ensures ValidEvents(r) && forall e :: e in r ==> e.Bumped?
    ensures Bumped(WasmJsMismatches, 1) in r <==> c.scriptMismatch
    ensures Bumped(WasmMismatches, 1) in r <==> c.wasmMismatch
  {
    When(c.scriptMismatch, Bumped(WasmJsMismatches, 1)) + When(c.wasmMismatch, Bumped(WasmMismatches, 1))
  }

  /** The reconciliation totals and lists. */
  function ReconcileEvents(name: string, c: Canonical.Reconciled): (r: seq<Event>)
    ensures ValidEvents(r) && MachineLists(r)
    ensures Pushed(ResolutionMismatchGames, name) in r <==> c.resolutionMismatch
    ensures Pushed(FixedVariationGames, name) in r <==> c.variation
  {
    FieldTotals(c) + BinaryTotals(c)
    + When(c.resolutionMismatch, Pushed(ResolutionMismatchGames, name))
    + When(c.variation, Pushed(FixedVariationGames, name))
  }

  /** The metadata the game starts from. */
  function Acquired(store: Store, p: Prepared, v: Canonical.Variations): Canonical.Acquired {
    Canonical.Acquire(store, p.game.description, p.game.name, p.game.cloneOf, p.binary, v, p.game.wasmProgramName)
  }

  function Built(store: Store, p: Prepared): Result<Manifest.Built> {
    Manifest.BuildManifest(store, p.game.name, p.game.cloneOf, p.version, p.game.roms, p.game.nativeResolution,
                           p.game.disks, p.game.nvramFiles, p.game.artworkFiles)
  }

  /** The MAME-only steps. Metadata is loaded (or made up) before the
      manifest is built and reconciled after it; the metadata is written
      whether or not the game is later skipped. */
  function MameStep(store: Store, p: Prepared, v: Canonical.Variations): (r: Result<Machine>)
    ensures Built(store, p).Fail? ==> r == Fail(Built(store, p).error)
    ensures r.Ok? ==> && Built(store, p).Ok? && r.value.manifest.Some?
                      && r.value.manifest.value.0 == ManifestPath(p.game.name)
                      && r.value.art == Some(Document.Art(Built(store, p).value.choice, Built(store, p).value.aspectStyle))
    ensures r.Ok? ==> r.value.game.name == p.game.name && r.value.game.system == p.game.system
                      && r.value.game.genres == p.game.genres && r.value.game.cloneOf == p.game.cloneOf
    ensures r.Ok? ==> ValidEvents(r.value.events) && MachineLists(r.value.events)
    ensures r.Ok? ==>
              var res := Canonical.ReconcileResolution(p.game.nativeResolution, Acquired(store, p, v).md.nativeResolution,
                                                       p.game.name);
              && r.value.game.nativeResolution == res.game
              && r.value.manifest.value.1.nativeResolution == Some(res.published)
              && (Pushed(ResolutionMismatchGames, p.game.name) in r.value.events <==> res.mismatch)
  {
    var g := p.game;
    var acquired := Acquired(store, p, v);
    match Built(store, p)
    case Fail(e) => Fail(e)
    case Ok(b) =>
    match Canonical.Reconcile(acquired.md, g.name, p.binary, g.nativeResolution, g.biosFiles, b.vfs, b.romFiles, v)
    case Fail(e) => Fail(e)
    case Ok(c) =>
      var game := g.(disks := b.disks, nvramFiles := b.nvramFiles, artworkFiles := b.artworkFiles,
                     artworkName := Some(b.choice.artworkName), nativeResolution := c.gameResolution,
                     wasmProgramName := acquired.wasmProgramName);
      var a := ArtworkEvents(g.name, b);
      var e := ReconcileEvents(g.name, c);
      Ok(Machine(game, a + e, c.cache, b.copies, Some((ManifestPath(g.name), c.md)),
                 Some(Document.Art(b.choice, b.aspectStyle)), b.hasMameArtwork, acquired.missingMetaData))
  }

  /** The metadata written for a MAME game lists the manifest's files and
      virtual file system and keeps the aspect ratio; whether it was made up
      is what acquiring it said. */
  lemma MameStepManifest(store: Store, p: Prepared, v: Canonical.Variations)
    ensures var r := MameStep(store, p, v);
            r.Ok? ==> && r.value.manifest.value.1.files == Some(Built(store, p).value.romFiles)
                      && r.value.manifest.value.1.virtualFileSystem == Some(Built(store, p).value.vfs)
                      && r.value.manifest.value.1.keepAspect
                      && (r.value.missingMetaData <==> Acquired(store, p, v).missingMetaData)
  {
  }

  /** An unreadable bezel image stops the run before the metadata is
      reconciled; canonical metadata that already has a manifest stops it
      after. */
  lemma MameStepFatal(store: Store, p: Prepared, v: Canonical.Variations)
    ensures var choice := Manifest.ChooseArtwork(store, Manifest.ArtworkDir(store, p.game.name, p.game.cloneOf),
                                                 p.game.nativeResolution);
            Manifest.BezelPath(choice) !in store.imageSizes ==>
              MameStep(store, p, v) == Fail(UnreadableImage(Manifest.BezelPath(choice)))
    ensures Built(store, p).Ok? && Acquired(store, p, v).md.virtualFileSystem.Some? ==>
              MameStep(store, p, v) == Fail(ExistingVirtualFileSystem(p.game.name))
  {
  }

  /** The MAME steps for a MAME game; nothing for any other. */
  function MachineStep(store: Store, p: Prepared, v: Canonical.Variations): (r: Result<Machine>)
    ensures !IsMame(p.game) ==>
              r == Ok(Machine(p.game, [], v, [], None, None, false, p.missingMetaData))
    ensures IsMame(p.game) ==> r == MameStep(store, p, v)
    ensures r.Ok? ==> ValidEvents(r.value.events) && MachineLists(r.value.events)
    ensures r.Ok? ==> (r.value.manifest.Some? <==> IsMame(p.game))
    ensures r.Ok? && IsMame(p.game) ==> r.value.manifest.value.0 == ManifestPath(p.game.name)
    ensures r.Ok? ==> r.value.game.name == p.game.name && r.value.game.system == p.game.system
                      && r.value.game.genres == p.game.genres
  {
    if IsMame(p.game) then MameStep(store, p, v)
    else Ok(Machine(p.game, [], v, [], None, None, false, p.missingMetaData))
  }

  // ---------------------------------------------------------------------
  // Skipping

  datatype Skip = RomsMissing | EmulatorMissing | Filtered

  /** Why a game is skipped, decided in this order. */
  function SkipReason(g: Game, missingRoms: nat, missingEmulators: nat, filter: Filters.PublishFilter,
                      view: Filters.FilterView): (r: Option<Skip>)
    ensures r == Some(RomsMissing) <==> missingRoms > 0 && !Present(g.externalLocation)
    ensures r.None? <==> && (missingRoms == 0 || Present(g.externalLocation))
                         && (missingEmulators == 0
                             || (Present(g.externalEmulatorLocation) && g.name !in Emulators.UndiscoveredAssemblies))
                         && Filters.Publishes(filter, view)
  {
    if missingRoms > 0 && !Present(g.externalLocation) then Some(RomsMissing)
    else if missingEmulators > 0 && (!Present(g.externalEmulatorLocation) || g.name in Emulators.UndiscoveredAssemblies)
    then Some(EmulatorMissing)
    else if !Filters.Publishes(filter, view) then Some(Filtered)
    else None
  }

  /** The object the filter sees as the build assembles it: the media flags
      are still at their initial `false`, since the media step runs after the
      filter. */
  function ViewAsWritten(g: Game, hasMameArtwork: bool): (v: Filters.FilterView)
    ensures !v.hasVideo && !v.hasLogo && !v.hasIcon
  {
    Filters.FilterView(g.system, g.hasArtwork, false, false, false, hasMameArtwork)
  }

  /** As written, the video, logo and icon filters skip every game. */
  lemma MediaFiltersSkipEverything(g: Game, hasMameArtwork: bool, missingRoms: nat, missingEmulators: nat)
    ensures SkipReason(g, missingRoms, missingEmulators, Filters.PublishVideos, ViewAsWritten(g, hasMameArtwork)).Some?
    ensures SkipReason(g, missingRoms, missingEmulators, Filters.PublishLogos, ViewAsWritten(g, hasMameArtwork)).Some?
    ensures SkipReason(g, missingRoms, missingEmulators, Filters.PublishIcons, ViewAsWritten(g, hasMameArtwork)).Some?
  {
  }

  /** The object the filter sees, with the media flags the media step will
      find; they are read from the same assets, without publishing them. */
  function ViewOf(store: Store, g: Game, hasMameArtwork: bool): (v: Filters.FilterView)
    ensures v.system == g.system && v.hasArtwork == g.hasArtwork && v.hasMameArtwork == hasMameArtwork
    ensures v.hasVideo <==> Media.Video(store, g).name.Some?
    ensures v.hasLogo <==> Media.Logo(store, g).name.Some?
    ensures v.hasIcon <==> Media.ChooseIcon(store, g).hasIcon
  {
    Filters.FilterView(g.system, g.hasArtwork, Media.Video(store, g).name.Some?, Media.Logo(store, g).name.Some?,
                       Media.ChooseIcon(store, g).hasIcon, hasMameArtwork)
  }

  /** With the corrected flags, the video filter keeps exactly the games
      whose video the media step publishes. */
  lemma VideoFilterSeesVideo(store: Store, g: Game, hasMameArtwork: bool, report: Report)
    ensures var m := Media.PublishMedia(store, g, report);
            m.Ok? ==> (Filters.Publishes(Filters.PublishVideos, ViewOf(store, g, hasMameArtwork)) <==> m.value.videoName.Some?)
  {
    Filters.PublishFiltersRead(ViewOf(store, g, hasMameArtwork));
  }

  /** The same for the logo filter and the logo. */
  lemma LogoFilterSeesLogo(store: Store, g: Game, hasMameArtwork: bool, report: Report)
    ensures var m := Media.PublishMedia(store, g, report);
            m.Ok? ==> (Filters.Publishes(Filters.PublishLogos, ViewOf(store, g, hasMameArtwork)) <==> m.value.logoName.Some?)
  {
    Filters.PublishFiltersRead(ViewOf(store, g, hasMameArtwork));
  }

  /** The same for the icon filter and the icon flag. */
  lemma IconFilterSeesIcon(store: Store, g: Game, hasMameArtwork: bool, report: Report)
    ensures var m := Media.PublishMedia(store, g, report);
            m.Ok? ==> (Filters.Publishes(Filters.PublishIcons, ViewOf(store, g, hasMameArtwork)) <==> m.value.icon.hasIcon)
  {
    Filters.PublishFiltersRead(ViewOf(store, g, hasMameArtwork));
  }

  /** The totals of a game that is kept. */
  function KeptEvents(name: string, missingRoms: nat, missingEmulators: nat, missingMetaData: bool): (r: seq<Event>)
    ensures ValidEvents(r) && NoSkipPush(r)
    ensures Pushed(MissingMetaDataGames, name) in r <==> missingMetaData
    ensures Bumped(ExternalRoms, 1) in r <==> missingRoms > 0
    ensures Bumped(ExternalEmulators, 1) in r <==> missingEmulators > 0
  {
    When(missingEmulators > 0, Bumped(ExternalEmulators, 1))
    + When(missingMetaData, Pushed(MissingMetaDataGames, name))
    + When(missingRoms > 0, Bumped(ExternalRoms, 1))
  }

  // ---------------------------------------------------------------------
  // One game and the whole loop

  function Recorded(m: Machine): seq<(Path, Metadata)> {
    match m.manifest case Some(x) => [x] case None => []
  }

  /** The state once a game's files are copied and its metadata written. */
  function Advance(st: RunState, p: Prepared, m: Machine): RunState {
    st.(published := p.published, variations := m.variations, copies := st.copies + p.copies + m.copies,
        manifests := st.manifests + Recorded(m))
  }

  /** A skipped game: its totals, and its name on the skipped list. */
  function SkipGame(before: RunState, report: Report, events: seq<Event>, name: string): (r: RunState)
    requires ValidEvents(events) && NoSkipPush(events)
    ensures r == before.(report := r.report)
    ensures Entries(r.report, SkippedGameList) == Entries(report, SkippedGameList) + [name]
    ensures Consistent(report) ==> Consistent(r.report)
  {
    var all := events + [Pushed(SkippedGameList, name)];
    NoPushes(events, SkippedGameList);
    PushesAppend(events, [Pushed(SkippedGameList, name)], SkippedGameList);
    ApplyKeepsConsistent(report, all);
    before.(report := Apply(report, all))
  }

  /** A kept game's totals, then its media. */
  function MediaStep(store: Store, g: Game, report: Report, events: seq<Event>): (r: Result<Media.Published>)
    requires ValidEvents(events) && NoSkipPush(events)
    ensures r.Fail? <==> Media.ReadStyles(store, g).Fail?
    ensures r.Ok? ==> Entries(r.value.report, SkippedGameList) == Entries(report, SkippedGameList)
    ensures r.Ok? && Consistent(report) ==> Consistent(r.value.report)
  {
    var rep := Apply(report, events);
    ApplyKeepsConsistent(report, events);
    NoPushes(events, SkippedGameList);
    var avatar := Media.ChooseAvatar(store, g);
    Media.NoteMissingFrame(rep, g.name, Media.Logo(store, g).name.None?, Media.ChooseBackground(store, g).missing,
                           Media.Video(store, g).name.None?, Media.ChooseIcon(store, g).missing,
                           avatar.missing, avatar.missingSystem, SkippedGameList);
    Media.PublishMedia(store, g, rep)
  }

  /** A kept game: its totals, its media and its document. */
  function KeepGame(store: Store, cfg: Config, g: Game, art: Option<Document.Art>, before: RunState,
                    report: Report, events: seq<Event>): (r: Result<RunState>)
    requires ValidEvents(events) && NoSkipPush(events)
    ensures r.Ok? ==> && |r.value.pages| == |before.pages| + 1 && r.value.pages[..|before.pages|] == before.pages
                      && r.value.pages[|before.pages|].path == Document.PagePath(g.system, g.name, cfg.document.htmlHash)
    ensures r.Ok? ==> Entries(r.value.report, SkippedGameList) == Entries(report, SkippedGameList)
    ensures r.Ok? ==> r.value.published == before.published && r.value.manifests == before.manifests
    ensures r.Ok? && Consistent(report) ==> Consistent(r.value.report)
  {
    match MediaStep(store, g, report, events)
    case Fail(e) => Fail(e)
    case Ok(media) =>
      match Document.Compose(store, cfg.document, g.(genres := media.icon.genres), media, art,
                             before.genresUsed, before.systemsUsed)
      case Fail(e) => Fail(e)
      case Ok(page) =>
        assert (before.pages + [page])[..|before.pages|] == before.pages;
        Ok(before.(report := media.report, genresUsed := page.genresUsed, systemsUsed := page.systemsUsed,
                   copies := before.copies + media.copies + page.copies, pages := before.pages + [page]))
  }

  /** After the machine steps: skip the game or keep it. */
  predicate ConcludeReady(p: Prepared, m: Machine) {
    ValidEvents(p.events) && NoSkipPush(p.events) && ValidEvents(m.events) && NoSkipPush(m.events)
  }

  function Conclude(store: Store, cfg: Config, st: RunState, p: Prepared, m: Machine): (r: Result<RunState>)
    requires ConcludeReady(p, m)
    ensures r.Ok? ==> r.value.published == p.published && r.value.manifests == st.manifests + Recorded(m)
    ensures r.Ok? && Consistent(st.report) ==> Consistent(r.value.report)
    ensures r.Ok? ==> || (&& r.value.pages == st.pages
                          && Entries(r.value.report, SkippedGameList) == Entries(st.report, SkippedGameList) + [m.game.name])
                      || (&& |r.value.pages| == |st.pages| + 1 && r.value.pages[..|st.pages|] == st.pages
                          && Entries(r.value.report, SkippedGameList) == Entries(st.report, SkippedGameList))
    ensures r.Ok? && r.value.pages != st.pages ==>
              && SkipReason(m.game, p.missingRoms, p.missingEmulators, cfg.publishFilter,
                            ViewOf(store, m.game, m.hasMameArtwork)).None?
              && r.value.pages[|st.pages|].path == Document.PagePath(m.game.system, m.game.name, cfg.document.htmlHash)
  {
    var before := Advance(st, p, m);
    match SkipReason(m.game, p.missingRoms, p.missingEmulators, cfg.publishFilter,
                     ViewOf(store, m.game, m.hasMameArtwork))
    case Some(_) => Ok(SkipGame(before, st.report, p.events + m.events, m.game.name))
    case None =>
      var kept := KeptEvents(m.game.name, p.missingRoms, p.missingEmulators, m.missingMetaData);
      KeepGame(store, cfg, m.game, m.art, before, st.report, p.events + m.events + kept)
  }

  lemma MachineNoSkipPush(events: seq<Event>)
    ensures MachineLists(events) ==> NoSkipPush(events)
  {
  }

  /** One game. */
  function ProcessGame(store: Store, cfg: Config, g: Game, st: RunState): (r: Result<RunState>)
    ensures !IsMame(g) && !Exists(store, MetaDataFile(g, cfg.document.dosboxEmulator)) ==>
              r == Fail(MissingEmulatorMetaData(g.system))
    ensures r.Ok? ==> st.published <= r.value.published
    ensures r.Ok? && Consistent(st.report) ==> Consistent(r.value.report)
    ensures r.Ok? ==> || (&& r.value.pages == st.pages
                          && Entries(r.value.report, SkippedGameList) == Entries(st.report, SkippedGameList) + [g.name])
                      || (&& |r.value.pages| == |st.pages| + 1 && r.value.pages[..|st.pages|] == st.pages
                          && Entries(r.value.report, SkippedGameList) == Entries(st.report, SkippedGameList))
    ensures r.Ok? && IsMame(g) ==> |r.value.manifests| == |st.manifests| + 1 && r.value.manifests[..|st.manifests|] == st.manifests
                                   && r.value.manifests[|st.manifests|].0 == ManifestPath(g.name)
    ensures r.Ok? && !IsMame(g) ==> r.value.manifests == st.manifests
    ensures r.Ok? && r.value.pages != st.pages ==>
              r.value.pages[|st.pages|].path == Document.PagePath(g.system, g.name, cfg.document.htmlHash)
  {
    match Prepare(store, cfg, g, st.published)
    case Fail(e) => Fail(e)
    case Ok(p) =>
    match MachineStep(store, p, st.variations)
    case Fail(e) => Fail(e)
    case Ok(m) =>
      MachineNoSkipPush(m.events);
      assert (st.manifests + Recorded(m))[..|st.manifests|] == st.manifests;
      Conclude(store, cfg, st, p, m)
  }

  /** A game that gets through is concluded from its prepared and machine
      steps. */
  lemma ProcessGameSteps(store: Store, cfg: Config, g: Game, st: RunState)
    ensures var r := ProcessGame(store, cfg, g, st);
            r.Ok? ==> && Prepare(store, cfg, g, st.published).Ok?
                      && MachineStep(store, Prepare(store, cfg, g, st.published).value, st.variations).Ok?
                      && ConcludeReady(Prepare(store, cfg, g, st.published).value,
                                       MachineStep(store, Prepare(store, cfg, g, st.published).value, st.variations).value)
                      && r == Conclude(store, cfg, st, Prepare(store, cfg, g, st.published).value,
                                       MachineStep(store, Prepare(store, cfg, g, st.published).value, st.variations).value)
  {
    var r := ProcessGame(store, cfg, g, st);
    if r.Ok? {
      var p := Prepare(store, cfg, g, st.published).value;
      var m := MachineStep(store, p, st.variations).value;
      MachineNoSkipPush(m.events);
    }
  }

  /** A page is written only for a game whose ROMs are present or
      referenced remotely, whose emulator is present or referenced remotely
      and is not one of the undiscovered binaries, and which passes the
      filter. */
  lemma PagesOnlyForPlayableGames(store: Store, cfg: Config, g: Game, st: RunState)
    ensures var r := ProcessGame(store, cfg, g, st);
            r.Ok? && r.value.pages != st.pages ==>
              var p := Prepare(store, cfg, g, st.published).value;
              var m := MachineStep(store, p, st.variations).value;
              && (p.missingRoms == 0 || Present(g.externalLocation))
              && (p.missingEmulators == 0 || (Present(p.game.externalEmulatorLocation)
                                               && g.name !in Emulators.UndiscoveredAssemblies))
              && Filters.Publishes(cfg.publishFilter, ViewOf(store, m.game, m.hasMameArtwork))
  {
    ProcessGameSteps(store, cfg, g, st);
  }

  /** The loop over the catalogue, stopping at the first fatal error. */
  function Run(store: Store, cfg: Config, games: seq<Game>, st: RunState): (r: Result<RunState>)
    ensures r.Ok? ==> st.published <= r.value.published
    ensures r.Ok? ==> |r.value.pages| + |Entries(r.value.report, SkippedGameList)|
                      == |st.pages| + |Entries(st.report, SkippedGameList)| + |games|
    ensures r.Ok? && Consistent(st.report) ==> Consistent(r.value.report)
    decreases |games|
  {
    if |games| == 0 then Ok(st)
    else
      match ProcessGame(store, cfg, games[0], st)
      case Fail(e) => Fail(e)
      case Ok(next) => Run(store, cfg, games[1..], next)
  }

  /** A run that reaches the end has, for every game of the catalogue, either
      written its page or recorded it as skipped, starting from an empty
      report; its report is consistent. */
  lemma RunAccountsForCatalogue(store: Store, cfg: Config, games: seq<Game>, v: Canonical.Variations)
    ensures var r := Run(store, cfg, games, RunState(Empty, {}, v, {}, {}, [], [], []));
            r.Ok? ==> && |r.value.pages| + |Entries(r.value.report, SkippedGameList)| == |games|
                      && Consistent(r.value.report)
  {
    EmptyIsConsistent();
  }
}
