/** The run report: the totals the build counts and the lists of games it
    collects for the summary. Most lists come with a total that is bumped
    together with every push, so the two always agree. */
module Report {
  import opened Js

  datatype Counter =
    | AmbiguousRomVersions
    | MissingRoms
    | MissingVideos
    | MissingBackgrounds
    | MissingLogos
    | MissingIcons
    | MissingCabinetImages
    | MissingSystemCabinetImages
    | MissingArtwork
    | MissingBezelImages
    | MissingEmulators
    | ExternalEmulators
    | ExternalRoms
    | ResolutionMismatches
    | MissingCanonicalMetaData
    | BiosMismatches
    | WasmVariations
    | WasmMismatches
    | WasmJsMismatches
    | ExistingExtraArguments
    | SkippedGames

  datatype GameList =
    | ResolutionMismatchGames
    | MissingVideoGames
    | MissingIconGames
    | MissingLogoGames
    | MissingCabinetGames
    | MissingBackgroundGames
    | MissingBezelGames
    | MissingMetaDataGames
    | MissingArtworkGames
    | SkippedGameList
    | OddBezelGames
    | FixedVariationGames

  /** The total bumped with every push onto a list, if any. */
  function Tally(l: GameList): Option<Counter> {
    match l
    case ResolutionMismatchGames => Some(ResolutionMismatches)
    case MissingVideoGames => Some(MissingVideos)
    case MissingIconGames => Some(MissingIcons)
    case MissingLogoGames => Some(MissingLogos)
    case MissingCabinetGames => Some(MissingCabinetImages)
    case MissingBackgroundGames => Some(MissingBackgrounds)
    case MissingBezelGames => Some(MissingBezelImages)
    case MissingMetaDataGames => Some(MissingCanonicalMetaData)
    case MissingArtworkGames => Some(MissingArtwork)
    case SkippedGameList => Some(SkippedGames)
    case OddBezelGames => None
    case FixedVariationGames => Some(WasmVariations)
  }

  /** A total that has a list of its own. */
  predicate Paired(c: Counter) {
    c in {ResolutionMismatches, MissingVideos, MissingIcons, MissingLogos, MissingCabinetImages,
          MissingBackgrounds, MissingBezelImages, MissingCanonicalMetaData, MissingArtwork,
          SkippedGames, WasmVariations}
  }

  lemma PairedMeansTallied(c: Counter)
    ensures Paired(c) <==> exists l :: Tally(l) == Some(c)
  {
    if Paired(c) {
      var l := match c
        case ResolutionMismatches => ResolutionMismatchGames
        case MissingVideos => MissingVideoGames
        case MissingIcons => MissingIconGames
        case MissingLogos => MissingLogoGames
        case MissingCabinetImages => MissingCabinetGames
        case MissingBackgrounds => MissingBackgroundGames
        case MissingBezelImages => MissingBezelGames
        case MissingCanonicalMetaData => MissingMetaDataGames
        case MissingArtwork => MissingArtworkGames
        case SkippedGames => SkippedGameList
        case _ => FixedVariationGames;
      assert Tally(l) == Some(c);
    }
  }

  /** Game lists hold the games' names, in push order. */
  datatype Report = Report(counts: map<Counter, nat>, lists: map<GameList, seq<string>>)

  const Empty := Report(map[], map[])

  function Count(r: Report, c: Counter): nat {
    if c in r.counts then r.counts[c] else 0
  }

  function Entries(r: Report, l: GameList): seq<string> {
    if l in r.lists then r.lists[l] else []
  }

  /** Every list with a total has exactly as many entries as the total. */
  ghost predicate Consistent(r: Report) {
    forall l :: Tally(l).Some? ==> Count(r, Tally(l).value) == |Entries(r, l)|
  }

  /** `totalX += k` for a total without a list. */
  function Bump(r: Report, c: Counter, k: nat): (r': Report)
    requires !Paired(c)
    ensures Count(r', c) == Count(r, c) + k
    ensures forall d :: d != c ==> Count(r', d) == Count(r, d)
    ensures forall l :: Entries(r', l) == Entries(r, l)
  {
    r.(counts := r.counts[c := Count(r, c) + k])
  }

  function BumpIf(r: Report, cond: bool, c: Counter): (r': Report)
    requires !Paired(c)
    ensures Count(r', c) == Count(r, c) + (if cond then 1 else 0)
    ensures forall d :: d != c ==> Count(r', d) == Count(r, d)
    ensures forall l :: Entries(r', l) == Entries(r, l)
  {
    if cond then Bump(r, c, 1) else r
  }

  /** `gamesX.push(game)` together with the total that goes with the list. */
  function Note(r: Report, l: GameList, name: string): (r': Report)
    ensures Entries(r', l) == Entries(r, l) + [name]
    ensures forall m :: m != l ==> Entries(r', m) == Entries(r, m)
    ensures Tally(l).Some? ==> Count(r', Tally(l).value) == Count(r, Tally(l).value) + 1
    ensures forall d :: Tally(l) != Some(d) ==> Count(r', d) == Count(r, d)
  {
    var pushed := r.(lists := r.lists[l := Entries(r, l) + [name]]);
    match Tally(l)
    case Some(c) => pushed.(counts := pushed.counts[c := Count(r, c) + 1])
    case None => pushed
  }

  function NoteIf(r: Report, cond: bool, l: GameList, name: string): (r': Report)
    ensures Entries(r', l) == Entries(r, l) + (if cond then [name] else [])
    ensures forall m :: m != l ==> Entries(r', m) == Entries(r, m)
    ensures forall d :: Tally(l) != Some(d) ==> Count(r', d) == Count(r, d)
  {
    if cond then Note(r, l, name) else r
  }

  lemma TallyInjective(l: GameList, m: GameList)
    requires Tally(l).Some? && Tally(l) == Tally(m)
    ensures l == m
  {
  }

  /** Bumping a total without a list keeps the report consistent. */
  lemma BumpKeepsConsistent(r: Report, c: Counter, k: nat)
    requires Consistent(r) && !Paired(c)
    ensures Consistent(Bump(r, c, k))
  {
    forall l | Tally(l).Some? ensures Tally(l).value != c {
      PairedMeansTallied(Tally(l).value);
    }
  }

  /** Pushing a game keeps the report consistent. */
  lemma NoteKeepsConsistent(r: Report, l: GameList, name: string)
    requires Consistent(r)
    ensures Consistent(Note(r, l, name))
  {
    var r' := Note(r, l, name);
    forall m | Tally(m).Some? ensures Count(r', Tally(m).value) == |Entries(r', m)| {
      if m != l && Tally(l) == Tally(m) {
        TallyInjective(l, m);
      }
    }
  }

  /** Why a run stops: an explicit throw of the build, or an exception its
      code runs into (a property read of `undefined`, a failed read). */
  datatype Fatal =
    | MissingRomsetInfo                         // a MAME version without a romset type
    | DeleteFailed                              // old game documents could not be deleted
    | MissingEmulatorMetaData(system: string)   // a non-MAME system without its metadata file
    | ExistingVirtualFileSystem(game: string)   // canonical metadata already has a manifest
    | MissingFileLocations(game: string)        // canonical metadata without `file_locations`
    | UnreadableImage(path: seq<string>)        // the bezel image could not be measured
    | UnreadableTemplate(path: seq<string>)     // a template piece could not be read
    | UnreadableStyle(path: seq<string>)        // a style sheet could not be read
    | MissingPlayerControls(game: string)       // `controls[1]` read while absent
    | BadTemplate(game: string)                 // placeholders left in the document

  datatype Result<T> = Ok(value: T) | Fail(error: Fatal)

  lemma EmptyIsConsistent()
    ensures Consistent(Empty)
  {
  }
}
