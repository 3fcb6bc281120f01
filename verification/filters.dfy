/** The load-time and publish-time game filters. A filter that returns the
    game object itself keeps the game, since an object is truthy. */
module Filters {
  import opened Js
  import opened Records

  datatype LoadFilter = LoadAll | LoadParents

  datatype PublishFilter =
    | PublishAll
    | PublishVideos
    | PublishLogos
    | PublishMameArtwork
    | PublishIcons
    | PublishVideosAndLogos

  /** The object the publish filter sees: the game's own fields plus the
      flags the build attaches to a copy of it just before filtering. */
  datatype FilterView = FilterView(
    system: string,
    hasArtwork: bool,
    hasVideo: bool,
    hasLogo: bool,
    hasIcon: bool,
    hasMameArtwork: bool)

  predicate Loads(f: LoadFilter, g: Game) {
    match f
    case LoadAll => true
    case LoadParents => !Present(g.cloneOf)
  }

  predicate Publishes(f: PublishFilter, v: FilterView) {
    match f
    case PublishAll => true
    case PublishVideos => v.hasVideo
    case PublishLogos => v.hasLogo
    case PublishMameArtwork => v.hasArtwork || v.system != "mame"
    case PublishIcons => v.hasIcon
    case PublishVideosAndLogos => v.hasVideo && v.hasLogo
  }

  /** The games `games.filter(f)` keeps, in order. */
  function Kept(f: LoadFilter, games: seq<Game>): seq<Game>
    decreases |games|
  {
    if |games| == 0 then []
    else if Loads(f, games[0]) then [games[0]] + Kept(f, games[1..])
    else Kept(f, games[1..])
  }

  lemma {:induction false} KeptMembers(f: LoadFilter, games: seq<Game>)
    ensures |Kept(f, games)| <= |games|
    ensures forall g :: g in Kept(f, games) <==> g in games && Loads(f, g)
    ensures forall g :: Loads(f, g) ==> multiset(Kept(f, games))[g] == multiset(games)[g]
    decreases |games|
  {
    if |games| > 0 {
      KeptMembers(f, games[1..]);
      assert games == [games[0]] + games[1..];
    }
  }

  lemma {:induction false} KeptKeepsOrder(f: LoadFilter, a: seq<Game>, b: seq<Game>)
    ensures Kept(f, a + b) == Kept(f, a) + Kept(f, b)
    decreases |a|
  {
    if |a| == 0 {
      assert a + b == b;
    } else {
      assert (a + b)[0] == a[0] && (a + b)[1..] == a[1..] + b;
      KeptKeepsOrder(f, a[1..], b);
    }
  }

  /** `games.filter(f)`. */
  function LoadFiltered(f: LoadFilter, games: seq<Game>): (r: seq<Game>)
    ensures |r| <= |games|
    ensures forall g :: g in r ==> g in games && Loads(f, g)
    ensures forall g :: g in games && Loads(f, g) ==> g in r
    ensures forall g :: g in games && Loads(f, g) ==> multiset(r)[g] == multiset(games)[g]
  {
    KeptMembers(f, games);
    Kept(f, games)
  }

  /** Filtering keeps the catalogue's order: filtering two runs of games one
      after the other is filtering each run and putting the results one
      after the other. */
  lemma LoadFilteredKeepsOrder(f: LoadFilter, a: seq<Game>, b: seq<Game>)
    ensures LoadFiltered(f, a + b) == LoadFiltered(f, a) + LoadFiltered(f, b)
  {
    KeptKeepsOrder(f, a, b);
  }

  /** Loading every game keeps the catalogue unchanged, in order. */
  lemma {:induction false} LoadAllKeepsEverything(games: seq<Game>)
    ensures LoadFiltered(LoadAll, games) == games
    decreases |games|
  {
    if |games| > 0 {
      LoadAllKeepsEverything(games[1..]);
      assert games == [games[0]] + games[1..];
    }
  }

  /** Loading parents keeps exactly the games without a `cloneOf`. */
  lemma LoadParentsKeepsExactlyParents(games: seq<Game>, g: Game)
    requires g in games
    ensures g in LoadFiltered(LoadParents, games) <==> !Present(g.cloneOf)
  {
  }

  /** The publish filters, stated against the flags each one reads. */
  lemma PublishFiltersRead(v: FilterView)
    ensures Publishes(PublishAll, v)
    ensures Publishes(PublishVideos, v) <==> v.hasVideo
    ensures Publishes(PublishLogos, v) <==> v.hasLogo
    ensures Publishes(PublishIcons, v) <==> v.hasIcon
    ensures Publishes(PublishVideosAndLogos, v) <==> v.hasVideo && v.hasLogo
    ensures Publishes(PublishVideosAndLogos, v) ==> Publishes(PublishVideos, v) && Publishes(PublishLogos, v)
  {
  }

  /** The artwork filter passes every system other than exactly 'mame', and
      for 'mame' depends on `hasArtwork` only: the `hasMameArtwork` flag the
      build attaches is never read. */
  lemma MameArtworkIgnoresResolvedArtwork(v: FilterView, b: bool)
    ensures v.system != "mame" ==> Publishes(PublishMameArtwork, v)
    ensures v.system == "mame" ==> (Publishes(PublishMameArtwork, v) <==> v.hasArtwork)
    ensures Publishes(PublishMameArtwork, v.(hasMameArtwork := b)) == Publishes(PublishMameArtwork, v)
  {
  }
}
