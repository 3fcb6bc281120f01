/** The catalogue loader: one JSON record per game in a database directory,
    each given its cleaned genre list. */
module Data {
  import opened Js
  import opened Strings
  import opened Records
  import Files

  /** Repairs a genre segment of the DosBox export: the first `][` and then
      the first `!` are removed. */
  function CleanGenre(segment: string): string {
    ReplaceFirst(ReplaceFirst(segment, "][", ""), "!", "")
  }

  /** `getGenres`: one cleaned genre per '/'-separated segment, in order. */
  function GetGenres(genre: string): (r: seq<string>)
    ensures |r| == |Split(genre, "/")|
    ensures forall i :: 0 <= i < |r| ==> r[i] == CleanGenre(Split(genre, "/")[i])
  {
    var segments := Split(genre, "/");
    seq(|segments|, i requires 0 <= i < |segments| => CleanGenre(segments[i]))
  }

  lemma SingleCharOccurs(s: string, c: char, k: nat)
    ensures OccursAt(s, [c], k) <==> k < |s| && s[k] == c
  {
    if k < |s| {
      assert OccursAt(s, [c], k) <==> s[k..k + 1] == [c];
    }
  }

  /** Splitting on one character yields one more part than there are
      occurrences of that character. */
  lemma {:induction false} SplitCount(s: string, c: char)
    ensures |Split(s, [c])| == multiset(s)[c] + 1
    decreases |s|
  {
    match IndexOf(s, [c])
    case None =>
      forall k | 0 <= k < |s| ensures s[k] != c {
        SingleCharOccurs(s, c, k);
      }
      assert multiset(s)[c] == 0;
    case Some(k) =>
      SingleCharOccurs(s, c, k);
      forall j | 0 <= j < k ensures s[j] != c {
        SingleCharOccurs(s, c, j);
      }
      assert multiset(s[..k])[c] == 0;
      assert s == s[..k] + [s[k]] + s[k + 1..];
      assert multiset(s) == multiset(s[..k]) + multiset([s[k]]) + multiset(s[k + 1..]);
      SplitCount(s[k + 1..], c);
  }

  /** There are as many genres as '/' separators plus one. */
  lemma GenreCount(genre: string)
    ensures |GetGenres(genre)| == multiset(genre)['/'] + 1
  {
    SplitCount(genre, '/');
  }

  lemma ReplaceFirstLength(s: string, p: string)
    ensures |ReplaceFirst(s, p, "")| == if Contains(s, p) then |s| - |p| else |s|
  {
  }

  lemma ContainsCharCounts(s: string, c: char)
    ensures Contains(s, [c]) <==> multiset(s)[c] > 0
  {
    if multiset(s)[c] > 0 {
      var j :| 0 <= j < |s| && s[j] == c;
      SingleCharOccurs(s, c, j);
    }
    if Contains(s, [c]) {
      var j: nat :| j + 1 <= |s| && OccursAt(s, [c], j);
      SingleCharOccurs(s, c, j);
      assert s[j] in multiset(s);
    }
  }

  lemma ReplaceFirstKeepsChar(s: string, p: string, c: char)
    requires c !in p
    ensures Contains(ReplaceFirst(s, p, ""), [c]) <==> Contains(s, [c])
  {
    ContainsCharCounts(s, c);
    ContainsCharCounts(ReplaceFirst(s, p, ""), c);
    match IndexOf(s, p)
    case None =>
    case Some(k) =>
      assert ReplaceFirst(s, p, "") == s[..k] + s[k + |p|..];
      assert s == s[..k] + p + s[k + |p|..];
      assert multiset(s) == multiset(s[..k]) + multiset(p) + multiset(s[k + |p|..]);
      assert multiset(p)[c] == 0;
  }

  /** Only the first `][` and the first `!` of a segment are removed: the
      cleaned segment is shorter by exactly two characters if `][` occurs and
      by one more if `!` occurs, and a segment with neither is unchanged. */
  lemma CleanGenreRemovesFirstOnly(segment: string)
    ensures |CleanGenre(segment)| ==
              |segment| - (if Contains(segment, "][") then 2 else 0)
                        - (if Contains(segment, "!") then 1 else 0)
    ensures !Contains(segment, "][") && !Contains(segment, "!") ==> CleanGenre(segment) == segment
  {
    var once := ReplaceFirst(segment, "][", "");
    ReplaceFirstLength(segment, "][");
    ReplaceFirstLength(once, "!");
    ReplaceFirstKeepsChar(segment, "][", '!');
    assert "!" == ['!'];
  }

  /** One directory entry of the database: what `statSync` says of it and
      the record parsed from it, absent when reading or parsing fails. */
  datatype CatalogEntry = CatalogEntry(file: string, stat: Files.Stat, record: Option<Game>)

  /** The entry is loaded: a regular `.json` file that parses to a record
      with a genre string. */
  predicate Loadable(e: CatalogEntry) {
    && e.stat == Files.StatOk(Files.RegularFile)
    && EndsWith(e.file, ".json")
    && e.record.Some?
    && e.record.value.genre.Some?
  }

  function Loaded(e: CatalogEntry): Game
    requires Loadable(e)
  {
    e.record.value.(genres := GetGenres(e.record.value.genre.value))
  }

  /** `loadGames(directoryPath)`. An unreadable directory gives no games; a
      record that fails to read or parse (or has no genre string, which makes
      `getGenres` throw) is skipped; an entry whose `statSync` throws ends the
      walk with the games collected so far. */
  function LoadGames(listing: Option<seq<CatalogEntry>>): (r: seq<Game>)
    ensures listing.None? ==> r == []
    ensures forall g :: g in r ==> g.genre.Some? && g.genres == GetGenres(g.genre.value)
  {
    match listing
    case None => []
    case Some(entries) => LoadEach(entries)
  }

  /** The games the walk collects, in listing order, up to the first entry
      whose stat throws. */
  function Walk(entries: seq<CatalogEntry>): seq<Game>
    decreases |entries|
  {
    if |entries| == 0 then []
    else if entries[0].stat.StatFails? then []
    else (if Loadable(entries[0]) then [Loaded(entries[0])] else []) + Walk(entries[1..])
  }

  lemma {:induction false} WalkFacts(entries: seq<CatalogEntry>)
    ensures |Walk(entries)| <= |entries|
    ensures forall g :: g in Walk(entries) ==> exists e :: e in entries && Loadable(e) && g == Loaded(e)
    ensures (forall e :: e in entries ==> e.stat.StatOk?) ==> |Walk(entries)| == CountLoadable(entries)
    ensures (forall e :: e in entries ==> e.stat.StatOk?) ==>
              forall e :: e in entries && Loadable(e) ==> Loaded(e) in Walk(entries)
    decreases |entries|
  {
    if |entries| > 0 && entries[0].stat.StatOk? {
      WalkFacts(entries[1..]);
      assert forall e :: e in entries[1..] ==> e in entries;
      assert entries[0] in entries;
    }
  }

  lemma {:induction false} WalkKeepsOrder(a: seq<CatalogEntry>, b: seq<CatalogEntry>)
    requires forall e :: e in a ==> e.stat.StatOk?
    ensures Walk(a + b) == Walk(a) + Walk(b)
    decreases |a|
  {
    if |a| == 0 {
      assert a + b == b;
    } else {
      assert a[0] in a;
      assert forall e :: e in a[1..] ==> e in a;
      assert (a + b)[0] == a[0] && (a + b)[1..] == a[1..] + b;
      WalkKeepsOrder(a[1..], b);
    }
  }

  function LoadEach(entries: seq<CatalogEntry>): (r: seq<Game>)
    ensures |r| <= |entries|
    ensures forall g :: g in r ==> exists e :: e in entries && Loadable(e) && g == Loaded(e)
    ensures (forall e :: e in entries ==> e.stat.StatOk?) ==> |r| == CountLoadable(entries)
    ensures (forall e :: e in entries ==> e.stat.StatOk?) ==>
              forall e :: e in entries && Loadable(e) ==> Loaded(e) in r
  {
    WalkFacts(entries);
    Walk(entries)
  }

  /** The walk keeps listing order: while every stat succeeds, loading two
      runs of entries one after the other loads each run and puts the games
      one after the other. With the one-entry case, this pins the result to
      the loadable entries in order, each loaded once. */
  lemma LoadEachKeepsOrder(a: seq<CatalogEntry>, b: seq<CatalogEntry>)
    requires forall e :: e in a ==> e.stat.StatOk?
    ensures LoadEach(a + b) == LoadEach(a) + LoadEach(b)
  {
    WalkKeepsOrder(a, b);
  }

  /** One entry is loaded exactly when its stat succeeds and it is loadable. */
  lemma LoadEachSingle(e: CatalogEntry)
    ensures LoadEach([e]) == (if e.stat.StatOk? && Loadable(e) then [Loaded(e)] else [])
  {
    assert [e][1..] == [];
    assert Walk([e][1..]) == [];
  }

  /** A stat that throws ends the walk: the games are those of the entries
      before it. */
  lemma LoadEachStopsAtFailure(entries: seq<CatalogEntry>, i: nat)
    requires i < |entries| && entries[i].stat.StatFails?
    requires forall j :: 0 <= j < i ==> entries[j].stat.StatOk?
    ensures LoadEach(entries) == LoadEach(entries[..i])
  {
    assert entries == entries[..i] + entries[i..];
    assert forall e :: e in entries[..i] ==> e.stat.StatOk?;
    WalkKeepsOrder(entries[..i], entries[i..]);
    assert entries[i..][0] == entries[i];
    assert Walk(entries[i..]) == [];
    assert Walk(entries[..i]) + [] == Walk(entries[..i]);
  }

  function CountLoadable(entries: seq<CatalogEntry>): nat
    decreases |entries|
  {
    if |entries| == 0 then 0
    else (if Loadable(entries[0]) then 1 else 0) + CountLoadable(entries[1..])
  }
}
