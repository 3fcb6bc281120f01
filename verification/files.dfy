/** Directory helpers over an abstract file system: listing file names by
    extension (optionally without the extension, optionally recursive) and
    deleting the files of one extension. A directory read is a lookup in a
    map of listings; a path with no listing is a directory that cannot be
    read. */
module Files {
  import opened Js
  import opened Strings

  type Path = seq<string>

  datatype Kind = RegularFile | Directory | OtherKind

  /** A `Dirent`: the entry's bare name and what it is. */
  datatype Entry = Entry(name: string, kind: Kind)

  /** `readdirSync` results; a path that is not a key cannot be read. */
  type Listings = map<Path, seq<Entry>>

  function LastIndexOfChar(s: string, c: char): (r: Option<nat>)
    ensures r.Some? ==> r.value < |s| && s[r.value] == c
    ensures r.Some? ==> forall j :: r.value < j < |s| ==> s[j] != c
    ensures r.None? ==> forall j :: 0 <= j < |s| ==> s[j] != c
    decreases |s|
  {
    if |s| == 0 then None
    else if s[|s| - 1] == c then Some(|s| - 1)
    else LastIndexOfChar(s[..|s| - 1], c)
  }

  /** `path.extname` of a bare entry name: from the last dot on, except for
      a leading dot and the name `..`, which have no extension. */
  function ExtName(name: string): (r: string)
    ensures r == "" || (r[0] == '.' && EndsWith(name, r))
    ensures r != "" ==> forall j :: 1 <= j < |r| ==> r[j] != '.'
  {
    match LastIndexOfChar(name, '.')
    case None => ""
    case Some(d) => if d == 0 || name == ".." then "" else name[d..]
  }

  /** The extension key compared against the wanted extensions:
      lower-cased, leading dot removed. */
  function ExtKey(name: string): string {
    var e := Lower(ExtName(name));
    if |e| > 0 && e[0] == '.' then e[1..] else e
  }

  /** `name.replace(/\.[^.]*$/, '')`: drops the last dot and what follows it. */
  function StripExtension(name: string): (r: string)
    ensures StartsWith(name, r)
    ensures forall j :: |r| < j < |name| ==> name[j] != '.'
    ensures r == name <==> (forall j :: 0 <= j < |name| ==> name[j] != '.')
    ensures r != name ==> name[|r|] == '.'
  {
    match LastIndexOfChar(name, '.')
    case None => name
    case Some(d) => name[..d]
  }

  /** A file entry is listed iff '*' is wanted or its extension key is. */
  predicate Selected(extensions: seq<string>, name: string) {
    "*" in extensions || ExtKey(name) in extensions
  }

  function Shown(name: string, includeExtensions: bool): string {
    if includeExtensions then name else StripExtension(name)
  }

  /** `getAllFileNames(dirPath, extensions, includeExtensions, recursive)`.
      A sub-directory is listed by its bare entry name, relative to the
      working directory, as the source does. `fuel` bounds the recursion
      depth; running out of it yields what an unreadable directory yields. */
  function GetAllFileNames(listings: Listings, dir: Path, extensions: seq<string>,
                           includeExtensions: bool, recursive: bool, fuel: nat): (r: seq<string>)
    ensures dir !in listings ==> r == []
    decreases fuel, 1, 0
  {
    if fuel == 0 || dir !in listings then []
    else NamesOf(listings, listings[dir], extensions, includeExtensions, recursive, fuel)
  }

  function NamesOf(listings: Listings, items: seq<Entry>, extensions: seq<string>,
                   includeExtensions: bool, recursive: bool, fuel: nat): (r: seq<string>)
    requires fuel > 0
    ensures !recursive ==> |r| <= |items|
    ensures !recursive ==> forall n :: n in r <==>
              exists e :: e in items && e.kind == RegularFile && Selected(extensions, e.name)
                          && n == Shown(e.name, includeExtensions)
    decreases fuel, 0, |items|
  {
    if |items| == 0 then []
    else
      var item := items[0];
      var here :=
        if item.kind == Directory then
          (if recursive then GetAllFileNames(listings, [item.name], extensions, includeExtensions, true, fuel - 1) else [])
        else if item.kind == RegularFile && Selected(extensions, item.name) then
          [Shown(item.name, includeExtensions)]
        else [];
      var rest := NamesOf(listings, items[1..], extensions, includeExtensions, recursive, fuel);
      assert forall e :: e in items <==> e == item || e in items[1..];
      here + rest
  }

  /** One entry of a directory being cleared: `statSync` either reports
      what it is or throws. */
  datatype Stat = StatOk(kind: Kind) | StatFails

  datatype Deletion = Deletion(ok: bool, deleted: seq<string>)

  /** `deleteFiles(directoryPath, extension)`: unlinks the regular files whose
      extension is exactly '.' + extension, in listing order. An unreadable
      directory or an entry whose stat throws ends the walk with `false`; what
      was unlinked before stays unlinked. */
  function DeleteFiles(listing: Option<seq<(string, Stat)>>, extension: string): (r: Deletion)
    ensures listing.None? ==> r == Deletion(false, [])
    ensures listing.Some? && (forall e :: e in listing.value ==> e.1.StatOk?) ==> r.ok
    ensures forall n :: n in r.deleted ==> ExtName(n) == "." + extension
    ensures listing.Some? ==>
              forall i :: 0 <= i < |listing.value| && Reached(listing.value, i)
                          && listing.value[i].1 == StatOk(RegularFile) && ExtName(listing.value[i].0) == "." + extension
                          ==> listing.value[i].0 in r.deleted
  {
    match listing
    case None => Deletion(false, [])
    case Some(items) => DeleteEach(items, extension)
  }

  /** The walk of `deleteFiles` over the listing. */
  function Unlink(items: seq<(string, Stat)>, extension: string): Deletion
    decreases |items|
  {
    if |items| == 0 then Deletion(true, [])
    else match items[0].1
      case StatFails => Deletion(false, [])
      case StatOk(kind) =>
        var rest := Unlink(items[1..], extension);
        var here := if kind == RegularFile && ExtName(items[0].0) == "." + extension then [items[0].0] else [];
        Deletion(rest.ok, here + rest.deleted)
  }

  lemma {:induction false} UnlinkFacts(items: seq<(string, Stat)>, extension: string)
    ensures Unlink(items, extension).ok <==> forall e :: e in items ==> e.1.StatOk?
    ensures forall n :: n in Unlink(items, extension).deleted ==>
              ExtName(n) == "." + extension && (n, StatOk(RegularFile)) in items
    ensures forall i :: 0 <= i < |items| && Reached(items, i)
                        && items[i].1 == StatOk(RegularFile) && ExtName(items[i].0) == "." + extension
                        ==> items[i].0 in Unlink(items, extension).deleted
    decreases |items|
  {
    if |items| > 0 && items[0].1.StatOk? {
      var rest := items[1..];
      UnlinkFacts(rest, extension);
      assert forall e :: e in items <==> e == items[0] || e in rest;
      forall i | 1 <= i < |items| && Reached(items, i)
        ensures Reached(rest, i - 1) && rest[i - 1] == items[i]
      {
      }
    } else if |items| > 0 {
      assert items[0] in items;
    }
  }

  function DeleteEach(items: seq<(string, Stat)>, extension: string): (r: Deletion)
    ensures r.ok <==> forall e :: e in items ==> e.1.StatOk?
    ensures forall n :: n in r.deleted ==> ExtName(n) == "." + extension && (n, StatOk(RegularFile)) in items
    ensures forall i :: 0 <= i < |items| && Reached(items, i)
                        && items[i].1 == StatOk(RegularFile) && ExtName(items[i].0) == "." + extension
                        ==> items[i].0 in r.deleted
  {
    UnlinkFacts(items, extension);
    Unlink(items, extension)
  }

  /** The walk gets to entry `i`: every stat up to and including it succeeds. */
  predicate Reached(items: seq<(string, Stat)>, i: int) {
    forall j :: 0 <= j <= i && j < |items| ==> items[j].1.StatOk?
  }

  /** A stat that throws part-way ends the walk with `false`, and what was
      unlinked before it stays unlinked: the deletions are those of the
      entries before it. */
  lemma DeleteStopsAtFailure(items: seq<(string, Stat)>, extension: string, i: nat)
    requires i < |items| && items[i].1.StatFails?
    requires forall j :: 0 <= j < i ==> items[j].1.StatOk?
    ensures DeleteEach(items, extension) == Deletion(false, DeleteEach(items[..i], extension).deleted)
  {
    UnlinkStopsAtFailure(items, extension, i);
  }

  lemma {:induction false} UnlinkStopsAtFailure(items: seq<(string, Stat)>, extension: string, i: nat)
    requires i < |items| && items[i].1.StatFails?
    requires forall j :: 0 <= j < i ==> items[j].1.StatOk?
    ensures Unlink(items, extension) == Deletion(false, Unlink(items[..i], extension).deleted)
    decreases i
  {
    if i > 0 {
      assert items[1..][i - 1] == items[i];
      UnlinkStopsAtFailure(items[1..], extension, i - 1);
      assert items[1..][..i - 1] == items[..i][1..];
      assert items[..i][0] == items[0];
    }
  }
}
