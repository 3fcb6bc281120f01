/** The build's view of the working directory: which paths exist, what the
    text files hold, what each directory lists, how large each image is, and
    the canonical MAME metadata files. Every filesystem probe of the build is
    a lookup here. */
module Assets {
  import opened Js
  import opened Strings
  import opened Records
  import Files

  type Path = Files.Path

  datatype Store = Store(
    files: map<Path, string>,                  // regular files and their text
    listings: Files.Listings,                  // readable directories and their entries
    imageSizes: map<Path, (nat, nat)>,         // `sizeOf` results: (width, height)
    canonical: map<string, Option<Metadata>>)  // `mame/<stem>.json`; None when it does not parse

  /** `existsSync(join('.', ...path))`. */
  predicate Exists(store: Store, path: Path) {
    path in store.files || path in store.listings
  }

  /** `existsSync(join('mame', stem + '.json'))` for canonical metadata. */
  predicate HasCanonical(store: Store, stem: string) {
    stem in store.canonical
  }

  /** `readFileSync(...).toString()`; None when the read throws. */
  function ReadText(store: Store, path: Path): (r: Option<string>)
    ensures r.Some? <==> path in store.files
  {
    if path in store.files then Some(store.files[path]) else None
  }

  /** `path.join` of plain segments, as the text the build embeds. */
  function JoinPath(parts: Path): string {
    Join(parts, "/")
  }

  /** One file copy performed by `publish`. */
  datatype Copy = Copy(source: Path, destination: Path)

  /** `publish(source)`: copies to the same relative path under `public`
      when the source exists. */
  function Publish(store: Store, source: Path): (r: Option<Copy>)
    ensures r.Some? <==> Exists(store, source)
    ensures r.Some? ==> r.value == Copy(source, ["public"] + source)
  {
    PublishTo(store, source, ["public"] + source)
  }

  /** `publish(source, destination)`. */
  function PublishTo(store: Store, source: Path, destination: Path): (r: Option<Copy>)
    ensures r.Some? <==> Exists(store, source)
    ensures r.Some? ==> r.value == Copy(source, destination)
  {
    if Exists(store, source) then Some(Copy(source, destination)) else None
  }

  function CopiesOf(c: Option<Copy>): seq<Copy> {
    match c
    case Some(x) => [x]
    case None => []
  }

  /** One strategy of a fallback chain: the path it probes and the name it
      yields when the path exists. */
  datatype Candidate = Candidate(path: Path, result: string)

  /** The first candidate whose path exists, by position. */
  function FirstExisting(store: Store, cands: seq<Candidate>): (r: Option<nat>)
    ensures r.Some? ==> r.value < |cands| && Exists(store, cands[r.value].path)
    ensures r.Some? ==> forall i :: 0 <= i < r.value ==> !Exists(store, cands[i].path)
    ensures r.None? ==> forall i :: 0 <= i < |cands| ==> !Exists(store, cands[i].path)
    decreases |cands|
  {
    if |cands| == 0 then None
    else if Exists(store, cands[0].path) then Some(0)
    else match FirstExisting(store, cands[1..])
      case Some(i) => Some(i + 1)
      case None => None
  }

  /** A chain of `publish` attempts joined by `else if`: the name of the first
      source that exists, and the one copy it makes. */
  datatype Chosen = Chosen(name: Option<string>, copies: seq<Copy>)

  function PublishFirst(store: Store, cands: seq<Candidate>): (r: Chosen)
    ensures r.name.None? <==> forall i :: 0 <= i < |cands| ==> !Exists(store, cands[i].path)
    ensures r.name.None? ==> r.copies == []
    ensures r.name.Some? ==>
              exists i :: && 0 <= i < |cands|
                          && Exists(store, cands[i].path)
                          && (forall k :: 0 <= k < i ==> !Exists(store, cands[k].path))
                          && r.name.value == cands[i].result
                          && r.copies == [Copy(cands[i].path, ["public"] + cands[i].path)]
  {
    match FirstExisting(store, cands)
    case None => Chosen(None, [])
    case Some(i) => Chosen(Some(cands[i].result), [Copy(cands[i].path, ["public"] + cands[i].path)])
  }

  /** The position of the last path that exists. */
  function LastExisting(store: Store, paths: seq<Path>): (r: Option<nat>)
    ensures r.Some? ==> r.value < |paths| && Exists(store, paths[r.value])
    ensures r.Some? ==> forall k :: r.value < k < |paths| ==> !Exists(store, paths[k])
    ensures r.None? <==> forall k :: 0 <= k < |paths| ==> !Exists(store, paths[k])
    decreases |paths|
  {
    if |paths| == 0 then None
    else if Exists(store, paths[|paths| - 1]) then Some(|paths| - 1)
    else LastExisting(store, paths[..|paths| - 1])
  }

  /** `paths.forEach(p => publish(p))`: one copy per existing path, in order. */
  function PublishAll(store: Store, paths: seq<Path>): (r: seq<Copy>)
    ensures |r| <= |paths|
    ensures forall c :: c in r <==> c.source in paths && Exists(store, c.source) && c.destination == ["public"] + c.source
    decreases |paths|
  {
    if |paths| == 0 then []
    else CopiesOf(Publish(store, paths[0])) + PublishAll(store, paths[1..])
  }
}
