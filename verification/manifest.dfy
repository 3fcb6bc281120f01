/** The manifest of a MAME game: the ROM archives the emulator loads, and the
    virtual file system of extra files copied next to them — disk images,
    NVRAM, artwork layouts and images, the controller file and the game's cfg
    — together with the samples archive name. Each extra file is listed only
    when its copy succeeded. */
module Manifest {
  import opened Js
  import opened Strings
  import opened Records
  import opened Assets
  import opened Report
  import Files
  import Artwork

  /** `metadata.files`: one entry per ROM still on the game. */
  function RomEntries(roms: seq<string>): (r: seq<VfsFile>)
    ensures |r| == |roms|
    ensures forall i :: 0 <= i < |roms| ==> r[i] == VfsFile(roms[i] + ".zip", "../mame/roms/" + roms[i] + ".zip")
  {
    seq(|roms|, i requires 0 <= i < |roms| => VfsFile(roms[i] + ".zip", "../mame/roms/" + roms[i] + ".zip"))
  }

  /** One file to copy and the manifest entry it gets when copied. */
  datatype Planned = Planned(source: Path, destination: Path, entry: VfsFile)

  /** The planned files whose source exists, in order. */
  function Kept(store: Store, plan: seq<Planned>): (r: seq<Planned>)
    ensures |r| <= |plan|
    ensures forall p :: p in r <==> p in plan && Exists(store, p.source)
    decreases |plan|
  {
    if |plan| == 0 then []
    else if Exists(store, plan[0].source) then [plan[0]] + Kept(store, plan[1..])
    else Kept(store, plan[1..])
  }

  function EntriesOf(ps: seq<Planned>): (r: seq<VfsFile>)
    ensures |r| == |ps| && forall i :: 0 <= i < |ps| ==> r[i] == ps[i].entry
  {
    seq(|ps|, i requires 0 <= i < |ps| => ps[i].entry)
  }

  function CopiesFor(ps: seq<Planned>): (r: seq<Copy>)
    ensures |r| == |ps| && forall i :: 0 <= i < |ps| ==> r[i] == Copy(ps[i].source, ps[i].destination)
  {
    seq(|ps|, i requires 0 <= i < |ps| => Copy(ps[i].source, ps[i].destination))
  }

  /** A planned file is listed and copied exactly when its source exists:
      every existing source gets its entry and its copy, and every entry
      comes from a planned file whose source exists. */
  lemma KeptMeansCopied(store: Store, plan: seq<Planned>)
    ensures forall p :: p in plan && Exists(store, p.source) ==>
              p.entry in EntriesOf(Kept(store, plan)) && Copy(p.source, p.destination) in CopiesFor(Kept(store, plan))
    ensures forall e :: e in EntriesOf(Kept(store, plan)) ==>
              exists p :: p in plan && Exists(store, p.source) && p.entry == e
  {
    var k := Kept(store, plan);
    forall p | p in plan && Exists(store, p.source)
      ensures p.entry in EntriesOf(k) && Copy(p.source, p.destination) in CopiesFor(k)
    {
      var i :| 0 <= i < |k| && k[i] == p;
      assert EntriesOf(k)[i] == p.entry;
      assert CopiesFor(k)[i] == Copy(p.source, p.destination);
    }
    forall e | e in EntriesOf(k) ensures exists p :: p in plan && Exists(store, p.source) && p.entry == e {
      var i :| 0 <= i < |k| && EntriesOf(k)[i] == e;
      assert k[i] in k;
    }
  }

  function DiskPlan(version: string, name: string, chds: seq<string>): seq<Planned> {
    seq(|chds|, i requires 0 <= i < |chds| =>
      Planned(["mame", "roms", version, name, chds[i]], ["public", "mame", "roms", name, chds[i]],
              VfsFile(chds[i], "../mame/roms/" + name + "/" + chds[i])))
  }

  function NvramPlan(name: string, files: seq<string>): seq<Planned> {
    seq(|files|, i requires 0 <= i < |files| =>
      Planned(["mame", "nvram", name, files[i]], ["public", "mame", "nvram", name, files[i]],
              VfsFile(files[i], "../mame/nvram/" + name + "/" + files[i])))
  }

  /** Artwork files of directory `dir` with extension `ext`, by stem. */
  function ArtworkPlan(dir: string, stems: seq<string>, ext: string): seq<Planned> {
    seq(|stems|, i requires 0 <= i < |stems| =>
      Planned(["mame", "artwork", dir, stems[i] + ext], ["public", "mame", "artwork", dir, stems[i] + ext],
              VfsFile("artwork/" + stems[i] + ext, "../mame/artwork/" + dir + "/" + stems[i] + ext)))
  }

  const ControllerSource: Path := ["mame", "ctrlr", "default.cfg"]

  /** The controller file, re-attempted for every game. */
  const ControllerPlan: seq<Planned> :=
    [Planned(ControllerSource, ["public"] + ControllerSource, VfsFile("ctrlr/default.cfg", "../mame/ctrlr/default.cfg"))]

  function CfgPlan(name: string): seq<Planned> {
    [Planned(["mame", "cfg", name + ".cfg"], ["public", "mame", "cfg", name + ".cfg"],
             VfsFile("cfg/" + name + ".cfg", "../mame/cfg/" + name + ".cfg"))]
  }

  /** `getAllFileNames(dir, [ext], includeExtensions, false)`. */
  function ListNames(store: Store, dir: Path, ext: string, includeExtensions: bool): seq<string> {
    Files.GetAllFileNames(store.listings, dir, [ext], includeExtensions, false, 1)
  }

  /** The artwork directory: the game's own, else its parent's; an empty
      name counts as none, and so does an empty parent. */
  function ArtworkDir(store: Store, name: string, cloneOf: Option<string>): (r: Option<string>)
    ensures Exists(store, ["mame", "artwork", name]) ==> r == (if name == "" then None else Some(name))
    ensures !Exists(store, ["mame", "artwork", name]) && Present(cloneOf) && Exists(store, ["mame", "artwork", cloneOf.value])
            ==> r == cloneOf
    ensures r.Some? ==> r.value != "" && Exists(store, ["mame", "artwork", r.value])
  {
    if Exists(store, ["mame", "artwork", name]) then (if name == "" then None else Some(name))
    else if Present(cloneOf) && Exists(store, ["mame", "artwork", cloneOf.value]) then cloneOf
    else None
  }

  /** `names.map(f => f + ext)`. */
  function Suffixed(names: seq<string>, ext: string): (r: seq<string>)
    ensures |r| == |names| && forall i :: 0 <= i < |names| ==> r[i] == names[i] + ext
  {
    seq(|names|, i requires 0 <= i < |names| => names[i] + ext)
  }

  function EntryNames(ps: seq<Planned>): (r: seq<string>)
    ensures |r| == |ps| && forall i :: 0 <= i < |ps| ==> r[i] == ps[i].entry.name
  {
    seq(|ps|, i requires 0 <= i < |ps| => ps[i].entry.name)
  }

  /** The images and layouts of an artwork directory, without extensions. */
  function Pngs(store: Store, dir: string): seq<string> { ListNames(store, ["mame", "artwork", dir], "png", false) }
  function Lays(store: Store, dir: string): seq<string> { ListNames(store, ["mame", "artwork", dir], "lay", false) }

  function DiskDir(version: string, name: string): Path { ["mame", "roms", version, name] }
  function NvramDir(name: string): Path { ["mame", "nvram", name] }
  function SamplesPath(name: string): Path { ["mame", "samples", name + ".zip"] }

  /** The CHD images found for the game, when disks are looked for at all. */
  function Chds(store: Store, version: string, name: string): seq<string> {
    ListNames(store, DiskDir(version, name), "chd", true)
  }

  predicate LooksForDisks(store: Store, version: string, name: string) {
    version != "" && Exists(store, DiskDir(version, name))
  }

  /** The plan of extra files, in manifest order: disks, NVRAM, layouts,
      images, the controller file, the game's cfg. */
  function ExtraPlan(store: Store, name: string, version: string, dir: Option<string>): seq<Planned> {
    var disks := if LooksForDisks(store, version, name) then DiskPlan(version, name, Chds(store, version, name)) else [];
    var nvram := if Exists(store, NvramDir(name)) then NvramPlan(name, ListNames(store, NvramDir(name), "*", true)) else [];
    var artwork := match dir
      case Some(a) => ArtworkPlan(a, Lays(store, a), ".lay") + ArtworkPlan(a, Pngs(store, a), ".png")
      case None => [];
    disks + nvram + artwork + ControllerPlan + CfgPlan(name)
  }

  /** Bezel, overlay and the directory they are read from. */
  function ChooseArtwork(store: Store, dir: Option<string>, res: Option<Resolution>): (r: Artwork.Choice)
    ensures dir.None? ==> r == Artwork.NoArtworkDirectory(res)
    ensures dir.Some? ==> r == Artwork.SelectBezel(dir.value, Pngs(store, dir.value), res)
  {
    match dir
    case Some(a) => Artwork.SelectBezel(a, Pngs(store, a), res)
    case None => Artwork.NoArtworkDirectory(res)
  }

  /** The image whose size gives the bezel's aspect ratio. */
  function BezelPath(c: Artwork.Choice): Path {
    ["mame", "artwork", c.artworkName, c.bezel + ".png"]
  }

  /** Everything the manifest step decides for one game. */
  datatype Built = Built(
    romFiles: seq<VfsFile>,                 // `metadata.files`
    vfs: Vfs,                               // `metadata.virtual_file_system`
    copies: seq<Copy>,
    disks: Option<seq<string>>,             // `game.disks` afterwards
    nvramFiles: Option<seq<string>>,        // `game.nvramFiles` afterwards
    artworkFiles: Option<seq<string>>,      // `game.artworkFiles` afterwards
    hasMameArtwork: bool,
    choice: Artwork.Choice,                 // `game.artworkName`, bezel, overlay
    missingArtwork: bool,                   // no artwork directory at all
    missingBezelImage: bool,                // an artwork directory without images
    aspectStyle: string)                    // '' for a 16:9 bezel

  /** `game.disks` after the disk step: the CHD images that were copied
      when the game's disk folder exists, the old value otherwise. */
  function DisksAfter(store: Store, version: string, name: string, disks: Option<seq<string>>): (r: Option<seq<string>>)
    ensures !LooksForDisks(store, version, name) ==> r == disks
    ensures LooksForDisks(store, version, name) ==>
              r == Some(EntryNames(Kept(store, DiskPlan(version, name, Chds(store, version, name)))))
    ensures LooksForDisks(store, version, name) ==>
              forall f :: f in r.value <==> f in Chds(store, version, name) && Exists(store, DiskDir(version, name) + [f])
  {
    DisksArePublished(store, version, name, Chds(store, version, name));
    if LooksForDisks(store, version, name)
    then Some(EntryNames(Kept(store, DiskPlan(version, name, Chds(store, version, name)))))
    else disks
  }

  /** The copies of the manifest step: the samples archive, then every
      planned file whose source exists. */
  function ManifestCopies(store: Store, name: string, plan: seq<Planned>): (r: seq<Copy>)
    ensures Exists(store, SamplesPath(name)) ==> Copy(SamplesPath(name), ["public"] + SamplesPath(name)) in r
    ensures forall p :: p in plan && Exists(store, p.source) ==> Copy(p.source, p.destination) in r
    ensures forall c :: c in r ==> Exists(store, c.source)
  {
    KeptMeansCopied(store, plan);
    var k := Kept(store, plan);
    assert forall c :: c in CopiesFor(k) ==> Exists(store, c.source) by {
      forall c | c in CopiesFor(k) ensures Exists(store, c.source) {
        var i :| 0 <= i < |k| && CopiesFor(k)[i] == c;
        assert k[i] in k;
      }
    }
    CopiesOf(Publish(store, SamplesPath(name))) + CopiesFor(k)
  }

  /** The manifest step for a MAME game. Measuring the bezel image fails the
      run when the image cannot be read. */
  function BuildManifest(store: Store, name: string, cloneOf: Option<string>, version: string,
                         roms: seq<string>, res: Option<Resolution>,
                         disks: Option<seq<string>>, nvramFiles: Option<seq<string>>,
                         artworkFiles: Option<seq<string>>): (r: Result<Built>)
    ensures var c := ChooseArtwork(store, ArtworkDir(store, name, cloneOf), res);
            r.Fail? <==> BezelPath(c) !in store.imageSizes
    ensures r.Fail? ==> r.error == UnreadableImage(BezelPath(ChooseArtwork(store, ArtworkDir(store, name, cloneOf), res)))
    ensures r.Ok? ==> r.value.romFiles == RomEntries(roms)
    ensures r.Ok? ==> r.value.vfs.files == EntriesOf(Kept(store, ExtraPlan(store, name, version, ArtworkDir(store, name, cloneOf))))
    ensures r.Ok? ==> (r.value.vfs.samples.Some? <==> Exists(store, SamplesPath(name)))
    ensures r.Ok? && r.value.vfs.samples.Some? ==> r.value.vfs.samples.value == name + "_samples"
    ensures r.Ok? && Exists(store, SamplesPath(name)) ==>
              Copy(SamplesPath(name), ["public"] + SamplesPath(name)) in r.value.copies
    ensures r.Ok? ==> (r.value.hasMameArtwork <==> ArtworkDir(store, name, cloneOf).Some?)
    ensures r.Ok? ==> (r.value.missingArtwork <==> ArtworkDir(store, name, cloneOf).None?)
    ensures r.Ok? ==> (r.value.missingBezelImage <==>
                       ArtworkDir(store, name, cloneOf).Some? && |Pngs(store, ArtworkDir(store, name, cloneOf).value)| == 0)
    ensures r.Ok? ==> r.value.choice == ChooseArtwork(store, ArtworkDir(store, name, cloneOf), res)
    ensures r.Ok? ==> (r.value.aspectStyle == "" <==>
                       9 * store.imageSizes[BezelPath(r.value.choice)].0 == 16 * store.imageSizes[BezelPath(r.value.choice)].1)
    ensures r.Ok? && !LooksForDisks(store, version, name) ==> r.value.disks == disks
    ensures r.Ok? && LooksForDisks(store, version, name) ==>
              r.value.disks == Some(EntryNames(Kept(store, DiskPlan(version, name, Chds(store, version, name)))))
    ensures r.Ok? && LooksForDisks(store, version, name) ==>
              forall f :: f in r.value.disks.value <==>
                f in Chds(store, version, name) && Exists(store, DiskDir(version, name) + [f])
    ensures r.Ok? ==> forall p :: p in ExtraPlan(store, name, version, ArtworkDir(store, name, cloneOf)) && Exists(store, p.source) ==>
              Copy(p.source, p.destination) in r.value.copies
    ensures r.Ok? ==> forall c :: c in r.value.copies ==> Exists(store, c.source)
    ensures r.Ok? && !Exists(store, NvramDir(name)) ==> r.value.nvramFiles == nvramFiles
    ensures r.Ok? && Exists(store, NvramDir(name)) ==> r.value.nvramFiles == Some(ListNames(store, NvramDir(name), "*", true))
    ensures r.Ok? && ArtworkDir(store, name, cloneOf).None? ==> r.value.artworkFiles == artworkFiles
    ensures r.Ok? && ArtworkDir(store, name, cloneOf).Some? ==>
              var a := ArtworkDir(store, name, cloneOf).value;
              r.value.artworkFiles == Some(Suffixed(Pngs(store, a), ".png") + Suffixed(Lays(store, a), ".lay"))
  {
    var samples := if Exists(store, SamplesPath(name)) then Some(name + "_samples") else None;
    var dir := ArtworkDir(store, name, cloneOf);
    var kept := Kept(store, ExtraPlan(store, name, version, dir));
    var disks' := DisksAfter(store, version, name, disks);
    var nvram' := if Exists(store, NvramDir(name)) then Some(ListNames(store, NvramDir(name), "*", true)) else nvramFiles;
    var artworkFiles' := match dir
      case Some(a) => Some(Suffixed(Pngs(store, a), ".png") + Suffixed(Lays(store, a), ".lay"))
      case None => artworkFiles;
    var choice := ChooseArtwork(store, dir, res);
    if BezelPath(choice) !in store.imageSizes then Fail(UnreadableImage(BezelPath(choice)))
    else
      var (w, h) := store.imageSizes[BezelPath(choice)];
      var copies := ManifestCopies(store, name, ExtraPlan(store, name, version, dir));
      Ok(Built(RomEntries(roms), Vfs(EntriesOf(kept), samples), copies,
               disks', nvram', artworkFiles', dir.Some?, choice, dir.None?,
               dir.Some? && |Pngs(store, dir.value)| == 0, Artwork.AspectStyle(w, h)))
  }

  /** The game's disks afterwards are exactly the CHD images that were
      copied, and each of them is listed in the manifest. */
  lemma DisksArePublished(store: Store, version: string, name: string, chds: seq<string>)
    ensures forall f :: f in EntryNames(Kept(store, DiskPlan(version, name, chds))) <==>
              f in chds && Exists(store, DiskDir(version, name) + [f])
  {
    forall f ensures f in EntryNames(Kept(store, DiskPlan(version, name, chds))) ==>
                       f in chds && Exists(store, DiskDir(version, name) + [f]) {
      if f in EntryNames(Kept(store, DiskPlan(version, name, chds))) {
        DiskListedWasCopied(store, version, name, chds, f);
      }
    }
    forall f ensures f in chds && Exists(store, DiskDir(version, name) + [f]) ==>
                       f in EntryNames(Kept(store, DiskPlan(version, name, chds))) {
      if f in chds && Exists(store, DiskDir(version, name) + [f]) {
        DiskCopiedIsListed(store, version, name, chds, f);
      }
    }
  }

  lemma DiskListedWasCopied(store: Store, version: string, name: string, chds: seq<string>, f: string)
    requires f in EntryNames(Kept(store, DiskPlan(version, name, chds)))
    ensures f in chds && Exists(store, DiskDir(version, name) + [f])
  {
    var plan := DiskPlan(version, name, chds);
    var k := Kept(store, plan);
    var i :| 0 <= i < |k| && EntryNames(k)[i] == f;
    assert k[i] in k;
    var j :| 0 <= j < |plan| && plan[j] == k[i];
    assert chds[j] == f;
    assert plan[j].source == DiskDir(version, name) + [f];
  }

  lemma DiskCopiedIsListed(store: Store, version: string, name: string, chds: seq<string>, f: string)
    requires f in chds && Exists(store, DiskDir(version, name) + [f])
    ensures f in EntryNames(Kept(store, DiskPlan(version, name, chds)))
  {
    var plan := DiskPlan(version, name, chds);
    var k := Kept(store, plan);
    var j :| 0 <= j < |chds| && chds[j] == f;
    assert plan[j] in plan;
    assert plan[j].source == DiskDir(version, name) + [f];
    var i :| 0 <= i < |k| && k[i] == plan[j];
    assert EntryNames(k)[i] == f;
  }

  /** The controller file is listed for every game whenever it exists. */
  lemma ControllerAlwaysListed(store: Store, name: string, version: string, dir: Option<string>)
    requires Exists(store, ControllerSource)
    ensures VfsFile("ctrlr/default.cfg", "../mame/ctrlr/default.cfg") in EntriesOf(Kept(store, ExtraPlan(store, name, version, dir)))
  {
    var plan := ExtraPlan(store, name, version, dir);
    assert ControllerPlan[0] in plan;
    KeptMeansCopied(store, plan);
  }
}
