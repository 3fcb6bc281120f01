/** The entities the build works on: a catalogue game record, the canonical
    emulator metadata of a MAME machine, and the virtual file system that the
    published metadata carries. Optional JSON fields are `Option`s; derived
    fields the build attaches to a game start out absent. */
module Records {
  import opened Js

  /** `[width, height]`. */
  datatype Resolution = Resolution(width: int, height: int)

  /** The player-1 entry of `game.controls` (`game.controls[1]`). */
  datatype PlayerControls = PlayerControls(
    kind: string,                       // `type`, e.g. 'joy', 'only_buttons', 'pedal'
    ways: Option<int>,
    buttons: Option<int>,
    numberOfButtons: Option<int>,
    directions: Option<seq<string>>)

  /** `game.controls`; `player1` is absent when the record has no entry 1. */
  datatype Controls = Controls(player1: Option<PlayerControls>)

  datatype Game = Game(
    name: string,                       // machine id, the stable key
    description: string,                // display title
    system: string,                     // emulator family, e.g. 'mame', 'dosbox'
    cloneOf: Option<string>,
    parentSystem: Option<string>,
    genre: Option<string>,              // raw '/'-separated genre string
    genres: seq<string>,                // set by the catalogue loader
    roms: seq<string>,
    nativeResolution: Option<Resolution>,
    biosFiles: Option<seq<string>>,
    controls: Option<Controls>,
    buttonLabels: Option<seq<string>>,
    players: Option<int>,
    mature: bool,
    alternating: bool,
    hasArtwork: bool,                   // a `hasArtwork` flag carried by the record itself
    externalLocation: Option<string>,
    externalEmulatorLocation: Option<string>,
    // Attached by the build:
    version: Option<string>,
    disks: Option<seq<string>>,
    nvramFiles: Option<seq<string>>,
    artworkFiles: Option<seq<string>>,
    artworkName: Option<string>,
    wasmProgramName: Option<string>)

  /** One `{ name, url }` entry of a manifest. */
  datatype VfsFile = VfsFile(name: string, url: string)

  /** `virtual_file_system`: runtime-loadable files and the optional samples archive name. */
  datatype Vfs = Vfs(files: seq<VfsFile>, samples: Option<string>)

  /** `file_locations`, in key insertion order. */
  type FileLocations = seq<(string, string)>

  function Keys(fl: FileLocations): (r: seq<string>)
    ensures |r| == |fl|
    ensures forall i :: 0 <= i < |fl| ==> r[i] == fl[i].0
  {
    seq(|fl|, i requires 0 <= i < |fl| => fl[i].0)
  }

  /** Emulator metadata of a MAME machine, as loaded from `mame/<machine>.json`
      or fabricated, and as written to `public/mame/<machine>.json`. */
  datatype Metadata = Metadata(
    name: string,
    driver: Option<string>,             // the binary id; absent when undefined
    machineName: string,
    arcade: Option<string>,
    peripherals: Option<seq<string>>,
    extraArgs: Option<seq<string>>,
    wasmjsFilename: Option<string>,
    wasmFilename: Option<string>,
    fileLocations: Option<FileLocations>,
    nativeResolution: Option<Resolution>,
    biosFilenames: Option<seq<string>>,
    keepAspect: bool,
    virtualFileSystem: Option<Vfs>,     // output-only; present on input is fatal
    files: Option<seq<VfsFile>>)        // output-only
}
