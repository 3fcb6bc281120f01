# fliiarcade game build, modelled in Dafny

fliiarcade builds a static arcade web site from a database of game records.
This project models the heart of that build: the loop that turns each game
into published files and a game page. For every game the loop:

- picks the MAME ROM version that holds the game's archives;
- publishes those archives;
- tidies the title;
- publishes the emulator binaries once per binary;
- for MAME games only:
  - takes or fabricates the machine's metadata;
  - writes the virtual-file-system manifest, with disk images, NVRAM, artwork, the controller file and per-game cfg files;
  - picks the bezel and overlay artwork;
- decides whether the game is skipped;
- for a game that is kept:
  - publishes its logo, background, preview video, icon and cabinet or box image;
  - assembles the inline CSS;
  - stitches the page from template pieces (head, sections, tabstrip, genre list, footer, extra images);
  - rewrites button labels that stand for joystick directions;
  - fills every `{{ placeholder }}`;
  - refuses a page that still has placeholders.

The project also models the helpers the loop relies on:

- template lookup and placeholder replacement (`template.js`);
- loading the game database and splitting genres (`data.js`);
- directory listing and deletion (`file.js`);
- the load and publish filters (`filters.js`);
- the gzip header middleware of the development server (`start.js`).

The filesystem is an immutable value, `Assets.Store`. It records:

- which paths exist;
- the text of each file;
- directory listings;
- image sizes;
- the canonical MAME metadata files.

Each `existsSync`, `readFileSync`, `readdirSync` and `sizeOf` becomes a lookup in the Store. `publish` returns the copy it would perform instead of performing it.

The run's totals and game lists live in `Report`. Each total that belongs to a game list always equals that list's length, and every step is proved to keep that true. A thrown error ends the run: every step returns a `Result`, and `Fail` carries the error.

Modules follow the structure of the build:

| file | module | what |
|---|---|---|
| js.dfy | Js | JavaScript values, `undefined`, truthiness, number text |
| strings.dfy | Strings | `startsWith`, `endsWith`, `includes`, `indexOf`, `split`, `join`, `replace` with a string pattern, ASCII lower case |
| records.dfy | Records | game records, MAME metadata, the virtual file system |
| files.dfy | Files | `extname`, `getAllFileNames`, `deleteFiles` |
| data.dfy | Data | `loadGames`, `getGenres` |
| filters.dfy | Filters | load and publish filters |
| gzip.dfy | GzipHeaders | `setGzipHeaders` |
| assets.dfy | Assets | the Store, `publish`, first-match and last-match chains |
| report.dfy | Report | totals and game lists |
| template.dfy | Template | placeholder replacement, template-piece lookup, sections |
| versions.dfy | Versions | ROM version choice and ROM publishing |
| description.dfy | Titles | the title rewrite |
| emulator.dfy | Emulators | binary id and emulator publishing |
| metadata.dfy | Canonical | MAME metadata: acquisition and reconciliation |
| artwork.dfy | Artwork | bezel, overlay and aspect ratio |
| manifest.dfy | Manifest | the virtual-file-system manifest |
| media.dfy | Media | logo, background, video, CSS, icon, avatar |
| extras.dfy | Extras | extra images and their indices |
| document.dfy | Document | the page |
| pipeline.dfy | Pipeline | the per-game loop and the run |

## Model

| member | source | states |
|---|---|---|
| Assets.Publish | publish.js:4-22 | A copy happens exactly when the source exists. It goes to the same relative path under `public`. |
| Assets.PublishTo | publish.js:4-22 | With an explicit destination, a copy happens exactly when the source exists, and it goes to that destination. |
| Assets.PublishFirst | build.js:1027-1045 | An if/else-if chain of publishes takes the first candidate that exists and copies only that one. No candidate exists exactly when nothing is chosen and nothing is copied. |
| Assets.LastExisting | build.js:1052-1060 | A forEach that overwrites on every hit keeps the last path that exists. It is None exactly when no path exists. |
| Assets.PublishAll | build.js:1052-1060 | Every existing path in the list is copied to `public`, and nothing else is. |
| Report.Bump | build.js:114-134 | Raising a total changes only that total, by exactly the amount. No list changes. |
| Report.BumpIf | build.js:114-134 | A conditional increment raises one total by one when the condition holds, and changes nothing else. |
| Report.Note | build.js:138-151 | Pushing a game appends it to exactly one list. It raises that list's total by one, if the list has a total, and leaves every other total alone. |
| Report.NoteIf | build.js:138-151 | A conditional push appends the game only when the condition holds. Other lists and unrelated totals are unchanged. |
| Report.TallyInjective | build.js:114-151 | No two game lists share a total. |
| Report.PairedMeansTallied | build.js:114-151 | A total is tied to a list exactly when some list has it as its total. |
| Report.BumpKeepsConsistent | build.js:114-151 | Raising a total that belongs to no list keeps every list's total equal to the list's length. |
| Report.NoteKeepsConsistent | build.js:974-976 | Pushing a game with its paired increment keeps every list's total equal to the list's length. |
| Report.EmptyIsConsistent | build.js:114-151 | The run starts with every paired total equal to its list's length. |
| Filters.LoadFiltered | filters.js:3-9 | The loaded games are exactly the catalogue games the load filter accepts. Each accepted game appears as often as in the catalogue, and the result is no longer than the catalogue. |
| Filters.LoadFilteredKeepsOrder | filters.js:3-9 | Filtering keeps catalogue order: filtering two runs of games in a row gives the two filtered runs in the same order. |
| Filters.LoadAllKeepsEverything | filters.js:3 | The all-games load filter keeps the catalogue unchanged. |
| Filters.LoadParentsKeepsExactlyParents | filters.js:9 | The parents filter keeps a game exactly when it has no `cloneOf`. |
| Filters.PublishFiltersRead | filters.js:17-39 | Each publish filter reads its flag. The videos-and-logos filter is the conjunction of the videos filter and the logos filter. |
| Filters.MameArtworkIgnoresResolvedArtwork | filters.js:31 | The MAME artwork filter passes every non-MAME game. For MAME games it reads the database's `hasArtwork` and ignores the `hasMameArtwork` flag that the build computes. |
| GzipHeaders.SetGzipHeaders | start.js:105-143 | `next` is called exactly once. Headers are set only for `.gz` paths. `.js.gz` is served as JavaScript, `.wasm.gz` as WebAssembly and every other `.gz` as octet-stream, always with `Content-Encoding: gzip`. |
| GzipHeaders.JsAndWasmExclusive | start.js:117-121 | No path ends in both `.js.gz` and `.wasm.gz`, so the order of the tests does not matter. |
| GzipHeaders.InnerSuffixesAreGz | start.js:113-122 | The inner suffix tests are reached only for paths that passed the `.gz` test. |
| Files.ExtName | file.js:12 | `extname` is empty, or it is a suffix of the name that starts with its only dot. |
| Files.StripExtension | file.js:78 | Removing `/\.[^.]*$/` leaves a prefix of the name. It changes the name exactly when the name has a dot, and then it cuts at the last dot. |
| Files.LastIndexOfChar | file.js:78 | The position found holds the character, and no later position does. None means the character does not occur. |
| Files.GetAllFileNames | file.js:55-87 | An unreadable directory yields no names. |
| Files.NamesOf | file.js:63-81 | A non-recursive listing yields exactly the shown names of the regular files whose extension is selected (or all files with `*`). Directories contribute nothing. |
| Files.DeleteFiles | file.js:4-23 | An unreadable directory reports failure and deletes nothing. When every entry can be stat'ed, it succeeds. Only files with the extension are deleted, and every regular file with the extension that the walk reaches is deleted. |
| Files.DeleteEach | file.js:8-15 | Success means every entry could be stat'ed. A name is deleted only if it is a regular file of the listing with the extension. Every such file is deleted when every stat up to and including its own succeeds. |
| Files.DeleteStopsAtFailure | file.js:8-20 | A stat that throws part-way ends the walk with `false`. The deletions are exactly those of the entries before it, which stay deleted. |
| Data.GetGenres | data.js:48-52 | One genre per slash-separated segment, in order, each cleaned. |
| Data.GenreCount | data.js:51 | The number of genres is one more than the number of slashes. |
| Data.SplitCount | data.js:51 | Splitting on one character yields one more piece than the character's occurrences. |
| Data.CleanGenreRemovesFirstOnly | data.js:51 | The clean-up removes only the first `][` and the first `!`, shortening the segment by exactly that much. A segment with neither is unchanged. |
| Data.LoadGames | data.js:4-42 | An unreadable directory yields no games. Every loaded game has a genre and its genre list is computed from it. |
| Data.LoadEach | data.js:14-36 | Every loaded game comes from a loadable `.json` file. When every entry can be stat'ed, every loadable entry is loaded, and the number of games equals the number of loadable entries. Order and multiplicity are stated by `Data.LoadEachKeepsOrder` and `Data.LoadEachSingle`. |
| Data.LoadEachKeepsOrder | data.js:14-36 | While every stat succeeds, loading two runs of entries gives the games of the first run, then those of the second. |
| Data.LoadEachSingle | data.js:17-33 | One entry gives its game exactly when its stat succeeds and it is a readable `.json` record with a genre string, and nothing otherwise. With `Data.LoadEachKeepsOrder`, the result is the loadable entries' games in listing order, each once. |
| Data.LoadEachStopsAtFailure | data.js:17-36 | A stat that throws ends the walk: the games are those of the entries before it. |
| Titles.MoveArticleToFront | build.js:431 | A title ending in `, The` gets `The ` moved to its front. |
| Titles.MoveArticleWithoutArticle | build.js:431 | A title without `, The` is unchanged. |
| Titles.StripParenthetical | build.js:438 | The result is a prefix of the title. It differs from the title exactly when the trailing-parenthetical pattern matches at its end. No earlier position matches. |
| Titles.StripsTrailingParenthetical | build.js:435-439 | For a MAME title `x` followed by spaces and one parenthetical, the result is `x`. |
| Titles.LeftmostMatch | build.js:438 | The regular expression's match starts at the first position where it can match. |
| Versions.Without | build.js:350 | Removing the clone's own ROM keeps every other ROM. A list without it is unchanged. |
| Versions.PassCount | build.js:344-356 | The number of versions that hold the ROMs. It is zero exactly when none does. |
| Versions.FirstPassing | build.js:373-374 | The first version that holds the ROMs, or None exactly when none does. |
| Versions.ResolveVersion | build.js:343-378 | The preferred version wins when it holds the ROMs. Otherwise the first version that holds them wins, and the empty string means none does. The choice is ambiguous exactly when more than one version holds them and the preferred one does not. |
| Versions.AmbiguousMeansTwoPass | build.js:356-365 | An ambiguous choice means two different versions hold the ROMs. |
| Versions.FinalRoms | build.js:380-386 | A clone in a merged romset drops its own ROM. Every other game keeps its list. |
| Versions.ChosenVersionHoldsFinalRoms | build.js:343-386 | Every ROM left after the merge adjustment exists in the chosen version's folder. |
| Versions.PublishRoms | build.js:393-413 | A MAME game with no version copies nothing and counts every ROM as missing. With a version, it counts none as missing. Every copy is of an existing ROM archive of the game. Unless it is a MAME game with no version, every ROM whose archive exists is copied, and copies plus absent archives make up the whole ROM list. Elsewhere than MAME, `missingRoms` grows by exactly the number of ROMs whose archive is absent. |
| Versions.AbsentRoms | build.js:393-411 | The ROMs whose archive is absent, in order: a ROM is listed exactly when it is one of the game's ROMs and its archive does not exist. |
| Emulators.BinaryId | build.js:484-490 | The binary is the game's own when `parentSystem` equals `cloneOf`, the parent system otherwise, and the clone's parent for the three odd clones. |
| Emulators.BinaryIdCases | build.js:484 | A parent game with no parent system uses its own name. A clone whose parent system is its parent also uses its own name. A game with only a parent system uses that system. |
| Emulators.PublishDosbox | build.js:441-478 | DosBox is published once per run. It is marked published exactly when both binaries and the metadata file were copied. Each missing binary adds to the run total. |
| Emulators.PublishMame | build.js:494-526 | A MAME binary is published once per run and marked only when both files were copied. Missing files send the game to the configured external location when there is one; otherwise they add to the run total. |
| Emulators.PublishEmulator | build.js:441-526 | Systems other than DosBox and MAME publish nothing. The published set only grows. |
| Emulators.PublishedOnlyGrowsWhenComplete | build.js:475-511 | At most one binary is added per game, and only when all its files exist. |
| Emulators.PublishedOnce | build.js:494-514 | A MAME binary already published is not copied again and counts nothing missing. |
| Canonical.SelectStem | build.js:531-535 | The game's own canonical metadata file wins over its parent's. None exactly when neither exists. |
| Canonical.Fabricate | build.js:557-601 | Fabricated metadata names the game's binaries. It reuses a file-location variation already seen for the binary, or else the conventional location. It carries no resolution, BIOS or file system. |
| Canonical.Acquire | build.js:528-606 | Parsed canonical metadata is taken with the title, driver and machine name overwritten. A missing or unparsable file yields fabricated metadata, flagged as missing. A reused variation sets the program name to its first key. |
| Canonical.ReconcileResolution | build.js:862-912 | Without a database resolution the manifest gets 0 by 0. Otherwise canonical metadata that has a resolution overrides the game's. It is a mismatch exactly when the widths differ, or the heights differ for any game but `invaders`. |
| Canonical.RecordVariation | build.js:926-943 | A location list without the conventional key is cached as a variation and counted in both numerator and denominator. A conventional one raises only an existing denominator. |
| Canonical.VariationCountsOrdered | build.js:935-943 | Counting variations keeps every numerator at most its denominator. A first variation counts one of one. |
| Canonical.ConventionalNotCounted | build.js:598-601 | Fabricated conventional locations are never counted as a variation. |
| Canonical.CachedVariationCountedAgain | build.js:579-596 | Once a variation is cached, the next fabricated metadata for that binary reuses it and counts as a variation again. This inflates the confidence that the source's comment at 576-577 warns about. |
| Canonical.Zipped | build.js:961 | Each BIOS file gets `.zip`, in order. |
| Canonical.ReconcileBios | build.js:945-966 | Without database BIOS files the canonical list stands. Otherwise the list is replaced by the zipped names, or `['']` when empty. It is a mismatch exactly when both first entries are non-empty and differ. |
| Canonical.Reconcile | build.js:843-943 | Metadata that already has a file system fails the run, and so does metadata without file locations. Otherwise the manifest gets the file system, the files and `keep_aspect`. The extra-argument, script, binary and variation flags each hold exactly when the source tallies them. The written resolution, the game's resolution and the mismatch flag are those of `Canonical.ReconcileResolution`. The written BIOS list and its mismatch flag are those of `Canonical.ReconcileBios`, and the variation cache is the one `Canonical.RecordVariation` leaves. |
| Canonical.ReconciledResolution | build.js:862-910 | The canonical resolution is the truth. With both a local and a canonical resolution, the written metadata and the game carry the canonical one. A mismatch is flagged exactly when the widths differ or, outside `invaders`, the heights differ. With only the local resolution, that one is written. Without a local resolution, `[0, 0]` is written and no mismatch is flagged. |
| Canonical.FabricatedIsConventional | build.js:557-606 | Fabricated metadata never raises a mismatch, an extra-argument total or a variation, and takes the game's resolution or 0 by 0. |
| Artwork.Generic | build.js:767 | The generic artwork is horizontal exactly when there is no resolution or the width is at least the height. |
| Artwork.GenericUnguarded | build.js:786 | The unguarded resolution read fails exactly when the game has no resolution. |
| Artwork.UnguardedFailsWithoutResolution | build.js:776-787 | A game without a resolution crashes the unguarded branches but not the guarded ones. |
| Artwork.CountOf | build.js:742-748 | Counting overlays: the count is the number of times the name occurs in the listing, so it is zero exactly when there are none. |
| Artwork.WithBezel | build.js:753 | The images kept are exactly those whose lower-cased name contains `bezel`. |
| Artwork.FindExactBezel | build.js:758 | The first image named `bezel` in any case, or None exactly when none is. |
| Artwork.SelectBezel | build.js:742-780 | The overlay is set exactly when there is one image named `overlay`. The bezel comes from the cascade of one image, one bezel-named image, then an exact `bezel`. Otherwise it is the generic `bezel` in the generic folder. |
| Artwork.BezelIsListedOrGeneric | build.js:750-780 | The bezel is one of the folder's images, or it is the generic one. A folder holding only `overlay.png` uses it as both bezel and overlay. |
| Artwork.NoArtworkDirectory | build.js:781-791 | Without an artwork folder the generic bezel is used, oriented by the resolution, with no overlay. |
| Artwork.AspectStyle | build.js:795-807 | The style is empty exactly when the image is 16:9. Otherwise it is `width / height`. |
| Manifest.RomEntries | build.js:613-618 | One manifest file per ROM, in order, pointing at its archive. |
| Manifest.Kept | build.js:649-687 | The planned copies kept are exactly those whose source exists. |
| Manifest.KeptMeansCopied | build.js:649-687 | Every planned file that exists is both listed and copied. Every listed file was planned and exists. |
| Manifest.ArtworkDir | build.js:692-696 | The game's artwork folder wins over its parent's. Any folder chosen exists. |
| Manifest.Suffixed | build.js:740 | Each name gets the extension, in order. |
| Manifest.ChooseArtwork | build.js:698-791 | With a folder, the bezel cascade runs over its images. Without one, the generic artwork is used. |
| Manifest.BuildManifest | build.js:608-841 | An unreadable bezel image fails the run. Otherwise:<br>- the manifest lists every ROM and every existing planned extra;<br>- samples are listed exactly when they exist;<br>- the artwork flags and aspect style follow the folder and the bezel's size;<br>- the game's disks, NVRAM and artwork fields are replaced exactly when the source replaces them;<br>- when the disk folder exists, the game's disks are exactly the CHD images that exist there;<br>- every planned extra whose source exists is copied, and every copy has an existing source. |
| Manifest.DisksAfter | build.js:638-663 | Without a disk folder for the version, `game.disks` keeps its value. With one, it lists exactly the CHD images found there that exist, in manifest order. |
| Manifest.ManifestCopies | build.js:624-841 | The samples archive is copied when it exists, and so is every planned extra whose source exists. Nothing without an existing source is copied. |
| Manifest.DisksArePublished | build.js:638-663 | The disks listed are exactly the CHD images that exist. |
| Manifest.DiskListedWasCopied | build.js:649-659 | A listed disk image exists. |
| Manifest.DiskCopiedIsListed | build.js:649-659 | An existing disk image is listed. |
| Manifest.ControllerAlwaysListed | build.js:809-826 | When the controller file exists, every MAME manifest lists it. |
| Media.Logo | build.js:1025-1045 | The logo is the name's, else the description's, else none. |
| Media.ChooseBackground | build.js:1047-1067 | The game's own background wins. Otherwise every genre background that exists is copied, the last one names the background, and the game counts as missing one. |
| Media.Video | build.js:1069-1095 | A video exists exactly when the name's, the description's or the parent's exists. The name's wins, then the description's, then the parent's. The one chosen is the only file copied, to the same path under `public`. |
| Media.ReadStyle | build.js:1101-1103 | A style file that exists is read. A directory in its place fails the run. |
| Media.GenreCss | build.js:1105-1111 | The genre CSS is the last genre's style file that exists. The run fails exactly when one of them cannot be read. |
| Media.ReadStyles | build.js:1097-1129 | Each of the game, system and own style is present exactly when its file exists. Reading fails exactly when an existing style cannot be read. |
| Media.InlineCssHtml | build.js:1131-1135 | The style element is emitted exactly when some CSS was found, wrapped in `<style>`. |
| Media.ChooseIcon | build.js:1137-1169 | The name's icon wins, then the parent's; only the parent's sets `hasIcon`. With neither, the genres are reversed in place and the last genre with an icon, else the system, names the icon. |
| Media.GenreIcon | build.js:1156-1166 | The icon is the first genre in list order that has an icon file. When that genre's name is empty the result is None, and later genres are not tried. |
| Media.AvatarFolder | build.js:1171-1181 | Boxes are used exactly for non-MAME games with a box image under the name or the description. Otherwise cabinets are used. |
| Media.ChooseAvatar | build.js:1183-1215 | The avatar is found under the name, then the description. When neither exists, it falls back to the system's cabinet, and a missing system cabinet is tallied. |
| Media.NoteMissingImages | build.js:1040-1092 | The logo, background and video lists get the game exactly when that item is missing. |
| Media.NoteMissingAvatar | build.js:1151-1214 | The icon and cabinet lists get the game exactly when that item is missing. The system-cabinet total rises exactly when that image is missing too. |
| Media.NoteMissingFrame | build.js:1025-1215 | The media step touches no other game list. |
| Media.NoteMissingKeepsConsistent | build.js:1025-1215 | The media step keeps every list's total equal to the list's length. |
| Media.PublishMedia | build.js:1025-1215 | The media step fails exactly when a style cannot be read. Otherwise it reports each chosen item and notes exactly the missing ones, keeping the report consistent. |
| Extras.ParseInt | build.js:1310 | `parseInt(s, 10)` is NaN exactly when no digit follows the leading spaces and sign. |
| Extras.ParseIntOfNatText | build.js:1310 | A name that starts with a number parses to that number. |
| Extras.DigitsOfNatText | build.js:1310 | The decimal text of a number reads back as that number. |
| Extras.ImageIndex | build.js:1310 | A numbered image uses its number. Any other image uses its position plus one, capped at 4. |
| Extras.FirstGenreWith | build.js:1266-1274 | `find` returns the first genre that has the item. |
| Extras.ChooseExtras | build.js:1254-1297 | Each tier in order: the game's own `.png`, its own `.gif`, then its own folder listed non-recursively. Next come the genre `.png`, `.gif` and folder, each named after the first match in the reversed genre list, with the folder URL built from the game's name. Then the system `.png`, `.gif` and folder, and finally no images. A genre tier is chosen exactly when no own image exists and some genre has one. Only the genre tiers reverse the genre list. |
| Extras.GenreTierTakesLastDeclared | build.js:1265-1276 | Searching the reversed genres picks the last-declared genre that has the item. |
| Extras.DecorationPiece | build.js:1299-1303 | The decoration piece is `decoration`, `decorationgenre-decoration` or `decorationsystem-decoration`. |
| Extras.ImagesHtml | build.js:1307-1316 | One fragment per image, in order, with its index and source filled. |
| Extras.ImagePaths | build.js:1398-1408 | Each image is copied from the chosen folder. |
| Extras.ExtrasBlock | build.js:1320-1326 | The extras block is wrapped in `div#extra` exactly when it is not empty. |
| Template.WsRun | template.js:88 | The length of the leading run of `\s` characters. |
| Template.MatchLen | template.js:88 | A match at the front has the placeholder's shape: `{{`, spaces, the key, spaces, `}}`. |
| Template.PlaceholderMatches | template.js:84-95 | `{{`, any spaces, the key, any spaces and `}}` is matched as a whole. |
| Template.ReplacesEveryOccurrence | template.js:84-95 | Every occurrence of the placeholder is replaced, whatever its spacing. The text between placeholders may hold anything, including braces and other placeholders, as long as it holds no placeholder for this key. |
| Template.ReplaceAtPlaceholder | template.js:88-94 | A placeholder at the front is replaced and the scan resumes after it. |
| Template.BraceFreePrefix | template.js:88-94 | Text without `{` passes through replacement unchanged. |
| Template.SegmentPassesThrough | template.js:88-94 | Text holding no placeholder for the key passes through replacement unchanged when a `{{` follows it, even if it holds braces. |
| Template.BraceFreeHasNoPlaceholder | template.js:86-87 | Text without `{` holds no placeholder for any key. |
| Template.NoPlaceholderUnchanged | template.js:88-94 | A template without the placeholder is unchanged. |
| Template.EncodeValue | template.js:90-92 | A falsy value is inserted as the empty string. Any other value is inserted as its text, entity-encoded. |
| Template.PlaceholderValueForms | template.js:84-95 | HTML values are inserted verbatim, encoded values through `encode`, and falsy values as nothing. The text around the placeholders is arbitrary apart from holding no placeholder for the key. |
| Template.PrefixedPlaceholders | template.js:97-107 | Resource placeholders carry `resource-` and are encoded. Component placeholders carry `component-` and are inserted verbatim. The text around them is arbitrary apart from holding no placeholder for the prefixed key. |
| Template.LastGenreWithPiece | template.js:34-38 | The last genre in list order that has the piece, or None exactly when none does. |
| Template.GamePieceOrder | template.js:17-54 | A piece comes from the game's folder, else the last genre that has it, else the system's folder, else the common game folder. |
| Template.GamePieceAsWritten | template.js:17-54 | As written, a genre-level piece yields the file's path rather than its text. Every other tier yields the file's text. |
| Template.GamePiece | template.js:17-54 | The corrected lookup reads the file of whichever tier applies. It fails exactly when that file cannot be read. |
| Template.GenrePieceAsWrittenIsPath | template.js:40-42 | A game whose genre alone has `header.html` gets the path text as its header under the code as written. |
| Template.SectionPiece | template.js:56-76 | A section piece comes from the game's folder, else the system's folder, else the common folder. |
| Template.SectionVisibility | template.js:78-82 | A section is marked `hidden` exactly when it is not the default. Its markup is produced exactly when its piece can be read, and it wraps that piece. |
| Document.LoadPiece | build.js:1221 | A piece that cannot be read fails the run. Otherwise the page uses its text. |
| Document.SectionsHtml | build.js:1227-1235 | The sections load exactly when every shown section's piece can be read. The content is then every shown section's panel joined in order, hidden unless it is the default section, and nothing for the video section of a game without a video. |
| Document.WithoutVideo | build.js:1230 | Dropping the video section keeps every other section. |
| Document.VideoSectionOnlyWithVideo | build.js:1227-1235 | For a game without a video, the sections are those of the list without `video`. |
| Document.TabSelection | build.js:1338 | Exactly one tab is the default. It is the configured section when listed, else the first. |
| Document.TabsHtml | build.js:1335-1350 | One tab per section, in order, each marked default exactly when it is the default. |
| Document.GenreItem | build.js:1356-1365 | A genre without a logo gets its name filled in. |
| Document.GenreItems | build.js:1356-1370 | One item per genre, in order. |
| Document.RewriteButtons | build.js:1410-1433 | The game changes exactly when player 1 is `only_buttons` or `pedal` and the first two labels name left/right or up/down. Only the labels and the controls change, and they change completely. The labels lose their first two, ways becomes 2, buttons and numberOfButtons count every label, and the directions become left/right or up/down, with up/down winning when both match. A missing player-1 entry fails the run. |
| Document.FillAll | build.js:1441-1501 | No replacements leave the page unchanged. |
| Document.ResourceFills | build.js:1441-1443 | One encoded `resource-` replacement per resource string, in order. |
| Document.FieldFills | build.js:1449-1451 | One encoded replacement per field of the game, in order. |
| Document.BezelStyle | build.js:1455-1457 | The bezel style ends with the aspect-ratio directive, which is empty for 16:9. |
| Document.OverlayStyle | build.js:1459-1465 | The overlay style is empty exactly when there is no overlay. |
| Document.Players | build.js:1495 | A missing or zero player count shows `NA`. |
| Document.FixedFills | build.js:1453-1501 | Twenty-one replacements follow the game's fields, with their keys in order from `video-name` to `alternatingYesNo`. The URL parts, the styles, the JSON and the avatar and icon names are inserted as HTML; the rest are encoded. |
| Document.Finish | build.js:1505-1511 | A page that still contains both `{{` and `}}` fails the run. Any other page is wrapped in the html element with the language. |
| Document.LoadPieces | build.js:1221-1391 | The pieces load exactly when each can be read. The headline is the image variant exactly when the game has a logo. |
| Document.Skeleton | build.js:1221-1392 | The page starts with the head, the inline CSS and the body tag, and ends with the extras, the scripts and `</body>`. |
| Document.Compose | build.js:1217-1517 | A written page goes to `public/games/<system>-<name>-<hash>.html`. It records the game's genres and system as used, and it is the wrapped text of a page without leftover markers. A piece that cannot be read, or a button rewrite with no player-1 controls, fails the page with that error. A written page carries the game after the button rewrite, with the genre order the extras tiers left, and copies exactly the existing extra images. |
| Document.MarkerInMiddle | build.js:1505 | A marker in text whose outer parts have no braces lies in the middle part. |
| Document.WrapAddsNoMarkers | build.js:1511 | The wrapper adds no `{{` or `}}` for a brace-free language. |
| Document.NoWrittenPageHasMarkers | build.js:1505-1517 | No written page contains both `{{` and `}}`. |
| Pipeline.Apply | build.js:114-151 | Applying events appends exactly the pushed games to each list and raises each unpaired total by exactly its bumps. |
| Pipeline.ApplyKeepsConsistent | build.js:114-151 | Applying valid events keeps every list's total equal to the list's length. |
| Pipeline.PushesAppend | build.js:114-151 | The games pushed by two event runs are those of the first, then those of the second. |
| Pipeline.PrepareEvents | build.js:364-413 | The ROM step raises the ambiguity total exactly when the choice was ambiguous, and adds the missing ROMs. |
| Pipeline.Prepare | build.js:336-439 | A non-MAME game without emulator metadata fails the run. Otherwise the game gets its final ROMs, its version (MAME only, the one chosen), its normalised title and its emulator location. The published set only grows. |
| Pipeline.PreparedRomsPresent | build.js:343-413 | A MAME game with a version has every final ROM in that version's folder. |
| Pipeline.ArtworkEvents | build.js:730-804 | The missing-artwork, missing-bezel and odd-bezel lists get the game exactly when that condition holds. |
| Pipeline.FieldTotals | build.js:851-954 | The extra-argument and BIOS totals rise exactly when reconciliation flags them. |
| Pipeline.BinaryTotals | build.js:914-924 | The script and binary mismatch totals rise exactly when reconciliation flags them. |
| Pipeline.ReconcileEvents | build.js:900-933 | The resolution-mismatch and variation lists get the game exactly when reconciliation flags them. |
| Pipeline.MameStep | build.js:528-969 | An unreadable bezel fails the step. A successful step writes `public/mame/<name>.json`, carries the chosen artwork, keeps the game's identity and touches neither the skipped list nor the missing-metadata list. The game goes on with the reconciled resolution. The written metadata has the published resolution, and the game joins the resolution-mismatch list exactly when the reconciliation flags a mismatch. |
| Pipeline.MameStepManifest | build.js:857-969 | The written metadata carries the manifest's ROM files and file system, and `keep_aspect`. It is flagged missing exactly when acquisition flagged it. |
| Pipeline.MameStepFatal | build.js:795-845 | An unreadable bezel image fails the run, and so does canonical metadata that already has a file system. |
| Pipeline.MachineStep | build.js:435-969 | Only MAME games run the metadata and manifest step. Others pass through unchanged. |
| Pipeline.SkipReason | build.js:971-993 | A game is skipped for missing ROMs exactly when it has no external location. It is kept exactly when its ROMs, its emulator and the publish filter all allow it. |
| Pipeline.ViewAsWritten | build.js:983-988 | As written, the filter sees the video, logo and icon flags still false. |
| Pipeline.MediaFiltersSkipEverything | build.js:983-988 | As written, the video, logo and icon filters skip every game. |
| Pipeline.ViewOf | build.js:983-988 | The corrected filter view carries whether the game has a video, a logo and a parent icon. |
| Pipeline.VideoFilterSeesVideo | build.js:1069-1088 | Under the corrected view, the video filter passes exactly the games the media step finds a video for. |
| Pipeline.LogoFilterSeesLogo | build.js:1027-1038 | Under the corrected view, the logo filter passes exactly the games with a logo. |
| Pipeline.IconFilterSeesIcon | build.js:1137-1150 | Under the corrected view, the icon filter passes exactly the games whose icon sets `hasIcon`. |
| Pipeline.KeptEvents | build.js:995-1021 | A kept game is noted as missing metadata exactly when flagged. The external-ROM and external-emulator totals rise exactly when those files were missing. |
| Pipeline.SkipGame | build.js:971-993 | A skipped game is appended to the skipped list, nothing else of the run changes, and the report stays consistent. |
| Pipeline.MediaStep | build.js:1025-1215 | The media step fails exactly when a style cannot be read. It leaves the skipped list alone. |
| Pipeline.KeepGame | build.js:995-1517 | A kept game adds exactly one page at its path, leaves the skipped list, the published set and the manifests alone, and keeps the report consistent. |
| Pipeline.Conclude | build.js:971-1520 | Each game is either skipped, with its name appended to the skipped list, or gets exactly one page, and never both. A page is written only when the skip rules let the game through. |
| Pipeline.ProcessGame | build.js:306-1523 | One iteration of the loop. It fails for missing emulator metadata, otherwise adds one page or one skipped entry. For MAME games it adds exactly one metadata file, and it only grows the published set. |
| Pipeline.ProcessGameSteps | build.js:306-1523 | A successful iteration is the preparation, the machine step and the conclusion, in that order. |
| Pipeline.PagesOnlyForPlayableGames | build.js:971-1517 | A page is written only for a game whose ROMs are present or external, whose emulator is present or external and discovered, and which the publish filter passes. |
| Pipeline.Run | build.js:306-1523 | The loop: pages plus skipped games grow by exactly the number of games processed. The report stays consistent. |
| Pipeline.RunAccountsForCatalogue | build.js:306-1523 | A run that completes writes a page for, or skips, every game of the catalogue, with every total equal to its list's length. |

## Left out

- Console output, log lines and colours: they do not affect what is written.
- `mkdirSync` for the `public` sub-folders: every copy is recorded with its destination, so the folder is implied.
- The run id (a SHA-256 of every template file) is a parameter, `htmlHash`. So are html-entities `encode`, `encodeURIComponent`, `JSON.stringify` and `Object.keys(game)`, each as a function passed in.
- Everything before and after the loop is not part of this model: the startup publishing of scripts, styles and images, the app metadata file, the used-genre and used-system copies, and the summary printed at the end. The check for a missing romset configuration at startup is left out too.
- JSON parsing: a game record or metadata file is either a parsed record or unparsable. JSON `null` is treated as absent.
- `path.join` normalisation: paths are sequences of segments, and `.`, `..` and empty segments are not resolved.
- `String.prototype.replace` treats `$&`, `$1` and `$$` in the replacement text as patterns. The model inserts the replacement literally.
- `toLowerCase` is modelled for ASCII only.
- `sizeOf` is the Store's image-size table. An image it cannot read is a failed run.
- Artwork.AspectStyle: the source's floating-point test `width == height * 16 / 9` is modelled as `9 * width == 16 * height`, which agrees on every integer size.
- Extras.ParseInt: the contract states only when the result is NaN and what a leading number parses to. It does not model `parseInt`'s limits on very long digit strings.
- Files.GetAllFileNames: recursion is bounded by a fuel parameter, the listing depth. Folders nested deeper than the fuel yield nothing. The contract states only the non-recursive case and the unreadable-folder case.
- Emulators.PublishEmulator: its own contract states only the pass-through for other systems and monotonic growth. The DosBox and MAME cases are stated on `Emulators.PublishDosbox` and `Emulators.PublishMame`, which it dispatches to.
- Document.GenreItem: the contract states only the no-logo case. With a logo, the item also gets the logo path filled in.
- Pipeline.Run: the loop runs the corrected half of each of the three rows under "## Findings", not the code as written. It uses the guarded `Artwork.Generic` instead of the reads at build.js:779 and 786, `Template.GamePiece` instead of template.js:41, and `Pipeline.ViewOf` instead of the false flags build.js:983-988 passes. The as-written halves, `Artwork.GenericUnguarded`, `Template.GamePieceAsWritten` and `Pipeline.ViewAsWritten`, each come with a lemma, and the loop calls none of them. So `Run` describes the program as intended.
- Pipeline.RunAccountsForCatalogue: stated for the corrected loop. As written, a MAME game with no `nativeResolution` and no usable artwork ends the run with a TypeError (build.js:779 and 786), so such a run never completes.
- Pipeline.PagesOnlyForPlayableGames: proved with the corrected filter view `Pipeline.ViewOf`. As written, the video, logo and icon publish filters see false flags and pass no game (`Pipeline.MediaFiltersSkipEverything`), so with those filters no page is written at all.
- Pipeline.Conclude: the publish filter sees `Pipeline.ViewOf`, the media flags as found, which is the corrected form of the build.js:983-988 finding. The code as written is `Pipeline.ViewAsWritten`.
- Pipeline.MameStep: never fails for a MAME game with no `nativeResolution`, because its artwork choice uses the guarded `Artwork.Generic`. As written, build.js:779 and 786 throw there (`Artwork.UnguardedFailsWithoutResolution`).
- Manifest.ChooseArtwork: uses the guarded `Artwork.Generic`, the corrected form of the build.js:776-787 finding. With no `nativeResolution` and no folder or no PNG images, the source throws instead.
- Artwork.SelectBezel: a folder without PNG images uses the guarded `Artwork.Generic`. As written, build.js:779 throws when the game has no `nativeResolution`.
- Artwork.NoArtworkDirectory: uses the guarded `Artwork.Generic`. As written, build.js:786 throws when the game has no `nativeResolution`.
- Document.LoadPiece: a genre-tier piece is read from its file through `Template.GamePiece`, the corrected form of the template.js:40-42 finding. As written, the page gets the piece's path text instead (`Template.GenrePieceAsWrittenIsPath`).
- Document.LoadPieces: every piece goes through `Document.LoadPiece`, so genre-tier pieces are read from their files, not inserted as path text as template.js:41 does.
- Document.Compose: the pieces come from the corrected `Document.LoadPiece`. The page text itself is stated only as the wrapped, marker-free result. What each fill inserts is stated on `Document.ResourceFills`, `Document.FieldFills` and `Template.PlaceholderValueForms`.
- Template.ReplacesEveryOccurrence: proved for keys without `{`. The fixed keys the build fills are brace-free literals. The keys of the resource fills (build.js:1441-1443) and of the game-field fills (`Object.keys(game)`, build.js:1449-1451) come from data, and the proof covers them only when they are brace-free too. `Template.PlaceholderValueForms` and `Template.PrefixedPlaceholders` carry the same condition.
- Document.FillAll: the contract states only that no replacements change nothing. Each replacement is `Template.ReplacePlaceholder`, whose behaviour `Template.PlaceholderValueForms` states.
- Document.FixedFills: the contract states the number, the keys in order and the HTML flags of the replacements, not each value.
- Files.DeleteFiles: the contract does not state that a stat failure part-way through reports failure after the earlier deletions; `Files.DeleteStopsAtFailure` states that. An `unlinkSync` that throws is not modelled: every unlink succeeds.
- Genre icons found by the fallback name the icon but are not copied, as in the source.
- Files copied before a fatal error are not undone, and the model drops them with the failed run. A fatal error stops the whole build, so nothing after it is modelled.

Quirks of the source that the model keeps as written:

- Only the parent's icon sets `hasIcon` (build.js:1150).
- When the game has no `cloneOf`, the icon step tries `undefined.ico` (build.js:1143).
- Both genre-item templates are loaded from `genre-image-item` (build.js:294 and 298).
- The MAME metadata file is written before the skip decision (build.js:968).
- `genres.reverse()` reverses the game's genre list in place in the icon fallback and in the genre extras tiers. Later pieces see the reversed order.
- The single-image genre extras tiers test `<genre> games.png` but publish `<genre>.png` (build.js:1265-1270).
- The genre-folder tier builds its URL from the game's name (build.js:1278).
- `getAllFileNames` recurses with the bare entry name rather than its full path (file.js:70).

## Findings

| source | as written | input that shows it | evidently intended | confidence | as-written member | corrected member |
|---|---|---|---|---|---|---|
| build.js:776-787 | `game.nativeResolution[0]` is read without the `!game.nativeResolution` guard that 767 and 774 have | a MAME game with no `nativeResolution` and either no artwork folder or a folder with no PNG images | fall back to horizontal generic artwork, as the guarded branches do | not executed | Artwork.GenericUnguarded, Artwork.UnguardedFailsWithoutResolution | Artwork.Generic, Artwork.NoArtworkDirectory |
| build.js:983-988 | `hasVideo`, `hasLogo` and `hasIcon` are passed to the publish filter while they still hold `false` from 309-311; they are set only later, at 1030-1150 | any game, with `publishFilterVideos`, `publishFilterLogos` or `publishFilterIcons` configured: every game is skipped | the filters see whether the game has a video, a logo or an icon | not executed | Pipeline.ViewAsWritten, Pipeline.MediaFiltersSkipEverything | Pipeline.ViewOf, Pipeline.VideoFilterSeesVideo, Pipeline.LogoFilterSeesLogo, Pipeline.IconFilterSeesIcon |
| template.js:40-42 | the genre tier returns `genrePiece`, the joined path, instead of reading the file | game `zaxxon`, genre `shooter`, only `html/game/shooter/header.html` present: the header is the text `html/game/shooter/header.html` | read the genre's piece, as the game and system tiers do | not executed | Template.GamePieceAsWritten, Template.GenrePieceAsWrittenIsPath | Template.GamePiece, Template.GamePieceOrder |
