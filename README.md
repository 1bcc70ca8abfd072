# catty core, modelled in Dafny

catty is a command-line organiser for a local music library. This project
models the parts of its source that make decisions and proves what they do:

- **The path-hierarchy database** (`src/common/infer.rs`), in `infer.dfy`.
  It is an arena of directory *collections* and *files*, keyed by canonical
  path. It is modelled as the class `Infer.Database`, whose three fields are a
  `map` (the path lookup) and two `seq`s (the collection and file vectors).
  Its methods reassign those fields in place.
  - Registering a directory memoises on the lookup.
  - It first registers every missing ancestor up to the root, so a parent
    always gets its id before its child.
  - It assigns `id = index` and `depth = parent depth + 1`, with root depth 1.
  - Registering a file attaches it to its directory's collection and marks
    that collection as having files.

  The invariant `Infer.Consistent` covers the lookup and both vectors, and
  every method keeps it. It also shows that a collection's depth is its
  number of path components plus one.
- **The filename-stem splitter** `TrackMeta::from_stem` (`src/common/meta.rs`),
  in `meta.dfy`. It is a pure function. The stem is cut by `splitn(3, " - ")`
  and the parts are read as artist, album and title, each with a confidence.
  Rejoining the parts reproduces the stem.
- **The extension classifiers** `ext_is_audio_file` (`src/common.rs`) and
  `try_get_filetype` (`src/cmd_add.rs`), in `common.dfy` and `cmd_add.dfy`.
  They are pure, ASCII-case-insensitive matches. The two copies of the
  41-entry audio list are proved to agree.
- **The decision loop of `ask_confirm`** (`src/common.rs`), in `common.dfy`.
  It is a method over a sequence of input lines, with the source's
  accumulating input buffer.

`text.dfy` models the Rust standard-library string functions these rely on:
`to_ascii_lowercase`, `char::is_whitespace` and `trim`. `wrappers.dfy`
defines `Option`.

A path is modelled as `Path(rooted, comps)`. `Infer.Parent` drops the last
component and gives none for a path with no components, as `Path::parent`
does for `/` and for the empty path. Canonicalisation happens before these
functions run, so paths arrive already canonical.

Where a Rust method returns `&mut Collection` or `&mut File`, the model
returns the record's index in its arena. The caller then reaches the record
through the field, as `add_file_canon` does.

A root collection has depth 1: `parent_depth` defaults to 0 and the new
depth is `parent_depth + 1` (src/common/infer.rs:33,40). The stem is cut by
a single `splitn(3, " - ")` (src/common/meta.rs:24).

## Model

| member | source | states |
|---|---|---|
| `Infer.Parent` | src/common/infer.rs:31 | the parent path is the path without its last component, with the same rootedness; there is none exactly when there are no components |
| `Infer.AncestorsStoredFirst` | src/common/infer.rs:31-35 | in a consistent database, every directory above a stored collection is stored too, with an id no larger than the collection's, so parents get their ids first |
| `Infer.AppendKeepsConsistent` | src/common/infer.rs:31-44 | appending a new rooted path at id = old length, with its parent's id and the parent's depth + 1 (or no parent and depth 1 for a root), keeps the lookup, id and parent invariants |
| `Infer.GrowsByAppend` | src/common/infer.rs:31-44 | once the ancestors of a path are registered, adding the path itself leaves the old records untouched, adds only records on the way to the path, and adds to the lookup exactly the missing ancestors |
| `Infer.StoredGrowsByNothing` | src/common/infer.rs:28-30 | every directory above a cached path is cached too, so the cached branch adds nothing to the lookup or the arena |
| `Infer.AttachKeepsConsistent` | src/common/infer.rs:57-69 | appending a file record with the next id, attached to its directory's collection, and setting `has_files` on that collection keeps the lookup, id, parent and has-files invariant |
| `Infer.PathsUnique` | src/common/infer.rs:28-30 | no two collections share a path, so memoisation never duplicates a directory |
| `Infer.Database.constructor` | src/common/infer.rs:15-21 | a new database has an empty lookup, no collections and no files, and is consistent |
| `Infer.Database.AddCollectionCanon` | src/common/infer.rs:23-45 | a path without a root gives none and changes nothing; a cached path gives its cached id and changes nothing; otherwise missing ancestors are added first and the path gets the last new id, at least the old length, and exactly the old length with one record added when its parent is already stored (or it is a root). The lookup gains exactly the path's missing ancestors, old records stay, new ones have no files, files are unchanged, and consistency is kept |
| `Infer.Database.AddFileCanon` | src/common/infer.rs:57-69 | for a rooted path with a parent: exactly one file is appended, with id = old file count, its own path, and the collection of its parent directory. Only that collection gets `has_files` set, the rest is as for registering the parent, and no de-duplication happens |
| `Infer.Database.Complete` | src/common/infer.rs:81-83 | hands out the collection and file lists. In them ids equal indices, each parent id is smaller and names the parent directory one level shallower, each file points to its directory's collection, and `has_files` holds exactly where a file is attached |
| `Meta.FindSeparator` | src/common/meta.rs:24 | returns the first index where `" - "` starts, or none exactly when the string contains no separator |
| `Meta.SplitN` | src/common/meta.rs:24 | `splitn(n, " - ")` gives 1 to n parts that rejoin to the input; no part but the last contains the separator, and when fewer than n parts come out the last holds none either |
| `Meta.SplitNCutsLeftmost` | src/common/meta.rs:24 | each cut is at the leftmost separator still ahead: the first part ends where the first separator starts, and the remaining parts are those of splitting the text after it into one part fewer |
| `Meta.SplitNOverlapExample` | src/common/meta.rs:24 | "x - - y" splits into "x" and "- y": the first of two overlapping separators is taken |
| `Meta.FromStem` | src/common/meta.rs:23-46 | the number is always none and a title is always present; the artist is absent exactly when the stem has no separator, in which case the title's confidence is `Poor`; an album implies an artist; the `unreachable!` arm cannot be taken |
| `Meta.FromStemRejoins` | src/common/meta.rs:24-42 | joining the present artist, album and title with `" - "` gives the stem back |
| `Meta.FromStemArtistAlbumPlain` | src/common/meta.rs:24 | the artist and album parts never contain `" - "` |
| `Meta.FromStemNoSeparator` | src/common/meta.rs:31-33 | a stem without separator yields only a title, equal to the stem, with `Poor` confidence |
| `Meta.FromStemOneSeparator` | src/common/meta.rs:34-37 | a stem with exactly one separator yields the text before it as artist and the text after it as title, both `Average`, with no album |
| `Meta.FromStemTwoSeparators` | src/common/meta.rs:38-42 | a stem with two or more separators yields artist, album and title, all `Average`; the title is everything after the second separator, further separators included |
| `Text.LowerChar` | src/common.rs:80 | `to_ascii_lowercase` on one character: A to Z move up by 32 to a to z; every other character is unchanged |
| `Text.AsciiLower` | src/common.rs:80 | `to_ascii_lowercase` on a string keeps its length |
| `Text.AsciiLowerAt` | src/common.rs:80 | `to_ascii_lowercase` on a string lower-cases each character on its own |
| `Text.IsWhitespace` | src/common.rs:28 | `char::is_whitespace`: the Unicode White_Space characters. It is a plain predicate with no contract; `Text.Trim` and `Text.TrimBlankPrefix` state what trimming does with it |
| `Text.TrimStart` | src/common.rs:28 | drops a leading run of whitespace: the result is a suffix of the input, what was dropped is all whitespace, and the result does not start with whitespace |
| `Text.TrimEnd` | src/common.rs:28 | drops a trailing run of whitespace: the result is a prefix of the input, what was dropped is all whitespace, and the result does not end with whitespace |
| `Text.Trim` | src/common.rs:28 | `str::trim`: the result is empty exactly when the input is all whitespace, and otherwise neither starts nor ends with whitespace; `Text.TrimKeepsMiddle` states what it keeps |
| `Text.TrimKeepsMiddle` | src/common.rs:28 | the result of `trim` is a slice of the input with only whitespace before and after it in the input |
| `Text.AsciiLowerFixesLowerCase` | src/common.rs:80 | ASCII lower-casing leaves no capitals, is idempotent, and fixes strings without capitals |
| `Text.TrimBlankPrefix` | src/common.rs:27-28 | whitespace accumulated in front of a line does not change what `trim` gives |
| `Common.ExtIsAudioFile` | src/common.rs:79-91 | `ext_is_audio_file`, as the same match on the lower-cased extension. It has no contract of its own; the `Common.ExtIsAudioFile…` lemmas below state its properties |
| `Common.ExtIsAudioFileMatchesTable` | src/common.rs:79-90 | an extension is audio exactly when its ASCII lower case is one of the 41 listed extensions |
| `Common.AudioExtensionsLowerCase` | src/common.rs:82-87 | the listed extensions contain no capitals |
| `Common.ExtIsAudioFileAcceptsListed` | src/common.rs:80-88 | any extension whose lower case is listed is audio |
| `Common.ExtIsAudioFileIgnoresCase` | src/common.rs:80 | an extension and its ASCII lower case are classified alike |
| `Common.ExtIsAudioFileAcceptsExamples` | src/common.rs:82-88 | "mp3", "FLAC" and "8svx" are audio |
| `Common.ExtIsAudioFileRejectsExamples` | src/common.rs:89 | "", "png" and "JPG" are not audio |
| `Common.FirstAnswerLine` | src/common.rs:26-31 | the index of the first non-blank input line; all earlier lines are blank |
| `Common.AskConfirm` | src/common.rs:26-37 | exactly the lines up to and including the first non-blank one are read, and every earlier one trims to empty. The answer is yes exactly when that line trims to "y" or "Y"; "n", "N" and any other text give no |
| `CmdAdd.TryGetFileType` | src/cmd_add.rs:57-75 | `try_get_filetype`, as the same match on the lower-cased extension. It has no contract of its own; the `CmdAdd` lemmas below state its properties |
| `CmdAdd.AudioAgreesWithExtIsAudioFile` | src/cmd_add.rs:57-66 | `try_get_filetype` says `Audio` exactly when `ext_is_audio_file` says true, so the two lists coincide |
| `CmdAdd.ImageMatchesTable` | src/cmd_add.rs:67-72 | an extension is classified as an image of a MIME type exactly when its lower case is one of that type's extensions: bmp; gif; jpg, jpeg, jfif, pjpeg, pjp; apng, png; tif, tiff |
| `CmdAdd.ImageFromTable` | src/cmd_add.rs:67-72 | an extension listed for a MIME type, in any case, is classified as that image type |
| `CmdAdd.TableFromImage` | src/cmd_add.rs:67-72 | an extension classified as an image type is listed for that type |
| `CmdAdd.UnknownOtherwise` | src/cmd_add.rs:73 | an extension is `Unknown` exactly when it is neither audio nor listed for any image type |
| `CmdAdd.ImagesAreNotAudio` | src/cmd_add.rs:67-72 | no extension classified as an image is accepted by `ext_is_audio_file` |
| `CmdAdd.TryGetFileTypeIgnoresCase` | src/cmd_add.rs:58 | an extension and its ASCII lower case are classified alike |
| `CmdAdd.TryGetFileTypeImageExamples` | src/cmd_add.rs:69-72 | "PNG" is a PNG, "jfif" a JPEG and "Tiff" a TIFF image |
| `CmdAdd.TryGetFileTypeUnknownExamples` | src/cmd_add.rs:73 | "" and "MP4" are unknown |

## Left out

- `Database::add_collection` and `add_file` (src/common/infer.rs:47-55, 71-79) only canonicalise through the file system and log a failure. The model starts from canonical paths.
- `Infer.Database.Complete`: the source consumes the database; the model leaves it in place after handing out the lists.
- Path prefixes (Windows drive letters) and paths that are not normalised are not modelled. A path is a root flag and a list of components.
- `Infer.Database.AddFileCanon`: the source panics when the path has no root or no parent. The model requires a rooted path with a parent instead of modelling the panic.
- `Common.AskConfirm`: the prompt, the flush and the error log are not modelled. At end of input `read_line` adds nothing and the source loops for ever, so the model requires at least one non-blank line. A failing `read_line` (which panics) is not modelled.
- `find_config`, `find_ytdlp_path` and `_find_ffmpeg_path` (src/common.rs:15-77) read a TOML file, test file existence and search `PATH`.
- `cmd_add::run` and `fetch_uri` (src/cmd_add.rs:11-49) start an external downloader process.
- `TrackMeta::from_audiotags` (src/common/meta.rs:48-50) is unimplemented in the source and depends on an external tag library.
- src/cmd_sort.rs depends on `common::meta::parse` and `common::glob_foreach_many`, which are not part of this model. It also renames files and asks for confirmation.
- src/cmd_rename.rs and src/main.rs are command-line wiring and logging.
- `CmdAdd.TryGetFileType`: the image variants use a local `MimeType` type, not the tag library's own MIME type.
