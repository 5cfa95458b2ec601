# Google Meet recording mover, modelled in Dafny

`google_meet_rec_mover` tidies a Google Drive "Meet Recordings" folder.
A meeting leaves several files in that folder:
- a video (`…～Recording`);
- a Gemini transcript (a `.gdoc` stub, `Gemini によるメモ`);
- sometimes a chat log (`…～Chat`).

The tool has two sides:
- **Scan.** It groups these files into *recording sets* by the session prefix in their names. It keeps the sets that have a video and lists them newest first.
- **Move.** It moves a chosen set into a dated directory below a destination. Along the way it gives the video an `.mp4` suffix, converts the `.gdoc` transcript to `.docx` through an external converter, and then removes the stub.

Modules:
- `Text` (`text.dfy`): the pieces of Python's `str` and `pathlib` that the tool relies on:
  - whitespace and ASCII digits, lower-casing, `in`, `strip`;
  - `PurePath.name`, `suffix`, `stem` and `with_suffix`, on a `Path` datatype.
- `Dates` (`dates.dfy`): the timestamp in a prefix.
  - The regular expression `(\d{4})\s+(\d{2})\s+(\d{2})\s+(\d{2})[:/](\d{2})` is modelled as an explicit leftmost search.
  - The range checks are those of the `datetime` constructor.
  - `strftime("%Y%m%d")` gives the date directory's name.
- `Recordings` (`recordings.dfy`): recording sets as values.
  - `_extract_prefix`, modelled as an explicit lazy `(.+?)` match followed by `str.strip`.
  - The role rules: video, then transcript, then chat.
  - "The last qualifying file wins".
  - `RecordingSet.__init__`, `is_complete` and `get_status`.
  - The scan's sort order, a strict order.
- `Scanner` (`scanner.dfy`): `RecordingScanner.scan` and `_group_files_into_sets` as methods with the source's loops.
  - The loops are the first loop that collects prefixes, the loop over the Python set of prefixes, and the inner loop over the listing.
  - Each method is proved against functions on the listing (`PrefixesOf`, `Pick`, `Groups`).
  - An insertion sort on the sort key stands for `list.sort`. A sorted list of distinct-prefix sets is unique, so the scan's result does not depend on the order in which the Python set is visited.
- `Files` (`files.dfy`): a `FileSystem` class.
  - It holds the set of existing paths and a ghost log of every call made.
  - Its methods are `mkdir(parents=True)`, `rename`, `shutil.move`, `unlink`, and the creation of a file by opening it for writing.
  - Each call that can fail takes a boolean standing for what the operating system decides.
- `Mover` (`mover.dfy`): the move side.
  - Every step of `move_to` is first stated as a function on a `State`: the set's fields, the existing paths and the call log. The steps are the two directory checks, `ensure_video_extension`, `convert_transcript_to_docx`, the move loop and the unlink.
  - An `Oracle` fixes the outcome of each call.
  - The lemmas give `move_to`'s result, its exact call sequence, and where the set's files end up on disk.
  - The class `RecordingSet` carries the source's fields. Its methods make the same calls on a `FileSystem`, and each method is proved equal to the corresponding function.
  - `MoveFiles`, `PrepareFiles` and `TransferTo` are pieces of `move_to`'s body, split out as methods of their own: the move loop, the part before it, and the part after the directories exist.

The external converter (`GdocConverter.convert_to_docx`) is an oracle with three outcomes:
- it fails before opening the output: no file ID in the stub, a failure to construct `GdocConverter` (authentication), or a failure of `io.FileIO` itself;
- it fails after opening the output for writing: every error Drive reports on the export (file not found, no permission, export limit) comes from `next_chunk()` during the download, so it leaves an empty `.docx` beside the stub;
- it succeeds and returns the `.docx` sibling that `with_suffix('.docx')` names.

## Model

| member | source | states |
|---|---|---|
| Text.Strip | google_meet_rec_mover/cli.py:321 | `strip()` gives a substring of the input with no whitespace at either end and only whitespace around it; the result is empty exactly when the input is all whitespace (which decides `if prefix:`) |
| Text.SuffixSpec | google_meet_rec_mover/cli.py:296 | a path suffix is a dot plus at least one character, ends the name and holds no other dot; there is none only when the name ends in a dot or has no dot after its first character |
| Text.SuffixAfterLastDot | google_meet_rec_mover/cli.py:87 | the suffix of a name is the text from its last dot on, and the stem what precedes it |
| Text.WithSuffixReplaces | google_meet_rec_mover/cli.py:91 | `with_suffix(s)` replaces the last suffix rather than appending: same parent, same stem, and the suffix read back is exactly `s` |
| Dates.ExtractDate | google_meet_rec_mover/cli.py:51-63 | the date taken from a prefix, when there is one, is always a valid calendar minute |
| Dates.SeparatorInsensitive | google_meet_rec_mover/cli.py:54-55 | two prefixes that differ only in `:` versus `/` give the identical date, or no date in both cases |
| Dates.ColonOrSlash | google_meet_rec_mover/cli.py:54 | replacing any `:` in a prefix with `/` leaves the extracted date unchanged |
| Dates.MatchAt | google_meet_rec_mover/cli.py:54-55 | the pattern tried at one start position, giving the captured fields; `ExtractRendered` states what it reads from a rendered timestamp and `SearchAgrees` what the search takes from it |
| Dates.Search | google_meet_rec_mover/cli.py:55 | `re.search` as the leftmost start position where `MatchAt` succeeds; characterised by `SearchAgrees`, `SkipNoMatch` and `ExtractRendered` |
| Dates.SearchAgrees | google_meet_rec_mover/cli.py:55 | `re.search` depends only on the outcome of the pattern at each start position |
| Dates.SkipNoMatch | google_meet_rec_mover/cli.py:55 | `re.search` passes over start positions where the pattern fails |
| Dates.ExtractRendered | google_meet_rec_mover/cli.py:54-63 | a title in which no match of the pattern starts, followed by `YYYY MM DD HH:MM` (or `HH/MM`) yields exactly that date when it is a real calendar minute (year 1-9999, month 1-12, day within the month under the leap-year rule, hour up to 23, minute up to 59) and no date otherwise, whatever follows it |
| Dates.ExtractRenderedTitle | google_meet_rec_mover/cli.py:54-63 | the same for any digit-free title |
| Dates.DayNameRoundTrip | google_meet_rec_mover/cli.py:130 | the `%Y%m%d` name of a valid date reads back as its year, month and day |
| Dates.DayNameSameDay | google_meet_rec_mover/cli.py:130-132 | two valid dates share a date directory exactly when they fall on the same day |
| Recordings.ExtractPrefix | google_meet_rec_mover/cli.py:316-322 | `_extract_prefix`: the lazy match, then `strip()` of group 1; characterised by `PrefixBeforeFirstMarker`, `NoMarkerNoPrefix` and `PrefixOccursInName` |
| Recordings.LazyEnd | google_meet_rec_mover/cli.py:319 | the lazy group stops only where a `～Recording` or `～Chat` marker starts |
| Recordings.PrefixMatch | google_meet_rec_mover/cli.py:319 | a match has a non-empty group 1 that ends right before a marker |
| Recordings.PrefixBeforeFirstMarker | google_meet_rec_mover/cli.py:316-322 | on a name without newlines, the prefix is the stripped text before the earliest marker that has at least one character before it |
| Recordings.NoMarkerNoPrefix | google_meet_rec_mover/cli.py:316-322 | a name with no marker after its first character yields no prefix |
| Recordings.PrefixOccursInName | google_meet_rec_mover/cli.py:294 | the prefix a name yields is a substring of that name, so the file belongs to its own group |
| Recordings.Classify | google_meet_rec_mover/cli.py:296-301 | the role rules in the source's order (video, then transcript, then chat), with the same suffixes and tokens as the inner loop, which `Scanner.FilesFor` is proved to follow; `RecordingTokenIsVideo` and `PrefixedNameHasRole` state their consequences |
| Recordings.PrefixedNameHasRole | google_meet_rec_mover/cli.py:296-301 | every name that yields a prefix is classified as video, transcript or chat |
| Recordings.RecordingTokenIsVideo | google_meet_rec_mover/cli.py:296 | a name containing `Recording` is a video whatever its suffix, before the transcript and chat rules are tried |
| Recordings.PickIsLastQualifying | google_meet_rec_mover/cli.py:293-301 | a role gets no file exactly when no file of the listing qualifies; otherwise it gets a qualifying file and no later file qualifies |
| Recordings.PickStep | google_meet_rec_mover/cli.py:293-301 | one more file in the listing overwrites the role's file exactly when it qualifies |
| Recordings.NewRecording | google_meet_rec_mover/cli.py:37-49 | the fields are the arguments; the date is extracted from the prefix only when none was passed |
| Recordings.StatusParts | google_meet_rec_mover/cli.py:71-77 | each of `動画`, `議事録`, `チャット` is collected exactly when the video, transcript or chat is present, nothing else is, video comes first and chat last; one label per present role |
| Recordings.Join | google_meet_rec_mover/cli.py:79 | the joined length is the labels' total plus two characters per separator |
| Recordings.GetStatus | google_meet_rec_mover/cli.py:69-79 | the status line is bracketed |
| Recordings.JoinChars | google_meet_rec_mover/cli.py:79 | every character of the joined text other than `,` and space comes from one of the parts |
| Recordings.JoinContainsPart | google_meet_rec_mover/cli.py:79 | every part occurs in the joined text |
| Recordings.StatusShowsLabel | google_meet_rec_mover/cli.py:69-79 | a label occurs in the status line exactly when it was collected |
| Recordings.StatusShowsRoles | google_meet_rec_mover/cli.py:69-79 | the status line contains `動画`, `議事録` or `チャット` exactly when the set has a video, a transcript or a chat |
| Recordings.StatusDeterminesRoles | google_meet_rec_mover/cli.py:69-79 | equal status lines mean the same roles are present |
| Recordings.SortsBefore | google_meet_rec_mover/cli.py:272 | the sort key as an order: dated sets before undated ones, later dates first, then prefixes ascending; `SortsBeforeStrict` and `SortsBeforeTotal` show it is a strict total order on distinct prefixes |
| Recordings.SortsBeforeStrict | google_meet_rec_mover/cli.py:272 | the scan order is irreflexive, asymmetric and transitive |
| Recordings.SortsBeforeTotal | google_meet_rec_mover/cli.py:272 | any two sets with different prefixes are ordered one way or the other |
| Scanner.PrefixesOfSpec | google_meet_rec_mover/cli.py:282-285 | a prefix is collected exactly when it is non-empty and some file of the listing yields it |
| Scanner.Insert | google_meet_rec_mover/cli.py:272 | insertion adds exactly the one element (as multisets) |
| Scanner.Sort | google_meet_rec_mover/cli.py:272 | sorting is a permutation |
| Scanner.SortSorted | google_meet_rec_mover/cli.py:272 | sets with distinct prefixes come out in scan order |
| Scanner.SortedUnique | google_meet_rec_mover/cli.py:272 | two sorted lists with the same elements are equal |
| Scanner.BuiltSpec | google_meet_rec_mover/cli.py:288-312 | after visiting distinct prefixes, the dictionary holds exactly those whose group has a video, each mapped to its group, with keys in insertion order and none repeated |
| Scanner.ValuesAreGroups | google_meet_rec_mover/cli.py:314 | the dictionary's values are exactly the kept groups, with distinct prefixes |
| Scanner.CollectPrefixes | google_meet_rec_mover/cli.py:281-285 | the first loop collects `PrefixesOf(files)` |
| Scanner.FilesFor | google_meet_rec_mover/cli.py:289-301 | the inner loop leaves, for each role, the last file that qualifies for it |
| Scanner.GroupFilesIntoSets | google_meet_rec_mover/cli.py:276-314 | whatever order the prefix set is visited in, the result holds exactly the kept groups (one per collected prefix whose group has a video), no two with the same prefix |
| Scanner.Scan | google_meet_rec_mover/cli.py:257-274 | a missing source directory gives the empty list; otherwise exactly the kept groups, in scan order |
| Scanner.ScanDeterministic | google_meet_rec_mover/cli.py:272 | the scan result is unique for a given listing |
| Scanner.ScanOutput | google_meet_rec_mover/cli.py:257-314 | every listed set has a video and is its prefix's group; prefixes are distinct; dates descend; undated sets come last; equal dates are in ascending prefix order |
| Files.Lineage | google_meet_rec_mover/cli.py:125 | what `mkdir(parents=True)` creates contains the directory and nothing deeper |
| Files.LineageSpec | google_meet_rec_mover/cli.py:125 | `mkdir(parents=True)` creates exactly the directory and its ancestors: the paths reached by climbing from it to their own depth |
| Files.Moved | google_meet_rec_mover/cli.py:170 | after a successful move the target exists and the source does not; a failed move changes nothing; other paths are untouched |
| Files.FileSystem.Mkdir | google_meet_rec_mover/cli.py:125 | the mkdir succeeds as the system decides, adds the lineage only then, and is logged |
| Files.FileSystem.Rename | google_meet_rec_mover/cli.py:94 | the rename succeeds as the system decides, moves the path only then, and is logged |
| Files.FileSystem.Move | google_meet_rec_mover/cli.py:170 | the same for `shutil.move`, taken as atomic: a failed move leaves the paths unchanged |
| Files.FileSystem.Unlink | google_meet_rec_mover/cli.py:179 | the unlink removes the path only on success, and is logged |
| Files.FileSystem.Create | google_meet_rec_mover/gdoc_converter.py:80 | opening for writing creates the file, and is logged |
| Mover.WithSuffixHas | google_meet_rec_mover/cli.py:91 | the `.mp4` or `.docx` sibling has that suffix, with the same directory and stem |
| Mover.DateDirName | google_meet_rec_mover/cli.py:128-130 | the date directory is `unknown_date` for an undated set, and otherwise eight digits |
| Mover.DateDirNotInLineage | google_meet_rec_mover/cli.py:124-134 | creating the destination never creates the date directory, so both checks are needed |
| Mover.EnsureDir | google_meet_rec_mover/cli.py:124-125 | a missing directory is created with its ancestors; the step fails exactly when the directory was missing and the mkdir failed; the mkdir is made only for a missing directory |
| Mover.RenamedVideo | google_meet_rec_mover/cli.py:81-99 | the video path after the step is present exactly when it was before |
| Mover.EnsureExtension | google_meet_rec_mover/cli.py:81-99 | the value is the video path afterwards; the rename is tried only when the suffix is not `.mp4`; the field and the existing paths change only when the rename worked |
| Mover.EnsureExtensionRenames | google_meet_rec_mover/cli.py:86-99 | after a worked rename or an already-`.mp4` video: `.mp4` suffix, same directory, same stem; after a worked rename the existing paths are those of the move to the `.mp4` name; after a failed rename: the old path, and no path changed |
| Mover.DottedTitleRename | google_meet_rec_mover/cli.py:86-96 | a video named `Sprint 3.1 review～Recording` is renamed to `Sprint 3.mp4`: `with_suffix` replaces everything after the last dot, so a title holding a dot loses its tail when the video has no extension |
| Mover.EnsureExtensionIdempotent | google_meet_rec_mover/cli.py:86-88 | once the video has `.mp4`, running the step again changes nothing and makes no call |
| Mover.ConvertedTranscript | google_meet_rec_mover/cli.py:101-119 | the transcript path after conversion is present exactly when it was before |
| Mover.ConvertTranscript | google_meet_rec_mover/cli.py:101-119 | a path is returned exactly when the transcript is a `.gdoc` (suffix compared case-insensitively) and the converter succeeded; only then is the field replaced; the existing paths gain the `.docx` exactly when the converter got as far as opening it, and nothing else changes |
| Mover.ConvertTranscriptSibling | google_meet_rec_mover/gdoc_converter.py:63-89 | the `.docx` is the stub's sibling with the same stem; the file exists once the output is opened, before the download, even if the download then failed |
| Mover.Prepared | google_meet_rec_mover/cli.py:138-153 | after preparation every path still names a file |
| Mover.Prepare | google_meet_rec_mover/cli.py:136-153 | preparation fails exactly when a needed conversion failed; the fields, the existing paths after the rename and the converter, and the rename and create calls made, in that order |
| Mover.FilesToMove | google_meet_rec_mover/cli.py:156-163 | `files_to_move`; `FilesToMoveSpec` states its contents and order |
| Mover.FilesToMoveSpec | google_meet_rec_mover/cli.py:156-163 | every present file is queued once, in the order video, transcript, chat, and nothing else is |
| Mover.MovesAllowed | google_meet_rec_mover/cli.py:165-173 | every queued move succeeds exactly when the move of each present file does |
| Mover.MoveCalls | google_meet_rec_mover/cli.py:165-170 | one move per queued file |
| Mover.MoveAll | google_meet_rec_mover/cli.py:165-173 | the move loop as a function; `MoveAllSpec` gives its result and calls, `MoveAllPaths` where the files end up |
| Mover.MoveAllSpec | google_meet_rec_mover/cli.py:165-173 | the loop tries every file even after a failure, succeeds exactly when every move does, and makes exactly one move per file, in order, each to the date directory under the file's own name |
| Mover.Transfer | google_meet_rec_mover/cli.py:136-184 | `move_to` after both directories exist; `TransferShape`, `TransferResult`, `TransferLog` and `TransferPaths` give its fields, result, calls and paths |
| Mover.MoveAllPaths | google_meet_rec_mover/cli.py:165-173 | when the files have distinct names and none is in the date directory: a file whose move worked is in the date directory under its own name and gone from its old place, a file whose move failed is where it was, and no other path changes |
| Mover.TransferShape | google_meet_rec_mover/cli.py:136-176 | the fields after `move_to` are the prepared ones (the moves do not update them); the result is true exactly when a needed conversion worked and every present file was moved |
| Mover.TransferResult | google_meet_rec_mover/cli.py:136-184 | the result is false exactly when a conversion or a move failed; a failed `.mp4` rename and a failed unlink never change it |
| Mover.VideoMovedFirst | google_meet_rec_mover/cli.py:138-170 | the video is moved first, under its old name when the rename failed and under its `.mp4` name when it worked |
| Mover.TransferLog | google_meet_rec_mover/cli.py:136-182 | the exact calls after the directories exist: the rename, the converter's file, the moves, and the unlink of the `.gdoc` only when the result is true |
| Mover.MoveToRun | google_meet_rec_mover/cli.py:121-184 | `move_to`; `MoveToResult`, `MoveToLog`, `MoveToPaths` and `MoveToRemovesStub` give its outcome, calls and paths |
| Mover.PreparedPresent | google_meet_rec_mover/cli.py:138-153 | preparation keeps every file of the set on disk, under its new name where the rename or conversion worked |
| Mover.TransferEnd | google_meet_rec_mover/cli.py:175-182 | the transfer ends with the paths the moves left, less the stub only when the transfer succeeded and its unlink worked |
| Mover.TransferPaths | google_meet_rec_mover/cli.py:136-184 | for a set whose files are present, have distinct names and are outside the date directory: every file whose move worked ends up in the date directory and not at its old place; every file whose move failed (the video, say, while the chat moves) stays where it was |
| Mover.MoveToResult | google_meet_rec_mover/cli.py:121-184 | `move_to` raises exactly when a missing directory could not be created, and otherwise returns the transfer's result |
| Mover.MoveToLog | google_meet_rec_mover/cli.py:121-184 | the exact calls of `move_to`: each missing directory's mkdir, then the transfer's calls if both exist |
| Mover.MoveToPaths | google_meet_rec_mover/cli.py:121-184 | the same placement of files for `move_to` whenever it returns rather than raises |
| Mover.MoveToRemovesStub | google_meet_rec_mover/cli.py:175-182 | after a fully successful `move_to` that converted the transcript, the `.gdoc` stub is gone when its unlink worked |
| Mover.ConvertToDocx | google_meet_rec_mover/gdoc_converter.py:59-93 | the converter writes and returns the `.docx` sibling according to its outcome |
| Mover.MoveFiles | google_meet_rec_mover/cli.py:165-173 | the imperative move loop does exactly what `MoveAll` says: result, paths and calls |
| Mover.RecordingSet.constructor | google_meet_rec_mover/cli.py:37-49 | the object holds `NewRecording` of the arguments |
| Mover.RecordingSet.ExtractDateFromPrefix | google_meet_rec_mover/cli.py:51-63 | a match sets the date (to none when it is not a calendar minute); no match leaves the date as it was |
| Mover.RecordingSet.IsComplete | google_meet_rec_mover/cli.py:65-67 | true exactly when the set has a video |
| Mover.RecordingSet.EnsureVideoExtension | google_meet_rec_mover/cli.py:81-99 | return value, fields, paths and calls are those of `EnsureExtension` |
| Mover.RecordingSet.ConvertTranscriptToDocx | google_meet_rec_mover/cli.py:101-119 | return value, fields, paths and calls are those of `ConvertTranscript` |
| Mover.RecordingSet.PrepareFiles | google_meet_rec_mover/cli.py:136-153 | the state and flag are those of `Prepare`; the stub to remove is the original transcript exactly when it needed conversion |
| Mover.RecordingSet.TransferTo | google_meet_rec_mover/cli.py:136-184 | the result and new state are those of `Transfer` |
| Mover.RecordingSet.MoveTo | google_meet_rec_mover/cli.py:121-184 | the outcome, fields, paths and calls are those of `MoveToRun`, so `MoveToResult` and `MoveToLog` describe the method |

## Left out

- `Config` (TOML loading, writing the default file), `main` and the `click` prompts, `RecordingSet.__str__`, and all logging: these are I/O and user interface; the model returns outcomes instead of logging them.
- `Path.glob("*")` is not modelled: the directory listing is an input sequence, and whether the source directory exists is an input boolean.
- `GdocConverter` is not part of this model beyond its outcome. Authentication, token caching, reading `doc_id` and the chunked download are external calls. They appear as the `Conversion` oracle. A missing file ID, an exception from constructing the converter, or a failing `io.FileIO` happens before the output is opened; such an exception is caught inside the `try` and acts as `FailedBeforeWrite`. Errors of the export request surface during the download and act as `FailedAfterWrite`.
- Mover.ConvertTranscript: does not model a failing import of the converter module (cli.py:106). That import comes before the `try`, so its `ImportError` escapes `convert_transcript_to_docx` and `move_to` after the directories were created and the video renamed, with no file moved and no result returned. The model has no outcome for it; the same holds for `Mover.RecordingSet.ConvertTranscriptToDocx` and `Mover.RecordingSet.MoveTo`.
- File-system failures are abstracted: each call succeeds exactly when its oracle boolean says so, whatever the state. A failed `mkdir(parents=True)` creates nothing; partially created ancestors are not modelled.
- Files.FileSystem.Move: a failed move leaves the paths unchanged, as an atomic `os.rename` would. Between volumes, which is the usual case for moves from a Google Drive mount to a Box mount, `shutil.move` copies and then unlinks. When the unlink fails after the copy, the file exists at both places; when the copy fails partway, a partial target is left. The model does not capture either. `Mover.MoveAllPaths`, `Mover.TransferPaths` and `Mover.MoveToPaths` say nothing about the target of a failed move, though, so what they state holds in both cases.
- Symbolic links, path normalisation, case-insensitive file systems, and moves onto an existing target that `shutil.move` would reject are not modelled. A move replaces the source path by the target path.
- The float sort key `-(timestamp())`, with `float('-inf')` for undated sets, is replaced by lexicographic order on `(year, month, day, hour, minute)`. Time zones and daylight-saving jumps, where `timestamp()` is not monotone in the fields, are not modelled.
- Python's iteration order over a `set` is left open: `GroupFilesIntoSets` picks any remaining prefix. `Scanner.ScanDeterministic` shows the scan result does not depend on it.
- Regular-expression `\d` is restricted to ASCII digits, and `lower()` to ASCII letters. Non-ASCII digits and case mappings are not modelled. Whitespace (`\s`, `strip`) uses the full `str.isspace` set.
- Text.Suffix: follows the `pathlib` rule of Python 3.13 and earlier, where a name ending in a dot has no suffix. Python 3.14 counts such a trailing dot as the suffix, so there `X～Recording.` would become `X～Recording.mp4` rather than `X～Recording..mp4`; that version is not modelled. The same holds for `Text.Stem` and `Text.WithSuffix`.
- Dates.DayName: `%Y` is taken to pad the year to four digits. Some C libraries print years below 1000 without padding.
- Mover.RecordingSet.constructor: requires every path it is given to have a non-empty final name, as every file a scan finds does. `with_suffix` on such a name raises `ValueError` outside the `try`, and that behaviour is not modelled.
- The scan side works on `Recording` values rather than `RecordingSet` objects. A scanned set's fields are never changed before `move_to`, which the class models.
- Mover.RecordingSet.TransferTo: does not promise the class invariant itself; `MoveTo` re-establishes it from `TransferShape`.
