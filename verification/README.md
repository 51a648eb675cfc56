# muso library core, modelled in Dafny

muso sorts a music collection. A path template such as
`{artist}/{album}/{track:2} - {title}.{ext}` is filled in from a file's tags to give the
file's place in the library. The library crate (`libmuso`) has five parts, and this project
models each of them:

- **Template parser** (`Parser`, parser.dfy). A combinator grammar: literal text is a maximal
  run without `{`, and a placeholder is `{tag[:digits][?]}`.
  - Every combinator yields the unread input with a value, a recoverable "no match", or the
    panic that an over-wide width causes.
  - The parse of rendered components is proved to be a round trip, and the unit tests are
    stated as lemmas.
- **Template compiler and path builder** (`Format`, format.dfy).
  - `from_str` cuts the component list at every `/` of its literals into directory segments
    and at most one trailing file segment.
  - `build_path` fills each segment from the tags. It pads numbers, replaces forbidden
    characters, and enforces the `OptionalInDir`, `MissingTag` and `RequiredInFile` rules.
  - Both are loops over vectors, proved against recursive specification functions whose
    properties are proved as lemmas.
  - The integration tests of `libmuso/tests/format_string.rs` are lemmas in `FormatVectors`
    (format_vectors.dfy). Each one compiles the template from its own text and builds from
    the result. The "complete" record has the tags `Album Artist`, `Album`, disc 1, track 1
    and `Title`; the "partial" record has `Artist`, disc 1, track 1 and `Title`, and no
    album. The extension stays symbolic.
- **Tag record** (`Meta`, metadata.dfy). The getters, the selection of Vorbis comment fields,
  and the grouping of Ogg comments into a map (a loop that keeps every pair).
- **Sorter** (`Sorting`, sorting.dfy, over the filesystem of `Fs`, fs.dfy).
  - `sort_file` moves one file to the place its tags give, or only computes that place in a
    dry run.
  - `sort_folder` walks a tree with an explicit stack. It counts successes and failures, and
    may remove directories that had no entries.
  - The filesystem is a map from absolute component sequences to files and directories. It
    is held in a `FileSystem` object that the operations update in place.
- **Configuration and watcher** (`Configuration`, config.dfy; `Watch`, watcher.dfy).
  - `sanitize_folders` expands and checks each library's folders and rejects a folder seen
    twice.
  - The lookups give a library's template and exFAT flag.
  - The watcher maps library folders to library names. It decides what one filesystem
    notification triggers, and keeps the set of paths whose next notification it must ignore
    (its own moves).

`Errors` holds the error enum and the `Result`/`Option` wrappers. `Decimal`, `Strings` and
`Paths` model the standard-library behaviour the core relies on:
- `u32::to_string` and `str::parse::<u32>`;
- `str::split(char)`;
- `PathBuf::from`, `parent`, `join` and `starts_with`.

Outside inputs become parameters:
- the filesystem is a map;
- shell expansion is a function in `Configuration.Host`;
- the unspecified iteration order of a `HashMap` or `HashSet` is a nondeterministic choice
  in the methods and an explicit `order` argument in `SearchFormat`;
- a file's tags are stored in its filesystem entry.

Where the code and its description differ, the model follows the code.
- With `remove_empty`, the code removes only a directory that had no entries when it was
  listed. A directory that the sort itself empties is not removed.
- `InvalidConfig` is built with only its `reason`: the code constructs it without the `path`
  field its declaration has.

## Model

| member | source | states |
|---|---|---|
| Parser.Placeholder.IsOptional | libmuso/src/format/parser.rs:42-44 | true exactly for an `Optional` placeholder |
| Parser.Placeholder.IsTag | libmuso/src/format/parser.rs:46-50 | true exactly when the wrapped tag, width included, is the given one |
| Parser.Placeholder.IntoTag | libmuso/src/format/parser.rs:52-56 | the placeholder is `Required` or `Optional` of the returned tag |
| Parser.TagFrom | libmuso/src/format/parser.rs:21-33 | an identifier maps to the tag written with it, `disk` to the `disc` tag, with width 0 |
| Parser.Keyword | libmuso/src/format/parser.rs:72-78 | `tag(name)` matches exactly when the input starts with `name`, and consumes exactly it |
| Parser.FirstKeyword | libmuso/src/format/parser.rs:71-79 | a match of the alternation is one of the names, consumed from the input; it never panics |
| Parser.FirstKeywordAt | libmuso/src/format/parser.rs:71-79 | the alternation takes the first name, in order, that the input starts with |
| Parser.FirstKeywordNone | libmuso/src/format/parser.rs:71-79 | the alternation fails exactly when the input starts with none of the names |
| Parser.TagIdentSpec | libmuso/src/format/parser.rs:70-80 | `tag_ident` fails exactly on input starting with no tag name, else reads the first name in its order |
| Parser.TagIdentOfName | libmuso/src/format/parser.rs:70-80 | each tag's identifier is read back whatever follows it (`disc` before `disk` does not shadow) |
| Parser.TagLeading | libmuso/src/format/parser.rs:82-89 | `tag_leading` never fails to match, never grows the input, and without a `:digit` prefix gives width 0 and leaves the input untouched |
| Parser.TagLeadingDigits | libmuso/src/format/parser.rs:82-89 | a colon and a maximal digit run give their value when it fits a u8 and the `unwrap` panic otherwise |
| Parser.TagLeadingOfWidth | libmuso/src/format/parser.rs:82-89 | a rendered width suffix is read back as that width |
| Parser.TagComplete | libmuso/src/format/parser.rs:91-109 | `tag_complete` fails exactly when `tag_ident` does, and never grows the input |
| Parser.TagCompleteOfRender | libmuso/src/format/parser.rs:91-109 | a rendered tag is read back as itself when no digit or `:` follows |
| Parser.NoWidthOnPlainTag | libmuso/src/format/parser.rs:94-106 | after a tag other than disc and track no width is read, and a `:` is left unread |
| Parser.DiskIsDisc | libmuso/src/format/parser.rs:21-33 | `disk` and `disc` give the same tag, `Disc` with width 0, and parse alike whatever follows |
| Parser.ParsePlaceholder | libmuso/src/format/parser.rs:111-129 | a parsed placeholder never grows the input and is never an optional `ext` |
| Parser.PlaceholderOfTag | libmuso/src/format/parser.rs:111-129 | after a tag, `?` makes the placeholder optional, except after `ext`, where the `?` is left unread |
| Parser.OptionalRoundTrip | libmuso/src/format/parser.rs:116-124 | a rendered tag other than `ext` followed by `?` reads back as that optional placeholder |
| Parser.RequiredRoundTrip | libmuso/src/format/parser.rs:111-129 | a rendered tag followed by `}` reads back as that required placeholder |
| Parser.PlaceholderRoundTrip | libmuso/src/format/parser.rs:111-129 | every placeholder except an optional `ext` reads back from its text |
| Parser.OptionalExtFails | libmuso/src/format/parser.rs:114-115 | no component starts at `{ext?`, so every format string starting there fails with FailedToParse |
| Parser.LiteralComponent | libmuso/src/format/parser.rs:133-135 | `take_till1` fails exactly on empty input or input starting with `{`, and otherwise reads a literal |
| Parser.LiteralComponentSpec | libmuso/src/format/parser.rs:133-135 | the literal read is the maximal non-empty run before the next `{` |
| Parser.LiteralRoundTrip | libmuso/src/format/parser.rs:133-135 | a non-empty literal without `{`, followed by the end or `{`, reads back as itself |
| Parser.BracedComponent | libmuso/src/format/parser.rs:136-138 | a braced component starts with `{`, consumes input and yields a well-formed placeholder |
| Parser.SlotRoundTrip | libmuso/src/format/parser.rs:136-138 | a placeholder between braces reads back as itself |
| Parser.Component | libmuso/src/format/parser.rs:131-140 | a parsed component always consumes input |
| Parser.ComponentSpec | libmuso/src/format/parser.rs:131-140 | a component is a literal exactly when the input does not start with `{`; it fails only on empty input or at `{` |
| Parser.ComponentRoundTrip | libmuso/src/format/parser.rs:131-140 | a well-formed component reads back from its text |
| Parser.ManySpec | libmuso/src/format/parser.rs:142-144 | the repetition stops only where no component matches, and what it read is well formed |
| Parser.ManyRoundTrip | libmuso/src/format/parser.rs:142-144 | the repetition reads back rendered components and stops at input no component accepts |
| Parser.ComponentsSpec | libmuso/src/format/parser.rs:142-144 | `many1` fails exactly when no first component matches, and otherwise reads a well-formed list up to input no component accepts |
| Parser.ComponentsRoundTrip | libmuso/src/format/parser.rs:142-144 | `many1` reads back well-formed components up to input no component accepts |
| Parser.ParseFormatString | libmuso/src/format/parser.rs:146-154 | a failure is FailedToParse or the width overflow |
| Parser.ParseFormatStringSpec | libmuso/src/format/parser.rs:146-154 | a success is well formed; input no component starts on, the empty string included, fails with FailedToParse |
| Parser.LeftoverAfter | libmuso/src/format/parser.rs:146-154 | components followed by unparsable text succeed exactly when nothing is left over, else FailedToParse |
| Parser.RoundTrip | libmuso/src/format/parser.rs:146-154 | parsing the text of any well-formed component list gives exactly that list |
| Parser.TrackOverflowPanics | libmuso/src/format/parser.rs:87 | a track width whose digits exceed 255 is the `unwrap` panic |
| Parser.WidthOverflowFails | libmuso/src/format/parser.rs:87 | a format string with such a width fails with WidthOverflow |
| Parser.TagLeadingVectors | libmuso/src/format/parser.rs:161-166 | the four `tag_leading` unit-test results |
| Parser.TagCompleteArtist | libmuso/src/format/parser.rs:170 | `artist` is read as the artist tag |
| Parser.TagCompleteDiscWidth | libmuso/src/format/parser.rs:171 | `disc:2` is read as disc with width 2 |
| Parser.TagCompleteTrackWidth | libmuso/src/format/parser.rs:172-175 | `track:3?}` is read as track with width 3, leaving `?}` |
| Parser.TagCompleteDisk | libmuso/src/format/parser.rs:176 | `disk` is read as disc with width 0 |
| Parser.PlaceholderOptionalArtist | libmuso/src/format/parser.rs:181-184 | `artist?` is an optional artist |
| Parser.PlaceholderRequiredAlbum | libmuso/src/format/parser.rs:185-188 | `album}` is a required album, leaving `}` |
| Parser.PlaceholderOptionalDisc | libmuso/src/format/parser.rs:189-192 | `disc:2?` is an optional disc with width 2 |
| Parser.PlaceholderOptionalTrack | libmuso/src/format/parser.rs:193-196 | `track?}` is an optional track with width 0, leaving `}` |
| Parser.ComponentLiteral | libmuso/src/format/parser.rs:201-204 | `foo` is one literal |
| Parser.ComponentLiteralBeforeBrace | libmuso/src/format/parser.rs:205-208 | `foo{artist?}` reads the literal `foo` and leaves the placeholder |
| Parser.ComponentSlot | libmuso/src/format/parser.rs:209-215 | `{artist}` is a required artist placeholder |
| Parser.ComponentSlotWidth | libmuso/src/format/parser.rs:217-223 | `{track:2}` is a required track placeholder with width 2 |
| Parser.ComponentsExample | libmuso/src/format/parser.rs:227-243 | the usual template parses into exactly its nine components |
| Parser.WithoutPlaceholders | libmuso/src/format/parser.rs:246-251 | `hello world` parses into a single literal |
| Decimal.ToDecimal | libmuso/src/metadata.rs:43 | `to_string` of a number: non-empty digits denoting it, without a leading zero |
| Decimal.ParseUnsigned | libmuso/src/metadata.rs:137 | `parse::<u32>` succeeds exactly on an optional `+` and digits whose value is below the limit, and gives that value |
| Decimal.ParseToDecimal | libmuso/src/metadata.rs:43 | parsing a number's decimal text gives the number back |
| Decimal.ToDecimalOfValue | libmuso/src/metadata.rs:43 | a digit string without a leading zero is the decimal text of its value |
| Strings.Split | libmuso/src/format.rs:51 | `split('/')` gives at least one piece, one more than the separators, none holding one, and joining them gives the text back |
| Strings.SplitLastEmpty | libmuso/src/format.rs:62 | the last piece is empty exactly when the text is empty or ends with the separator |
| Paths.FromString | libmuso/src/format.rs:169 | `PathBuf::from` gives a path whose components are non-empty and hold no `/` |
| Paths.FromDisplay | libmuso/src/format.rs:169 | reading a path's display text back gives the same path |
| Paths.Parent | libmuso/src/watcher.rs:130-132 | `parent()` is absent exactly for a path without components, else drops the last component |
| Paths.Join | libmuso/src/sorting.rs:119 | joining an absolute path replaces the base; joining a relative one appends its components |
| Paths.Display | libmuso/src/sorting.rs:120-121 | the text of a path with valid components starts with `/` exactly when the path is absolute |
| Paths.StartsWith | libmuso/src/watcher.rs:154 | a path starts with another exactly when it is that path, same rootedness, followed by more components |
| Paths.ParentIsPrefix | libmuso/src/watcher.rs:165 | a parent is a proper ancestor: the path starts with it and differs from it |
| Meta.Field | libmuso/src/metadata.rs:35-45 | the getter shape: the field's text when present, else `MissingTag` naming the field |
| Meta.NumberText | libmuso/src/metadata.rs:43 | a number tag's text is digits that parse back to the number |
| Meta.GetArtist | libmuso/src/metadata.rs:197-199 | succeeds exactly when the artist is present, with it; else `MissingTag("artist")` |
| Meta.GetAlbum | libmuso/src/metadata.rs:201-203 | succeeds exactly when the album is present, with it; else `MissingTag("album")` |
| Meta.GetDisc | libmuso/src/metadata.rs:205-207 | succeeds exactly when the disc is present, with text parsing back to it; else `MissingTag("disc")` |
| Meta.GetTrack | libmuso/src/metadata.rs:209-211 | succeeds exactly when the track is present, with text parsing back to it; else `MissingTag("track")` |
| Meta.GetTitle | libmuso/src/metadata.rs:213-215 | succeeds exactly when the title is present, with it; else `MissingTag("title")` |
| Meta.GetExt | libmuso/src/metadata.rs:217-219 | the stored extension, with no error case |
| Meta.NumberGetters | libmuso/src/metadata.rs:205-211 | the number getters give the shortest decimal text, so disc 1 gives `"1"` |
| Meta.First | libmuso/src/metadata.rs:121-133 | the first value under a key exists exactly when the key holds a non-empty list, and is its head |
| Meta.FirstNumber | libmuso/src/metadata.rs:135-145 | a number field is present exactly when its first value parses as a u32, with that value |
| Meta.FromVorbisComments | libmuso/src/metadata.rs:120-160 | never fails; the artist is the first album artist, else the first artist; album, title, disc and track are the first values; ext is the argument |
| Meta.NonNumericDisc | libmuso/src/metadata.rs:135-139 | a disc field that is not a number leaves the disc absent, and its getter reports `MissingTag` |
| Meta.OggCommentMap | libmuso/src/metadata.rs:162-171 | each key maps to its values in input order, a key is present exactly when some pair has it, and the value count equals the pair count |
| Meta.GroupedPush | libmuso/src/metadata.rs:165-168 | appending one pair's value under its key keeps the grouping of the prefix read so far |
| Meta.TotalPush | libmuso/src/metadata.rs:166-167 | appending a value under a key adds one to the value count |
| Meta.ValuesAbsent | libmuso/src/metadata.rs:162-171 | a key that no pair carries has no values |
| Format.PushPiece | libmuso/src/format.rs:54-56 | a piece of text is appended as a literal or, when empty, dropped |
| Format.CutPieces | libmuso/src/format.rs:53-60 | each piece but the last closes one directory segment |
| Format.FromStr | libmuso/src/format.rs:42-79 | the loop computes the compiled format of its input, and the compiled format serialises back to that input |
| Format.Serialize | libmuso/src/format.rs:108-115 | the text the format was compiled from |
| Format.Deserialize | libmuso/src/format.rs:91-106 | compiles the text, passing on the parse error, and serialises back to it |
| Format.SerializeRoundTrip | libmuso/src/format.rs:75-78 | serialising a compiled format gives its text, and compiling that again gives the same format |
| Format.SegmentsKeepText | libmuso/src/format.rs:48-73 | the segments, each directory followed by `/`, spell out exactly the template's text |
| Format.SegmentsWellCut | libmuso/src/format.rs:48-73 | only the last segment can be a file, and no segment holds an empty literal or a `/` |
| Format.DirPerSlash | libmuso/src/format.rs:51-60 | every `/` of every literal closes one directory segment, even an empty one |
| Format.FoldFile | libmuso/src/format.rs:62-73 | the segmentation leaves a file segment exactly when something follows the last `/` |
| Format.FileSegmentIff | libmuso/src/format.rs:71-73 | a parsed template has a file segment exactly when it ends in a placeholder or in text not ending with `/` |
| Format.ReplaceChar | libmuso/src/format.rs:175 | `replace(c, "_")` changes exactly the occurrences of `c` |
| Format.Replace | libmuso/src/format.rs:172-187 | each character is replaced by `_` exactly when it is forbidden: `/` always, and also `" * : < > \ ? \|` with exFAT |
| Format.ReplaceClean | libmuso/src/format.rs:172-187 | no forbidden character survives, and replacing twice is replacing once |
| Format.KeepClean | libmuso/src/format.rs:185 | without exFAT, text without `/` is kept as it is |
| Format.AddLeadingZeros | libmuso/src/format.rs:189-197 | the text padded on the left with zeros to the width: length is the larger of the two, and the text is its suffix |
| Format.PaddingKeepsValue | libmuso/src/format.rs:189-197 | padding a number's digits keeps the number they denote |
| Format.GetFromMetadata | libmuso/src/format.rs:199-236 | a present tag gives its text, numbers padded to the width; an absent one gives nothing when optional, else `MissingTag` naming it; `ext` is always present |
| Format.FirstAbsent | libmuso/src/format.rs:131-132 | the first placeholder whose tag is absent, optional ones aside on request; none exactly when all such tags are present |
| Format.DirFromSpec | libmuso/src/format.rs:123-140 | a directory segment fills in its text and a `/`, or fails at its first absent tag: `OptionalInDir` if optional, else `MissingTag` |
| Format.FileFromSpec | libmuso/src/format.rs:142-165 | a file segment fails at its first absent required tag, else with `RequiredInFile` when it counts no required non-`ext` placeholder, else fills in its text |
| Format.BuildFromSpec | libmuso/src/format.rs:121-167 | building the segments fails with the first segment's problem, else appends their filled text |
| Format.BuildTextSpec | libmuso/src/format.rs:118-170 | the build fails exactly when some segment has a problem, with the first one; else its text is the filled segments |
| Format.BuildPath | libmuso/src/format.rs:118-170 | the nested loops give the build's error, or the path read from the built text |
| Format.SegmentProblemKinds | libmuso/src/format.rs:131-164 | each kind of problem is backed by the segment: an absent optional in a directory, an absent required tag, or a file without a required placeholder |
| Format.BuildErrors | libmuso/src/format.rs:131-164 | a failed build is `OptionalInDir`, `MissingTag` or `RequiredInFile`, each with its witness in the segments |
| Format.PresentProblem | libmuso/src/format.rs:143-164 | with every tag present, the only possible problem is a file segment without a required placeholder |
| Format.PresentTagsRequiredInFile | libmuso/src/format.rs:143-164 | with every tag present, the build fails exactly when a file segment has no required non-`ext` placeholder, and then with `RequiredInFile` |
| Format.ClosedTemplateNoRequiredInFile | libmuso/src/format.rs:71-73 | a template ending in `/` has no file segment, so its build never reports `RequiredInFile` |
| Format.FillNoSlash | libmuso/src/format.rs:126-134 | a segment's filled text holds no `/`: literals were cut at it, and values are sanitised |
| Format.FilledSplit | libmuso/src/format.rs:121-167 | split at `/`, the built text gives back one piece per segment, so a value cannot add a directory level |
| Format.FilledLeadingSlash | libmuso/src/format.rs:121-140 | the built text starts with `/` exactly when the first segment is a directory that fills in nothing |
| FormatVectors.ArtistAlbumCompiles | libmuso/tests/format_string.rs:100 | `{artist}/{album}` compiles to a directory of the artist and a file of the album, and keeps its text |
| FormatVectors.CompleteCompiles | libmuso/tests/format_string.rs:14-15 | the complete template compiles to artist and album directories and the file `{disc}.{track} - {title}.{ext}` with widths 0 |
| FormatVectors.PartialCompiles | libmuso/tests/format_string.rs:30 | the partial template compiles to an artist directory and the file `{disc}.{track} - {title}.{ext}` |
| FormatVectors.AlbumInFileCompiles | libmuso/tests/format_string.rs:44 | `{artist}/{album?} - {title}.{ext}` compiles with the optional album inside the file segment |
| FormatVectors.AlbumInDirCompiles | libmuso/tests/format_string.rs:65 | `{artist}/{album?}/{title}.{ext}` compiles with the optional album as a directory of its own |
| FormatVectors.OptionalTitleCompiles | libmuso/tests/format_string.rs:72 | `{artist}/{title?}.{ext}` compiles with an optional title in the file segment |
| FormatVectors.LiteralFileCompiles | libmuso/tests/format_string.rs:86 | `{artist}/foo.{ext}` compiles to a file segment of the literal `foo.` and the extension |
| FormatVectors.CompleteExample | libmuso/tests/format_string.rs:11-23 | the compiled complete template builds `Album Artist/Album/1.1 - Title.<ext>` from the complete record |
| FormatVectors.PartialExample | libmuso/tests/format_string.rs:26-37 | the compiled partial template builds `Artist/1.1 - Title.<ext>` from the partial record |
| FormatVectors.OptionalInFileExample | libmuso/tests/format_string.rs:40-59 | the compiled `{artist}/{album?} - {title}.{ext}` builds `<artist>/<album> - <title>.<ext>` from any record with artist and title, the album text being empty when the tag is absent |
| FormatVectors.OptionalAbsentExample | libmuso/tests/format_string.rs:41-49 | the same template builds `Artist/ - Title.<ext>` from the partial record |
| FormatVectors.OptionalPresentExample | libmuso/tests/format_string.rs:51-56 | the same template builds `Album Artist/Album - Title.<ext>` from the complete record |
| FormatVectors.OptionalInDirExample | libmuso/tests/format_string.rs:62-70 | the compiled `{artist}/{album?}/{title}.{ext}` fails with `OptionalInDir` on a record without an album |
| FormatVectors.OptionalOnlyInFileExample | libmuso/tests/format_string.rs:72-77 | the compiled `{artist}/{title?}.{ext}` fails with `RequiredInFile` |
| FormatVectors.LiteralFileExample | libmuso/tests/format_string.rs:83-91 | the compiled `{artist}/foo.{ext}` fails with `RequiredInFile` |
| FormatVectors.MissingAlbumExample | libmuso/tests/format_string.rs:97-105 | the compiled `{artist}/{album}` fails with `MissingTag("album")` on a record without an album |
| FormatVectors.EmptyArtistExample | libmuso/src/format.rs:121-169 | `{artist}/{album}` with an empty artist builds `/<album>`, which reads as an absolute path |
| Fs.TagsAt | libmuso/src/metadata.rs:48-54 | reading tags fails with NotFound for a missing path and NotSupported for a directory; a success comes from a file |
| Fs.CreateDirAllSpec | libmuso/src/utils.rs:37 | `create_dir_all` makes the path a directory, keeps every entry and adds only directories on the way; it fails only for a file in the way, `AlreadyExists` exactly when the path itself is one |
| Fs.MaybeCreateDirSpec | libmuso/src/utils.rs:36-44 | `maybe_create_dir` fails only with NotADirectory for a file above the path; on success only directories on the way are new |
| Fs.RenameFileSpec | libmuso/src/sorting.rs:125 | a rename succeeds exactly when the target's directory exists and the target is not a directory (or is the source), and then moves the file and nothing else |
| Fs.RemoveDirSpec | libmuso/src/sorting.rs:89 | `remove_dir` succeeds exactly for an empty directory other than the root, and removes only it |
| Fs.FileSystem.MakeDirs | libmuso/src/sorting.rs:124 | the tree becomes what `maybe_create_dir` gives, or stays as it was with the error |
| Fs.FileSystem.Rename | libmuso/src/sorting.rs:125 | the tree becomes what the rename gives, or stays as it was with the error |
| Fs.FileSystem.RemoveDirectory | libmuso/src/sorting.rs:89 | the tree becomes what `remove_dir` gives, or stays as it was with the error |
| Sorting.Built | libmuso/src/sorting.rs:116 | the built path exists exactly when the template's build succeeds |
| Sorting.BuiltAbsolute | libmuso/src/sorting.rs:116-119 | a built path is absolute exactly when the template's first directory fills in nothing, and then joining it with the root gives the path itself |
| Sorting.SortFile | libmuso/src/sorting.rs:104-131 | the new tree and the result are those of `sort_file`'s effect on the old tree |
| Sorting.SortFileResult | libmuso/src/sorting.rs:109-130 | a tag error, then a build error, are returned as they are; a success is the built path, not joined with the root, in either mode; a dry run or an early failure leaves the tree as it was |
| Sorting.SortFileRelative | libmuso/src/sorting.rs:115-130 | what a successful sort returns is absolute exactly when the template's first directory fills in nothing from the file's tags |
| Sorting.SortFileInvalidParent | libmuso/src/sorting.rs:118-122 | a real sort whose joined path has no parent fails with `InvalidParent` naming it, changing nothing |
| Sorting.RelocateSpec | libmuso/src/sorting.rs:124-125 | making the target's directory and renaming puts the file at the target and off the source, adds only directories on the way, and keeps every other entry |
| Sorting.SortFileMoves | libmuso/src/sorting.rs:118-126 | a real sort that succeeds moves the file to the root joined with the built path, adds only directories on the way, and keeps every other entry |
| Sorting.SortFileKeeps | libmuso/src/sorting.rs:104-131 | sorting a file removes no entry but that file |
| Sorting.SortFileKinds | libmuso/src/sorting.rs:118-125 | sorting a file changes the kind of no entry other than that file |
| Sorting.Successes | libmuso/src/sorting.rs:58 | the successful paths, in order, no more of them than results |
| Sorting.CountStep | libmuso/src/sorting.rs:53-68 | counting one more file adds one to the total and, for a success, one to the successes and its path to the new paths |
| Sorting.PushEntries | libmuso/src/sorting.rs:72-85 | every entry of the directory is pushed once, and the count is their number |
| Sorting.VisitFile | libmuso/src/sorting.rs:53-68 | a popped file is sorted exactly as `sort_file` sorts it, keeping the walk's invariant; a success is a built path |
| Sorting.VisitDir | libmuso/src/sorting.rs:70-98 | a readable directory pushes each of its entries once and, with `remove_empty` and none, is removed when removal succeeds, the tree being otherwise unchanged; the walk's invariant holds with the directory listed |
| Sorting.RemoveStep | libmuso/src/sorting.rs:87-92 | removing a directory that had no entries when it was listed keeps the invariant |
| Sorting.FileBook | libmuso/src/sorting.rs:53-68 | after sorting a popped file, entries not popped keep their kind, every file still to sort waits on the stack, the file joins the sorted ones, and in a dry run its outcome is `sort_file`'s on the original tree |
| Sorting.DirBook | libmuso/src/sorting.rs:70-98 | after listing a popped directory, with its entries pushed and maybe removed, the same bookkeeping holds |
| Sorting.SkipBook | libmuso/src/sorting.rs:40-99 | a popped path that is neither a file nor a readable directory is skipped with the bookkeeping kept |
| Sorting.SortFolder | libmuso/src/sorting.rs:26-102 | always succeeds; `files`, each once and under the start, are the files sorted, one per outcome, and include every file reachable from the start through readable directories; total and success count the outcomes and the new paths are the successes in order, each a built path; in a dry run the files are exactly the reachable ones, each outcome is `sort_file`'s on the original tree, and only removed directories change; removed directories had no entries at the start and lie under it, none without `remove_empty`; entries outside the start keep their kind |
| Sorting.DryRunCounts | libmuso/src/sorting.rs:26-102 | in a dry run `total` is the number of files reachable from the start and `success` the number of those whose tags read and whose path builds, whatever the listing order |
| Sorting.ThreeFilesGoals | libmuso/src/sorting.rs:26-102 | the files to sort from a directory of three files are those three |
| Sorting.ThreeFilesOneUnsupported | libmuso/src/sorting.rs:26-102 | a dry run over three files, one of an unsupported container, reports total 3 and success 2 |
| Configuration.Keep | libmuso/src/config.rs:68-91 | a folder survives exactly when its expansion succeeds and is an absolute path that exists, and survives as that expansion |
| Configuration.KeptAppend | libmuso/src/config.rs:103-108 | the survivors of two lists are those of each, in order |
| Configuration.KeptMembers | libmuso/src/config.rs:103-108 | a path survives exactly when some folder survives as it |
| Configuration.KeptPrefix | libmuso/src/config.rs:66-108 | the survivors of a prefix of the folders are a prefix of the survivors |
| Configuration.SanitizeLibrary | libmuso/src/config.rs:66-106 | succeeds exactly when the survivors are distinct and none was seen before; then gives them in order with the seen set grown by them; else the repeat error |
| Configuration.RepeatFound | libmuso/src/config.rs:92-101 | a survivor already seen, or already kept from the same library, rules out success |
| Configuration.NoRepeatsAdd | libmuso/src/config.rs:63-105 | a library whose survivors are new and distinct keeps all survivors so far free of repeats |
| Configuration.RepeatsFound | libmuso/src/config.rs:92-101 | a library whose survivors repeat, or meet those of earlier libraries, makes every larger set of libraries repeat |
| Configuration.ProgressDone | libmuso/src/config.rs:108-111 | when every library is done without repeats, each holds its survivors and no two share a folder |
| Configuration.Config.SanitizeNext | libmuso/src/config.rs:65-109 | one library: either its survivors replace its folders and join the seen set, or the repeat error with all libraries settled |
| Configuration.Config.SanitizeFolders | libmuso/src/config.rs:62-112 | succeeds exactly when no surviving folder repeats, within a library or across two; then each library holds its survivors and no two share a folder; else the repeat error |
| Configuration.SearchFormat | libmuso/src/config.rs:114-123 | a template is found exactly when some library's folder list holds the path, and is that library's |
| Configuration.SearchFormatUnique | libmuso/src/config.rs:114-123 | with no folder shared, the template found is that of the one library holding the path |
| Configuration.FormatOf | libmuso/src/config.rs:125-127 | the named library's template exactly when the library exists |
| Configuration.IsExfatCompat | libmuso/src/config.rs:129-135 | true exactly for a known library whose flag is set to true |
| Watch.Target | libmuso/src/watcher.rs:69 | only a creation or a rename has a path that can start a sort: the created path or the rename's target |
| Watch.IgnoredByOther | libmuso/src/watcher.rs:70-73 | a path that is not a file, matched by another entry that is a directory, stays ignored after its own entry is removed |
| Watch.RelativeNeverIgnores | libmuso/src/watcher.rs:148-160 | relative entries never make an absolute path ignored |
| Watch.IgnoredIn | libmuso/src/watcher.rs:143-161 | a file is ignored when the set holds it, any other path when some directory entry of the set starts with it |
| Watch.Watcher.IsIgnored | libmuso/src/watcher.rs:143-161 | the walk over the set answers exactly `IgnoredIn`, whatever order the set is walked in |
| Watch.RootFor | libmuso/src/watcher.rs:163-172 | the nearest ancestor that is a library folder, the path itself first, or none when no ancestor is |
| Watch.Ignored | libmuso/src/watcher.rs:122-141 | fails with `InvalidParent` exactly for a path without a parent, changing nothing; else adds the path and, unless it is the root, its parent, and nothing else |
| Watch.IgnoreEachGrows | libmuso/src/watcher.rs:96-98 | ignoring a list of paths only adds to the set |
| Watch.IgnoreEachSucceeds | libmuso/src/watcher.rs:96-98 | ignoring a list succeeds exactly when every path has a parent |
| Watch.IgnoreEachFailure | libmuso/src/watcher.rs:96-98 | a failure is `InvalidParent` naming the first path without a parent |
| Watch.IgnoreEachContents | libmuso/src/watcher.rs:96-98 | after a success the set holds exactly what it held, every path, and every parent other than the root |
| Watch.IgnoreEachRelative | libmuso/src/watcher.rs:96-98 | relative paths only add relative entries |
| Watch.WatchOptions | libmuso/src/watcher.rs:78-84 | a watch-mode sort uses the library's template and exFAT flag, no dry run, recursion and removal of empty directories |
| Watch.Watcher.constructor | libmuso/src/watcher.rs:22-36 | the roots are exactly the folders of all libraries, each naming a library that holds it (the only one when no folder is shared), and the ignore set is empty |
| Watch.Watcher.MapFolders | libmuso/src/watcher.rs:25-27 | after one library's folders are inserted, the map holds exactly the old keys and those folders, each folder naming that library and every other key unchanged |
| Watch.Watcher.Decide | libmuso/src/watcher.rs:64-116 | other notifications do nothing; an ignored target is unignored; a target outside every library does nothing; else a directory is sorted as a folder and anything else as a file, from its nearest root with watch options |
| Watch.Watcher.IgnorePath | libmuso/src/watcher.rs:122-141 | the ignore set and result become those `Ignored` gives, the set unchanged on failure |
| Watch.Watcher.IgnoreAll | libmuso/src/watcher.rs:96-98 | the result and set are those of ignoring each path in turn, stopping at the first failure |
| Watch.Watcher.Step | libmuso/src/watcher.rs:64-116 | one notification: nothing changes when skipped; an ignored target leaves the set without it and the tree as it was; a sorted file changes the tree as `sort_file` does; the new paths of a sort are ignored in turn, with the first failure as the result |
| Watch.OwnMovesNotIgnored | libmuso/src/watcher.rs:96-108 | when the set held only relative entries and the sort returned relative paths (see `Sorting.SortFileRelative`), ignoring them never suppresses a notification about an absolute path |

## Left out

- The container readers behind `Metadata::from_path` (magic-byte sniffing, ID3, FLAC, Ogg, M4A) use foreign crates. A file's entry holds the tags, or the error reading them gives.
- The real filesystem is replaced by a map from absolute component sequences to entries:
  - a directory listing is the set of entries directly inside, in no order;
  - the tree is not required to be coherent (an entry may sit under a missing parent);
  - `.` and `..` components and symbolic links are not modelled;
  - only files are renamed.
- `Watcher::watch`, the blocking receive loop, the debounce delay and all logging are left out. These are I/O and timing; one turn of the loop is `Watch.Watcher.Step`.
- `Config::from_path`, which reads TOML from a file, is left out. The configuration is taken as read.
- `shellexpand::full` is the `expand` function of `Configuration.Host`. Folders that are not UTF-8 are not distinguished, because paths are text.
- `generate_resource` and the default paths in libmuso/src/utils.rs are not part of this model. Only `maybe_create_dir` is, as `Fs.MaybeCreateDir`.
- The sync subsystem, the legacy binary under src/ and the command-line front end are not part of this model.
- `Parser.ParseFormatString`: the source panics on a width wider than a u8. The model returns the error `WidthOverflow` instead, which is not one of the source's errors.
- `Format.AddLeadingZeros` counts characters where the source counts bytes. The two agree on the decimal digits it is applied to.
- `Sorting.SortFolder`: a relative start directory is resolved once against the working directory, and the popped paths are absolute. The source pops paths relative to the same directory, which name the same entries.
- `Sorting.SortFolder`, in a real run: states that every reachable file is sorted and how the counts follow the outcomes, but not which outcome each file gets. Files it moves may land in directories it has yet to list and be sorted again, so the outcomes depend on the templates and the listing order.
- `Watch.Watcher.Step`, for a directory sort: states the outcomes and the ignore set, but the new tree only as far as `Sorting.SortFolder` states it.
- `Configuration.Config.SanitizeFolders`, on failure: states only that each library holds its original folders, its survivors or nothing. Which one depends on the unspecified order in which the map is walked. The source empties the library it stopped in, because its folders were being drained.
- `Watch.Watcher.constructor`: the watcher keeps the libraries rather than the whole configuration. Its watch settings are read only by the loop that is left out.
