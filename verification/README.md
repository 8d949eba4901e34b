# gulp-fontcss, modelled in Dafny

gulp-fontcss is a gulp plugin. It takes a stream of font files (`.woff`, `.woff2`, `.ttf`,
`.otf`, `.svg`, `.eot`) and, when the stream ends, pushes one CSS stylesheet per file
extension. Each stylesheet holds one `@font-face` rule per font file, with the font inlined as
a base64 `data:` URL. The family, weight and style of each rule come from the file name, for
example `Roboto-BoldItalic.ttf` gives "Roboto", 700, "Italic". Users can supply their own
mapping and a hook that adjusts each mapped sheet.

The project models `index.js` apart from the stream plumbing listed under "## Left out", one
module per concern:

| module | file | what it holds |
|---|---|---|
| `Wrappers` | `wrappers.dfy` | `Option` and `Result` |
| `Text` | `text.dfy` | ASCII case folding, index search, decimal printing and parsing |
| `Base64` | `base64.dfy` | padded base64, as in section 4 of RFC 4648, and its decoder |
| `Files` | `files.dfy` | the buffered font file and Node's `basename`, `extname`, `dirname` |
| `FontSheets` | `font_sheets.dfy` | the `FontSheet` record, its identifier string and the duplicate key |
| `Weight` | `weight.dfy` | `_getNumberedWeight`, as written and with a case-folded intensity |
| `FilenamePattern` | `filename_pattern.dfy` | the filename regular expression |
| `Inference` | `inference.dfy` | `FontSheet.infer`, as written and with a case-folded intensity |
| `FaceRules` | `faces.dfy` | the options, `createFontFaceFromFile`, the rule text and a reader for it |
| `Grouping` | `grouping.dfy` | the first loop of `spit`, which groups files by extension |
| `Batch` | `batch.dfy` | `collect`, the second loop of `spit` and the pushed stylesheets, as written and with the duplicate guard working |

The filename regular expression is modelled in two ways:

- a deterministic matcher, `MatchFilename`, that follows the choices the backtracking engine
  makes;
- a description of the language: a well-formed record of captures (family, intensity, weight
  name, style, `-webfont`, extension) and the filename it renders to.

Lemmas connect the two in both directions.

The model follows the code as written. Two places where the code evidently does not do what
was intended are listed under "## Findings" below. Each is also modelled as corrected, next to
the as-written member:

- `Inference.Infer` resolves the weight with the intensity word ("semi", "extra", "ultra")
  compared case-sensitively, as the code does. `Inference.InferFolded` lowers it first.
- `Batch.Spit` checks every file against the aggregator's key list, which nothing ever
  extends, so the duplicate guard of `createFontFaceFromFile` never fires. `Batch.SpitDedup`
  records the key of every emitted rule and carries the list from one extension's group to
  the next.

Three behaviours that may surprise a reader follow the code:

- "ultra" or "extra" with "black" gives weight 1000, not 900.
- The style keeps the case it had in the file name ("Italic").
- When neither the file name nor a parent directory gives a family, the family is left
  undefined. The rule then declares `font-family: "undefined"`, as JavaScript's string
  concatenation prints it.

I/O is modelled through parameters and results:

- The stream is a sequence of `Batch.Input` values.
- What `spit` pushes is the returned sequence of `Batch.OutFile`.
- A log line becomes the `FaceRules.Skip` reason of the refused file.
- The exception `collect` throws becomes an `Err` result.

## Model

| member | source | states |
|---|---|---|
| FontSheets.NewFontSheet | index.js:5-9 | the family is kept as given; a missing or zero weight becomes 400 and any other weight is kept; a missing or empty style becomes "normal" and any other style is kept |
| FontSheets.IdentifierString | index.js:11-13 | the identifier opens with the printed family and '(' and closes with the style in parentheses |
| FontSheets.IdentifierStringInjective | index.js:11-13 | two sheets whose family has no '(' and whose style has no ')' have the same identifier string exactly when they have the same printed family, weight and style |
| FontSheets.ProcessedKeyInjective | index.js:127 | for sheets whose family has no '(' and whose style has no ')', the duplicate key of a sheet and an extension identifies both: equal keys mean equal family text, weight, style and extension, and conversely |
| FontSheets.ProcessedKey | index.js:127 | for a sheet whose family has no '(' and whose style has no ')', the duplicate key reads back into the family text, weight, style and extension it was built from |
| Text.IntDecimalRoundTrip | index.js:144 | the decimal text printed for a weight, with its minus sign, parses back to the same integer |
| Weight.NamedWeight | index.js:21-29 | the weight word, lowered, gives 900 for "black", 700 for "bold", 500 for "medium", 300 for "light", 200 for "thin", and 400 for any other word, "roman" and "regular" included |
| Weight.ResolveWeight | index.js:15-44 | the weight is a multiple of 100 between 100 and 1000; with no weight word it is 400; with no intensity word it is the weight word's base value; an intensity moves it by at most 100 |
| Weight.ExtremeWeights | index.js:31-43 | the weight is 1000 exactly for "black" with "extra" or "ultra", and 100 exactly for "thin" with "ultra" |
| Weight.IntensityShifts | index.js:31-43 | the weight drops below the base value exactly for "semi" on 700 or more, or "ultra" on 300 or less; it rises above it exactly for "extra" or "ultra" on 700 or more |
| Weight.ResolveWeightMonotone | index.js:21-43 | under any intensity, a weight word of lower or equal base value never gives a higher weight |
| Weight.WeightNameIgnoresCase | index.js:21-29 | weight words that differ only in ASCII case give the same weight |
| Weight.IntensityCaseSensitive | index.js:31-41 | as written: "Bold" with "Semi" gives 700 while "Bold" with "semi" gives 600, and "Black" with "Extra" gives 900 |
| Weight.ResolveWeightFolded | index.js:31-43 | corrected: same range as the code; an intensity spelled as "semi" in any case lowers a base weight of 700 or more by 100 |
| Weight.FoldedIgnoresIntensityCase | index.js:31-41 | corrected: intensity words that differ only in case give the same weight, and a lower-case intensity gives the same weight as the code |
| Files.BaseName | index.js:119 | the base name has no '/', ends the path, is the whole path when the path has no '/', and otherwise is preceded by a '/' |
| Files.ExtName | index.js:120 | the extension has no '.' and ends the base name, right after a '.' that is not the first character; it is empty exactly when there is no such '.' or the name ends in '.' |
| Files.ParentDirName | index.js:56 | the parent directory's name is "." for a bare file name; otherwise it is the last '/'-free piece of the path before the base name |
| FilenamePattern.MatchFilename | index.js:59-61 | every reported capture record is well formed and renders back to the filename |
| FilenamePattern.MatchFilenameComplete | index.js:59 | every well-formed record with a family is read back exactly; one without a family is matched, and read back exactly unless a reading with a family exists |
| FilenamePattern.MatchFilenameIffMatches | index.js:59-61 | a filename matches exactly when it is the rendering of some well-formed capture record |
| FilenamePattern.CapturesDetermined | index.js:59 | two well-formed records with the same rendering, which agree on whether there is a family, are equal |
| FilenamePattern.NoFamilyOnlyWhenUnavoidable | index.js:59 | when the match reports no family, no reading of the filename with a family exists |
| Inference.SplitParent | index.js:49-57 | a name with a '/' after its first character gives the text before that '/' as parent and the next '/'-free piece as filename; otherwise the filename and the file's parent directory are kept |
| Inference.Infer | index.js:46-81 | a sheet is given exactly when the filename matches; it is the sheet of the preferred reading, with the parent standing in for a missing family and the intensity passed on in the filename's case; the weight is a multiple of 100 in 100..1000; the style is "normal" or a style word; the family is missing only when there is no parent |
| Inference.InferFolded | index.js:46-81 | corrected: the same reading with the intensity lowered; a sheet is given exactly when `infer` gives one, with the same family and style and a weight in the same range |
| Inference.SemiBoldAsWritten | index.js:59-76 | as written: "Roboto-SemiBold.ttf" gives family "Roboto", weight 700 and style "normal" |
| Inference.SemiBoldFolded | index.js:59-76 | corrected: "Roboto-SemiBold.ttf" gives family "Roboto", weight 600 and style "normal" |
| Inference.BoldItalicHasFamily | index.js:59-76 | "Bold-Italic.ttf" gives family "Bold", weight 400 and style "Italic": the family group takes a word that is also a weight word |
| Inference.BoldWebfontHasNoFamily | index.js:59-76 | "Bold-webfont.ttf" gives no family, weight 700 and style "normal": with "Bold" as family the rest does not match, so the engine reads "Bold" as the weight |
| Inference.FamilyReadingWins | index.js:59-72 | any reading of the filename with a family is the one the match reports |
| FaceRules.UrlBegin | index.js:104-111 | exactly the six extensions woff, woff2, ttf, otf, svg and eot, compared as found, have a prefix; each prefix opens a `data:` URL, ends in the comma before the base64 text and has no line feed |
| FaceRules.MappedSheet | index.js:121-125 | a file maps to no sheet exactly when the mapping gives none for its base name; otherwise to the hook's result on the mapped sheet |
| FaceRules.DefaultMappedSheet | index.js:116-125 | with no options, a file maps to what `infer` reads from its base name and parent directory |
| FaceRules.HookedMappedSheet | index.js:114-125 | a hook given as an option is applied to every sheet `infer` gives |
| FaceRules.Configure | index.js:102-116 | an absent or empty output becomes "fonts"; an absent mapping becomes `infer` on the base name and parent directory; an absent hook leaves every sheet unchanged; given options are kept |
| FaceRules.CreateFontFace | index.js:118-153 | a file is refused as unmapped, as already processed or as of unrecognised type exactly when that check is the first to fail, naming the file's base name; an accepted rule carries the file's relative path, the sheet's family text, weight and style, the extension's data-URL prefix, and a payload that decodes to the file's contents, which Base64.EncodeDecode makes the one canonical encoding of them |
| FaceRules.RenderRule | index.js:141-147 | the rule text starts with '@' and ends with '}' |
| FaceRules.ParseRenderedRule | index.js:139-147 | a rule whose comment, family, style, prefix and payload have no line feed, whose prefix ends in a comma and whose payload has none reads back from its text field by field |
| FaceRules.ParseRule | index.js:139-147 | whatever the reader reads back from a text is a rule of that readable kind |
| FaceRules.CreatedRuleReadable | index.js:118-147 | an accepted rule of a file whose relative path, family text and style have no line feed reads back from its text |
| FaceRules.RenderedRuleEndsWithSrc | index.js:139-147 | the rule text ends with the `src` line holding the data URL, followed by the closing brace |
| FaceRules.DefaultFaceFollowsInfer | index.js:116-121 | with the default options, an accepted rule declares the family, weight and style `infer` reads from the base name and parent directory |
| FaceRules.PayloadIsCanonical | index.js:138-139 | a text decodes to the file's bytes exactly when it is the accepted rule's payload, so the payload is the one canonical base64 text of the contents |
| FaceRules.ContentsOnlyShapePayload | index.js:138-147 | files that differ only in contents are accepted alike and give rules that differ only in the payload |
| Base64.Encode | index.js:138 | the encoding has four characters per started group of three bytes, all from the base64 alphabet or '=' |
| Base64.DecodeEncode | index.js:138 | decoding the encoding of any bytes gives those bytes back |
| Base64.EncodeDecode | index.js:138 | text that decodes is the encoding of what it decodes to, so the decoder accepts only canonical base64 with zero spare bits and each byte sequence has exactly one encoding |
| Base64.SpareBitsRefused | index.js:138 | "AA==" decodes to the zero byte while "AB==", which sets a spare bit the encoder always leaves clear, is refused |
| Batch.Collect | index.js:165-173 | a streamed input or one without a path is refused with the plugin's error; any other file is appended to the buffer, with the key list unchanged |
| Batch.CollectAllBuffers | index.js:165-173 | a stream is collected exactly when every input is an accepted file; the buffer then holds the earlier files followed by the inputs' files in order |
| Grouping.KeysInOrder | index.js:179-191 | the extension groups are listed without repetition |
| Grouping.KeysInOrderComplete | index.js:179-189 | an extension is listed exactly when some buffered file has it |
| Grouping.FilesWithKey | index.js:184-189 | a group holds exactly the buffered files with that extension |
| Grouping.Bucket | index.js:177-189 | the grouping object has a key exactly for each listed extension, in first-seen order, and each key holds that extension's files in buffer order |
| Grouping.GroupsPartitionFiles | index.js:179-189 | the groups, taken together, are a permutation of the buffered files |
| Batch.Faces | index.js:194-201 | as written: a group gives at most one rule per file, and none exactly when every file is refused |
| Batch.FacesSingle | index.js:196-200 | one file gives its rule when the builder accepts it, and nothing otherwise |
| Batch.FacesAppend | index.js:194-201 | the rules of two runs of files are the rules of the first run followed by those of the second |
| Batch.FacesEmpty | index.js:194-201 | a group gives no rule exactly when every one of its files is refused |
| Batch.RenderFaces | index.js:192-201 | the inner loop as written: the text is the entries of the group's rules, every file built against the same key list |
| Batch.Entry | index.js:199 | each rule's text in a stylesheet is followed by two CRLF line ends |
| Batch.Stylesheet | index.js:192-201 | a stylesheet body is empty exactly when it holds no rule |
| Batch.DedupWith | index.js:127-131 | corrected guard: the key list grows by exactly one key per emitted rule, with the earlier keys kept in front |
| Batch.DedupWithEmpty | index.js:194-201 | corrected loop: a group gives no rule exactly when every file is refused against the keys recorded before it |
| Batch.RenderGroup | index.js:192-201 | corrected inner loop: the text is the entries of the rules the guard admits, and it records their keys |
| Batch.SpitFixed | index.js:176-205 | the outer loop as written pushes, in first-seen extension order, the stylesheet of each group |
| Batch.Spit | index.js:176-209 | `spit` pushes the stylesheets of the outer loop, every file built against the aggregator's key list, and leaves the plugin with no files and no keys |
| Batch.SpitOutputAt | index.js:191-204 | the m-th stylesheet is named after the m-th extension and holds the rules of that extension's files, in buffer order, each built against the aggregator's key list |
| Batch.OutputPath | index.js:203 | a stylesheet's name is the output base, a dash, the extension and ".css", and the base and extension can be read back from it |
| Batch.OutputPathInjective | index.js:203 | two stylesheet names are equal exactly when their extensions are |
| Batch.SpitPathsDistinct | index.js:203 | no two pushed stylesheets share a name |
| Batch.SpitOutputExists | index.js:191-204 | a stylesheet for an extension is pushed exactly when some buffered file has that extension |
| Batch.SpitOutputContents | index.js:191-204 | the stylesheet for an extension holds the rules of that extension's files, each built against the aggregator's key list; it is empty exactly when every such file is refused |
| Batch.DuplicateGuardNeverFires | index.js:113-131 | as written: after any collected stream, every stylesheet `spit` pushes is built against the empty key list, and no file of any group is refused as already processed |
| Batch.DuplicatesBothEmitted | index.js:127-131 | as written: two files of one known format that map to the same sheet both give rules, declaring the same variant |
| Batch.DedupSkipsSecondCopy | index.js:127-131 | corrected: of two such files the second is refused as already processed, and one rule is emitted |
| Batch.DedupKeysFresh | index.js:127-131 | corrected: the rules of a group have keys that are new and pairwise distinct |
| Batch.DedupVariantsDistinct | index.js:127-131 | corrected: no two rules of a group declare the same family, weight and style |
| Batch.SpitWith | index.js:176-205 | corrected outer loop: it pushes, in first-seen extension order, the stylesheet of each group, each turn starting from the keys the earlier turns recorded |
| Batch.SpitDedupOutputAt | index.js:191-204 | corrected: the m-th stylesheet is named after the m-th extension and holds the guarded rules of its files against the keys recorded before it, no two of which declare the same variant |
| Batch.SpitDedup | index.js:176-209 | corrected `spit`: it pushes the guarded stylesheets and leaves the plugin with no files and no keys |

## Left out

- The through2 stream, gulp-util's `File` and `log`, and `createFile`. Stylesheets are returned
  as path and text, and log lines become skip reasons.
- The order in which `for…in` lists integer-like keys: JavaScript lists them first, in numeric
  order. The model uses insertion order, which is what the plugin gets for ordinary extensions.
- Keys that `in` finds on `Object.prototype`, such as "constructor". For a file with that
  extension, `ext in sorted` already holds at index.js:184-188, so no group array is created and
  `sorted[ext].push` throws, failing `spit`. The same extension would also pass the known-type
  check at index.js:133.
- Files whose contents are null, on which the code fails while encoding.
- A mapping or hook that returns something other than a sheet (or nothing, for the mapping),
  and weights that are `NaN` or not integers.
- The exponent form JavaScript uses to print numbers of 21 digits or more.
- Case folding outside ASCII. The pattern's `\w` and the listed words are ASCII, so this only
  affects `toLowerCase` on words that could not match anyway.
- The second argument (the file) that the options comment at index.js:86-87 gives the hook. The
  code at index.js:125 passes only the sheet.
- Files.BaseName, Files.ExtName, Files.ParentDirName: paths are taken as normalised, with no
  trailing or repeated '/'. Node's trimming of those is not modelled.

## Findings

| source | as written | input that shows it | evidently intended | confidence | as-written member | corrected member |
|---|---|---|---|---|---|---|
| index.js:113,127-131,207 | `processed` starts empty and nothing is ever added to it, so the "Already processed" check never fires | `a/Roboto-Bold.ttf` and `b/Roboto-Bold.ttf` both give a Roboto 700 normal rule in `fonts-ttf.css` | record the key of each emitted rule so a later file of the same variant and format is skipped | high, not executed | Batch.DuplicatesBothEmitted | Batch.DedupSkipsSecondCopy |
| index.js:31-41 | the intensity word is compared case-sensitively, but the pattern matches it in any case | `Roboto-SemiBold.ttf` gives weight 700, while `Roboto-semiBold.ttf` gives 600 | compare the intensity word after lowering it, as is done for the weight word | high, not executed | Inference.SemiBoldAsWritten | Inference.SemiBoldFolded |
