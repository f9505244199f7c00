# Image converter: a Dafny model of its decision logic

The image converter is a single browser script. The user drops images on a
page, picks an output format (AVIF, WebP, JPEG or PNG) and a quality. The
script re-encodes every image through a canvas. It then offers one optimized
file, or a zip archive when several files were chosen, and shows how much
smaller (or larger) the result is.

Most of the script is DOM wiring and calls into browser codecs. This project
models the logic that sits between those calls, over strings, integers and
sequences:

- **Intake** (`Intake`): `handleFiles` keeps the files whose declared type
  starts with `image/`, in order. The global selection is overwritten even
  when nothing qualifies; the handler then alerts and returns.
- **Output naming** (`Naming`, over `Text`): the stem is `name.split('.')[0]`
  and the extension is `format.split('/')[1]`. `Text` models JavaScript's
  `split` with a one-character separator as `Split`, with `Join` as its
  inverse.
- **Byte sizes** (`ByteSize`): `formatBytes` picks a unit by base-1024
  bucketing. This is done with exact integers, keeping the divisor.
- **Format table** (`Formats`): the static `messages` table, the slider rule
  of `updateFormatInfo` (only PNG pins the quality label to "Máxima"), and
  the white-versus-transparent canvas background.
- **Savings tag** (`Savings`): the sign of `original - final` picks
  "-… AHORRO" or "+… PESO". The percentage is an exact rational.
- **Page state** (`AppState.Session`): a class holding the globals
  `selectedFiles`, `outputBlob` and `outputFilename`, what the page shows,
  and the state of the current run of the process handler. The run state is
  the captured files, the selector value, the archive `zip`,
  `totalOriginalSize` and `processedCount`. Each handler and each
  asynchronous completion is one method. Completions arrive one at a time,
  in any order, because the browser runs callbacks one at a time.
  `Valid()` keeps the batch bookkeeping consistent:
  - the total is the sum of the input sizes;
  - the count is the number of completed files;
  - the archive keys are the derived names of the completed files.

Three behaviours of the handlers are easy to miss:

- An intake with no image does not keep the prior selection: script.js:117
  assigns the empty filter result to `selectedFiles` before the alert at
  :119, so a later process click does nothing. `HandleFiles` models this.
- The progress bar's width divides by the length of the *global* selection
  at callback time (script.js:193), not by the batch's own size. A new drop
  during a batch therefore changes the denominator. `FileEncoded` models
  this, and states "full exactly at the last completion" only for a
  selection that did not change.
- The progress width is not reset when a new batch starts, so it keeps the
  previous run's width until the first completion. `ProcessClick` leaves it
  unchanged.

## Model

| member | source | states |
|---|---|---|
| `Text.StartsWith` | script.js:117 | `s.startsWith(p)` holds exactly when `p` is no longer than `s` and agrees with it position by position. |
| `Text.Split` | script.js:161 | `s.split(c)` has at least one field, and at least two exactly when `c` occurs in `s`. |
| `Text.FirstIndexOf` | script.js:171 | The result is absent exactly when the character does not occur. Otherwise it is a position holding the character with no earlier occurrence. |
| `Text.JoinSplit` | script.js:171 | Joining the fields of `s.split(c)` with `c` gives back `s`. |
| `Text.SplitJoin` | script.js:188 | Splitting the join of separator-free fields gives back exactly those fields. |
| `Text.SplitFieldsFree` | script.js:188 | No field of a split contains the separator. |
| `Text.SplitHead` | script.js:171 | The first field is a separator-free prefix. It is either the whole string or is followed by the separator. |
| `Text.SplitSecond` | script.js:161 | There is a second field exactly when the separator occurs. It is the first field of the text after the first separator. |
| `Text.SplitAfter` | script.js:161 | For a separator-free `pre`, `pre + [c] + post` splits into `pre` followed by the fields of `post`. |
| `Text.SplitNone` | script.js:161 | A string without the separator splits into itself alone. |
| `Naming.Stem` | script.js:171 | `name.split('.')[0]` is dot-free and a prefix of the name. It is the whole name when there is no dot, and otherwise stops at the first dot. |
| `Naming.Extension` | script.js:161 | `format.split('/')[1]` is defined exactly when the format string contains a slash. |
| `Naming.ExtensionText` | script.js:161 | The extension as a template literal prints it: the second slash field when there is a slash, the word "undefined" otherwise. |
| `Naming.OutputName` | script.js:171 | The derived name starts with the name's text up to its first dot, which is dot-free, and continues with "-opt." and the extension text. |
| `Naming.ExtensionAfterFirstSlash` | script.js:161 | For `t + "/" + e + rest` with slash-free `t` and `e`, and `rest` empty or starting with a slash, the extension is `e`. |
| `Naming.SlashlessFormatUndefined` | script.js:161 | A format without a slash makes the name end in `-opt.undefined`. |
| `Naming.DotlessNameKeptWhole` | script.js:171 | A name without a dot is kept whole before `-opt.`. |
| `Naming.OutputNameOfParts` | script.js:171 | For a dot-free `pre`, the name of `pre + "." + post` in format `t/e` is `pre + "-opt." + e`. |
| `Naming.MultiDotExample` | script.js:188 | "a.b.c.png" in "image/jpeg" is named "a-opt.jpeg". |
| `Naming.OutputNameCollides` | script.js:188-189 | Two files get the same archive key in a format exactly when their stems are equal. |
| `Naming.ExtensionOfFormat` | script.js:161 | For each of the four formats, the MIME string is "image/" followed by a slash-free extension. |
| `ByteSize.UnitIndex` | script.js:34 | For bytes > 0, the chosen index `i` satisfies `1024^i <= bytes < 1024^(i+1)`. |
| `ByteSize.UnitIndexUnique` | script.js:34 | Only one exponent brackets the byte count, so the index is the largest `i` with `1024^i <= bytes`. |
| `ByteSize.UnitName` | script.js:35 | `sizes[i]` reads "undefined" exactly past the four-entry table, and is `sizes[i]` inside it. |
| `ByteSize.FormatBytes` | script.js:31-36 | Zero gives "0 Bytes". Any other count keeps its value, is divided by `Pow1024(i)`, the `Math.pow(1024, i)` of script.js:35, for its bucket `i` and carries the unit `sizes[i]`, with `divisor <= bytes < 1024 * divisor`. |
| `ByteSize.UnitWithinTable` | script.js:33-35 | The index is inside the four-entry unit table exactly when bytes < 1024^4. From there on the unit reads "undefined". |
| `ByteSize.FormatBytesExamples` | script.js:31-36 | 1024 and 1536 are in KB, 2^20 is 1 MB, 2^30 is 1 GB with divisor 2^30, and 1023 stays in Bytes. |
| `Formats.ParseMime` | script.js:71 | A lookup that succeeds returns the format whose MIME string is the looked-up value. |
| `Formats.ParseMimeRoundTrip` | script.js:39-66 | Each format's MIME string looks up that same format. |
| `Formats.Messages` | script.js:39-66 | A row disables the slider exactly for PNG. |
| `Formats.OnlyAvifDependsOnBrowser` | script.js:40-47 | The Safari detection changes the AVIF row and no other. |
| `Formats.UpdateFormatInfo` | script.js:69-88 | A view exists exactly for the four keys, and shows the text, icon and colour of that key's row. The slider is enabled exactly when the label is the rounded percentage, and disabled exactly for "image/png". |
| `Formats.SliderPinnedOnlyForPng` | script.js:81-87 | "Máxima" is shown exactly for PNG. The slider is enabled exactly for AVIF, WebP and JPEG. |
| `Formats.CanvasBackground` | script.js:232-237 | The canvas is filled white exactly for the JPEG value. Every other value clears it. |
| `Savings.Percent` | script.js:252 | The percentage is finite exactly when the original is positive. Then `pct * original == (original - final) * 100`. |
| `Savings.SavingsTag` | script.js:251-261 | The tag is AHORRO exactly when final < original, with the saving `(original - final) / original * 100`, which lies in (0, 100]. Otherwise it is PESO, with magnitude `(final - original) / original * 100`, or non-finite for a zero original. |
| `Savings.Sign` | script.js:256-259 | The sign is "-" exactly for a saving, and "+" for growth. |
| `Savings.Word` | script.js:256-259 | The word is "AHORRO" exactly for a saving and "PESO" exactly for growth. |
| `Savings.NoChangeIsPeso` | script.js:255-260 | Equal positive sizes give a "+0% PESO" tag. (Two zero sizes make the source divide 0 by 0; the model gives a PESO tag with a non-finite magnitude there.) |
| `Savings.SavingsExamples` | script.js:251-261 | 1000 to 400 is a 60% saving. 400 to 1000 is 150% growth. |
| `Intake.IsImage` | script.js:117 | A file counts as an image exactly when its declared type has a slash and the text before the first slash is "image". |
| `Intake.FilterImages` | script.js:117 | Every kept file is an image, and no more files come out than went in. |
| `Intake.FilterKeepsOrder` | script.js:117 | The kept files are a subsequence of the input: the original relative order is kept. |
| `Intake.FilterCounts` | script.js:117 | Each image file is kept as often as it occurs, and every other file never. |
| `Intake.FilterMembership` | script.js:117 | A file is kept exactly when it is in the input and its type starts with "image/". |
| `Intake.FilterEmpty` | script.js:117-119 | The selection comes out empty exactly when no file is an image. |
| `Intake.FilterIdempotent` | script.js:117 | Filtering the selection again changes nothing. |
| `AppState.SumSizes` | script.js:185-186 | The total of no files is zero, and the total is at least each file's size. |
| `AppState.SumSizesAppend` | script.js:185-186 | The size total of a concatenation is the sum of the totals. |
| `AppState.AccumulateSizes` | script.js:185-186 | The loop `totalOriginalSize += file.size` over the selection ends with the sum of all sizes. |
| `AppState.ProgressWidth` | script.js:193 | The width is finite exactly for a non-empty selection. Then `width * total == processed * 100`. |
| `AppState.ProgressFullAtLast` | script.js:192-193 | With `processed <= total`, the width is within [0, 100] and reaches 100 exactly when processed == total. |
| `AppState.ProgressFullWhenAllDone` | script.js:192-193 | The bar is full exactly when every file of the batch has completed. |
| `AppState.AllDoneByCount` | script.js:192 | A set of completed indices has the batch's size exactly when it holds every index. |
| `AppState.ZipKeysAdd` | script.js:188-189 | One completion adds exactly its derived name to the archive's keys. |
| `AppState.BatchStarts` | script.js:180-186 | A batch starts with nothing done, an empty archive and the total of all input sizes. |
| `AppState.BatchStep` | script.js:187-193 | A completion of a file not yet done keeps count, total and archive keys consistent. |
| `AppState.Session.constructor` | script.js:25-28 | The page starts with an empty selection, no output blob and an empty output name. |
| `AppState.Session.HandleFiles` | script.js:115-140 | The selection becomes the filtered files, even when empty. Then it alerts and changes nothing else. Otherwise it shows the controls, hides results and sets the label by count. A run in flight is untouched. |
| `AppState.Session.ProcessClick` | script.js:144-186 | It is a no-op while busy or with no selection. One file takes the single path without progress. Two or more take the archive path: empty zip, zero count, total = sum of sizes. |
| `AppState.Session.SingleEncoded` | script.js:169-175 | The blob becomes the output, named `stem-opt.ext` after the one file. The final size is `formatBytes` of the blob's size. The tag compares the file's size with the blob's. Download is armed. |
| `AppState.Session.FileEncoded` | script.js:187-194 | The archive gets the entry under the derived name and the count grows by one. Progress is count/selection, and with an unchanged selection it is full exactly when all files are done. |
| `AppState.Session.AllEncoded` | script.js:198-200 | Once every file completed, the count equals the batch size and the keys are the derived names of all files. |
| `AppState.Session.ArchiveGenerated` | script.js:203-211 | The archive becomes the output named "imagenes-optimizadas.zip". The final size is `formatBytes` of the archive's size. The tag compares the sum of input sizes with the archive size. |
| `AppState.Session.Download` | script.js:278-280 | It yields the output blob and name exactly when the download button is enabled, and nothing without an output. The listener itself tests only for an output; a disabled button fires no click, so the model checks the button's state. |
| `AppState.RejectedSelectionThenClick` | script.js:117-119 | A drop of one or more files with no image empties the selection. It leaves the page and any run as they were, and a following process click does nothing. |

## Left out

- DOM references, class lists, texts such as "1 archivo: …", button labels and
  styling, drag-and-drop listeners: page plumbing. Only the visibility flags, the
  results label, the progress width, the download button and the shown result
  are kept, in `View`.
- The initial visibility of the panels comes from the page markup, which is
  not part of this model. The constructor starts with everything hidden.
- The transcoder `processSingleImage` (`FileReader`, image decoding, canvas
  drawing, `toBlob`): browser codecs the script cannot see. Its completions
  are the `SingleEncoded` and `FileEncoded` calls with an arbitrary blob. Its
  failures are not modelled: a decode that never finishes is a call that
  never comes, and `toBlob` returning `null` is excluded. Only its choice of
  background is kept, as `CanvasBackground`.
- JSZip's `generateAsync` and FileSaver's `saveAs`: foreign libraries. The
  generated archive is the parameter of `ArchiveGenerated`. A save is the
  value `Download` returns. JSZip's treatment of `/` in entry names as folders
  is not modelled.
- Promise fan-out and `Promise.all`: the fan-out is the loop of
  `AccumulateSizes` plus the batch state that `ProcessClick` sets up. A
  rejected promise is not modelled.
- Floating-point text: `toFixed`, `parseFloat`, `Math.round(value * 100)`
  and the one-decimal percentage. `FormatBytes` returns count, divisor and
  unit instead of the two-decimal number. The savings magnitude is exact,
  not rounded. The PESO case takes `Math.abs` of the already rounded text in
  the source.
- ProgressWidth: the width is an exact rational. In the source it is an
  IEEE double written into the style string (such as "33.33333333333333%").
  The two agree that the width is 100 exactly when processed == total, since
  for any realistic file count a quotient below 1 stays visibly below 100.
- UnitIndex: computes the bucket exactly with integers. The source computes
  `Math.floor(Math.log(bytes) / Math.log(1024))` in floating point, which
  could differ from the exact bucket at some exact powers of 1024.
- The quality value (`parseFloat(qualityRange.value)`) is passed only to the
  encoder, so it is not part of the model.
- Download: checks the download button's enabled state, which the listener
  at script.js:279 does not test itself. The browser delivers no click to a
  disabled button, so the listener runs only when the button is enabled.
- The Safari user-agent test: it is the `isSafari` parameter of `Messages`
  and `UpdateFormatInfo`.
- `handleFiles`' call to `updateFormatInfo` only re-renders the format panel.
  That panel is the value of `UpdateFormatInfo` for the selector's value and
  is not stored in the session.
