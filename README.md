# pyramid_frontend core in Dafny

This project models the computational core of `pyramid_frontend`, a Pyramid add-on
that stores uploaded images and compiled asset bundles. It covers three source files:

- `pyramid_frontend/images/utils.py`: the image helpers built on PIL.
  - The extension table (`possible_extensions`) and the encoder name `placeholder` saves with.
  - Palette flattening (`flatten_paletted`).
  - Padding (`pad_image`), ratio cropping (`crop_to_ratio`) and `is_larger`.
  - Entropy-guided trimming (`crop_entropy_width`, `crop_entropy_height`, `crop_entropy`).
  - The white-border test (`colors_differ`, `is_white_background`).
- `pyramid_frontend/images/files.py`: content-addressed image storage.
  - md5 sharding prefixes, original and processed paths, and the URL prefix setting.
  - The writers that create shard directories, copy upload streams to disk, and
    quarantine rejected uploads under a directory named after the current second.
- `pyramid_frontend/assets/asset.py`: the shared part of the asset handlers.
  - `write` stores a bundle as `<basename>-<sha1>.<ext>` next to a `<key>.map` file
    that names it. `write_from_file` reads the bundle first.
  - `tag` picks the production or the development renderer.

How the modules are laid out:

- `Raster` represents a decoded image as a grid of RGB pixels. `Crop` is PIL's `crop`;
  a crop of a crop is proved to be one crop of the original.
- `EntropyCrop` holds the trimming loops. They are `while` loops over an image that
  is cropped step by step. Each loop is proved to produce
  `Crop(im, EntropyWidthBox(im, …))`, a recursive reference definition of the trimmed
  band, or the `ZeroDivisionError` that `image_entropy` raises on an empty slice.
  Lemmas state which slice each step drops, what size results, and exactly which
  sizes raise. The loops therefore always terminate.
- `Palette` holds `flatten_paletted`. It is a class whose palette is rewritten in
  place by a `for` loop, proved against the function `FlattenedPalette`.
- `Borders` holds `is_white_background`: two `for` loops with early exits, proved
  equal to "every border pixel is within the tolerance of white".
- `FileSystem` models the disk as a map from path to entry, held by a `Disk` object
  that the writers update in place. `Paths` follows `posixpath` (`join`, `basename`,
  `dirname`, `rstrip('/')`) literally, without normalisation.
- `ImageFiles`, `Timestamps` and `Assets` model the storage code over that disk.
  Each writer method is tied to an effect function on the map. Lemmas state the
  resulting layout.

Parameters stand in for what the model cannot see:

- PIL's histogram entropy of an image with pixels (`entropy: Image -> real`)
- `thumbnail`, which is a resizing function
- md5 and sha1 (functions to 32/40-character lower-case hex strings)
- `ImageColor.getcolor(name, 'L')`
- the filter chain's `basename`
- the tag renderers
- the current UTC time

Python floats are exact reals. In `crop_entropy_width`/`height`, `floor(w * 0.1)`
is therefore `w / 10`. For image-sized integers the floating-point product gives
the same floor: it rounds to exactly `k` when `w == 10 * k`, and it is not within
rounding distance of an integer otherwise.

Python's default arguments are named by the constants `Borders.DefaultTolerance` (180),
`Palette.DefaultBackground` (255) and `Assets.DefaultProduction` (true). A source call
that omits the argument corresponds to passing that constant.

The code and its test disagree in one place, and the model follows the code (see
"## Findings").

## Model

| member | source | states |
|---|---|---|
| Raster.Crop | pyramid_frontend/images/utils.py:97-98 | a crop inside the image has the box's width and height |
| Raster.CropOfCrop | pyramid_frontend/images/utils.py:102-105 | cropping a crop of `im` is the single crop of `im` to the composed box, and that box lies inside `im` |
| Raster.CropWhole | pyramid_frontend/images/utils.py:93-94 | the loops start from the whole image: cropping to it changes nothing |
| EntropyCrop.SliceSize | pyramid_frontend/images/utils.py:96 | the slice never exceeds the excess nor a tenth of the size, and is at least one column once the size reaches ten |
| EntropyCrop.ImageEntropy | pyramid_frontend/images/utils.py:84-89 | `image_entropy` raises `ZeroDivisionError` on an image without pixels (its histogram totals zero) and is the parameter `entropy` otherwise; `WidthStep`/`HeightStep` state the consequence |
| EntropyCrop.WidthStep | pyramid_frontend/images/utils.py:86-105 | one pass raises `ZeroDivisionError` exactly when the width is under ten or there are no rows (the slices are empty and `image_entropy` divides by a zero histogram total); otherwise it keeps a full-height contiguous band exactly `slice_width >= 1` narrower, dropping the left slice exactly when its entropy is strictly lower than the right slice's (ties drop the right) |
| EntropyCrop.WidthStepShrinks | pyramid_frontend/images/utils.py:96-107 | a successful pass narrows the image, never below the target, and with a target under nine never onto it |
| EntropyCrop.EntropyWidthBox | pyramid_frontend/images/utils.py:92-109 | trimming raises `ZeroDivisionError` exactly when the image is wider than the target and has no rows or a target under nine; otherwise the surviving band lies inside the image, is full height and is exactly `min(w, desired_w)` wide |
| EntropyCrop.WidthStepKeepsPlan | pyramid_frontend/images/utils.py:100-107 | one loop iteration keeps the current image equal to the crop of the original to the band kept so far, with the rest of the plan unchanged |
| EntropyCrop.WidthTrimFails | pyramid_frontend/images/utils.py:94-100 | a pass that raises makes the whole trim raise `ZeroDivisionError` |
| EntropyCrop.CropEntropyWidth | pyramid_frontend/images/utils.py:92-109 | the loop raises `ZeroDivisionError` exactly when `w > desired_w` and either `h == 0` or `desired_w < 9`; otherwise it returns the original cropped to `EntropyWidthBox`, `min(w, desired_w)` wide with the height unchanged |
| EntropyCrop.HeightStep | pyramid_frontend/images/utils.py:86-123 | one pass raises `ZeroDivisionError` exactly when the height is under ten or there are no columns; otherwise it keeps a full-width contiguous band exactly `slice_height >= 1` shorter, dropping the bottom slice exactly when its entropy is strictly lower than the top slice's (ties drop the top) |
| EntropyCrop.HeightStepShrinks | pyramid_frontend/images/utils.py:116-125 | a successful pass lowers the image, never below the target, and with a target under nine never onto it |
| EntropyCrop.EntropyHeightBox | pyramid_frontend/images/utils.py:112-127 | trimming raises `ZeroDivisionError` exactly when the image is taller than the target and has no columns or a target under nine; otherwise the surviving band lies inside the image, is full width and is exactly `min(h, desired_h)` high |
| EntropyCrop.HeightStepKeepsPlan | pyramid_frontend/images/utils.py:120-125 | one loop iteration keeps the current image equal to the crop of the original to the band kept so far |
| EntropyCrop.HeightTrimFails | pyramid_frontend/images/utils.py:114-120 | a pass that raises makes the whole trim raise `ZeroDivisionError` |
| EntropyCrop.CropEntropyHeight | pyramid_frontend/images/utils.py:112-127 | the loop raises `ZeroDivisionError` exactly when `h > desired_h` and either `w == 0` or `desired_h < 9`; otherwise it returns the original cropped to `EntropyHeightBox`, `min(h, desired_h)` high with the width unchanged |
| EntropyCrop.RatioOrder | pyramid_frontend/images/utils.py:140-143 | comparing two aspect ratios is comparing the cross products |
| EntropyCrop.CropEntropyPlan | pyramid_frontend/images/utils.py:137-156 | the branch and thumbnail box `crop_entropy` picks; its partner `CropEntropyPlanBranches` states which inputs select each branch and which raise |
| EntropyCrop.CropEntropyPlanBranches | pyramid_frontend/images/utils.py:140-156 | width trimming exactly when the input is wider than the target, height trimming exactly when narrower, resize only when equal; the thumbnail box is one pixel larger than the input on the trimmed axis; a zero input or target height, or a zero input width against a non-zero target width, raises |
| EntropyCrop.CropEntropy | pyramid_frontend/images/utils.py:130-156 | every exception is a `ZeroDivisionError`; a failing plan raises; otherwise the result is the thumbnail trimmed by the width or height loop as the branch dictates (raising exactly when that loop does), or the thumbnail itself |
| Geometry.PadCanvas | pyramid_frontend/images/utils.py:65-66 | the canvas is the per-axis maximum of the image size and the requested size, so it never shrinks |
| Geometry.PasteBox | pyramid_frontend/images/utils.py:68-70 | the paste box has the image's size and lies wholly inside the canvas |
| Geometry.PadImage | pyramid_frontend/images/utils.py:61-71 | the padded image has the canvas size |
| Geometry.PadThenCrop | pyramid_frontend/images/utils.py:67-70 | cropping the paste box out of the padded image gives the original back |
| Geometry.PadMargins | pyramid_frontend/images/utils.py:67 | every canvas pixel outside the paste box has the given colour, white by default |
| Geometry.PadCentred | pyramid_frontend/images/utils.py:68-69 | opposite margins differ by at most one pixel, the extra one right and down |
| Geometry.PadReachesSizeUnlessLarger | pyramid_frontend/images/utils.py:206-213 | padding lands exactly on the requested size iff the image is not larger; on a larger axis the canvas keeps the image's size |
| Geometry.IsLarger | pyramid_frontend/images/utils.py:206-213 | `is_larger`: wider or taller than the target; `PadReachesSizeUnlessLarger` relates it to padding |
| Geometry.Ceil | pyramid_frontend/images/utils.py:81 | the result is the least integer not below its argument |
| Geometry.CropToRatioBox | pyramid_frontend/images/utils.py:78-81 | the box `crop_to_ratio` cuts; its partner `CropToRatioBoxFits` states its shape and when it raises |
| Geometry.CropToRatio | pyramid_frontend/images/utils.py:74-81 | succeeds exactly when the box does, and is then the crop of the image to that box, which lies inside it |
| Geometry.CropToRatioBoxFits | pyramid_frontend/images/utils.py:78-81 | the box starts at (0,0) inside the image; a wider image keeps its height and gets width `ceil(h*ar)`, any other keeps its width and gets height `ceil(w/ar)`; it fails exactly on a zero height or on a zero width at ratio zero |
| Borders.ManhattanMetric | pyramid_frontend/images/utils.py:175-176 | the Manhattan distance is symmetric and zero exactly on equal colours |
| Borders.ColorsDiffer | pyramid_frontend/images/utils.py:175-177 | `colors_differ`: strictly farther apart than the tolerance; `ColorsDifferFacts` and `ColorsDifferMonotone` state its properties |
| Borders.ColorsDifferFacts | pyramid_frontend/images/utils.py:175-177 | a colour differs from itself only under a negative tolerance; differing is symmetric |
| Borders.ColorsDifferMonotone | pyramid_frontend/images/utils.py:175-177 | a colour within one tolerance of white stays within every larger one |
| Borders.WhiteBorderIsEveryBorderPixel | pyramid_frontend/images/utils.py:189-203 | the scan's criterion holds iff every pixel of row 0, row h-1, column 0 and column w-1 is within the tolerance of white |
| Borders.IsWhiteBackground | pyramid_frontend/images/utils.py:180-203 | the scan returns that criterion on a non-empty image, True on an empty one, and raises `IndexError` when exactly one side is zero |
| Palette.ParseInt | pyramid_frontend/images/utils.py:49 | `int(s)` succeeds exactly on an optional sign followed by at least one digit |
| Palette.ParseIntOfDecimal | pyramid_frontend/images/utils.py:49 | `int(str(n))` gives back `n`, for either sign; `StringBackgroundAsNumber` uses it |
| Palette.BackgroundLevel | pyramid_frontend/images/utils.py:48-51 | a number is used as it is, a numeric string is parsed, any other string is looked up as a colour name and raises `ValueError` when unknown |
| Palette.StringBackgroundAsNumber | pyramid_frontend/images/utils.py:46-51 | a background given as the decimal string of a number flattens to the same level as the number itself |
| Palette.PyIndex | pyramid_frontend/images/utils.py:56 | a list index is valid exactly in `[-n, n)` and negative ones count from the end |
| Palette.Paint | pyramid_frontend/images/utils.py:55-56 | the assignments keep the palette's length |
| Palette.FlattenedPalette | pyramid_frontend/images/utils.py:52-56 | the palette after the three assignments; `FlattenedPaletteEntries` and `FlattenIdempotent` state its properties |
| Palette.FlattenedPaletteEntries | pyramid_frontend/images/utils.py:52-57 | entries `3t`, `3t+1`, `3t+2` become the level and all others are unchanged; it raises `IndexError` exactly when colour `t` is outside the palette |
| Palette.FlattenIdempotent | pyramid_frontend/images/utils.py:52-57 | flattening twice with the same level is flattening once |
| Palette.PutPalette | pyramid_frontend/images/utils.py:57 | `putpalette` succeeds exactly on a palette of bytes, installing it unchanged, and otherwise raises `ValueError` |
| Palette.FlattenedLevelMustBeByte | pyramid_frontend/images/utils.py:52-57 | on a palette of bytes, installing the flattened palette fails exactly when the level is outside `0..255` (as `flatten_paletted(im, 300)` or `-1` would) |
| Palette.FlattenEffect | pyramid_frontend/images/utils.py:46-58 | the palette `flatten_paletted` leaves, or the exception it raises: a bad background, an index outside the palette, or a level `putpalette` cannot store; `FlattenPaletted` is proved against it |
| Palette.PalettedImage.FlattenPaletted | pyramid_frontend/images/utils.py:46-58 | without a transparency entry nothing changes; otherwise the palette becomes `FlattenEffect`'s palette, or the exception is returned with the palette untouched |
| ImageFormats.ExtensionsBelongToOneFormat | pyramid_frontend/images/utils.py:26-34 | an extension is listed for a format iff it belongs to that format, so no two formats share one; a format raises exactly when no extension belongs to it, and the exception is `KeyError` |
| ImageFormats.PossibleExtensions | pyramid_frontend/images/utils.py:20-34 | `possible_extensions` as a table with `KeyError` for other formats; `ExtensionsBelongToOneFormat` and `PreferredExtension` state its properties |
| ImageFormats.PreferredExtension | pyramid_frontend/images/utils.py:20-34 | every known format has a first, preferred extension, which belongs to it |
| ImageFormats.Lower | pyramid_frontend/images/utils.py:170 | lower-casing keeps the length and maps each character |
| ImageFormats.LowerIdempotent | pyramid_frontend/images/utils.py:170 | lower-casing twice is lower-casing once |
| ImageFormats.EncoderName | pyramid_frontend/images/utils.py:166-170 | the encoder name `placeholder` saves with; `EncoderNameAgreesWithTable` and `EncoderNameIdempotent` state its properties |
| ImageFormats.EncoderNameAgreesWithTable | pyramid_frontend/images/utils.py:166-170 | `jpg`, `tif` and `tiff` (in any case) become the format the extension table files them under; any other extension is passed on unchanged |
| ImageFormats.EncoderNameIdempotent | pyramid_frontend/images/utils.py:166-170 | translating an encoder name again changes nothing |
| Paths.Join | pyramid_frontend/images/files.py:38 | `join` ends with its second argument, keeps the first as a prefix unless the second is absolute, and inserts one separator after a plain directory |
| Paths.RStripSlashes | pyramid_frontend/images/files.py:22 | stripping leaves a prefix that does not end in `/`, with only separators removed |
| Paths.RStripSlashesIdempotent | pyramid_frontend/images/files.py:22 | stripping twice is stripping once |
| Paths.RStripSlashesUnique | pyramid_frontend/images/files.py:22 | the stripped string is the only prefix without a trailing separator that leaves only separators behind |
| Paths.Basename | pyramid_frontend/assets/asset.py:53 | `basename` holds no separator and is a suffix of the path |
| Paths.JoinSplits | pyramid_frontend/images/files.py:42 | `basename` and `dirname` of `join(a, b)` give back `b` and `a` |
| Paths.JoinInjective | pyramid_frontend/images/files.py:42 | distinct relative names joined onto one plain directory give distinct paths |
| Paths.Dirname | pyramid_frontend/images/files.py:42 | `dirname` returns a prefix of the path; `JoinSplits` shows it undoes `join` |
| FileSystem.MakeDirs | pyramid_frontend/images/files.py:39-40 | `makedirs` succeeds iff the path is new and no ancestor is a file; it then adds the path and its missing ancestors as directories and keeps every other entry |
| FileSystem.MakeDirsThenExists | pyramid_frontend/images/files.py:50-51 | after `makedirs` the path exists and a second `makedirs` raises `FileExists` |
| FileSystem.WriteFile | pyramid_frontend/images/files.py:26 | opening for writing succeeds iff the path is not a directory and its parent directory exists, and then only that file is replaced |
| FileSystem.UniversalNewlines | pyramid_frontend/assets/asset.py:77-78 | the text-mode newline translation never lengthens the text and leaves no `\r` |
| FileSystem.UniversalNewlinesKeepsPlainText | pyramid_frontend/assets/asset.py:77-78 | text without `\r` is read unchanged |
| FileSystem.UniversalNewlinesIdempotent | pyramid_frontend/assets/asset.py:77-78 | translating twice is translating once |
| FileSystem.ReadFile | pyramid_frontend/assets/asset.py:77-78 | a text-mode read succeeds exactly on a regular file and returns its contents with `\r\n` and `\r` turned into `\n` |
| FileSystem.ReadAfterWrite | pyramid_frontend/assets/asset.py:62-63 | text without `\r`, once written, is read back unchanged |
| FileSystem.Disk.Makedirs | pyramid_frontend/images/files.py:40 | the disk becomes `MakeDirs` of the old one, or is unchanged with the error returned |
| FileSystem.Disk.Create | pyramid_frontend/images/files.py:26 | `open(p, 'w')` creates or truncates the file, or leaves the disk unchanged with the error returned |
| FileSystem.Disk.Overwrite | pyramid_frontend/images/files.py:28 | writing through an open file replaces its contents and nothing else |
| FileSystem.Disk.WriteText | pyramid_frontend/assets/asset.py:62-63 | the disk becomes `WriteFile` of the old one, or is unchanged with the error returned |
| FileSystem.Disk.Read | pyramid_frontend/assets/asset.py:77-78 | returns `ReadFile` of the disk, text-mode translation included |
| FileSystem.Disk.Exists | pyramid_frontend/images/files.py:39 | `os.path.exists`: the path has an entry |
| FileSystem.Disk.IsDir | pyramid_frontend/assets/asset.py:58 | `os.path.isdir`: the path is a directory |
| FileSystem.Stream.Close | pyramid_frontend/images/files.py:44 | the stream is closed and keeps its contents |
| Timestamps.Format | pyramid_frontend/images/files.py:37 | the directory name has 19 characters and no separator |
| Timestamps.ParseFormat | pyramid_frontend/images/files.py:37 | the formatted time can be read back exactly |
| Timestamps.FormatInjective | pyramid_frontend/images/files.py:37-38 | two different times never share a quarantine directory |
| ImageFiles.PrefixForName | pyramid_frontend/images/files.py:13-18 | the prefix is the first four characters of the md5 hex digest: four hex digits, no separator |
| ImageFiles.GetUrlPrefix | pyramid_frontend/images/files.py:21-22 | the setting with every trailing `/` removed and nothing else |
| ImageFiles.ShardDir | pyramid_frontend/images/files.py:48-49 | the directory `ensure_dirs` creates; `OriginalPathLayout` shows originals land in it |
| ImageFiles.OriginalPath | pyramid_frontend/images/files.py:54-58 | `original_path`; `OriginalPathLayout` states its layout |
| ImageFiles.ProcessedPath | pyramid_frontend/images/files.py:61-66 | `processed_path`; `ProcessedPathLayout` states its layout |
| ImageFiles.EnsureDirsEffect | pyramid_frontend/images/files.py:47-51 | an existing path changes nothing; otherwise the directory is created and every existing entry kept |
| ImageFiles.EnsureDirs | pyramid_frontend/images/files.py:47-51 | the disk becomes `EnsureDirsEffect` of the shard directory, or is unchanged with the error returned |
| ImageFiles.EnsureDirsIdempotent | pyramid_frontend/images/files.py:47-51 | after `ensure_dirs` the shard directory exists and a second call changes nothing |
| ImageFiles.EnsureDirsCreates | pyramid_frontend/images/files.py:47-51 | with no file in the way, `ensure_dirs` succeeds and leaves a directory |
| ImageFiles.OriginalPathLayout | pyramid_frontend/images/files.py:54-58 | `original_path` is exactly `dir/prefix/name.ext`, its dirname is the shard directory `ensure_dirs` creates and its basename is `name.ext` |
| ImageFiles.ProcessedPathLayout | pyramid_frontend/images/files.py:61-66 | `processed_path` is exactly `dir/prefix/chain.basename(name, ext)` |
| ImageFiles.OriginalAndProcessedShareShard | pyramid_frontend/images/files.py:54-66 | an original and a processed variant of a name sit in directories both named after `prefix_for_name(name)` |
| ImageFiles.SaveLocallyEffect | pyramid_frontend/images/files.py:25-29 | what `save_locally` does to the disk; `SaveLocally` is proved against it and `SaveLocallyIntoDir` states the outcome in a directory |
| ImageFiles.ErrorDirPath | pyramid_frontend/images/files.py:37-38 | the dated quarantine directory; `ErrorDirPathPlain` states its shape |
| ImageFiles.SaveToErrorDirEffect | pyramid_frontend/images/files.py:32-44 | what `save_to_error_dir` does to the disk; `SaveToErrorDir` is proved against it and `FirstQuarantine`/`LaterQuarantine` state the outcomes |
| ImageFiles.SaveLocally | pyramid_frontend/images/files.py:25-29 | the disk and the outcome are `SaveLocallyEffect`: the file is created and then filled, or left empty when the stream is closed |
| ImageFiles.SaveToErrorDir | pyramid_frontend/images/files.py:32-44 | the disk and the outcome are `SaveToErrorDirEffect`, and the stream is closed exactly after a successful copy |
| ImageFiles.ErrorDirPathPlain | pyramid_frontend/images/files.py:37-38 | the quarantine directory is `error_dir/<MM-DD-YYYY.HH:MM:SS>` |
| ImageFiles.SaveLocallyIntoDir | pyramid_frontend/images/files.py:25-29 | into an existing directory, an open stream's contents land in the file; a closed one leaves it created empty |
| ImageFiles.FirstQuarantine | pyramid_frontend/images/files.py:37-44 | the first upload of a second creates the dated directory and stores its contents there |
| ImageFiles.LaterQuarantine | pyramid_frontend/images/files.py:39-43 | a later upload in the same second skips `makedirs` and only copies |
| ImageFiles.TwoQuarantinesInOneSecond | pyramid_frontend/images/files.py:37-44 | two uploads in one second under different names both succeed and both files hold their contents in the one directory |
| ImageFiles.QuarantineReusingClosedStream | pyramid_frontend/tests/test_files.py:32-34 | reusing the stream the first call closed makes the second call leave an empty file and fail |
| Assets.HashedFileName | pyramid_frontend/assets/asset.py:53-55 | the bundle name is the entry point's basename, a dash, the sha1 digest, a dot and the extension |
| Assets.HashedFileNameInjective | pyramid_frontend/assets/asset.py:51-55 | names agree exactly when the digests do, so equal contents give equal names and changed digests give new ones (changed contents do too only if sha1 has no collision, which is not assumed) |
| Assets.HashedFileNamePlain | pyramid_frontend/assets/asset.py:53-56 | the bundle name holds no separator, so the bundle lands directly in the output directory |
| Assets.Asset.WriteEffect | pyramid_frontend/assets/asset.py:42-70 | what `write` does to the disk and returns; `Write` is proved against it and `WriteOutcome`/`WriteIntoDirectory`/`WriteRefusesBytes` state its outcomes |
| Assets.Asset.Write | pyramid_frontend/assets/asset.py:42-70 | the disk and the result are `WriteEffect` of the old disk |
| Assets.Asset.WriteFromFile | pyramid_frontend/assets/asset.py:72-79 | a read failure is returned with the disk unchanged; otherwise the text read is written as by `write` |
| Assets.WriteRefusesBytes | pyramid_frontend/assets/asset.py:49 | byte strings fail the assertion before anything is touched |
| Assets.WriteOutcome | pyramid_frontend/assets/asset.py:56-70 | a successful `write` returns the bundle path, the map file names the bundle, the bundle holds the contents, and the only other new entries are the output directory and its ancestors |
| Assets.WriteIntoDirectory | pyramid_frontend/assets/asset.py:53-70 | into an existing plain directory `write` produces exactly `output_dir/<name>-<sha1>.<ext>` and `output_dir/<key>.map` |
| Assets.Asset.Tag | pyramid_frontend/assets/asset.py:92-96 | `tag`; `TagUsesOnlySelectedRenderer` states which renderer it uses |
| Assets.TagUsesOnlySelectedRenderer | pyramid_frontend/assets/asset.py:92-96 | `tag` returns the production renderer's output when `production` holds and the development renderer's otherwise, the other renderer playing no part |

## Left out

- `check`, `flatten_alpha`, `bounding_box`, `thumbnail`'s resampling and `placeholder`'s image encoding are PIL calls. `thumbnail` is a parameter; only the encoder-name mapping of `placeholder` is modelled.
- `image_entropy`'s value is floating-point `log2` arithmetic. It is the parameter `entropy`; only its `ZeroDivisionError` on an image without pixels is modelled.
- md5 and sha1 are parameters returning hex strings. The UTF-8 encoding of the text before hashing and writing is not modelled.
- FileSystem.ReadFile: does not raise `UnicodeDecodeError`. File contents are character strings, so bytes that are not valid UTF-8 cannot occur; the newline translation of text mode is modelled.
- FileSystem.Disk.Read: inherits that gap from `ReadFile`.
- Assets.Asset.WriteFromFile: inherits that gap from `ReadFile`.
- `Asset.run_command` (a subprocess) and `Asset.tempfile` (an operating-system temporary file) are left out.
- The clock in `save_to_error_dir` is a parameter `now`.
- Settings are a record, so the `KeyError` of a missing setting is not modelled.
- Paths are not normalised: `a//b` and `a/b` are different entries. Symbolic links are not modelled.
- The logging calls in `write` are left out.
- Floating-point rounding is not modelled. Aspect ratios and `w * 0.1` are exact reals.
- `crop_entropy`'s `thumbnail` works in place. Here it is a function returning the new image, so aliasing of the caller's image is not captured.
- `pad_image`'s `mode` argument is not modelled; images are RGB. A colour that Python treats as false (such as `0`) falls back to white there; here `color` is an option.
- Palette.ParseInt: does not accept the surrounding whitespace that Python 2's `int()` tolerates.
- A float `background` (which `int()` truncates) is not modelled: `Background` is an integer or a string.
- ImageFormats.Lower: lower-cases ASCII letters only, while Python 2's `unicode.lower()` also maps other capitals (U+0130 becomes `i`), so `EncoderName` may differ on non-ASCII extensions.
- Concurrency is not modelled. `ensure_dirs` and `save_to_error_dir` check for the directory and then create it; a second caller creating it in between makes `makedirs` raise. The model runs one call at a time.
- The transparency of a non-paletted image may be a colour tuple; here it is always a palette index. `getpalette` returning `None` is not modelled.
- pyramid_frontend/templating/renderer.py, tests/app.py, tests/test_image_view.py and setup.py are wiring, fixtures and build scripts; they are not part of this model.
- Geometry.CropToRatio: requires `ar >= 0`. A negative ratio is not an aspect ratio. PIL would give a zero-width crop for it (recent Pillow raises instead), and neither behaviour is modelled.
- Geometry.CropToRatioBox: requires `ar >= 0`, for the same reason.

## Findings

| source | as written | input that shows it | evidently intended | confidence | as-written member | corrected member |
|---|---|---|---|---|---|---|
| pyramid_frontend/tests/test_files.py:32-34 | the test hands `save_to_error_dir` the same stream twice, but `save_to_error_dir` closes its stream (pyramid_frontend/images/files.py:44), so the second call creates an empty `2.png` and then fails on `f.seek(0)` | two calls in one second with one stream, the second after the first closed it | as the test's own comment says, saving the same file twice works: a second upload in the same second is stored beside the first | high (not executed) | ImageFiles.QuarantineReusingClosedStream | ImageFiles.TwoQuarantinesInOneSecond |
