# LogoMaster Pro — a verified model of its logic

LogoMaster Pro is a desktop application that stamps a logo onto photos. The user loads
images and a logo, chooses an anchor, size, opacity and margin in a settings panel,
applies the logo to the image on show or to all loaded images in a batch, and saves the
results. This project models, in Dafny, the logic around the imaging library and proves
properties of it:

- **Logo placement** (`ImageProcessor.apply_logo`), in module `LogoPlacement`:
  - the merge of the caller's keyword arguments over the defaults;
  - the logo size `int(W * size)` by `int(h0 * (w / w0))`;
  - the nine-anchor table with its margin rule;
  - the clamp into the image, and the paste itself.
- **The processor**, class `ImageProcessor.Processor`:
  - `load_logo`, which sets the current logo;
  - the `batch_process` loop with its progress reports;
  - the directory scan `load_images_from_directory`, which filters and sorts;
  - the dispatch of `save_image` on the extension.
- **The name and bookkeeping helpers of `utils.py`**, in module `Utils`:
  - `format_file_size` and `format_duration`;
  - `get_unique_filename` and `safe_filename`;
  - `find_duplicate_files`;
  - the retention rule of `cleanup_old_backups`.
- **The configuration tables and lookups of `config.py`**, in module `Config`.
- **The state machine of the main window `LogoMasterApp`**, in module `App`, with the widgets removed:
  - loading files, the logo and the cache of processed images;
  - navigation, batch runs and saving;
  - the button-enablement rules.

Helper modules:

- `Strings` covers Python's `lower`, `rfind`, string order, `sorted` and the decimal printing of integers.
- `Paths` covers `basename`, `suffix`, `stem` and joining, with `/` as the separator.
- `Raster` reduces a Pillow image to its size, mode and the pastes made onto it.
- `Wrappers` holds the `Option` type.
- `Seqs` holds one lemma about sequence prefixes.

Integers are unbounded, as in Python. `size`, `opacity`, times and file sizes are Dafny
`real`s, i.e. exact rationals. `int()` is modelled as truncation toward zero (`Trunc`).

Everything the program gets from outside is a parameter:

- `decode` stands for what opening a file yields: None for a missing or unreadable file. The 50 MB limit belongs to `load_image` alone (image_processor.py:73-76); in the model it is folded into the `decode` that `LoadImage` sees, as `load_logo` has no such check.
- `written` says whether a write to disk succeeds.
- `fileOk` covers the checks of `validate_image_file` other than the format: the file exists, is small enough, and opens as an image of bounded size.
- `hash` is the file hash, None when the file cannot be read.
- `unlink` says whether a deletion succeeds.
- The set of existing paths, the directory walk, the modification times and the current time are plain inputs.
- The dialogs' answers are string parameters, where "" means cancelled.
- `viewerHasImage` is whether the image viewer currently shows an image.

Points where a reader might expect otherwise; the model follows the code:

- Sizes and positions are computed with `int()`, i.e. truncation toward zero, not rounding.
- `apply_logo` performs no range check on `size` or `opacity`, although its docstring gives
  both as 0.0-1.0: a size above 1 or a negative margin is simply used.
- Four handlers of the main window raise before doing their work, as listed under
  "## Findings". Each is modelled as written, next to the corrected version that the
  rest of the model uses.
- `size` and the scale `w / w0` are exact rationals, not doubles (see "## Left out").

## Model

| member | source | states |
|---|---|---|
| Config.SupportedFormats | config.py:80-86 | an unknown format type has no formats (`.get(format_type, [])`) |
| Config.UnknownFormatTypeSupportsNothing | config.py:330-343 | for a format type other than input/output/logo no path is supported |
| Config.SupportedPathHasListedSuffix | config.py:330-343 | a supported path has a non-empty suffix whose lower-cased form is one of the listed extensions |
| Config.IsSupportedFormatIgnoresCase | config.py:341-343 | format detection gives the same answer for a path and its lower-cased form |
| Config.SuffixIgnoresCase | config.py:341 | the suffix of the lower-cased path is the lower-cased suffix |
| Config.OutputAndLogoFormatsAreInputFormats | config.py:82-86 | every output or logo format is also an input format |
| Config.RelValue | config.py:106-116 | every anchor coordinate is 0, 0.5 or 1, so it lies in [0, 1] |
| Config.AnchorTableIsBijective | config.py:106-116 | the nine anchors have distinct coordinate pairs, and each of the nine (x, y) combinations of {0, ½, 1} belongs to exactly one anchor |
| Config.AnchorTableShape | config.py:106-129 | `LOGO_POSITIONS` has exactly nine keys; `POSITION_NAMES` has the same key set; the default `bottom_right` is at (1, 1) |
| Config.GetColor | config.py:294-304 | a known name gives its table colour, an unknown one `#000000` |
| Config.GetColorIsHexColor | config.py:294-304 | every colour `get_color` can return is a well-formed `#rrggbb` |
| Config.GetFont | config.py:306-316 | a known name gives its font, an unknown one `FONTS['default']`, the pair ('Segoe UI', 9), modelled with style `""` for the absent third element |
| Config.GetFontIsTableFont | config.py:306-316 | every result of `get_font` is a table font with a positive point size |
| Config.GetSize | config.py:318-328 | a known name gives its size, an unknown one 0 |
| Config.GetSizeIsNonNegative | config.py:318-328 | no result of `get_size` is negative |
| Config.GetConfig | config.py:265-292 | no section gives the whole map; a known section gives that section; an unknown one gives `{}` |
| Config.GetConfigFindsEverySection | config.py:276-292 | looking up any section's name returns that section |
| Config.SectionNamesLeadBack | config.py:276-289 | each key names its own section, so no section is filed under two names |
| Config.GetConfigWithoutSectionHasTwelve | config.py:276-292 | without a section the full map of twelve sections is returned |
| LogoPlacement.MergeIsKeyByKey | image_processor.py:284-291 | each setting is the caller's value when passed and otherwise the default (bottom_right, 0.1, 0.8, 20); a custom position only comes from the caller |
| LogoPlacement.MergeDefaultsAndFullOverride | image_processor.py:44-49 | passing nothing yields exactly the defaults; passing every key yields exactly those values |
| LogoPlacement.Trunc | image_processor.py:298-299 | `int()` truncates toward zero: `t <= r < t + 1` for r >= 0 and `t - 1 < r <= t` for r < 0 |
| LogoPlacement.ScaledWidth | image_processor.py:298 | the model's width, the truncation of the exact product W · size, is at most W whenever size <= 1 |
| LogoPlacement.ScaledHeight | image_processor.py:299 | the model's height h, the truncation of the exact h0 · (w / w0), satisfies `h * w0 <= h0 * w < (h + 1) * w0`, i.e. keeps the ratio h0/w0 up to truncation |
| LogoPlacement.LogoKeepsAspectRatio | image_processor.py:297-305 | in exact arithmetic a resized logo is trunc(W · size) wide, has both sides at least 1, keeps its aspect ratio up to truncation, and is no wider than the image when size <= 1 |
| LogoPlacement.LogoDimsFailure | image_processor.py:297-305 | the resize fails exactly for a logo of width 0 or a side below one pixel |
| LogoPlacement.AnchorOf | image_processor.py:321-324 | a known anchor gives its table coordinates; an unknown one gives bottom_right's (1, 1) |
| LogoPlacement.UnknownAnchorIsBottomRight | image_processor.py:321-324 | a position name missing from the table places the logo exactly as `bottom_right` does |
| LogoPlacement.MarginRule | image_processor.py:327-339 | per axis: margin added at rel 0, subtracted at rel 1, ignored at ½, where the offset is half the free space truncated toward zero (also for negative space) |
| LogoPlacement.ZeroMarginTouchesEdges | image_processor.py:327-343 | with margin 0 and a fitting logo the edge anchors touch their edge and the middle anchor sits at half the free space |
| LogoPlacement.LargerMarginMovesInward | image_processor.py:331-343 | a larger margin never moves the logo toward the edge its anchor is on |
| LogoPlacement.Clamp | image_processor.py:342-343 | `max(0, min(v, space))` lies in [0, space] when space >= 0, is 0 when space < 0, and leaves in-range values alone |
| LogoPlacement.PositionIsClamped | image_processor.py:318-343 | after clamping 0 <= x <= W - w when w <= W and x = 0 when w > W, the same on y, for anchors and custom positions alike |
| LogoPlacement.CustomPositionIsOnlyClamped | image_processor.py:318-343 | a custom position skips anchor and margin and is only clamped |
| LogoPlacement.ApplyLogoResult | image_processor.py:278-352 | no logo → None; otherwise a result exists iff the resize succeeds, and it is the image with the same size and mode, earlier pastes kept, and one more paste of the computed size at the computed position, with alpha scaled by the opacity and the alpha mask used when opacity < 1, and at opacity 1 masked iff the logo is RGBA |
| LogoPlacement.AppliedLogoStaysInside | image_processor.py:341-349 | the paste starts inside the image and, on each axis where the logo fits, ends inside it |
| LogoPlacement.BottomRightScenario | image_processor.py:262-352 | a 200x100 logo at 20% of a 1000x800 image, bottom right, margin 20, opacity 1 is pasted 200x100 at (780, 680) through its mask |
| ImageProcessor.LoadImageResult | image_processor.py:63-101 | an image loads iff its path has an input format and it decodes; the result is RGB with the decoded size |
| ImageProcessor.LogoOf | image_processor.py:245-253 | the logo keeps its size; RGBA and LA become RGBA, every other mode RGB |
| ImageProcessor.Processor.LoadLogo | image_processor.py:225-260 | succeeds iff the path has a logo format and decodes, and then replaces the current logo; otherwise the current logo is kept |
| ImageProcessor.SaveImageOutcome | image_processor.py:397-435 | a save plan exists iff the extension is an output format; saving succeeds iff that holds and the write succeeds |
| ImageProcessor.SaveJpegParams | image_processor.py:409-421 | .jpg/.jpeg get the image flattened to RGB (same size and pastes) and quality `quality or 95` |
| ImageProcessor.SavePngParams | image_processor.py:423-425 | .png gets the image unchanged and compression level 6 |
| ImageProcessor.SaveOtherParams | image_processor.py:406-428 | .bmp and .tiff get the image unchanged and no extra parameters |
| ImageProcessor.OutputFileIsJpeg | image_processor.py:478-481 | a batch output is named `<stem>_with_logo.jpg` inside the output directory, has suffix `.jpg`, and is an output format |
| ImageProcessor.ProcessedItemIsKeptIffWritten | image_processor.py:467-482 | once an image loads and takes the logo, its output path is kept exactly when the write succeeds |
| ImageProcessor.ProcessOneFailures | image_processor.py:467-475 | an image that does not load or does not take the logo yields nothing; any output is that item's `OutputFile` |
| ImageProcessor.BatchResultsAreSuccessesInOrder | image_processor.py:455-492 | the batch returns one output per succeeding input, in input order, each from one of the inputs, so at most `total` paths |
| ImageProcessor.BatchWithoutFailures | image_processor.py:461-482 | when every item succeeds, there is one output per input, in input order |
| ImageProcessor.Processor.BatchProcess | image_processor.py:437-492 | no logo → [] and no callback at all; otherwise the outputs are `BatchResults` of the item step over the inputs, and with a callback the reports are exactly (0, n), …, (n-1, n), (n, n) |
| ImageProcessor.Processor.ProcessItem | image_processor.py:467-482 | one loop iteration: load, apply the logo, save; the saved path is the item's `OutputFile` |
| ImageProcessor.ImageEntriesAreTheImageFiles | image_processor.py:127-129 | a path is collected iff the walk meets it as a file with an input format |
| ImageProcessor.Processor.LoadImagesFromDirectory | image_processor.py:117-137 | a missing directory gives []; otherwise the result is sorted, a permutation of the collected files, and every entry has an input format |
| Strings.Sort | image_processor.py:131 | `list.sort()` on strings: the result is sorted and a permutation of the input |
| Strings.DecimalRoundTrip | utils.py:144 | the decimal counter printed into a file name reads back as the same number |
| Paths.StemThenSuffixIsName | image_processor.py:478 | stem followed by suffix is the file name |
| Paths.NameOfJoin | image_processor.py:479 | joining a directory with a plain name keeps that name as the last component |
| Utils.FormatFileSize | utils.py:61-82 | "0 Б" exactly for 0; otherwise the unit is the largest k <= 4 with 1024^k <= n and the printed value times 1024^k is n |
| Utils.FormatDurationUnit | utils.py:443-460 | the printed number in its unit equals the duration; seconds below 60, minutes below 3600, hours beyond, with a minute or hour count at least 1 |
| Utils.GetUniqueFilename | utils.py:127-148 | the result is the name of the first candidate path (`base+ext`, then `base_k+ext` for k = 1, 2, …) that does not exist, and the loop ends |
| Utils.UniqueFilenameIsFree | utils.py:139-148 | for a plain base and extension the name is `base+ext` exactly when that path is free, else `base_k+ext` for the smallest free k; it is never an existing path |
| Utils.FirstFreeIsUnique | utils.py:143-146 | only one candidate is the first free one |
| Utils.CandidatesFitInExisting | utils.py:143-146 | the counter never exceeds the number of existing paths, as the candidates are pairwise distinct |
| Utils.SafeFilename | utils.py:462-487 | the result is never empty and contains none of `<>:"/\|?*`; it is the strip-and-shorten of the name with each such character replaced by `_` |
| Utils.ReplaceInvalidChars | utils.py:473-477 | the loop over the invalid characters replaces each of them, at every position, by `_` and leaves every other character |
| Utils.StripAndShorten | utils.py:480-487 | never empty, and keeps a name free of invalid characters free of them |
| Utils.StripAndShortenShortName | utils.py:480-487 | for a name up to 200 characters after the strip: `unnamed` exactly when nothing survives (or the name is `unnamed`), else the stripped name, which ends in neither `.` nor space |
| Utils.RStrip | utils.py:480 | `rstrip('. ')` is the longest prefix not ending in `.` or space, and only those characters are removed |
| Utils.SplitExt | utils.py:484 | `splitext` splits the name into root + extension, the extension empty or a dot with no further dot |
| Utils.LongNameIsShortened | utils.py:483-485 | a stripped name over 200 characters becomes its first 200 - len(ext) characters plus its extension, exactly 200 characters when the extension has at most 200, never `unnamed`, and not ending in `.` or space when it has an extension |
| Utils.StripAndShortenLongName | utils.py:483-485 | a name over 200 characters after the strip is shortened |
| Utils.FindDuplicateFiles | utils.py:333-367 | a hash is a key iff it is non-empty and at least two files have it; its group is exactly those files, in walk order |
| Utils.GroupMembers | utils.py:353-360 | a group holds exactly the walked files with its hash |
| Utils.GroupStartsWithFirstSeen | utils.py:354-360 | the first path of a group is the first walked file with that hash |
| Utils.GroupKeepsWalkOrder | utils.py:347-358 | grouping `a + b` is grouping `a` followed by grouping `b`, so later files come later |
| Utils.NewestFirstIsSortedPermutation | utils.py:203 | the ranking is in non-increasing mtime order and a permutation of the listed files |
| Utils.CleanupOldBackups | utils.py:186-233 | a missing directory deletes nothing; otherwise the names removed are those of the newest-first ranking the rule condemns and `unlink` removes |
| Utils.DeletedFollowsRule | utils.py:210-227 | a name is removed iff its file's age exceeds max_age_days·86400 or its rank is >= max_count, and the unlink succeeds |
| Utils.AtMostMaxCountSurvive | utils.py:210-227 | when every unlink succeeds at most max(0, max_count) files survive |
| App.KeywordsOf | ui_components.py:822-837 | an untouched panel passes no keyword; a touched one passes position, size, opacity and margin and never a custom position |
| App.PanelSettingsInEffect | main.py:566-571 | an untouched panel leaves the defaults (bottom_right, 0.1, 0.8, 20); a touched one decides all four settings |
| App.ValidFilesMembers | main.py:460-468 | a path is kept iff it is one of the inputs and passes `validate_image_file` |
| App.ValidFilesKeepOrder | main.py:463-466 | filtering keeps the input order: filtering `a + b` is filtering `a` followed by filtering `b` |
| App.LogoMasterApp.constructor | main.py:54-59 | a fresh processor with no logo, no images, index 0, empty cache, both flags false |
| App.LogoMasterApp.LoadImageFiles | main.py:452-480 | the valid files are kept in order; with none the state is untouched, otherwise they replace the images, the index becomes 0 and the cache is cleared |
| App.LogoMasterApp.LoadImages | main.py:424-450 | corrected `_load_images`: the chosen files go to `_load_image_files`; with no valid file the state is untouched, otherwise they replace the images, the index becomes 0 and the cache is cleared |
| App.LogoMasterApp.LoadImagesAsWritten | main.py:424-450 | `_load_images` as written: it raises exactly when `last_open_dir` is not a key of the paths section, and then nothing changes; otherwise it acts as `LoadImages` |
| Config.DialogStartDirsAreNotFilePaths | config.py:147-153 | `get_config('paths')` is `FILE_PATHS`, whose keys include none of `last_open_dir`, `last_logo_dir` and `last_save_dir` |
| App.LogoMasterApp.LoadLogo | main.py:502-545 | corrected `_load_logo`: the logo flag is set exactly when the chosen file validates and loads as a logo; nothing else changes |
| App.LogoMasterApp.LoadLogoAsWritten | main.py:502-545 | `_load_logo` as written: it raises exactly when `last_logo_dir` is not a key of the paths section, and then loads nothing and leaves the logo flag as it was; otherwise it acts as `LoadLogo` |
| App.NewEntryFacts | main.py:551-579 | no logo → no entry; the cached original is reused, otherwise the file is loaded; the entry records the settings and a result of the original's size with one more paste |
| App.LogoMasterApp.ApplyLogoToCurrent | main.py:547-579 | without images or a logo nothing changes; otherwise only the current file's entry is replaced, by `NewEntry`, when that succeeds |
| App.LogoMasterApp.ProcessCurrent | main.py:555-579 | the entry computed for the current file is `NewEntry` of the cache before the call |
| App.LogoMasterApp.BatchProcessAsWritten | main.py:600-680 | `_batch_process` as written: with images and a logo it raises exactly when `last_save_dir` is not a key of the paths section, and then runs nothing and returns []; otherwise it acts as `BatchProcess` |
| App.LogoMasterApp.BatchProcess | main.py:600-680 | corrected `_batch_process`: without images, a logo or a chosen directory nothing runs; otherwise the processor's batch over all loaded images with the panel's settings is returned and the processing flag is clear again |
| App.LogoMasterApp.PrevImage | main.py:929-937 | the index moves to `PrevTarget`; nothing else changes |
| App.LogoMasterApp.NextImage | main.py:939-947 | the index moves to `NextTarget`; nothing else changes |
| App.NavigationAgreesWithMoves | main.py:1013-1029 | prev/next move the index by exactly one or not at all and keep it in range; a button is enabled iff pressing it moves the index; the counter is `index+1 / total`, or `0 / 0` without images |
| App.ProcessingLocksActions | main.py:1031-1051 | while processing, load, apply, batch and save are all disabled |
| App.NoLogoNoWork | main.py:1031-1051 | without a logo, apply and batch are disabled; without a processed image, save is disabled |
| App.LogoMasterApp.EnabledActionsHaveWork | main.py:1031-1051 | apply and batch are enabled only with images and a logo in the processor; save only when a loaded image has a cache entry |
| App.SuggestedNameIsBatchName | main.py:735-736 | the name the save dialog proposes is the batch run's output name for the same file |
| App.SaveDialogRejectsInitialFilename | main.py:738-746 | the keywords passed to the save dialog include `initialfilename`, which is not among the options Tk's save dialog accepts; with `initialfile` instead all are accepted |
| App.LogoMasterApp.SaveCurrentImageAsWritten | main.py:718-763 | `_save_current_image` as written: for a processed current image the dialog call is rejected exactly when Tk refuses one of the keywords as written, and then nothing is saved; otherwise it acts as `SaveCurrentImage` |
| App.LogoMasterApp.SaveCurrentImage | main.py:718-763 | corrected `_save_current_image`, the proposed name passed as `initialfile`: without images or a processed current image nothing is saved; a cancelled dialog saves nothing; otherwise the outcome is `save_image`'s, which succeeds only for an output format whose write succeeds |

## Findings

Each as-written method takes the keys of `get_config('paths')` as `pathKeys`. `Config.DialogStartDirsAreNotFilePaths` shows that the program's `Config.FilePathKeys` lacks every key the handlers look up, so with that argument each of them raises.

| source | as written | input that shows it | evidently intended | confidence | as-written member | corrected member |
|---|---|---|---|---|---|---|
| main.py:438 | `get_config('paths')['last_open_dir']` is looked up, but `FILE_PATHS` (config.py:147-153) has no such key, so the `KeyError` caught at main.py:448 is raised before the dialog opens | any click on "load images" | open the dialog, in a remembered directory, and load the chosen files | high; not executed | App.LogoMasterApp.LoadImagesAsWritten with Config.DialogStartDirsAreNotFilePaths | App.LogoMasterApp.LoadImages |
| main.py:517 | `get_config('paths')['last_logo_dir']` is looked up, but `FILE_PATHS` has no such key, so the `KeyError` caught at main.py:543 is raised and `logo_loaded` is never set; by `App.NoLogoNoWork`, apply and batch then stay disabled | any click on "load logo" | open the dialog and load the chosen logo | high; not executed | App.LogoMasterApp.LoadLogoAsWritten with Config.DialogStartDirsAreNotFilePaths | App.LogoMasterApp.LoadLogo |
| main.py:611 | `get_config('paths')['last_save_dir']` is looked up, but `FILE_PATHS` has no such key, so the `KeyError` caught at main.py:678 is raised before the processing flag is set or the worker starts | a batch run with images and a logo loaded | ask for the output directory and run the batch | high; not executed | App.LogoMasterApp.BatchProcessAsWritten with Config.DialogStartDirsAreNotFilePaths | App.LogoMasterApp.BatchProcess |
| main.py:741 | `asksaveasfilename` gets the keyword `initialfilename`, which tkinter passes to Tk as `-initialfilename`; Tk's save dialog knows only `-initialfile`, so a `TclError` caught at main.py:761 is raised and nothing is saved | saving a processed current image | propose `<stem>_with_logo.jpg` through `initialfile` and save to the chosen path | medium (Tk's option list is not among the repository's files); not executed | App.LogoMasterApp.SaveCurrentImageAsWritten with App.SaveDialogRejectsInitialFilename | App.LogoMasterApp.SaveCurrentImage |

## Left out

- Pixel work of Pillow: the LANCZOS resize, the alpha scaling by `ImageEnhance`, compositing in `paste`, and the mode conversions. An image is its size, mode and the list of pastes made onto it; a paste records position, size, alpha factor and whether a mask was used.
- LoadImage: the `thumbnail` shrink of images larger than 8192x8192 (image_processor.py:92-95) is not modelled; the decode oracle is taken to yield the image at the size it is loaded with.
- `create_preview`, thumbnails, the zoom factor and the fit scale of the viewer: floating-point image scaling done by the library or the UI.
- The `.1f` text of `format_file_size` and `format_duration`: the model returns the number and the unit index, not the formatted string.
- Utils.FormatFileSize: `float(size_bytes)` is exact in the model; the rounding of very large byte counts to a double is not modelled.
- Exceptions thrown by the file system other than those covered by the oracles, e.g. an error in the middle of `load_images_from_directory`, which in the code would return the paths collected so far.
- The `mkdir` calls in `save_image`, `batch_process` and config.py:143-144; directory creation is taken to succeed.
- Paths use `/` as the only separator, so Windows paths with `\` are not modelled. `lower()` is modelled for ASCII letters only.
- The worker thread of `_batch_process`: the model runs the batch to completion synchronously, so `isProcessing` is only observable as restored afterwards. The progress dialog and its cancellation are UI.
- `_save_all_processed`, `_save_to_zip`, `_on_closing`, drag and drop, `_display_current_image` and `_update_image_info`: dialogs, zip I/O and display code.
- All of ui_components.py except the contents of `SettingsPanel.settings`: widgets, colours and dialogs are UI.
- I/O helpers of utils.py: `download_image`, zip helpers, `calculate_file_hash` (an oracle here), `get_available_space`, `copy_with_progress`, JSON, temp cleanup, logging and `PerformanceTimer`.
- Utils.NewestFirstIsSortedPermutation: states order and permutation of the ranking; that equal mtimes keep their listing order (the stability of `list.sort`) follows from `InsertByAge` but is not stated as a lemma.
- Utils.CleanupOldBackups: `stat()` failures are not modelled; the modification times are inputs.
- The range of `size` and `opacity` is not validated, in the code or the model.
- LogoPlacement.ScaledWidth, LogoPlacement.ScaledHeight, LogoPlacement.LogoKeepsAspectRatio: `W * size` and `h0 * (w / w0)` are computed exactly. The rounding of IEEE doubles is not modelled, so the source's sides can be one pixel smaller than the model's: `int(100 * 0.29)` is 28, and for a 7x7 logo scaled to width 61 the height `int(7 * (61 / 7))` is 60. The truncation bounds these members state hold for the exact values only.
- ImageProcessor.Processor.LoadLogo: it shares the `decode` input with `LoadImage`, in which the 50 MB limit of `load_image` is folded. A logo over 50 MB, which `load_logo` would accept, is therefore not distinguished.
- The same `initialfilename` keyword in `_save_to_zip` (main.py:841) is not modelled, as that handler is left out.
