/** The state of the main window `LogoMasterApp` with its widgets stripped: the loaded
    image list, the index of the image on show, the cache of processed images, and the
    logo and processing flags, together with the transitions the toolbar and the
    navigation buttons trigger and the enablement rules the window applies. */
module App {
  import Seqs
  import opened Wrappers
  import Config
  import Paths
  import opened Raster
  import opened LogoPlacement
  import opened ImageProcessor

  // ---------------------------------------------------------------------------
  // The settings panel
  // ---------------------------------------------------------------------------

  /** What `SettingsPanel.get_settings` hands out: an empty dictionary until one of the
      panel's widgets has changed, and from then on all four values. */
  datatype PanelSettings =
    | Untouched
    | Touched(position: string, size: real, opacity: real, margin: int)

  /** The panel's settings as the keyword arguments `apply_logo(image, **settings)` gets. */
  function KeywordsOf(p: PanelSettings): (kw: Overrides)
    ensures p.Untouched? ==> kw == NoOverrides
    ensures p.Touched? ==>
      kw == Overrides(Some(p.position), Some(p.size), Some(p.opacity), Some(p.margin), None)
  {
    match p
    case Untouched => NoOverrides
    case Touched(position, size, opacity, margin) =>
      Overrides(Some(position), Some(size), Some(opacity), Some(margin), None)
  }

  /** An untouched panel leaves every setting at its default (bottom right, a tenth of
      the width, opacity 0.8, margin 20); a touched one decides all four, and neither
      ever passes a custom position. */
  lemma PanelSettingsInEffect(p: PanelSettings)
    ensures p.Untouched? ==> Merge(KeywordsOf(p)) == Settings("bottom_right", 0.1, 0.8, 20, None)
    ensures p.Touched? ==>
      Merge(KeywordsOf(p)) == Settings(p.position, p.size, p.opacity, p.margin, None)
  {
    MergeIsKeyByKey(KeywordsOf(p));
  }

  // ---------------------------------------------------------------------------
  // Loading files
  // ---------------------------------------------------------------------------

  /** `validate_image_file(path)`: an input format, and `fileOk` for the checks on the
      file itself (it exists, is small enough, opens as an image of bounded size). */
  predicate ValidateImageFile(path: string, fileOk: string -> bool) {
    Config.IsSupportedFormat(path, "input") && fileOk(path)
  }

  /** The paths of `paths` for which `keep` holds, in their order. */
  function Kept(keep: string -> bool, paths: seq<string>): seq<string> {
    if paths == [] then []
    else
      var rest := Kept(keep, paths[..|paths| - 1]);
      if keep(paths[|paths| - 1]) then rest + [paths[|paths| - 1]] else rest
  }

  /** The paths of `paths` that pass validation, in their order. */
  function ValidFiles(paths: seq<string>, fileOk: string -> bool): seq<string> {
    Kept(p => ValidateImageFile(p, fileOk), paths)
  }

  lemma {:induction false} KeptMembers(keep: string -> bool, paths: seq<string>, p: string)
    ensures p in Kept(keep, paths) <==> p in paths && keep(p)
    decreases |paths|
  {
    if paths != [] {
      var init := paths[..|paths| - 1];
      KeptMembers(keep, init, p);
      assert paths == init + [paths[|paths| - 1]];
    }
  }

  lemma {:induction false} KeptConcat(keep: string -> bool, a: seq<string>, b: seq<string>)
    ensures Kept(keep, a + b) == Kept(keep, a) + Kept(keep, b)
    decreases |b|
  {
    if b == [] {
      assert a + b == a;
    } else {
      var init := b[..|b| - 1];
      KeptConcat(keep, a, init);
      assert (a + b)[..|a + b| - 1] == a + init;
    }
  }

  /** A path is kept exactly when it is one of the inputs and passes validation. */
  lemma ValidFilesMembers(paths: seq<string>, fileOk: string -> bool, p: string)
    ensures p in ValidFiles(paths, fileOk) <==> p in paths && ValidateImageFile(p, fileOk)
  {
    KeptMembers(p => ValidateImageFile(p, fileOk), paths, p);
  }

  /** Filtering keeps the inputs' order: filtering two lists one after the other is
      filtering their concatenation. */
  lemma ValidFilesKeepOrder(a: seq<string>, b: seq<string>, fileOk: string -> bool)
    ensures ValidFiles(a + b, fileOk) == ValidFiles(a, fileOk) + ValidFiles(b, fileOk)
  {
    KeptConcat(p => ValidateImageFile(p, fileOk), a, b);
  }

  // ---------------------------------------------------------------------------
  // Navigation and enablement
  // ---------------------------------------------------------------------------

  /** The index is that of a loaded image, or 0 when there are none. */
  predicate ValidIndex(images: seq<string>, index: int) {
    if images == [] then index == 0 else 0 <= index < |images|
  }

  /** Where `_prev_image` leaves the index. */
  function PrevTarget(images: seq<string>, index: int): int {
    if images != [] && index > 0 then index - 1 else index
  }

  /** Where `_next_image` leaves the index. */
  function NextTarget(images: seq<string>, index: int): int {
    if images != [] && index < |images| - 1 then index + 1 else index
  }

  /** The counter `current / total` and the states of the previous and next buttons. */
  datatype NavigationView = NavigationView(current: int, total: nat, prevEnabled: bool, nextEnabled: bool)

  /** `_update_navigation_state`. */
  function Navigation(images: seq<string>, index: int): NavigationView {
    if images != [] then NavigationView(index + 1, |images|, index > 0, index < |images| - 1)
    else NavigationView(0, 0, false, false)
  }

  /** Each move shifts the index by exactly one or not at all, and never out of range; a
      navigation button is enabled exactly when pressing it would move the index, and
      the counter shows a position between 1 and the total, or 0 / 0 for no images. */
  lemma {:induction false} NavigationAgreesWithMoves(images: seq<string>, index: int)
    requires ValidIndex(images, index)
    ensures ValidIndex(images, PrevTarget(images, index)) && ValidIndex(images, NextTarget(images, index))
    ensures PrevTarget(images, index) == index || PrevTarget(images, index) == index - 1
    ensures NextTarget(images, index) == index || NextTarget(images, index) == index + 1
    ensures Navigation(images, index).prevEnabled <==> PrevTarget(images, index) != index
    ensures Navigation(images, index).nextEnabled <==> NextTarget(images, index) != index
    ensures images == [] ==> Navigation(images, index) == NavigationView(0, 0, false, false)
    ensures images != [] ==>
      1 <= Navigation(images, index).current <= Navigation(images, index).total == |images|
  {
  }

  /** The enabled state of the toolbar and viewer buttons. */
  datatype ButtonStates = ButtonStates(
    loadImages: bool, loadLogo: bool, applyLogo: bool, batch: bool, save: bool,
    zoomIn: bool, zoomOut: bool, fit: bool)

  /** `_update_ui_state`; `viewerHasImage` is whether the viewer currently shows one. */
  function Buttons(hasImages: bool, hasLogo: bool, hasProcessed: bool, isProcessing: bool,
                   viewerHasImage: bool): ButtonStates {
    var working := hasImages && hasLogo && !isProcessing;
    var viewing := hasImages && viewerHasImage;
    ButtonStates(!isProcessing, !isProcessing, working, working, hasProcessed && !isProcessing,
                 viewing, viewing, viewing)
  }

  /** While a batch runs, no action that changes the images or the logo can be started:
      only the viewer's zoom buttons may stay enabled. */
  lemma ProcessingLocksActions(hasImages: bool, hasLogo: bool, hasProcessed: bool, viewerHasImage: bool)
    ensures var b := Buttons(hasImages, hasLogo, hasProcessed, true, viewerHasImage);
      !b.loadImages && !b.loadLogo && !b.applyLogo && !b.batch && !b.save
  {
  }

  /** Without a logo neither apply nor batch can be started, and with no processed image
      nothing can be saved, whatever else holds. */
  lemma NoLogoNoWork(hasImages: bool, hasLogo: bool, hasProcessed: bool, isProcessing: bool,
                     viewerHasImage: bool)
    ensures !Buttons(hasImages, false, hasProcessed, isProcessing, viewerHasImage).applyLogo
    ensures !Buttons(hasImages, false, hasProcessed, isProcessing, viewerHasImage).batch
    ensures !Buttons(hasImages, hasLogo, false, isProcessing, viewerHasImage).save
  {
  }

  // ---------------------------------------------------------------------------
  // The cache of processed images
  // ---------------------------------------------------------------------------

  /** One entry of `processed_images`: the original, the result, and the settings used. */
  datatype CacheEntry = CacheEntry(original: Image, processed: Image, settings: PanelSettings)

  /** The image `_apply_logo_to_current` starts from: the cached original when the file
      has been processed before, otherwise the file freshly loaded. */
  function OriginalFor(file: string, cache: map<string, CacheEntry>, decode: string -> Option<Image>): Option<Image> {
    if file in cache then Some(cache[file].original) else LoadImage(file, decode)
  }

  /** The cache entry `_apply_logo_to_current` writes for `file`, if it writes one. */
  function NewEntry(file: string, cache: map<string, CacheEntry>, logo: Option<Image>,
                    decode: string -> Option<Image>, panel: PanelSettings): Option<CacheEntry> {
    match OriginalFor(file, cache, decode)
    case None => None
    case Some(original) =>
      match ApplyLogo(logo, original, KeywordsOf(panel))
      case None => None
      case Some(processed) => Some(CacheEntry(original, processed, panel))
  }

  /** Applying the logo again to a processed file starts from its cached original, so
      earlier pastes do not pile up; a new file starts from the loaded input. The entry
      records the panel's settings and a result of the original's size with exactly one
      more paste. Without a logo no entry is written. */
  lemma {:induction false} NewEntryFacts(file: string, cache: map<string, CacheEntry>, logo: Option<Image>,
                                         decode: string -> Option<Image>, panel: PanelSettings)
    ensures logo.None? ==> NewEntry(file, cache, logo, decode, panel).None?
    ensures file !in cache && !Config.IsSupportedFormat(file, "input") ==>
      NewEntry(file, cache, logo, decode, panel).None?
    ensures NewEntry(file, cache, logo, decode, panel).Some? ==>
      var e := NewEntry(file, cache, logo, decode, panel).value;
      && e.settings == panel
      && (file in cache ==> e.original == cache[file].original)
      && (file !in cache ==> LoadImage(file, decode) == Some(e.original))
      && e.processed.width == e.original.width && e.processed.height == e.original.height
      && |e.processed.overlays| == |e.original.overlays| + 1
  {
    LoadImageResult(file, decode);
    match OriginalFor(file, cache, decode)
    case None =>
    case Some(original) =>
      ApplyLogoResult(logo, original, KeywordsOf(panel));
  }

  // ---------------------------------------------------------------------------
  // Saving the current image
  // ---------------------------------------------------------------------------

  /** How `_save_current_image` ends. */
  datatype SaveOutcome = NoImages | NotProcessed | DialogRejected | Cancelled | Saved(ok: bool)

  /** The file name the save dialog proposes. */
  function SuggestedSaveName(file: string): string {
    Paths.Stem(file) + "_with_logo.jpg"
  }

  /** The proposed name is the one a batch run writes for the same file. */
  lemma SuggestedNameIsBatchName(outputDir: string, file: string)
    ensures OutputFile(outputDir, file) == Paths.Join(outputDir, SuggestedSaveName(file))
  {
  }

  /** The options Tk's save dialog `tk_getSaveFile` accepts, by the keyword names of
      `filedialog.asksaveasfilename`: tkinter hands each keyword `k` to Tk as the option
      `-k`, and Tk rejects any other option with a `TclError`. */
  const SaveDialogOptions: set<string> :=
    {"confirmoverwrite", "defaultextension", "filetypes", "initialdir", "initialfile",
     "parent", "title", "typevariable"}

  /** The keywords `_save_current_image` passes to the save dialog as written. */
  const SaveKeywordsAsWritten: set<string> := {"title", "defaultextension", "initialfilename", "filetypes"}

  /** The keywords it evidently means to pass, the proposed name given as `initialfile`. */
  const SaveKeywords: set<string> := {"title", "defaultextension", "initialfile", "filetypes"}

  /** Tk refuses the keywords as written, because of `initialfilename`, and accepts the
      intended ones. */
  lemma SaveDialogRejectsInitialFilename()
    ensures "initialfilename" in SaveKeywordsAsWritten && "initialfilename" !in SaveDialogOptions
    ensures !(SaveKeywordsAsWritten <= SaveDialogOptions)
    ensures SaveKeywords <= SaveDialogOptions
  {
  }

  // ---------------------------------------------------------------------------
  // The application
  // ---------------------------------------------------------------------------

  class LogoMasterApp {
    const processor: Processor
    var currentImages: seq<string>
    var currentImageIndex: int
    var processedImages: map<string, CacheEntry>
    var logoLoaded: bool
    var isProcessing: bool

    /** The index points at a loaded image, only loaded images are cached, and the logo
        flag is set only when the processor holds a logo. */
    ghost predicate Valid()
      reads this, processor
    {
      && ValidIndex(currentImages, currentImageIndex)
      && (forall f :: f in processedImages ==> f in currentImages)
      && (logoLoaded ==> processor.currentLogo.Some?)
    }

    /** A window with nothing loaded. */
    constructor ()
      ensures Valid() && fresh(processor)
      ensures processor.currentLogo == None
      ensures currentImages == [] && currentImageIndex == 0 && processedImages == map[]
      ensures !logoLoaded && !isProcessing
    {
      processor := new Processor();
      currentImages := [];
      currentImageIndex := 0;
      processedImages := map[];
      logoLoaded := false;
      isProcessing := false;
    }

    /** `_load_image_files`: keeps the valid files in their order; when there are none
        nothing changes, otherwise they replace the loaded images, the first is shown
        and the cache is emptied. */
    method LoadImageFiles(filePaths: seq<string>, fileOk: string -> bool)
      requires Valid()
      modifies this
      ensures Valid()
      ensures ValidFiles(filePaths, fileOk) == [] ==>
        currentImages == old(currentImages) && currentImageIndex == old(currentImageIndex)
        && processedImages == old(processedImages)
      ensures ValidFiles(filePaths, fileOk) != [] ==>
        currentImages == ValidFiles(filePaths, fileOk) && currentImageIndex == 0
        && processedImages == map[]
      ensures logoLoaded == old(logoLoaded) && isProcessing == old(isProcessing)
    {
      var keep := p => ValidateImageFile(p, fileOk);
      var validFiles := [];
      for i := 0 to |filePaths|
        invariant validFiles == Kept(keep, filePaths[..i])
        invariant unchanged(this)
      {
        Seqs.PrefixStep(filePaths, i);
        if keep(filePaths[i]) {
          validFiles := validFiles + [filePaths[i]];
        }
      }
      assert filePaths[..|filePaths|] == filePaths;
      if validFiles == [] {
        return;
      }
      currentImages := validFiles;
      currentImageIndex := 0;
      processedImages := map[];
    }

    /** `_load_images` with `files` the dialog's answer ([] when cancelled), the dialog
        opened without a start directory taken from the configuration: chosen files go
        to `_load_image_files`, so the state changes only when one of them is valid. */
    method LoadImages(files: seq<string>, fileOk: string -> bool)
      requires Valid()
      modifies this
      ensures Valid()
      ensures ValidFiles(files, fileOk) == [] ==>
        currentImages == old(currentImages) && currentImageIndex == old(currentImageIndex)
        && processedImages == old(processedImages)
      ensures ValidFiles(files, fileOk) != [] ==>
        currentImages == ValidFiles(files, fileOk) && currentImageIndex == 0
        && processedImages == map[]
      ensures logoLoaded == old(logoLoaded) && isProcessing == old(isProcessing)
    {
      if files != [] {
        LoadImageFiles(files, fileOk);
      }
    }

    /** `_load_images` as written: the dialog's start directory is
        `get_config('paths')['last_open_dir']`, where `pathKeys` stands for the keys of
        `get_config('paths')` (`Config.FilePathKeys`). When the key is missing the lookup
        raises before the dialog opens, the handler reports the error, and nothing
        changes; otherwise the call is `LoadImages`. */
    method LoadImagesAsWritten(pathKeys: set<string>, files: seq<string>, fileOk: string -> bool)
      returns (raised: bool)
      requires Valid()
      modifies this
      ensures Valid()
      ensures raised <==> "last_open_dir" !in pathKeys
      ensures raised ==> unchanged(this)
      ensures !raised && ValidFiles(files, fileOk) == [] ==>
        currentImages == old(currentImages) && currentImageIndex == old(currentImageIndex)
        && processedImages == old(processedImages)
      ensures !raised && ValidFiles(files, fileOk) != [] ==>
        currentImages == ValidFiles(files, fileOk) && currentImageIndex == 0
        && processedImages == map[]
      ensures logoLoaded == old(logoLoaded) && isProcessing == old(isProcessing)
    {
      raised := "last_open_dir" !in pathKeys;
      if raised {
        return;
      }
      LoadImages(files, fileOk);
    }

    /** `_load_logo` with `path` the dialog's answer ("" when cancelled): the file must
        pass validation and then load as a logo; only then is the logo flag set. */
    method LoadLogo(path: string, fileOk: string -> bool, decode: string -> Option<Image>) returns (ok: bool)
      requires Valid()
      modifies this, processor
      ensures Valid()
      ensures ok == (path != "" && ValidateImageFile(path, fileOk)
                     && Config.IsSupportedFormat(path, "logo") && decode(path).Some?)
      ensures processor.currentLogo == if ok then Some(LogoOf(decode(path).value)) else old(processor.currentLogo)
      ensures logoLoaded == (old(logoLoaded) || ok)
      ensures currentImages == old(currentImages) && currentImageIndex == old(currentImageIndex)
      ensures processedImages == old(processedImages) && isProcessing == old(isProcessing)
    {
      ok := false;
      if path == "" || !ValidateImageFile(path, fileOk) {
        return;
      }
      ok := processor.LoadLogo(path, decode);
      if ok {
        logoLoaded := true;
      }
    }

    /** `_load_logo` as written: the dialog's start directory is
        `get_config('paths')['last_logo_dir']`, with `pathKeys` the keys of
        `get_config('paths')` (`Config.FilePathKeys`). When the key is missing the lookup
        raises before the dialog opens and nothing changes, so the logo flag is never
        set; otherwise the call is `LoadLogo`. */
    method LoadLogoAsWritten(pathKeys: set<string>, path: string, fileOk: string -> bool,
                             decode: string -> Option<Image>) returns (raised: bool, ok: bool)
      requires Valid()
      modifies this, processor
      ensures Valid()
      ensures raised <==> "last_logo_dir" !in pathKeys
      ensures raised ==> !ok && unchanged(this) && unchanged(processor)
      ensures !raised ==>
        && ok == (path != "" && ValidateImageFile(path, fileOk)
                  && Config.IsSupportedFormat(path, "logo") && decode(path).Some?)
        && processor.currentLogo == (if ok then Some(LogoOf(decode(path).value)) else old(processor.currentLogo))
        && logoLoaded == (old(logoLoaded) || ok)
      ensures currentImages == old(currentImages) && currentImageIndex == old(currentImageIndex)
      ensures processedImages == old(processedImages) && isProcessing == old(isProcessing)
    {
      ok := false;
      raised := "last_logo_dir" !in pathKeys;
      if raised {
        return;
      }
      ok := LoadLogo(path, fileOk, decode);
    }

    /** `_apply_logo_to_current` with the panel's current settings: without images or a
        logo nothing happens; otherwise the current file's entry is replaced by
        `NewEntry` when that succeeds, and no other entry and no other field changes. */
    method ApplyLogoToCurrent(decode: string -> Option<Image>, panel: PanelSettings) returns (applied: bool)
      requires Valid()
      modifies this
      ensures Valid()
      ensures currentImages == old(currentImages) && currentImageIndex == old(currentImageIndex)
      ensures logoLoaded == old(logoLoaded) && isProcessing == old(isProcessing)
      ensures currentImages == [] || !logoLoaded ==> !applied && processedImages == old(processedImages)
      ensures currentImages != [] && logoLoaded ==>
        var file := currentImages[currentImageIndex];
        var e := NewEntry(file, old(processedImages), processor.currentLogo, decode, panel);
        && applied == e.Some?
        && processedImages == if e.Some? then old(processedImages)[file := e.value] else old(processedImages)
    {
      applied := false;
      if currentImages == [] || !logoLoaded {
        return;
      }
      var currentFile := currentImages[currentImageIndex];
      var entry := ProcessCurrent(currentFile, decode, panel);
      if entry.Some? {
        processedImages := processedImages[currentFile := entry.value];
        applied := true;
      }
    }

    /** The work `_apply_logo_to_current` does for `file`: start from the cached
        original or load the file, then apply the logo. */
    method ProcessCurrent(file: string, decode: string -> Option<Image>, panel: PanelSettings)
      returns (entry: Option<CacheEntry>)
      ensures entry == NewEntry(file, processedImages, processor.currentLogo, decode, panel)
    {
      var image: Image;
      if file !in processedImages {
        var loaded := LoadImage(file, decode);
        if loaded.None? {
          return None;
        }
        image := loaded.value;
      } else {
        image := processedImages[file].original;
      }
      var processedImage := ApplyLogo(processor.currentLogo, image, KeywordsOf(panel));
      if processedImage.None? {
        return None;
      }
      entry := Some(CacheEntry(image, processedImage.value, panel));
    }

    /** `_batch_process` with the worker run to completion: without images or a logo, or
        with the directory dialog cancelled (""), nothing happens; otherwise every loaded
        image goes through the processor's batch run with the panel's settings and the
        processing flag is set for its duration. */
    method BatchProcess(outputDir: string, decode: string -> Option<Image>, written: string -> bool,
                        panel: PanelSettings) returns (processedFiles: seq<string>)
      requires Valid()
      modifies this
      ensures Valid()
      ensures currentImages == old(currentImages) && currentImageIndex == old(currentImageIndex)
      ensures processedImages == old(processedImages) && logoLoaded == old(logoLoaded)
      ensures currentImages == [] || !logoLoaded || outputDir == "" ==>
        processedFiles == [] && isProcessing == old(isProcessing)
      ensures currentImages != [] && logoLoaded && outputDir != "" ==>
        && processedFiles == BatchResults(BatchStep(processor.currentLogo.value, outputDir, decode, written,
                                                    KeywordsOf(panel)), currentImages)
        && !isProcessing
    {
      processedFiles := [];
      if currentImages == [] || !logoLoaded || outputDir == "" {
        return;
      }
      isProcessing := true;
      var progress;
      processedFiles, progress := processor.BatchProcess(currentImages, outputDir, true, decode, written,
                                                         KeywordsOf(panel));
      isProcessing := false;
    }

    /** `_batch_process` as written: once images and a logo are present, the directory
        dialog's start directory is `get_config('paths')['last_save_dir']`, with
        `pathKeys` the keys of `get_config('paths')` (`Config.FilePathKeys`). When the
        key is missing the lookup raises before the processing flag is set or the worker
        starts, and nothing runs; otherwise the call is `BatchProcess`. */
    method BatchProcessAsWritten(pathKeys: set<string>, outputDir: string, decode: string -> Option<Image>,
                                 written: string -> bool, panel: PanelSettings)
      returns (raised: bool, processedFiles: seq<string>)
      requires Valid()
      modifies this
      ensures Valid()
      ensures raised <==> old(currentImages) != [] && old(logoLoaded) && "last_save_dir" !in pathKeys
      ensures raised ==> processedFiles == [] && unchanged(this)
      ensures currentImages == old(currentImages) && currentImageIndex == old(currentImageIndex)
      ensures processedImages == old(processedImages) && logoLoaded == old(logoLoaded)
      ensures !raised && (currentImages == [] || !logoLoaded || outputDir == "") ==>
        processedFiles == [] && isProcessing == old(isProcessing)
      ensures !raised && currentImages != [] && logoLoaded && outputDir != "" ==>
        && processedFiles == BatchResults(BatchStep(processor.currentLogo.value, outputDir, decode, written,
                                                    KeywordsOf(panel)), currentImages)
        && !isProcessing
    {
      raised := currentImages != [] && logoLoaded && "last_save_dir" !in pathKeys;
      if raised {
        processedFiles := [];
        return;
      }
      processedFiles := BatchProcess(outputDir, decode, written, panel);
    }

    /** `_prev_image`. */
    method PrevImage()
      requires Valid()
      modifies this
      ensures Valid()
      ensures currentImageIndex == PrevTarget(old(currentImages), old(currentImageIndex))
      ensures currentImages == old(currentImages) && processedImages == old(processedImages)
      ensures logoLoaded == old(logoLoaded) && isProcessing == old(isProcessing)
    {
      if currentImages != [] && currentImageIndex > 0 {
        currentImageIndex := currentImageIndex - 1;
      }
    }

    /** `_next_image`. */
    method NextImage()
      requires Valid()
      modifies this
      ensures Valid()
      ensures currentImageIndex == NextTarget(old(currentImages), old(currentImageIndex))
      ensures currentImages == old(currentImages) && processedImages == old(processedImages)
      ensures logoLoaded == old(logoLoaded) && isProcessing == old(isProcessing)
    {
      if currentImages != [] && currentImageIndex < |currentImages| - 1 {
        currentImageIndex := currentImageIndex + 1;
      }
    }

    /** The buttons `_update_ui_state` enables in this state. */
    function UiState(viewerHasImage: bool): ButtonStates
      reads this
    {
      Buttons(currentImages != [], logoLoaded, processedImages != map[], isProcessing, viewerHasImage)
    }

    /** An enabled button has work to do: apply and batch find a current image and a
        logo in the processor, and save finds a processed image among the loaded ones. */
    lemma EnabledActionsHaveWork(viewerHasImage: bool)
      requires Valid()
      ensures UiState(viewerHasImage).applyLogo ==> currentImages != [] && processor.currentLogo.Some?
      ensures UiState(viewerHasImage).batch ==> currentImages != [] && processor.currentLogo.Some?
      ensures UiState(viewerHasImage).save ==>
        currentImages != [] && exists f :: f in processedImages && f in currentImages
    {
      if UiState(viewerHasImage).save {
        var f :| f in processedImages;
        assert f in currentImages;
      }
    }

    /** `_save_current_image` with `chosenPath` the dialog's answer ("" when cancelled)
        and `written` whether the file system accepts the write; `suggested` is the
        name the dialog proposes, passed as `initialfile`. Only a processed current
        image is saved. */
    method SaveCurrentImage(chosenPath: string, written: bool) returns (outcome: SaveOutcome, suggested: Option<string>)
      requires Valid()
      ensures currentImages == [] ==> outcome == NoImages && suggested == None
      ensures currentImages != [] && currentImages[currentImageIndex] !in processedImages ==>
        outcome == NotProcessed && suggested == None
      ensures currentImages != [] && currentImages[currentImageIndex] in processedImages ==>
        var file := currentImages[currentImageIndex];
        && suggested == Some(SuggestedSaveName(file))
        && outcome == if chosenPath == "" then Cancelled
                      else Saved(SaveImage(processedImages[file].processed, chosenPath, None, written))
      ensures outcome == Saved(true) ==> Config.IsSupportedFormat(chosenPath, "output") && written
    {
      if currentImages == [] {
        return NoImages, None;
      }
      var currentFile := currentImages[currentImageIndex];
      if currentFile !in processedImages {
        return NotProcessed, None;
      }
      suggested := Some(SuggestedSaveName(currentFile));
      if chosenPath == "" {
        return Cancelled, suggested;
      }
      var processed := processedImages[currentFile].processed;
      SaveImageOutcome(processed, chosenPath, None, written);
      outcome := Saved(SaveImage(processed, chosenPath, None, written));
    }
  
    /** `_save_current_image` as written: the dialog gets the keywords
        `SaveKeywordsAsWritten`, and when Tk refuses one of them the dialog raises, the
        handler reports the error, and nothing is saved; otherwise the call is
        `SaveCurrentImage`. */
    method SaveCurrentImageAsWritten(chosenPath: string, written: bool)
      returns (outcome: SaveOutcome, suggested: Option<string>)
      requires Valid()
      ensures currentImages == [] ==> outcome == NoImages && suggested == None
      ensures currentImages != [] && currentImages[currentImageIndex] !in processedImages ==>
        outcome == NotProcessed && suggested == None
      ensures currentImages != [] && currentImages[currentImageIndex] in processedImages ==>
        var file := currentImages[currentImageIndex];
        && suggested == Some(SuggestedSaveName(file))
        && (outcome == DialogRejected <==> !(SaveKeywordsAsWritten <= SaveDialogOptions))
        && (outcome != DialogRejected ==>
              outcome == if chosenPath == "" then Cancelled
                         else Saved(SaveImage(processedImages[file].processed, chosenPath, None, written)))
    {
      if currentImages == [] || currentImages[currentImageIndex] !in processedImages
         || SaveKeywordsAsWritten <= SaveDialogOptions {
        outcome, suggested := SaveCurrentImage(chosenPath, written);
        return;
      }
      return DialogRejected, Some(SuggestedSaveName(currentImages[currentImageIndex]));
    }
  }
}
