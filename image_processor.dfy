/** `ImageProcessor`: loading images and the logo, the batch loop, the directory scan
    and the choice of save parameters. The image library is reached through oracles:
    `decode` is what opening a file yields (None for a missing or unreadable file, and
    for `LoadImage` also for one over its 50 MB limit) and `written` says whether
    writing a file to disk succeeds. */
module ImageProcessor {
  import Seqs
  import opened Wrappers
  import Strings
  import Paths
  import Config
  import opened Raster
  import opened LogoPlacement

  /** `load_image(path)`: refused unless the path has an input format, then decoded and
      converted to RGB. */
  function LoadImage(path: string, decode: string -> Option<Image>): Option<Image> {
    if !Config.IsSupportedFormat(path, "input") then None
    else
      match decode(path)
      case None => None
      case Some(img) => Some(ToRgb(img))
  }

  /** A loaded image is the decoded file in RGB, and only input formats load. */
  lemma LoadImageResult(path: string, decode: string -> Option<Image>)
    ensures LoadImage(path, decode).Some? <==> Config.IsSupportedFormat(path, "input") && decode(path).Some?
    ensures LoadImage(path, decode).Some? ==>
      var img := LoadImage(path, decode).value;
      img.mode == RGB && img.width == decode(path).value.width && img.height == decode(path).value.height
  {
  }

  /** The logo as `load_logo` keeps it: RGBA when it has transparency, RGB otherwise. */
  function LogoOf(img: Image): (r: Image)
    ensures r.width == img.width && r.height == img.height && r.overlays == img.overlays
    ensures r.mode == if img.mode in {RGBA, LA} then RGBA else RGB
  {
    if img.mode == RGBA || img.mode == LA then img.(mode := RGBA) else img.(mode := RGB)
  }

  // ---------------------------------------------------------------------------
  // save_image
  // ---------------------------------------------------------------------------

  /** Keyword arguments of Pillow's `save`; both named formats also pass `optimize=True`. */
  datatype SaveParams = JpegParams(quality: int) | PngParams(compressLevel: int) | NoParams

  /** What `save_image` hands to the library: the image (flattened to RGB for JPEG)
      and the keyword arguments. */
  datatype SavePlan = SavePlan(image: Image, params: SaveParams)

  /** The save plan for a file whose lower-cased suffix is `ext`, or None when that
      is not an output format. */
  function PlanForExtension(image: Image, ext: string, quality: Option<int>): Option<SavePlan> {
    if ext !in Config.OutputFormats then None
    else if ext == ".jpg" || ext == ".jpeg" then
      var rgb := if image.mode == RGB then image else ToRgb(image);
      // `quality or 95`: a missing or zero quality selects the default
      var q := if quality.None? || quality.value == 0 then Config.JpegQuality else quality.value;
      Some(SavePlan(rgb, JpegParams(q)))
    else if ext == ".png" then Some(SavePlan(image, PngParams(Config.PngCompression)))
    else Some(SavePlan(image, NoParams))
  }

  /** The save plan for `path`: decided by its lower-cased suffix. */
  function SavePlanFor(image: Image, path: string, quality: Option<int>): Option<SavePlan> {
    PlanForExtension(image, Strings.Lower(Paths.Suffix(path)), quality)
  }

  /** `save_image(image, path, quality)`: True when the extension is an output format
      and the write succeeds. */
  function SaveImage(image: Image, path: string, quality: Option<int>, written: bool): bool {
    SavePlanFor(image, path, quality).Some? && written
  }

  /** Saving fails without writing for a non-output extension; for an output extension
      it succeeds exactly when the write does. */
  lemma SaveImageOutcome(image: Image, path: string, quality: Option<int>, written: bool)
    ensures SavePlanFor(image, path, quality).Some? <==> Config.IsSupportedFormat(path, "output")
    ensures SaveImage(image, path, quality, written) <==> Config.IsSupportedFormat(path, "output") && written
  {
  }

  /** JPEG receives the image flattened to RGB, same size and pastes, and quality 95
      unless a non-zero quality is given. */
  lemma {:induction false} SaveJpegParams(image: Image, ext: string, quality: Option<int>)
    requires ext == ".jpg" || ext == ".jpeg"
    ensures PlanForExtension(image, ext, quality).Some?
    ensures var plan := PlanForExtension(image, ext, quality).value;
      && plan.image.mode == RGB
      && plan.image.width == image.width && plan.image.height == image.height
      && plan.image.overlays == image.overlays
      && plan.params == JpegParams(if quality.None? || quality.value == 0 then 95 else quality.value)
  {
    assert ext in Config.OutputFormats by {
      assert Config.OutputFormats[0] == ".jpg" && Config.OutputFormats[1] == ".jpeg";
    }
  }

  /** PNG receives the image unchanged and compression level 6. */
  lemma {:induction false} SavePngParams(image: Image, ext: string, quality: Option<int>)
    requires ext == ".png"
    ensures PlanForExtension(image, ext, quality) == Some(SavePlan(image, PngParams(6)))
  {
    assert Config.OutputFormats[2] == ".png";
  }

  /** BMP and TIFF receive the image unchanged and no parameters. */
  lemma {:induction false} SaveOtherParams(image: Image, ext: string, quality: Option<int>)
    requires ext == ".bmp" || ext == ".tiff"
    ensures PlanForExtension(image, ext, quality) == Some(SavePlan(image, NoParams))
  {
    assert Config.OutputFormats[3] == ".bmp" && Config.OutputFormats[4] == ".tiff";
  }

  // ---------------------------------------------------------------------------
  // batch_process
  // ---------------------------------------------------------------------------

  /** `output_path / f"{stem}_with_logo.jpg"`. */
  function OutputFile(outputDir: string, imagePath: string): string {
    Paths.Join(outputDir, Paths.Stem(imagePath) + "_with_logo.jpg")
  }

  /** Every batch output lies in the output directory, is named after its input's stem
      and has the output format `.jpg`, so `save_image` never rejects it. */
  lemma {:induction false} OutputFileIsJpeg(outputDir: string, imagePath: string)
    ensures Paths.Name(OutputFile(outputDir, imagePath)) == Paths.Stem(imagePath) + "_with_logo.jpg"
    ensures Paths.Suffix(OutputFile(outputDir, imagePath)) == ".jpg"
    ensures Config.IsSupportedFormat(OutputFile(outputDir, imagePath), "output")
  {
    var out := OutputFile(outputDir, imagePath);
    var full := Paths.Stem(imagePath) + "_with_logo.jpg";
    assert Paths.Name(out) == full && '/' !in full by {
      OutputFileName(outputDir, imagePath);
    }
    assert Paths.Suffix(full) == ".jpg" by {
      StemWithLogoSuffix(Paths.Stem(imagePath));
    }
    Paths.SuffixDependsOnName(out, full);
    JpgIsOutputFormat(out);
  }

  lemma OutputFileName(outputDir: string, imagePath: string)
    ensures Paths.Name(OutputFile(outputDir, imagePath)) == Paths.Stem(imagePath) + "_with_logo.jpg"
    ensures '/' !in Paths.Stem(imagePath) + "_with_logo.jpg"
  {
    StemHasNoSlash(imagePath);
    NoSlashInConcat(Paths.Stem(imagePath), "_with_logo.jpg");
    Paths.NameOfJoin(outputDir, Paths.Stem(imagePath) + "_with_logo.jpg");
  }

  lemma StemWithLogoSuffix(stem: string)
    requires '/' !in stem
    ensures Paths.Suffix(stem + "_with_logo.jpg") == ".jpg"
  {
    var n := stem + "_with_logo";
    assert n + ".jpg" == stem + "_with_logo.jpg";
    NoSlashInConcat(stem, "_with_logo");
    Paths.SuffixOfPlainName(n, ".jpg");
  }

  lemma StemHasNoSlash(p: string)
    ensures '/' !in Paths.Stem(p)
  {
    Paths.StemThenSuffixIsName(p);
    var stem := Paths.Stem(p);
    assert forall i :: 0 <= i < |stem| ==> stem[i] == Paths.Name(p)[i];
  }

  lemma NoSlashInConcat(a: string, b: string)
    requires '/' !in a && '/' !in b
    ensures '/' !in a + b
  {
    assert forall i :: 0 <= i < |a + b| ==> (a + b)[i] == if i < |a| then a[i] else b[i - |a|];
  }

  lemma JpgIsOutputFormat(p: string)
    requires Paths.Suffix(p) == ".jpg"
    ensures Config.IsSupportedFormat(p, "output")
  {
    assert Strings.Lower(".jpg") == ".jpg";
    assert Config.OutputFormats[0] == ".jpg";
  }

  /** One iteration of the batch loop: the output path if the image loaded, took the
      logo and was saved. */
  function ProcessOne(logo: Image, path: string, outputDir: string, decode: string -> Option<Image>,
                      written: string -> bool, kw: Overrides): Option<string>
  {
    match LoadImage(path, decode)
    case None => None
    case Some(img) =>
      match ApplyLogo(Some(logo), img, kw)
      case None => None
      case Some(out) =>
        var f := OutputFile(outputDir, path);
        if SaveImage(out, f, None, written(f)) then Some(f) else None
  }

  /** Once an image loads and takes the logo, its output is kept exactly when the write
      succeeds: the `.jpg` output name is never refused by the format check. */
  lemma ProcessedItemIsKeptIffWritten(logo: Image, path: string, outputDir: string,
                                      decode: string -> Option<Image>, written: string -> bool, kw: Overrides)
    requires LoadImage(path, decode).Some?
    requires ApplyLogo(Some(logo), LoadImage(path, decode).value, kw).Some?
    ensures ProcessOne(logo, path, outputDir, decode, written, kw) ==
      if written(OutputFile(outputDir, path)) then Some(OutputFile(outputDir, path)) else None
  {
    var f := OutputFile(outputDir, path);
    OutputFileIsJpeg(outputDir, path);
    SaveImageOutcome(ApplyLogo(Some(logo), LoadImage(path, decode).value, kw).value, f, None, written(f));
  }

  /** An item fails without output when its image does not load or does not take the
      logo. */
  lemma ProcessOneFailures(logo: Image, path: string, outputDir: string,
                           decode: string -> Option<Image>, written: string -> bool, kw: Overrides)
    ensures LoadImage(path, decode).None? ==> ProcessOne(logo, path, outputDir, decode, written, kw).None?
    ensures LoadImage(path, decode).Some? && ApplyLogo(Some(logo), LoadImage(path, decode).value, kw).None? ==>
      ProcessOne(logo, path, outputDir, decode, written, kw).None?
    ensures ProcessOne(logo, path, outputDir, decode, written, kw).Some? ==>
      ProcessOne(logo, path, outputDir, decode, written, kw).value == OutputFile(outputDir, path)
  {
  }

  /** The batch loop for a given item step: the outputs of the items that produced one,
      in input order. */
  function BatchResults(step: string -> Option<string>, paths: seq<string>): seq<string> {
    if paths == [] then []
    else
      var prefix := BatchResults(step, paths[..|paths| - 1]);
      match step(paths[|paths| - 1])
      case None => prefix
      case Some(f) => prefix + [f]
  }

  /** The inputs whose step produced an output, in input order. */
  function Succeeded(step: string -> Option<string>, paths: seq<string>): seq<string> {
    if paths == [] then []
    else
      var prefix := Succeeded(step, paths[..|paths| - 1]);
      if step(paths[|paths| - 1]).Some? then prefix + [paths[|paths| - 1]] else prefix
  }

  /** The batch returns the output of each input that succeeded, in input order, so
      never more paths than inputs, and each of them comes from one of the inputs. */
  lemma {:induction false} BatchResultsAreSuccessesInOrder(step: string -> Option<string>, paths: seq<string>)
    ensures var ok := Succeeded(step, paths);
      && |ok| <= |paths|
      && |BatchResults(step, paths)| == |ok|
      && (forall i :: 0 <= i < |ok| ==> ok[i] in paths && step(ok[i]).Some? && BatchResults(step, paths)[i] == step(ok[i]).value)
  {
    if paths != [] {
      var init := paths[..|paths| - 1];
      BatchResultsAreSuccessesInOrder(step, init);
      assert forall p :: p in init ==> p in paths;
    }
  }

  /** When every item succeeds, the batch returns an output for every input, in input
      order. */
  lemma {:induction false} BatchWithoutFailures(step: string -> Option<string>, paths: seq<string>)
    requires forall p :: p in paths ==> step(p).Some?
    ensures |BatchResults(step, paths)| == |paths|
    ensures forall i :: 0 <= i < |paths| ==> BatchResults(step, paths)[i] == step(paths[i]).value
  {
    if paths != [] {
      var init := paths[..|paths| - 1];
      assert forall p :: p in init ==> p in paths;
      BatchWithoutFailures(step, init);
      assert paths[|paths| - 1] in paths;
    }
  }

  /** The item step `batch_process` uses for a given logo. */
  function BatchStep(logo: Image, outputDir: string, decode: string -> Option<Image>,
                     written: string -> bool, kw: Overrides): string -> Option<string>
  {
    p => ProcessOne(logo, p, outputDir, decode, written, kw)
  }

  // ---------------------------------------------------------------------------
  // load_images_from_directory
  // ---------------------------------------------------------------------------

  /** An entry of the recursive directory walk, in walk order. */
  datatype Entry = Entry(path: string, isFile: bool)

  /** The walk's files whose lower-cased suffix is an input format, in walk order. */
  function ImageEntries(walk: seq<Entry>): seq<string> {
    if walk == [] then []
    else
      var e := walk[|walk| - 1];
      var prefix := ImageEntries(walk[..|walk| - 1]);
      if e.isFile && Strings.Lower(Paths.Suffix(e.path)) in Config.InputFormats then prefix + [e.path] else prefix
  }

  /** A path is kept exactly when the walk meets it as a file with an input format. */
  lemma {:induction false} ImageEntriesAreTheImageFiles(walk: seq<Entry>, p: string)
    ensures p in ImageEntries(walk) <==>
      exists e :: e in walk && e.path == p && e.isFile && Config.IsSupportedFormat(p, "input")
  {
    InputFormatIsListed(p);
    if p in ImageEntries(walk) {
      var k := KeptEntry(walk, p);
      assert walk[k] in walk;
    }
    if exists e :: e in walk && e.path == p && e.isFile && Config.IsSupportedFormat(p, "input") {
      var e :| e in walk && e.path == p && e.isFile && Config.IsSupportedFormat(p, "input");
      var k :| 0 <= k < |walk| && walk[k] == e;
      ImageFileIsKept(walk, k);
    }
  }

  lemma {:induction false} KeptEntry(walk: seq<Entry>, p: string) returns (k: nat)
    requires p in ImageEntries(walk)
    ensures k < |walk| && walk[k].path == p && walk[k].isFile
    ensures Strings.Lower(Paths.Suffix(p)) in Config.InputFormats
  {
    var init := walk[..|walk| - 1];
    if p in ImageEntries(init) {
      k := KeptEntry(init, p);
    } else {
      k := |walk| - 1;
    }
  }

  lemma {:induction false} ImageFileIsKept(walk: seq<Entry>, k: nat)
    requires k < |walk| && walk[k].isFile && Strings.Lower(Paths.Suffix(walk[k].path)) in Config.InputFormats
    ensures walk[k].path in ImageEntries(walk)
  {
    var init := walk[..|walk| - 1];
    if k < |walk| - 1 {
      assert init[k] == walk[k];
      ImageFileIsKept(init, k);
    }
  }

  lemma InputFormatIsListed(p: string)
    ensures Config.IsSupportedFormat(p, "input") <==> Strings.Lower(Paths.Suffix(p)) in Config.InputFormats
  {
  }

  /** Reporting `(i, total)` after the reports `(0, total)` .. `(i - 1, total)`. */
  lemma ReportsExtended(reported: seq<(nat, nat)>, i: nat, total: nat)
    requires |reported| == i
    requires forall k :: 0 <= k < i ==> reported[k] == (k, total)
    ensures forall k :: 0 <= k < i + 1 ==> (reported + [(i, total)])[k] == (k, total)
  {
  }

  class Processor {
    /** The logo `load_logo` loaded last, if any. */
    var currentLogo: Option<Image>

    constructor ()
      ensures currentLogo == None
    {
      currentLogo := None;
    }

    /** `load_logo(path)`: succeeds for a logo format that the library opens, and then
        replaces the current logo; otherwise the current logo is kept. */
    method LoadLogo(path: string, decode: string -> Option<Image>) returns (ok: bool)
      modifies this
      ensures ok == (Config.IsSupportedFormat(path, "logo") && decode(path).Some?)
      ensures currentLogo == if ok then Some(LogoOf(decode(path).value)) else old(currentLogo)
    {
      ok := false;
      if !Config.IsSupportedFormat(path, "logo") {
        return;
      }
      match decode(path) {
        case None =>
        case Some(img) =>
          currentLogo := Some(LogoOf(img));
          ok := true;
      }
    }

    /** `batch_process`: without a logo, nothing at all. Otherwise each input is loaded,
        given the logo and saved as `<stem>_with_logo.jpg`; the saved paths come back in
        input order. With a callback, `progress(i, total)` is reported before item i
        and `progress(total, total)` once at the end. */
    method BatchProcess(imagePaths: seq<string>, outputDir: string, hasCallback: bool,
                        decode: string -> Option<Image>, written: string -> bool, kw: Overrides)
      returns (processed: seq<string>, progress: seq<(nat, nat)>)
      ensures currentLogo.None? ==> processed == [] && progress == []
      ensures currentLogo.Some? ==>
        && processed == BatchResults(BatchStep(currentLogo.value, outputDir, decode, written, kw), imagePaths)
        && |progress| == (if hasCallback then |imagePaths| + 1 else 0)
        && (forall k :: 0 <= k < |progress| ==> progress[k] == (k, |imagePaths|))
    {
      processed, progress := [], [];
      if currentLogo.None? {
        return;
      }
      var logo := currentLogo.value;
      var step := BatchStep(logo, outputDir, decode, written, kw);
      var total := |imagePaths|;
      for i := 0 to total
        invariant processed == BatchResults(step, imagePaths[..i])
        invariant |progress| == (if hasCallback then i else 0)
        invariant forall k :: 0 <= k < |progress| ==> progress[k] == (k, total)
      {
        if hasCallback {
          ReportsExtended(progress, i, total);
          progress := progress + [(i, total)];
        }
        Seqs.PrefixStep(imagePaths, i);
        var outputFile := ProcessItem(logo, imagePaths[i], outputDir, decode, written, kw);
        assert step(imagePaths[i]) == outputFile;
        if outputFile.Some? {
          processed := processed + [outputFile.value];
        }
      }
      assert imagePaths[..total] == imagePaths;
      if hasCallback {
        ReportsExtended(progress, total, total);
        progress := progress + [(total, total)];
      }
    }

    /** The body of the batch loop for one input: load it, give it the logo, save it
        under its output name; the saved path, if every step succeeded. */
    method ProcessItem(logo: Image, path: string, outputDir: string,
                       decode: string -> Option<Image>, written: string -> bool, kw: Overrides)
      returns (outputFile: Option<string>)
      ensures outputFile == ProcessOne(logo, path, outputDir, decode, written, kw)
      ensures outputFile.Some? ==> outputFile.value == OutputFile(outputDir, path)
    {
      outputFile := None;
      var image := LoadImage(path, decode);
      if image.None? {
        return;
      }
      var result := ApplyLogo(Some(logo), image.value, kw);
      if result.None? {
        return;
      }
      var f := OutputFile(outputDir, path);
      if SaveImage(result.value, f, None, written(f)) {
        outputFile := Some(f);
      }
    }

    /** `load_images_from_directory`: nothing for a missing directory; otherwise the
        walk's image files, sorted. */
    method LoadImagesFromDirectory(dirExists: bool, walk: seq<Entry>) returns (paths: seq<string>)
      ensures !dirExists ==> paths == []
      ensures dirExists ==> Strings.Sorted(paths) && multiset(paths) == multiset(ImageEntries(walk))
      ensures forall p :: p in paths ==> Config.IsSupportedFormat(p, "input")
    {
      if !dirExists {
        return [];
      }
      var imagePaths := [];
      for i := 0 to |walk|
        invariant imagePaths == ImageEntries(walk[..i])
      {
        Seqs.PrefixStep(walk, i);
        var e := walk[i];
        if e.isFile && Strings.Lower(Paths.Suffix(e.path)) in Config.InputFormats {
          imagePaths := imagePaths + [e.path];
        }
      }
      assert walk[..|walk|] == walk;
      paths := Strings.Sort(imagePaths);
      forall p | p in paths ensures Config.IsSupportedFormat(p, "input") {
        assert p in multiset(imagePaths);
        ImageEntriesAreTheImageFiles(walk, p);
      }
    }
  }
}
