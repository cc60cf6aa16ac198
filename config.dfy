/** The application's configuration tables and the lookups over them (config.py).
    Hard-coded tables are constants; every lookup falls back to a fixed default. */
module Config {
  import Strings
  import Paths

  // ---------------------------------------------------------------------------
  // Image-processing settings (IMAGE_CONFIG)
  // ---------------------------------------------------------------------------

  const InputFormats: seq<string> := [".jpg", ".jpeg", ".png", ".bmp", ".tiff", ".tif", ".webp"]
  const OutputFormats: seq<string> := [".jpg", ".jpeg", ".png", ".bmp", ".tiff"]
  const LogoFormats: seq<string> := [".png", ".jpg", ".jpeg", ".bmp", ".tiff"]

  const MaxImageWidth: nat := 8192
  const MaxImageHeight: nat := 8192
  const MaxFileSizeMb: nat := 50
  const JpegQuality: int := 95
  const PngCompression: int := 6

  /** Default logo width as a fraction of the image width (10%). */
  const DefaultLogoSize: real := 0.1
  /** Default logo opacity (80%). */
  const DefaultOpacity: real := 0.8
  const DefaultPosition: string := "bottom_right"
  /** Default distance of the logo from the image edges, in pixels. */
  const LogoMargin: int := 20

  /** `IMAGE_CONFIG['supported_formats'].get(format_type, [])`. */
  function SupportedFormats(formatType: string): (r: seq<string>)
    ensures formatType !in {"input", "output", "logo"} ==> r == []
  {
    if formatType == "input" then InputFormats
    else if formatType == "output" then OutputFormats
    else if formatType == "logo" then LogoFormats
    else []
  }

  /** `is_supported_format(path, format_type)`: the lower-cased final suffix is listed
      for that format type. */
  predicate IsSupportedFormat(path: string, formatType: string) {
    Strings.Lower(Paths.Suffix(path)) in SupportedFormats(formatType)
  }

  lemma UnknownFormatTypeSupportsNothing(path: string, formatType: string)
    requires formatType !in {"input", "output", "logo"}
    ensures !IsSupportedFormat(path, formatType)
  {
  }

  /** A supported path has a non-empty suffix, and that suffix is one of the listed
      extensions up to letter case. */
  lemma SupportedPathHasListedSuffix(path: string, formatType: string)
    requires IsSupportedFormat(path, formatType)
    ensures Paths.Suffix(path) != []
    ensures exists ext :: ext in SupportedFormats(formatType) && Strings.Lower(Paths.Suffix(path)) == ext
  {
    var ext := Strings.Lower(Paths.Suffix(path));
    ListedFormatsAreNonEmpty(ext, formatType);
  }

  lemma ListedFormatsAreNonEmpty(ext: string, formatType: string)
    requires ext in SupportedFormats(formatType)
    ensures ext != []
  {
  }

  /** Every format that can be saved or used as a logo can also be opened as an input. */
  lemma {:induction false} OutputAndLogoFormatsAreInputFormats(path: string)
    ensures IsSupportedFormat(path, "output") ==> IsSupportedFormat(path, "input")
    ensures IsSupportedFormat(path, "logo") ==> IsSupportedFormat(path, "input")
  {
    ListedFormatsAreInputFormats(Strings.Lower(Paths.Suffix(path)));
  }

  lemma ListedFormatsAreInputFormats(e: string)
    ensures e in OutputFormats ==> e in InputFormats
    ensures e in LogoFormats ==> e in InputFormats
  {
    var f := InputFormats;
    assert OutputFormats == f[..5];
    assert LogoFormats == [f[2], f[0], f[1], f[3], f[4]];
    if e in LogoFormats {
      assert e == f[2] || e == f[0] || e == f[1] || e == f[3] || e == f[4];
    }
  }

  lemma LowerIdempotent(s: string)
    ensures Strings.Lower(Strings.Lower(s)) == Strings.Lower(s)
  {
  }

  lemma {:induction false} RFindIgnoresCase(s: string, c: char)
    requires c == '/' || c == '.'
    ensures Strings.RFind(Strings.Lower(s), c) == Strings.RFind(s, c)
  {
    var t := Strings.Lower(s);
    assert forall j :: 0 <= j < |s| ==> (t[j] == c <==> s[j] == c);
  }

  lemma LowerSlices(s: string, k: nat)
    requires k <= |s|
    ensures Strings.Lower(s)[k..] == Strings.Lower(s[k..])
    ensures Strings.Lower(s)[..k] == Strings.Lower(s[..k])
  {
  }

  lemma {:induction false} SuffixIgnoresCase(p: string)
    ensures Paths.Suffix(Strings.Lower(p)) == Strings.Lower(Paths.Suffix(p))
  {
    RFindIgnoresCase(p, '/');
    LowerSlices(p, Strings.RFind(p, '/') + 1);
    assert Paths.Name(Strings.Lower(p)) == Strings.Lower(Paths.Name(p));
    var n := Paths.Name(p);
    RFindIgnoresCase(n, '.');
    assert Paths.SuffixDot(Strings.Lower(n)) == Paths.SuffixDot(n);
    var i := Paths.SuffixDot(n);
    if i >= 0 {
      LowerSlices(n, i);
    }
  }

  /** Format detection does not depend on the letter case of the path. */
  lemma {:induction false} IsSupportedFormatIgnoresCase(path: string, formatType: string)
    ensures IsSupportedFormat(Strings.Lower(path), formatType) == IsSupportedFormat(path, formatType)
  {
    SuffixIgnoresCase(path);
    LowerIdempotent(Paths.Suffix(path));
  }

  // ---------------------------------------------------------------------------
  // Logo anchors (LOGO_POSITIONS, POSITION_NAMES)
  // ---------------------------------------------------------------------------

  /** A relative coordinate of an anchor: 0, 0.5 or 1 of the free space. */
  datatype Rel = Zero | Half | One

  function RelValue(r: Rel): (v: real)
    ensures 0.0 <= v <= 1.0
  {
    match r
    case Zero => 0.0
    case Half => 0.5
    case One => 1.0
  }

  /** Anchor name to (relative x, relative y). */
  const LogoPositions: map<string, (Rel, Rel)> := map[
    "top_left" := (Zero, Zero),
    "top_center" := (Half, Zero),
    "top_right" := (One, Zero),
    "center_left" := (Zero, Half),
    "center" := (Half, Half),
    "center_right" := (One, Half),
    "bottom_left" := (Zero, One),
    "bottom_center" := (Half, One),
    "bottom_right" := (One, One)
  ]

  /** Anchor name to the label shown in the settings panel. */
  const PositionNames: map<string, string> := map[
    "top_left" := "Верх слева",
    "top_center" := "Верх по центру",
    "top_right" := "Верх справа",
    "center_left" := "Центр слева",
    "center" := "По центру",
    "center_right" := "Центр справа",
    "bottom_left" := "Низ слева",
    "bottom_center" := "Низ по центру",
    "bottom_right" := "Низ справа"
  ]

  const AnchorNames: set<string> := {
    "top_left", "top_center", "top_right", "center_left", "center",
    "center_right", "bottom_left", "bottom_center", "bottom_right"
  }

  /** The anchor whose relative coordinates are (rx, ry). */
  function AnchorAt(rx: Rel, ry: Rel): string {
    match (rx, ry)
    case (Zero, Zero) => "top_left"
    case (Half, Zero) => "top_center"
    case (One, Zero) => "top_right"
    case (Zero, Half) => "center_left"
    case (Half, Half) => "center"
    case (One, Half) => "center_right"
    case (Zero, One) => "bottom_left"
    case (Half, One) => "bottom_center"
    case (One, One) => "bottom_right"
  }

  /** Every (x, y) combination of 0, 0.5 and 1 has exactly one anchor: looking an
      anchor's coordinates up again gives back the anchor, and each combination is
      the coordinates of its anchor. So the nine anchors have distinct coordinates. */
  lemma {:induction false} AnchorTableIsBijective(name: string, rx: Rel, ry: Rel)
    ensures name in LogoPositions ==> AnchorAt(LogoPositions[name].0, LogoPositions[name].1) == name
    ensures AnchorAt(rx, ry) in LogoPositions && LogoPositions[AnchorAt(rx, ry)] == (rx, ry)
  {
    if name in LogoPositions {
      assert name == "top_left" || name == "top_center" || name == "top_right"
        || name == "center_left" || name == "center" || name == "center_right"
        || name == "bottom_left" || name == "bottom_center" || name == "bottom_right";
    }
  }

  /** The table has nine anchors, labels for exactly those anchors, and the default
      anchor `bottom_right` at (1, 1). */
  lemma {:induction false} AnchorTableShape()
    ensures LogoPositions.Keys == AnchorNames && |LogoPositions| == 9
    ensures PositionNames.Keys == LogoPositions.Keys
    ensures DefaultPosition in LogoPositions && LogoPositions[DefaultPosition] == (One, One)
  {
    AnchorKeys();
    NineAnchors();
    assert |LogoPositions| == |LogoPositions.Keys|;
  }

  lemma AnchorKeys()
    ensures LogoPositions.Keys == AnchorNames && PositionNames.Keys == AnchorNames
  {
  }

  lemma NineAnchors()
    ensures |AnchorNames| == 9
  {
  }

  // ---------------------------------------------------------------------------
  // Colours, fonts, sizes and the configuration sections
  // ---------------------------------------------------------------------------

  const Colors: map<string, string> := map[
    "primary" := "#2E3440",
    "primary_dark" := "#242933",
    "primary_darker" := "#1a1f26",
    "secondary" := "#3B4252",
    "secondary_dark" := "#2f3541",
    "secondary_darker" := "#252a35",
    "accent" := "#5E81AC",
    "success" := "#A3BE8C",
    "warning" := "#EBCB8B",
    "error" := "#BF616A",
    "danger" := "#BF616A",
    "background" := "#ECEFF4",
    "surface" := "#FFFFFF",
    "white" := "#FFFFFF",
    "text" := "#2E3440",
    "text_primary" := "#2E3440",
    "text_secondary" := "#4C566A",
    "border" := "#D8DEE9",
    "hover" := "#E5E9F0"
  ]

  predicate IsHexDigit(c: char) {
    '0' <= c <= '9' || 'a' <= c <= 'f' || 'A' <= c <= 'F'
  }

  /** A colour written `#rrggbb`. */
  predicate IsHexColor(s: string) {
    |s| == 7 && s[0] == '#' && forall i :: 1 <= i < 7 ==> IsHexDigit(s[i])
  }

  /** `get_color(name)`: the colour of that name, or black for an unknown name. */
  function GetColor(name: string): (r: string)
    ensures name in Colors ==> r == Colors[name]
    ensures name !in Colors ==> r == "#000000"
  {
    if name in Colors then Colors[name] else "#000000"
  }

  /** Whatever name is asked for, `get_color` yields a well-formed `#rrggbb` colour. */
  lemma {:induction false} GetColorIsHexColor(name: string)
    ensures IsHexColor(GetColor(name))
  {
    if name in Colors {
      ColorIsListedValue(name);
      ListedValuesAreHex(Colors[name]);
    } else {
      assert IsHexDigit('0');
    }
  }

  /** The fifteen distinct colours the table uses. */
  const ColorValues: set<string> := {
    "#2E3440", "#242933", "#1a1f26", "#3B4252", "#2f3541", "#252a35", "#5E81AC", "#A3BE8C",
    "#EBCB8B", "#BF616A", "#ECEFF4", "#FFFFFF", "#4C566A", "#D8DEE9", "#E5E9F0"
  }

  lemma ColorIsListedValue(name: string)
    requires name in Colors
    ensures Colors[name] in ColorValues
  {
    assert name == "primary" || name == "primary_dark" || name == "primary_darker"
      || name == "secondary" || name == "secondary_dark" || name == "secondary_darker"
      || name == "accent" || name == "success" || name == "warning" || name == "error"
      || name == "danger" || name == "background" || name == "surface" || name == "white"
      || name == "text" || name == "text_primary" || name == "text_secondary"
      || name == "border" || name == "hover";
  }

  lemma ListedValuesAreHex(v: string)
    requires v in ColorValues
    ensures IsHexColor(v)
  {
  }

  /** A font tuple: family, point size and an optional style. */
  datatype Font = Font(family: string, points: nat, style: string)

  const Fonts: map<string, Font> := map[
    "default" := Font("Segoe UI", 9, ""),
    "heading" := Font("Segoe UI", 12, "bold"),
    "button" := Font("Segoe UI", 9, ""),
    "status" := Font("Segoe UI", 8, ""),
    "monospace" := Font("Consolas", 9, "")
  ]

  /** `get_font(name)`: the font of that name, or the default font. */
  function GetFont(name: string): (r: Font)
    ensures name in Fonts ==> r == Fonts[name]
    ensures name !in Fonts ==> r == Fonts["default"] && r == Font("Segoe UI", 9, "")
  {
    if name in Fonts then Fonts[name] else Fonts["default"]
  }

  /** Every font `get_font` can return is a table entry with a positive point size. */
  lemma {:induction false} GetFontIsTableFont(name: string)
    ensures GetFont(name) in Fonts.Values && GetFont(name).points > 0
  {
    assert "default" in Fonts;
    if name in Fonts {
      assert name == "default" || name == "heading" || name == "button" || name == "status"
        || name == "monospace";
    }
  }

  /** An entry of SIZES: a pixel count, or a (width, height) pair. */
  datatype SizeValue = Pixels(n: int) | Dimensions(width: int, height: int)

  const Sizes: map<string, SizeValue> := map[
    "padding" := Pixels(10),
    "margin" := Pixels(5),
    "button_height" := Pixels(32),
    "button_width" := Pixels(120),
    "toolbar_height" := Pixels(40),
    "status_height" := Pixels(25),
    "sidebar_width" := Pixels(300),
    "preview_size" := Dimensions(400, 300)
  ]

  /** `get_size(name)`: the size of that name, or 0 for an unknown name. */
  function GetSize(name: string): (r: SizeValue)
    ensures name in Sizes ==> r == Sizes[name]
    ensures name !in Sizes ==> r == Pixels(0)
  {
    if name in Sizes then Sizes[name] else Pixels(0)
  }

  /** `get_size` never yields a negative size. */
  lemma {:induction false} GetSizeIsNonNegative(name: string)
    ensures match GetSize(name)
      case Pixels(n) => n >= 0
      case Dimensions(w, h) => w >= 0 && h >= 0
  {
    if name in Sizes {
      assert name == "padding" || name == "margin" || name == "button_height"
        || name == "button_width" || name == "toolbar_height" || name == "status_height"
        || name == "sidebar_width" || name == "preview_size";
    }
  }

  /** The configuration tables `get_config` knows about. */
  datatype Section =
    | AppSection | ColorsSection | FontsSection | SizesSection | ImageSection | PerformanceSection
    | NetworkSection | UiSection | HotkeysSection | MessagesSection | PathsSection | LoggingSection

  const ConfigSections: map<string, Section> := map[
    "app" := AppSection,
    "colors" := ColorsSection,
    "fonts" := FontsSection,
    "sizes" := SizesSection,
    "image" := ImageSection,
    "performance" := PerformanceSection,
    "network" := NetworkSection,
    "ui" := UiSection,
    "hotkeys" := HotkeysSection,
    "messages" := MessagesSection,
    "paths" := PathsSection,
    "logging" := LoggingSection
  ]

  /** The keys of `FILE_PATHS`, the dictionary the "paths" section holds; its values,
      paths under the installation directory, are not modelled. */
  const FilePathKeys: set<string> := {"user_config", "recent_files", "log_file", "temp_dir", "assets_dir"}

  /** What `get_config` returns: the whole section map, one section, or `{}`. */
  datatype ConfigView = AllSections(sections: map<string, Section>) | OneSection(section: Section) | NoSection

  /** `get_config(section)`; the empty name stands for both `None` and `''`, which
      are falsy and select the whole map. */
  function GetConfig(section: string): (r: ConfigView)
    ensures section == "" ==> r == AllSections(ConfigSections)
    ensures section != "" && section in ConfigSections ==> r == OneSection(ConfigSections[section])
    ensures section != "" && section !in ConfigSections ==> r == NoSection
  {
    if section == "" then AllSections(ConfigSections)
    else if section in ConfigSections then OneSection(ConfigSections[section])
    else NoSection
  }

  /** The name under which `get_config` files a section. */
  function SectionName(t: Section): string {
    match t
    case AppSection => "app"
    case ColorsSection => "colors"
    case FontsSection => "fonts"
    case SizesSection => "sizes"
    case ImageSection => "image"
    case PerformanceSection => "performance"
    case NetworkSection => "network"
    case UiSection => "ui"
    case HotkeysSection => "hotkeys"
    case MessagesSection => "messages"
    case PathsSection => "paths"
    case LoggingSection => "logging"
  }

  /** Every section is filed under its own name: `get_config` of a section's name
      returns that section. */
  lemma GetConfigFindsEverySection(t: Section)
    ensures GetConfig(SectionName(t)) == OneSection(t)
  {
  }

  /** Every known name leads back to itself, so no section is filed twice. */
  lemma {:induction false} SectionNamesLeadBack(name: string)
    ensures name in ConfigSections ==> SectionName(ConfigSections[name]) == name
  {
    if name in ConfigSections {
      assert name == "app" || name == "colors" || name == "fonts" || name == "sizes"
        || name == "image" || name == "performance" || name == "network" || name == "ui"
        || name == "hotkeys" || name == "messages" || name == "paths" || name == "logging";
    }
  }

  const SectionNames: set<string> := {
    "app", "colors", "fonts", "sizes", "image", "performance",
    "network", "ui", "hotkeys", "messages", "paths", "logging"
  }

  lemma SectionKeys()
    ensures ConfigSections.Keys == SectionNames
  {
  }

  lemma TwelveSections()
    ensures |SectionNames| == 12
  {
  }

  /** Without a section name `get_config` returns the whole map of twelve sections. */
  lemma {:induction false} GetConfigWithoutSectionHasTwelve()
    ensures GetConfig("").AllSections? && |GetConfig("").sections| == 12
  {
    SectionKeys();
    TwelveSections();
    assert |ConfigSections| == |ConfigSections.Keys|;
  }

  /** `get_config('paths')` is `FILE_PATHS`, which has no entry for any of the start
      directories the main window's dialogs look up (`last_open_dir`, `last_logo_dir`,
      `last_save_dir`): indexing it with one of them raises `KeyError`. */
  lemma DialogStartDirsAreNotFilePaths()
    ensures GetConfig("paths") == OneSection(PathsSection)
    ensures "last_open_dir" !in FilePathKeys
    ensures "last_logo_dir" !in FilePathKeys
    ensures "last_save_dir" !in FilePathKeys
  {
  }
}
