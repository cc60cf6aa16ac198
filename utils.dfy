/** The helpers of `utils.py` that compute names and bookkeeping: the unit of a file
    size, the unit of a duration, a free file name, a file-system-safe file name,
    duplicate groups by hash and the retention rule for backups. The file system is
    reached through parameters: the set of existing paths, a hash oracle, the
    modification times and an `unlink` oracle. */
module Utils {
  import Seqs
  import opened Wrappers
  import Strings
  import Paths

  // ---------------------------------------------------------------------------
  // format_file_size
  // ---------------------------------------------------------------------------

  /** The unit labels, from bytes to terabytes. */
  const SizeNames: seq<string> := ["Б", "КБ", "МБ", "ГБ", "ТБ"]

  function Pow1024(k: nat): (p: nat)
    ensures p >= 1
  {
    if k == 0 then 1 else 1024 * Pow1024(k - 1)
  }

  /** What `format_file_size` prints: "0 Б", or a number and an index into `SizeNames`. */
  datatype FileSizeText = ZeroBytes | Scaled(value: real, unit: nat)

  /** `format_file_size(size_bytes)`: divides by 1024 while the value is at least 1024
      and a larger unit exists. The unit is the largest k <= 4 with 1024^k <= n, and
      the printed value times 1024^k is n. */
  method FormatFileSize(sizeBytes: int) returns (r: FileSizeText)
    ensures sizeBytes == 0 <==> r == ZeroBytes
    ensures r.Scaled? ==> r.unit < |SizeNames| && r.value * Pow1024(r.unit) as real == sizeBytes as real
    ensures r.Scaled? && r.unit > 0 ==> Pow1024(r.unit) <= sizeBytes
    ensures r.Scaled? && r.unit < |SizeNames| - 1 ==> sizeBytes < Pow1024(r.unit + 1)
  {
    if sizeBytes == 0 {
      return ZeroBytes;
    }
    var i: nat := 0;
    var size: real := sizeBytes as real;
    while size >= 1024.0 && i < |SizeNames| - 1
      invariant i < |SizeNames|
      invariant size * Pow1024(i) as real == sizeBytes as real
      invariant i > 0 ==> Pow1024(i) <= sizeBytes
      decreases |SizeNames| - i
    {
      DivideStep(size, i, sizeBytes);
      size := size / 1024.0;
      i := i + 1;
    }
    if i < |SizeNames| - 1 {
      BelowNextUnit(size, i, sizeBytes);
    }
    return Scaled(size, i);
  }

  lemma DivideStep(size: real, i: nat, n: int)
    requires size >= 1024.0 && size * Pow1024(i) as real == n as real
    ensures (size / 1024.0) * Pow1024(i + 1) as real == n as real
    ensures Pow1024(i + 1) <= n
  {
    var p := Pow1024(i) as real;
    assert Pow1024(i + 1) as real == 1024.0 * p;
    assert (size / 1024.0) * (1024.0 * p) == size * p;
    assert size * p >= 1024.0 * p;
  }

  lemma BelowNextUnit(size: real, i: nat, n: int)
    requires size < 1024.0 && size * Pow1024(i) as real == n as real
    ensures n < Pow1024(i + 1)
  {
    var p := Pow1024(i);
    assert Pow1024(i + 1) == 1024 * p;
    ScaledBelow(size, p as real, n as real);
    assert (1024 * p) as real == 1024.0 * p as real;
  }

  lemma ScaledBelow(size: real, p: real, n: real)
    requires size < 1024.0 && p > 0.0 && size * p == n
    ensures n < 1024.0 * p
  {
    PositiveProduct(1024.0 - size, p);
    assert (1024.0 - size) * p == 1024.0 * p - size * p;
  }

  lemma PositiveProduct(a: real, b: real)
    requires a > 0.0 && b > 0.0
    ensures a * b > 0.0
  {
  }

  // ---------------------------------------------------------------------------
  // format_duration
  // ---------------------------------------------------------------------------

  datatype DurationUnit = Seconds | Minutes | Hours

  function UnitSeconds(u: DurationUnit): real {
    match u
    case Seconds => 1.0
    case Minutes => 60.0
    case Hours => 3600.0
  }

  /** What `format_duration` prints: a number and its unit. */
  datatype Duration = Duration(value: real, unit: DurationUnit)

  /** `format_duration(seconds)`. */
  function FormatDuration(seconds: real): Duration {
    if seconds < 60.0 then Duration(seconds, Seconds)
    else if seconds < 3600.0 then Duration(seconds / 60.0, Minutes)
    else Duration(seconds / 3600.0, Hours)
  }

  /** The printed number in its unit is the duration; seconds are used below a minute,
      minutes below an hour, hours from then on, so a minute or hour count is at least 1
      and a minute count stays below 60. */
  lemma FormatDurationUnit(seconds: real)
    ensures var d := FormatDuration(seconds);
      && d.value * UnitSeconds(d.unit) == seconds
      && (d.unit == Seconds <==> seconds < 60.0)
      && (d.unit == Minutes <==> 60.0 <= seconds < 3600.0)
      && (d.unit == Hours <==> 3600.0 <= seconds)
      && (d.unit != Seconds ==> 1.0 <= d.value)
      && (d.unit == Minutes ==> d.value < 60.0)
  {
  }

  // ---------------------------------------------------------------------------
  // get_unique_filename
  // ---------------------------------------------------------------------------

  /** The k-th name tried: `base + ext`, then `base_k + ext` for k = 1, 2, ... */
  function Candidate(baseName: string, extension: string, k: nat): string {
    if k == 0 then baseName + extension
    else baseName + "_" + Strings.NatToString(k) + extension
  }

  function CandidatePath(directory: string, baseName: string, extension: string, k: nat): string {
    Paths.Join(directory, Candidate(baseName, extension, k))
  }

  /** Candidate k is the first one whose path does not exist. */
  predicate FirstFree(directory: string, baseName: string, extension: string, existing: set<string>, k: nat) {
    && CandidatePath(directory, baseName, extension, k) !in existing
    && forall j :: 0 <= j < k ==> CandidatePath(directory, baseName, extension, j) in existing
  }

  /** `get_unique_filename(directory, base_name, extension)`, with the paths that exist
      given as a finite set: the last component of the first candidate path that does
      not exist. */
  method GetUniqueFilename(directory: string, baseName: string, extension: string, existing: set<string>)
    returns (name: string)
    ensures exists k ::
      && FirstFree(directory, baseName, extension, existing, k)
      && name == Paths.Name(CandidatePath(directory, baseName, extension, k))
  {
    var counter: nat := 1;
    var originalName := baseName + extension;
    var filePath := Paths.Join(directory, originalName);
    while filePath in existing
      invariant counter >= 1
      invariant filePath == CandidatePath(directory, baseName, extension, counter - 1)
      invariant forall j :: 0 <= j < counter - 1 ==> CandidatePath(directory, baseName, extension, j) in existing
      decreases |existing| - (counter - 1)
    {
      CandidatesFitInExisting(directory, baseName, extension, counter, existing);
      var newName := baseName + "_" + Strings.NatToString(counter) + extension;
      filePath := Paths.Join(directory, newName);
      counter := counter + 1;
    }
    assert FirstFree(directory, baseName, extension, existing, counter - 1);
    name := Paths.Name(filePath);
  }

  /** At most one candidate is the first free one. */
  lemma FirstFreeIsUnique(directory: string, baseName: string, extension: string, existing: set<string>, k: nat, m: nat)
    requires FirstFree(directory, baseName, extension, existing, k)
    requires FirstFree(directory, baseName, extension, existing, m)
    ensures k == m
  {
  }

  /** For a plain base name and extension, the name returned is `base + ext` when that
      path is free and `base_k + ext` for the smallest free k otherwise; joined with
      the directory it is never an existing path. */
  lemma {:induction false} UniqueFilenameIsFree(directory: string, baseName: string, extension: string,
                                               existing: set<string>, k: nat)
    requires '/' !in baseName && '/' !in extension
    requires FirstFree(directory, baseName, extension, existing, k)
    ensures Paths.Name(CandidatePath(directory, baseName, extension, k)) == Candidate(baseName, extension, k)
    ensures Paths.Join(directory, Candidate(baseName, extension, k)) !in existing
    ensures k == 0 <==> Paths.Join(directory, baseName + extension) !in existing
  {
    var c := Candidate(baseName, extension, k);
    if k == 0 {
      NoSlashInConcat(baseName, extension);
    } else {
      var digits := Strings.NatToString(k);
      assert '/' !in digits by {
        assert forall i :: 0 <= i < |digits| ==> '0' <= digits[i] <= '9';
      }
      NoSlashInConcat(baseName, "_");
      NoSlashInConcat(baseName + "_", digits);
      NoSlashInConcat(baseName + "_" + digits, extension);
      assert CandidatePath(directory, baseName, extension, 0) in existing;
    }
    Paths.NameOfJoin(directory, c);
  }

  lemma NoSlashInConcat(a: string, b: string)
    requires '/' !in a && '/' !in b
    ensures '/' !in a + b
  {
    assert forall i :: 0 <= i < |a + b| ==> (a + b)[i] == if i < |a| then a[i] else b[i - |a|];
  }

  /** The first n candidate paths, as a set. */
  ghost function CandidateSet(directory: string, baseName: string, extension: string, n: nat): set<string> {
    if n == 0 then {} else CandidateSet(directory, baseName, extension, n - 1) + {CandidatePath(directory, baseName, extension, n - 1)}
  }

  lemma {:induction false} CandidateSetMembers(directory: string, baseName: string, extension: string, n: nat, m: nat)
    requires CandidatePath(directory, baseName, extension, m) in CandidateSet(directory, baseName, extension, n)
    ensures m < n
  {
    if CandidatePath(directory, baseName, extension, m) in CandidateSet(directory, baseName, extension, n - 1) {
      CandidateSetMembers(directory, baseName, extension, n - 1, m);
    } else {
      CandidatePathInjective(directory, baseName, extension, m, n - 1);
    }
  }

  lemma {:induction false} CandidateSetSize(directory: string, baseName: string, extension: string, n: nat)
    ensures |CandidateSet(directory, baseName, extension, n)| == n
    ensures forall j :: 0 <= j < n ==> CandidatePath(directory, baseName, extension, j) in CandidateSet(directory, baseName, extension, n)
  {
    if n > 0 {
      CandidateSetSize(directory, baseName, extension, n - 1);
      if CandidatePath(directory, baseName, extension, n - 1) in CandidateSet(directory, baseName, extension, n - 1) {
        CandidateSetMembers(directory, baseName, extension, n - 1, n - 1);
      }
    }
  }

  /** The loop can only go round as often as there are existing paths: the candidates
      are pairwise different. */
  lemma CandidatesFitInExisting(directory: string, baseName: string, extension: string, n: nat, existing: set<string>)
    requires forall j :: 0 <= j < n ==> CandidatePath(directory, baseName, extension, j) in existing
    ensures n <= |existing|
  {
    CandidateSetSize(directory, baseName, extension, n);
    var s := CandidateSet(directory, baseName, extension, n);
    CandidateSetWithin(directory, baseName, extension, n, existing);
    SubsetSize(s, existing);
  }

  lemma {:induction false} CandidateSetWithin(directory: string, baseName: string, extension: string, n: nat, existing: set<string>)
    requires forall j :: 0 <= j < n ==> CandidatePath(directory, baseName, extension, j) in existing
    ensures CandidateSet(directory, baseName, extension, n) <= existing
  {
    if n > 0 {
      CandidateSetWithin(directory, baseName, extension, n - 1, existing);
    }
  }

  lemma {:induction false} SubsetSize(a: set<string>, b: set<string>)
    requires a <= b
    ensures |a| <= |b|
    decreases |a|
  {
    if a != {} {
      var x :| x in a;
      SubsetSize(a - {x}, b - {x});
    }
  }

  lemma CandidatePathInjective(directory: string, baseName: string, extension: string, j: nat, m: nat)
    requires CandidatePath(directory, baseName, extension, j) == CandidatePath(directory, baseName, extension, m)
    ensures j == m
  {
    JoinInjective(directory, Candidate(baseName, extension, j), Candidate(baseName, extension, m));
    CandidateInjective(baseName, extension, j, m);
  }

  lemma JoinInjective(directory: string, a: string, b: string)
    requires Paths.Join(directory, a) == Paths.Join(directory, b)
    ensures a == b
  {
    var p := Paths.Join(directory, a);
    var k := |p| - |a|;
    assert p[k..] == a;
    assert Paths.Join(directory, b)[k..] == b;
  }

  lemma CandidateInjective(baseName: string, extension: string, j: nat, m: nat)
    requires Candidate(baseName, extension, j) == Candidate(baseName, extension, m)
    ensures j == m
  {
    var c := Candidate(baseName, extension, j);
    if j != 0 && m != 0 {
      var dj := Strings.NatToString(j);
      var dm := Strings.NatToString(m);
      var lo := |baseName| + 1;
      assert |dj| == |dm|;
      assert c[lo..lo + |dj|] == dj;
      assert Candidate(baseName, extension, m)[lo..lo + |dm|] == dm;
      Strings.NatToStringInjective(j, m);
    }
  }

  // ---------------------------------------------------------------------------
  // safe_filename
  // ---------------------------------------------------------------------------

  /** The characters Windows refuses in file names, in the order the loop visits them. */
  const InvalidChars: string := "<>:\"/\\|?*"

  predicate IsInvalid(c: char) {
    c == '<' || c == '>' || c == ':' || c == '"' || c == '/' || c == '\\' || c == '|' || c == '?' || c == '*'
  }

  lemma InvalidCharsAreTheInvalid()
    ensures forall c :: c in InvalidChars <==> IsInvalid(c)
  {
    assert InvalidChars == ['<', '>', ':', '"', '/', '\\', '|', '?', '*'];
  }

  /** No character of `s` is invalid. */
  predicate Safe(s: string) {
    forall i :: 0 <= i < |s| ==> !IsInvalid(s[i])
  }

  /** The characters `rstrip('. ')` removes. */
  predicate IsStripped(c: char) {
    c == '.' || c == ' '
  }

  /** The longest name `safe_filename` keeps without truncating. */
  const MaxNameLength: nat := 200

  /** `s.replace(c, d)` for single characters. */
  function ReplaceChar(s: string, c: char, d: char): (r: string)
    ensures |r| == |s|
    ensures forall i :: 0 <= i < |s| ==> r[i] == if s[i] == c then d else s[i]
  {
    seq(|s|, i requires 0 <= i < |s| => if s[i] == c then d else s[i])
  }

  /** Every invalid character of `s` replaced by '_', position by position. */
  function ReplaceInvalid(s: string): (r: string)
    ensures |r| == |s| && Safe(r)
  {
    seq(|s|, i requires 0 <= i < |s| => if IsInvalid(s[i]) then '_' else s[i])
  }

  /** `s.rstrip('. ')`: the longest prefix of `s` that does not end in a dot or space. */
  function RStrip(s: string): (r: string)
    ensures |r| <= |s| && r == s[..|r|]
    ensures r == [] || !IsStripped(r[|r| - 1])
    ensures forall i :: |r| <= i < |s| ==> IsStripped(s[i])
  {
    if s != [] && IsStripped(s[|s| - 1]) then RStrip(s[..|s| - 1]) else s
  }

  /** The number of dots `s` starts with. */
  function LeadingDots(s: string): (n: nat)
    ensures n <= |s| && (n < |s| ==> s[n] != '.')
    ensures forall i :: 0 <= i < n ==> s[i] == '.'
  {
    if s == [] || s[0] != '.' then 0 else 1 + LeadingDots(s[1..])
  }

  /** `os.path.splitext(p)`: the extension starts at the last dot of the last component,
      unless only dots precede that dot within the component. */
  function SplitExt(p: string): (r: (string, string))
    ensures r.0 + r.1 == p
    ensures r.1 == [] || (r.1[0] == '.' && '.' !in r.1[1..])
  {
    var start := Strings.RFind(p, '/') + 1;
    var dot := Strings.RFind(p, '.');
    if dot >= start && start + LeadingDots(p[start..]) < dot then (p[..dot], p[dot..]) else (p, "")
  }

  /** Python's `s[:k]`, where a negative k counts from the end. */
  function PyPrefix(s: string, k: int): (r: string)
    ensures |r| == if k >= 0 then (if k <= |s| then k else |s|) else Max(0, |s| + k)
    ensures r == s[..|r|]
  {
    if k >= 0 then (if k <= |s| then s[..k] else s)
    else if |s| + k >= 0 then s[..|s| + k] else []
  }

  function Max(a: int, b: int): int {
    if a >= b then a else b
  }

  /** `name[:200-len(ext)] + ext` for `name, ext = os.path.splitext(c)`. */
  function Shorten(c: string): string {
    var parts := SplitExt(c);
    PyPrefix(parts.0, MaxNameLength - |parts.1|) + parts.1
  }

  /** The rest of `safe_filename` after the replacement loop: strip trailing dots and
      spaces, cut a name longer than 200 characters, and fall back to 'unnamed'. It
      keeps a safe name safe and is never empty. */
  function StripAndShorten(s: string): (r: string)
    ensures r != []
    ensures Safe(s) ==> Safe(r)
  {
    var c := RStrip(s);
    assert Safe(s) ==> Safe(c) by {
      assert forall i :: 0 <= i < |c| ==> c[i] == s[i];
    }
    if c == [] then (UnnamedIsSafe(); "unnamed")
    else if |c| <= MaxNameLength then c
    else (TruncationIsSafe(c); Shorten(c))
  }

  lemma UnnamedIsSafe()
    ensures Safe("unnamed") && !IsStripped("unnamed"[6])
  {
  }

  /** What `safe_filename` does after the replacement to a name of at most 200
      characters: with nothing left after the strip the result is 'unnamed' (and
      'unnamed' comes out of nothing else but the name 'unnamed'); otherwise it is the
      stripped name, which ends in neither a dot nor a space. */
  lemma StripAndShortenShortName(s: string)
    requires |RStrip(s)| <= MaxNameLength
    ensures var c := RStrip(s); var r := StripAndShorten(s);
      && (c == [] ==> r == "unnamed")
      && (c != [] ==> r == c)
      && (r == "unnamed" ==> c == [] || c == "unnamed")
      && !IsStripped(r[|r| - 1])
  {
    UnnamedIsSafe();
  }

  /** A stripped name longer than 200 characters is cut to its first 200 - |ext|
      characters followed by its extension, exactly 200 characters when the extension
      has at most 200; with a longer extension Python's negative slice keeps even fewer
      characters from the front. The result keeps the extension, ends in a dot or space
      only when there is no extension, and is never 'unnamed'. */
  lemma {:induction false} LongNameIsShortened(c: string)
    requires |c| > MaxNameLength && !IsStripped(c[|c| - 1])
    ensures var ext := SplitExt(c).1; var t := Shorten(c);
      && t == c[..|t| - |ext|] + ext
      && (|ext| <= MaxNameLength ==> |t| == MaxNameLength)
      && (|ext| > MaxNameLength ==> |t| - |ext| == Max(0, |c| - |ext| - (|ext| - MaxNameLength)))
      && (ext != [] ==> !IsStripped(t[|t| - 1]))
      && t != "unnamed"
  {
    var ext := SplitExt(c).1;
    var t := Shorten(c);
    ShortenPieces(c);
    ShortenLength(c);
    ShortenEnding(c);
    assert |t| >= MaxNameLength;
  }

  /** A long stripped name is shortened. */
  lemma StripAndShortenLongName(s: string)
    requires |RStrip(s)| > MaxNameLength
    ensures StripAndShorten(s) == Shorten(RStrip(s))
  {
  }

  lemma ShortenLength(c: string)
    requires |c| > MaxNameLength
    ensures var ext := SplitExt(c).1;
      |Shorten(c)| == |ext| + (if |ext| <= MaxNameLength then MaxNameLength - |ext| else Max(0, |c| - |ext| - (|ext| - MaxNameLength)))
  {
  }

  lemma ShortenPieces(c: string)
    ensures var ext := SplitExt(c).1; var t := Shorten(c);
      |ext| <= |t| && t == c[..|t| - |ext|] + ext
  {
    var name := SplitExt(c).0;
    var ext := SplitExt(c).1;
    var u := PyPrefix(name, MaxNameLength - |ext|);
    assert u == c[..|u|] by {
      assert name == c[..|name|];
    }
  }

  lemma ShortenEnding(c: string)
    requires c != [] && !IsStripped(c[|c| - 1])
    ensures SplitExt(c).1 != [] ==> !IsStripped(Shorten(c)[|Shorten(c)| - 1])
  {
    var name := SplitExt(c).0;
    var ext := SplitExt(c).1;
    if ext != [] {
      assert ext == c[|name|..];
      assert Shorten(c)[|Shorten(c)| - 1] == ext[|ext| - 1];
    }
  }

  lemma TruncationIsSafe(c: string)
    requires |c| > MaxNameLength
    ensures Safe(c) ==> Safe(Shorten(c))
  {
    var parts := SplitExt(c);
    if Safe(c) {
      SafePieces(PyPrefix(parts.0, MaxNameLength - |parts.1|), parts.0, parts.1);
    }
  }

  /** A prefix of the name followed by the extension uses only characters of the
      whole name. */
  lemma SafePieces(u: string, name: string, ext: string)
    requires Safe(name + ext) && |u| <= |name| && u == name[..|u|]
    ensures Safe(u + ext)
  {
    var c := name + ext;
    var t := u + ext;
    forall i | 0 <= i < |t| ensures !IsInvalid(t[i]) {
      if i < |u| {
        assert t[i] == name[i] == c[i];
      } else {
        assert t[i] == ext[i - |u|] == c[|name| + i - |u|];
      }
    }
  }

  /** `safe_filename(filename)`: every invalid character becomes '_', so none is left,
      and the result is never empty; the rest is `StripAndShorten` of the replaced
      name. */
  method SafeFilename(filename: string) returns (r: string)
    ensures r != [] && Safe(r)
    ensures forall i :: 0 <= i < |r| ==> r[i] !in InvalidChars
    ensures r == StripAndShorten(ReplaceInvalid(filename))
  {
    var safeName := ReplaceInvalidChars(filename);
    r := StripAndShorten(safeName);
    InvalidCharsAreTheInvalid();
  }

  /** The loop of `safe_filename` over the invalid characters, replacing each by '_'. */
  method ReplaceInvalidChars(filename: string) returns (safeName: string)
    ensures safeName == ReplaceInvalid(filename)
  {
    InvalidCharsAreTheInvalid();
    safeName := filename;
    for j := 0 to |InvalidChars|
      invariant |safeName| == |filename|
      invariant forall i :: 0 <= i < |filename| ==>
        safeName[i] == if filename[i] in InvalidChars[..j] then '_' else filename[i]
    {
      safeName := ReplaceChar(safeName, InvalidChars[j], '_');
      assert forall i :: 0 <= i < |filename| ==>
        (filename[i] in InvalidChars[..j + 1] <==> filename[i] in InvalidChars[..j] || filename[i] == InvalidChars[j]);
    }
    assert InvalidChars[..|InvalidChars|] == InvalidChars;
  }

  // ---------------------------------------------------------------------------
  // find_duplicate_files
  // ---------------------------------------------------------------------------

  /** The walked files whose hash is `h`, in walk order. */
  function WithHash(files: seq<string>, hash: string -> Option<string>, h: string): seq<string> {
    if files == [] then []
    else
      var prefix := WithHash(files[..|files| - 1], hash, h);
      if hash(files[|files| - 1]) == Some(h) then prefix + [files[|files| - 1]] else prefix
  }

  /** `find_duplicate_files`, over the files in walk order, with the hash of a file as an
      oracle (None when it cannot be read): a hash is a key exactly when at least two
      files have it, and its group is all of those files, in walk order. */
  method FindDuplicateFiles(files: seq<string>, hash: string -> Option<string>)
    returns (duplicates: map<string, seq<string>>)
    ensures forall h :: h in duplicates <==> h != "" && |WithHash(files, hash, h)| >= 2
    ensures forall h :: h in duplicates ==> duplicates[h] == WithHash(files, hash, h)
  {
    var fileHashes: map<string, string> := map[];
    duplicates := map[];
    for i := 0 to |files|
      invariant GroupsSoFar(files, hash, i, fileHashes, duplicates)
    {
      var filePath := files[i];
      var fileHash := hash(filePath);
      if fileHash.Some? && fileHash.value != "" {
        var h := fileHash.value;
        if h in fileHashes {
          ghost var before := duplicates;
          if h !in duplicates {
            duplicates := duplicates[h := [fileHashes[h]]];
          }
          duplicates := duplicates[h := duplicates[h] + [filePath]];
          assert duplicates == before[h := (if h in before then before[h] else [fileHashes[h]]) + [filePath]];
          RepeatedHashStep(files, hash, i, fileHashes, before);
        } else {
          FirstHashStep(files, hash, i, fileHashes, duplicates);
          fileHashes := fileHashes[h := filePath];
        }
      } else {
        NoHashStep(files, hash, i, fileHashes, duplicates);
      }
    }
    assert files[..|files|] == files;
  }

  /** The loop invariant: after the first i files, `file_hashes` maps each hash seen to
      its first file and `duplicates` holds the groups of the hashes seen twice. */
  ghost predicate GroupsSoFar(files: seq<string>, hash: string -> Option<string>, i: nat,
                              fileHashes: map<string, string>, duplicates: map<string, seq<string>>)
    requires i <= |files|
  {
    && (forall h :: h in fileHashes <==> h != "" && |WithHash(files[..i], hash, h)| >= 1)
    && (forall h :: h in fileHashes ==> fileHashes[h] == WithHash(files[..i], hash, h)[0])
    && (forall h :: h in duplicates <==> h != "" && |WithHash(files[..i], hash, h)| >= 2)
    && (forall h :: h in duplicates ==> duplicates[h] == WithHash(files[..i], hash, h))
  }

  lemma NoHashStep(files: seq<string>, hash: string -> Option<string>, i: nat,
                   fileHashes: map<string, string>, duplicates: map<string, seq<string>>)
    requires i < |files| && GroupsSoFar(files, hash, i, fileHashes, duplicates)
    requires hash(files[i]).None? || hash(files[i]).value == ""
    ensures GroupsSoFar(files, hash, i + 1, fileHashes, duplicates)
  {
    WithHashStep(files, hash, i);
  }

  lemma FirstHashStep(files: seq<string>, hash: string -> Option<string>, i: nat,
                      fileHashes: map<string, string>, duplicates: map<string, seq<string>>)
    requires i < |files| && GroupsSoFar(files, hash, i, fileHashes, duplicates)
    requires hash(files[i]).Some? && hash(files[i]).value != "" && hash(files[i]).value !in fileHashes
    ensures GroupsSoFar(files, hash, i + 1, fileHashes[hash(files[i]).value := files[i]], duplicates)
  {
    WithHashStep(files, hash, i);
    var h := hash(files[i]).value;
    assert WithHash(files[..i], hash, h) == [];
  }

  lemma RepeatedHashStep(files: seq<string>, hash: string -> Option<string>, i: nat,
                         fileHashes: map<string, string>, duplicates: map<string, seq<string>>)
    requires i < |files| && GroupsSoFar(files, hash, i, fileHashes, duplicates)
    requires hash(files[i]).Some? && hash(files[i]).value in fileHashes
    ensures var h := hash(files[i]).value;
      GroupsSoFar(files, hash, i + 1, fileHashes,
        duplicates[h := (if h in duplicates then duplicates[h] else [fileHashes[h]]) + [files[i]]])
  {
    WithHashStep(files, hash, i);
    var h := hash(files[i]).value;
    if h !in duplicates {
      assert |WithHash(files[..i], hash, h)| == 1;
      assert WithHash(files[..i], hash, h) == [fileHashes[h]];
    }
  }

  lemma WithHashStep(files: seq<string>, hash: string -> Option<string>, i: nat)
    requires i < |files|
    ensures forall h :: hash(files[i]) != Some(h) ==> WithHash(files[..i + 1], hash, h) == WithHash(files[..i], hash, h)
    ensures forall h :: hash(files[i]) == Some(h) ==> WithHash(files[..i + 1], hash, h) == WithHash(files[..i], hash, h) + [files[i]]
  {
    Seqs.PrefixStep(files, i);
  }

  /** A group holds exactly the files with its hash. */
  lemma {:induction false} GroupMembers(files: seq<string>, hash: string -> Option<string>, h: string, p: string)
    ensures p in WithHash(files, hash, h) <==> p in files && hash(p) == Some(h)
  {
    if files != [] {
      var init := files[..|files| - 1];
      GroupMembers(init, hash, h, p);
      assert files == init + [files[|files| - 1]];
    }
  }

  /** The first path of a group is the first walked file with that hash. */
  lemma {:induction false} GroupStartsWithFirstSeen(files: seq<string>, hash: string -> Option<string>, h: string, j: nat)
    requires j < |files| && hash(files[j]) == Some(h)
    requires forall k :: 0 <= k < j ==> hash(files[k]) != Some(h)
    ensures WithHash(files, hash, h) != [] && WithHash(files, hash, h)[0] == files[j]
  {
    var init := files[..|files| - 1];
    if j < |files| - 1 {
      GroupStartsWithFirstSeen(init, hash, h, j);
    } else {
      NoneBefore(init, hash, h);
    }
  }

  lemma {:induction false} NoneBefore(files: seq<string>, hash: string -> Option<string>, h: string)
    requires forall k :: 0 <= k < |files| ==> hash(files[k]) != Some(h)
    ensures WithHash(files, hash, h) == []
  {
    if files != [] {
      NoneBefore(files[..|files| - 1], hash, h);
    }
  }

  /** Files walked earlier come earlier in their group: grouping the walk `a + b` is
      grouping `a` followed by grouping `b`. */
  lemma {:induction false} GroupKeepsWalkOrder(a: seq<string>, b: seq<string>, hash: string -> Option<string>, h: string)
    ensures WithHash(a + b, hash, h) == WithHash(a, hash, h) + WithHash(b, hash, h)
  {
    if b != [] {
      var binit := b[..|b| - 1];
      assert (a + b)[..|a + b| - 1] == a + binit;
      GroupKeepsWalkOrder(a, binit, hash, h);
    } else {
      assert a + b == a;
    }
  }

  // ---------------------------------------------------------------------------
  // cleanup_old_backups
  // ---------------------------------------------------------------------------

  /** A file of the backup directory with its modification time. */
  datatype Backup = Backup(name: string, mtime: real)

  /** Inserts `x` after every entry at least as new, so equal times keep their order. */
  function InsertByAge(s: seq<Backup>, x: Backup): seq<Backup> {
    if s == [] then [x]
    else if s[0].mtime >= x.mtime then [s[0]] + InsertByAge(s[1..], x)
    else [x] + s
  }

  /** `sort(key=mtime, reverse=True)`: a stable newest-first order. */
  function NewestFirst(s: seq<Backup>): seq<Backup> {
    if s == [] then [] else InsertByAge(NewestFirst(s[..|s| - 1]), s[|s| - 1])
  }

  ghost predicate IsNewestFirst(s: seq<Backup>) {
    forall i, j :: 0 <= i < j < |s| ==> s[i].mtime >= s[j].mtime
  }

  lemma {:induction false} InsertByAgeElements(s: seq<Backup>, x: Backup)
    ensures multiset(InsertByAge(s, x)) == multiset(s) + multiset{x}
    ensures |InsertByAge(s, x)| == |s| + 1
    ensures forall y :: y in InsertByAge(s, x) <==> y in s || y == x
    decreases |s|
  {
    if s != [] && s[0].mtime >= x.mtime {
      InsertByAgeElements(s[1..], x);
      assert s == [s[0]] + s[1..];
    }
  }

  lemma {:induction false} InsertByAgeKeepsOrder(s: seq<Backup>, x: Backup)
    requires IsNewestFirst(s)
    ensures IsNewestFirst(InsertByAge(s, x))
    decreases |s|
  {
    if s == [] {
    } else if s[0].mtime >= x.mtime {
      var tail := s[1..];
      var t := InsertByAge(tail, x);
      InsertByAgeKeepsOrder(tail, x);
      forall i | 0 <= i < |tail| ensures tail[i].mtime <= s[0].mtime {
        assert tail[i] == s[i + 1];
      }
      InsertByAgeBelow(tail, x, s[0].mtime);
      var r := [s[0]] + t;
      assert InsertByAge(s, x) == r;
      forall i, j | 0 <= i < j < |r| ensures r[i].mtime >= r[j].mtime {
        assert r[j] == t[j - 1];
        if i > 0 {
          assert r[i] == t[i - 1];
        }
      }
    } else {
      var r := [x] + s;
      forall i, j | 0 <= i < j < |r| ensures r[i].mtime >= r[j].mtime {
        assert r[j] == s[j - 1];
        if i > 0 {
          assert r[i] == s[i - 1];
        } else {
          assert s[0].mtime >= s[j - 1].mtime;
        }
      }
    }
  }

  /** Inserting below a bound keeps every entry below it. */
  lemma {:induction false} InsertByAgeBelow(s: seq<Backup>, x: Backup, m: real)
    requires forall i :: 0 <= i < |s| ==> s[i].mtime <= m
    requires x.mtime <= m
    ensures forall i :: 0 <= i < |InsertByAge(s, x)| ==> InsertByAge(s, x)[i].mtime <= m
    decreases |s|
  {
    var t := InsertByAge(s, x);
    if s == [] {
      assert t == [x];
    } else if s[0].mtime >= x.mtime {
      var tail := s[1..];
      forall i | 0 <= i < |tail| ensures tail[i].mtime <= m {
        assert tail[i] == s[i + 1];
      }
      InsertByAgeBelow(tail, x, m);
      var u := InsertByAge(tail, x);
      assert t == [s[0]] + u;
      forall i | 0 <= i < |t| ensures t[i].mtime <= m {
        if i > 0 {
          assert t[i] == u[i - 1];
        }
      }
    } else {
      assert t == [x] + s;
      forall i | 0 <= i < |t| ensures t[i].mtime <= m {
        if i > 0 {
          assert t[i] == s[i - 1];
        }
      }
    }
  }

  /** The ranking is newest first and holds exactly the listed files. */
  lemma NewestFirstIsSortedPermutation(s: seq<Backup>)
    ensures IsNewestFirst(NewestFirst(s))
    ensures multiset(NewestFirst(s)) == multiset(s)
    ensures |NewestFirst(s)| == |s|
  {
    NewestFirstIsSorted(s);
    NewestFirstIsPermutation(s);
  }

  lemma {:induction false} NewestFirstIsSorted(s: seq<Backup>)
    ensures IsNewestFirst(NewestFirst(s))
  {
    if s != [] {
      var init := s[..|s| - 1];
      NewestFirstIsSorted(init);
      InsertByAgeKeepsOrder(NewestFirst(init), s[|s| - 1]);
    }
  }

  lemma {:induction false} NewestFirstIsPermutation(s: seq<Backup>)
    ensures multiset(NewestFirst(s)) == multiset(s)
    ensures |NewestFirst(s)| == |s|
  {
    if s != [] {
      var init := s[..|s| - 1];
      NewestFirstIsPermutation(init);
      InsertByAgeElements(NewestFirst(init), s[|s| - 1]);
      assert s == init + [s[|s| - 1]];
    }
  }

  /** The retention rule: older than the age limit, or ranked beyond the count limit. */
  predicate ShouldDelete(b: Backup, rank: nat, now: real, maxAgeDays: int, maxCount: int) {
    now - b.mtime > (maxAgeDays * 24 * 60 * 60) as real || rank >= maxCount
  }

  /** The names unlinked while walking the ranking; the last entry has rank |ranked| - 1. */
  function Deleted(ranked: seq<Backup>, now: real, maxAgeDays: int, maxCount: int, unlink: string -> bool): seq<string> {
    if ranked == [] then []
    else
      var rank := |ranked| - 1;
      var b := ranked[rank];
      var prefix := Deleted(ranked[..rank], now, maxAgeDays, maxCount, unlink);
      if ShouldDelete(b, rank, now, maxAgeDays, maxCount) && unlink(b.name) then prefix + [b.name] else prefix
  }

  /** `cleanup_old_backups`, over the listed files with their times, the current time
      and an `unlink` oracle: nothing for a missing directory; otherwise the files are
      ranked newest first and each one the rule condemns is unlinked. The result is the
      names actually removed (their number is `deleted_count`). */
  method CleanupOldBackups(dirExists: bool, files: seq<Backup>, now: real, maxAgeDays: int, maxCount: int,
                           unlink: string -> bool) returns (deleted: seq<string>)
    ensures !dirExists ==> deleted == []
    ensures dirExists ==> deleted == Deleted(NewestFirst(files), now, maxAgeDays, maxCount, unlink)
  {
    deleted := [];
    if !dirExists {
      return;
    }
    var backupFiles := NewestFirst(files);
    var maxAgeSeconds := maxAgeDays * 24 * 60 * 60;
    for i := 0 to |backupFiles|
      invariant deleted == Deleted(backupFiles[..i], now, maxAgeDays, maxCount, unlink)
    {
      Seqs.PrefixStep(backupFiles, i);
      var backupFile := backupFiles[i];
      var shouldDelete := false;
      var fileAge := now - backupFile.mtime;
      if fileAge > maxAgeSeconds as real {
        shouldDelete := true;
      }
      if i >= maxCount {
        shouldDelete := true;
      }
      if shouldDelete {
        if unlink(backupFile.name) {
          deleted := deleted + [backupFile.name];
        }
      }
    }
    assert backupFiles[..|backupFiles|] == backupFiles;
  }

  /** A name is removed exactly when its file's rank or age condemns it and the unlink
      succeeds. */
  lemma {:induction false} DeletedFollowsRule(ranked: seq<Backup>, now: real, maxAgeDays: int, maxCount: int,
                                             unlink: string -> bool, x: string)
    ensures x in Deleted(ranked, now, maxAgeDays, maxCount, unlink) <==>
      exists i :: 0 <= i < |ranked| && ranked[i].name == x && ShouldDelete(ranked[i], i, now, maxAgeDays, maxCount) && unlink(x)
  {
    if ranked != [] {
      var rank := |ranked| - 1;
      var init := ranked[..rank];
      DeletedFollowsRule(init, now, maxAgeDays, maxCount, unlink, x);
      assert forall i :: 0 <= i < rank ==> init[i] == ranked[i];
      if x in Deleted(ranked, now, maxAgeDays, maxCount, unlink) && x !in Deleted(init, now, maxAgeDays, maxCount, unlink) {
        assert ranked[rank].name == x && ShouldDelete(ranked[rank], rank, now, maxAgeDays, maxCount);
      }
    }
  }

  /** When every unlink succeeds, at most `max(0, max_count)` files remain. */
  lemma {:induction false} AtMostMaxCountSurvive(ranked: seq<Backup>, now: real, maxAgeDays: int, maxCount: int,
                                               unlink: string -> bool)
    requires forall b :: b in ranked ==> unlink(b.name)
    ensures |Deleted(ranked, now, maxAgeDays, maxCount, unlink)| <= |ranked|
    ensures |ranked| - |Deleted(ranked, now, maxAgeDays, maxCount, unlink)| <= Max(0, maxCount)
  {
    if ranked != [] {
      var rank := |ranked| - 1;
      var init := ranked[..rank];
      assert forall b :: b in init ==> b in ranked;
      AtMostMaxCountSurvive(init, now, maxAgeDays, maxCount, unlink);
      assert ranked[rank] in ranked;
    }
  }
}
