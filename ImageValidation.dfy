/**
 * The checks on images chosen for upload (admin/src/utils/imageValidationUtils.js): size
 * strings such as "50MB", file extensions, one file against the upload settings, and a
 * batch of files against the settings and the total request size.
 */
module ImageValidation {
  import opened Wrappers
  import opened Strings
  import opened Numbers
  import opened Sequences

  // ---------------------------------------------------------------------------
  // parseSize
  // ---------------------------------------------------------------------------

  /** The multiplier of a two-letter unit, compared without regard to case: KB, MB or GB. */
  function UnitMultiplier(u: string): (r: Option<nat>)
    ensures r.Some? ==> |u| == 2 && (r.value == 1024 || r.value == 1024 * 1024 || r.value == 1024 * 1024 * 1024)
  {
    if |u| != 2 || ToUpperChar(u[1]) != 'B' then None
    else if ToUpperChar(u[0]) == 'K' then Some(1024)
    else if ToUpperChar(u[0]) == 'M' then Some(1024 * 1024)
    else if ToUpperChar(u[0]) == 'G' then Some(1024 * 1024 * 1024)
    else None
  }

  /** The text of the optional fractional part `(?:\.\d+)?`. */
  function FracText(b: Option<string>): string {
    match b
    case None => ""
    case Some(d) => "." + d
  }

  predicate AllSpaces(s: string) {
    forall i :: 0 <= i < |s| ==> IsSpace(s[i])
  }

  /** The pieces of a match of `^(\d+(?:\.\d+)?)\s*(KB|MB|GB)$` (case-insensitive). */
  predicate SizeParts(a: string, b: Option<string>, ws: string, u: string) {
    NumberParts(a, b) && AllSpaces(ws) && UnitMultiplier(u).Some?
  }

  /** `\d+(?:\.\d+)?`: integer digits and optional fractional digits. */
  predicate NumberParts(a: string, b: Option<string>) {
    a != [] && AllDigits(a) && (b.Some? ==> b.value != [] && AllDigits(b.value))
  }

  /** The match of `\d+(?:\.\d+)?` against all of `num`: the integer digits and the optional fractional digits. */
  function NumberMatch(num: string): (r: Option<(string, Option<string>)>)
    ensures r.Some? ==> num == r.value.0 + FracText(r.value.1) && NumberParts(r.value.0, r.value.1)
  {
    if '.' in num then
      var i := IndexOfChar(num, '.');
      var a := num[..i];
      var b := num[i + 1..];
      if a != [] && AllDigits(a) && b != [] && AllDigits(b) then
        assert num == a + "." + b;
        Some((a, Some(b)))
      else None
    else if num != [] && AllDigits(num) then Some((num, None))
    else None
  }

  /** The last two characters of `t`, the spaces before them and the text before the spaces. */
  lemma UnitSplit(t: string)
    requires |t| >= 2
    ensures var num := TrimEnd(t[..|t| - 2]);
      t == num + t[|num|..|t| - 2] + t[|t| - 2..] && AllSpaces(t[|num|..|t| - 2])
  {
    var num := TrimEnd(t[..|t| - 2]);
    var ws := t[|num|..|t| - 2];
    forall i | 0 <= i < |ws| ensures IsSpace(ws[i]) {
      assert ws[i] == t[..|t| - 2][|num| + i];
    }
  }

  /** The match of the size pattern against `t`: integer digits, fractional digits, spaces and unit. */
  function SizeMatch(t: string): (r: Option<(string, Option<string>, string, string)>)
    ensures r.Some? ==> (t == r.value.0 + FracText(r.value.1) + r.value.2 + r.value.3
      && SizeParts(r.value.0, r.value.1, r.value.2, r.value.3))
  {
    if |t| < 2 || UnitMultiplier(t[|t| - 2..]).None? then None
    else
      var u := t[|t| - 2..];
      var num := TrimEnd(t[..|t| - 2]);
      var ws := t[|num|..|t| - 2];
      UnitSplit(t);
      var m := NumberMatch(num);
      if m.None? then None else Some((m.value.0, m.value.1, ws, u))
  }

  /** Removing trailing spaces after text that ends in a non-space. */
  lemma TrimEndAfter(x: string, ws: string)
    requires x != [] && !IsSpace(x[|x| - 1]) && AllSpaces(ws)
    ensures TrimEnd(x + ws) == x
  {
    var s := x + ws;
    var r := TrimEnd(s);
    assert s[|x| - 1] == x[|x| - 1];
    assert r == s[..|x|] == x;
  }

  /** Digits hold no '.'. */
  lemma NoDotInDigits(a: string)
    requires AllDigits(a)
    ensures '.' !in a
  {
    forall i | 0 <= i < |a| ensures a[i] != '.' {
      assert IsDigit(a[i]);
    }
  }

  /** Every number built from digits and optional fractional digits is matched, with the same pieces. */
  lemma NumberMatchComplete(a: string, b: Option<string>)
    requires NumberParts(a, b)
    ensures NumberMatch(a + FracText(b)) == Some((a, b))
  {
    NoDotInDigits(a);
    if b.Some? {
      var d := b.value;
      var num := a + FracText(b);
      assert num == a + ['.'] + d;
      Pieces(a, '.', d);
      IndexOfCharAt(num, '.', |a|);
    } else {
      assert a + FracText(b) == a;
    }
  }

  /** Every string built from the pieces of a match is matched, with the same pieces. */
  lemma SizeMatchComplete(a: string, b: Option<string>, ws: string, u: string)
    requires SizeParts(a, b, ws, u)
    ensures SizeMatch(a + FracText(b) + ws + u) == Some((a, b, ws, u))
  {
    var num := a + FracText(b);
    var t := num + ws + u;
    assert t[|t| - 2..] == u;
    assert t[..|t| - 2] == num + ws;
    assert IsDigit(num[|num| - 1]) by {
      if b.Some? {
        assert num[|num| - 1] == b.value[|b.value| - 1];
      } else {
        assert num[|num| - 1] == a[|a| - 1];
      }
    }
    TrimEndAfter(num, ws);
    assert t[|num|..|t| - 2] == ws;
    NumberMatchComplete(a, b);
  }

  /** The byte count of a matched size: the decimal value times the unit. */
  function SizeValue(a: string, b: Option<string>, u: string): (r: real)
    requires NumberParts(a, b) && UnitMultiplier(u).Some?
    ensures r >= 0.0
  {
    var value := DigitsValue(a) as real + (if b.Some? then Fraction(b.value) else 0.0);
    var multiplier := UnitMultiplier(u).value as real;
    assert value >= 0.0 && multiplier > 0.0;
    value * multiplier
  }

  /** `parseSize(sizeStr)`: 0 for a missing or empty string and for text the pattern does not match. */
  function ParseSize(sizeStr: Option<string>): (r: real)
    ensures r >= 0.0
    ensures r != 0.0 ==> sizeStr.Some? && sizeStr.value != "" && SizeMatch(Trim(sizeStr.value)).Some?
  {
    if sizeStr.None? || sizeStr.value == "" then 0.0
    else
      var m := SizeMatch(Trim(sizeStr.value));
      if m.None? then 0.0 else SizeValue(m.value.0, m.value.1, m.value.3)
  }

  /** A size written as digits, optional fractional digits, optional spaces and a unit is worth its value times the unit. */
  lemma ParseSizeOf(a: string, b: Option<string>, ws: string, u: string)
    requires SizeParts(a, b, ws, u)
    ensures ParseSize(Some(a + FracText(b) + ws + u)) == SizeValue(a, b, u)
  {
    var t := a + FracText(b) + ws + u;
    SizeTextTrimmed(a, b, ws, u);
    SizeMatchComplete(a, b, ws, u);
    ParseSizeOfMatch(t, a, b, ws, u);
  }

  lemma SizeTextTrimmed(a: string, b: Option<string>, ws: string, u: string)
    requires SizeParts(a, b, ws, u)
    ensures var t := a + FracText(b) + ws + u; t != "" && Trim(t) == t
  {
    var t := a + FracText(b) + ws + u;
    assert t[0] == a[0];
    assert t[|t| - 1] == u[1];
    assert !IsSpace(u[1]) by {
      assert ToUpperChar(u[1]) == 'B';
    }
    TrimNoOp(t);
  }

  lemma ParseSizeOfMatch(t: string, a: string, b: Option<string>, ws: string, u: string)
    requires t != "" && Trim(t) == t && SizeMatch(t) == Some((a, b, ws, u))
    ensures ParseSize(Some(t)) == SizeValue(a, b, u)
  {
  }

  // ---------------------------------------------------------------------------
  // getFileExtension
  // ---------------------------------------------------------------------------

  /** `getFileExtension(filename)`: the lower-cased text after the last '.', or '' when there is none. */
  function FileExtension(filename: Option<string>): (r: string)
    ensures r != [] <==> filename.Some? && '.' in filename.value && filename.value[|filename.value| - 1] != '.'
    ensures r != [] ==> '.' !in r && exists i :: (0 <= i < |filename.value| && filename.value[i] == '.'
      && r == ToLower(filename.value[i + 1..]))
  {
    if filename.None? || filename.value == "" then ""
    else
      var f := filename.value;
      var last := LastIndexOf(f, '.');
      if last.None? || last.value == |f| - 1 then ""
      else
        var i := last.value;
        var r := ToLower(f[i + 1..]);
        assert forall k :: 0 <= k < |r| ==> r[k] == ToLowerChar(f[i + 1..][k]) && f[i + 1..][k] != '.';
        r
  }

  // ---------------------------------------------------------------------------
  // validateImageFile
  // ---------------------------------------------------------------------------

  datatype File = File(name: string, mimeType: string, size: nat)

  /** The upload settings; None is a setting that is missing or not of the expected type. */
  datatype Settings = Settings(validExtensions: Option<seq<string>>, maxFileSize: Option<string>,
    maxRequestSize: Option<string>)

  /** Why a file is refused, with the values its message shows. */
  datatype ImageError =
    | NoFile
    | NotAnImage
    | NoExtension
    | BadExtension(allowed: string)
    | TooLarge(maxFileSize: string, size: nat)

  datatype ImageCheck = Valid | Invalid(error: ImageError)

  /** `settings.validExtensions.some(ext => ext.toLowerCase() === fileExtension)`. */
  predicate ExtensionAllowed(validExtensions: seq<string>, ext: string) {
    exists k :: 0 <= k < |validExtensions| && ToLower(validExtensions[k]) == ext
  }

  /** The extension check alone: None when it passes or does not apply. */
  function ExtensionError(file: File, settings: Settings): Option<ImageError> {
    if settings.validExtensions.None? then None
    else
      var ext := FileExtension(Some(file.name));
      if ext == [] then Some(NoExtension)
      else if !ExtensionAllowed(settings.validExtensions.value, ext) then
        Some(BadExtension(Join(settings.validExtensions.value, ", ")))
      else None
  }

  /** A truthy size setting: present and not empty. */
  predicate SizeSet(setting: Option<string>) {
    setting.Some? && setting.value != ""
  }

  /** `validateImageFile(file, settings)`: the extension is checked before the size; a limit that parses to 0 is no limit. */
  function ValidateImageFile(file: Option<File>, settings: Option<Settings>): (r: ImageCheck)
    ensures file.None? ==> r == Invalid(NoFile)
    ensures file.Some? && settings.None? ==> (r.Valid? <==> StartsWith(file.value.mimeType, "image/"))
    ensures file.Some? && settings.Some? && ExtensionError(file.value, settings.value).Some? ==>
      r == Invalid(ExtensionError(file.value, settings.value).value)
    ensures file.Some? && settings.Some? && ParseSize(settings.value.maxFileSize) == 0.0 ==>
      (r.Valid? <==> ExtensionError(file.value, settings.value).None?)
    ensures r.Invalid? && r.error.TooLarge? ==> (file.Some? && settings.Some?
      && ExtensionError(file.value, settings.value).None?
      && 0.0 < ParseSize(settings.value.maxFileSize) < file.value.size as real)
    ensures (file.Some? && settings.Some? && ExtensionError(file.value, settings.value).None?
             && ParseSize(settings.value.maxFileSize) > 0.0) ==>
        (r.Valid? <==> file.value.size as real <= ParseSize(settings.value.maxFileSize))
        && (r.Invalid? ==> r.error == TooLarge(settings.value.maxFileSize.value, file.value.size))
  {
    if file.None? then Invalid(NoFile)
    else if settings.None? then
      if !StartsWith(file.value.mimeType, "image/") then Invalid(NotAnImage) else Valid
    else
      var f := file.value;
      var s := settings.value;
      match ExtensionError(f, s)
      case Some(e) => Invalid(e)
      case None =>
        if SizeSet(s.maxFileSize) then
          var maxSizeBytes := ParseSize(s.maxFileSize);
          if maxSizeBytes > 0.0 && f.size as real > maxSizeBytes then Invalid(TooLarge(s.maxFileSize.value, f.size))
          else Valid
        else Valid
  }

  // ---------------------------------------------------------------------------
  // validateImageFiles
  // ---------------------------------------------------------------------------

  /** Why a batch is refused or only partly accepted. */
  datatype FilesError =
    | NoFiles
    | TotalTooLarge(totalSize: nat, maxRequestSize: string)
    | FileFailed(name: string, error: ImageError)
    | SomeInvalid(errors: seq<(string, ImageError)>)

  /** The object returned; `validFiles` is None where the source leaves it out. */
  datatype FilesResult = FilesResult(isValid: bool, error: Option<FilesError>, validFiles: Option<seq<File>>)

  predicate FileValid(settings: Option<Settings>, f: File) {
    ValidateImageFile(Some(f), settings).Valid?
  }

  /** The files that pass, in order, and the name and error of each file that does not. */
  function Partition(files: seq<File>, settings: Option<Settings>): (r: (seq<File>, seq<(string, ImageError)>))
    ensures |r.0| + |r.1| == |files|
  {
    if files == [] then ([], [])
    else
      var rest := Partition(files[..|files| - 1], settings);
      var f := files[|files| - 1];
      var result := ValidateImageFile(Some(f), settings);
      if result.Valid? then (rest.0 + [f], rest.1) else (rest.0, rest.1 + [(f.name, result.error)])
  }

  /** The files kept are exactly the passing files, in their original order. */
  lemma {:induction false} PartitionFilters(files: seq<File>, settings: Option<Settings>)
    ensures Partition(files, settings).0 == Filter(files, f => FileValid(settings, f))
    ensures forall k :: 0 <= k < |Partition(files, settings).1| ==>
      exists j :: 0 <= j < |files| && !FileValid(settings, files[j]) && Partition(files, settings).1[k].0 == files[j].name
  {
    if files != [] {
      var init := files[..|files| - 1];
      PartitionFilters(init, settings);
      var errs := Partition(files, settings).1;
      forall k | 0 <= k < |errs|
        ensures exists j :: 0 <= j < |files| && !FileValid(settings, files[j]) && errs[k].0 == files[j].name
      {
        if k < |Partition(init, settings).1| {
          var j :| 0 <= j < |init| && !FileValid(settings, init[j]) && Partition(init, settings).1[k].0 == init[j].name;
          assert files[j] == init[j];
        } else {
          assert !FileValid(settings, files[|files| - 1]);
        }
      }
    }
  }

  function TotalSize(files: seq<File>): nat {
    if files == [] then 0 else TotalSize(files[..|files| - 1]) + files[|files| - 1].size
  }

  /** `validateImageFiles(files, settings)` as a function of the whole batch. */
  function ImageFilesResult(files: seq<File>, settings: Option<Settings>): (r: FilesResult)
    ensures files == [] ==> r == FilesResult(false, Some(NoFiles), None)
    ensures r.isValid <==> r.validFiles.Some? && r.validFiles.value != []
    ensures r.error == Some(NoFiles) <==> files == []
    ensures r.error.Some? && r.error.value.TotalTooLarge? ==> r.validFiles == Some([]) && !r.isValid
    ensures var valid := Partition(files, settings).0;
      files != [] && settings.Some? && SizeSet(settings.value.maxRequestSize) && valid != []
      && 0.0 < ParseSize(settings.value.maxRequestSize) < TotalSize(valid) as real
      <==> r.error.Some? && r.error.value.TotalTooLarge?
    ensures r.error.Some? && r.error.value.TotalTooLarge? ==>
      r.error.value == TotalTooLarge(TotalSize(Partition(files, settings).0), settings.value.maxRequestSize.value)
    ensures r.validFiles.Some? && r.validFiles.value != [] ==> r.validFiles.value == Partition(files, settings).0
  {
    if files == [] then FilesResult(false, Some(NoFiles), None)
    else
      var parts := Partition(files, settings);
      var validFiles := parts.0;
      var errors := parts.1;
      if settings.Some? && SizeSet(settings.value.maxRequestSize) && |validFiles| > 0
        && 0.0 < ParseSize(settings.value.maxRequestSize) < TotalSize(validFiles) as real
      then
        FilesResult(false, Some(TotalTooLarge(TotalSize(validFiles), settings.value.maxRequestSize.value)), Some([]))
      else if |validFiles| == 0 && |errors| > 0 then
        FilesResult(false, Some(FileFailed(errors[0].0, errors[0].1)), Some([]))
      else
        FilesResult(|validFiles| > 0, if |errors| > 0 then Some(SomeInvalid(errors)) else None, Some(validFiles))
  }

  /**
   * When the files that pass alone together exceed the request limit, the whole batch
   * is refused with the total of those files, whatever the failing files are.
   */
  lemma TotalTooLargeRefuses(files: seq<File>, settings: Settings)
    requires 0.0 < ParseSize(settings.maxRequestSize) < TotalSize(Filter(files, f => FileValid(Some(settings), f))) as real
    ensures var r := ImageFilesResult(files, Some(settings));
      && !r.isValid && r.validFiles == Some([])
      && r.error == Some(TotalTooLarge(TotalSize(Filter(files, f => FileValid(Some(settings), f))), settings.maxRequestSize.value))
  {
    PartitionFilters(files, Some(settings));
  }

  /** `validateImageFiles(files, settings)`: the `for` loop pushing into `validFiles` and `errors`. */
  method ValidateImageFiles(files: seq<File>, settings: Option<Settings>) returns (r: FilesResult)
    ensures r == ImageFilesResult(files, settings)
  {
    if |files| == 0 {
      return FilesResult(false, Some(NoFiles), None);
    }
    var validFiles, errors := PartitionFiles(files, settings);
    if settings.Some? && SizeSet(settings.value.maxRequestSize) && |validFiles| > 0 {
      var totalSize := SumSizes(validFiles);
      var maxRequestBytes := ParseSize(settings.value.maxRequestSize);
      if maxRequestBytes > 0.0 && totalSize as real > maxRequestBytes {
        return FilesResult(false, Some(TotalTooLarge(totalSize, settings.value.maxRequestSize.value)), Some([]));
      }
    }
    if |validFiles| == 0 && |errors| > 0 {
      return FilesResult(false, Some(FileFailed(errors[0].0, errors[0].1)), Some([]));
    }
    return FilesResult(|validFiles| > 0, if |errors| > 0 then Some(SomeInvalid(errors)) else None, Some(validFiles));
  }

  /** The `for` loop of `validateImageFiles`, pushing into `validFiles` and `errors`. */
  method PartitionFiles(files: seq<File>, settings: Option<Settings>)
    returns (validFiles: seq<File>, errors: seq<(string, ImageError)>)
    ensures (validFiles, errors) == Partition(files, settings)
  {
    validFiles := [];
    errors := [];
    for i := 0 to |files|
      invariant validFiles == Partition(files[..i], settings).0
      invariant errors == Partition(files[..i], settings).1
    {
      PartitionStep(files, settings, i);
      var file := files[i];
      var validation := ValidateImageFile(Some(file), settings);
      if validation.Valid? {
        validFiles := validFiles + [file];
      } else {
        errors := errors + [(file.name, validation.error)];
      }
    }
    assert files[..|files|] == files;
  }

  lemma PartitionStep(files: seq<File>, settings: Option<Settings>, i: nat)
    requires i < |files|
    ensures var p := Partition(files[..i], settings);
      Partition(files[..i + 1], settings) ==
        match ValidateImageFile(Some(files[i]), settings)
        case Valid => (p.0 + [files[i]], p.1)
        case Invalid(e) => (p.0, p.1 + [(files[i].name, e)])
  {
    assert files[..i + 1][..i] == files[..i];
  }

  /** `validFiles.reduce((sum, file) => sum + file.size, 0)`. */
  method SumSizes(files: seq<File>) returns (sum: nat)
    ensures sum == TotalSize(files)
  {
    sum := 0;
    for i := 0 to |files|
      invariant sum == TotalSize(files[..i])
    {
      assert files[..i + 1][..i] == files[..i];
      sum := sum + files[i].size;
    }
    assert files[..|files|] == files;
  }
}
