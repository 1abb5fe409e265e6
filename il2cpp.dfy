/** The IL2CPP output analyzer (IL2CPPOutputFileAnalyzer.cs): for every
    `*_CodeGen.c` file of a directory, the module name found two lines below
    the `const Il2CppCodeGenModule` header and the method count found on the
    line just before the first later `s_methodPointers` line, written as a
    two-column report. Files are given as their lines, as `ReadLine` returns
    them; the directory as its entries in enumeration order. */
module Il2Cpp {
  import opened Text

  /** `ModuleInfo`: `name` is None while no header was seen (the field is a
      null string); `generatedMethods` starts at 0. */
  datatype ModuleInfo = ModuleInfo(name: Option<string>, generatedMethods: nat)

  /** What `ParsingFile` ends with: null for a file it does not read, a
      module, or an exception (`NullReferenceException` on a header too
      close to the end, `FormatException`/`OverflowException` from
      `int.Parse`), which ends the whole analysis. */
  datatype ParseResult = NotCodeGen | Parsed(info: ModuleInfo) | Crash

  /** One directory entry: its path, `present`: whether `File.Exists` holds, and its
      lines. */
  datatype SourceFile = SourceFile(path: string, present: bool, lines: seq<string>)

  const Header := "const Il2CppCodeGenModule"
  const MethodPointers := "s_methodPointers"
  const CodeGenSuffix := "_CodeGen.c"

  /** `line.Trim().Replace("\"", "").Trim(',')` (line 93). */
  function CleanName(line: string): (r: string)
    ensures '"' !in r
  {
    TrimSet(RemoveAll(Trim(line), '"'), {','})
  }

  /** `prevLine.Trim().Trim(',')` (line 97). */
  function CountText(line: string): string {
    TrimSet(Trim(line), {','})
  }

  /** Lines 97-98: the count parsed from the previous line ends the
      parse, or `int.Parse` throws. */
  function ReadCount(name: Option<string>, prevLine: string): (r: ParseResult)
    ensures r.Parsed? <==> ParseInt(CountText(prevLine)).Some?
    ensures r.Parsed? ==> r.info == ModuleInfo(name, ParseInt(CountText(prevLine)).value)
  {
    match ParseInt(CountText(prevLine))
    case None => Crash
    case Some(n) => Parsed(ModuleInfo(name, n))
  }

  predicate HasName(name: Option<string>) {
    name.Some? && name.value != ""
  }

  /** The read loop of lines 81-102 from line `i` on, with the module name
      and the previous line read so far. */
  function Scan(lines: seq<string>, i: nat, name: Option<string>, prevLine: string): ParseResult
    requires i <= |lines|
    decreases |lines| - i
  {
    if i == |lines| then Parsed(ModuleInfo(name, 0))
    else if StartsWith(lines[i], Header) then
      if i + 2 >= |lines| then Crash
      else Scan(lines, i + 3, Some(CleanName(lines[i + 2])), lines[i + 2])
    else if HasName(name) && Contains(lines[i], MethodPointers) then
      ReadCount(name, prevLine)
    else Scan(lines, i + 1, name, lines[i])
  }

  function ParseFile(f: SourceFile): ParseResult {
    if !EndsWith(f.path, CodeGenSuffix) || !f.present then NotCodeGen
    else Scan(f.lines, 0, None, "")
  }

  /** `ParsingFile` (lines 70-106). */
  method ParsingFile(f: SourceFile) returns (r: ParseResult)
    ensures r == ParseFile(f)
    ensures !EndsWith(f.path, CodeGenSuffix) ==> r == NotCodeGen
  {
    if !EndsWith(f.path, CodeGenSuffix) || !f.present {
      return NotCodeGen;
    }
    var lines := f.lines;
    var name: Option<string> := None;
    var generatedMethods: nat := 0;
    var prevLine := "";
    var i := 0;
    while i < |lines|
      invariant 0 <= i <= |lines|
      invariant Scan(lines, i, name, prevLine) == Scan(lines, 0, None, "")
      decreases |lines| - i
    {
      var line := lines[i];
      i := i + 1;
      if StartsWith(line, Header) {
        if i + 1 >= |lines| {
          return Crash;
        }
        line := lines[i];
        line := lines[i + 1];
        i := i + 2;
        name := Some(CleanName(line));
      } else if HasName(name) && Contains(line, MethodPointers) {
        var n := ParseInt(CountText(prevLine));
        if n.None? {
          return Crash;
        }
        generatedMethods := n.value;
        break;
      }
      prevLine := line;
    }
    r := Parsed(ModuleInfo(name, generatedMethods));
  }

  // ---------------------------------------------------------------------
  // Properties of the parser

  /** Lines that are neither a header nor, once a name is set, a
      `s_methodPointers` line are only remembered as the previous line. */
  predicate Plain(line: string, name: Option<string>) {
    !StartsWith(line, Header) && !(HasName(name) && Contains(line, MethodPointers))
  }

  /** Lines `i..j` hold neither a header nor `s_methodPointers`. */
  predicate Quiet(lines: seq<string>, i: nat, j: nat)
    requires i <= j <= |lines|
  {
    forall k :: i <= k < j ==> !StartsWith(lines[k], Header) && !Contains(lines[k], MethodPointers)
  }

  /** No header among the first `h` lines. */
  predicate NoHeaderBefore(lines: seq<string>, h: nat)
    requires h <= |lines|
  {
    forall k :: 0 <= k < h ==> !StartsWith(lines[k], Header)
  }

  lemma {:induction false} ScanPlain(lines: seq<string>, i: nat, j: nat, name: Option<string>, prevLine: string)
    requires i <= j <= |lines|
    requires forall k :: i <= k < j ==> Plain(lines[k], name)
    ensures Scan(lines, i, name, prevLine) == Scan(lines, j, name, if i < j then lines[j - 1] else prevLine)
    decreases j - i
  {
    if i < j {
      assert Plain(lines[i], name);
      ScanPlainStep(lines, i, name, prevLine);
      if i + 1 < j {
        assert forall k :: i + 1 <= k < j ==> Plain(lines[k], name);
        ScanPlain(lines, i + 1, j, name, lines[i]);
      }
    }
  }

  lemma ScanPlainStep(lines: seq<string>, i: nat, name: Option<string>, prevLine: string)
    requires i < |lines| && Plain(lines[i], name)
    ensures Scan(lines, i, name, prevLine) == Scan(lines, i + 1, name, lines[i])
  {
  }

  lemma ScanHeaderStep(lines: seq<string>, i: nat, name: Option<string>, prevLine: string)
    requires i + 2 < |lines| && StartsWith(lines[i], Header)
    ensures Scan(lines, i, name, prevLine) == Scan(lines, i + 3, Some(CleanName(lines[i + 2])), lines[i + 2])
  {
  }

  /** A file without a header line gives a module with no name and no
      methods: without a name the `s_methodPointers` test is never made. */
  lemma NoHeaderNoModuleName(lines: seq<string>)
    requires forall k :: 0 <= k < |lines| ==> !StartsWith(lines[k], Header)
    ensures Scan(lines, 0, None, "") == Parsed(ModuleInfo(None, 0))
  {
    ScanPlain(lines, 0, |lines|, None, "");
  }

  /** A name that cleans to "" does not enable the `s_methodPointers` test:
      the file then gives that empty name and a count of 0. */
  lemma EmptyNameReadsNoCount(lines: seq<string>)
    requires |lines| >= 3 && StartsWith(lines[0], Header) && CleanName(lines[2]) == ""
    requires forall k :: 3 <= k < |lines| ==> !StartsWith(lines[k], Header)
    ensures Scan(lines, 0, None, "") == Parsed(ModuleInfo(Some(""), 0))
  {
    ScanHeaderStep(lines, 0, None, "");
    ScanPlain(lines, 3, |lines|, Some(""), lines[2]);
  }

  /** A header too close to the end of the file: the second `ReadLine`
      returns null and `Trim` throws. */
  lemma HeaderAtEndCrashes(pre: seq<string>, header: string, rest: seq<string>)
    requires forall k :: 0 <= k < |pre| ==> !StartsWith(pre[k], Header)
    requires StartsWith(header, Header) && |rest| < 2
    ensures Scan(pre + [header] + rest, 0, None, "") == Crash
  {
    var lines := pre + [header] + rest;
    assert forall k :: 0 <= k < |pre| ==> lines[k] == pre[k];
    ScanPlain(lines, 0, |pre|, None, "");
  }

  /** Once a name is set, the scan stops at the first `s_methodPointers`
      line and reads the count from the line just before it (`last`). */
  lemma ScanToPointers(lines: seq<string>, i: nat, j: nat, name: string, prevLine: string, last: string)
    requires i <= j < |lines| && name != ""
    requires last == if i < j then lines[j - 1] else prevLine
    requires Quiet(lines, i, j)
    requires !StartsWith(lines[j], Header) && Contains(lines[j], MethodPointers)
    ensures Scan(lines, i, Some(name), prevLine) == ReadCount(Some(name), last)
  {
    ScanPlain(lines, i, j, Some(name), prevLine);
    ScanPointersStep(lines, j, Some(name), last);
  }

  /** Up to the first header nothing is recorded; the header branch then
      consumes three lines, sets the name from the last of them and leaves
      that name line, not the header, as the previous line. */
  lemma ScanThroughHeader(lines: seq<string>, h: nat)
    requires h + 2 < |lines|
    requires NoHeaderBefore(lines, h)
    requires StartsWith(lines[h], Header)
    ensures Scan(lines, 0, None, "") == Scan(lines, h + 3, Some(CleanName(lines[h + 2])), lines[h + 2])
  {
    var prev := if 0 < h then lines[h - 1] else "";
    ScanPlain(lines, 0, h, None, "");
    ScanHeaderStep(lines, h, None, prev);
  }

  lemma ScanPointersStep(lines: seq<string>, i: nat, name: Option<string>, prevLine: string)
    requires i < |lines| && !StartsWith(lines[i], Header) && HasName(name) && Contains(lines[i], MethodPointers)
    ensures Scan(lines, i, name, prevLine) == ReadCount(name, prevLine)
  {
  }

  /** The header test comes first: a second header three lines after the
      first replaces the name, and a file ending without `s_methodPointers`
      keeps the last name and a count of 0. */
  lemma LaterHeaderOverwritesName(lines: seq<string>)
    requires |lines| >= 6 && StartsWith(lines[0], Header) && StartsWith(lines[3], Header)
    requires forall k :: 6 <= k < |lines| ==> !StartsWith(lines[k], Header) && !Contains(lines[k], MethodPointers)
    ensures Scan(lines, 0, None, "") == Parsed(ModuleInfo(Some(CleanName(lines[5])), 0))
  {
    ScanHeaderStep(lines, 0, None, "");
    ScanHeaderStep(lines, 3, Some(CleanName(lines[2])), lines[2]);
    ScanPlain(lines, 6, |lines|, Some(CleanName(lines[5])), lines[5]);
  }

  /** A parsed module's name holds no quote. */
  lemma {:induction false} ScanNameQuoteFree(lines: seq<string>, i: nat, name: Option<string>, prevLine: string)
    requires i <= |lines|
    requires name.Some? ==> '"' !in name.value
    ensures var r := Scan(lines, i, name, prevLine);
            r.Parsed? && r.info.name.Some? ==> '"' !in r.info.name.value
    decreases |lines| - i
  {
    if i < |lines| {
      if StartsWith(lines[i], Header) {
        if i + 2 < |lines| {
          ScanNameQuoteFree(lines, i + 3, Some(CleanName(lines[i + 2])), lines[i + 2]);
        }
      } else if !(HasName(name) && Contains(lines[i], MethodPointers)) {
        ScanNameQuoteFree(lines, i + 1, name, lines[i]);
      }
    }
  }

  // ---------------------------------------------------------------------
  // The analysis (lines 33-67)

  /** The modules of the files, in order, or None when a file throws. */
  function CollectModules(files: seq<SourceFile>): Option<seq<ModuleInfo>> {
    if files == [] then Some([])
    else match CollectModules(files[..|files| - 1])
      case None => None
      case Some(infos) =>
        match ParseFile(files[|files| - 1])
        case Crash => None
        case NotCodeGen => Some(infos)
        case Parsed(info) => Some(infos + [info])
  }

  /** The report row of a module: a null name interpolates as "". */
  function ModuleRow(info: ModuleInfo): (string, string) {
    (if info.name.Some? then info.name.value else "", NatToString(info.generatedMethods))
  }

  function ModuleRows(infos: seq<ModuleInfo>): (rows: seq<(string, string)>)
    ensures |rows| == |infos| && forall i :: 0 <= i < |infos| ==> rows[i] == ModuleRow(infos[i])
  {
    seq(|infos|, i requires 0 <= i < |infos| => ModuleRow(infos[i]))
  }

  /** What the Analyze button writes to `moduleInfo.csv`, or None when
      nothing is written: no such directory, a file that throws, or no
      module found. */
  function AnalyzeSpec(directoryExists: bool, files: seq<SourceFile>): Option<string> {
    if !directoryExists then None
    else match CollectModules(files)
      case None => None
      case Some(infos) => if infos == [] then None else Some(CsvReport(ModuleRows(infos)))
  }

  /** Lines 57-61: one line per module, in order. */
  method BuildReport(moduleInfos: seq<ModuleInfo>) returns (output: string)
    ensures output == CsvReport(ModuleRows(moduleInfos))
  {
    output := "";
    var i := 0;
    while i < |moduleInfos|
      invariant 0 <= i <= |moduleInfos|
      invariant output == CsvReport(ModuleRows(moduleInfos[..i]))
    {
      var moduleInfo := moduleInfos[i];
      var name := if moduleInfo.name.Some? then moduleInfo.name.value else "";
      output := output + CsvLine(name, NatToString(moduleInfo.generatedMethods));
      assert ModuleRows(moduleInfos[..i + 1]) == ModuleRows(moduleInfos[..i]) + [ModuleRow(moduleInfo)];
      i := i + 1;
    }
    assert moduleInfos[..i] == moduleInfos;
  }

  /** The Analyze button of `OnGUI` (lines 33-67), with the file system
      given as data and the written text as the result. */
  method Analyze(directoryExists: bool, files: seq<SourceFile>) returns (written: Option<string>)
    ensures written == AnalyzeSpec(directoryExists, files)
  {
    var moduleInfos: seq<ModuleInfo> := [];
    if !directoryExists {
      return None;
    }
    var i := 0;
    while i < |files|
      invariant 0 <= i <= |files|
      invariant CollectModules(files[..i]) == Some(moduleInfos)
    {
      assert files[..i + 1][..i] == files[..i] && files[..i + 1][i] == files[i];
      var info := ParsingFile(files[i]);
      if info.Crash? {
        CrashIsFinal(files, i + 1);
        return None;
      }
      if info.Parsed? {
        moduleInfos := moduleInfos + [info.info];
      }
      i := i + 1;
    }
    assert files[..i] == files;
    if |moduleInfos| == 0 {
      return None;
    }
    var output := BuildReport(moduleInfos);
    written := Some(output);
  }

  /** Once a file throws, the analysis is over whatever follows. */
  lemma {:induction false} CrashIsFinal(files: seq<SourceFile>, n: nat)
    requires n <= |files| && CollectModules(files[..n]) == None
    ensures CollectModules(files) == None
    decreases |files| - n
  {
    if n < |files| {
      assert files[..n + 1][..n] == files[..n];
      CrashIsFinal(files, n + 1);
    } else {
      assert files[..n] == files;
    }
  }

  lemma {:induction false} CollectedNamesQuoteFree(files: seq<SourceFile>)
    ensures var r := CollectModules(files);
            r.Some? ==> forall i :: 0 <= i < |r.value| && r.value[i].name.Some? ==> '"' !in r.value[i].name.value
    decreases |files|
  {
    if files != [] {
      CollectedNamesQuoteFree(files[..|files| - 1]);
      var f := files[|files| - 1];
      if EndsWith(f.path, CodeGenSuffix) && f.present {
        ScanNameQuoteFree(f.lines, 0, None, "");
      }
    }
  }

  /** The report reads back as one row per module found, in directory
      order, with its name and its method count. */
  lemma ReportRoundTrip(directoryExists: bool, files: seq<SourceFile>)
    requires AnalyzeSpec(directoryExists, files).Some?
    ensures var infos := CollectModules(files).value;
            var parsed := ParseCsv(AnalyzeSpec(directoryExists, files).value);
            parsed.Some? && |parsed.value| == |infos| > 0 &&
            forall i :: 0 <= i < |infos| ==>
              parsed.value[i].0 == (if infos[i].name.Some? then infos[i].name.value else "") &&
              ParseInt(parsed.value[i].1) == Some(infos[i].generatedMethods)
  {
    var infos := CollectModules(files).value;
    var rows := ModuleRows(infos);
    CollectedNamesQuoteFree(files);
    CollectedCountsBounded(files);
    assert QuoteFree(rows) by {
      forall i | 0 <= i < |rows| ensures '"' !in rows[i].0 && '"' !in rows[i].1 {
        var d := NatToString(infos[i].generatedMethods);
        assert forall j :: 0 <= j < |d| ==> IsDigit(d[j]);
      }
    }
    CsvReportRoundTrip(rows);
    forall i | 0 <= i < |infos| ensures ParseInt(rows[i].1) == Some(infos[i].generatedMethods) {
      ParseIntOfNatToString(infos[i].generatedMethods);
    }
  }

  lemma {:induction false} ScanCountBounded(lines: seq<string>, i: nat, name: Option<string>, prevLine: string)
    requires i <= |lines|
    ensures var r := Scan(lines, i, name, prevLine);
            r.Parsed? ==> r.info.generatedMethods <= Int32Max
    decreases |lines| - i
  {
    if i < |lines| {
      if StartsWith(lines[i], Header) {
        if i + 2 < |lines| {
          ScanCountBounded(lines, i + 3, Some(CleanName(lines[i + 2])), lines[i + 2]);
        }
      } else if !(HasName(name) && Contains(lines[i], MethodPointers)) {
        ScanCountBounded(lines, i + 1, name, lines[i]);
      }
    }
  }

  lemma {:induction false} CollectedCountsBounded(files: seq<SourceFile>)
    ensures var r := CollectModules(files);
            r.Some? ==> forall i :: 0 <= i < |r.value| ==> r.value[i].generatedMethods <= Int32Max
    decreases |files|
  {
    if files != [] {
      CollectedCountsBounded(files[..|files| - 1]);
      var f := files[|files| - 1];
      if EndsWith(f.path, CodeGenSuffix) && f.present {
        ScanCountBounded(f.lines, 0, None, "");
      }
    }
  }
}
