/** LCOV aggregation (src/utils/coverage.ts:36-229): what each line does, the scan, and the totals. */
module Lcov {
  import opened Common
  import opened Tokens
  import Whitespace

  /** The result of Number(): NaN and the infinities are one case. */
  datatype Num = NotFinite | Finite(value: real)

  type Amount = r: real | r >= 0.0

  type BranchKey = (int, int, int)

  datatype Entry =
    | Start(path: string)
    | End
    | Line(no: int, hit: bool)
    | Branch(key: BranchKey, taken: bool)
    | LinesFound(found: Amount)
    | LinesHit(hits: Amount)
    | BranchesFound(branches: Amount)
    | BranchesHit(branchHits: Amount)
    | BadInFile(kind: string)
    | Bad(kind: string)
    | Other

  // ------------------------------------------------------------------ reading one line

  predicate StartsWith(s: string, prefix: string) {
    |prefix| <= |s| && s[..|prefix|] == prefix
  }

  /** The i-th part of s.split(","), if there is one. */
  function Part(s: string, i: nat): Option<string>
    decreases |s|
  {
    var k := IndexOfComma(s);
    if i == 0 then Some(s[..k]) else if k < |s| then Part(s[k + 1..], i - 1) else None
  }

  function IndexOfComma(s: string): (k: nat)
    ensures k <= |s|
  {
    if s == "" || s[0] == ',' then 0 else 1 + IndexOfComma(s[1..])
  }

  /** Number(part), where a missing part is not a number. */
  function NumberOf(number: string -> Num, part: Option<string>): Num {
    match part
    case Some(text) => number(text)
    case None => NotFinite
  }

  /** Number.isInteger(n) && n >= 0 */
  predicate IsIndex(n: Num) {
    n.Finite? && n.value == n.value.Floor as real && n.value >= 0.0
  }

  predicate IsAmount(n: Num) {
    n.Finite? && n.value >= 0.0
  }

  function ReadLine(number: string -> Num, rest: string): Entry {
    var lineNo, hits := NumberOf(number, Part(rest, 0)), NumberOf(number, Part(rest, 1));
    if IsIndex(lineNo) && IsAmount(hits) then Line(lineNo.value.Floor, hits.value > 0.0) else BadInFile("DA")
  }

  /** "-" or digits, after trimming. */
  function TakenCount(part: Option<string>): Option<nat> {
    var taken := Whitespace.Trim(match part case Some(text) => text case None => "");
    if taken == "-" then Some(0)
    else if taken != "" && DigitsStart(taken) == 0 then Some(ParseDecimal(taken))
    else None
  }

  function ReadBranch(number: string -> Num, rest: string): Entry {
    var lineNo, block, branch :=
      NumberOf(number, Part(rest, 0)), NumberOf(number, Part(rest, 1)), NumberOf(number, Part(rest, 2));
    var taken := TakenCount(Part(rest, 3));
    if IsIndex(lineNo) && IsIndex(block) && IsIndex(branch) && taken.Some? then
      Branch((lineNo.value.Floor, block.value.Floor, branch.value.Floor), taken.value > 0)
    else BadInFile("BRDA")
  }

  /** What a line of a report says. */
  function Read(number: string -> Num, line: string): Entry {
    if StartsWith(line, "SF:") then Start(line[3..])
    else if line == "end_of_record" then End
    else if StartsWith(line, "DA:") then ReadLine(number, line[3..])
    else if StartsWith(line, "BRDA:") then ReadBranch(number, line[5..])
    else if StartsWith(line, "LF:") then
      var v := number(line[3..]); if IsAmount(v) then LinesFound(v.value) else Bad("LF")
    else if StartsWith(line, "LH:") then
      var v := number(line[3..]); if IsAmount(v) then LinesHit(v.value) else Bad("LH")
    else if StartsWith(line, "BRF:") then
      var v := number(line[4..]); if IsAmount(v) then BranchesFound(v.value) else Bad("BRF")
    else if StartsWith(line, "BRH:") then
      var v := number(line[4..]); if IsAmount(v) then BranchesHit(v.value) else Bad("BRH")
    else Other
  }

  // ------------------------------------------------------------------ the state of a file

  datatype FileState = FileState(
    lines: map<int, bool>,
    branches: map<BranchKey, bool>,
    fallbackLinesFound: Amount,
    fallbackLinesHit: Amount,
    fallbackBranchesFound: Amount,
    fallbackBranchesHit: Amount)

  const EMPTY := FileState(map[], map[], 0.0, 0.0, 0.0, 0.0)

  function Max(a: Amount, b: Amount): Amount { if a >= b then a else b }

  function Mark<K>(m: map<K, bool>, k: K, hit: bool): map<K, bool> {
    m[k := (k in m && m[k]) || hit]
  }

  function Record(st: FileState, e: Entry): FileState {
    match e
    case Line(no, hit) => st.(lines := Mark(st.lines, no, hit))
    case Branch(key, taken) => st.(branches := Mark(st.branches, key, taken))
    case LinesFound(v) => st.(fallbackLinesFound := Max(st.fallbackLinesFound, v))
    case LinesHit(v) => st.(fallbackLinesHit := Max(st.fallbackLinesHit, v))
    case BranchesFound(v) => st.(fallbackBranchesFound := Max(st.fallbackBranchesFound, v))
    case BranchesHit(v) => st.(fallbackBranchesHit := Max(st.fallbackBranchesHit, v))
    case _ => st
  }

  // ------------------------------------------------------------------ the scan

  type Files = map<string, FileState>

  datatype Scan = Scan(files: Files, current: Option<string>, hasBranchCoverage: bool)

  datatype LcovError = InvalidValue(kind: string, line: string) | NoInstrumentedLines

  function GetFileState(files: Files, path: string): FileState {
    if path in files then files[path] else EMPTY
  }

  /** Whether an entry shows that the report has branch data; a BRDA line counts inside a file only. */
  predicate ShowsBranches(e: Entry, inFile: bool) {
    e.BranchesFound? || e.BranchesHit? || (e.Branch? && inFile)
  }

  function Step(scan: Scan, e: Entry, line: string): Result<Scan, LcovError> {
    match e
    case Start(path) => Ok(scan.(files := scan.files[path := GetFileState(scan.files, path)], current := Some(path)))
    case End => Ok(scan.(current := None))
    case Bad(kind) => Err(InvalidValue(kind, line))
    case BadInFile(kind) => if scan.current.Some? then Err(InvalidValue(kind, line)) else Ok(scan)
    case _ =>
      var marked := scan.(hasBranchCoverage := scan.hasBranchCoverage || ShowsBranches(e, scan.current.Some?));
      match scan.current
      case Some(path) => Ok(marked.(files := scan.files[path := Record(GetFileState(scan.files, path), e)]))
      case None => Ok(marked)
  }

  function RunFrom(number: string -> Num, scan: Scan, lines: seq<string>): Result<Scan, LcovError>
    decreases |lines|
  {
    if lines == [] then Ok(scan)
    else
      match Step(scan, Read(number, lines[0]), lines[0])
      case Ok(next) => RunFrom(number, next, lines[1..])
      case Err(e) => Err(e)
  }

  const BEFORE := Scan(map[], None, false)

  // ------------------------------------------------------------------ totals

  function TrueKeys<K>(m: map<K, bool>): set<K> {
    set k | k in m && m[k]
  }

  function FoundIn(st: FileState): Amount {
    if |st.lines| > 0 then |st.lines| as real else st.fallbackLinesFound
  }

  function HitIn(st: FileState): Amount {
    if |st.lines| > 0 then |TrueKeys(st.lines)| as real else st.fallbackLinesHit
  }

  function BranchesFoundIn(st: FileState): Amount {
    if |st.branches| > 0 then |st.branches| as real else st.fallbackBranchesFound
  }

  function BranchesHitIn(st: FileState): Amount {
    if |st.branches| > 0 then |TrueKeys(st.branches)| as real else st.fallbackBranchesHit
  }

  /** The sum of an amount over all files, in whatever order. */
  ghost function Total(files: Files, amount: FileState -> Amount): Amount {
    if files == map[] then 0.0
    else
      var path :| path in files;
      Total(files - {path}, amount) + amount(files[path])
  }

  /** It does not matter which file is taken out first. */
  lemma {:induction false} TotalWithout(files: Files, amount: FileState -> Amount, path: string)
    requires path in files
    ensures Total(files, amount) == Total(files - {path}, amount) + amount(files[path])
    decreases |files|
  {
    var first :| first in files && Total(files, amount) == Total(files - {first}, amount) + amount(files[first]);
    if first != path {
      var fewer := files - {first};
      TotalWithout(fewer, amount, path);
      TotalWithout(files - {path}, amount, first);
      assert files - {path} - {first} == fewer - {path};
    }
  }

  lemma TotalWith(files: Files, amount: FileState -> Amount, path: string, st: FileState)
    requires path !in files
    ensures Total(files[path := st], amount) == Total(files, amount) + amount(st)
  {
    TotalWithout(files[path := st], amount, path);
    assert files[path := st] - {path} == files;
  }

  datatype Summary = Summary(
    linesFound: Amount,
    linesHit: Amount,
    lineCoveragePct: Amount,
    branchesFound: Amount,
    branchesHit: Amount,
    hasBranchCoverage: bool,
    branchCoveragePct: Amount)

  function Percent(part: Amount, whole: Amount): Amount
    requires whole > 0.0
  {
    var pct := (part / whole) * 100.0;
    assert part / whole >= 0.0;
    pct
  }

  ghost function Summarize(files: Files, hasBranchCoverage: bool): Result<Summary, LcovError> {
    var found, hit := Total(files, FoundIn), Total(files, HitIn);
    var branches, branchHits := Total(files, BranchesFoundIn), Total(files, BranchesHitIn);
    if found == 0.0 then Err(NoInstrumentedLines)
    else
      Ok(Summary(found, hit, Percent(hit, found), branches, branchHits, hasBranchCoverage,
                 if branches > 0.0 then Percent(branchHits, branches) else 100.0))
  }

  ghost function Coverage(number: string -> Num, lines: seq<string>): Result<Summary, LcovError> {
    match RunFrom(number, BEFORE, lines)
    case Err(e) => Err(e)
    case Ok(scan) => Summarize(scan.files, scan.hasBranchCoverage)
  }

  ghost predicate Sums(files: Files, found: Amount, hit: Amount, branches: Amount, branchHits: Amount) {
    && found == Total(files, FoundIn) && hit == Total(files, HitIn)
    && branches == Total(files, BranchesFoundIn) && branchHits == Total(files, BranchesHitIn)
  }

  lemma AddFile(
      done: Files, path: string, st: FileState, found: Amount, hit: Amount, branches: Amount, branchHits: Amount)
    requires path !in done && Sums(done, found, hit, branches, branchHits)
    ensures Sums(done[path := st], found + FoundIn(st), hit + HitIn(st), branches + BranchesFoundIn(st),
                 branchHits + BranchesHitIn(st))
  {
    TotalWith(done, FoundIn, path, st);
    TotalWith(done, HitIn, path, st);
    TotalWith(done, BranchesFoundIn, path, st);
    TotalWith(done, BranchesHitIn, path, st);
  }

  lemma NoFiles()
    ensures Sums(map[], 0.0, 0.0, 0.0, 0.0)
  {
  }

  /** Some of the files: those of the first i paths. */
  ghost predicate FirstFiles(files: Files, order: seq<string>, i: nat, done: Files) {
    && i <= |order| && done.Keys == Elements(order[..i]) && done.Keys <= files.Keys
    && forall p :: p in done ==> done[p] == files[p]
  }

  lemma NextFile(files: Files, order: seq<string>, i: nat, done: Files)
    requires InOrder(files, order) && i < |order| && FirstFiles(files, order, i, done)
    ensures order[i] in files && order[i] !in done && FirstFiles(files, order, i + 1, done[order[i] := files[order[i]]])
  {
    assert order[i] in Elements(order);
    ElementsSnoc(order, i);
  }

  lemma AllFiles(files: Files, order: seq<string>, done: Files)
    requires InOrder(files, order) && FirstFiles(files, order, |order|, done)
    ensures done == files
  {
    assert order[..|order|] == order;
  }

  /** The totals, file by file in the order in which the files were first named. */
  method AddUp(files: Files, order: seq<string>)
    returns (found: Amount, hit: Amount, branches: Amount, branchHits: Amount)
    requires InOrder(files, order)
    ensures Sums(files, found, hit, branches, branchHits)
  {
    found, hit, branches, branchHits := 0.0, 0.0, 0.0, 0.0;
    ghost var done: Files := map[];
    NoFiles();
    var i := 0;
    while i < |order|
      invariant FirstFiles(files, order, i, done) && Sums(done, found, hit, branches, branchHits)
    {
      NextFile(files, order, i, done);
      var state := files[order[i]];
      AddFile(done, order[i], state, found, hit, branches, branchHits);
      done := done[order[i] := state];
      if |state.lines| > 0 {
        found := found + |state.lines| as real;
        hit := hit + |TrueKeys(state.lines)| as real;
      } else {
        found := found + state.fallbackLinesFound;
        hit := hit + state.fallbackLinesHit;
      }
      if |state.branches| > 0 {
        branches := branches + |state.branches| as real;
        branchHits := branchHits + |TrueKeys(state.branches)| as real;
      } else {
        branches := branches + state.fallbackBranchesFound;
        branchHits := branchHits + state.fallbackBranchesHit;
      }
      i := i + 1;
    }
    AllFiles(files, order, done);
  }

  /** The paths of the files in the order in which they were first named. */
  ghost predicate InOrder(files: Files, order: seq<string>) {
    NoDuplicates(order) && Elements(order) == files.Keys
  }

  /** getFileState: the state of a file, created when the file is named for the first time. */
  method NameFile(files: Files, order: seq<string>, path: string) returns (files': Files, order': seq<string>)
    requires InOrder(files, order)
    ensures InOrder(files', order') && files' == files[path := GetFileState(files, path)]
  {
    files', order' := files, order;
    if path !in files {
      assert path !in Elements(order);
      files' := files[path := EMPTY];
      order' := order + [path];
      assert Elements(order') == Elements(order) + {path};
    }
  }

  /** The body of the scanning loop. */
  method ScanLine(number: string -> Num, scan: Scan, order: seq<string>, line: string)
    returns (next: Result<Scan, LcovError>, order': seq<string>)
    requires InOrder(scan.files, order) && (scan.current.Some? ==> scan.current.value in scan.files)
    ensures next == Step(scan, Read(number, line), line)
    ensures next.Ok? ==>
              InOrder(next.value.files, order')
              && (next.value.current.Some? ==> next.value.current.value in next.value.files)
  {
    var entry := Read(number, line);
    order' := order;
    match entry
    case Start(path) =>
      var files;
      files, order' := NameFile(scan.files, order, path);
      next := Ok(scan.(files := files, current := Some(path)));
    case End =>
      next := Ok(scan.(current := None));
    case Bad(kind) =>
      next := Err(InvalidValue(kind, line));
    case BadInFile(kind) =>
      next := if scan.current.Some? then Err(InvalidValue(kind, line)) else Ok(scan);
    case _ =>
      var files := scan.files;
      if scan.current.Some? {
        files := files[scan.current.value := Record(files[scan.current.value], entry)];
        assert files.Keys == scan.files.Keys;
      }
      var hasBranchCoverage := scan.hasBranchCoverage || ShowsBranches(entry, scan.current.Some?);
      next := Ok(Scan(files, scan.current, hasBranchCoverage));
  }

  lemma RunStep(number: string -> Num, scan: Scan, lines: seq<string>, i: nat)
    requires i < |lines|
    ensures RunFrom(number, scan, lines[i..]) ==
            match Step(scan, Read(number, lines[i]), lines[i])
            case Ok(next) => RunFrom(number, next, lines[i + 1..])
            case Err(e) => Err(e)
  {
    assert lines[i..][1..] == lines[i + 1..];
  }

  method ScanLines(number: string -> Num, lines: seq<string>) returns (r: Result<Scan, LcovError>, order: seq<string>)
    ensures r == RunFrom(number, BEFORE, lines) && (r.Ok? ==> InOrder(r.value.files, order))
  {
    var scan := BEFORE;
    order := [];
    var i := 0;
    while i < |lines|
      invariant i <= |lines| && RunFrom(number, scan, lines[i..]) == RunFrom(number, BEFORE, lines)
      invariant InOrder(scan.files, order) && (scan.current.Some? ==> scan.current.value in scan.files)
    {
      RunStep(number, scan, lines, i);
      r, order := ScanLine(number, scan, order, lines[i]);
      if r.Err? {
        return Err(r.error), [];
      }
      scan := r.value;
      i := i + 1;
    }
    r := Ok(scan);
  }

  /** The scanning loop, then the totals. */
  method ParseLcovCoverage(number: string -> Num, lines: seq<string>) returns (r: Result<Summary, LcovError>)
    ensures r == Coverage(number, lines)
  {
    var scanned, order := ScanLines(number, lines);
    if scanned.Err? {
      return Err(scanned.error);
    }
    var scan := scanned.value;
    var found, hit, branches, branchHits := AddUp(scan.files, order);
    if found == 0.0 {
      return Err(NoInstrumentedLines);
    }
    r := Ok(Summary(found, hit, Percent(hit, found), branches, branchHits, scan.hasBranchCoverage,
                    if branches > 0.0 then Percent(branchHits, branches) else 100.0));
  }
}
