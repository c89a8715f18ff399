/** Any LCOV report at all: only the set of its blocks matters, and hits never exceed totals. */
module LcovReports {
  import opened Common
  import opened Lcov

  /** The lines about one file: those after SF, up to end_of_record, the next SF or the end of the report. */
  datatype Block = Block(path: string, body: seq<string>)

  /** The finished blocks, the one that is open, and whether a line outside all blocks shows branch data. */
  datatype Parts = Parts(closed: seq<Block>, open: Option<Block>, stray: bool)

  function AllBlocks(p: Parts): seq<Block> {
    match p.open
    case Some(b) => p.closed + [b]
    case None => p.closed
  }

  function NextPart(number: string -> Num, p: Parts, line: string): Parts {
    match Read(number, line)
    case Start(path) => p.(closed := AllBlocks(p), open := Some(Block(path, [])))
    case End => p.(closed := AllBlocks(p), open := None)
    case e =>
      match p.open
      case Some(b) => p.(open := Some(Block(b.path, b.body + [line])))
      case None => p.(stray := p.stray || ShowsBranches(e, false))
  }

  const NO_PARTS := Parts([], None, false)

  /** What a report consists of, whatever its lines are. */
  function Split(number: string -> Num, lines: seq<string>): Parts {
    if lines == [] then NO_PARTS else NextPart(number, Split(number, lines[..|lines| - 1]), lines[|lines| - 1])
  }

  function BlocksOf(number: string -> Num, lines: seq<string>): seq<Block> {
    AllBlocks(Split(number, lines))
  }

  /** An invalid amount anywhere, or an invalid DA or BRDA line inside a block. */
  predicate Invalid(number: string -> Num, inBlock: bool, line: string) {
    Read(number, line).Bad? || (inBlock && Read(number, line).BadInFile?)
  }

  /** A line inside a block, with a valid value. */
  predicate InnerLine(number: string -> Num, line: string) {
    !Read(number, line).Start? && !Read(number, line).End? && !Invalid(number, true, line)
  }

  predicate InvalidAt(number: string -> Num, lines: seq<string>, i: nat) {
    i < |lines| && Invalid(number, Split(number, lines[..i]).open.Some?, lines[i])
  }

  /** No line is invalid where it stands. */
  ghost predicate Accepted(number: string -> Num, lines: seq<string>) {
    forall i: nat :: !InvalidAt(number, lines, i)
  }

  ghost predicate FirstInvalid(number: string -> Num, lines: seq<string>, i: nat) {
    InvalidAt(number, lines, i) && forall j: nat :: j < i ==> !InvalidAt(number, lines, j)
  }

  // ------------------------------------------------------------------ joining what was learnt

  function Merge<K>(a: map<K, bool>, b: map<K, bool>): map<K, bool> {
    map k | k in a.Keys + b.Keys :: (k in a && a[k]) || (k in b && b[k])
  }

  function Join(a: FileState, b: FileState): FileState {
    FileState(
      Merge(a.lines, b.lines),
      Merge(a.branches, b.branches),
      Max(a.fallbackLinesFound, b.fallbackLinesFound),
      Max(a.fallbackLinesHit, b.fallbackLinesHit),
      Max(a.fallbackBranchesFound, b.fallbackBranchesFound),
      Max(a.fallbackBranchesHit, b.fallbackBranchesHit))
  }

  datatype Tally = Tally(files: Files, hasBranchCoverage: bool)

  function JoinTally(s: Tally, t: Tally): Tally {
    Tally(map p | p in s.files.Keys + t.files.Keys :: Join(GetFileState(s.files, p), GetFileState(t.files, p)),
          s.hasBranchCoverage || t.hasBranchCoverage)
  }

  lemma MergeAssociates<K>(a: map<K, bool>, b: map<K, bool>, c: map<K, bool>)
    ensures Merge(Merge(a, b), c) == Merge(a, Merge(b, c))
  {
    var left, right := Merge(Merge(a, b), c), Merge(a, Merge(b, c));
    assert left.Keys == a.Keys + b.Keys + c.Keys;
    assert right.Keys == a.Keys + (b.Keys + c.Keys);
    forall k | k in left ensures left[k] == right[k] {
      assert left[k] == ((k in a && a[k]) || (k in b && b[k]) || (k in c && c[k]));
    }
  }

  lemma MergeLaws<K>(a: map<K, bool>, b: map<K, bool>)
    ensures Merge(a, b) == Merge(b, a) && Merge(a, a) == a && Merge(map[], a) == a
  {
  }

  lemma JoinLaws(a: FileState, b: FileState, c: FileState)
    ensures Join(a, b) == Join(b, a) && Join(a, a) == a && Join(EMPTY, a) == a && Join(a, EMPTY) == a
    ensures Join(Join(a, b), c) == Join(a, Join(b, c))
  {
    MergeLaws(a.lines, b.lines);
    MergeLaws(a.branches, b.branches);
    MergeLaws(a.lines, map[]);
    MergeLaws(a.branches, map[]);
    MergeAssociates(a.lines, b.lines, c.lines);
    MergeAssociates(a.branches, b.branches, c.branches);
  }

  lemma GetJoined(s: Tally, t: Tally, path: string)
    ensures GetFileState(JoinTally(s, t).files, path) == Join(GetFileState(s.files, path), GetFileState(t.files, path))
  {
    JoinLaws(EMPTY, EMPTY, EMPTY);
  }

  lemma SameTally(s: Tally, t: Tally)
    requires s.files.Keys == t.files.Keys && s.hasBranchCoverage == t.hasBranchCoverage
    requires forall p :: p in s.files ==> GetFileState(s.files, p) == GetFileState(t.files, p)
    ensures s == t
  {
    forall p | p in s.files ensures s.files[p] == t.files[p] {
      assert GetFileState(s.files, p) == GetFileState(t.files, p);
    }
  }

  lemma JoinTallyCommutes(s: Tally, t: Tally)
    ensures JoinTally(s, t) == JoinTally(t, s)
  {
    forall p: string ensures GetFileState(JoinTally(s, t).files, p) == GetFileState(JoinTally(t, s).files, p) {
      GetJoined(s, t, p);
      GetJoined(t, s, p);
      JoinLaws(GetFileState(s.files, p), GetFileState(t.files, p), EMPTY);
    }
    SameTally(JoinTally(s, t), JoinTally(t, s));
  }

  lemma JoinTallyRepeats(s: Tally)
    ensures JoinTally(s, s) == s
  {
    forall p: string ensures GetFileState(JoinTally(s, s).files, p) == GetFileState(s.files, p) {
      GetJoined(s, s, p);
      JoinLaws(GetFileState(s.files, p), EMPTY, EMPTY);
    }
    SameTally(JoinTally(s, s), s);
  }

  lemma JoinedThrice(s: Tally, t: Tally, u: Tally, path: string)
    ensures GetFileState(JoinTally(JoinTally(s, t), u).files, path)
            == GetFileState(JoinTally(s, JoinTally(t, u)).files, path)
  {
    GetJoined(JoinTally(s, t), u, path);
    GetJoined(s, t, path);
    GetJoined(s, JoinTally(t, u), path);
    GetJoined(t, u, path);
    JoinLaws(GetFileState(s.files, path), GetFileState(t.files, path), GetFileState(u.files, path));
  }

  lemma JoinedPaths(s: Tally, t: Tally)
    ensures JoinTally(s, t).files.Keys == s.files.Keys + t.files.Keys
  {
  }

  lemma JoinTallyAssociates(s: Tally, t: Tally, u: Tally)
    ensures JoinTally(JoinTally(s, t), u) == JoinTally(s, JoinTally(t, u))
  {
    forall p: string
      ensures GetFileState(JoinTally(JoinTally(s, t), u).files, p)
              == GetFileState(JoinTally(s, JoinTally(t, u)).files, p)
    {
      JoinedThrice(s, t, u, p);
    }
    PathsAssociate(s, t, u);
    SameTally(JoinTally(JoinTally(s, t), u), JoinTally(s, JoinTally(t, u)));
  }

  lemma PathsAssociate(s: Tally, t: Tally, u: Tally)
    ensures JoinTally(JoinTally(s, t), u).files.Keys == JoinTally(s, JoinTally(t, u)).files.Keys
  {
    JoinedPaths(s, t);
    JoinedPaths(t, u);
    JoinedPaths(JoinTally(s, t), u);
    JoinedPaths(s, JoinTally(t, u));
  }

  /** Joining is commutative, idempotent and associative. */
  lemma JoinTallyLaws(s: Tally, t: Tally, u: Tally)
    ensures JoinTally(s, t) == JoinTally(t, s) && JoinTally(s, s) == s
    ensures JoinTally(JoinTally(s, t), u) == JoinTally(s, JoinTally(t, u))
  {
    JoinTallyCommutes(s, t);
    JoinTallyRepeats(s);
    JoinTallyAssociates(s, t, u);
  }

  // ------------------------------------------------------------------ what a block contributes

  /** The file state that the lines of a block lead to. */
  function Learn(number: string -> Num, st: FileState, body: seq<string>): FileState {
    if body == [] then st else Record(Learn(number, st, body[..|body| - 1]), Read(number, body[|body| - 1]))
  }

  predicate BranchData(number: string -> Num, body: seq<string>) {
    exists i :: 0 <= i < |body| && ShowsBranches(Read(number, body[i]), true)
  }

  function Contribution(number: string -> Num, b: Block): Tally {
    Tally(map[b.path := Learn(number, EMPTY, b.body)], BranchData(number, b.body))
  }

  function Combined(number: string -> Num, report: seq<Block>): Tally {
    if report == [] then Tally(map[], false)
    else JoinTally(Combined(number, report[..|report| - 1]), Contribution(number, report[|report| - 1]))
  }

  lemma MarkMerged<K>(a: map<K, bool>, b: map<K, bool>, k: K, hit: bool)
    ensures Mark(Merge(a, b), k, hit) == Merge(a, Mark(b, k, hit))
  {
  }

  lemma RecordJoined(a: FileState, b: FileState, e: Entry)
    ensures Record(Join(a, b), e) == Join(a, Record(b, e))
  {
    match e
    case Line(no, hit) => MarkMerged(a.lines, b.lines, no, hit);
    case Branch(key, taken) => MarkMerged(a.branches, b.branches, key, taken);
    case _ =>
  }

  /** Going on from a state is joining it with what is learnt from nothing. */
  lemma {:induction false} LearnJoined(number: string -> Num, st: FileState, body: seq<string>)
    ensures Learn(number, st, body) == Join(st, Learn(number, EMPTY, body))
  {
    if body == [] {
      JoinLaws(st, EMPTY, EMPTY);
    } else {
      var init := body[..|body| - 1];
      LearnJoined(number, st, init);
      RecordJoined(st, Learn(number, EMPTY, init), Read(number, body[|body| - 1]));
    }
  }

  // ------------------------------------------------------------------ the scan of a report

  lemma {:induction false} RunConcat(number: string -> Num, scan: Scan, a: seq<string>, b: seq<string>)
    ensures RunFrom(number, scan, a + b) ==
            match RunFrom(number, scan, a) case Ok(mid) => RunFrom(number, mid, b) case Err(e) => Err(e)
    decreases |a|
  {
    if a == [] {
      assert a + b == b;
    } else {
      assert (a + b)[1..] == a[1..] + b;
      match Step(scan, Read(number, a[0]), a[0])
      case Ok(next) => RunConcat(number, next, a[1..], b);
      case Err(_) =>
    }
  }

  lemma RunOne(number: string -> Num, scan: Scan, line: string)
    ensures RunFrom(number, scan, [line]) == Step(scan, Read(number, line), line)
  {
    assert [line][1..] == [];
  }

  lemma BranchDataSnoc(number: string -> Num, body: seq<string>, line: string)
    ensures BranchData(number, body + [line]) <==> BranchData(number, body) || ShowsBranches(Read(number, line), true)
  {
    var all := body + [line];
    assert all[|body|] == line;
    assert forall i :: 0 <= i < |body| ==> all[i] == body[i];
  }

  lemma LearntIsJoined(number: string -> Num, files: Files, has: bool, b: Block)
    ensures files[b.path := Learn(number, GetFileState(files, b.path), b.body)]
            == JoinTally(Tally(files, has), Contribution(number, b)).files
  {
    var st := GetFileState(files, b.path);
    var s, t := Tally(files, has), Contribution(number, b);
    LearnJoined(number, st, b.body);
    forall p: string
      ensures GetFileState(JoinTally(s, t).files, p) == GetFileState(files[b.path := Learn(number, st, b.body)], p)
    {
      GetJoined(s, t, p);
      JoinLaws(GetFileState(files, p), EMPTY, EMPTY);
    }
    SameTally(JoinTally(s, t), Tally(files[b.path := Learn(number, st, b.body)], JoinTally(s, t).hasBranchCoverage));
  }

  /** The scan that has seen the given parts. */
  function ScanOf(number: string -> Num, p: Parts): Scan {
    var t := Combined(number, AllBlocks(p));
    Scan(t.files, match p.open case Some(b) => Some(b.path) case None => None, t.hasBranchCoverage || p.stray)
  }

  lemma CombinedSnoc(number: string -> Num, blocks: seq<Block>, b: Block)
    ensures var t := Combined(number, blocks);
            Combined(number, blocks + [b]) ==
            Tally(t.files[b.path := Learn(number, GetFileState(t.files, b.path), b.body)],
                  t.hasBranchCoverage || BranchData(number, b.body))
  {
    var t := Combined(number, blocks);
    assert (blocks + [b])[..|blocks|] == blocks;
    LearntIsJoined(number, t.files, t.hasBranchCoverage, b);
  }

  /** A new block without lines names its file. */
  lemma StepStart(number: string -> Num, p: Parts, line: string)
    requires Read(number, line).Start?
    ensures Step(ScanOf(number, p), Read(number, line), line) == Ok(ScanOf(number, NextPart(number, p, line)))
  {
    CombinedSnoc(number, AllBlocks(p), Block(Read(number, line).path, []));
  }

  /** The scan inside a block. */
  lemma OpenScan(number: string -> Num, closed: seq<Block>, b: Block, stray: bool)
    ensures var t := Combined(number, closed);
            ScanOf(number, Parts(closed, Some(b), stray)) ==
            Scan(t.files[b.path := Learn(number, GetFileState(t.files, b.path), b.body)], Some(b.path),
                 t.hasBranchCoverage || BranchData(number, b.body) || stray)
  {
    CombinedSnoc(number, closed, b);
  }

  lemma StepInFile(files: Files, path: string, st: FileState, has: bool, e: Entry, line: string)
    requires !e.Start? && !e.End? && !e.Bad? && !e.BadInFile?
    ensures Step(Scan(files[path := st], Some(path), has), e, line)
            == Ok(Scan(files[path := Record(st, e)], Some(path), has || ShowsBranches(e, true)))
  {
    assert files[path := st][path := Record(st, e)] == files[path := Record(st, e)];
  }

  lemma LearnSnoc(number: string -> Num, st: FileState, body: seq<string>, line: string)
    ensures Learn(number, st, body + [line]) == Record(Learn(number, st, body), Read(number, line))
  {
    assert (body + [line])[..|body|] == body;
  }

  /** A line inside a block. */
  lemma StepInside(number: string -> Num, closed: seq<Block>, b: Block, stray: bool, line: string)
    requires InnerLine(number, line)
    ensures Step(ScanOf(number, Parts(closed, Some(b), stray)), Read(number, line), line)
            == Ok(ScanOf(number, Parts(closed, Some(Block(b.path, b.body + [line])), stray)))
  {
    var t := Combined(number, closed);
    var st := GetFileState(t.files, b.path);
    OpenScan(number, closed, b, stray);
    OpenScan(number, closed, Block(b.path, b.body + [line]), stray);
    LearnSnoc(number, st, b.body, line);
    BranchDataSnoc(number, b.body, line);
    StepInFile(t.files, b.path, Learn(number, st, b.body), t.hasBranchCoverage || BranchData(number, b.body) || stray,
               Read(number, line), line);
  }

  /** Each line that is valid where it stands takes the scan of the parts before it to that of the parts with it. */
  lemma StepParts(number: string -> Num, p: Parts, line: string)
    ensures Step(ScanOf(number, p), Read(number, line), line) ==
            if Invalid(number, p.open.Some?, line) then Err(InvalidValue(Read(number, line).kind, line))
            else Ok(ScanOf(number, NextPart(number, p, line)))
  {
    if Read(number, line).Start? {
      StepStart(number, p, line);
    } else if p.open.Some? && !Read(number, line).End? && !Invalid(number, true, line) {
      StepInside(number, p.closed, p.open.value, p.stray, line);
    }
  }

  lemma InvalidNext(number: string -> Num, init: seq<string>, line: string, i: nat)
    ensures InvalidAt(number, init + [line], i) <==>
            InvalidAt(number, init, i) || (i == |init| && Invalid(number, Split(number, init).open.Some?, line))
  {
    var lines := init + [line];
    if i < |init| {
      assert lines[..i] == init[..i];
    } else {
      assert lines[..|init|] == init;
    }
  }

  /**
   * Scanning any report: if no line is invalid where it stands, the contributions of its blocks are joined, with the
   * branch data shown outside of them; otherwise the first such line is refused.
   */
  lemma {:induction false} RunReport(number: string -> Num, lines: seq<string>)
    ensures match RunFrom(number, BEFORE, lines)
            case Ok(scan) => Accepted(number, lines) && scan == ScanOf(number, Split(number, lines))
            case Err(e) =>
              exists i: nat :: FirstInvalid(number, lines, i)
                               && e == InvalidValue(Read(number, lines[i]).kind, lines[i])
  {
    if lines != [] {
      var init, line := lines[..|lines| - 1], lines[|lines| - 1];
      assert lines == init + [line];
      RunReport(number, init);
      RunConcat(number, BEFORE, init, [line]);
      match RunFrom(number, BEFORE, init)
      case Ok(scan) =>
        RunOne(number, scan, line);
        StepParts(number, Split(number, init), line);
        AcceptedNext(number, init, line);
      case Err(e) =>
        var i: nat :| FirstInvalid(number, init, i) && e == InvalidValue(Read(number, init[i]).kind, init[i]);
        FirstInvalidStays(number, init, line, i);
    }
  }

  lemma AcceptedNext(number: string -> Num, init: seq<string>, line: string)
    requires Accepted(number, init)
    ensures if Invalid(number, Split(number, init).open.Some?, line) then FirstInvalid(number, init + [line], |init|)
            else Accepted(number, init + [line])
  {
    forall i: nat
      ensures InvalidAt(number, init + [line], i)
              <==> i == |init| && Invalid(number, Split(number, init).open.Some?, line)
    {
      InvalidNext(number, init, line, i);
    }
  }

  lemma FirstInvalidStays(number: string -> Num, init: seq<string>, line: string, i: nat)
    requires FirstInvalid(number, init, i)
    ensures FirstInvalid(number, init + [line], i)
  {
    forall j: nat | j <= i ensures InvalidAt(number, init + [line], j) <==> InvalidAt(number, init, j) {
      InvalidNext(number, init, line, j);
    }
  }

  // ------------------------------------------------------------------ only the set of blocks matters

  /** A block that is already there adds nothing. */
  lemma {:induction false} Absorbed(number: string -> Num, report: seq<Block>, b: Block)
    requires b in report
    ensures JoinTally(Combined(number, report), Contribution(number, b)) == Combined(number, report)
  {
    var init, last := report[..|report| - 1], report[|report| - 1];
    var s, t, u := Combined(number, init), Contribution(number, last), Contribution(number, b);
    JoinTallyLaws(s, t, u);
    if b == last {
      JoinTallyLaws(t, s, s);
    } else {
      Absorbed(number, init, b);
      JoinTallyLaws(s, u, t);
      JoinTallyLaws(t, u, u);
    }
  }

  lemma {:induction false} AllAbsorbed(number: string -> Num, report: seq<Block>, other: seq<Block>)
    requires forall b :: b in other ==> b in report
    ensures JoinTally(Combined(number, report), Combined(number, other)) == Combined(number, report)
  {
    if other == [] {
      JoinNothing(Combined(number, report));
    } else {
      var init, last := other[..|other| - 1], other[|other| - 1];
      assert last in other;
      AllAbsorbed(number, report, init);
      Absorbed(number, report, last);
      JoinTallyLaws(Combined(number, report), Combined(number, init), Contribution(number, last));
    }
  }

  lemma JoinNothing(s: Tally)
    ensures JoinTally(s, Tally(map[], false)) == s
  {
    forall p: string ensures Join(GetFileState(s.files, p), EMPTY) == GetFileState(s.files, p) {
      JoinLaws(GetFileState(s.files, p), EMPTY, EMPTY);
    }
  }

  /** Whether the report has branch data: in a block, or outside of all. */
  predicate HasBranches(number: string -> Num, lines: seq<string>) {
    Split(number, lines).stray || exists b :: b in BlocksOf(number, lines) && BranchData(number, b.body)
  }

  lemma {:induction false} CombinedBranches(number: string -> Num, blocks: seq<Block>)
    ensures Combined(number, blocks).hasBranchCoverage <==> exists b :: b in blocks && BranchData(number, b.body)
  {
    if blocks != [] {
      var init, last := blocks[..|blocks| - 1], blocks[|blocks| - 1];
      assert blocks == init + [last];
      CombinedBranches(number, init);
    }
  }

  lemma SameBlocksSameTally(number: string -> Num, a: seq<Block>, b: seq<Block>)
    requires forall x :: x in a <==> x in b
    ensures Combined(number, a) == Combined(number, b)
  {
    AllAbsorbed(number, a, b);
    AllAbsorbed(number, b, a);
    JoinTallyLaws(Combined(number, a), Combined(number, b), Combined(number, a));
  }

  /**
   * Whatever the lines: accepted reports with the same blocks that agree on having branch data have the same outcome.
   * How often a block occurs, in which order, and what stands between the blocks does not matter.
   */
  lemma OnlyTheBlocksMatter(number: string -> Num, a: seq<string>, b: seq<string>)
    requires Accepted(number, a) && Accepted(number, b) && HasBranches(number, a) == HasBranches(number, b)
    requires forall x :: x in BlocksOf(number, a) <==> x in BlocksOf(number, b)
    ensures Coverage(number, a) == Coverage(number, b)
  {
    RunReport(number, a);
    RunReport(number, b);
    SameBlocksSameTally(number, BlocksOf(number, a), BlocksOf(number, b));
    CombinedBranches(number, BlocksOf(number, a));
  }

  // ------------------------------------------------------------------ complete blocks, and lines between them

  datatype Piece = Loose(line: string) | Whole(block: Block)

  function LinesOf(p: Piece): seq<string> {
    match p
    case Loose(line) => [line]
    case Whole(b) => ["SF:" + b.path] + b.body + ["end_of_record"]
  }

  function Lines(ps: seq<Piece>): seq<string> {
    if ps == [] then [] else Lines(ps[..|ps| - 1]) + LinesOf(ps[|ps| - 1])
  }

  function WholeBlocks(ps: seq<Piece>): seq<Block> {
    if ps == [] then []
    else
      var last := ps[|ps| - 1];
      WholeBlocks(ps[..|ps| - 1]) + (if last.Whole? then [last.block] else [])
  }

  /** A line between blocks: no SF line, and no invalid amount. */
  predicate LooseLine(number: string -> Num, line: string) {
    !Read(number, line).Start? && !Invalid(number, false, line)
  }

  ghost predicate ProperPiece(number: string -> Num, p: Piece) {
    match p
    case Loose(line) => LooseLine(number, line)
    case Whole(b) => forall l :: l in b.body ==> InnerLine(number, l)
  }

  ghost predicate Proper(number: string -> Num, ps: seq<Piece>) {
    forall p :: p in ps ==> ProperPiece(number, p)
  }

  /** A BRF or BRH line between blocks. */
  predicate StrayIn(number: string -> Num, ps: seq<Piece>) {
    exists p :: p in ps && p.Loose? && ShowsBranches(Read(number, p.line), false)
  }

  lemma SplitNext(number: string -> Num, lines: seq<string>, line: string)
    requires Accepted(number, lines) && !Invalid(number, Split(number, lines).open.Some?, line)
    ensures Accepted(number, lines + [line])
    ensures Split(number, lines + [line]) == NextPart(number, Split(number, lines), line)
  {
    AcceptedNext(number, lines, line);
    assert (lines + [line])[..|lines|] == lines;
  }

  lemma ReadMarkers(number: string -> Num, path: string)
    ensures Read(number, "SF:" + path) == Start(path) && Read(number, "end_of_record") == End
  {
    var line := "SF:" + path;
    assert line[..3] == "SF:" && line[3..] == path;
    assert "end_of_record"[..3][0] == 'e';
  }

  lemma {:induction false} SplitBody(number: string -> Num, lines: seq<string>, path: string, body: seq<string>)
    requires Accepted(number, lines) && Split(number, lines).open == Some(Block(path, []))
    requires forall l :: l in body ==> InnerLine(number, l)
    ensures Accepted(number, lines + body)
    ensures Split(number, lines + body) == Split(number, lines).(open := Some(Block(path, body)))
  {
    if body == [] {
      assert lines + body == lines;
    } else {
      var init, last := body[..|body| - 1], body[|body| - 1];
      assert last in body && body == init + [last];
      SplitBody(number, lines, path, init);
      BodyNext(number, lines, path, init, last);
    }
  }

  lemma BodyNext(number: string -> Num, lines: seq<string>, path: string, body: seq<string>, line: string)
    requires Accepted(number, lines + body) && Split(number, lines + body).open == Some(Block(path, body))
    requires InnerLine(number, line)
    ensures Accepted(number, lines + (body + [line]))
    ensures Split(number, lines + (body + [line]))
            == Split(number, lines + body).(open := Some(Block(path, body + [line])))
  {
    assert lines + (body + [line]) == lines + body + [line];
    SplitNext(number, lines + body, line);
  }

  lemma SplitStart(number: string -> Num, lines: seq<string>, path: string)
    requires Accepted(number, lines)
    ensures var p := Split(number, lines);
            Split(number, lines + ["SF:" + path]) == Parts(AllBlocks(p), Some(Block(path, [])), p.stray)
    ensures Accepted(number, lines + ["SF:" + path])
  {
    ReadMarkers(number, path);
    SplitNext(number, lines, "SF:" + path);
  }

  lemma SplitEnd(number: string -> Num, lines: seq<string>)
    requires Accepted(number, lines)
    ensures var p := Split(number, lines);
            Split(number, lines + ["end_of_record"]) == Parts(AllBlocks(p), None, p.stray)
    ensures Accepted(number, lines + ["end_of_record"])
  {
    ReadMarkers(number, "");
    SplitNext(number, lines, "end_of_record");
  }

  lemma BlockInParts(lines: seq<string>, b: Block)
    ensures lines + LinesOf(Whole(b)) == lines + ["SF:" + b.path] + b.body + ["end_of_record"]
  {
  }

  lemma SplitBlock(number: string -> Num, lines: seq<string>, b: Block)
    requires Accepted(number, lines) && Split(number, lines).open == None
    requires forall l :: l in b.body ==> InnerLine(number, l)
    ensures Accepted(number, lines + LinesOf(Whole(b)))
    ensures var p := Split(number, lines);
            Split(number, lines + LinesOf(Whole(b))) == Parts(p.closed + [b], None, p.stray)
  {
    SplitStart(number, lines, b.path);
    SplitBody(number, lines + ["SF:" + b.path], b.path, b.body);
    SplitEnd(number, lines + ["SF:" + b.path] + b.body);
    BlockInParts(lines, b);
  }

  lemma SplitPiece(number: string -> Num, lines: seq<string>, p: Piece)
    requires Accepted(number, lines) && Split(number, lines).open == None && ProperPiece(number, p)
    ensures Accepted(number, lines + LinesOf(p))
    ensures var was := Split(number, lines);
            Split(number, lines + LinesOf(p)) ==
            match p
            case Loose(line) => was.(stray := was.stray || ShowsBranches(Read(number, line), false))
            case Whole(b) => was.(closed := was.closed + [b])
  {
    match p
    case Loose(line) => SplitNext(number, lines, line);
    case Whole(b) => SplitBlock(number, lines, b);
  }

  /** The lines of the pieces are accepted, and split into their whole blocks. */
  ghost predicate SplitsBack(number: string -> Num, ps: seq<Piece>) {
    && Accepted(number, Lines(ps))
    && Split(number, Lines(ps)) == Parts(WholeBlocks(ps), None, StrayIn(number, ps))
  }

  lemma NextPiece(number: string -> Num, ps: seq<Piece>, p: Piece, all: seq<Piece>)
    requires SplitsBack(number, ps) && ProperPiece(number, p) && all == ps + [p]
    ensures SplitsBack(number, all)
  {
    SplitPiece(number, Lines(ps), p);
    StrayNext(number, ps, p);
    assert (ps + [p])[..|ps|] == ps;
  }

  /** Splitting finds exactly the blocks that a report was put together from. */
  lemma {:induction false} SplitOfPieces(number: string -> Num, ps: seq<Piece>)
    requires Proper(number, ps)
    ensures SplitsBack(number, ps)
  {
    if ps == [] {
      NoPieces(number);
    } else {
      var init, last := ps[..|ps| - 1], ps[|ps| - 1];
      ProperParts(number, ps);
      SplitOfPieces(number, init);
      NextPiece(number, init, last, ps);
    }
  }

  lemma ProperParts(number: string -> Num, ps: seq<Piece>)
    requires Proper(number, ps) && ps != []
    ensures Proper(number, ps[..|ps| - 1]) && ProperPiece(number, ps[|ps| - 1])
  {
    assert ps[|ps| - 1] in ps;
  }

  lemma NoPieces(number: string -> Num)
    ensures SplitsBack(number, [])
  {
  }

  lemma StrayNext(number: string -> Num, ps: seq<Piece>, p: Piece)
    ensures StrayIn(number, ps + [p]) <==>
            StrayIn(number, ps) || (p.Loose? && ShowsBranches(Read(number, p.line), false))
  {
    assert p in ps + [p] && forall q :: q in ps + [p] <==> q in ps || q == p;
  }

  /**
   * Repeating, reordering and mixing complete blocks and other lines never changes the outcome: reports with the same
   * blocks, and branch data outside of blocks in both or neither, have the same summary.
   */
  lemma RearrangingIsHarmless(number: string -> Num, ps: seq<Piece>, qs: seq<Piece>)
    requires Proper(number, ps) && Proper(number, qs) && StrayIn(number, ps) == StrayIn(number, qs)
    requires forall b :: b in WholeBlocks(ps) <==> b in WholeBlocks(qs)
    ensures Coverage(number, Lines(ps)) == Coverage(number, Lines(qs))
  {
    SplitOfPieces(number, ps);
    SplitOfPieces(number, qs);
    OnlyTheBlocksMatter(number, Lines(ps), Lines(qs));
  }

  // ------------------------------------------------------------------ what the marks mean

  /** Some DA line of a block of the file names the line; `hit` asks for one with hits. */
  ghost predicate Mentions(number: string -> Num, report: seq<Block>, path: string, no: int, hit: bool) {
    exists b :: b in report && b.path == path && Said(number, b.body, no, hit)
  }

  ghost predicate Said(number: string -> Num, body: seq<string>, no: int, hit: bool) {
    exists l :: l in body && Says(Read(number, l), no, hit)
  }

  predicate Says(e: Entry, no: int, hit: bool) {
    e.Line? && e.no == no && (hit ==> e.hit)
  }

  lemma {:induction false} LearntLine(number: string -> Num, body: seq<string>, no: int)
    ensures var lines := Learn(number, EMPTY, body).lines;
            && (no in lines <==> Said(number, body, no, false))
            && (no in lines && lines[no] <==> Said(number, body, no, true))
  {
    if body != [] {
      var init, last := body[..|body| - 1], body[|body| - 1];
      LearntLine(number, init, no);
      RecordedLine(Learn(number, EMPTY, init), Read(number, last), no);
      SaidNext(number, init, last, no, false);
      SaidNext(number, init, last, no, true);
      assert body == init + [last];
    }
  }

  lemma RecordedLine(st: FileState, e: Entry, no: int)
    ensures var lines := Record(st, e).lines;
            && (no in lines <==> no in st.lines || Says(e, no, false))
            && (no in lines && lines[no] <==> (no in st.lines && st.lines[no]) || Says(e, no, true))
  {
  }

  lemma SaidNext(number: string -> Num, body: seq<string>, line: string, no: int, hit: bool)
    ensures Said(number, body + [line], no, hit) <==> Said(number, body, no, hit) || Says(Read(number, line), no, hit)
  {
    var all := body + [line];
    assert line in all && forall l :: l in body ==> l in all;
  }

  /** A line of a file counts exactly when some block of the file has it, and as hit exactly when one of them hit it. */
  lemma {:induction false} LineMeaning(number: string -> Num, report: seq<Block>, path: string, no: int)
    ensures var lines := GetFileState(Combined(number, report).files, path).lines;
            && (no in lines <==> Mentions(number, report, path, no, false))
            && (no in lines && lines[no] <==> Mentions(number, report, path, no, true))
  {
    if report != [] {
      var init, last := report[..|report| - 1], report[|report| - 1];
      assert report == init + [last];
      LineMeaning(number, init, path, no);
      MentionsNext(number, init, last, path, no, false);
      MentionsNext(number, init, last, path, no, true);
      LearntLine(number, last.body, no);
      JoinedLines(Combined(number, init), Contribution(number, last), path, no);
    }
  }

  lemma MentionsNext(number: string -> Num, report: seq<Block>, b: Block, path: string, no: int, hit: bool)
    ensures Mentions(number, report + [b], path, no, hit) <==>
            Mentions(number, report, path, no, hit) || (b.path == path && Said(number, b.body, no, hit))
  {
    var all := report + [b];
    assert b in all && forall x :: x in report ==> x in all;
    if Mentions(number, all, path, no, hit) {
      var x :| x in all && x.path == path && Said(number, x.body, no, hit);
      assert x in report || x == b;
    }
  }

  lemma JoinedLines(s: Tally, t: Tally, path: string, no: int)
    ensures var a, b := GetFileState(s.files, path).lines, GetFileState(t.files, path).lines;
            var lines := GetFileState(JoinTally(s, t).files, path).lines;
            && (no in lines <==> no in a || no in b)
            && (no in lines && lines[no] <==> (no in a && a[no]) || (no in b && b[no]))
  {
  }

  predicate Takes(e: Entry, key: BranchKey, taken: bool) {
    e.Branch? && e.key == key && (taken ==> e.taken)
  }

  /** Some BRDA line of the body names the branch; `taken` asks for one that took it. */
  ghost predicate Branches(number: string -> Num, body: seq<string>, key: BranchKey, taken: bool) {
    exists l :: l in body && Takes(Read(number, l), key, taken)
  }

  lemma BranchesNext(number: string -> Num, body: seq<string>, line: string, key: BranchKey, taken: bool)
    ensures Branches(number, body + [line], key, taken)
            <==> Branches(number, body, key, taken) || Takes(Read(number, line), key, taken)
  {
    var all := body + [line];
    assert line in all && forall l :: l in body ==> l in all;
  }

  lemma RecordedBranch(st: FileState, e: Entry, key: BranchKey)
    ensures var branches := Record(st, e).branches;
            && (key in branches <==> key in st.branches || Takes(e, key, false))
            && (key in branches && branches[key] <==> (key in st.branches && st.branches[key]) || Takes(e, key, true))
  {
  }

  /** The state has the branch exactly when the body names it, and as taken exactly when the body took it. */
  ghost predicate KnowsBranch(number: string -> Num, st: FileState, body: seq<string>, key: BranchKey) {
    && (key in st.branches <==> Branches(number, body, key, false))
    && (key in st.branches && st.branches[key] <==> Branches(number, body, key, true))
  }

  lemma BranchStep(number: string -> Num, st: FileState, body: seq<string>, line: string, key: BranchKey)
    requires KnowsBranch(number, st, body, key)
    ensures KnowsBranch(number, Record(st, Read(number, line)), body + [line], key)
  {
    RecordedBranch(st, Read(number, line), key);
    BranchesNext(number, body, line, key, false);
    BranchesNext(number, body, line, key, true);
  }

  lemma {:induction false} LearntBranch(number: string -> Num, body: seq<string>, key: BranchKey)
    ensures KnowsBranch(number, Learn(number, EMPTY, body), body, key)
  {
    if body != [] {
      var init, last := body[..|body| - 1], body[|body| - 1];
      assert body == init + [last];
      LearntBranch(number, init, key);
      BranchStep(number, Learn(number, EMPTY, init), init, last, key);
    }
  }

  /** Some block of the file has a BRDA line for the branch. */
  ghost predicate MentionsBranch(number: string -> Num, report: seq<Block>, path: string, key: BranchKey, taken: bool) {
    exists b :: b in report && b.path == path && Branches(number, b.body, key, taken)
  }

  lemma MentionsBranchNext(
      number: string -> Num, report: seq<Block>, b: Block, path: string, key: BranchKey, taken: bool)
    ensures MentionsBranch(number, report + [b], path, key, taken) <==>
            MentionsBranch(number, report, path, key, taken) || (b.path == path && Branches(number, b.body, key, taken))
  {
    var all := report + [b];
    assert b in all && forall x :: x in report ==> x in all;
    if MentionsBranch(number, all, path, key, taken) {
      var x :| x in all && x.path == path && Branches(number, x.body, key, taken);
      assert x in report || x == b;
    }
  }

  lemma JoinedBranches(s: Tally, t: Tally, path: string, key: BranchKey)
    ensures var a, b := GetFileState(s.files, path).branches, GetFileState(t.files, path).branches;
            var branches := GetFileState(JoinTally(s, t).files, path).branches;
            && (key in branches <==> key in a || key in b)
            && (key in branches && branches[key] <==> (key in a && a[key]) || (key in b && b[key]))
  {
  }

  /** Likewise for branches: those that the blocks of the file name, taken exactly when one of the blocks took it. */
  lemma {:induction false} BranchMeaning(number: string -> Num, report: seq<Block>, path: string, key: BranchKey)
    ensures var branches := GetFileState(Combined(number, report).files, path).branches;
            && (key in branches <==> MentionsBranch(number, report, path, key, false))
            && (key in branches && branches[key] <==> MentionsBranch(number, report, path, key, true))
  {
    if report != [] {
      var init, last := report[..|report| - 1], report[|report| - 1];
      assert report == init + [last];
      BranchMeaning(number, init, path, key);
      MentionsBranchNext(number, init, last, path, key, false);
      MentionsBranchNext(number, init, last, path, key, true);
      LearntBranch(number, last.body, key);
      JoinedBranches(Combined(number, init), Contribution(number, last), path, key);
    }
  }

  datatype Declaration = LF | LH | BRF | BRH

  /** The amount that a line declares. */
  function Declared(e: Entry, which: Declaration): Option<Amount> {
    match e
    case LinesFound(v) => if which.LF? then Some(v) else None
    case LinesHit(v) => if which.LH? then Some(v) else None
    case BranchesFound(v) => if which.BRF? then Some(v) else None
    case BranchesHit(v) => if which.BRH? then Some(v) else None
    case _ => None
  }

  function Fallback(st: FileState, which: Declaration): Amount {
    match which
    case LF => st.fallbackLinesFound
    case LH => st.fallbackLinesHit
    case BRF => st.fallbackBranchesFound
    case BRH => st.fallbackBranchesHit
  }

  /** The body declares nothing greater. */
  ghost predicate AtMost(number: string -> Num, body: seq<string>, which: Declaration, v: Amount) {
    forall l :: l in body && Declared(Read(number, l), which).Some? ==> Declared(Read(number, l), which).value <= v
  }

  ghost predicate Declares(number: string -> Num, body: seq<string>, which: Declaration, v: Amount) {
    exists l :: l in body && Declared(Read(number, l), which) == Some(v)
  }

  /** The greatest of the amounts that the body declares, or zero. */
  ghost predicate Greatest(number: string -> Num, body: seq<string>, which: Declaration, v: Amount) {
    AtMost(number, body, which, v) && (v == 0.0 || Declares(number, body, which, v))
  }

  lemma GreatestNext(number: string -> Num, body: seq<string>, line: string, which: Declaration, v: Amount)
    requires Greatest(number, body, which, v)
    ensures Greatest(number, body + [line], which,
                     match Declared(Read(number, line), which) case Some(w) => Max(v, w) case None => v)
  {
    var all := body + [line];
    assert line in all && forall l :: l in all <==> l in body || l == line;
  }

  lemma RecordedAmount(st: FileState, e: Entry, which: Declaration)
    ensures Fallback(Record(st, e), which) ==
            match Declared(e, which) case Some(v) => Max(Fallback(st, which), v) case None => Fallback(st, which)
  {
  }

  lemma {:induction false} LearntAmount(number: string -> Num, body: seq<string>, which: Declaration)
    ensures Greatest(number, body, which, Fallback(Learn(number, EMPTY, body), which))
  {
    if body != [] {
      var init, last := body[..|body| - 1], body[|body| - 1];
      LearntAmount(number, init, which);
      RecordedAmount(Learn(number, EMPTY, init), Read(number, last), which);
      GreatestNext(number, init, last, which, Fallback(Learn(number, EMPTY, init), which));
      assert body == init + [last];
    }
  }

  /** The greatest of the amounts that the blocks of the file declare, or zero. */
  ghost predicate GreatestOf(number: string -> Num, report: seq<Block>, path: string, which: Declaration, v: Amount) {
    && (forall b :: b in report && b.path == path ==> AtMost(number, b.body, which, v))
    && (v == 0.0 || exists b :: b in report && b.path == path && Declares(number, b.body, which, v))
  }

  lemma AtMostMore(number: string -> Num, body: seq<string>, which: Declaration, v: Amount, w: Amount)
    requires AtMost(number, body, which, v) && v <= w
    ensures AtMost(number, body, which, w)
  {
  }

  lemma GreatestOfNext(
      number: string -> Num, report: seq<Block>, b: Block, path: string, which: Declaration, v: Amount, w: Amount)
    requires GreatestOf(number, report, path, which, v)
    requires if b.path == path then Greatest(number, b.body, which, w) else w == 0.0
    ensures GreatestOf(number, report + [b], path, which, Max(v, w))
  {
    var all := report + [b];
    assert b in all && forall x :: x in report ==> x in all;
    forall x | x in all && x.path == path ensures AtMost(number, x.body, which, Max(v, w)) {
      AtMostMore(number, x.body, which, if x in report then v else w, Max(v, w));
    }
  }

  lemma JoinedAmount(s: Tally, t: Tally, path: string, which: Declaration)
    ensures Fallback(GetFileState(JoinTally(s, t).files, path), which)
            == Max(Fallback(GetFileState(s.files, path), which), Fallback(GetFileState(t.files, path), which))
  {
    GetJoined(s, t, path);
  }

  /** The amounts declared for a file are the greatest of the LF, LH, BRF and BRH lines of its blocks. */
  lemma {:induction false} FallbackMeaning(number: string -> Num, report: seq<Block>, path: string, which: Declaration)
    ensures GreatestOf(number, report, path, which, Fallback(GetFileState(Combined(number, report).files, path), which))
  {
    if report != [] {
      var init, last := report[..|report| - 1], report[|report| - 1];
      var early, here := Combined(number, init), Contribution(number, last);
      assert report == init + [last];
      FallbackMeaning(number, init, path, which);
      LearntAmount(number, last.body, which);
      JoinedAmount(early, here, path, which);
      GreatestOfNext(number, init, last, path, which, Fallback(GetFileState(early.files, path), which),
                     Fallback(GetFileState(here.files, path), which));
    }
  }

  // ------------------------------------------------------------------ hits and totals

  ghost predicate Sane(st: FileState) {
    st.fallbackLinesHit <= st.fallbackLinesFound && st.fallbackBranchesHit <= st.fallbackBranchesFound
  }

  /** In every record LH is at most LF, and BRH at most BRF. */
  ghost predicate SaneReport(number: string -> Num, report: seq<Block>) {
    forall b :: b in report ==> Sane(Learn(number, EMPTY, b.body))
  }

  lemma {:induction false} FilesAreSane(number: string -> Num, report: seq<Block>, path: string)
    requires SaneReport(number, report)
    ensures Sane(GetFileState(Combined(number, report).files, path))
  {
    if report != [] {
      var init, last := report[..|report| - 1], report[|report| - 1];
      FilesAreSane(number, init, path);
      assert last in report;
      assert Sane(GetFileState(Contribution(number, last).files, path));
      GetJoined(Combined(number, init), Contribution(number, last), path);
      JoinedSane(GetFileState(Combined(number, init).files, path),
                 GetFileState(Contribution(number, last).files, path));
    }
  }

  lemma JoinedSane(a: FileState, b: FileState)
    requires Sane(a) && Sane(b)
    ensures Sane(Join(a, b))
  {
  }

  lemma TrueKeysFew<K>(m: map<K, bool>)
    ensures |TrueKeys(m)| <= |m|
  {
    assert TrueKeys(m) <= m.Keys;
    SubsetSize(TrueKeys(m), m.Keys);
  }

  lemma FileHits(st: FileState)
    requires Sane(st)
    ensures HitIn(st) <= FoundIn(st) && BranchesHitIn(st) <= BranchesFoundIn(st)
  {
    TrueKeysFew(st.lines);
    TrueKeysFew(st.branches);
  }

  lemma {:induction false} TotalMonotone(files: Files, less: FileState -> Amount, more: FileState -> Amount)
    requires forall p :: p in files ==> less(files[p]) <= more(files[p])
    ensures Total(files, less) <= Total(files, more)
    decreases |files|
  {
    if files != map[] {
      var path :| path in files;
      TotalWithout(files, less, path);
      TotalWithout(files, more, path);
      TotalMonotone(files - {path}, less, more);
    }
  }

  lemma PercentInRange(part: Amount, whole: Amount)
    requires part <= whole && whole > 0.0
    ensures 0.0 <= Percent(part, whole) <= 100.0
  {
    assert part / whole <= 1.0;
  }

  /**
   * Hits never exceed totals, so the percentages are percentages; without a summary the report has no instrumented
   * lines, or a line that is invalid where it stands.
   */
  lemma HitsWithinTotals(number: string -> Num, lines: seq<string>)
    requires SaneReport(number, BlocksOf(number, lines))
    ensures match Coverage(number, lines)
            case Ok(s) =>
              && s.linesHit <= s.linesFound && s.branchesHit <= s.branchesFound && s.linesFound > 0.0
              && 0.0 <= s.lineCoveragePct <= 100.0 && 0.0 <= s.branchCoveragePct <= 100.0
            case Err(e) => e == NoInstrumentedLines <==> Accepted(number, lines)
  {
    RunReport(number, lines);
    var files := Combined(number, BlocksOf(number, lines)).files;
    forall p | p in files
      ensures HitIn(files[p]) <= FoundIn(files[p]) && BranchesHitIn(files[p]) <= BranchesFoundIn(files[p])
    {
      FilesAreSane(number, BlocksOf(number, lines), p);
      FileHits(files[p]);
    }
    SummaryInRange(files);
  }

  lemma SummaryInRange(files: Files)
    requires forall p :: p in files ==>
               HitIn(files[p]) <= FoundIn(files[p]) && BranchesHitIn(files[p]) <= BranchesFoundIn(files[p])
    ensures Total(files, HitIn) <= Total(files, FoundIn) && Total(files, BranchesHitIn) <= Total(files, BranchesFoundIn)
    ensures Total(files, FoundIn) > 0.0 ==> 0.0 <= Percent(Total(files, HitIn), Total(files, FoundIn)) <= 100.0
    ensures Total(files, BranchesFoundIn) > 0.0 ==>
              0.0 <= Percent(Total(files, BranchesHitIn), Total(files, BranchesFoundIn)) <= 100.0
  {
    TotalMonotone(files, HitIn, FoundIn);
    TotalMonotone(files, BranchesHitIn, BranchesFoundIn);
    if Total(files, FoundIn) > 0.0 {
      PercentInRange(Total(files, HitIn), Total(files, FoundIn));
    }
    if Total(files, BranchesFoundIn) > 0.0 {
      PercentInRange(Total(files, BranchesHitIn), Total(files, BranchesFoundIn));
    }
  }
}
