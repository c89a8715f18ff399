/** The summary of a report (src/utils/coverage.ts:83-229), told by the text of its lines. */
module LcovCoverage {
  import opened Common
  import opened Lcov
  import opened LcovReports
  import opened LcovText

  // ------------------------------------------------------------------ one file

  ghost predicate LineIn(number: string -> Num, body: seq<string>, no: int, hit: bool) {
    exists l :: l in body && SaysLine(number, l, no, hit)
  }

  /** Some block of the file marks the line; `hit` asks for hits. */
  ghost predicate FileLine(number: string -> Num, blocks: seq<Block>, path: string, no: int, hit: bool) {
    exists b :: b in blocks && b.path == path && LineIn(number, b.body, no, hit)
  }

  ghost predicate BranchIn(number: string -> Num, body: seq<string>, key: BranchKey, taken: bool) {
    exists l :: l in body && SaysBranch(number, l, key, taken)
  }

  ghost predicate FileBranch(number: string -> Num, blocks: seq<Block>, path: string, key: BranchKey, taken: bool) {
    exists b :: b in blocks && b.path == path && BranchIn(number, b.body, key, taken)
  }

  ghost predicate AmountIn(number: string -> Num, body: seq<string>, which: Declaration, v: Amount) {
    exists l :: l in body && SaysAmount(number, l, which, v)
  }

  ghost predicate FileAmount(number: string -> Num, blocks: seq<Block>, path: string, which: Declaration, v: Amount) {
    exists b :: b in blocks && b.path == path && AmountIn(number, b.body, which, v)
  }

  /** The greatest amount that blocks of the file declare, or zero. */
  ghost predicate GreatestAmount(
      number: string -> Num, blocks: seq<Block>, path: string, which: Declaration, v: Amount)
  {
    && (v == 0.0 || FileAmount(number, blocks, path, which, v))
    && forall w: Amount :: FileAmount(number, blocks, path, which, w) ==> w <= v
  }

  lemma MentionedByText(number: string -> Num, blocks: seq<Block>, path: string, no: int, hit: bool)
    ensures Mentions(number, blocks, path, no, hit) <==> FileLine(number, blocks, path, no, hit)
  {
    if Mentions(number, blocks, path, no, hit) {
      var b :| b in blocks && b.path == path && Said(number, b.body, no, hit);
      SaidByLine(number, b.body, no, hit);
    }
    if FileLine(number, blocks, path, no, hit) {
      var b :| b in blocks && b.path == path && LineIn(number, b.body, no, hit);
      SaidByLine(number, b.body, no, hit);
    }
  }

  lemma SaidByLine(number: string -> Num, body: seq<string>, no: int, hit: bool)
    ensures Said(number, body, no, hit) <==> LineIn(number, body, no, hit)
  {
    forall l ensures Says(Read(number, l), no, hit) <==> SaysLine(number, l, no, hit) {
      LineByText(number, l, no, hit);
    }
  }

  lemma BranchesByText(number: string -> Num, blocks: seq<Block>, path: string, key: BranchKey, taken: bool)
    ensures MentionsBranch(number, blocks, path, key, taken) <==> FileBranch(number, blocks, path, key, taken)
  {
    if MentionsBranch(number, blocks, path, key, taken) {
      var b :| b in blocks && b.path == path && Branches(number, b.body, key, taken);
      BranchesByLine(number, b.body, key, taken);
    }
    if FileBranch(number, blocks, path, key, taken) {
      var b :| b in blocks && b.path == path && BranchIn(number, b.body, key, taken);
      BranchesByLine(number, b.body, key, taken);
    }
  }

  lemma BranchesByLine(number: string -> Num, body: seq<string>, key: BranchKey, taken: bool)
    ensures Branches(number, body, key, taken) <==> BranchIn(number, body, key, taken)
  {
    forall l ensures Takes(Read(number, l), key, taken) <==> SaysBranch(number, l, key, taken) {
      BranchByText(number, l, key, taken);
    }
  }

  lemma GreatestByText(number: string -> Num, blocks: seq<Block>, path: string, which: Declaration, v: Amount)
    requires GreatestOf(number, blocks, path, which, v)
    ensures GreatestAmount(number, blocks, path, which, v)
  {
    if v != 0.0 {
      var b :| b in blocks && b.path == path && Declares(number, b.body, which, v);
      var l :| l in b.body && Declared(Read(number, l), which) == Some(v);
      AmountByText(number, l, which, v);
      assert AmountIn(number, b.body, which, v);
    }
    forall w: Amount | FileAmount(number, blocks, path, which, w) ensures w <= v {
      var b :| b in blocks && b.path == path && AmountIn(number, b.body, which, w);
      var l :| l in b.body && SaysAmount(number, l, which, w);
      AmountByText(number, l, which, w);
      assert AtMost(number, b.body, which, v);
    }
  }

  // ------------------------------------------------------------------ the amounts of one file

  datatype Amounts = Amounts(found: Amount, hit: Amount, branches: Amount, branchHits: Amount)

  /** The marked lines, and those with hits. */
  ghost predicate LineSets(number: string -> Num, blocks: seq<Block>, path: string, marked: set<int>, hit: set<int>) {
    && (forall no :: no in marked <==> FileLine(number, blocks, path, no, false))
    && (forall no :: no in hit <==> FileLine(number, blocks, path, no, true))
  }

  /** As many as there are marked lines and ones with hits; without a marked line, the declared amounts. */
  ghost predicate LinesCounted(number: string -> Num, blocks: seq<Block>, path: string, a: Amounts) {
    exists marked, hit ::
      && LineSets(number, blocks, path, marked, hit)
      && if marked != {} then a.found == |marked| as real && a.hit == |hit| as real
         else GreatestAmount(number, blocks, path, LF, a.found) && GreatestAmount(number, blocks, path, LH, a.hit)
  }

  /** The named branches, and those that were taken. */
  ghost predicate BranchSets(
      number: string -> Num, blocks: seq<Block>, path: string, named: set<BranchKey>, taken: set<BranchKey>)
  {
    && (forall key :: key in named <==> FileBranch(number, blocks, path, key, false))
    && (forall key :: key in taken <==> FileBranch(number, blocks, path, key, true))
  }

  ghost predicate BranchesCounted(number: string -> Num, blocks: seq<Block>, path: string, a: Amounts) {
    exists named, taken ::
      && BranchSets(number, blocks, path, named, taken)
      && if named != {} then a.branches == |named| as real && a.branchHits == |taken| as real
         else
           && GreatestAmount(number, blocks, path, BRF, a.branches)
           && GreatestAmount(number, blocks, path, BRH, a.branchHits)
  }

  function AmountsOf(st: FileState): Amounts {
    Amounts(FoundIn(st), HitIn(st), BranchesFoundIn(st), BranchesHitIn(st))
  }

  ghost predicate KnowsLine(number: string -> Num, blocks: seq<Block>, path: string, st: FileState, no: int) {
    && (no in st.lines <==> FileLine(number, blocks, path, no, false))
    && (no in st.lines && st.lines[no] <==> FileLine(number, blocks, path, no, true))
  }

  ghost predicate KnowsKey(number: string -> Num, blocks: seq<Block>, path: string, st: FileState, key: BranchKey) {
    && (key in st.branches <==> FileBranch(number, blocks, path, key, false))
    && (key in st.branches && st.branches[key] <==> FileBranch(number, blocks, path, key, true))
  }

  lemma KnownLines(number: string -> Num, blocks: seq<Block>, path: string, st: FileState)
    requires forall no :: KnowsLine(number, blocks, path, st, no)
    ensures LineSets(number, blocks, path, st.lines.Keys, TrueKeys(st.lines))
  {
    forall no
      ensures no in st.lines.Keys <==> FileLine(number, blocks, path, no, false)
      ensures no in TrueKeys(st.lines) <==> FileLine(number, blocks, path, no, true)
    {
      assert KnowsLine(number, blocks, path, st, no);
    }
  }

  lemma CountOfLines(number: string -> Num, blocks: seq<Block>, path: string, st: FileState)
    requires LineSets(number, blocks, path, st.lines.Keys, TrueKeys(st.lines))
    requires GreatestAmount(number, blocks, path, LF, Fallback(st, LF))
    requires GreatestAmount(number, blocks, path, LH, Fallback(st, LH))
    ensures LinesCounted(number, blocks, path, AmountsOf(st))
  {
    assert |st.lines.Keys| == |st.lines|;
  }

  lemma KnownBranches(number: string -> Num, blocks: seq<Block>, path: string, st: FileState)
    requires forall key :: KnowsKey(number, blocks, path, st, key)
    ensures BranchSets(number, blocks, path, st.branches.Keys, TrueKeys(st.branches))
  {
    forall key
      ensures key in st.branches.Keys <==> FileBranch(number, blocks, path, key, false)
      ensures key in TrueKeys(st.branches) <==> FileBranch(number, blocks, path, key, true)
    {
      assert KnowsKey(number, blocks, path, st, key);
    }
  }

  lemma CountOfBranches(number: string -> Num, blocks: seq<Block>, path: string, st: FileState)
    requires BranchSets(number, blocks, path, st.branches.Keys, TrueKeys(st.branches))
    requires GreatestAmount(number, blocks, path, BRF, Fallback(st, BRF))
    requires GreatestAmount(number, blocks, path, BRH, Fallback(st, BRH))
    ensures BranchesCounted(number, blocks, path, AmountsOf(st))
  {
    assert |st.branches.Keys| == |st.branches|;
  }

  lemma LineKnown(number: string -> Num, blocks: seq<Block>, path: string, no: int)
    ensures KnowsLine(number, blocks, path, GetFileState(Combined(number, blocks).files, path), no)
  {
    LineMeaning(number, blocks, path, no);
    MentionedByText(number, blocks, path, no, false);
    MentionedByText(number, blocks, path, no, true);
  }

  lemma KeyKnown(number: string -> Num, blocks: seq<Block>, path: string, key: BranchKey)
    ensures KnowsKey(number, blocks, path, GetFileState(Combined(number, blocks).files, path), key)
  {
    BranchMeaning(number, blocks, path, key);
    BranchesByText(number, blocks, path, key, false);
    BranchesByText(number, blocks, path, key, true);
  }

  lemma FallbackText(number: string -> Num, blocks: seq<Block>, path: string, which: Declaration, v: Amount)
    requires v == Fallback(GetFileState(Combined(number, blocks).files, path), which)
    ensures GreatestAmount(number, blocks, path, which, v)
  {
    FallbackMeaning(number, blocks, path, which);
    GreatestByText(number, blocks, path, which, v);
  }

  lemma FallbackByText(number: string -> Num, blocks: seq<Block>, path: string, st: FileState)
    requires st == GetFileState(Combined(number, blocks).files, path)
    ensures forall which :: GreatestAmount(number, blocks, path, which, Fallback(st, which))
  {
    forall which ensures GreatestAmount(number, blocks, path, which, Fallback(st, which)) {
      FallbackText(number, blocks, path, which, Fallback(st, which));
    }
  }

  lemma StateCountsLines(number: string -> Num, blocks: seq<Block>, path: string, st: FileState)
    requires st == GetFileState(Combined(number, blocks).files, path)
    ensures LineSets(number, blocks, path, st.lines.Keys, TrueKeys(st.lines))
  {
    forall no ensures KnowsLine(number, blocks, path, st, no) {
      LineKnown(number, blocks, path, no);
    }
    KnownLines(number, blocks, path, st);
  }

  lemma StateCountsBranches(number: string -> Num, blocks: seq<Block>, path: string, st: FileState)
    requires st == GetFileState(Combined(number, blocks).files, path)
    ensures BranchSets(number, blocks, path, st.branches.Keys, TrueKeys(st.branches))
  {
    forall key ensures KnowsKey(number, blocks, path, st, key) {
      KeyKnown(number, blocks, path, key);
    }
    KnownBranches(number, blocks, path, st);
  }

  /** What the scan knows of a file is what the blocks of the file say. */
  lemma StateIsCounted(number: string -> Num, blocks: seq<Block>, path: string, st: FileState)
    requires st == GetFileState(Combined(number, blocks).files, path)
    ensures LinesCounted(number, blocks, path, AmountsOf(st)) && BranchesCounted(number, blocks, path, AmountsOf(st))
  {
    StateCountsLines(number, blocks, path, st);
    StateCountsBranches(number, blocks, path, st);
    FallbackByText(number, blocks, path, st);
    CountOfLines(number, blocks, path, st);
    CountOfBranches(number, blocks, path, st);
  }

  function FoundOf(a: Amounts): Amount { a.found }

  function HitOf(a: Amounts): Amount { a.hit }

  function BranchesOf(a: Amounts): Amount { a.branches }

  function BranchHitsOf(a: Amounts): Amount { a.branchHits }

  // ------------------------------------------------------------------ all files

  ghost function SumOf(amounts: map<string, Amounts>, pick: Amounts -> Amount): Amount {
    if amounts == map[] then 0.0
    else
      var path :| path in amounts;
      SumOf(amounts - {path}, pick) + pick(amounts[path])
  }

  /** It is the sum, in whatever order. */
  lemma {:induction false} SumWithout(amounts: map<string, Amounts>, pick: Amounts -> Amount, path: string)
    requires path in amounts
    ensures SumOf(amounts, pick) == SumOf(amounts - {path}, pick) + pick(amounts[path])
    decreases |amounts|
  {
    var first :|
      first in amounts && SumOf(amounts, pick) == SumOf(amounts - {first}, pick) + pick(amounts[first]);
    if first != path {
      var fewer := amounts - {first};
      SumWithout(fewer, pick, path);
      SumWithout(amounts - {path}, pick, first);
      assert amounts - {path} - {first} == fewer - {path};
    }
  }

  /** One entry for each file that a block is about, with the amounts of its blocks. */
  ghost predicate Counted(number: string -> Num, blocks: seq<Block>, amounts: map<string, Amounts>) {
    && (forall path :: path in amounts <==> About(blocks, path))
    && forall path :: path in amounts ==>
         LinesCounted(number, blocks, path, amounts[path]) && BranchesCounted(number, blocks, path, amounts[path])
  }

  ghost predicate About(blocks: seq<Block>, path: string) {
    exists b :: b in blocks && b.path == path
  }

  function AmountsOfFiles(files: Files): map<string, Amounts> {
    map path | path in files :: AmountsOf(files[path])
  }

  lemma AmountsWithout(files: Files, path: string, fewer: Files)
    requires path in files && fewer == files - {path}
    ensures AmountsOfFiles(fewer) == AmountsOfFiles(files) - {path}
    ensures path in AmountsOfFiles(files) && AmountsOfFiles(files)[path] == AmountsOf(files[path])
  {
  }

  lemma SumStep(
      files: Files, amount: FileState -> Amount, pick: Amounts -> Amount, path: string, st: FileState, fewer: Files)
    requires path in files && st == files[path] && fewer == files - {path} && amount(st) == pick(AmountsOf(st))
    requires Total(fewer, amount) == SumOf(AmountsOfFiles(fewer), pick)
    ensures Total(files, amount) == SumOf(AmountsOfFiles(files), pick)
  {
    AmountsWithout(files, path, fewer);
    var amounts := AmountsOfFiles(files);
    TotalWithout(files, amount, path);
    SumWithout(amounts, pick, path);
  }

  lemma {:induction false} TotalIsSum(files: Files, amount: FileState -> Amount, pick: Amounts -> Amount)
    requires forall st :: amount(st) == pick(AmountsOf(st))
    ensures Total(files, amount) == SumOf(AmountsOfFiles(files), pick)
    decreases |files|
  {
    if files == map[] {
      assert AmountsOfFiles(files) == map[];
    } else {
      var path :| path in files;
      TotalIsSum(files - {path}, amount, pick);
      SumStep(files, amount, pick, path, files[path], files - {path});
    }
  }

  lemma {:induction false} FilesAreNamed(number: string -> Num, blocks: seq<Block>, path: string)
    ensures path in Combined(number, blocks).files <==> About(blocks, path)
  {
    if blocks != [] {
      var init, last := blocks[..|blocks| - 1], blocks[|blocks| - 1];
      FilesAreNamed(number, init, path);
      AboutNext(init, last, path, blocks);
      JoinedPaths(Combined(number, init), Contribution(number, last));
    }
  }

  lemma AboutNext(blocks: seq<Block>, b: Block, path: string, all: seq<Block>)
    requires all == blocks + [b]
    ensures About(all, path) <==> About(blocks, path) || b.path == path
  {
    assert b in all && forall x :: x in all <==> x in blocks || x == b;
  }

  lemma FilesAreCounted(number: string -> Num, blocks: seq<Block>, files: Files)
    requires files == Combined(number, blocks).files
    ensures Counted(number, blocks, AmountsOfFiles(files))
  {
    forall path ensures path in files <==> About(blocks, path) {
      FilesAreNamed(number, blocks, path);
    }
    forall path | path in files
      ensures LinesCounted(number, blocks, path, AmountsOf(files[path]))
              && BranchesCounted(number, blocks, path, AmountsOf(files[path]))
    {
      StateIsCounted(number, blocks, path, files[path]);
    }
  }

  // ------------------------------------------------------------------ the summary

  /** The totals, and the percentages of them. */
  ghost predicate SummaryOf(amounts: map<string, Amounts>, hasBranches: bool, s: Summary) {
    && s.linesFound == SumOf(amounts, FoundOf) && s.linesHit == SumOf(amounts, HitOf)
    && s.branchesFound == SumOf(amounts, BranchesOf)
    && s.branchesHit == SumOf(amounts, BranchHitsOf)
    && s.hasBranchCoverage == hasBranches
    && s.linesFound > 0.0 && s.lineCoveragePct * s.linesFound == 100.0 * s.linesHit
    && if s.branchesFound > 0.0 then s.branchCoveragePct * s.branchesFound == 100.0 * s.branchesHit
       else s.branchCoveragePct == 100.0
  }

  lemma PercentTimes(part: Amount, whole: Amount)
    requires whole > 0.0
    ensures Percent(part, whole) * whole == 100.0 * part
  {
    var ratio := part / whole;
    assert ratio * whole == part;
    assert (ratio * 100.0) * whole == 100.0 * (ratio * whole);
  }

  lemma SumsOfFiles(files: Files)
    ensures var amounts := AmountsOfFiles(files);
            && Total(files, FoundIn) == SumOf(amounts, FoundOf)
            && Total(files, HitIn) == SumOf(amounts, HitOf)
            && Total(files, BranchesFoundIn) == SumOf(amounts, BranchesOf)
            && Total(files, BranchesHitIn) == SumOf(amounts, BranchHitsOf)
  {
    TotalIsSum(files, FoundIn, FoundOf);
    TotalIsSum(files, HitIn, HitOf);
    TotalIsSum(files, BranchesFoundIn, BranchesOf);
    TotalIsSum(files, BranchesHitIn, BranchHitsOf);
  }

  lemma SummaryBySums(amounts: map<string, Amounts>, hasBranches: bool, s: Summary)
    requires s.linesFound == SumOf(amounts, FoundOf) && s.linesHit == SumOf(amounts, HitOf)
    requires s.branchesFound == SumOf(amounts, BranchesOf) && s.branchesHit == SumOf(amounts, BranchHitsOf)
    requires s.hasBranchCoverage == hasBranches && s.linesFound > 0.0
    requires s.lineCoveragePct == Percent(s.linesHit, s.linesFound)
    requires s.branchCoveragePct == if s.branchesFound > 0.0 then Percent(s.branchesHit, s.branchesFound) else 100.0
    ensures SummaryOf(amounts, hasBranches, s)
  {
    PercentTimes(s.linesHit, s.linesFound);
    if s.branchesFound > 0.0 {
      PercentTimes(s.branchesHit, s.branchesFound);
    }
  }

  lemma SummarizedFiles(files: Files, hasBranches: bool)
    ensures match Summarize(files, hasBranches)
            case Ok(s) => SummaryOf(AmountsOfFiles(files), hasBranches, s)
            case Err(e) => e == NoInstrumentedLines && SumOf(AmountsOfFiles(files), FoundOf) == 0.0
  {
    SumsOfFiles(files);
    match Summarize(files, hasBranches)
    case Ok(s) => SummaryBySums(AmountsOfFiles(files), hasBranches, s);
    case Err(_) =>
  }

  /**
   * What a report amounts to. If no line is invalid where it stands, the totals are sums over the files that its blocks
   * are about, of lines and branches counted by the text of the blocks or declared by it; there is no summary exactly
   * when no line is found. Otherwise there is none either.
   */
  lemma CoverageExactly(number: string -> Num, lines: seq<string>)
    ensures match Coverage(number, lines)
            case Ok(s) =>
              && Accepted(number, lines)
              && exists amounts ::
                   && Counted(number, BlocksOf(number, lines), amounts)
                   && SummaryOf(amounts, HasBranches(number, lines), s)
            case Err(NoInstrumentedLines) =>
              && Accepted(number, lines)
              && exists amounts ::
                   && Counted(number, BlocksOf(number, lines), amounts)
                   && SumOf(amounts, FoundOf) == 0.0
            case Err(InvalidValue(_, line)) => exists i: nat :: FirstInvalid(number, lines, i) && line == lines[i]
  {
    var blocks := BlocksOf(number, lines);
    var files := Combined(number, blocks).files;
    RunReport(number, lines);
    CombinedBranches(number, blocks);
    FilesAreCounted(number, blocks, files);
    SummarizedFiles(files, HasBranches(number, lines));
  }
}
