/** What the lines of an LCOV report mean (src/utils/coverage.ts:88-189), told by their text. */
module LcovText {
  import opened Common
  import opened Tokens
  import Whitespace
  import opened Lcov
  import opened LcovReports

  // ------------------------------------------------------------------ comma-separated parts

  ghost predicate NoComma(s: string) {
    forall i :: 0 <= i < |s| ==> s[i] != ','
  }

  /** What may follow the last part that is looked at. */
  ghost predicate Ignored(tail: string) {
    tail == "" || tail[0] == ','
  }

  lemma {:induction false} CommaAfter(part: string, tail: string)
    requires NoComma(part) && Ignored(tail)
    ensures IndexOfComma(part + tail) == |part|
  {
    if part == "" {
      assert part + tail == tail;
    } else {
      assert (part + tail)[1..] == part[1..] + tail;
      CommaAfter(part[1..], tail);
    }
  }

  lemma FirstPart(part: string, tail: string)
    requires NoComma(part) && Ignored(tail)
    ensures Part(part + tail, 0) == Some(part)
  {
    CommaAfter(part, tail);
  }

  lemma LaterPart(part: string, rest: string, i: nat)
    requires NoComma(part) && i > 0
    ensures Part(part + "," + rest, i) == Part(rest, i - 1)
  {
    AppendAssociates(part, ",", rest);
    CommaAfter(part, "," + rest);
    assert (part + "," + rest)[|part| + 1..] == rest;
  }

  lemma {:induction false} IndexIsComma(s: string)
    ensures NoComma(s[..IndexOfComma(s)])
    ensures IndexOfComma(s) < |s| ==> s[IndexOfComma(s)] == ','
  {
    if s != "" && s[0] != ',' {
      IndexIsComma(s[1..]);
      var k := IndexOfComma(s);
      assert forall i :: 1 <= i < k ==> s[..k][i] == s[1..][..k - 1][i - 1];
    }
  }

  /** The last part that is looked at, and what is ignored. */
  lemma LastPart(s: string) returns (part: string, tail: string)
    ensures s == part + tail && NoComma(part) && Ignored(tail) && Part(s, 0) == Some(part)
  {
    IndexIsComma(s);
    part, tail := s[..IndexOfComma(s)], s[IndexOfComma(s)..];
  }

  /** A part with another one after it. */
  lemma Peel(s: string, i: nat) returns (part: string, rest: string)
    requires i > 0 && Part(s, i).Some?
    ensures s == part + "," + rest && NoComma(part) && Part(s, 0) == Some(part)
    ensures forall j: nat :: j > 0 ==> Part(s, j) == Part(rest, j - 1)
  {
    IndexIsComma(s);
    var k := IndexOfComma(s);
    part, rest := s[..k], s[k + 1..];
    assert s == s[..k] + [s[k]] + s[k + 1..];
  }

  // ------------------------------------------------------------------ DA

  /** The text is a whole number that is not negative. */
  ghost predicate Whole(number: string -> Num, text: string, n: int) {
    n >= 0 && number(text) == Finite(n as real)
  }

  /** The text is DA:line,hits and possibly more; `hit` asks for hits above zero. */
  ghost predicate SaysLine(number: string -> Num, line: string, no: int, hit: bool) {
    exists n, h, tail, hits ::
      && NoComma(n) && NoComma(h) && Ignored(tail) && line == "DA:" + n + "," + h + tail
      && Whole(number, n, no) && number(h) == Finite(hits) && hits >= 0.0 && (hit ==> hits > 0.0)
  }

  lemma AfterPrefix(prefix: string, rest: string)
    ensures StartsWith(prefix + rest, prefix) && (prefix + rest)[|prefix|..] == rest
  {
  }

  lemma ReadDA(number: string -> Num, rest: string)
    ensures Read(number, "DA:" + rest) == ReadLine(number, rest)
  {
    var line := "DA:" + rest;
    AfterPrefix("DA:", rest);
    assert line[0] == 'D' && line[..3] == "DA:";
    assert "SF:"[0] == 'S' && "end_of_record"[0] == 'e';
  }

  lemma OnlyDA(number: string -> Num, line: string)
    requires Read(number, line).Line?
    ensures |line| >= 3 && line == "DA:" + line[3..]
  {
    assert StartsWith(line, "DA:");
    assert line == line[..3] + line[3..];
  }

  lemma ReadLineText(number: string -> Num, n: string, h: string, tail: string)
    requires NoComma(n) && NoComma(h) && Ignored(tail)
    ensures Part(n + "," + (h + tail), 0) == Some(n) && Part(n + "," + (h + tail), 1) == Some(h)
  {
    AppendAssociates(n, ",", h + tail);
    FirstPart(n, "," + (h + tail));
    LaterPart(n, h + tail, 1);
    FirstPart(h, tail);
  }

  lemma WholeIsIndex(number: string -> Num, text: string)
    ensures IsIndex(number(text)) ==> Whole(number, text, number(text).value.Floor)
    ensures forall n :: Whole(number, text, n) ==> IsIndex(number(text)) && number(text).value.Floor == n
  {
    forall n | Whole(number, text, n) ensures IsIndex(number(text)) && number(text).value.Floor == n {
      assert (n as real).Floor == n;
    }
  }

  /** A line of the report marks a line of the file exactly when its text says so, as hit exactly with hits above 0. */
  lemma LineByText(number: string -> Num, line: string, no: int, hit: bool)
    ensures Says(Read(number, line), no, hit) <==> SaysLine(number, line, no, hit)
  {
    if SaysLine(number, line, no, hit) {
      var n, h, tail, hits :|
        NoComma(n) && NoComma(h) && Ignored(tail) && line == "DA:" + n + "," + h + tail
        && Whole(number, n, no) && number(h) == Finite(hits) && hits >= 0.0 && (hit ==> hits > 0.0);
      SaidByText(number, line, n, h, tail);
      WholeIsIndex(number, n);
    }
    if Says(Read(number, line), no, hit) {
      TextOfLine(number, line, no, hit);
    }
  }

  lemma SaidByText(number: string -> Num, line: string, n: string, h: string, tail: string)
    requires NoComma(n) && NoComma(h) && Ignored(tail) && line == "DA:" + n + "," + h + tail
    ensures Read(number, line) == ReadLine(number, n + "," + (h + tail))
    ensures Part(n + "," + (h + tail), 0) == Some(n) && Part(n + "," + (h + tail), 1) == Some(h)
  {
    assert line == "DA:" + (n + "," + (h + tail));
    ReadDA(number, n + "," + (h + tail));
    ReadLineText(number, n, h, tail);
  }

  lemma TextOfLine(number: string -> Num, line: string, no: int, hit: bool)
    requires Says(Read(number, line), no, hit)
    ensures SaysLine(number, line, no, hit)
  {
    OnlyDA(number, line);
    var rest := line[3..];
    ReadDA(number, rest);
    var n, more := Peel(rest, 1);
    var h, tail := LastPart(more);
    WholeIsIndex(number, n);
    TextOfDA(line, rest, n, h, tail, more);
  }

  lemma TextOfDA(line: string, rest: string, n: string, h: string, tail: string, more: string)
    requires line == "DA:" + rest && rest == n + "," + more && more == h + tail
    ensures line == "DA:" + n + "," + h + tail
  {
  }

  // ------------------------------------------------------------------ BRDA

  /** "-", or digits; `taken` asks for a count above zero. */
  ghost predicate TakenText(t: string, taken: bool) {
    var count := Whitespace.Trim(t);
    (count == "-" && !taken) || (AllDigits(count) && (taken ==> exists i :: 0 <= i < |count| && count[i] != '0'))
  }

  /** The text is BRDA:line,block,branch,count and possibly more. */
  ghost predicate SaysBranch(number: string -> Num, line: string, key: BranchKey, taken: bool) {
    exists a, b, c, t, tail ::
      && NoComma(a) && NoComma(b) && NoComma(c) && NoComma(t) && Ignored(tail)
      && line == "BRDA:" + a + "," + b + "," + c + "," + t + tail
      && Whole(number, a, key.0) && Whole(number, b, key.1) && Whole(number, c, key.2) && TakenText(t, taken)
  }

  lemma {:induction false} ParsePositive(s: string)
    requires forall i :: 0 <= i < |s| ==> IsDigit(s[i])
    ensures ParseDecimal(s) > 0 <==> exists i :: 0 <= i < |s| && s[i] != '0'
  {
    if s != "" {
      var init := s[..|s| - 1];
      ParsePositive(init);
      assert IsDigit(s[|s| - 1]);
      if i :| 0 <= i < |init| && init[i] != '0' {
        assert s[i] != '0';
      }
      if i :| 0 <= i < |s| && s[i] != '0' {
        assert i < |init| ==> init[i] != '0';
      }
    }
  }

  lemma CountByText(t: string, taken: bool)
    ensures TakenText(t, taken) <==> TakenCount(Some(t)).Some? && (taken ==> TakenCount(Some(t)).value > 0)
  {
    var count := Whitespace.Trim(t);
    DigitsExactly(count);
    if AllDigits(count) {
      ParsePositive(count);
    }
  }

  lemma DigitsExactly(s: string)
    ensures AllDigits(s) <==> s != "" && DigitsStart(s) == 0
  {
  }

  lemma ReadBRDA(number: string -> Num, rest: string)
    ensures Read(number, "BRDA:" + rest) == ReadBranch(number, rest)
  {
    var line := "BRDA:" + rest;
    AfterPrefix("BRDA:", rest);
    assert line[0] == 'B' && line[..5] == "BRDA:";
    assert "SF:"[0] == 'S' && "end_of_record"[0] == 'e' && "DA:"[0] == 'D';
  }

  lemma OnlyBRDA(number: string -> Num, line: string)
    requires Read(number, line).Branch?
    ensures |line| >= 5 && line == "BRDA:" + line[5..]
  {
    assert StartsWith(line, "BRDA:");
    assert line == line[..5] + line[5..];
  }

  /** The four parts. */
  ghost predicate FourParts(s: string, a: string, b: string, c: string, t: string) {
    Part(s, 0) == Some(a) && Part(s, 1) == Some(b) && Part(s, 2) == Some(c) && Part(s, 3) == Some(t)
  }

  lemma BranchParts(a: string, b: string, c: string, t: string, tail: string)
    requires NoComma(a) && NoComma(b) && NoComma(c) && NoComma(t) && Ignored(tail)
    ensures FourParts(a + "," + (b + "," + (c + "," + (t + tail))), a, b, c, t)
  {
    var s3 := t + tail;
    var s2 := c + "," + s3;
    var s1 := b + "," + s2;
    var s := a + "," + s1;
    assert s == a + ("," + s1) && s1 == b + ("," + s2) && s2 == c + ("," + s3);
    FirstPart(a, "," + s1);
    FirstPart(b, "," + s2);
    FirstPart(c, "," + s3);
    FirstPart(t, tail);
    LaterPart(a, s1, 1);
    LaterPart(a, s1, 2);
    LaterPart(a, s1, 3);
    LaterPart(b, s2, 1);
    LaterPart(b, s2, 2);
    LaterPart(c, s3, 1);
  }

  lemma SpellBranch(a: string, b: string, c: string, t: string, tail: string)
    ensures "BRDA:" + a + "," + b + "," + c + "," + t + tail
            == "BRDA:" + (a + "," + (b + "," + (c + "," + (t + tail))))
  {
  }

  /** What the parts say. */
  lemma BranchOfParts(number: string -> Num, rest: string, a: string, b: string, c: string, t: string, key: BranchKey,
                      taken: bool)
    requires FourParts(rest, a, b, c, t)
    ensures Takes(ReadBranch(number, rest), key, taken) <==>
            Whole(number, a, key.0) && Whole(number, b, key.1) && Whole(number, c, key.2) && TakenText(t, taken)
  {
    WholeIsIndex(number, a);
    WholeIsIndex(number, b);
    WholeIsIndex(number, c);
    CountByText(t, taken);
    CountByText(t, false);
  }

  /** A line of the report names a branch exactly when its text says so, as taken exactly with a count above zero. */
  lemma BranchByText(number: string -> Num, line: string, key: BranchKey, taken: bool)
    ensures Takes(Read(number, line), key, taken) <==> SaysBranch(number, line, key, taken)
  {
    if SaysBranch(number, line, key, taken) {
      var a, b, c, t, tail :|
        && NoComma(a) && NoComma(b) && NoComma(c) && NoComma(t) && Ignored(tail)
        && line == "BRDA:" + a + "," + b + "," + c + "," + t + tail
        && Whole(number, a, key.0) && Whole(number, b, key.1) && Whole(number, c, key.2) && TakenText(t, taken);
      SpellBranch(a, b, c, t, tail);
      var rest := a + "," + (b + "," + (c + "," + (t + tail)));
      ReadBRDA(number, rest);
      BranchParts(a, b, c, t, tail);
      BranchOfParts(number, rest, a, b, c, t, key, taken);
    }
    if Takes(Read(number, line), key, taken) {
      TextOfBranch(number, line, key, taken);
    }
  }

  lemma TextOfBranch(number: string -> Num, line: string, key: BranchKey, taken: bool)
    requires Takes(Read(number, line), key, taken)
    ensures SaysBranch(number, line, key, taken)
  {
    OnlyBRDA(number, line);
    var rest := line[5..];
    ReadBRDA(number, rest);
    AllFourThere(number, rest);
    var a, s1 := Peel(rest, 3);
    var b, s2 := Peel(s1, 2);
    var c, s3 := Peel(s2, 1);
    var t, tail := LastPart(s3);
    assert FourParts(rest, a, b, c, t);
    BranchOfParts(number, rest, a, b, c, t, key, taken);
    SpellBranch(a, b, c, t, tail);
  }

  lemma AllFourThere(number: string -> Num, rest: string)
    requires ReadBranch(number, rest).Branch?
    ensures Part(rest, 3).Some?
  {
    assert Whitespace.Trim("") == "";
  }

  // ------------------------------------------------------------------ LF, LH, BRF, BRH

  function Prefix(which: Declaration): string {
    match which
    case LF => "LF:"
    case LH => "LH:"
    case BRF => "BRF:"
    case BRH => "BRH:"
  }

  /** The text is the prefix and an amount. */
  ghost predicate SaysAmount(number: string -> Num, line: string, which: Declaration, v: Amount) {
    Prefix(which) <= line && number(line[|Prefix(which)|..]) == Finite(v)
  }

  lemma ReadAmount(number: string -> Num, rest: string, which: Declaration)
    ensures Read(number, Prefix(which) + rest) ==
            if IsAmount(number(rest))
            then match which
                 case LF => LinesFound(number(rest).value)
                 case LH => LinesHit(number(rest).value)
                 case BRF => BranchesFound(number(rest).value)
                 case BRH => BranchesHit(number(rest).value)
            else Bad(Prefix(which)[..|Prefix(which)| - 1])
  {
    var line := Prefix(which) + rest;
    AfterPrefix(Prefix(which), rest);
    assert line[0] == Prefix(which)[0] && line[1] == Prefix(which)[1] && line[2] == Prefix(which)[2];
  }

  lemma OnlyAmount(number: string -> Num, line: string, which: Declaration)
    requires Declared(Read(number, line), which).Some?
    ensures Prefix(which) <= line
  {
  }

  /** A line declares an amount exactly when its text does. */
  lemma AmountByText(number: string -> Num, line: string, which: Declaration, v: Amount)
    ensures Declared(Read(number, line), which) == Some(v) <==> SaysAmount(number, line, which, v)
  {
    if Declared(Read(number, line), which).Some? {
      OnlyAmount(number, line, which);
    }
    if Prefix(which) <= line {
      DeclaredAfter(number, line, line[|Prefix(which)|..], which, v);
    }
  }

  lemma DeclaredAfter(number: string -> Num, line: string, rest: string, which: Declaration, v: Amount)
    requires line == Prefix(which) + rest
    ensures Declared(Read(number, line), which) == Some(v) <==> number(rest) == Finite(v)
  {
    ReadAmount(number, rest, which);
  }

  // ------------------------------------------------------------------ markers and invalid lines

  /** Which lines begin and end a block. */
  lemma MarkersByText(number: string -> Num, line: string)
    ensures forall path :: Read(number, line) == Start(path) <==> line == "SF:" + path
    ensures Read(number, line) == End <==> line == "end_of_record"
  {
    forall path ensures Read(number, line) == Start(path) <==> line == "SF:" + path {
      AfterPrefix("SF:", path);
      if Read(number, line) == Start(path) {
        assert line == line[..3] + line[3..];
      }
    }
    if line == "end_of_record" {
      assert line[..3][0] == 'e';
    }
  }

  /** The text declares an amount that is none. */
  ghost predicate DeclaresBadly(number: string -> Num, line: string) {
    exists which :: Prefix(which) <= line && forall v: Amount :: !SaysAmount(number, line, which, v)
  }

  /** The text is a DA or BRDA line that marks nothing. */
  ghost predicate MarksBadly(number: string -> Num, line: string) {
    || ("DA:" <= line && forall no :: !SaysLine(number, line, no, false))
    || ("BRDA:" <= line && forall key :: !SaysBranch(number, line, key, false))
  }

  lemma BadAmountByText(number: string -> Num, line: string)
    ensures Read(number, line).Bad? <==> DeclaresBadly(number, line)
  {
    if Read(number, line).Bad? {
      var which := BadPrefix(number, line);
      forall v: Amount ensures !SaysAmount(number, line, which, v) {
        AmountByText(number, line, which, v);
      }
    }
    if which :| Prefix(which) <= line && forall v: Amount :: !SaysAmount(number, line, which, v) {
      var rest := line[|Prefix(which)|..];
      assert line == Prefix(which) + rest;
      ReadAmount(number, rest, which);
      if IsAmount(number(rest)) {
        assert SaysAmount(number, line, which, number(rest).value);
      }
    }
  }

  lemma BadPrefix(number: string -> Num, line: string) returns (which: Declaration)
    requires Read(number, line).Bad?
    ensures Prefix(which) <= line
  {
    which := if StartsWith(line, "LF:") then LF else if StartsWith(line, "LH:") then LH
             else if StartsWith(line, "BRF:") then BRF else BRH;
  }

  lemma MarksAreRead(number: string -> Num, line: string)
    ensures var e := Read(number, line);
            && ("DA:" <= line ==> e.Line? || e.BadInFile?) && ("BRDA:" <= line ==> e.Branch? || e.BadInFile?)
            && (e.Line? ==> !("BRDA:" <= line)) && (e.Branch? ==> !("DA:" <= line))
            && (e.BadInFile? ==> "DA:" <= line || "BRDA:" <= line)
  {
    if "DA:" <= line {
      assert line == "DA:" + line[3..] && line[0] == 'D';
      ReadDA(number, line[3..]);
    } else if "BRDA:" <= line {
      assert line == "BRDA:" + line[5..] && line[0] == 'B';
      ReadBRDA(number, line[5..]);
    }
  }

  lemma BadMarkByText(number: string -> Num, line: string)
    ensures Read(number, line).BadInFile? <==> MarksBadly(number, line)
  {
    forall no ensures Says(Read(number, line), no, false) <==> SaysLine(number, line, no, false) {
      LineByText(number, line, no, false);
    }
    forall key ensures Takes(Read(number, line), key, false) <==> SaysBranch(number, line, key, false) {
      BranchByText(number, line, key, false);
    }
    var e := Read(number, line);
    if e.Line? {
      assert Says(e, e.no, false);
    } else if e.Branch? {
      assert Takes(e, e.key, false);
    }
    MarksAreRead(number, line);
  }

  /** A line is invalid where it stands exactly when its text declares or marks something badly. */
  lemma InvalidByText(number: string -> Num, inBlock: bool, line: string)
    ensures Invalid(number, inBlock, line) <==> DeclaresBadly(number, line) || (inBlock && MarksBadly(number, line))
  {
    BadAmountByText(number, line);
    BadMarkByText(number, line);
  }

  /** A line shows branch data exactly when it declares branches, or marks one inside a block. */
  lemma ShownByText(number: string -> Num, inBlock: bool, line: string)
    ensures ShowsBranches(Read(number, line), inBlock) <==>
            || (exists v: Amount :: SaysAmount(number, line, BRF, v))
            || (exists v: Amount :: SaysAmount(number, line, BRH, v))
            || (inBlock && exists key :: SaysBranch(number, line, key, false))
  {
    var e := Read(number, line);
    forall which, v: Amount ensures Declared(e, which) == Some(v) <==> SaysAmount(number, line, which, v) {
      AmountByText(number, line, which, v);
    }
    forall key ensures Takes(e, key, false) <==> SaysBranch(number, line, key, false) {
      BranchByText(number, line, key, false);
    }
    if e.BranchesFound? {
      assert Declared(e, BRF) == Some(e.branches);
    } else if e.BranchesHit? {
      assert Declared(e, BRH) == Some(e.branchHits);
    } else if e.Branch? {
      assert Takes(e, e.key, false);
    }
  }

  // ------------------------------------------------------------------ where the blocks are

  predicate Marker(line: string) {
    line == "end_of_record" || "SF:" <= line
  }

  /** The block begins with its SF line at i, and ends before j, at a marker or at the end. */
  ghost predicate BlockAt(lines: seq<string>, b: Block, i: nat, j: nat) {
    && i < j <= |lines| && lines[i] == "SF:" + b.path && b.body == lines[i + 1..j]
    && (forall k :: i < k < j ==> !Marker(lines[k])) && (j < |lines| ==> Marker(lines[j]))
  }

  ghost predicate BlockBefore(lines: seq<string>, b: Block, n: nat) {
    exists i: nat, j: nat :: j < n && BlockAt(lines, b, i, j)
  }

  ghost predicate BlockUpTo(lines: seq<string>, b: Block) {
    exists i: nat :: BlockAt(lines, b, i, |lines|)
  }

  /** The split says which blocks there are. */
  ghost predicate SplitFinds(number: string -> Num, lines: seq<string>, b: Block) {
    && (b in Split(number, lines).closed <==> BlockBefore(lines, b, |lines|))
    && (Split(number, lines).open == Some(b) <==> BlockUpTo(lines, b))
  }

  lemma BlockStays(lines: seq<string>, line: string, b: Block, i: nat, j: nat)
    requires j < |lines|
    ensures BlockAt(lines + [line], b, i, j) <==> BlockAt(lines, b, i, j)
  {
    var all := lines + [line];
    assert forall k :: 0 <= k < |lines| ==> all[k] == lines[k];
    if i < j {
      assert all[i + 1..j] == lines[i + 1..j];
    }
  }

  lemma BlockCloses(lines: seq<string>, line: string, b: Block, i: nat)
    ensures BlockAt(lines + [line], b, i, |lines|) <==> Marker(line) && BlockAt(lines, b, i, |lines|)
  {
    var all := lines + [line];
    assert all[|lines|] == line && forall k :: 0 <= k < |lines| ==> all[k] == lines[k];
    if i < |lines| {
      assert all[i + 1..|lines|] == lines[i + 1..];
    }
  }

  lemma BeforeNext(lines: seq<string>, line: string, b: Block)
    ensures BlockBefore(lines + [line], b, |lines| + 1) <==>
            BlockBefore(lines, b, |lines|) || (Marker(line) && BlockUpTo(lines, b))
  {
    var all := lines + [line];
    if i: nat, j: nat :| j < |lines| + 1 && BlockAt(all, b, i, j) {
      if j < |lines| {
        BlockStays(lines, line, b, i, j);
      } else {
        BlockCloses(lines, line, b, i);
      }
    }
    if i: nat, j: nat :| j < |lines| && BlockAt(lines, b, i, j) {
      BlockStays(lines, line, b, i, j);
    }
    if Marker(line) && BlockUpTo(lines, b) {
      var i: nat :| BlockAt(lines, b, i, |lines|);
      BlockCloses(lines, line, b, i);
    }
  }

  lemma UpToNext(lines: seq<string>, line: string, b: Block)
    ensures BlockUpTo(lines + [line], b) <==>
            if Marker(line) then line == "SF:" + b.path && b.body == []
            else b.body != [] && b.body[|b.body| - 1] == line
                 && BlockUpTo(lines, Block(b.path, b.body[..|b.body| - 1]))
  {
    var all, n := lines + [line], |lines|;
    assert all[n] == line;
    if BlockUpTo(all, b) {
      var i: nat :| BlockAt(all, b, i, |all|);
      if i < n {
        OpenGrows(lines, line, b.path, lines[i + 1..], i);
        assert b.body == all[i + 1..] == lines[i + 1..] + [line];
        assert b.body[..|b.body| - 1] == lines[i + 1..];
      }
    }
    if line == "SF:" + b.path && b.body == [] {
      assert BlockAt(all, b, n, |all|);
    }
    if !Marker(line) && b.body != [] && b.body[|b.body| - 1] == line {
      var body := b.body[..|b.body| - 1];
      if BlockUpTo(lines, Block(b.path, body)) {
        var i: nat :| BlockAt(lines, Block(b.path, body), i, n);
        OpenGrows(lines, line, b.path, body, i);
        assert body + [line] == b.body;
      }
    }
  }

  lemma OpenGrows(lines: seq<string>, line: string, path: string, body: seq<string>, i: nat)
    ensures i < |lines| ==>
              (BlockAt(lines + [line], Block(path, body + [line]), i, |lines| + 1) <==>
               !Marker(line) && BlockAt(lines, Block(path, body), i, |lines|))
  {
    var all := lines + [line];
    if i < |lines| {
      assert all[|lines|] == line && forall k :: 0 <= k < |lines| ==> all[k] == lines[k];
      assert all[i + 1..|lines| + 1] == lines[i + 1..] + [line];
      assert (body + [line])[..|body|] == body;
      assert (lines[i + 1..] + [line])[..|lines| - i - 1] == lines[i + 1..];
    }
  }

  lemma MarkerByRead(number: string -> Num, line: string)
    ensures Marker(line) <==> Read(number, line).Start? || Read(number, line).End?
    ensures Read(number, line).Start? ==> line == "SF:" + Read(number, line).path
  {
    MarkersByText(number, line);
    if "SF:" <= line {
      assert line == "SF:" + line[3..];
      assert Read(number, line) == Start(line[3..]);
    }
  }

  lemma OpenNext(number: string -> Num, p: Parts, line: string, b: Block)
    ensures NextPart(number, p, line).open == Some(b) <==>
            if Marker(line) then line == "SF:" + b.path && b.body == []
            else b.body != [] && b.body[|b.body| - 1] == line
                 && p.open == Some(Block(b.path, b.body[..|b.body| - 1]))
  {
    MarkerByRead(number, line);
    MarkersByText(number, line);
    if !Marker(line) && p.open.Some? {
      var grown := p.open.value.body + [line];
      assert grown[..|grown| - 1] == p.open.value.body && grown[|grown| - 1] == line;
      if b.body != [] {
        assert b.body == b.body[..|b.body| - 1] + [b.body[|b.body| - 1]];
      }
    }
  }

  lemma ClosedNext(number: string -> Num, p: Parts, line: string, b: Block)
    ensures b in NextPart(number, p, line).closed <==> b in p.closed || (Marker(line) && p.open == Some(b))
  {
    MarkerByRead(number, line);
  }

  lemma SplitFindsNext(number: string -> Num, lines: seq<string>, line: string, b: Block, all: seq<string>)
    requires all == lines + [line]
    requires SplitFinds(number, lines, b)
    requires b.body != [] ==> SplitFinds(number, lines, Block(b.path, b.body[..|b.body| - 1]))
    ensures SplitFinds(number, all, b)
  {
    var p := Split(number, lines);
    assert all[..|lines|] == lines;
    assert Split(number, all) == NextPart(number, p, line);
    ClosedNext(number, p, line, b);
    OpenNext(number, p, line, b);
    BeforeNext(lines, line, b);
    UpToNext(lines, line, b);
  }

  /** The blocks of any lines are those from an SF line to the next marker, the last one perhaps to the end. */
  lemma {:induction false} BlocksExactly(number: string -> Num, lines: seq<string>, b: Block)
    ensures SplitFinds(number, lines, b)
  {
    if lines != [] {
      var init, line := lines[..|lines| - 1], lines[|lines| - 1];
      BlocksExactly(number, init, b);
      if b.body != [] {
        BlocksExactly(number, init, Block(b.path, b.body[..|b.body| - 1]));
      }
      SplitFindsNext(number, init, line, b, lines);
    }
  }

  /** The line shows branch data where no block is open. */
  ghost predicate StrayLine(number: string -> Num, before: seq<string>, line: string) {
    && !Marker(line) && (forall b :: !BlockUpTo(before, b))
    && ((exists v: Amount :: SaysAmount(number, line, BRF, v))
        || (exists v: Amount :: SaysAmount(number, line, BRH, v)))
  }

  ghost predicate StrayAt(number: string -> Num, lines: seq<string>, k: nat) {
    k < |lines| && StrayLine(number, lines[..k], lines[k])
  }

  lemma StrayNow(number: string -> Num, p: Parts, lines: seq<string>, line: string)
    requires p == Split(number, lines)
    ensures NextPart(number, p, line).stray <==> p.stray || StrayLine(number, lines, line)
  {
    MarkerByRead(number, line);
    ShownByText(number, false, line);
    forall b ensures p.open == Some(b) <==> BlockUpTo(lines, b) {
      BlocksExactly(number, lines, b);
    }
    if p.open.Some? {
      assert BlockUpTo(lines, p.open.value);
    }
  }

  lemma StrayNext(number: string -> Num, lines: seq<string>, line: string, k: nat)
    ensures StrayAt(number, lines + [line], k)
            <==> StrayAt(number, lines, k) || (k == |lines| && StrayLine(number, lines, line))
  {
    var all := lines + [line];
    if k < |lines| {
      assert all[..k] == lines[..k] && all[k] == lines[k];
    } else if k == |lines| {
      assert all[..k] == lines && all[k] == line;
    }
  }

  /** Branch data outside of blocks is what such a line shows. */
  lemma {:induction false} StrayExactly(number: string -> Num, lines: seq<string>)
    ensures Split(number, lines).stray <==> exists k: nat :: StrayAt(number, lines, k)
  {
    if lines != [] {
      var init, line := lines[..|lines| - 1], lines[|lines| - 1];
      assert lines == init + [line];
      StrayExactly(number, init);
      StrayNow(number, Split(number, init), init, line);
      forall k: nat
        ensures StrayAt(number, lines, k)
                <==> StrayAt(number, init, k) || (k == |init| && StrayLine(number, init, line))
      {
        StrayNext(number, init, line, k);
      }
      assert StrayLine(number, init, line) ==> StrayAt(number, lines, |init|);
      if k: nat :| StrayAt(number, init, k) {
        assert StrayAt(number, lines, k);
      }
    }
  }
}
