/** What every server name is normalised to (src/import/transform/normalizer.ts:40-70), told by the words in it. */
module ServerNameWords {
  import opened Common
  import opened Whitespace
  import opened Tokens
  import opened ServerNames
  import Words

  predicate InWord(c: char) {
    Letter(c) || IsDigit(c) || c == '_'
  }

  predicate BetweenWords(c: char) {
    IsSpace(c) || c == '.' || c == '-'
  }

  /** The string without the characters that are neither in nor between words. */
  function Relevant(s: string): string {
    if s == "" then "" else (if InWord(s[0]) || BetweenWords(s[0]) then [s[0]] else "") + Relevant(s[1..])
  }

  function Hyphenated(s: string, inRun: bool): string {
    Words.ReplaceGaps(InWord, '-', Relevant(s), inRun)
  }

  lemma HyphenatedStep(c: char, rest: string, inRun: bool)
    ensures Hyphenated([c] + rest, inRun) ==
            if InWord(c) then [c] + Hyphenated(rest, false)
            else if !BetweenWords(c) then Hyphenated(rest, inRun)
            else (if inRun then "" else "-") + Hyphenated(rest, true)
  {
    var s := [c] + rest;
    assert s[0] == c && s[1..] == rest;
    if InWord(c) || BetweenWords(c) {
      assert Relevant(s) == [c] + Relevant(rest);
    } else {
      assert Relevant(s) == "" + Relevant(rest) == Relevant(rest);
    }
  }

  function Kept(s: string, inRun: bool): string {
    KeepKeyChars(ReplaceBlanks(s, inRun))
  }

  lemma KeptStep(c: char, rest: string, inRun: bool)
    ensures Kept([c] + rest, inRun) ==
            if InWord(c) then [c] + Kept(rest, false)
            else if c == '-' then "-" + Kept(rest, false)
            else if !BetweenWords(c) then Kept(rest, false)
            else (if inRun then "" else "-") + Kept(rest, true)
  {
    var s := [c] + rest;
    assert s[0] == c && s[1..] == rest;
    var head := if IsSpace(c) || c == '.' then (if inRun then "" else "-") else [c];
    var later := ReplaceBlanks(rest, IsSpace(c) || c == '.');
    assert ReplaceBlanks(s, inRun) == head + later;
    if head == "" {
      assert head + later == later;
    } else {
      assert (head + later)[0] == head[0] && (head + later)[1..] == later;
    }
  }

  lemma CollapsePlain(c: char, rest: string)
    requires c != '-'
    ensures CollapseHyphens([c] + rest) == [c] + CollapseHyphens(rest)
  {
    assert ([c] + rest)[1..] == rest;
    if rest == "" {
      assert [c] + rest == [c];
    }
  }

  lemma CollapseTwo(rest: string)
    ensures CollapseHyphens("-" + ("-" + rest)) == CollapseHyphens("-" + rest)
  {
    assert ("-" + ("-" + rest))[1..] == "-" + rest;
  }

  lemma CollapseThen(c: char, rest: string)
    requires c != '-'
    ensures CollapseHyphens("-" + ([c] + rest)) == "-" + ([c] + CollapseHyphens(rest))
  {
    assert ("-" + ([c] + rest))[1..] == [c] + rest;
    CollapsePlain(c, rest);
  }

  /** The string after a hyphen, and the string itself. */
  ghost predicate CollapsesTo(s: string) {
    && CollapseHyphens(Kept(s, false)) == Hyphenated(s, false)
    && (forall inRun :: CollapseHyphens("-" + Kept(s, inRun)) == "-" + Hyphenated(s, true))
  }

  lemma CollapsesStep(c: char, rest: string, s: string)
    requires CollapsesTo(rest) && s == [c] + rest
    ensures CollapsesTo(s)
  {
    CollapsesAlone(c, rest);
    forall inRun ensures CollapseHyphens("-" + Kept(s, inRun)) == "-" + Hyphenated(s, true) {
      CollapsesAfter(c, rest, inRun);
    }
  }

  lemma CollapsesAlone(c: char, rest: string)
    requires CollapsesTo(rest)
    ensures CollapseHyphens(Kept([c] + rest, false)) == Hyphenated([c] + rest, false)
  {
    KeptStep(c, rest, false);
    HyphenatedStep(c, rest, false);
    if InWord(c) {
      CollapsePlain(c, Kept(rest, false));
    }
  }

  lemma CollapsesAfter(c: char, rest: string, inRun: bool)
    requires CollapsesTo(rest)
    ensures CollapseHyphens("-" + Kept([c] + rest, inRun)) == "-" + Hyphenated([c] + rest, true)
  {
    KeptStep(c, rest, inRun);
    HyphenatedStep(c, rest, true);
    if InWord(c) {
      CollapseThen(c, Kept(rest, false));
    } else if c == '-' {
      CollapseTwo(Kept(rest, false));
    } else if BetweenWords(c) {
      CollapseTwo(Kept(rest, true));
      assert "" + Kept(rest, true) == Kept(rest, true);
      assert "" + Hyphenated(rest, true) == Hyphenated(rest, true);
    }
  }

  /** The three replacements together put one hyphen for each gap between words. */
  lemma {:induction false} CollapsedIsHyphenated(s: string)
    ensures CollapsesTo(s)
  {
    if s != "" {
      CollapsedIsHyphenated(s[1..]);
      CollapsesStep(s[0], s[1..], s);
    } else {
      assert Kept(s, false) == "" && Kept(s, true) == "" && "-" + "" == "-";
    }
  }

  lemma TrimFrontHyphen(head: string, s: string)
    requires head in {"", "-"} && s != "" && s[0] != '-'
    ensures TrimHyphensFront(head + s) == s
  {
    if head == "-" {
      assert (head + s)[1..] == s;
    } else {
      assert head + s == s;
    }
  }

  lemma TrimBackHyphen(s: string, tail: string)
    requires tail in {"", "-"} && s != "" && s[|s| - 1] != '-'
    ensures TrimHyphensBack(s + tail) == s
  {
    if tail == "-" {
      assert (s + tail)[..|s|] == s;
    } else {
      assert s + tail == s;
    }
  }

  /** A name that may begin a key. */
  function Started(words: seq<string>): string {
    var joined := Words.JoinedBy('-', words);
    if joined == "" then "server" else if IsDigit(joined[0]) then "s-" + joined else joined
  }

  /** At most 64 characters, without a hyphen at the end. */
  function Cut(s: string): string {
    if |s| <= 64 then s else if s[63] == '-' then s[..63] else s[..64]
  }

  lemma TrimmedWords(words: seq<string>, gaps: seq<string>)
    requires Words.Spaced(InWord, words, gaps)
    ensures TrimHyphensBack(TrimHyphensFront(Words.ReplaceGaps(InWord, '-', Words.Spread(words, gaps), false)))
            == Words.JoinedBy('-', words)
  {
    Words.ReplacedWords(InWord, '-', words, gaps);
    if words == [] {
      assert TrimHyphensFront("-") == "" by {
        assert "-"[1..] == "";
      }
    } else {
      TrimmedMarks(Words.Mark('-', gaps[0]), words, Words.Mark('-', gaps[|words|]));
    }
  }

  lemma TrimmedMarks(head: string, words: seq<string>, tail: string)
    requires head in {"", "-"} && tail in {"", "-"}
    requires words != [] && forall i :: 0 <= i < |words| ==> words[i] != "" && Words.AllOf(InWord, words[i])
    ensures TrimHyphensBack(TrimHyphensFront(head + Words.JoinedBy('-', words) + tail)) == Words.JoinedBy('-', words)
  {
    var joined := Words.JoinedBy('-', words);
    Words.JoinedShape(InWord, '-', words);
    AppendAssociates(head, joined, tail);
    TrimFrontHyphen(head, joined + tail);
    TrimBackHyphen(joined, tail);
  }

  lemma JoinedHasNoDouble(words: seq<string>)
    requires forall i :: 0 <= i < |words| ==> words[i] != "" && Words.AllOf(InWord, words[i])
    ensures NoDoubleHyphen(Words.JoinedBy('-', words))
    ensures words != [] ==> Words.JoinedBy('-', words) != "" && Words.JoinedBy('-', words)[0] != '-'
  {
    if words != [] {
      Words.JoinedShape(InWord, '-', words);
    }
  }

  lemma TruncateIsCut(s: string)
    requires NoDoubleHyphen(s)
    ensures Truncate(s) == Cut(s)
  {
    if |s| > 64 {
      var front := s[..64];
      if s[63] == '-' {
        var shorter := s[..63];
        assert front[..63] == shorter && s[62] != '-';
        assert TrimHyphensBack(front) == TrimHyphensBack(shorter) == shorter;
      }
    }
  }

  /**
   * What any name becomes: lower-cased, and without other characters, it is words of letters, digits and underscores,
   * with gaps of blanks, dots and hyphens. The words are joined by hyphens, preceded by "s-" if the first begins with a
   * digit; without a word the name is "server". It is cut to 64 characters, and by one more if the last is a hyphen.
   */
  lemma NameOfWords(lower: string -> string, name: string, words: seq<string>, gaps: seq<string>)
    requires Words.Spaced(InWord, words, gaps) && Relevant(lower(name)) == Words.Spread(words, gaps)
    ensures NormalizeServerName(lower, name) == Cut(Started(words))
  {
    CollapsedIsHyphenated(lower(name));
    TrimmedWords(words, gaps);
    JoinedHasNoDouble(words);
    StartedIsSafe(words);
    TruncateIsCut(Started(words));
  }

  lemma StartedIsSafe(words: seq<string>)
    requires NoDoubleHyphen(Words.JoinedBy('-', words))
    requires Words.JoinedBy('-', words) != "" ==> Words.JoinedBy('-', words)[0] != '-'
    ensures WithKeyStart(Words.JoinedBy('-', words)) == Started(words) && NoDoubleHyphen(Started(words))
  {
  }

  /** Every name has such words. */
  lemma NameHasWords(lower: string -> string, name: string) returns (words: seq<string>, gaps: seq<string>)
    ensures Words.Spaced(InWord, words, gaps) && Relevant(lower(name)) == Words.Spread(words, gaps)
  {
    words, gaps := Words.WordsExist(InWord, Relevant(lower(name)));
  }

  /** A suffixed name is the base, a hyphen and the digits of the number. */
  lemma SuffixIsSpelled(base: string, n: nat)
    ensures exists digits :: Suffixed(base, n) == base + "-" + digits && AllDigits(digits) && ParseDecimal(digits) == n
  {
    DecimalRoundTrip(n);
  }
}
