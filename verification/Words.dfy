/** Text as words with gaps between them, and what replacing every gap by one character gives. */
module Words {
  import opened Common

  ghost predicate AllOf(isWord: char -> bool, s: string) {
    forall i :: 0 <= i < |s| ==> isWord(s[i])
  }

  ghost predicate NoneOf(isWord: char -> bool, s: string) {
    forall i :: 0 <= i < |s| ==> !isWord(s[i])
  }

  /** A gap, a word, a gap, and so on, with a gap at the end. */
  ghost predicate Spaced(isWord: char -> bool, words: seq<string>, gaps: seq<string>) {
    && |gaps| == |words| + 1
    && (forall i :: 0 <= i < |words| ==> words[i] != "" && AllOf(isWord, words[i]))
    && (forall i :: 0 <= i < |gaps| ==> NoneOf(isWord, gaps[i]))
    && (forall i :: 1 <= i < |words| ==> gaps[i] != "")
  }

  /** The text that they make. */
  function Spread(words: seq<string>, gaps: seq<string>): string
    requires |gaps| == |words| + 1
  {
    if words == [] then gaps[0] else gaps[0] + words[0] + Spread(words[1..], gaps[1..])
  }

  /** The words with the character between them. */
  function JoinedBy(sep: char, words: seq<string>): string {
    if words == [] then ""
    else if |words| == 1 then words[0]
    else words[0] + [sep] + JoinedBy(sep, words[1..])
  }

  /** Replacing every gap by the character; inRun says that the previous character was replaced. */
  function ReplaceGaps(isWord: char -> bool, sep: char, s: string, inRun: bool): string {
    if s == "" then ""
    else if isWord(s[0]) then [s[0]] + ReplaceGaps(isWord, sep, s[1..], false)
    else if inRun then ReplaceGaps(isWord, sep, s[1..], true)
    else [sep] + ReplaceGaps(isWord, sep, s[1..], true)
  }

  lemma {:induction false} ReplaceInGap(isWord: char -> bool, sep: char, gap: string, rest: string, inRun: bool)
    requires NoneOf(isWord, gap)
    ensures ReplaceGaps(isWord, sep, gap + rest, inRun) ==
            (if gap == "" || inRun then "" else [sep]) + ReplaceGaps(isWord, sep, rest, inRun || gap != "")
  {
    if gap == "" {
      assert gap + rest == rest;
    } else {
      assert gap + rest == [gap[0]] + (gap[1..] + rest);
      ReplaceInGap(isWord, sep, gap[1..], rest, true);
    }
  }

  lemma {:induction false} ReplaceInWord(isWord: char -> bool, sep: char, word: string, rest: string, inRun: bool)
    requires AllOf(isWord, word) && word != ""
    ensures ReplaceGaps(isWord, sep, word + rest, inRun) == word + ReplaceGaps(isWord, sep, rest, false)
  {
    assert word + rest == [word[0]] + (word[1..] + rest);
    if |word| == 1 {
      assert word[1..] + rest == rest && word == [word[0]];
    } else {
      ReplaceInWord(isWord, sep, word[1..], rest, false);
      assert word == [word[0]] + word[1..];
    }
  }

  function Mark(sep: char, gap: string): string {
    if gap == "" then "" else [sep]
  }

  /** What comes out: the words joined by the character, with one more at either end where there is a gap. */
  lemma {:induction false} ReplacedWords(isWord: char -> bool, sep: char, words: seq<string>, gaps: seq<string>)
    requires Spaced(isWord, words, gaps)
    ensures ReplaceGaps(isWord, sep, Spread(words, gaps), false) ==
            if words == [] then Mark(sep, gaps[0])
            else Mark(sep, gaps[0]) + JoinedBy(sep, words) + Mark(sep, gaps[|words|])
  {
    if words == [] {
      ReplaceInGap(isWord, sep, gaps[0], "", false);
      assert gaps[0] + "" == gaps[0];
    } else {
      ReplaceFirst(isWord, sep, gaps[0], words[0], Spread(words[1..], gaps[1..]));
      SpacedLater(isWord, words, gaps);
      ReplacedWords(isWord, sep, words[1..], gaps[1..]);
      JoinedStep(sep, Mark(sep, gaps[0]), words, gaps);
    }
  }

  lemma ReplaceFirst(isWord: char -> bool, sep: char, gap: string, word: string, rest: string)
    requires NoneOf(isWord, gap) && AllOf(isWord, word) && word != ""
    ensures ReplaceGaps(isWord, sep, gap + word + rest, false)
            == Mark(sep, gap) + (word + ReplaceGaps(isWord, sep, rest, false))
  {
    ReplaceInGap(isWord, sep, gap, word + rest, false);
    AppendAssociates(gap, word, rest);
    ReplaceInWord(isWord, sep, word, rest, gap != "");
  }

  lemma SpacedLater(isWord: char -> bool, words: seq<string>, gaps: seq<string>)
    requires Spaced(isWord, words, gaps) && words != []
    ensures Spaced(isWord, words[1..], gaps[1..])
  {
  }

  lemma JoinedStep(sep: char, head: string, words: seq<string>, gaps: seq<string>)
    requires words != [] && |gaps| == |words| + 1 && forall i :: 1 <= i < |words| ==> gaps[i] != ""
    ensures head + JoinedBy(sep, words) + Mark(sep, gaps[|words|]) ==
            head + (words[0] + if |words| == 1 then Mark(sep, gaps[1])
                               else Mark(sep, gaps[1]) + JoinedBy(sep, words[1..]) + Mark(sep, gaps[|words|]))
  {
  }

  /** Every text is words with gaps. */
  lemma {:induction false} WordsExist(isWord: char -> bool, s: string) returns (words: seq<string>, gaps: seq<string>)
    ensures Spaced(isWord, words, gaps) && Spread(words, gaps) == s
  {
    if s == "" {
      words, gaps := [], [""];
    } else {
      var later, spaces := WordsExist(isWord, s[1..]);
      assert s == [s[0]] + s[1..];
      if !isWord(s[0]) {
        words, gaps := later, [[s[0]] + spaces[0]] + spaces[1..];
        assert gaps[1..] == spaces[1..];
      } else if later != [] && spaces[0] == "" {
        words, gaps := [[s[0]] + later[0]] + later[1..], spaces;
        assert words[1..] == later[1..];
      } else {
        words, gaps := [[s[0]]] + later, [""] + spaces;
        assert words[1..] == later && gaps[1..] == spaces;
      }
    }
  }

  lemma {:induction false} JoinedShape(isWord: char -> bool, sep: char, words: seq<string>)
    requires words != [] && forall i :: 0 <= i < |words| ==> words[i] != "" && AllOf(isWord, words[i])
    ensures var j := JoinedBy(sep, words); j != "" && isWord(j[0]) && isWord(j[|j| - 1])
    ensures var j := JoinedBy(sep, words); forall i :: 0 <= i < |j| ==> isWord(j[i]) || j[i] == sep
    ensures var j := JoinedBy(sep, words); forall i :: 0 <= i < |j| - 1 ==> isWord(j[i]) || isWord(j[i + 1])
  {
    if |words| > 1 {
      JoinedShape(isWord, sep, words[1..]);
      var w, rest := words[0], JoinedBy(sep, words[1..]);
      var j := w + [sep] + rest;
      assert JoinedBy(sep, words) == j;
      assert forall i :: 0 <= i < |w| ==> j[i] == w[i];
      assert j[|w|] == sep;
      assert forall i :: |w| < i < |j| ==> j[i] == rest[i - |w| - 1];
    }
  }
}
