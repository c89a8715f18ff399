/** UTF-8 (section 3 of RFC 3629) and the byte-bounded preview of src/server/response-resource.ts. */
module Utf8 {
  import opened Common

  /** A Unicode scalar value: a code point that is not a surrogate. */
  type Scalar = c: nat | c < 0xD800 || 0xE000 <= c < 0x11_0000

  type Text = seq<Scalar>

  const BOM: Scalar := 0xFEFF
  const NEWLINE: Scalar := 10
  const DOT: Scalar := 46
  const ELLIPSIS: Text := [DOT, DOT, DOT]

  /** The low six bits of a code point, as a continuation byte. */
  function Low(c: nat): Byte {
    0x80 + c % 0x40
  }

  /** The inverse of shifting six bits out: `high` followed by the six bits of a continuation byte. */
  function Glue(high: nat, b: Byte): nat
    requires Continuation(b)
  {
    high * 0x40 + (b - 0x80)
  }

  lemma GlueSplits(high: nat, b: Byte)
    requires Continuation(b)
    ensures Glue(high, b) / 0x40 == high && Low(Glue(high, b)) == b
  {
  }

  lemma SplitGlues(c: nat)
    ensures Continuation(Low(c)) && Glue(c / 0x40, Low(c)) == c
  {
  }

  function EncodeScalar(c: Scalar): (b: Bytes)
    ensures 1 <= |b| <= 4
  {
    if c < 0x80 then [c]
    else if c < 0x800 then [0xC0 + c / 0x40, Low(c)]
    else if c < 0x1_0000 then [0xE0 + c / 0x40 / 0x40, Low(c / 0x40), Low(c)]
    else [0xF0 + c / 0x40 / 0x40 / 0x40, Low(c / 0x40 / 0x40), Low(c / 0x40), Low(c)]
  }

  /** The bytes of a character: itself for ASCII, otherwise a leading byte and one to three with six bits each. */
  lemma EncodedBits(c: Scalar)
    ensures var b := EncodeScalar(c);
            && |b| == (if c < 0x80 then 1 else if c < 0x800 then 2 else if c < 0x1_0000 then 3 else 4)
            && (forall i :: 1 <= i < |b| ==> 0x80 <= b[i] < 0xC0)
            && match |b|
               case 1 => b[0] == c
               case 2 => 0xC0 <= b[0] < 0xE0 && SixBits(SixBits(0, b[0] - 0xC0), b[1] - 0x80) == c
               case 3 => 0xE0 <= b[0] < 0xF0
                         && SixBits(SixBits(SixBits(0, b[0] - 0xE0), b[1] - 0x80), b[2] - 0x80) == c
               case _ => 0xF0 <= b[0] < 0xF8
                         && SixBits(SixBits(SixBits(SixBits(0, b[0] - 0xF0), b[1] - 0x80), b[2] - 0x80), b[3] - 0x80)
                            == c
  {
  }

  function SixBits(high: int, low: int): int {
    high * 64 + low
  }

  function Encode(text: Text): Bytes {
    if text == [] then [] else EncodeScalar(text[0]) + Encode(text[1..])
  }

  predicate Continuation(b: Byte) {
    0x80 <= b < 0xC0
  }

  /** The scalar value at the front of the bytes and its length; overlong forms, surrogates and strays are refused. */
  function DecodeFirst(b: Bytes): (r: Option<(Scalar, nat)>)
    ensures r.Some? ==> 1 <= r.value.1 <= |b| && r.value.1 <= 4
  {
    if |b| == 0 then None
    else
      var b0: nat := b[0];
      if b0 < 0x80 then Some((b0, 1))
      else if 0xC2 <= b0 < 0xE0 && |b| >= 2 && Continuation(b[1]) then
        var c := Glue(b0 - 0xC0, b[1]);
        if c < 0x80 || c >= 0x800 then None else Some((c, 2))
      else if 0xE0 <= b0 < 0xF0 && |b| >= 3 && Continuation(b[1]) && Continuation(b[2]) then
        var c := Glue(Glue(b0 - 0xE0, b[1]), b[2]);
        if c < 0x800 || 0xD800 <= c < 0xE000 || c >= 0x1_0000 then None else Some((c, 3))
      else if 0xF0 <= b0 < 0xF5 && |b| >= 4 && Continuation(b[1]) && Continuation(b[2]) && Continuation(b[3]) then
        var c := Glue(Glue(Glue(b0 - 0xF0, b[1]), b[2]), b[3]);
        if c < 0x1_0000 || c >= 0x11_0000 then None else Some((c, 4))
      else None
  }

  function Decode(b: Bytes): Option<Text>
    decreases |b|
  {
    if b == [] then Some([])
    else
      match DecodeFirst(b)
      case None => None
      case Some((c, n)) =>
        match Decode(b[n..])
        case None => None
        case Some(rest) => Some([c] + rest)
  }

  lemma DecodeFirstOfEncoded(c: Scalar, rest: Bytes)
    ensures DecodeFirst(EncodeScalar(c) + rest) == Some((c, |EncodeScalar(c)|))
  {
    SplitGlues(c);
    SplitGlues(c / 0x40);
    SplitGlues(c / 0x40 / 0x40);
    var e := EncodeScalar(c);
    var b := e + rest;
    assert forall i :: 0 <= i < |e| ==> b[i] == e[i];
  }

  /** A character that is cut short does not decode. */
  lemma CutCharacterIsRefused(c: Scalar, n: nat)
    requires 0 < n < |EncodeScalar(c)|
    ensures DecodeFirst(EncodeScalar(c)[..n]) == None
  {
  }

  lemma EncodeOfDecodedFirst(b: Bytes)
    requires DecodeFirst(b).Some?
    ensures EncodeScalar(DecodeFirst(b).value.0) == b[..DecodeFirst(b).value.1]
  {
    var (c, n) := DecodeFirst(b).value;
    if n == 2 {
      GlueSplits(b[0] - 0xC0, b[1]);
    } else if n == 3 {
      GlueSplits(b[0] - 0xE0, b[1]);
      GlueSplits(Glue(b[0] - 0xE0, b[1]), b[2]);
    } else if n == 4 {
      GlueSplits(b[0] - 0xF0, b[1]);
      GlueSplits(Glue(b[0] - 0xF0, b[1]), b[2]);
      GlueSplits(Glue(Glue(b[0] - 0xF0, b[1]), b[2]), b[3]);
    }
  }

  lemma DecodeUnfold(c: Scalar, tail: Bytes)
    ensures Decode(EncodeScalar(c) + tail) == match Decode(tail) case None => None case Some(more) => Some([c] + more)
  {
    DecodeFirstOfEncoded(c, tail);
    assert (EncodeScalar(c) + tail)[|EncodeScalar(c)|..] == tail;
  }

  lemma {:induction false} DecodeAfter(text: Text, rest: Bytes)
    ensures Decode(Encode(text) + rest) == match Decode(rest) case None => None case Some(more) => Some(text + more)
  {
    if text == [] {
      assert Encode(text) + rest == rest;
      if Decode(rest).Some? {
        assert text + Decode(rest).value == Decode(rest).value;
      }
    } else {
      var tail := Encode(text[1..]) + rest;
      AppendAssociates(EncodeScalar(text[0]), Encode(text[1..]), rest);
      DecodeUnfold(text[0], tail);
      DecodeAfter(text[1..], rest);
      if Decode(rest).Some? {
        AppendAssociates([text[0]], text[1..], Decode(rest).value);
        assert [text[0]] + text[1..] == text;
      }
    }
  }

  lemma DecodeStep(b: Bytes)
    requires b != [] && Decode(b).Some?
    ensures DecodeFirst(b).Some? && Decode(b[DecodeFirst(b).value.1..]).Some?
    ensures Decode(b).value == [DecodeFirst(b).value.0] + Decode(b[DecodeFirst(b).value.1..]).value
  {
  }

  lemma EncodeUnfold(c: Scalar, rest: Text)
    ensures Encode([c] + rest) == EncodeScalar(c) + Encode(rest)
  {
    assert ([c] + rest)[1..] == rest;
  }

  lemma {:induction false} EncodeOfDecoded(b: Bytes)
    requires Decode(b).Some?
    ensures Encode(Decode(b).value) == b
    decreases |b|
  {
    if b != [] {
      DecodeStep(b);
      var (c, n) := DecodeFirst(b).value;
      EncodeOfDecodedFirst(b);
      EncodeOfDecoded(b[n..]);
      EncodeUnfold(c, Decode(b[n..]).value);
    }
  }

  /** Bytes decode exactly when they are the encoding of some text, and then to that text. */
  lemma DecodeExact(b: Bytes, text: Text)
    ensures Decode(b) == Some(text) <==> b == Encode(text)
  {
    if b == Encode(text) {
      DecodeAfter(text, []);
      assert Encode(text) + [] == b && text + [] == text;
    } else if Decode(b) == Some(text) {
      EncodeOfDecoded(b);
    }
  }

  // ------------------------------------------------------------------ truncation

  function StripBom(text: Text): Text {
    if text != [] && text[0] == BOM then text[1..] else text
  }

  /** new TextDecoder("utf-8", { fatal: true }).decode */
  function FatalDecode(b: Bytes): Option<Text> {
    match Decode(b)
    case None => None
    case Some(text) => Some(StripBom(text))
  }

  /** As many whole leading characters as fit into the given number of bytes. */
  function LongestPrefix(text: Text, maxBytes: nat): (p: Text)
    ensures p <= text
    ensures |Encode(p)| <= maxBytes
  {
    if text == [] || |EncodeScalar(text[0])| > maxBytes then []
    else
      var rest := LongestPrefix(text[1..], maxBytes - |EncodeScalar(text[0])|);
      assert ([text[0]] + rest)[1..] == rest;
      [text[0]] + rest
  }

  lemma {:induction false} EncodeConcat(a: Text, b: Text)
    ensures Encode(a + b) == Encode(a) + Encode(b)
  {
    if a == [] {
      assert a + b == b;
    } else {
      assert (a + b)[1..] == a[1..] + b;
      EncodeConcat(a[1..], b);
    }
  }

  /** No longer prefix fits, and unless the whole text fits at most three bytes are wasted. */
  lemma {:induction false} LongestPrefixIsLongest(text: Text, maxBytes: nat, n: nat)
    requires n <= |text|
    ensures |Encode(text[..n])| <= maxBytes <==> n <= |LongestPrefix(text, maxBytes)|
    ensures |Encode(text)| > maxBytes ==> maxBytes - |Encode(LongestPrefix(text, maxBytes))| <= 3
  {
    if text != [] {
      var first := EncodeScalar(text[0]);
      if n > 0 {
        assert text[..n][1..] == text[1..][..n - 1];
      }
      if |first| <= maxBytes {
        LongestPrefixIsLongest(text[1..], maxBytes - |first|, if n > 0 then n - 1 else 0);
        assert LongestPrefix(text, maxBytes)[1..] == LongestPrefix(text[1..], maxBytes - |first|);
      }
    }
  }

  /** The part of the encoding between the longest prefix and the cut is the front of one character. */
  lemma CutInsideCharacter(text: Text, end: nat, c: Scalar, rest: Text)
    requires end <= |Encode(text)|
    requires text == LongestPrefix(text, end) + [c] + rest
    ensures var n := end - |Encode(LongestPrefix(text, end))|;
            n < |EncodeScalar(c)| && Encode(text)[..end] == Encode(LongestPrefix(text, end)) + EncodeScalar(c)[..n]
  {
    var p := LongestPrefix(text, end);
    LongestPrefixIsLongest(text, end, |p| + 1);
    assert text[..|p| + 1] == p + [c];
    assert [c][1..] == [];
    EncodeConcat(p, [c]);
    EncodeConcat(p + [c], rest);
  }

  /** Cutting the encoding after `end` bytes gives text exactly when a character ends there. */
  lemma CutDecodes(text: Text, end: nat)
    requires end <= |Encode(text)|
    ensures var p := LongestPrefix(text, end);
            Decode(Encode(text)[..end]) == if |Encode(p)| == end then Some(p) else None
  {
    var p := LongestPrefix(text, end);
    if |p| == |text| {
      assert p == text;
      DecodeExact(Encode(text), text);
      assert Encode(text)[..end] == Encode(text);
    } else {
      var c, rest := text[|p|], text[|p| + 1..];
      assert text == p + [c] + rest;
      CutInsideCharacter(text, end, c, rest);
      var n := end - |Encode(p)|;
      DecodeAfter(p, EncodeScalar(c)[..n]);
      if n == 0 {
        assert EncodeScalar(c)[..n] == [] && p + [] == p;
      } else {
        CutCharacterIsRefused(c, n);
      }
    }
  }

  /** A prefix that ends on the cut is also the longest prefix for every larger cut inside the next character. */
  lemma LongestPrefixStays(text: Text, small: nat, large: nat)
    requires |Encode(LongestPrefix(text, large))| <= small <= large
    ensures LongestPrefix(text, small) == LongestPrefix(text, large)
  {
    var p := LongestPrefix(text, large);
    assert text[..|p|] == p;
    LongestPrefixIsLongest(text, small, |p|);
    if |LongestPrefix(text, small)| > |p| {
      LongestPrefixIsLongest(text, small, |p| + 1);
      LongestPrefixIsLongest(text, large, |p| + 1);
    }
    assert LongestPrefix(text, small) == text[..|LongestPrefix(text, small)|];
  }

  /** What truncation yields for any text, a leading byte order mark included. */
  function Truncated(text: Text, maxBytes: nat): Text {
    if |Encode(text)| <= maxBytes then text else StripBom(LongestPrefix(text, maxBytes))
  }

  method TruncateUtf8(text: Text, maxBytes: nat) returns (r: Text, ghost trims: nat)
    ensures r == Truncated(text, maxBytes)
    ensures trims <= 3
  {
    var bytes := Encode(text);
    trims := 0;
    if |bytes| <= maxBytes {
      return text, trims;
    }
    LongestPrefixIsLongest(text, maxBytes, 0);
    var end := maxBytes;
    while end > 0
      invariant 0 <= end <= maxBytes && trims == maxBytes - end
      invariant LongestPrefix(text, end) == LongestPrefix(text, maxBytes)
    {
      CutDecodes(text, end);
      match FatalDecode(bytes[..end])
      case Some(decoded) => return decoded, trims;
      case None =>
        LongestPrefixStays(text, end - 1, end);
        end := end - 1;
        trims := trims + 1;
    }
    assert LongestPrefix(text, 0) == [];
    r := [];
  }

  /** Without a leading byte order mark the result is the longest prefix that fits, found within three trims. */
  lemma TruncationKeepsTheMost(text: Text, maxBytes: nat, n: nat)
    requires text == [] || text[0] != BOM
    requires n <= |text|
    ensures var r := Truncated(text, maxBytes);
            && r <= text && |Encode(r)| <= maxBytes
            && (n > |r| ==> |Encode(text[..n])| > maxBytes)
            && (r != text ==> maxBytes - 3 <= |Encode(r)|)
  {
    var p := LongestPrefix(text, maxBytes);
    if |Encode(text)| > maxBytes {
      LongestPrefixIsLongest(text, maxBytes, n);
      assert p == [] || p[0] == text[0];
    }
  }

  /** Truncation is the longest prefix that fits, except that a leading byte order mark does not survive it. */
  lemma TruncationExact(text: Text, maxBytes: nat)
    ensures Truncated(text, maxBytes) == LongestPrefix(text, maxBytes) <==>
            (|Encode(text)| <= maxBytes || text[0] != BOM || maxBytes < 3)
  {
    var p := LongestPrefix(text, maxBytes);
    LongestPrefixIsLongest(text, maxBytes, |text|);
    if |Encode(text)| <= maxBytes {
      assert text[..|text|] == text && p == text;
    } else {
      assert |EncodeScalar(BOM)| == 3;
      assert p != [] ==> p[0] == text[0];
    }
  }

  /** A text of a byte order mark and one more character, cut to the three bytes of the mark, comes out empty. */
  lemma MarkIsDropped()
    ensures LongestPrefix([BOM, 0x61], 3) == [BOM] && Truncated([BOM, 0x61], 3) == []
  {
    assert [BOM, 0x61][1..] == [0x61] && [0x61][1..] == [];
    assert Encode([0x61]) == EncodeScalar(0x61) + Encode([]);
    assert Encode([BOM, 0x61]) == EncodeScalar(BOM) + Encode([0x61]);
    assert [BOM][1..] == [];
  }

  // ------------------------------------------------------------------ previews

  const MAX_PREVIEW_BYTES := 2048

  function Split(text: Text): (lines: seq<Text>)
    ensures |lines| >= 1
    decreases |text|
  {
    if text == [] then [[]]
    else
      var rest := Split(text[1..]);
      if text[0] == NEWLINE then [[]] + rest else [[text[0]] + rest[0]] + rest[1..]
  }

  function Join(lines: seq<Text>): Text {
    if |lines| == 0 then []
    else if |lines| == 1 then lines[0]
    else lines[0] + [NEWLINE] + Join(lines[1..])
  }

  lemma {:induction false} JoinOfSplit(text: Text)
    ensures Join(Split(text)) == text
    decreases |text|
  {
    if text != [] {
      var rest := Split(text[1..]);
      JoinOfSplit(text[1..]);
      if text[0] == NEWLINE {
        assert ([[]] + rest)[1..] == rest;
      } else {
        assert ([[text[0]] + rest[0]] + rest[1..])[1..] == rest[1..];
      }
    }
  }

  method BuildPreview(fullText: Text, maxInlineLines: nat) returns (preview: Text)
    ensures preview == Preview(fullText, maxInlineLines)
  {
    var lines := Split(fullText);
    if |lines| <= maxInlineLines {
      preview := fullText;
    } else {
      preview := Join(lines[..maxInlineLines]) + [NEWLINE] + ELLIPSIS;
    }
    if |Encode(preview)| > MAX_PREVIEW_BYTES {
      var truncated, _ := TruncateUtf8(preview, MAX_PREVIEW_BYTES);
      preview := truncated + ELLIPSIS;
    }
  }

  function Preview(fullText: Text, maxInlineLines: nat): Text {
    var lines := Split(fullText);
    var head := if |lines| <= maxInlineLines then fullText else Join(lines[..maxInlineLines]) + [NEWLINE] + ELLIPSIS;
    if |Encode(head)| > MAX_PREVIEW_BYTES then Truncated(head, MAX_PREVIEW_BYTES) + ELLIPSIS else head
  }

  lemma StripBomShortens(text: Text)
    ensures |Encode(StripBom(text))| <= |Encode(text)|
  {
  }

  lemma EllipsisLength()
    ensures |Encode(ELLIPSIS)| == 3
  {
    assert ELLIPSIS == [DOT] + [DOT] + [DOT];
    assert [DOT][1..] == [];
    EncodeConcat([DOT] + [DOT], [DOT]);
    EncodeConcat([DOT], [DOT]);
  }

  /** No preview is longer than 2051 bytes, and a short text is its own preview. */
  lemma PreviewBounded(fullText: Text, maxInlineLines: nat)
    ensures |Encode(Preview(fullText, maxInlineLines))| <= 2051
    ensures |Split(fullText)| <= maxInlineLines && |Encode(fullText)| <= 2048 ==>
              Preview(fullText, maxInlineLines) == fullText
  {
    var lines := Split(fullText);
    var head := if |lines| <= maxInlineLines then fullText else Join(lines[..maxInlineLines]) + [NEWLINE] + ELLIPSIS;
    if |Encode(head)| > MAX_PREVIEW_BYTES {
      StripBomShortens(LongestPrefix(head, MAX_PREVIEW_BYTES));
      EncodeConcat(Truncated(head, MAX_PREVIEW_BYTES), ELLIPSIS);
      EllipsisLength();
    }
  }

  /** The first n lines joined again are the front of the text, and a line break follows them if lines remain. */
  lemma {:induction false} LinesArePrefix(text: Text, n: nat)
    requires 1 <= n <= |Split(text)|
    ensures Join(Split(text)[..n]) <= text
    ensures n < |Split(text)| ==> Join(Split(text)[..n]) + [NEWLINE] <= text
    decreases |text|
  {
    if text != [] {
      var lines, rest := Split(text), Split(text[1..]);
      if text[0] == NEWLINE {
        if n > 1 {
          LinesArePrefix(text[1..], n - 1);
          JoinHead([], rest[..n - 1]);
          assert lines[..n] == [[]] + rest[..n - 1];
        }
      } else {
        LinesArePrefix(text[1..], n);
        JoinGrows(text[0], rest[..n]);
        assert lines[..n] == [[text[0]] + rest[0]] + rest[..n][1..];
      }
    }
  }

  function Newlines(text: Text): nat {
    if text == [] then 0 else (if text[0] == 10 then 1 else 0) + Newlines(text[1..])
  }

  lemma {:induction false} SplitCounts(text: Text)
    ensures |Split(text)| == Newlines(text) + 1
    decreases |text|
  {
    if text != [] {
      SplitCounts(text[1..]);
    }
  }

  lemma {:induction false} NewlinesConcat(a: Text, b: Text)
    ensures Newlines(a + b) == Newlines(a) + Newlines(b)
  {
    if a == [] {
      assert a + b == b;
    } else {
      assert (a + b)[1..] == a[1..] + b;
      NewlinesConcat(a[1..], b);
    }
  }

  lemma {:induction false} LinesHaveNoNewline(text: Text, i: nat)
    requires i < |Split(text)|
    ensures Newlines(Split(text)[i]) == 0
    decreases |text|
  {
    if text != [] {
      var rest := Split(text[1..]);
      if text[0] == NEWLINE {
        if i > 0 {
          LinesHaveNoNewline(text[1..], i - 1);
        }
      } else if i == 0 {
        LinesHaveNoNewline(text[1..], 0);
        assert ([text[0]] + rest[0])[1..] == rest[0];
      } else {
        LinesHaveNoNewline(text[1..], i);
      }
    }
  }

  lemma {:induction false} JoinCounts(lines: seq<Text>)
    requires lines != [] && forall i :: 0 <= i < |lines| ==> Newlines(lines[i]) == 0
    ensures Newlines(Join(lines)) == |lines| - 1
  {
    if |lines| > 1 {
      JoinCounts(lines[1..]);
      NewlinesConcat(lines[0] + [NEWLINE], Join(lines[1..]));
      NewlinesConcat(lines[0], [NEWLINE]);
      assert [NEWLINE][1..] == [];
    }
  }

  /** The front of a text that has the given number of lines, if the text has more. */
  ghost predicate FirstLines(text: Text, lines: nat, front: Text) {
    if lines == 0 then front == []
    else front + [10] <= text && Newlines(front) == lines - 1
  }

  lemma JoinedAreFirst(text: Text, n: nat)
    requires n < |Split(text)|
    ensures FirstLines(text, n, Join(Split(text)[..n]))
  {
    if n > 0 {
      LinesArePrefix(text, n);
      forall i | 0 <= i < n ensures Newlines(Split(text)[..n][i]) == 0 {
        LinesHaveNoNewline(text, i);
      }
      JoinCounts(Split(text)[..n]);
    }
  }

  /**
   * What a preview shows: the whole text if it has few enough lines, and otherwise its first lines, a line break and
   * three dots; if that takes more than 2048 bytes, the characters of it that fit, and three dots.
   */
  lemma PreviewExactly(fullText: Text, maxInlineLines: nat) returns (head: Text)
    ensures if Newlines(fullText) < maxInlineLines then head == fullText
            else exists front :: FirstLines(fullText, maxInlineLines, front) && head == front + [10, 46, 46, 46]
    ensures Preview(fullText, maxInlineLines) ==
            if |Encode(head)| <= 2048 then head else Truncated(head, 2048) + [46, 46, 46]
  {
    var lines := Split(fullText);
    SplitCounts(fullText);
    head := if |lines| <= maxInlineLines then fullText else Join(lines[..maxInlineLines]) + [NEWLINE] + ELLIPSIS;
    if |lines| > maxInlineLines {
      JoinedAreFirst(fullText, maxInlineLines);
      assert head == Join(lines[..maxInlineLines]) + [10, 46, 46, 46];
    }
  }

  lemma JoinHead(line: Text, more: seq<Text>)
    requires more != []
    ensures Join([line] + more) == line + [NEWLINE] + Join(more)
  {
    assert ([line] + more)[1..] == more;
  }

  lemma JoinGrows(c: Scalar, lines: seq<Text>)
    requires lines != []
    ensures Join([[c] + lines[0]] + lines[1..]) == [c] + Join(lines)
  {
    var more := lines[1..];
    if more != [] {
      assert lines == [lines[0]] + more;
      JoinHead([c] + lines[0], more);
      JoinHead(lines[0], more);
    }
  }
}
