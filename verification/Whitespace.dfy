/** White space and trimming, as String.prototype.trim and the \s of regular expressions have it. */
module Whitespace {
  /** What String.prototype.trim removes. */
  predicate IsSpace(c: char) {
    || '\t' <= c <= '\r' || c == ' ' || c == '\U{00A0}' || c == '\U{1680}' || '\U{2000}' <= c <= '\U{200A}'
    || c == '\U{2028}' || c == '\U{2029}' || c == '\U{202F}' || c == '\U{205F}' || c == '\U{3000}' || c == '\U{FEFF}'
  }

  function TrimStart(s: string): string {
    if s != "" && IsSpace(s[0]) then TrimStart(s[1..]) else s
  }

  function TrimEnd(s: string): string {
    if s != "" && IsSpace(s[|s| - 1]) then TrimEnd(s[..|s| - 1]) else s
  }

  function Trim(s: string): string {
    TrimEnd(TrimStart(s))
  }

  predicate Tight(s: string) {
    s == "" || (!IsSpace(s[0]) && !IsSpace(s[|s| - 1]))
  }

  lemma {:induction false} TrimStartShape(s: string)
    ensures TrimStart(s) == "" || !IsSpace(TrimStart(s)[0])
  {
    if s != "" && IsSpace(s[0]) {
      TrimStartShape(s[1..]);
    }
  }

  lemma {:induction false} TrimEndShape(s: string)
    requires s == "" || !IsSpace(s[0])
    ensures Tight(TrimEnd(s))
  {
    if s != "" && IsSpace(s[|s| - 1]) {
      TrimEndShape(s[..|s| - 1]);
    }
  }

  /** Trimmed strings are those without space at either end, and trimming leaves them alone. */
  lemma TrimIsTight(s: string)
    ensures Tight(Trim(s)) && (Trim(s) == s <==> Tight(s))
  {
    TrimStartShape(s);
    TrimEndShape(TrimStart(s));
  }

  ghost predicate Blank(s: string) {
    forall i :: 0 <= i < |s| ==> IsSpace(s[i])
  }

  lemma {:induction false} TrimStartBlank(blank: string, rest: string)
    requires Blank(blank) && (rest != "" ==> !IsSpace(rest[0]))
    ensures TrimStart(blank + rest) == rest
  {
    if blank == "" {
      assert blank + rest == rest;
    } else {
      assert (blank + rest)[1..] == blank[1..] + rest;
      TrimStartBlank(blank[1..], rest);
    }
  }

  lemma {:induction false} TrimEndBlank(rest: string, blank: string)
    requires Blank(blank) && (rest != "" ==> !IsSpace(rest[|rest| - 1]))
    ensures TrimEnd(rest + blank) == rest
  {
    if blank == "" {
      assert rest + blank == rest;
    } else {
      var shorter := blank[..|blank| - 1];
      assert (rest + blank)[..|rest + blank| - 1] == rest + shorter;
      TrimEndBlank(rest, shorter);
    }
  }

  lemma BlankTrimmed(blank: string)
    requires Blank(blank)
    ensures Trim(blank) == ""
  {
    TrimStartBlank(blank, "");
    assert blank + "" == blank;
  }

  /** Trimming takes the space at either end off, and nothing else. */
  lemma TrimExactly(front: string, body: string, back: string)
    requires Blank(front) && Blank(back) && Tight(body)
    ensures Trim(front + body + back) == body
  {
    if body == "" {
      assert front + body + back == front + back;
      BlankTrimmed(front + back);
    } else {
      assert front + body + back == front + (body + back);
      TrimStartBlank(front, body + back);
      TrimEndBlank(body, back);
    }
  }

  /** Every string is such a body with space around it. */
  lemma TrimParts(s: string) returns (front: string, back: string)
    ensures s == front + Trim(s) + back && Blank(front) && Blank(back)
  {
    front := StartParts(s);
    back := EndParts(TrimStart(s));
  }

  lemma {:induction false} StartParts(s: string) returns (front: string)
    ensures s == front + TrimStart(s) && Blank(front)
  {
    if s != "" && IsSpace(s[0]) {
      var more := StartParts(s[1..]);
      front := [s[0]] + more;
      assert s == [s[0]] + s[1..];
    } else {
      front := "";
    }
  }

  lemma {:induction false} EndParts(s: string) returns (back: string)
    ensures s == TrimEnd(s) + back && Blank(back)
  {
    if s != "" && IsSpace(s[|s| - 1]) {
      var more := EndParts(s[..|s| - 1]);
      back := more + [s[|s| - 1]];
      assert s == s[..|s| - 1] + [s[|s| - 1]];
    } else {
      back := "";
    }
  }
}
