/** References to environment variables (src/import/transform/mapper.ts:189-200): both forms become $NAME. */
module EnvReferences {
  import opened Common

  /** ${NAME} and process.env.NAME */
  datatype Form = Braced | ProcessEnv

  function Opening(form: Form): string {
    if form.Braced? then "${" else "process.env."
  }

  function Closing(form: Form): string {
    if form.Braced? then "}" else ""
  }

  predicate NameStart(c: char) { 'a' <= c <= 'z' || 'A' <= c <= 'Z' || c == '_' }

  predicate NameChar(c: char) { NameStart(c) || '0' <= c <= '9' }

  /** The longest run of name characters at the beginning. */
  function NameRun(s: string): (k: nat)
    ensures k <= |s| && (forall i :: 0 <= i < k ==> NameChar(s[i])) && (k < |s| ==> !NameChar(s[k]))
  {
    if s == "" || !NameChar(s[0]) then 0 else 1 + NameRun(s[1..])
  }

  /** The name in the reference that the string begins with, if it begins with one; the empty string if not. */
  function RefName(form: Form, s: string): string {
    if !(Opening(form) <= s) then ""
    else
      var rest := s[|Opening(form)|..];
      var k := NameRun(rest);
      if k > 0 && NameStart(rest[0]) && Closing(form) <= rest[k..] then rest[..k] else ""
  }

  predicate IsRef(form: Form, s: string) {
    RefName(form, s) != ""
  }

  function RefLength(form: Form, s: string): nat {
    |Opening(form)| + |RefName(form, s)| + |Closing(form)|
  }

  ghost predicate IsName(name: string) {
    name != "" && NameStart(name[0]) && forall i :: 0 <= i < |name| ==> NameChar(name[i])
  }

  lemma RefIsName(form: Form, s: string)
    requires IsRef(form, s)
    ensures IsName(RefName(form, s)) && RefLength(form, s) <= |s|
  {
  }

  /** A braced reference is "$", and "{", the name and "}" after it. */
  lemma BracedParts(s: string)
    requires IsRef(Braced, s)
    ensures s[0] == '$' && "{" + RefName(Braced, s) + "}" <= s[1..]
  {
    var rest := s[2..];
    var k := NameRun(rest);
    assert s[..2] == "${";
    assert s[1..] == "{" + (rest[..k] + rest[k..]);
    assert rest[k..] == "}" + rest[k + 1..];
  }

  /** replace(/.../g, "$$$1") for one of the forms. */
  function Expand(form: Form, s: string): string
    decreases |s|
  {
    if s == "" then ""
    else if IsRef(form, s) then
      RefIsName(form, s);
      "$" + RefName(form, s) + Expand(form, s[RefLength(form, s)..])
    else [s[0]] + Expand(form, s[1..])
  }

  function NormalizeEnvValue(value: string): string {
    Expand(ProcessEnv, Expand(Braced, value))
  }

  // ------------------------------------------------------------------ when nothing is left to expand

  predicate NoRefs(form: Form, s: string) {
    s == "" || (!IsRef(form, s) && NoRefs(form, s[1..]))
  }

  lemma {:induction false} ExpandShrinks(form: Form, s: string)
    ensures if NoRefs(form, s) then Expand(form, s) == s else |Expand(form, s)| < |s|
    decreases |s|
  {
    if s != "" {
      if IsRef(form, s) {
        RefIsName(form, s);
        ExpandShrinks(form, s[RefLength(form, s)..]);
      } else {
        ExpandShrinks(form, s[1..]);
        assert s == [s[0]] + s[1..];
        assert Expand(form, s)[1..] == Expand(form, s[1..]);
      }
    }
  }

  /** Text without "$" that the output begins with was there in the input: every replacement begins with "$". */
  lemma {:induction false} OutputMirrors(form: Form, s: string, w: string)
    requires w <= Expand(form, s) && forall i :: 0 <= i < |w| ==> w[i] != '$'
    ensures w <= s
    decreases |w|
  {
    if w != "" {
      assert w[0] == Expand(form, s)[0];
      assert Expand(form, s)[1..] == Expand(form, s[1..]);
      assert w[1..] <= Expand(form, s)[1..];
      OutputMirrors(form, s[1..], w[1..]);
      assert w == [w[0]] + w[1..] && s == [s[0]] + s[1..];
    }
  }

  /** What makes a string begin with a braced reference, read off the front of it. */
  lemma BracedFromPrefix(s: string, name: string)
    requires IsName(name)
    requires "{" + name + "}" <= s
    ensures IsRef(Braced, "$" + s)
  {
    var t := "$" + s;
    assert t[..2] == "${";
    var rest := t[2..];
    assert rest == s[1..];
    assert name + "}" <= rest;
    assert rest[|name|] == '}';
    assert NameRun(rest) == |name|;
  }

  /** A character kept from the input starts a braced reference of the output only if it started one of the input. */
  lemma KeptRefWasThere(form: Form, s: string)
    requires s != "" && IsRef(Braced, [s[0]] + Expand(form, s[1..]))
    ensures IsRef(Braced, s)
  {
    var out := [s[0]] + Expand(form, s[1..]);
    var name := RefName(Braced, out);
    RefIsName(Braced, out);
    BracedParts(out);
    assert out[1..] == Expand(form, s[1..]);
    OutputMirrors(form, s[1..], "{" + name + "}");
    BracedFromPrefix(s[1..], name);
    assert s == "$" + s[1..];
  }

  /** No braced reference begins inside "$" and a name. */
  lemma {:induction false} NamesStartNoRef(name: string, rest: string)
    requires (forall i :: 0 <= i < |name| ==> NameChar(name[i])) && NoRefs(Braced, rest)
    ensures NoRefs(Braced, name + rest)
  {
    if name == "" {
      assert name + rest == rest;
    } else {
      var c, u := name[0], name[1..];
      assert name == [c] + u;
      NamesStartNoRef(u, rest);
      OneMoreNoRef(c, u + rest);
      AppendAssociates([c], u, rest);
    }
  }

  lemma OneMoreNoRef(c: char, rest: string)
    requires NameChar(c) && NoRefs(Braced, rest)
    ensures NoRefs(Braced, [c] + rest)
  {
    var s := [c] + rest;
    assert s[0] == c && s[1..] == rest;
  }

  lemma ReferenceLeavesNoBraced(name: string, rest: string)
    requires IsName(name) && NoRefs(Braced, rest)
    ensures NoRefs(Braced, "$" + name + rest)
  {
    NamesStartNoRef(name, rest);
    var out := "$" + name + rest;
    assert out[1..] == name + rest && out[1] == name[0];
  }

  /** Expanding either form leaves no braced reference, if there was none or if the braced form is expanded. */
  lemma {:induction false} NoBracedLeft(form: Form, s: string)
    requires form.Braced? || NoRefs(Braced, s)
    ensures NoRefs(Braced, Expand(form, s))
    decreases |s|
  {
    if s == "" {
    } else if IsRef(form, s) {
      RefIsName(form, s);
      var rest := s[RefLength(form, s)..];
      NoRefsLater(s, RefLength(form, s));
      NoBracedLeft(form, rest);
      ReferenceLeavesNoBraced(RefName(form, s), Expand(form, rest));
    } else {
      NoBracedLeft(form, s[1..]);
      KeptLeavesNoBraced(form, s);
    }
  }

  lemma KeptLeavesNoBraced(form: Form, s: string)
    requires s != "" && !IsRef(Braced, s) && NoRefs(Braced, Expand(form, s[1..]))
    ensures NoRefs(Braced, [s[0]] + Expand(form, s[1..]))
  {
    var out := [s[0]] + Expand(form, s[1..]);
    if IsRef(Braced, out) {
      KeptRefWasThere(form, s);
    }
    assert out[1..] == Expand(form, s[1..]);
  }

  lemma {:induction false} NoRefsLater(s: string, k: nat)
    requires k <= |s|
    ensures NoRefs(Braced, s) ==> NoRefs(Braced, s[k..])
  {
    if k > 0 {
      NoRefsLater(s[1..], k - 1);
      assert s[1..][k - 1..] == s[k..];
    } else {
      assert s[0..] == s;
    }
  }

  /** A normalised value has no ${NAME} left. */
  lemma NormalizedHasNoBraced(value: string)
    ensures NoRefs(Braced, NormalizeEnvValue(value))
  {
    NoBracedLeft(Braced, value);
    NoBracedLeft(ProcessEnv, Expand(Braced, value));
  }

  /** A value is left alone exactly when it has no reference of either form. */
  lemma UnchangedExactly(value: string)
    ensures NormalizeEnvValue(value) == value <==> NoRefs(Braced, value) && NoRefs(ProcessEnv, value)
  {
    var first := Expand(Braced, value);
    ExpandShrinks(Braced, value);
    ExpandShrinks(ProcessEnv, first);
  }

  // ------------------------------------------------------------------ when a second pass changes nothing

  const PROCESS := "process"

  const ENV := ".env."

  /** What turns a preceding "process" into a reference. */
  predicate Continues(s: string) {
    ENV <= s && |s| > |ENV| && NameStart(s[|ENV|])
  }

  predicate EndsWith(s: string, tail: string) {
    |tail| <= |s| && s[|s| - |tail|..] == tail
  }

  /**
   * The name of some process.env reference ends in "process" and is followed by ".env." and the start of a name, and no
   * reference begins at that name: replacing the reference makes a new one out of its end.
   */
  predicate Nested(s: string)
    decreases |s|
  {
    if s == "" then false
    else if IsRef(ProcessEnv, s) then
      RefIsName(ProcessEnv, s);
      var rest := s[RefLength(ProcessEnv, s)..];
      || (EndsWith(RefName(ProcessEnv, s), PROCESS) && Continues(rest) && !IsRef(ProcessEnv, rest[|ENV|..]))
      || Nested(rest)
    else Nested(s[1..])
  }

  lemma ProcessRefExactly(s: string)
    ensures IsRef(ProcessEnv, s) <==> PROCESS <= s && Continues(s[|PROCESS|..])
  {
    var opening := Opening(ProcessEnv);
    assert opening == PROCESS + ENV;
    if opening <= s {
      assert s[|PROCESS|..][..|ENV|] == ENV;
      assert s[|opening|..] == s[|PROCESS|..][|ENV|..];
    }
    if PROCESS <= s && Continues(s[|PROCESS|..]) {
      var t := s[|PROCESS|..];
      assert t == ENV + t[|ENV|..];
      assert s == PROCESS + t;
    }
  }

  /** Whether the output of a scan continues "process" to a reference depends on the input alone. */
  lemma ContinuesInInput(s: string)
    ensures Continues(Expand(ProcessEnv, s)) <==> Continues(s) && !IsRef(ProcessEnv, s[|ENV|..])
  {
    var out := Expand(ProcessEnv, s);
    if Continues(out) {
      var w := ENV + [out[|ENV|]];
      assert w == out[..|ENV| + 1];
      OutputMirrors(ProcessEnv, s, w);
      assert s[|ENV|] == w[|ENV|];
    }
    if Continues(s) {
      PlainKept(ProcessEnv, ENV, s[|ENV|..]);
      assert s == ENV + s[|ENV|..];
    }
  }

  lemma RefAfterLetter(c: char, out: string)
    requires IsRef(ProcessEnv, [c] + out)
    ensures c == PROCESS[0] && |out| >= |PROCESS| + |ENV|
    ensures out[..|PROCESS| + |ENV| - 1] == PROCESS[1..] + ENV && NameStart(out[|PROCESS| + |ENV| - 1])
  {
    var whole := [c] + out;
    ProcessRefExactly(whole);
    var t := whole[|PROCESS|..];
    assert whole[1..] == out;
    assert out[..|PROCESS| - 1] == PROCESS[1..];
    assert out[|PROCESS| - 1..] == t && t[..|ENV|] == ENV;
    assert out[..|PROCESS| + |ENV| - 1] == out[..|PROCESS| - 1] + t[..|ENV|];
  }

  /** The first letter of a reference, followed by output that the rest of it was copied to. */
  lemma CopiedReference(c: char, rest: string, out: string)
    requires out == Expand(ProcessEnv, rest) && IsRef(ProcessEnv, [c] + out)
    ensures IsRef(ProcessEnv, [c] + rest)
  {
    RefAfterLetter(c, out);
    var n := |PROCESS| + |ENV|;
    var w := out[..n];
    assert w[..n - 1] == PROCESS[1..] + ENV;
    NoDollarInside(w);
    OutputMirrors(ProcessEnv, rest, w);
    assert ([c] + rest)[1..] == rest;
    PrefixIsRef([c] + rest, w);
  }

  lemma NoDollarInside(w: string)
    requires |w| == |PROCESS| + |ENV| && w[..|w| - 1] == PROCESS[1..] + ENV && NameStart(w[|w| - 1])
    ensures forall i :: 0 <= i < |w| ==> w[i] != '$'
  {
    var u := PROCESS[1..] + ENV;
    assert forall i :: 0 <= i < |w| - 1 ==> w[i] == w[..|w| - 1][i] == u[i];
  }

  lemma PrefixIsRef(s: string, w: string)
    requires |w| == |PROCESS| + |ENV| && s != "" && s[0] == PROCESS[0] && w <= s[1..]
    requires w[..|w| - 1] == PROCESS[1..] + ENV && NameStart(w[|w| - 1])
    ensures IsRef(ProcessEnv, s)
  {
    var t := s[|PROCESS|..];
    assert s[1..][..|w|] == w;
    assert s[..|PROCESS|] == PROCESS by {
      assert forall i :: 1 <= i < |PROCESS| ==> s[i] == w[i - 1] == w[..|w| - 1][i - 1];
    }
    assert t[..|ENV|] == ENV by {
      assert forall i :: 0 <= i < |ENV| ==> t[i] == w[|PROCESS| - 1 + i] == w[..|w| - 1][|PROCESS| - 1 + i];
    }
    assert t[|ENV|] == w[|w| - 1];
    ProcessRefExactly(s);
  }

  /** A kept character starts a reference of the output only if it started one of the input. */
  lemma KeptProcess(s: string)
    requires s != "" && IsRef(ProcessEnv, [s[0]] + Expand(ProcessEnv, s[1..]))
    ensures IsRef(ProcessEnv, s)
  {
    CopiedReference(s[0], s[1..], Expand(ProcessEnv, s[1..]));
    assert s == [s[0]] + s[1..];
  }

  /** A reference that begins inside a name is its last letters, "process", and what continues them. */
  lemma RefInsideName(name: string, out: string)
    requires name != "" && (forall i :: 0 <= i < |name| ==> NameChar(name[i])) && (out != "" ==> !NameChar(out[0]))
    ensures IsRef(ProcessEnv, name + out) <==> name == PROCESS && Continues(out)
  {
    ProcessRefExactly(name + out);
    NameIsProcess(name, out);
    if name == PROCESS {
      assert (name + out)[|PROCESS|..] == out;
    }
  }

  lemma NameIsProcess(name: string, out: string)
    requires (forall i :: 0 <= i < |name| ==> NameChar(name[i])) && (out != "" ==> !NameChar(out[0]))
    ensures PROCESS <= name + out && Continues((name + out)[|PROCESS|..]) ==> name == PROCESS
  {
    var s := name + out;
    if PROCESS <= s && Continues(s[|PROCESS|..]) {
      assert s[|PROCESS|] == s[|PROCESS|..][0] == ENV[0];
      assert forall i :: 0 <= i < |PROCESS| ==> s[i] == PROCESS[i] && NameChar(s[i]);
      assert forall i :: 0 <= i < |name| ==> s[i] == name[i];
      assert |name| < |s| ==> s[|name|] == out[0];
      assert |name| == |PROCESS|;
      assert name == s[..|PROCESS|];
    }
  }

  lemma {:induction false} RefsAfterName(name: string, out: string)
    requires (forall i :: 0 <= i < |name| ==> NameChar(name[i])) && (out != "" ==> !NameChar(out[0]))
    ensures NoRefs(ProcessEnv, name + out) <==> NoRefs(ProcessEnv, out) && !(EndsWith(name, PROCESS) && Continues(out))
  {
    if name == "" {
      assert name + out == out;
    } else {
      RefsAfterName(name[1..], out);
      RefInsideName(name, out);
      NoRefsUnfold(name[0], name[1..], out);
      assert name == [name[0]] + name[1..];
      EndsWithTail(name, PROCESS);
    }
  }

  lemma NoRefsUnfold(c: char, u: string, out: string)
    ensures NoRefs(ProcessEnv, [c] + u + out) <==> !IsRef(ProcessEnv, [c] + u + out) && NoRefs(ProcessEnv, u + out)
  {
    assert ([c] + u + out)[1..] == u + out;
  }

  lemma EndsWithTail(s: string, tail: string)
    requires s != "" && tail != ""
    ensures EndsWith(s, tail) <==> s == tail || EndsWith(s[1..], tail)
  {
    if |tail| < |s| {
      assert s[1..][|s| - 1 - |tail|..] == s[|s| - |tail|..];
    }
  }

  /** What follows a reference is not a name character, and neither is what it becomes. */
  lemma AfterReference(s: string)
    requires IsRef(ProcessEnv, s)
    ensures RefLength(ProcessEnv, s) <= |s|
    ensures var out := Expand(ProcessEnv, s[RefLength(ProcessEnv, s)..]); out != "" ==> !NameChar(out[0])
  {
    RefIsName(ProcessEnv, s);
    var tail := s[|Opening(ProcessEnv)|..];
    var k := NameRun(tail);
    assert s[RefLength(ProcessEnv, s)..] == tail[k..];
  }

  /** The scan leaves a reference behind exactly when the input has a nested one. */
  lemma {:induction false} LeftExactly(s: string)
    ensures NoRefs(ProcessEnv, Expand(ProcessEnv, s)) <==> !Nested(s)
    decreases |s|
  {
    if s == "" {
    } else if IsRef(ProcessEnv, s) {
      RefIsName(ProcessEnv, s);
      var name, rest := RefName(ProcessEnv, s), s[RefLength(ProcessEnv, s)..];
      var out := Expand(ProcessEnv, rest);
      LeftExactly(rest);
      AfterReference(s);
      RefsAfterName(name, out);
      ContinuesInInput(rest);
      AfterDollar(name + out);
      AppendAssociates("$", name, out);
    } else {
      LeftExactly(s[1..]);
      if IsRef(ProcessEnv, [s[0]] + Expand(ProcessEnv, s[1..])) {
        KeptProcess(s);
      }
      assert Expand(ProcessEnv, s)[1..] == Expand(ProcessEnv, s[1..]);
    }
  }

  lemma AfterDollar(s: string)
    ensures NoRefs(ProcessEnv, "$" + s) <==> NoRefs(ProcessEnv, s)
  {
    assert ("$" + s)[1..] == s && ("$" + s)[0] == '$';
  }

  /** A value whose references nest, once the braced ones are replaced. */
  predicate NestedValue(value: string) {
    Nested(Expand(Braced, value))
  }

  /** Normalising twice is normalising once exactly when the references of the value do not nest. */
  lemma StableExactly(value: string)
    ensures NormalizeEnvValue(NormalizeEnvValue(value)) == NormalizeEnvValue(value) <==> !NestedValue(value)
  {
    NormalizedHasNoBraced(value);
    UnchangedExactly(NormalizeEnvValue(value));
    LeftExactly(Expand(Braced, value));
  }

  // ------------------------------------------------------------------ a value for which the second pass matters

  lemma ProcessRef(name: string, rest: string)
    requires IsName(name) && (rest != "" ==> !NameChar(rest[0]))
    ensures Expand(ProcessEnv, Opening(ProcessEnv) + name + rest) == "$" + name + Expand(ProcessEnv, rest)
  {
    var s := Opening(ProcessEnv) + name + rest;
    var tail := name + rest;
    assert s[..|Opening(ProcessEnv)|] == Opening(ProcessEnv) && s[|Opening(ProcessEnv)|..] == tail;
    assert NameRun(tail) == |name| by {
      assert forall i :: 0 <= i < |name| ==> tail[i] == name[i];
      if rest != "" {
        assert tail[|name|] == rest[0];
      }
    }
    assert tail[..|name|] == name && s[RefLength(ProcessEnv, s)..] == rest;
  }

  lemma PlainOne(form: Form, c: char, rest: string)
    requires c != Opening(form)[0]
    ensures Expand(form, [c] + rest) == [c] + Expand(form, rest)
  {
    var s := [c] + rest;
    assert s[0] == c && s[1..] == rest;
  }

  /** Characters that cannot begin a reference are kept. */
  lemma {:induction false} PlainKept(form: Form, w: string, rest: string)
    requires forall i :: 0 <= i < |w| ==> w[i] != Opening(form)[0]
    ensures Expand(form, w + rest) == w + Expand(form, rest)
  {
    if w == "" {
      assert w + rest == rest;
    } else {
      var c, u := w[0], w[1..];
      assert w == [c] + u;
      PlainKept(form, u, rest);
      PlainOne(form, c, u + rest);
      AppendAssociates([c], u, rest);
      AppendAssociates([c], u, Expand(form, rest));
    }
  }

  lemma NothingToExpand(form: Form, w: string)
    requires forall i :: 0 <= i < |w| ==> w[i] != Opening(form)[0]
    ensures Expand(form, w) == w
  {
    PlainKept(form, w, "");
    assert w + "" == w;
  }

  /** A name that does not contain the first letter of process.env. */
  ghost predicate QuietName(name: string) {
    IsName(name) && forall i :: 0 <= i < |name| ==> name[i] != 'p'
  }

  lemma FirstPass(head: string, tail: string, value: string)
    requires IsName(head) && tail != "" && !NameChar(tail[0]) && value == Opening(ProcessEnv) + head + tail
    requires forall i :: 0 <= i < |value| ==> value[i] != '$'
    requires forall i :: 0 <= i < |tail| ==> tail[i] != 'p'
    ensures NormalizeEnvValue(value) == "$" + head + tail
  {
    NothingToExpand(Braced, value);
    ProcessRef(head, tail);
    NothingToExpand(ProcessEnv, tail);
  }

  lemma SecondPass(name: string, tail: string)
    requires IsName(name) && tail == Opening(ProcessEnv) + name
    requires forall i :: 0 <= i < |tail| ==> tail[i] != '$'
    ensures NormalizeEnvValue("$" + tail) == "$" + ("$" + name)
  {
    DollarKept(tail);
    NothingToExpand(Braced, tail);
    PlainOne(ProcessEnv, '$', tail);
    LastRef(name, tail);
  }

  lemma LastRef(name: string, tail: string)
    requires IsName(name) && tail == Opening(ProcessEnv) + name
    ensures Expand(ProcessEnv, tail) == "$" + name
  {
    assert tail == Opening(ProcessEnv) + name + "";
    ProcessRef(name, "");
    assert "$" + name + "" == "$" + name;
  }

  /** How the values of the example are put together. */
  lemma Spelling(name: string, tail: string, first: string, second: string)
    requires QuietName(name) && tail == ".env." + name
    requires first == "process.env.process.env." + name && second == "process.env." + name
    ensures first == Opening(ProcessEnv) + "process" + tail && "$" + "process" + tail == "$" + second
    ensures (forall i :: 0 <= i < |first| ==> first[i] != '$') && (forall i :: 0 <= i < |second| ==> second[i] != '$')
    ensures forall i :: 0 <= i < |tail| ==> tail[i] != 'p'
    ensures second == Opening(ProcessEnv) + name && IsName("process") && !NameChar(tail[0])
  {
  }

  /** process.env.process.env.NAME becomes $process.env.NAME, and a second pass makes that $$NAME. */
  lemma SecondPassMatters(name: string)
    requires QuietName(name)
    ensures NormalizeEnvValue("process.env.process.env." + name) == "$" + ("process.env." + name)
    ensures NormalizeEnvValue("$" + ("process.env." + name)) == "$" + ("$" + name)
  {
    var tail, first, second := ".env." + name, "process.env.process.env." + name, "process.env." + name;
    Spelling(name, tail, first, second);
    FirstPass("process", tail, first);
    SecondPass(name, second);
  }

  lemma DollarKept(rest: string)
    requires rest != "" && rest[0] != '{'
    ensures Expand(Braced, "$" + rest) == "$" + Expand(Braced, rest)
  {
    var s := "$" + rest;
    assert s[1..] == rest && s[1] == rest[0];
  }
}
