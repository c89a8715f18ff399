/** What every value becomes (src/import/transform/mapper.ts:189-200), told by where references begin in it. */
module EnvValues {
  import opened Common
  import opened EnvReferences

  // ------------------------------------------------------------------ one form

  /** The text begins with a reference: ${NAME}, or process.env.NAME with the longest name there is. */
  ghost predicate Begins(form: Form, s: string, name: string) {
    IsName(name) &&
    match form
    case Braced => "${" + name + "}" <= s
    case ProcessEnv =>
      && "process.env." + name <= s
      && (|s| > 12 + |name| ==> !NameChar(s[12 + |name|]))
  }

  lemma NameRunIs(s: string, name: string)
    requires name <= s && (forall i :: 0 <= i < |name| ==> NameChar(name[i]))
    requires |s| > |name| ==> !NameChar(s[|name|])
    ensures NameRun(s) == |name|
  {
    var k := NameRun(s);
    assert forall i :: 0 <= i < |name| ==> s[i] == name[i];
    assert !(k < |name|) && !(k > |name|);
  }

  lemma FrontParts(s: string, a: string, b: string, c: string)
    requires a + b + c <= s
    ensures a <= s && b <= s[|a|..] && c <= s[|a|..][|b|..]
    ensures |s| > |a| + |b| ==> |s[|a|..]| > |b| && s[|a|..][|b|] == s[|a| + |b|]
  {
    var w := a + b + c;
    assert s == w + s[|w|..];
    assert s[|a|..] == b + (c + s[|w|..]);
    assert s[|a|..][|b|..] == c + s[|w|..];
  }

  /** The name in a reference is the only one that fits. */
  lemma RefNameIs(form: Form, s: string, name: string)
    requires Begins(form, s, name)
    ensures RefName(form, s) == name
  {
    var opening, closing := Opening(form), Closing(form);
    assert form.ProcessEnv? ==> opening + name + closing == opening + name;
    FrontParts(s, opening, name, closing);
    var rest := s[|opening|..];
    assert form.Braced? ==> rest[|name|..][0] == '}';
    NameRunIs(rest, name);
  }

  lemma RefNameFront(form: Form, s: string)
    requires IsRef(form, s)
    ensures IsName(RefName(form, s)) && Opening(form) + RefName(form, s) + Closing(form) <= s
    ensures form.ProcessEnv? && |s| > 12 + |RefName(form, s)| ==> !NameChar(s[12 + |RefName(form, s)|])
  {
    RefIsName(form, s);
    var opening, name := Opening(form), RefName(form, s);
    var rest := s[|opening|..];
    FrontOf(s, opening, rest);
    FrontOf(rest, name, rest[|name|..]);
    FrontOf(rest[|name|..], Closing(form), rest[|name|..][|Closing(form)|..]);
    AppendAssociates(opening, name, Closing(form));
  }

  lemma FrontOf(s: string, w: string, rest: string)
    requires w <= s && rest == s[|w|..]
    ensures s == w + rest && forall x :: x <= rest ==> w + x <= s
  {
    forall x | x <= rest ensures w + x <= s {
      assert rest == x + rest[|x|..];
      assert s == w + x + rest[|x|..];
    }
  }

  lemma RefNameBegins(form: Form, s: string)
    requires IsRef(form, s)
    ensures Begins(form, s, RefName(form, s))
  {
    RefNameFront(form, s);
    assert Opening(form) + RefName(form, s) + "" == Opening(form) + RefName(form, s);
  }

  lemma BeginsExactly(form: Form, s: string)
    ensures IsRef(form, s) <==> exists name :: Begins(form, s, name)
  {
    if IsRef(form, s) {
      RefNameBegins(form, s);
    }
    if name :| Begins(form, s, name) {
      RefNameIs(form, s, name);
    }
  }

  /** A value from left to right: characters at which no reference begins, and references. */
  datatype Item = Kept(c: char) | Ref(name: string)

  function Text(form: Form, item: Item): string {
    match item
    case Kept(c) => [c]
    case Ref(name) => if form.Braced? then "${" + name + "}" else "process.env." + name
  }

  function Source(form: Form, items: seq<Item>): string {
    if items == [] then "" else Text(form, items[0]) + Source(form, items[1..])
  }

  /** The same with every reference written $NAME. */
  function Target(items: seq<Item>): string {
    if items == [] then ""
    else (match items[0] case Kept(c) => [c] case Ref(name) => "$" + name) + Target(items[1..])
  }

  /** The items are what there is at each place. */
  ghost predicate Scanned(form: Form, items: seq<Item>) {
    items == [] ||
    (Scanned(form, items[1..]) &&
     match items[0]
     case Kept(_) => forall name :: !Begins(form, Source(form, items), name)
     case Ref(name) => Begins(form, Source(form, items), name))
  }

  /** Expanding writes every reference $NAME and keeps every other character. */
  lemma {:induction false} ExpandExactly(form: Form, items: seq<Item>)
    requires Scanned(form, items)
    ensures Expand(form, Source(form, items)) == Target(items)
  {
    if items != [] {
      var s, rest := Source(form, items), Source(form, items[1..]);
      ExpandExactly(form, items[1..]);
      BeginsExactly(form, s);
      match items[0]
      case Kept(c) =>
        assert s[1..] == rest;
      case Ref(name) =>
        RefNameIs(form, s, name);
        assert s[RefLength(form, s)..] == rest;
    }
  }

  lemma RefText(form: Form, s: string)
    requires IsRef(form, s)
    ensures 0 < RefLength(form, s) <= |s|
    ensures Text(form, Ref(RefName(form, s))) == s[..RefLength(form, s)]
  {
    RefIsName(form, s);
    RefNameBegins(form, s);
  }

  lemma ItemFirst(form: Form, item: Item, later: seq<Item>, s: string, k: nat)
    requires k <= |s| && Text(form, item) == s[..k] && Scanned(form, later) && Source(form, later) == s[k..]
    requires match item case Kept(_) => !IsRef(form, s) case Ref(name) => IsRef(form, s) && name == RefName(form, s)
    ensures Scanned(form, [item] + later) && Source(form, [item] + later) == s
  {
    assert ([item] + later)[1..] == later;
    assert s == s[..k] + s[k..];
    BeginsExactly(form, s);
    if IsRef(form, s) {
      RefNameBegins(form, s);
    }
  }

  /** Every value is such items. */
  lemma {:induction false} ItemsExist(form: Form, s: string) returns (items: seq<Item>)
    ensures Scanned(form, items) && Source(form, items) == s
    decreases |s|
  {
    if s == "" {
      items := [];
    } else if IsRef(form, s) {
      RefText(form, s);
      var later := ItemsExist(form, s[RefLength(form, s)..]);
      items := [Ref(RefName(form, s))] + later;
      ItemFirst(form, Ref(RefName(form, s)), later, s, RefLength(form, s));
    } else {
      var later := ItemsExist(form, s[1..]);
      items := [Kept(s[0])] + later;
      ItemFirst(form, Kept(s[0]), later, s, 1);
    }
  }

  // ------------------------------------------------------------------ both forms

  /** A character at which no reference of either form begins, or a reference of one of them. */
  datatype Part = Other(c: char) | InBraces(name: string) | OfProcess(name: string)

  function PartText(part: Part): string {
    match part
    case Other(c) => [c]
    case InBraces(name) => "${" + name + "}"
    case OfProcess(name) => "process.env." + name
  }

  function ValueOf(parts: seq<Part>): string {
    if parts == [] then "" else PartText(parts[0]) + ValueOf(parts[1..])
  }

  /** Every reference written $NAME. */
  function Written(parts: seq<Part>): string {
    if parts == [] then ""
    else
      (match parts[0] case Other(c) => [c] case InBraces(name) => "$" + name case OfProcess(name) => "$" + name)
      + Written(parts[1..])
  }

  ghost predicate Clear(parts: seq<Part>) {
    parts == [] ||
    (Clear(parts[1..]) &&
     match parts[0]
     case Other(_) => forall form, name :: !Begins(form, ValueOf(parts), name)
     case InBraces(name) => IsName(name)
     case OfProcess(name) => Begins(ProcessEnv, ValueOf(parts), name))
  }

  /** The end of some braced name and what follows it look like a reference of the other form. */
  ghost predicate Crosses(parts: seq<Part>) {
    parts != [] &&
    (Crosses(parts[1..]) ||
     (parts[0].InBraces? && RunsInto(parts[0].name, ValueOf(parts[1..]))))
  }

  ghost predicate RunsInto(name: string, rest: string) {
    exists i, other :: 0 <= i < |name| && Begins(ProcessEnv, name[i..] + rest, other)
  }

  /** What the first pass makes of them. */
  function Once(parts: seq<Part>): string {
    if parts == [] then ""
    else
      (match parts[0] case Other(c) => [c] case InBraces(name) => "$" + name case OfProcess(n) => "process.env." + n)
      + Once(parts[1..])
  }

  ghost predicate NoDollar(s: string) {
    forall i :: 0 <= i < |s| ==> s[i] != '$'
  }

  lemma NameHasNoDollar(name: string)
    requires IsName(name)
    ensures NoDollar(name) && NoDollar("process.env." + name)
  {
    var s := "process.env." + name;
    assert forall i :: 0 <= i < |s| ==> s[i] == if i < 12 then "process.env."[i] else name[i - 12];
  }

  lemma BracedPart(name: string, rest: string)
    requires IsName(name)
    ensures Expand(Braced, "${" + name + "}" + rest) == "$" + name + Expand(Braced, rest)
  {
    var s := "${" + name + "}" + rest;
    assert s[..|name| + 3] == "${" + name + "}";
    RefNameIs(Braced, s, name);
    assert s[RefLength(Braced, s)..] == rest;
  }

  lemma OtherIsNoRef(parts: seq<Part>, form: Form)
    requires Clear(parts) && parts != [] && parts[0].Other?
    ensures !IsRef(form, ValueOf(parts))
  {
    BeginsExactly(form, ValueOf(parts));
  }

  lemma OtherPart(form: Form, c: char, rest: string)
    requires !IsRef(form, [c] + rest)
    ensures Expand(form, [c] + rest) == [c] + Expand(form, rest)
  {
    assert ([c] + rest)[1..] == rest;
  }

  lemma ProcessPart(name: string, rest: string)
    requires IsName(name)
    ensures Expand(Braced, "process.env." + name + rest) == "process.env." + name + Expand(Braced, rest)
  {
    NameHasNoDollar(name);
    assert Opening(Braced)[0] == '$';
    PlainKept(Braced, "process.env." + name, rest);
  }

  lemma {:induction false} FirstPassWrites(parts: seq<Part>)
    requires Clear(parts)
    ensures Expand(Braced, ValueOf(parts)) == Once(parts)
  {
    if parts != [] {
      var rest := ValueOf(parts[1..]);
      FirstPassWrites(parts[1..]);
      match parts[0]
      case Other(c) =>
        OtherIsNoRef(parts, Braced);
        OtherPart(Braced, c, rest);
      case InBraces(name) => BracedPart(name, rest);
      case OfProcess(name) => ProcessPart(name, rest);
    }
  }

  /** Up to the first "$" the first pass changes nothing. */
  lemma {:induction false} SameFront(parts: seq<Part>, w: string)
    requires NoDollar(w) && Clear(parts)
    ensures w <= Once(parts) <==> w <= ValueOf(parts)
    decreases parts, 0
  {
    if parts != [] && w != "" {
      var once, value := Once(parts[1..]), ValueOf(parts[1..]);
      match parts[0]
      case Other(c) => SameFrontAfter(parts[1..], [c], w);
      case InBraces(name) =>
        assert Once(parts)[0] == '$' && ValueOf(parts)[0] == '$';
        assert w[0] != '$';
      case OfProcess(name) => SameFrontAfter(parts[1..], "process.env." + name, w);
    }
  }

  lemma {:induction false} SameFrontAfter(parts: seq<Part>, u: string, w: string)
    requires NoDollar(w) && Clear(parts)
    ensures w <= u + Once(parts) <==> w <= u + ValueOf(parts)
    decreases parts, 1
  {
    if |w| > |u| {
      assert NoDollar(w[|u|..]);
      SameFront(parts, w[|u|..]);
      PrefixAfter(u, Once(parts), w);
      PrefixAfter(u, ValueOf(parts), w);
    } else {
      PrefixWithin(u, Once(parts), w);
      PrefixWithin(u, ValueOf(parts), w);
    }
  }

  lemma PrefixAfter(u: string, s: string, w: string)
    requires |w| > |u|
    ensures w <= u + s <==> u == w[..|u|] && w[|u|..] <= s
  {
    if w <= u + s {
      assert forall i :: 0 <= i < |u| ==> u[i] == (u + s)[i] == w[i];
      assert forall i :: |u| <= i < |w| ==> w[i] == (u + s)[i] == s[i - |u|];
    }
  }

  lemma PrefixWithin(u: string, s: string, w: string)
    requires |w| <= |u|
    ensures w <= u + s <==> w <= u
  {
  }

  lemma BeginsByFront(s: string)
    ensures IsRef(ProcessEnv, s) <==> exists c :: NameStart(c) && "process.env." + [c] <= s
  {
    ProcessRefExactly(s);
    if IsRef(ProcessEnv, s) {
      var c := s[12];
      assert s[..7] == PROCESS && s[7..][..5] == ENV && s[7..][5] == c;
      assert s[..13] == "process.env." + [c];
    }
    if c :| NameStart(c) && "process.env." + [c] <= s {
      var w := "process.env." + [c];
      assert s[..13] == w;
      assert s[..7] == w[..7] == PROCESS;
      assert s[7..][..5] == w[7..12] == ENV;
      assert s[7..][5] == w[12];
    }
  }

  /** A reference of the second form begins in the value exactly where one begins after the first pass. */
  lemma SameBeginning(parts: seq<Part>, u: string)
    requires Clear(parts)
    ensures IsRef(ProcessEnv, u + Once(parts)) <==> IsRef(ProcessEnv, u + ValueOf(parts))
  {
    BeginsByFront(u + Once(parts));
    BeginsByFront(u + ValueOf(parts));
    forall c | NameStart(c)
      ensures "process.env." + [c] <= u + Once(parts) <==> "process.env." + [c] <= u + ValueOf(parts)
    {
      SameFrontAfter(parts, u, "process.env." + [c]);
    }
  }

  lemma SameFirst(parts: seq<Part>)
    ensures Once(parts) == "" <==> ValueOf(parts) == ""
    ensures Once(parts) != "" ==> Once(parts)[0] == ValueOf(parts)[0]
  {
  }

  ghost predicate RefInside(u: string, out: string) {
    exists i :: 0 <= i < |u| && IsRef(ProcessEnv, u[i..] + out)
  }

  lemma RefInsideStep(u: string, out: string)
    requires u != ""
    ensures RefInside(u, out) <==> IsRef(ProcessEnv, u + out) || RefInside(u[1..], out)
  {
    assert u[0..] == u;
    if i :| 0 <= i < |u| && IsRef(ProcessEnv, u[i..] + out) {
      assert i > 0 ==> u[1..][i - 1..] == u[i..];
    }
    if i :| 0 <= i < |u[1..]| && IsRef(ProcessEnv, u[1..][i..] + out) {
      assert u[1..][i..] == u[i + 1..];
    }
  }

  lemma ExpandOne(c: char, rest: string)
    ensures if IsRef(ProcessEnv, [c] + rest) then |Expand(ProcessEnv, [c] + rest)| > 0
                                                  && Expand(ProcessEnv, [c] + rest)[0] == '$'
            else Expand(ProcessEnv, [c] + rest) == [c] + Expand(ProcessEnv, rest)
  {
    assert ([c] + rest)[1..] == rest;
  }

  lemma SameAfterFirst(c: char, a: string, b: string)
    ensures [c] + a == [c] + b <==> a == b
  {
    assert ([c] + a)[1..] == a && ([c] + b)[1..] == b;
  }

  /** Expanding keeps the text u exactly when no reference begins in it. */
  ghost predicate KeptExactly(u: string, out: string, t: string) {
    Expand(ProcessEnv, u + out) == u + t <==> !RefInside(u, out) && Expand(ProcessEnv, out) == t
  }

  lemma ExpandNameStep(c: char, later: string, out: string, t: string, u: string)
    requires c != '$' && u == [c] + later && KeptExactly(later, out, t)
    ensures KeptExactly(u, out, t)
  {
    RefInsideStep(u, out);
    assert u[1..] == later;
    AppendAssociates([c], later, out);
    AppendAssociates([c], later, t);
    ExpandOne(c, later + out);
    SameAfterFirst(c, Expand(ProcessEnv, later + out), later + t);
  }

  lemma {:induction false} ExpandName(u: string, out: string, t: string)
    requires NoDollar(u)
    ensures KeptExactly(u, out, t)
  {
    if u == "" {
      assert u + out == out && u + t == t;
    } else {
      ExpandName(u[1..], out, t);
      ExpandNameStep(u[0], u[1..], out, t, u);
    }
  }

  lemma RunsIntoExactly(parts: seq<Part>, name: string)
    requires Clear(parts)
    ensures RunsInto(name, ValueOf(parts)) <==>
            RefInside(name, Once(parts))
  {
    forall i | 0 <= i < |name|
      ensures IsRef(ProcessEnv, name[i..] + Once(parts))
              <==> exists other :: Begins(ProcessEnv, name[i..] + ValueOf(parts), other)
    {
      SameBeginning(parts, name[i..]);
      BeginsExactly(ProcessEnv, name[i..] + ValueOf(parts));
    }
  }

  lemma {:induction false} SecondPassWrites(parts: seq<Part>)
    requires Clear(parts)
    ensures Expand(ProcessEnv, Once(parts)) == Written(parts) <==> !Crosses(parts)
  {
    if parts != [] {
      SecondPassWrites(parts[1..]);
      match parts[0]
      case Other(c) => SecondOther(parts, c);
      case InBraces(name) => SecondBraced(parts, name);
      case OfProcess(name) => SecondProcess(parts, name);
    }
  }

  lemma SecondOther(parts: seq<Part>, c: char)
    requires Clear(parts) && parts != [] && parts[0] == Other(c)
    requires Expand(ProcessEnv, Once(parts[1..])) == Written(parts[1..]) <==> !Crosses(parts[1..])
    ensures Expand(ProcessEnv, Once(parts)) == Written(parts) <==> !Crosses(parts)
  {
    var out := Once(parts[1..]);
    SameBeginning(parts[1..], [c]);
    OtherIsNoRef(parts, ProcessEnv);
    assert ([c] + out)[1..] == out;
    assert Expand(ProcessEnv, Once(parts)) == [c] + Expand(ProcessEnv, out);
    assert Expand(ProcessEnv, Once(parts))[1..] == Expand(ProcessEnv, out);
    assert Written(parts)[1..] == Written(parts[1..]);
  }

  lemma SecondBraced(parts: seq<Part>, name: string)
    requires Clear(parts) && parts != [] && parts[0] == InBraces(name)
    requires Expand(ProcessEnv, Once(parts[1..])) == Written(parts[1..]) <==> !Crosses(parts[1..])
    ensures Expand(ProcessEnv, Once(parts)) == Written(parts) <==> !Crosses(parts)
  {
    var out, t := Once(parts[1..]), Written(parts[1..]);
    NameHasNoDollar(name);
    ExpandName(name, out, t);
    RunsIntoExactly(parts[1..], name);
    AppendAssociates("$", name, out);
    AppendAssociates("$", name, t);
    PlainOne(ProcessEnv, '$', name + out);
    assert ("$" + Expand(ProcessEnv, name + out))[1..] == Expand(ProcessEnv, name + out);
    assert ("$" + (name + t))[1..] == name + t;
  }

  lemma SecondProcess(parts: seq<Part>, name: string)
    requires Clear(parts) && parts != [] && parts[0] == OfProcess(name)
    requires Expand(ProcessEnv, Once(parts[1..])) == Written(parts[1..]) <==> !Crosses(parts[1..])
    ensures Expand(ProcessEnv, Once(parts)) == Written(parts) <==> !Crosses(parts)
  {
    var out, t := Once(parts[1..]), Written(parts[1..]);
    SameFirst(parts[1..]);
    var value := ValueOf(parts);
    assert value == "process.env." + name + ValueOf(parts[1..]);
    assert ValueOf(parts[1..]) != "" ==> value[12 + |name|] == ValueOf(parts[1..])[0];
    ProcessRef(name, out);
    assert ("$" + name + Expand(ProcessEnv, out))[1 + |name|..] == Expand(ProcessEnv, out);
    assert ("$" + name + t)[1 + |name|..] == t;
  }

  /**
   * A value made of text and references becomes that text with each reference written $NAME, exactly when no end of a
   * braced name runs into what follows so as to look like a reference of the other form.
   */
  lemma ValueBecomes(parts: seq<Part>)
    requires Clear(parts)
    ensures NormalizeEnvValue(ValueOf(parts)) == Written(parts) <==> !Crosses(parts)
  {
    FirstPassWrites(parts);
    SecondPassWrites(parts);
  }

  lemma PartFirst(part: Part, later: seq<Part>, s: string, k: nat)
    requires k <= |s| && PartText(part) == s[..k] && Clear(later) && ValueOf(later) == s[k..]
    requires match part
             case Other(_) => !IsRef(Braced, s) && !IsRef(ProcessEnv, s)
             case InBraces(name) => IsName(name)
             case OfProcess(name) => Begins(ProcessEnv, s, name)
    ensures Clear([part] + later) && ValueOf([part] + later) == s
  {
    assert ([part] + later)[1..] == later;
    assert s == s[..k] + s[k..];
    if part.Other? {
      forall form, name ensures !Begins(form, s, name) {
        BeginsExactly(form, s);
        assert form == Braced || form == ProcessEnv;
      }
    }
  }

  /** Every value is made of text and references. */
  lemma {:induction false} PartsExist(s: string) returns (parts: seq<Part>)
    ensures Clear(parts) && ValueOf(parts) == s
    decreases |s|
  {
    if s == "" {
      parts := [];
    } else if IsRef(Braced, s) {
      RefText(Braced, s);
      RefIsName(Braced, s);
      var later := PartsExist(s[RefLength(Braced, s)..]);
      parts := [InBraces(RefName(Braced, s))] + later;
      PartFirst(InBraces(RefName(Braced, s)), later, s, RefLength(Braced, s));
    } else if IsRef(ProcessEnv, s) {
      RefText(ProcessEnv, s);
      RefNameBegins(ProcessEnv, s);
      var later := PartsExist(s[RefLength(ProcessEnv, s)..]);
      parts := [OfProcess(RefName(ProcessEnv, s))] + later;
      PartFirst(OfProcess(RefName(ProcessEnv, s)), later, s, RefLength(ProcessEnv, s));
    } else {
      var later := PartsExist(s[1..]);
      parts := [Other(s[0])] + later;
      PartFirst(Other(s[0]), later, s, 1);
    }
  }

  lemma BracedThenText(name: string, tail: string)
    requires IsName(name) && NoDollar(tail)
    ensures Expand(Braced, "${" + name + "}" + tail) == "$" + name + tail
  {
    BracedPart(name, tail);
    assert Opening(Braced)[0] == '$';
    NothingToExpand(Braced, tail);
  }

  lemma CrossingSpelled(name: string, tail: string)
    requires IsName(name) && tail == ".env." + name
    ensures IsName("process") && NoDollar(tail)
    ensures "${process}.env." + name == "${" + "process" + "}" + tail
    ensures "$" + "process" + tail == "$" + ("process.env." + name)
  {
    assert forall i :: 0 <= i < |tail| ==> tail[i] == if i < 5 then ".env."[i] else name[i - 5];
  }

  /** ${process}.env.NAME becomes $$NAME. */
  lemma CrossingMatters(name: string)
    requires IsName(name)
    ensures NormalizeEnvValue("${process}.env." + name) == "$" + ("$" + name)
  {
    var tail, second := ".env." + name, "process.env." + name;
    CrossingSpelled(name, tail);
    BracedThenText("process", tail);
    PlainOne(ProcessEnv, '$', second);
    LastRef(name, second);
  }
}
