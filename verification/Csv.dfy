/**
 * CSV fields (agent_safety_kit/cost_model/simulate.ts:87-117, 296-301, 490-491): escaping and parsing are inverse up to
 * trimming.
 */
module Csv {
  import opened Common
  import opened Whitespace

  const QUOTE := '"'

  function TrimAll(values: seq<string>): seq<string> {
    if values == [] then [] else [Trim(values[0])] + TrimAll(values[1..])
  }

  lemma {:induction false} TrimAllTight(values: seq<string>)
    ensures TrimAll(values) == values <==> forall i :: 0 <= i < |values| ==> Tight(values[i])
  {
    if values != [] {
      TrimIsTight(values[0]);
      TrimAllTight(values[1..]);
      var trimmed := TrimAll(values);
      assert trimmed[0] == Trim(values[0]) && trimmed[1..] == TrimAll(values[1..]);
      assert values == [values[0]] + values[1..];
      if forall i :: 0 <= i < |values[1..]| ==> Tight(values[1..][i]) {
        forall i | 1 <= i < |values| ensures Tight(values[i]) {
          assert values[i] == values[1..][i - 1];
        }
      } else {
        var i :| 0 <= i < |values[1..]| && !Tight(values[1..][i]);
        assert !Tight(values[i + 1]);
      }
    }
  }

  lemma {:induction false} TrimmedAreTight(values: seq<string>)
    ensures |TrimAll(values)| == |values|
    ensures forall i :: 0 <= i < |values| ==> Tight(TrimAll(values)[i])
  {
    if values != [] {
      TrimIsTight(values[0]);
      TrimmedAreTight(values[1..]);
    }
  }

  // ------------------------------------------------------------------ parsing

  /** The untrimmed fields of the rest of a line, when `current` has been read of the first of them. */
  function Fields(line: string, current: string, inQuotes: bool): seq<string>
    decreases |line|
  {
    if line == "" then [current]
    else if line[0] == QUOTE then
      if inQuotes && |line| > 1 && line[1] == QUOTE then Fields(line[2..], current + [QUOTE], true)
      else Fields(line[1..], current, !inQuotes)
    else if line[0] == ',' && !inQuotes then [current] + Fields(line[1..], "", false)
    else Fields(line[1..], current + [line[0]], inQuotes)
  }

  function ParseLine(line: string): seq<string> {
    TrimAll(Fields(line, "", false))
  }

  method ParseCsvLine(line: string) returns (fields: seq<string>)
    ensures fields == ParseLine(line)
  {
    var values, current, inQuotes := [], "", false;
    var i := 0;
    while i < |line|
      invariant i <= |line|
      invariant values + Fields(line[i..], current, inQuotes) == Fields(line, "", false)
    {
      FieldsStep(line, i, values, current, inQuotes);
      var c := line[i];
      if c == QUOTE {
        if inQuotes && i + 1 < |line| && line[i + 1] == QUOTE {
          current := current + [QUOTE];
          i := i + 1;
        } else {
          inQuotes := !inQuotes;
        }
      } else if c == ',' && !inQuotes {
        values := values + [current];
        current := "";
      } else {
        current := current + [c];
      }
      i := i + 1;
    }
    values := values + [current];
    fields := [];
    var n := 0;
    while n < |values|
      invariant n <= |values| && fields + TrimAll(values[n..]) == TrimAll(values)
    {
      TrimStep(values, n, fields);
      fields := fields + [Trim(values[n])];
      n := n + 1;
    }
  }

  lemma TrimStep(values: seq<string>, n: nat, done: seq<string>)
    requires n < |values|
    ensures done + TrimAll(values[n..]) == done + [Trim(values[n])] + TrimAll(values[n + 1..])
  {
    assert values[n..][1..] == values[n + 1..];
  }

  /** One character, or a doubled quote. */
  lemma FieldsStep(line: string, i: nat, values: seq<string>, current: string, inQuotes: bool)
    requires i < |line|
    ensures values + Fields(line[i..], current, inQuotes) ==
            if line[i] == QUOTE then
              if inQuotes && i + 1 < |line| && line[i + 1] == QUOTE
              then values + Fields(line[i + 2..], current + [QUOTE], true)
              else values + Fields(line[i + 1..], current, !inQuotes)
            else if line[i] == ',' && !inQuotes then (values + [current]) + Fields(line[i + 1..], "", false)
            else values + Fields(line[i + 1..], current + [line[i]], inQuotes)
  {
    var rest := line[i..];
    assert rest[1..] == line[i + 1..];
    if |rest| > 1 {
      assert rest[2..] == line[i + 2..];
    }
  }

  // ------------------------------------------------------------------ printing

  predicate NeedsQuotes(value: string) {
    exists i :: 0 <= i < |value| && (value[i] == QUOTE || value[i] == ',' || value[i] == '\n')
  }

  function DoubleQuotes(value: string): string {
    if value == "" then ""
    else (if value[0] == QUOTE then [QUOTE, QUOTE] else [value[0]]) + DoubleQuotes(value[1..])
  }

  function CsvEscape(value: string): string {
    if NeedsQuotes(value) then [QUOTE] + DoubleQuotes(value) + [QUOTE] else value
  }

  /** A value is quoted exactly when it has a quote, a comma or a line break, and stands as it is otherwise. */
  lemma QuotedExactly(value: string)
    ensures if '"' in value || ',' in value || '\n' in value
            then CsvEscape(value) == "\"" + DoubleQuotes(value) + "\"" else CsvEscape(value) == value
  {
    if '"' in value || ',' in value || '\n' in value {
      var i :| 0 <= i < |value| && value[i] in {'"', ',', '\n'};
      assert NeedsQuotes(value);
    }
  }

  /** values.map(csvEscape).join(",") */
  function PrintLine(values: seq<string>): string {
    if values == [] then ""
    else if |values| == 1 then CsvEscape(values[0])
    else CsvEscape(values[0]) + "," + PrintLine(values[1..])
  }

  // ------------------------------------------------------------------ round trips

  /** What follows a printed field: nothing, or a comma and more. */
  predicate EndsField(rest: string) {
    rest == "" || rest[0] == ','
  }

  /** A field without special characters is read as it stands. */
  lemma {:induction false} PlainField(value: string, rest: string, current: string)
    requires forall i :: 0 <= i < |value| ==> value[i] != QUOTE && value[i] != ','
    ensures Fields(value + rest, current, false) == Fields(rest, current + value, false)
  {
    if value == "" {
      assert value + rest == rest && current + value == current;
    } else {
      assert (value + rest)[1..] == value[1..] + rest;
      assert current + [value[0]] + value[1..] == current + value;
      PlainField(value[1..], rest, current + [value[0]]);
    }
  }

  /**
   * Inside quotes everything is read as it stands, doubled quotes as single ones, up to a quote that is not doubled.
   */
  lemma {:induction false} QuotedField(value: string, rest: string, current: string)
    requires rest == "" || rest[0] != QUOTE
    ensures Fields(DoubleQuotes(value) + ([QUOTE] + rest), current, true) == Fields(rest, current + value, false)
  {
    var tail := [QUOTE] + rest;
    if value == "" {
      assert DoubleQuotes(value) + tail == tail && tail[1..] == rest && current + value == current;
    } else {
      assert current + [value[0]] + value[1..] == current + value;
      QuotedField(value[1..], rest, current + [value[0]]);
      QuotedHead(value, tail, current);
    }
  }

  lemma QuotedHead(value: string, tail: string, current: string)
    requires value != "" && tail != ""
    ensures Fields(DoubleQuotes(value) + tail, current, true)
            == Fields(DoubleQuotes(value[1..]) + tail, current + [value[0]], true)
  {
    var more := DoubleQuotes(value[1..]) + tail;
    if value[0] == QUOTE {
      assert DoubleQuotes(value) + tail == [QUOTE, QUOTE] + more;
      assert ([QUOTE, QUOTE] + more)[2..] == more;
    } else {
      assert DoubleQuotes(value) + tail == [value[0]] + more;
      assert ([value[0]] + more)[1..] == more;
    }
  }

  lemma EscapedField(value: string, rest: string)
    requires EndsField(rest)
    ensures Fields(CsvEscape(value) + rest, "", false) == Fields(rest, value, false)
  {
    assert "" + value == value;
    if NeedsQuotes(value) {
      var quoted := DoubleQuotes(value) + ([QUOTE] + rest);
      assert CsvEscape(value) + rest == [QUOTE] + quoted;
      assert ([QUOTE] + quoted)[1..] == quoted;
      QuotedField(value, rest, "");
    } else {
      PlainField(value, rest, "");
    }
  }

  /** Before trimming, parsing gives back exactly the printed fields. */
  lemma {:induction false} FieldsOfPrinted(values: seq<string>)
    requires values != []
    ensures Fields(PrintLine(values), "", false) == values
  {
    if |values| == 1 {
      EscapedField(values[0], "");
      assert CsvEscape(values[0]) + "" == CsvEscape(values[0]);
      assert values == [values[0]];
    } else {
      var rest := PrintLine(values[1..]);
      FieldsOfPrinted(values[1..]);
      assert PrintLine(values) == CsvEscape(values[0]) + ("," + rest);
      EscapedField(values[0], "," + rest);
      assert ("," + rest)[1..] == rest;
      assert values == [values[0]] + values[1..];
    }
  }

  /**
   * Parsing what was printed gives the trimmed fields, and the fields themselves exactly when none has space at an end.
   */
  lemma PrintParse(values: seq<string>)
    requires values != []
    ensures ParseLine(PrintLine(values)) == TrimAll(values)
    ensures ParseLine(PrintLine(values)) == values <==> forall i :: 0 <= i < |values| ==> Tight(values[i])
  {
    FieldsOfPrinted(values);
    TrimAllTight(values);
  }

  /** The empty list prints like a single empty field. */
  lemma NoFieldsBecomeOne()
    ensures ParseLine(PrintLine([])) == [""]
  {
    assert Fields("", "", false) == [""];
    assert [""][1..] == [];
    assert TrimAll([""]) == [""];
  }

  lemma {:induction false} FieldsNotEmpty(line: string, current: string, inQuotes: bool)
    ensures Fields(line, current, inQuotes) != []
    decreases |line|
  {
    if line != "" {
      FieldsNotEmpty(line[1..], current, !inQuotes);
      FieldsNotEmpty(line[1..], current + [line[0]], inQuotes);
      if |line| > 1 {
        FieldsNotEmpty(line[2..], current + [QUOTE], true);
      }
    }
  }

  /** Any line at all: printing its fields and parsing again changes nothing more. */
  lemma ReprintIsStable(line: string)
    ensures ParseLine(PrintLine(ParseLine(line))) == ParseLine(line)
  {
    var raw := Fields(line, "", false);
    FieldsNotEmpty(line, "", false);
    TrimmedAreTight(raw);
    PrintParse(TrimAll(raw));
  }

  // ------------------------------------------------------------------ any line

  /** A character as it stands, or text in quotes. */
  datatype Segment = Bare(c: char) | Quoted(text: string)

  function Written(segment: Segment): string {
    match segment
    case Bare(c) => [c]
    case Quoted(text) => [QUOTE] + DoubleQuotes(text) + [QUOTE]
  }

  function Meant(segment: Segment): string {
    match segment
    case Bare(c) => [c]
    case Quoted(text) => text
  }

  function WrittenField(field: seq<Segment>): string {
    if field == [] then "" else Written(field[0]) + WrittenField(field[1..])
  }

  function MeantField(field: seq<Segment>): string {
    if field == [] then "" else Meant(field[0]) + MeantField(field[1..])
  }

  /** No bare quotes and commas, and no quoted text right after another. */
  ghost predicate ProperField(field: seq<Segment>) {
    && (forall i :: 0 <= i < |field| && field[i].Bare? ==> field[i].c != QUOTE && field[i].c != ',')
    && (forall i :: 0 <= i < |field| - 1 ==> !(field[i].Quoted? && field[i + 1].Quoted?))
  }

  /** A quote without its partner at the end, and what follows it. */
  function Unclosed(open: Option<string>): string {
    match open
    case None => ""
    case Some(text) => [QUOTE] + DoubleQuotes(text)
  }

  function WrittenLine(fields: seq<seq<Segment>>, open: Option<string>): string
    requires fields != []
  {
    if |fields| == 1 then WrittenField(fields[0]) + Unclosed(open)
    else WrittenField(fields[0]) + "," + WrittenLine(fields[1..], open)
  }

  function MeantLine(fields: seq<seq<Segment>>, open: Option<string>): seq<string>
    requires fields != []
  {
    if |fields| == 1 then [MeantField(fields[0]) + (match open case Some(text) => text case None => "")]
    else [MeantField(fields[0])] + MeantLine(fields[1..], open)
  }

  ghost predicate EndsQuoted(field: seq<Segment>) {
    field != [] && field[|field| - 1].Quoted?
  }

  ghost predicate ProperLine(fields: seq<seq<Segment>>, open: Option<string>) {
    && fields != [] && (forall i :: 0 <= i < |fields| ==> ProperField(fields[i]))
    && (open.Some? ==> !EndsQuoted(fields[|fields| - 1]))
  }

  lemma BareSegment(c: char, rest: string, current: string)
    requires c != QUOTE && c != ','
    ensures Fields([c] + rest, current, false) == Fields(rest, current + [c], false)
  {
    assert ([c] + rest)[1..] == rest;
  }

  lemma QuotedSegment(text: string, rest: string, current: string)
    requires rest == "" || rest[0] != QUOTE
    ensures Fields([QUOTE] + DoubleQuotes(text) + [QUOTE] + rest, current, false) == Fields(rest, current + text, false)
  {
    var more := DoubleQuotes(text) + ([QUOTE] + rest);
    assert [QUOTE] + DoubleQuotes(text) + [QUOTE] + rest == [QUOTE] + more;
    assert ([QUOTE] + more)[1..] == more;
    QuotedField(text, rest, current);
  }

  lemma {:induction false} FieldIsMeant(field: seq<Segment>, rest: string, current: string)
    requires ProperField(field) && (EndsQuoted(field) ==> rest == "" || rest[0] != QUOTE)
    ensures Fields(WrittenField(field) + rest, current, false) == Fields(rest, current + MeantField(field), false)
  {
    if field == [] {
      assert WrittenField(field) + rest == rest && current + MeantField(field) == current;
    } else {
      var first, later := field[0], field[1..];
      var tail := WrittenField(later) + rest;
      FieldIsMeant(later, rest, current + Meant(first));
      AppendAssociates(Written(first), WrittenField(later), rest);
      AppendAssociates(current, Meant(first), MeantField(later));
      match first
      case Bare(c) => BareSegment(c, tail, current);
      case Quoted(text) =>
        FrontOfField(later, rest);
        QuotedSegment(text, tail, current);
    }
  }

  lemma FrontOfField(field: seq<Segment>, rest: string)
    requires ProperField(field) && (field != [] ==> field[0].Bare?)
    requires field == [] ==> rest == "" || rest[0] != QUOTE
    ensures WrittenField(field) + rest == "" || (WrittenField(field) + rest)[0] != QUOTE
  {
    if field == [] {
      assert WrittenField(field) + rest == rest;
    }
  }

  lemma {:induction false} OpenIsMeant(text: string, current: string)
    ensures Fields(DoubleQuotes(text), current, true) == [current + text]
  {
    if text == "" {
      assert current + text == current;
    } else {
      OpenIsMeant(text[1..], current + [text[0]]);
      OpenHead(text, current);
      assert current + [text[0]] + text[1..] == current + text;
    }
  }

  lemma OpenHead(text: string, current: string)
    requires text != ""
    ensures Fields(DoubleQuotes(text), current, true) == Fields(DoubleQuotes(text[1..]), current + [text[0]], true)
  {
    var more := DoubleQuotes(text[1..]);
    if text[0] == QUOTE {
      assert DoubleQuotes(text) == [QUOTE, QUOTE] + more;
      assert ([QUOTE, QUOTE] + more)[2..] == more;
    } else {
      assert DoubleQuotes(text) == [text[0]] + more;
      assert ([text[0]] + more)[1..] == more;
    }
  }

  lemma LastField(field: seq<Segment>, open: Option<string>)
    requires ProperField(field) && (open.Some? ==> !EndsQuoted(field))
    ensures Fields(WrittenField(field) + Unclosed(open), "", false)
            == [MeantField(field) + (match open case Some(text) => text case None => "")]
  {
    FieldIsMeant(field, Unclosed(open), "");
    assert "" + MeantField(field) == MeantField(field);
    match open
    case None => assert MeantField(field) + "" == MeantField(field);
    case Some(text) =>
      assert ([QUOTE] + DoubleQuotes(text))[1..] == DoubleQuotes(text);
      OpenIsMeant(text, MeantField(field));
  }

  /** The fields of any line are what its bare characters and quoted texts mean. */
  lemma {:induction false} FieldsExactly(fields: seq<seq<Segment>>, open: Option<string>)
    requires ProperLine(fields, open)
    ensures Fields(WrittenLine(fields, open), "", false) == MeantLine(fields, open)
  {
    if |fields| == 1 {
      LastField(fields[0], open);
    } else {
      var rest := WrittenLine(fields[1..], open);
      FieldsExactly(fields[1..], open);
      FieldIsMeant(fields[0], "," + rest, "");
      AppendAssociates(WrittenField(fields[0]), ",", rest);
      assert "" + MeantField(fields[0]) == MeantField(fields[0]);
      assert ("," + rest)[1..] == rest;
    }
  }

  /** What follows a quote: text up to its partner, or to the end. */
  lemma {:induction false} QuotedParts(s: string) returns (text: string, closed: bool, rest: string)
    ensures s == DoubleQuotes(text) + (if closed then [QUOTE] + rest else "")
    ensures closed ==> rest == "" || rest[0] != QUOTE
    ensures closed ==> |rest| < |s|
  {
    if s == "" {
      text, closed, rest := "", false, "";
    } else if s[0] == QUOTE && (|s| == 1 || s[1] != QUOTE) {
      text, closed, rest := "", true, s[1..];
    } else if s[0] == QUOTE {
      var later;
      later, closed, rest := QuotedParts(s[2..]);
      text := [QUOTE] + later;
      assert s == [QUOTE, QUOTE] + s[2..] && text[1..] == later;
    } else {
      var later;
      later, closed, rest := QuotedParts(s[1..]);
      text := [s[0]] + later;
      assert s == [s[0]] + s[1..] && text[1..] == later;
    }
  }

  /** The line after its first field. */
  function AfterFirst(fields: seq<seq<Segment>>, open: Option<string>): string
    requires fields != []
  {
    if |fields| == 1 then Unclosed(open) else "," + WrittenLine(fields[1..], open)
  }

  lemma LineIsFirst(fields: seq<seq<Segment>>, open: Option<string>)
    requires fields != []
    ensures WrittenLine(fields, open) == WrittenField(fields[0]) + AfterFirst(fields, open)
  {
    if |fields| > 1 {
      AppendAssociates(WrittenField(fields[0]), ",", WrittenLine(fields[1..], open));
    }
  }

  lemma QuoteComesFirst(fields: seq<seq<Segment>>, open: Option<string>)
    requires fields != []
    ensures (fields[0] != [] && fields[0][0].Quoted?) || (fields == [[]] && open.Some?) ==>
              WrittenLine(fields, open) != "" && WrittenLine(fields, open)[0] == QUOTE
  {
    LineIsFirst(fields, open);
    if fields == [[]] && open.Some? {
      assert WrittenField([]) + Unclosed(open) == Unclosed(open);
    }
  }

  lemma ProperFirst(segment: Segment, field: seq<Segment>)
    requires ProperField(field) && (segment.Bare? ==> segment.c != QUOTE && segment.c != ',')
    requires segment.Quoted? && field != [] ==> field[0].Bare?
    ensures ProperField([segment] + field)
    ensures EndsQuoted([segment] + field) <==> if field == [] then segment.Quoted? else EndsQuoted(field)
  {
  }

  lemma SpelledFirst(segment: Segment, fields: seq<seq<Segment>>, open: Option<string>, more: seq<seq<Segment>>)
    requires fields != [] && more == [[segment] + fields[0]] + fields[1..]
    ensures WrittenLine(more, open) == Written(segment) + WrittenLine(fields, open)
  {
    assert ([segment] + fields[0])[1..] == fields[0] && more[1..] == fields[1..];
    LineIsFirst(fields, open);
    LineIsFirst(more, open);
    AppendAssociates(Written(segment), WrittenField(fields[0]), AfterFirst(fields, open));
  }

  lemma PrependSegment(segment: Segment, fields: seq<seq<Segment>>, open: Option<string>, rest: string)
    returns (more: seq<seq<Segment>>)
    requires ProperLine(fields, open) && WrittenLine(fields, open) == rest
    requires segment.Bare? ==> segment.c != QUOTE && segment.c != ','
    requires segment.Quoted? ==> rest == "" || rest[0] != QUOTE
    ensures ProperLine(more, open) && WrittenLine(more, open) == Written(segment) + rest
  {
    more := [[segment] + fields[0]] + fields[1..];
    QuoteComesFirst(fields, open);
    assert |fields| == 1 ==> fields == [fields[0]];
    ProperMore(segment, fields, open, more);
    SpelledFirst(segment, fields, open, more);
  }

  lemma ProperMore(segment: Segment, fields: seq<seq<Segment>>, open: Option<string>, more: seq<seq<Segment>>)
    requires ProperLine(fields, open) && more == [[segment] + fields[0]] + fields[1..]
    requires segment.Bare? ==> segment.c != QUOTE && segment.c != ','
    requires segment.Quoted? && fields[0] != [] ==> fields[0][0].Bare?
    requires segment.Quoted? && fields == [[]] ==> open == None
    ensures ProperLine(more, open)
  {
    ProperFirst(segment, fields[0]);
    assert more[0] == [segment] + fields[0] && forall i :: 1 <= i < |more| ==> more[i] == fields[i];
    assert |fields| == 1 && fields[0] == [] ==> fields == [[]];
  }

  lemma CommaFirst(fields: seq<seq<Segment>>, open: Option<string>) returns (more: seq<seq<Segment>>)
    requires ProperLine(fields, open)
    ensures ProperLine(more, open) && WrittenLine(more, open) == "," + WrittenLine(fields, open)
  {
    more := [[]] + fields;
    assert more[1..] == fields;
    LineIsFirst(more, open);
    assert "" + ("," + WrittenLine(fields, open)) == "," + WrittenLine(fields, open);
  }

  lemma OpenOnly(text: string)
    ensures ProperLine([[]], Some(text)) && WrittenLine([[]], Some(text)) == [QUOTE] + DoubleQuotes(text)
  {
    assert "" + Unclosed(Some(text)) == Unclosed(Some(text));
  }

  lemma QuotedSpelled(text: string, rest: string)
    ensures [QUOTE] + (DoubleQuotes(text) + ([QUOTE] + rest)) == Written(Quoted(text)) + rest
  {
  }

  /** Every line is such fields. */
  lemma {:induction false} LineHasSegments(line: string) returns (fields: seq<seq<Segment>>, open: Option<string>)
    ensures ProperLine(fields, open) && WrittenLine(fields, open) == line
    decreases |line|
  {
    if line == "" {
      fields, open := [[]], None;
    } else {
      assert line == [line[0]] + line[1..];
      if line[0] == QUOTE {
        var text, closed, rest := QuotedParts(line[1..]);
        if closed {
          fields, open := LineHasSegments(rest);
          fields := PrependSegment(Quoted(text), fields, open, rest);
          QuotedSpelled(text, rest);
        } else {
          fields, open := [[]], Some(text);
          OpenOnly(text);
          assert DoubleQuotes(text) + "" == DoubleQuotes(text);
        }
      } else {
        fields, open := LineHasSegments(line[1..]);
        if line[0] == ',' {
          fields := CommaFirst(fields, open);
        } else {
          fields := PrependSegment(Bare(line[0]), fields, open, line[1..]);
        }
      }
    }
  }
}
