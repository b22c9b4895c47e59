/** Where a serialised JSON object begins, in a text that ends with it. */
module JsonText {
  /** How far a reader is: the brackets open, and whether inside a string or behind a backslash there. */
  datatype Lex = Broken | Outside(depth: int) | InString(depth: int) | Escaped(depth: int)

  function Next(l: Lex, c: char): Lex {
    match l
    case Broken => Broken
    case Outside(depth) =>
      if c == '\"' then InString(depth)
      else if c == '\\' then Broken
      else if c == '{' || c == '[' then Outside(depth + 1)
      else if c == '}' || c == ']' then Outside(depth - 1)
      else l
    case InString(depth) => if c == '\"' then Outside(depth) else if c == '\\' then Escaped(depth) else l
    case Escaped(depth) => InString(depth)
  }

  function Read(l: Lex, text: string): Lex {
    if text == [] then l else Next(Read(l, text[..|text| - 1]), text[|text| - 1])
  }

  predicate Open(l: Lex) {
    !l.Broken? && l.depth > 0
  }

  /** One object, closed by its last character and not before; of the grammar of JSON no more is needed. */
  ghost predicate IsObject(text: string) {
    && text != [] && text[0] == '{'
    && Read(Outside(0), text) == Outside(0)
    && forall n :: 0 < n < |text| ==> Open(Read(Outside(0), text[..n]))
  }

  lemma {:induction false} ReadInTwo(l: Lex, a: string, b: string)
    ensures Read(l, a + b) == Read(Read(l, a), b)
  {
    if b == [] {
      assert a + b == a;
    } else {
      ReadInTwo(l, a, b[..|b| - 1]);
      assert (a + b)[..|a + b| - 1] == a + b[..|b| - 1];
    }
  }

  /** Inside other brackets a text reads the same, only deeper. */
  lemma {:induction false} ReadDeeper(text: string, k: int)
    ensures match Read(Outside(0), text)
            case Broken => Read(Outside(k), text) == Broken
            case Outside(d) => Read(Outside(k), text) == Outside(d + k)
            case InString(d) => Read(Outside(k), text) == InString(d + k)
            case Escaped(d) => Read(Outside(k), text) == Escaped(d + k)
  {
    if text != [] {
      ReadDeeper(text[..|text| - 1], k);
    }
  }

  /** Of two readers only one can be inside a string. */
  predicate Opposite(l: Lex, m: Lex) {
    l.Broken? || m.Broken? || (l.InString? && m.Outside?) || (l.Outside? && m.InString?)
  }

  lemma {:induction false} OppositeStays(text: string, l: Lex, m: Lex)
    requires Opposite(l, m)
    ensures Opposite(Read(l, text), Read(m, text))
  {
    if text != [] {
      OppositeStays(text[..|text| - 1], l, m);
    }
  }

  /** No object is the end of a longer one: its first bracket would be in a string of that, or leave one open. */
  lemma NoObjectInTheEnd(front: string, json: string)
    requires front != [] && IsObject(json)
    ensures !IsObject(front + json)
  {
    var all := front + json;
    if IsObject(all) {
      var l := Read(Outside(0), front);
      assert all[..|front|] == front;
      assert Open(l);
      ReadInTwo(Outside(0), front, json);
      if l.Outside? {
        ReadDeeper(json, l.depth);
      } else {
        var rest := json[1..];
        assert json == ['{'] + rest;
        ReadInTwo(l, ['{'], rest);
        ReadInTwo(Outside(0), ['{'], rest);
        assert Read(l, ['{']) == Next(l, '{') && Read(Outside(0), ['{']) == Outside(1);
        OppositeStays(rest, Next(l, '{'), Outside(1));
      }
    }
  }

  /** So a text ends in one object at most. */
  lemma OneObjectAtTheEnd(a: string, json: string, b: string, other: string)
    requires IsObject(json) && IsObject(other) && a + json == b + other
    ensures a == b && json == other
  {
    var t := a + json;
    assert json == t[|a|..] && other == t[|b|..] && a == t[..|a|] && b == t[..|b|];
    if |a| < |b| {
      assert json == t[|a|..|b|] + other;
      NoObjectInTheEnd(t[|a|..|b|], other);
    } else if |b| < |a| {
      assert other == t[|b|..|a|] + json;
      NoObjectInTheEnd(t[|b|..|a|], json);
    }
  }

  // ---- every serialised object is one --------------------------------------

  predicate IsToken(text: string) {
    forall i :: 0 <= i < |text| ==> text[i] !in "\"\\{}[]"
  }

  /** `null`, the two truth values and the numbers. */
  type Token = text: string | IsToken(text) witness "null"

  datatype Json = Plain(token: Token) | Text(text: string) | List(items: seq<Json>) | Object(fields: seq<Field>)
  datatype Field = Field(name: string, value: Json)

  function Hex(d: nat): char
    requires d < 16
  {
    if d < 10 then (d + '0' as int) as char else (d - 10 + 'a' as int) as char
  }

  function EscapedChar(c: char): string {
    if c == '\"' then "\\\""
    else if c == '\\' then "\\\\"
    else if c == '\U{8}' then "\\b"
    else if c == '\t' then "\\t"
    else if c == '\n' then "\\n"
    else if c == '\U{C}' then "\\f"
    else if c == '\r' then "\\r"
    else if c < ' ' then "\\u00" + [Hex(c as int / 16)] + [Hex(c as int % 16)]
    else [c]
  }

  function EscapedText(text: string): string {
    if text == [] then "" else EscapedText(text[..|text| - 1]) + EscapedChar(text[|text| - 1])
  }

  function Quoted(text: string): string {
    ['\"'] + EscapedText(text) + ['\"']
  }

  /** Compact, as the journal writes it. */
  function Serialized(json: Json): string {
    match json
    case Plain(token) => token
    case Text(text) => Quoted(text)
    case List(items) => ['['] + ItemsText(items) + [']']
    case Object(fields) => ['{'] + FieldsText(fields) + ['}']
  }

  function ItemsText(items: seq<Json>): string {
    if items == [] then ""
    else
      var n := |items| - 1;
      var last := Serialized(items[n]);
      if n == 0 then last else ItemsText(items[..n]) + "," + last
  }

  function FieldsText(fields: seq<Field>): string {
    if fields == [] then ""
    else
      var n := |fields| - 1;
      var last := Quoted(fields[n].name) + ":" + Serialized(fields[n].value);
      if n == 0 then last else FieldsText(fields[..n]) + "," + last
  }

  /** The text leads from one reader to another and never out of the brackets open. */
  ghost predicate Leads(l: Lex, text: string, m: Lex, depth: int) {
    && Read(l, text) == m
    && forall n :: 0 <= n <= |text| ==> AtLeast(Read(l, text[..n]), depth)
  }

  predicate AtLeast(l: Lex, depth: int) {
    !l.Broken? && l.depth >= depth
  }

  lemma LeadsOn(l: Lex, a: string, m: Lex, b: string, k: Lex, depth: int)
    requires Leads(l, a, m, depth) && Leads(m, b, k, depth)
    ensures Leads(l, a + b, k, depth)
  {
    ReadInTwo(l, a, b);
    forall n | 0 <= n <= |a + b|
      ensures AtLeast(Read(l, (a + b)[..n]), depth)
    {
      if n <= |a| {
        assert (a + b)[..n] == a[..n];
      } else {
        assert (a + b)[..n] == a + b[..n - |a|];
        ReadInTwo(l, a, b[..n - |a|]);
      }
    }
  }

  lemma OneCharLeads(l: Lex, c: char, depth: int)
    requires AtLeast(l, depth) && AtLeast(Next(l, c), depth)
    ensures Leads(l, [c], Next(l, c), depth)
  {
    assert [c][..0] == [];
    assert [c][..1] == [c];
  }

  lemma {:induction false} TokenLeads(token: Token, depth: int)
    ensures Leads(Outside(depth), token, Outside(depth), depth)
  {
    if token == [] {
    } else {
      var n := |token| - 1;
      TokenLeads(token[..n], depth);
      OneCharLeads(Outside(depth), token[n], depth);
      LeadsOn(Outside(depth), token[..n], Outside(depth), [token[n]], Outside(depth), depth);
      assert token == token[..n] + [token[n]];
    }
  }

  /** Characters that mean nothing inside a string. */
  lemma {:induction false} InnerLeads(text: string, depth: int)
    requires '\"' !in text && '\\' !in text
    ensures Leads(InString(depth), text, InString(depth), depth)
  {
    if text != [] {
      var n := |text| - 1;
      InnerLeads(text[..n], depth);
      OneCharLeads(InString(depth), text[n], depth);
      LeadsOn(InString(depth), text[..n], InString(depth), [text[n]], InString(depth), depth);
      assert text == text[..n] + [text[n]];
    }
  }

  lemma PairLeads(c: char, depth: int)
    ensures Leads(InString(depth), ['\\'] + [c], InString(depth), depth)
  {
    OneCharLeads(InString(depth), '\\', depth);
    OneCharLeads(Escaped(depth), c, depth);
    LeadsOn(InString(depth), ['\\'], Escaped(depth), [c], InString(depth), depth);
  }

  lemma EscapedCharLeads(c: char, depth: int)
    ensures Leads(InString(depth), EscapedChar(c), InString(depth), depth)
  {
    var text := EscapedChar(c);
    if text[0] == '\\' {
      PairLeads(text[1], depth);
      InnerLeads(text[2..], depth);
      LeadsOn(InString(depth), ['\\'] + [text[1]], InString(depth), text[2..], InString(depth), depth);
      assert text == ['\\'] + [text[1]] + text[2..];
    } else {
      InnerLeads(text, depth);
    }
  }

  lemma {:induction false} EscapedTextLeads(text: string, depth: int)
    ensures Leads(InString(depth), EscapedText(text), InString(depth), depth)
  {
    if text != [] {
      var n := |text| - 1;
      EscapedTextLeads(text[..n], depth);
      EscapedCharLeads(text[n], depth);
      LeadsOn(InString(depth), EscapedText(text[..n]), InString(depth), EscapedChar(text[n]), InString(depth), depth);
    }
  }

  lemma QuotedLeads(text: string, depth: int)
    ensures Leads(Outside(depth), Quoted(text), Outside(depth), depth)
  {
    OneCharLeads(Outside(depth), '\"', depth);
    EscapedTextLeads(text, depth);
    OneCharLeads(InString(depth), '\"', depth);
    LeadsOn(Outside(depth), ['\"'], InString(depth), EscapedText(text), InString(depth), depth);
    LeadsOn(Outside(depth), ['\"'] + EscapedText(text), InString(depth), ['\"'], Outside(depth), depth);
  }

  lemma Shallower(l: Lex, text: string, m: Lex, depth: int)
    requires Leads(l, text, m, depth + 1)
    ensures Leads(l, text, m, depth)
  {
  }

  lemma InBrackets(open: char, inner: string, close: char, depth: int)
    requires open in "[{" && close in "]}"
    requires Leads(Outside(depth + 1), inner, Outside(depth + 1), depth + 1)
    ensures Leads(Outside(depth), [open] + inner + [close], Outside(depth), depth)
  {
    OneCharLeads(Outside(depth), open, depth);
    Shallower(Outside(depth + 1), inner, Outside(depth + 1), depth);
    OneCharLeads(Outside(depth + 1), close, depth);
    LeadsOn(Outside(depth), [open], Outside(depth + 1), inner, Outside(depth + 1), depth);
    LeadsOn(Outside(depth), [open] + inner, Outside(depth + 1), [close], Outside(depth), depth);
  }

  lemma AfterComma(front: string, last: string, depth: int)
    requires Leads(Outside(depth), front, Outside(depth), depth) && Leads(Outside(depth), last, Outside(depth), depth)
    ensures Leads(Outside(depth), front + "," + last, Outside(depth), depth)
  {
    OneCharLeads(Outside(depth), ',', depth);
    LeadsOn(Outside(depth), front, Outside(depth), ",", Outside(depth), depth);
    LeadsOn(Outside(depth), front + ",", Outside(depth), last, Outside(depth), depth);
  }

  lemma FieldLeads(name: string, value: string, depth: int)
    requires Leads(Outside(depth), value, Outside(depth), depth)
    ensures Leads(Outside(depth), Quoted(name) + ":" + value, Outside(depth), depth)
  {
    QuotedLeads(name, depth);
    OneCharLeads(Outside(depth), ':', depth);
    LeadsOn(Outside(depth), Quoted(name), Outside(depth), ":", Outside(depth), depth);
    LeadsOn(Outside(depth), Quoted(name) + ":", Outside(depth), value, Outside(depth), depth);
  }

  lemma {:induction false} SerializedLeads(json: Json, depth: int)
    ensures Leads(Outside(depth), Serialized(json), Outside(depth), depth)
    decreases json
  {
    match json
    case Plain(token) => TokenLeads(token, depth);
    case Text(text) => QuotedLeads(text, depth);
    case List(items) =>
      ItemsLead(items, depth + 1);
      InBrackets('[', ItemsText(items), ']', depth);
    case Object(fields) =>
      FieldsLead(fields, depth + 1);
      InBrackets('{', FieldsText(fields), '}', depth);
  }

  lemma {:induction false} ItemsLead(items: seq<Json>, depth: int)
    ensures Leads(Outside(depth), ItemsText(items), Outside(depth), depth)
    decreases items
  {
    if items != [] {
      var n := |items| - 1;
      SerializedLeads(items[n], depth);
      if n > 0 {
        ItemsLead(items[..n], depth);
        AfterComma(ItemsText(items[..n]), Serialized(items[n]), depth);
      }
    }
  }

  lemma {:induction false} FieldsLead(fields: seq<Field>, depth: int)
    ensures Leads(Outside(depth), FieldsText(fields), Outside(depth), depth)
    decreases fields
  {
    if fields != [] {
      var n := |fields| - 1;
      SerializedLeads(fields[n].value, depth);
      FieldLeads(fields[n].name, Serialized(fields[n].value), depth);
      if n > 0 {
        FieldsLead(fields[..n], depth);
        AfterComma(FieldsText(fields[..n]), Quoted(fields[n].name) + ":" + Serialized(fields[n].value), depth);
      }
    }
  }

  /** Whatever its fields, a serialised object is closed by its last character only. */
  lemma ObjectsAreObjects(fields: seq<Field>)
    ensures IsObject(Serialized(Object(fields)))
  {
    var inner := FieldsText(fields);
    var text := ['{'] + inner + ['}'];
    SerializedLeads(Object(fields), 0);
    FieldsLead(fields, 1);
    forall n | 0 < n < |text|
      ensures Open(Read(Outside(0), text[..n]))
    {
      assert text[..n] == ['{'] + inner[..n - 1];
      ReadInTwo(Outside(0), ['{'], inner[..n - 1]);
      assert Read(Outside(0), ['{']) == Outside(1);
    }
  }
}
