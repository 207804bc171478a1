/** The JSON text used as the identity of a relation, and why two relations never share it. */
module RelationKey {

  /** A schema-qualified name, with its key: the JSON array of the two strings. */
  function Key(schema: string, name: string): string { "[" + Quote(schema) + "," + Quote(name) + "]" }

  function Quote(s: string): string { "\"" + Body(s) + "\"" }

  function Body(s: string): string { if s == "" then "" else Escape(s[0]) + Body(s[1..]) }

  const HEX := "0123456789abcdef"

  function Escape(c: char): string {
    if c == '"' then "\\\""
    else if c == '\\' then "\\\\"
    else if c == '\n' then "\\n"
    else if c == '\r' then "\\r"
    else if c == '\t' then "\\t"
    else if c as int == 8 then "\\b"
    else if c as int == 12 then "\\f"
    else if c as int < 32 then "\\u00" + [HEX[c as int / 16], HEX[c as int % 16]]
    else [c]
  }

  /** Equal escapes with arbitrary text behind them come from equal characters. */
  lemma EscapeInjective(a: char, b: char, s: string, t: string)
    requires Escape(a) + s == Escape(b) + t
    ensures a == b && s == t
  {
    var x, y := Escape(a) + s, Escape(b) + t;
    assert x[0] == Escape(a)[0] && y[0] == Escape(b)[0];
    if |Escape(a)| > 1 && |Escape(b)| > 1 {
      assert x[1] == Escape(a)[1] && y[1] == Escape(b)[1];
      if |Escape(a)| == 6 && |Escape(b)| == 6 {
        assert x[4] == HEX[a as int / 16] && x[5] == HEX[a as int % 16];
        assert y[4] == HEX[b as int / 16] && y[5] == HEX[b as int % 16];
        HexInjective(a as int / 16, b as int / 16);
        HexInjective(a as int % 16, b as int % 16);
        assert a as int == b as int;
      }
    }
    assert a == b;
    assert s == x[|Escape(a)|..] && t == y[|Escape(b)|..];
  }

  lemma HexInjective(i: nat, j: nat)
    requires i < 16 && j < 16 && HEX[i] == HEX[j]
    ensures i == j
  {
  }

  /** No escape starts with the closing quote. */
  lemma EscapeIsNotQuote(c: char)
    ensures Escape(c) != "" && Escape(c)[0] != '"'
  {
  }

  /** The first escape of a body, with its closing quote and what follows. */
  lemma BodySplit(a: string, s: string)
    ensures a == "" ==> Body(a) + "\"" + s == "\"" + s
    ensures a != "" ==> Body(a) + "\"" + s == Escape(a[0]) + (Body(a[1..]) + "\"" + s)
    ensures a != "" ==> (Body(a) + "\"" + s)[0] != '"'
  {
    hide Escape;
    if a != "" {
      EscapeIsNotQuote(a[0]);
      Associate(Escape(a[0]), Body(a[1..]), "\"", s);
    }
  }

  lemma Associate(a: string, b: string, c: string, d: string)
    ensures (a + b) + c + d == a + (b + c + d)
    ensures a != "" ==> (a + (b + c + d))[0] == a[0]
  {
  }

  lemma {:induction false} BodyInjective(a: string, b: string, s: string, t: string)
    requires Body(a) + "\"" + s == Body(b) + "\"" + t
    ensures a == b && s == t
    decreases |a|
  {
    hide Body, Escape;
    BodySplit(a, s);
    BodySplit(b, t);
    if a == "" || b == "" {
      assert s == ("\"" + s)[1..] && t == ("\"" + t)[1..];
    } else {
      EscapeInjective(a[0], b[0], Body(a[1..]) + "\"" + s, Body(b[1..]) + "\"" + t);
      BodyInjective(a[1..], b[1..], s, t);
      assert a == [a[0]] + a[1..] && b == [b[0]] + b[1..];
    }
  }

  function NamePart(name: string): string { Body(name) + "\"" + "]" }

  lemma KeyLayout(schema: string, name: string)
    ensures Key(schema, name) == "[\"" + (Body(schema) + "\"" + (",\"" + NamePart(name)))
  {
    hide Body;
  }

  /** Different relations have different keys. */
  lemma KeyInjective(schemaA: string, nameA: string, schemaB: string, nameB: string)
    requires Key(schemaA, nameA) == Key(schemaB, nameB)
    ensures schemaA == schemaB && nameA == nameB
  {
    hide Body, Key, NamePart;
    KeyLayout(schemaA, nameA);
    KeyLayout(schemaB, nameB);
    var restA, restB := ",\"" + NamePart(nameA), ",\"" + NamePart(nameB);
    DropFront("[\"", Body(schemaA) + "\"" + restA, Body(schemaB) + "\"" + restB);
    BodyInjective(schemaA, schemaB, restA, restB);
    DropFront(",\"", NamePart(nameA), NamePart(nameB));
    SameNamePart(nameA, nameB);
  }

  lemma SameNamePart(a: string, b: string)
    requires NamePart(a) == NamePart(b)
    ensures a == b
  {
    hide Body;
    BodyInjective(a, b, "]", "]");
  }

  lemma DropFront(front: string, s: string, t: string)
    requires front + s == front + t
    ensures s == t
  {
    assert s == (front + s)[|front|..] && t == (front + t)[|front|..];
  }
}
