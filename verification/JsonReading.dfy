/** Reading JSON strings, by section 7 of RFC 8259: what is quoted for a key or the catalog reads back as it was. */
module JsonReading {
  import opened Wrappers
  import R = RelationKey

  function HexValue(c: char): Option<nat> {
    if '0' <= c <= '9' then Some(c as int - 48)
    else if 'a' <= c <= 'f' then Some(c as int - 87)
    else if 'A' <= c <= 'F' then Some(c as int - 55)
    else None
  }

  /** The character a one-letter escape stands for. */
  function ShortEscape(c: char): Option<char> {
    match c
    case '"' => Some('"')
    case '\\' => Some('\\')
    case '/' => Some('/')
    case 'b' => Some(8 as char)
    case 'f' => Some(12 as char)
    case 'n' => Some(10 as char)
    case 'r' => Some(13 as char)
    case 't' => Some(9 as char)
    case _ => None
  }

  /** The character that four hexadecimal digits stand for; halves of a pair are not read. */
  function FourDigits(s: string): Option<char>
    requires |s| >= 4
  {
    match (HexValue(s[0]), HexValue(s[1]), HexValue(s[2]), HexValue(s[3]))
    case (Some(a), Some(b), Some(c), Some(d)) =>
      if a < 16 && b < 16 && c < 16 && d < 16 && !(a == 13 && b >= 8)
      then Some((4096 * a + 256 * b + 16 * c + d) as char) else None
    case _ => None
  }

  /** The first character of the inside of a string, and how many characters write it. */
  function ReadChar(s: string): Option<(char, nat)>
    requires s != ""
  {
    if s[0] == '"' || s[0] as int < 32 then None
    else if s[0] != '\\' then Some((s[0], 1))
    else if |s| < 2 then None
    else if s[1] != 'u' then
      match ShortEscape(s[1]) case Some(c) => Some((c, 2)) case None => None
    else if |s| < 6 then None
    else match FourDigits(s[2..]) case Some(c) => Some((c, 6)) case None => None
  }

  /** The string inside the quotes, and the text behind the closing one. */
  function ReadInside(s: string): Option<(string, string)>
    decreases |s|
  {
    if s == "" then None
    else if s[0] == '"' then Some(("", s[1..]))
    else
      match ReadChar(s)
      case Some((c, width)) =>
        if width == 0 || width > |s| then None
        else (match ReadInside(s[width..]) case Some((rest, tail)) => Some(([c] + rest, tail)) case None => None)
      case None => None
  }

  function ReadString(s: string): Option<(string, string)> {
    if s != "" && s[0] == '"' then ReadInside(s[1..]) else None
  }

  lemma EscapeReads(c: char, tail: string)
    ensures ReadChar(R.Escape(c) + tail) == Some((c, |R.Escape(c)|))
  {
    var s := R.Escape(c) + tail;
    if c as int in {8, 9, 10, 12, 13} {
    } else if c as int < 32 {
      ControlReads(c, tail);
    }
  }

  lemma HexReads(i: nat)
    requires i < 16
    ensures HexValue(R.HEX[i]) == Some(i)
  {
  }

  lemma ControlReads(c: char, tail: string)
    requires c as int < 32 && c as int !in {8, 9, 10, 12, 13}
    ensures ReadChar(R.Escape(c) + tail) == Some((c, |R.Escape(c)|))
  {
    var i, j := c as int / 16, c as int % 16;
    HexReads(i);
    HexReads(j);
    HexReads(0);
    var s := R.Escape(c) + tail;
    assert R.Escape(c) == "\\u00" + [R.HEX[i], R.HEX[j]];
    assert R.HEX[0] == '0';
    var digits := s[2..];
    assert digits[0] == '0' && digits[1] == '0' && digits[2] == R.HEX[i] && digits[3] == R.HEX[j];
    hide R.Escape;
    assert c as int == 16 * i + j;
    assert FourDigits(digits) == Some((16 * i + j) as char);
  }

  /** Whatever string is quoted, reading it back gives that string and leaves what stands behind it. */
  lemma {:induction false} BodyReads(s: string, tail: string)
    ensures ReadInside(R.Body(s) + "\"" + tail) == Some((s, tail))
    decreases |s|
  {
    R.BodySplit(s, tail);
    if s == "" {
      hide R.Body;
      assert ("\"" + tail)[1..] == tail;
    } else {
      hide R.Escape, R.Body, ReadChar, ReadInside;
      var e, rest := R.Escape(s[0]), R.Body(s[1..]) + "\"" + tail;
      BodyReads(s[1..], tail);
      EscapeReads(s[0], rest);
      R.EscapeIsNotQuote(s[0]);
      assert (e + rest)[|e|..] == rest && (e + rest)[0] == e[0];
      InsideStep(e + rest, s[0], |e|, s[1..], tail);
      assert s == [s[0]] + s[1..];
    }
  }

  lemma InsideStep(s: string, c: char, width: nat, more: string, tail: string)
    requires s != "" && s[0] != '"' && ReadChar(s) == Some((c, width)) && 0 < width <= |s|
    requires ReadInside(s[width..]) == Some((more, tail))
    ensures ReadInside(s) == Some(([c] + more, tail))
  {
    hide ReadChar;
  }

  lemma QuoteReads(s: string, tail: string)
    ensures ReadString(R.Quote(s) + tail) == Some((s, tail))
  {
    BodyReads(s, tail);
    hide R.Body;
    assert (R.Quote(s) + tail)[1..] == R.Body(s) + "\"" + tail;
  }

  /** A key is a JSON array of two strings, which read back as schema and name. */
  lemma KeyReads(schema: string, name: string)
    ensures
      var key := R.Key(schema, name);
      && key != "" && key[0] == '['
      && var first := ReadString(key[1..]);
         && first.Some? && first.value.0 == schema && first.value.1 != "" && first.value.1[0] == ','
         && ReadString(first.value.1[1..]) == Some((name, "]"))
  {
    hide R.Quote, ReadString;
    QuoteReads(schema, "," + R.Quote(name) + "]");
    QuoteReads(name, "]");
    var key := R.Key(schema, name);
    assert key[1..] == R.Quote(schema) + ("," + R.Quote(name) + "]");
    assert ("," + R.Quote(name) + "]")[1..] == R.Quote(name) + "]";
  }
}
