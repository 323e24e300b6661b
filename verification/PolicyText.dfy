/**
 The strings of the generated policy file. The promotion writes each path as a JSON string; the
 checkpoint module reads it as a basic string of TOML 1.0.
 */
module PolicyText {
  import opened Wrappers
  import opened JsonText

  const DELETE := '\U{7F}'

  /** The control characters that a basic string must not hold as they are. */
  predicate Forbidden(c: char) {
    c <= '\U{8}' || '\U{A}' <= c <= '\U{1F}' || c == DELETE
  }

  function HexValue(c: char): Option<nat> {
    if '0' <= c <= '9' then Some(c as int - '0' as int)
    else if 'a' <= c <= 'f' then Some(c as int - 'a' as int + 10)
    else if 'A' <= c <= 'F' then Some(c as int - 'A' as int + 10)
    else None
  }

  /** The character behind `\u`, if the digits name one. */
  function HexChar(digits: string): Option<char>
    requires |digits| == 4
  {
    var a, b, c, d := HexValue(digits[0]), HexValue(digits[1]), HexValue(digits[2]), HexValue(digits[3]);
    if a.None? || b.None? || c.None? || d.None? then None
    else
      var code := ((a.value * 16 + b.value) * 16 + c.value) * 16 + d.value;
      if 0 <= code < 0xD800 || 0xE000 <= code < 0x10000 then Some(code as char) else None
  }

  /**
   One escape sequence after its backslash: the character, and how long the sequence is. JSON never
   writes the form with eight digits.
   */
  function ReadEscape(text: string): Option<(char, nat)>
    ensures ReadEscape(text).Some? ==> 0 < ReadEscape(text).value.1 <= |text|
  {
    if text == "" then None
    else
      match text[0]
      case '"' => Some(('"', 1))
      case '\\' => Some(('\\', 1))
      case 'b' => Some(('\U{8}', 1))
      case 't' => Some(('\t', 1))
      case 'n' => Some(('\n', 1))
      case 'f' => Some(('\U{C}', 1))
      case 'r' => Some(('\r', 1))
      case 'u' =>
        if |text| < 5 || HexChar(text[1..5]).None? then None else Some((HexChar(text[1..5]).value, 5))
      case _ => None
  }

  /** What follows the opening quote, up to the closing quote at the very end. */
  function ReadBody(text: string): Option<string>
    decreases |text|
  {
    if text == "" then None
    else if text[0] == '"' then if |text| == 1 then Some("") else None
    else if text[0] == '\\' then
      var escape := ReadEscape(text[1..]);
      if escape.None? then None else Before(escape.value.0, ReadBody(text[1 + escape.value.1..]))
    else if Forbidden(text[0]) then None
    else Before(text[0], ReadBody(text[1..]))
  }

  function Before(c: char, rest: Option<string>): Option<string> {
    if rest.None? then None else Some([c] + rest.value)
  }

  function ReadString(text: string): Option<string> {
    if text == "" || text[0] != '"' then None else ReadBody(text[1..])
  }

  lemma ControlIsRead(c: char)
    requires c < ' '
    ensures HexChar("00" + [HexDigit(c as int / 16)] + [HexDigit(c as int % 16)]) == Some(c)
  {
  }

  lemma ShortEscapeIsRead(c: char, rest: string)
    requires |Escape(c)| == 2
    ensures ReadEscape(Escape(c)[1..] + rest) == Some((c, 1))
  {
    var text := Escape(c)[1..] + rest;
    assert text[0] == Escape(c)[1];
  }

  lemma LongEscapeIsRead(c: char, rest: string)
    requires |Escape(c)| > 2
    ensures |Escape(c)| == 6 && ReadEscape(Escape(c)[1..] + rest) == Some((c, 5))
  {
    var digits := "00" + [HexDigit(c as int / 16)] + [HexDigit(c as int % 16)];
    var text := Escape(c)[1..] + rest;
    ControlIsRead(c);
    assert Escape(c) == "\\u" + digits;
    assert Escape(c)[1..] == "u" + digits;
    assert text[1..5] == digits;
  }

  lemma OneCharacter(c: char, rest: string)
    requires |Escape(c)| == 1
    ensures ReadBody(Escape(c) + rest) == if c == DELETE then None else Before(c, ReadBody(rest))
  {
    assert Escape(c) == [c];
    assert ([c] + rest)[1..] == rest;
  }

  lemma ReadOneEscape(e: string, c: char, rest: string)
    requires |e| >= 2 && e[0] == '\\' && ReadEscape(e[1..] + rest) == Some((c, |e| - 1))
    ensures ReadBody(e + rest) == Before(c, ReadBody(rest))
  {
    var text := e + rest;
    assert text[1..] == e[1..] + rest && text[|e|..] == rest;
  }

  /** The JSON escape of a character is read as this character. DELETE is not escaped, and not allowed. */
  lemma EscapeIsRead(c: char, rest: string)
    ensures ReadBody(Escape(c) + rest) == if c == DELETE then None else Before(c, ReadBody(rest))
  {
    if |Escape(c)| == 1 {
      OneCharacter(c, rest);
    } else if |Escape(c)| == 2 {
      ShortEscapeIsRead(c, rest);
      ReadOneEscape(Escape(c), c, rest);
    } else {
      LongEscapeIsRead(c, rest);
      ReadOneEscape(Escape(c), c, rest);
    }
  }

  lemma {:induction false} BodyIsRead(s: string)
    ensures ReadBody(EscapeAll(s) + "\"") == if DELETE in s then None else Some(s)
  {
    if s == "" {
      assert EscapeAll(s) + "\"" == "\"";
    } else {
      var rest := EscapeAll(s[1..]) + "\"";
      BodyIsRead(s[1..]);
      EscapeIsRead(s[0], rest);
      assert EscapeAll(s) + "\"" == Escape(s[0]) + rest;
      assert s == [s[0]] + s[1..];
      assert DELETE in s <==> s[0] == DELETE || DELETE in s[1..];
    }
  }

  /** A string comes back from the policy file iff it does not hold DELETE; otherwise the file is refused. */
  lemma PolicyStringRoundTrip(s: string)
    ensures ReadString(Quote(s)) == if DELETE in s then None else Some(s)
  {
    BodyIsRead(s);
    assert Quote(s)[1..] == EscapeAll(s) + "\"";
  }
}
