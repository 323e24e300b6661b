/**
 The JSON text of a value, as `json.dumps` writes it without spaces and without `ensure_ascii`: quotes,
 backslashes and the control characters below U+0020 are escaped, every other character stays.
 */
module JsonText {
  /** The text of a number, or one of the three JSON words. */
  type Plain = s: string | forall c <- s :: '!' <= c <= '~' && c != '"' && c != '\\' witness "0"

  /** A value, with the fields of an object in the order in which they are written. */
  datatype Term = Atom(plain: Plain) | Text(text: string) | List(items: Items) | Record(fields: Fields)

  datatype Items = NoItem | Item(first: Term, rest: Items)

  datatype Fields = NoField | Field(key: string, value: Term, rest: Fields)

  function HexDigit(n: nat): char
    requires n < 16
  {
    "0123456789abcdef"[n]
  }

  function Escape(c: char): string {
    if c == '"' then "\\\""
    else if c == '\\' then "\\\\"
    else if c == '\n' then "\\n"
    else if c == '\r' then "\\r"
    else if c == '\t' then "\\t"
    else if c == '\U{C}' then "\\f"
    else if c == '\U{8}' then "\\b"
    else if c < ' ' then "\\u00" + [HexDigit(c as int / 16)] + [HexDigit(c as int % 16)]
    else [c]
  }

  function EscapeAll(s: string): string {
    if s == "" then "" else Escape(s[0]) + EscapeAll(s[1..])
  }

  function Quote(s: string): string {
    "\"" + EscapeAll(s) + "\""
  }

  function Encode(t: Term): string {
    match t
    case Atom(plain) => plain
    case Text(text) => Quote(text)
    case List(items) => "[" + EncodeItems(items) + "]"
    case Record(fields) => "{" + EncodeFields(fields) + "}"
  }

  function EncodeItems(items: Items): string {
    match items
    case NoItem => ""
    case Item(first, NoItem) => Encode(first)
    case Item(first, rest) => Encode(first) + "," + EncodeItems(rest)
  }

  function EncodeFields(fields: Fields): string {
    match fields
    case NoField => ""
    case Field(key, value, NoField) => Quote(key) + ":" + Encode(value)
    case Field(key, value, rest) => Quote(key) + ":" + Encode(value) + "," + EncodeFields(rest)
  }

  /** The punctuation of the text, on an object with a string, and a list of two numbers. */
  lemma EncodeShape(k: Plain, v: Plain, l: Plain, n: Plain)
    ensures var list := "[" + (n + "," + n) + "]";
            Encode(Record(Field(k, Text(v), Field(l, List(Item(Atom(n), Item(Atom(n), NoItem))), NoField))))
              == "{" + (InQuotes(k) + ":" + InQuotes(v) + "," + (InQuotes(l) + ":" + list)) + "}"
  {
    PlainIsKept(k);
    PlainIsKept(v);
    PlainIsKept(l);
    var items := Item(Atom(n), Item(Atom(n), NoItem));
    assert EncodeItems(Item(Atom(n), NoItem)) == n;
    assert EncodeItems(items) == n + "," + n;
    var rest := Field(l, List(items), NoField);
    assert EncodeFields(rest) == Quote(l) + ":" + Encode(List(items));
    assert EncodeFields(Field(k, Text(v), rest)) == Quote(k) + ":" + Quote(v) + "," + EncodeFields(rest);
    assert Quote(k) == InQuotes(k) && Quote(v) == InQuotes(v) && Quote(l) == InQuotes(l);
  }

  function InQuotes(s: string): string {
    "\"" + s + "\""
  }

  lemma {:induction false} PlainIsKept(s: string)
    requires forall i :: 0 <= i < |s| ==> '!' <= s[i] <= '~' && s[i] != '"' && s[i] != '\\'
    ensures EscapeAll(s) == s
  {
    if s != "" {
      PlainIsKept(s[1..]);
      assert Escape(s[0]) == [s[0]];
    }
  }
}
