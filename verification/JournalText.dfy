/**
 The journal file as text. A completed append writes the JSON text of one event and a line feed; a
 reader takes the file apart with `splitlines`, which knows more line ends than the line feed.

 Of the characters at which `splitlines` ends a line, JSON leaves U+0085, U+2028 and U+2029 as they are.
 They can only come from a string of the event.
 */
module JournalText {
  import opened JsonText

  /** The characters at which `splitlines` ends a line. */
  predicate EndsLine(c: char) {
    '\U{A}' <= c <= '\U{D}' || '\U{1C}' <= c <= '\U{1E}' || Separator(c)
  }

  /** The line ends that JSON does not escape. */
  predicate Separator(c: char) {
    c == '\U{85}' || c == '\U{2028}' || c == '\U{2029}'
  }

  function SplitLines(text: string): seq<string> {
    if text == "" then []
    else if EndsLine(text[0]) then
      [""] + SplitLines(text[if text[0] == '\r' && |text| > 1 && text[1] == '\n' then 2 else 1..])
    else
      var rest := SplitLines(text[1..]);
      if rest == [] then [[text[0]]] else [[text[0]] + rest[0]] + rest[1..]
  }

  /** The file after complete appends of these texts. */
  function FileOf(texts: seq<string>): string {
    if texts == [] then "" else texts[0] + "\n" + FileOf(texts[1..])
  }

  /** How many lines of a file end inside the text. */
  function LineEnds(s: string): nat {
    if s == "" then 0 else (if EndsLine(s[0]) then 1 else 0) + LineEnds(s[1..])
  }

  // ---------------------------------------------------------------- strings of a JSON text

  /** Where a reader of JSON stands: outside of strings, inside one, or behind a backslash inside one. */
  datatype Place = Outside | Inside | Escaped

  function Move(p: Place, c: char): Place {
    match p
    case Outside => if c == '"' then Inside else Outside
    case Inside => if c == '"' then Outside else if c == '\\' then Escaped else Inside
    case Escaped => Inside
  }

  function PlaceAfter(p: Place, text: string): Place
    decreases |text|
  {
    if text == "" then p else PlaceAfter(Move(p, text[0]), text[1..])
  }

  /** A line that ends inside a string is no JSON text. */
  predicate LeavesStringOpen(line: string) {
    PlaceAfter(Outside, line) != Outside
  }

  /** No control character, and every line end is inside a string. */
  predicate Harmless(p: Place, text: string)
    decreases |text|
  {
    text == "" || (text[0] >= ' ' && (EndsLine(text[0]) ==> p == Inside) && Harmless(Move(p, text[0]), text[1..]))
  }

  /** The text leads from one place to another, and holds `n` line ends, all of them inside strings. */
  predicate Leads(p: Place, text: string, q: Place, n: nat) {
    Harmless(p, text) && PlaceAfter(p, text) == q && LineEnds(text) == n
  }

  lemma {:induction false} LeadsOn(p: Place, a: string, q: Place, m: nat, b: string, r: Place, n: nat)
    requires Leads(p, a, q, m) && Leads(q, b, r, n)
    ensures Leads(p, a + b, r, m + n)
    decreases |a|
  {
    if a == "" {
      assert a + b == b;
    } else {
      assert (a + b)[1..] == a[1..] + b;
      LeadsOn(Move(p, a[0]), a[1..], q, LineEnds(a[1..]), b, r, n);
    }
  }

  /** How many line ends the strings of a value put into its text. */
  function Separators(s: string): nat {
    if s == "" then 0 else (if Separator(s[0]) then 1 else 0) + Separators(s[1..])
  }

  function SeparatorsOf(t: Term): nat {
    match t
    case Atom(_) => 0
    case Text(text) => Separators(text)
    case List(items) => SeparatorsOfItems(items)
    case Record(fields) => SeparatorsOfFields(fields)
  }

  function SeparatorsOfItems(items: Items): nat {
    match items
    case NoItem => 0
    case Item(first, rest) => SeparatorsOf(first) + SeparatorsOfItems(rest)
  }

  function SeparatorsOfFields(fields: Fields): nat {
    match fields
    case NoField => 0
    case Field(key, value, rest) => Separators(key) + SeparatorsOf(value) + SeparatorsOfFields(rest)
  }

  lemma LeadsOne(p: Place, text: string)
    requires |text| == 1 && text[0] >= ' ' && (EndsLine(text[0]) ==> p == Inside)
    ensures Leads(p, text, Move(p, text[0]), if EndsLine(text[0]) then 1 else 0)
  {
    assert text[1..] == "";
  }

  /** Letters and digits inside a string. */
  lemma {:induction false} LettersLead(text: string)
    requires forall c <- text :: '0' <= c <= 'z' && c != '\\'
    ensures Leads(Inside, text, Inside, 0)
  {
    if text != "" {
      assert text[0] in text && forall c <- text[1..] :: c in text;
      LettersLead(text[1..]);
    }
  }

  /** A backslash and the letters behind it. */
  lemma BackslashLeads(e: string)
    requires |e| >= 2 && e[0] == '\\' && ' ' <= e[1] <= '~'
    requires forall c <- e[2..] :: '0' <= c <= 'z' && c != '\\'
    ensures Leads(Inside, e, Inside, 0)
  {
    assert e == e[..1] + (e[1..2] + e[2..]);
    LeadsOne(Inside, e[..1]);
    LeadsOne(Escaped, e[1..2]);
    LettersLead(e[2..]);
    LeadsOn(Escaped, e[1..2], Inside, 0, e[2..], Inside, 0);
    LeadsOn(Inside, e[..1], Escaped, 0, e[1..2] + e[2..], Inside, 0);
  }

  lemma EscapeShape(c: char)
    ensures var e := Escape(c);
            || (|e| == 1 && e[0] == c >= ' ' && c != '"' && c != '\\')
            || (&& |e| >= 2 && e[0] == '\\' && ' ' <= e[1] <= '~' && (c < ' ' || c == '"' || c == '\\')
                && forall d <- e[2..] :: '0' <= d <= 'z' && d != '\\')
  {
  }

  lemma EscapeLeads(c: char)
    ensures Leads(Inside, Escape(c), Inside, if Separator(c) then 1 else 0)
  {
    EscapeShape(c);
    if |Escape(c)| == 1 {
      LeadsOne(Inside, Escape(c));
    } else {
      BackslashLeads(Escape(c));
    }
  }

  lemma {:induction false} EscapeAllLeads(s: string)
    ensures Leads(Inside, EscapeAll(s), Inside, Separators(s))
  {
    if s != "" {
      EscapeLeads(s[0]);
      EscapeAllLeads(s[1..]);
      LeadsOn(Inside, Escape(s[0]), Inside, if Separator(s[0]) then 1 else 0,
              EscapeAll(s[1..]), Inside, Separators(s[1..]));
    }
  }

  lemma QuoteLeads(s: string)
    ensures Leads(Outside, Quote(s), Outside, Separators(s))
  {
    LeadsOne(Outside, "\"");
    LeadsOne(Inside, "\"");
    EscapeAllLeads(s);
    LeadsOn(Outside, "\"", Inside, 0, EscapeAll(s), Inside, Separators(s));
    LeadsOn(Outside, "\"" + EscapeAll(s), Inside, Separators(s), "\"", Outside, 0);
  }

  lemma {:induction false} PlainLeads(plain: string)
    requires forall c <- plain :: '!' <= c <= '~' && c != '"' && c != '\\'
    ensures Leads(Outside, plain, Outside, 0)
  {
    if plain != "" {
      assert plain[0] in plain && forall c <- plain[1..] :: c in plain;
      PlainLeads(plain[1..]);
    }
  }

  /** The text between two punctuation marks. */
  lemma BracketsLead(open: string, text: string, close: string, n: nat)
    requires |open| == |close| == 1 && '#' <= open[0] <= '~' && '#' <= close[0] <= '~'
    requires Leads(Outside, text, Outside, n)
    ensures Leads(Outside, open + text + close, Outside, n)
  {
    LeadsOne(Outside, open);
    LeadsOne(Outside, close);
    LeadsOn(Outside, open, Outside, 0, text, Outside, n);
    LeadsOn(Outside, open + text, Outside, n, close, Outside, 0);
  }

  /** Two texts with a punctuation mark between them. */
  lemma JoinedLead(a: string, m: nat, mark: string, b: string, n: nat)
    requires |mark| == 1 && '#' <= mark[0] <= '~'
    requires Leads(Outside, a, Outside, m) && Leads(Outside, b, Outside, n)
    ensures Leads(Outside, a + mark + b, Outside, m + n)
  {
    LeadsOne(Outside, mark);
    LeadsOn(Outside, a, Outside, m, mark, Outside, 0);
    LeadsOn(Outside, a + mark, Outside, m, b, Outside, n);
  }

  /** The JSON text of a value ends outside of strings, and has a line end exactly for each separator in its strings. */
  lemma {:induction false} EncodedLeads(t: Term)
    ensures Leads(Outside, Encode(t), Outside, SeparatorsOf(t))
  {
    match t {
      case Atom(plain) => PlainLeads(plain);
      case Text(text) => QuoteLeads(text);
      case List(items) =>
        ItemsLead(items);
        BracketsLead("[", EncodeItems(items), "]", SeparatorsOfItems(items));
      case Record(fields) =>
        FieldsLead(fields);
        BracketsLead("{", EncodeFields(fields), "}", SeparatorsOfFields(fields));
    }
  }

  lemma {:induction false} ItemsLead(items: Items)
    ensures Leads(Outside, EncodeItems(items), Outside, SeparatorsOfItems(items))
  {
    if items.Item? {
      EncodedLeads(items.first);
      ItemsLead(items.rest);
      if items.rest.Item? {
        JoinedLead(Encode(items.first), SeparatorsOf(items.first), ",",
                   EncodeItems(items.rest), SeparatorsOfItems(items.rest));
      }
    }
  }

  lemma {:induction false} FieldsLead(fields: Fields)
    ensures Leads(Outside, EncodeFields(fields), Outside, SeparatorsOfFields(fields))
  {
    if fields.Field? {
      var first := Quote(fields.key) + ":" + Encode(fields.value);
      var n := Separators(fields.key) + SeparatorsOf(fields.value);
      QuoteLeads(fields.key);
      EncodedLeads(fields.value);
      JoinedLead(Quote(fields.key), Separators(fields.key), ":", Encode(fields.value), SeparatorsOf(fields.value));
      FieldsLead(fields.rest);
      if fields.rest.Field? {
        JoinedLead(first, n, ",", EncodeFields(fields.rest), SeparatorsOfFields(fields.rest));
      }
    }
  }

  // ---------------------------------------------------------------- what a reader gets

  /** The code points at which `splitlines` ends a line. */
  ghost predicate LineEndCode(code: int) {
    10 <= code <= 13 || 28 <= code <= 30 || code == 0x85 || code == 0x2028 || code == 0x2029
  }

  /** The text without its line ends. */
  ghost function Kept(text: string): string {
    if text == "" then "" else (if LineEndCode(text[0] as int) then "" else [text[0]]) + Kept(text[1..])
  }

  function Flat(lines: seq<string>): string {
    if lines == [] then "" else lines[0] + Flat(lines[1..])
  }

  /** The lines hold all characters of the text in their order, without its line ends. */
  lemma {:induction false} LinesLoseOnlyLineEnds(text: string)
    ensures Flat(SplitLines(text)) == Kept(text)
    decreases |text|
  {
    if text != "" {
      if EndsLine(text[0]) {
        var k := if text[0] == '\r' && |text| > 1 && text[1] == '\n' then 2 else 1;
        LinesLoseOnlyLineEnds(text[k..]);
        assert ([""] + SplitLines(text[k..]))[1..] == SplitLines(text[k..]);
        KeptBehind(text, k);
      } else {
        LinesLoseOnlyLineEnds(text[1..]);
        FirstCharacter(text[0], SplitLines(text[1..]));
      }
    }
  }

  lemma KeptBehind(text: string, k: nat)
    requires 1 <= k <= 2 && k <= |text| && forall i :: 0 <= i < k ==> LineEndCode(text[i] as int)
    ensures Kept(text) == Kept(text[k..])
  {
    if k == 2 {
      assert text[1..][0] == text[1] && text[1..][1..] == text[2..];
    }
  }

  lemma FirstCharacter(c: char, lines: seq<string>)
    ensures var all := if lines == [] then [[c]] else [[c] + lines[0]] + lines[1..];
            Flat(all) == [c] + Flat(lines)
  {
    if lines == [] {
      assert [[c]][1..] == [];
    } else {
      assert ([[c] + lines[0]] + lines[1..])[1..] == lines[1..];
    }
  }

  lemma {:induction false} HarmlessText(p: Place, text: string)
    requires Harmless(p, text)
    ensures '\r' !in text
    decreases |text|
  {
    if text != "" {
      assert text == [text[0]] + text[1..];
      HarmlessText(Move(p, text[0]), text[1..]);
    }
  }

  /** A text without line ends is one line of the file. */
  lemma {:induction false} OneLine(text: string, tail: string)
    requires LineEnds(text) == 0
    ensures SplitLines(text + "\n" + tail) == [text] + SplitLines(tail)
  {
    var all := text + "\n" + tail;
    if text == "" {
      assert all[1..] == tail;
    } else {
      assert text == [text[0]] + text[1..];
      assert all[1..] == text[1..] + "\n" + tail;
      OneLine(text[1..], tail);
    }
  }

  /** A separator anywhere in a text ends a line there. */
  lemma {:induction false} SeparatorEndsLine(a: string, c: char, rest: string)
    requires LineEnds(a) == 0 && Separator(c)
    ensures SplitLines(a + [c] + rest) == [a] + SplitLines(rest)
  {
    var all := a + [c] + rest;
    if a == "" {
      assert all[1..] == rest;
    } else {
      assert a == [a[0]] + a[1..];
      assert all[1..] == a[1..] + [c] + rest;
      SeparatorEndsLine(a[1..], c, rest);
    }
  }

  /** At every split point, with any separator: the record is read as two lines. */
  lemma SeparatorSplitsRecord(a: string, c: char, b: string)
    requires LineEnds(a) == 0 && LineEnds(b) == 0 && Separator(c)
    ensures SplitLines(FileOf([a + [c] + b])) == [a, b]
  {
    assert FileOf([a + [c] + b]) == a + [c] + (b + "\n" + "");
    SeparatorEndsLine(a, c, b + "\n" + "");
    OneLine(b, "");
  }

  /** The first line end of a JSON text is inside a string. */
  lemma {:induction false} FirstLineEnd(p: Place, text: string) returns (a: string, c: char, b: string)
    requires Harmless(p, text) && LineEnds(text) > 0
    ensures text == a + [c] + b && LineEnds(a) == 0 && Separator(c) && LineEnds(b) == LineEnds(text) - 1
    ensures PlaceAfter(p, a) == Inside
    decreases |text|
  {
    if EndsLine(text[0]) {
      a, c, b := "", text[0], text[1..];
    } else {
      var rest;
      rest, c, b := FirstLineEnd(Move(p, text[0]), text[1..]);
      a := [text[0]] + rest;
      assert a[1..] == rest;
    }
    assert text == a + [c] + b;
  }

  function TextsOf(events: seq<Term>): seq<string> {
    if events == [] then [] else [Encode(events[0])] + TextsOf(events[1..])
  }

  /** The names and the strings of a value. */
  ghost function StringsOf(t: Term): set<string> {
    match t
    case Atom(_) => {}
    case Text(text) => {text}
    case List(items) => StringsOfItems(items)
    case Record(fields) => StringsOfFields(fields)
  }

  ghost function StringsOfItems(items: Items): set<string> {
    match items
    case NoItem => {}
    case Item(first, rest) => StringsOf(first) + StringsOfItems(rest)
  }

  ghost function StringsOfFields(fields: Fields): set<string> {
    match fields
    case NoField => {}
    case Field(key, value, rest) => {key} + StringsOf(value) + StringsOfFields(rest)
  }

  /** The text holds none of U+0085, U+2028 and U+2029. */
  ghost predicate PlainText(s: string) {
    forall c <- s :: c != '\U{85}' && c != '\U{2028}' && c != '\U{2029}'
  }

  lemma {:induction false} NoSeparators(s: string)
    ensures Separators(s) == 0 <==> PlainText(s)
  {
    if s != "" {
      assert s == [s[0]] + s[1..] && s[0] in s;
      assert forall c <- s[1..] :: c in s;
      assert forall c <- s :: c == s[0] || c in s[1..];
      NoSeparators(s[1..]);
      assert PlainText(s) <==> !Separator(s[0]) && PlainText(s[1..]);
    }
  }

  lemma {:induction false} NoSeparatorsIn(t: Term)
    ensures SeparatorsOf(t) == 0 <==> forall s <- StringsOf(t) :: PlainText(s)
  {
    match t {
      case Atom(_) =>
      case Text(text) => NoSeparators(text);
      case List(items) => NoSeparatorsInItems(items);
      case Record(fields) => NoSeparatorsInFields(fields);
    }
  }

  lemma {:induction false} NoSeparatorsInItems(items: Items)
    ensures SeparatorsOfItems(items) == 0 <==> forall s <- StringsOfItems(items) :: PlainText(s)
  {
    if items.Item? {
      NoSeparatorsIn(items.first);
      NoSeparatorsInItems(items.rest);
    }
  }

  lemma {:induction false} NoSeparatorsInFields(fields: Fields)
    ensures SeparatorsOfFields(fields) == 0 <==> forall s <- StringsOfFields(fields) :: PlainText(s)
  {
    if fields.Field? {
      NoSeparators(fields.key);
      NoSeparatorsIn(fields.value);
      NoSeparatorsInFields(fields.rest);
    }
  }

  /** No name and no string of the events holds one of the three characters. */
  ghost predicate Clean(events: seq<Term>) {
    forall event <- events :: CleanEvent(event)
  }

  ghost predicate CleanEvent(event: Term) {
    forall s <- StringsOf(event) :: PlainText(s)
  }

  lemma {:induction false} CleanEventsAreLines(events: seq<Term>)
    requires Clean(events)
    ensures SplitLines(FileOf(TextsOf(events))) == TextsOf(events)
  {
    if events != [] {
      assert events[0] in events && forall event <- events[1..] :: event in events;
      CleanEventsAreLines(events[1..]);
      assert CleanEvent(events[0]);
      NoSeparatorsIn(events[0]);
      EncodedLeads(events[0]);
      OneLine(Encode(events[0]), FileOf(TextsOf(events[1..])));
      assert TextsOf(events)[1..] == TextsOf(events[1..]);
    }
  }

  lemma TextBreaksOff(text: string, tail: string)
    requires Harmless(Outside, text) && LineEnds(text) > 0
    ensures SplitLines(text + "\n" + tail) != [] && LeavesStringOpen(SplitLines(text + "\n" + tail)[0])
  {
    var a, c, b := FirstLineEnd(Outside, text);
    assert text + "\n" + tail == a + [c] + (b + "\n" + tail);
    SeparatorEndsLine(a, c, b + "\n" + tail);
  }

  lemma OthersAreUnclean(events: seq<Term>)
    requires events != [] && CleanEvent(events[0]) && !Clean(events)
    ensures !Clean(events[1..])
  {
    assert forall event <- events :: event == events[0] || event in events[1..];
  }

  /** The first event with a separator makes a line that no JSON reader accepts. */
  lemma {:induction false} UncleanEventBreaksLine(events: seq<Term>) returns (i: nat)
    requires !Clean(events)
    ensures i < |SplitLines(FileOf(TextsOf(events)))|
    ensures LeavesStringOpen(SplitLines(FileOf(TextsOf(events)))[i])
  {
    var first, tail := Encode(events[0]), FileOf(TextsOf(events[1..]));
    EncodedLeads(events[0]);
    NoSeparatorsIn(events[0]);
    assert TextsOf(events)[1..] == TextsOf(events[1..]);
    if SeparatorsOf(events[0]) > 0 {
      TextBreaksOff(first, tail);
      i := 0;
    } else {
      OthersAreUnclean(events);
      i := UncleanEventBreaksLine(events[1..]);
      OneLine(first, tail);
      i := i + 1;
    }
  }

  lemma EncodedIsClosed(t: Term)
    ensures !LeavesStringOpen(Encode(t))
  {
    EncodedLeads(t);
  }

  lemma {:induction false} TextsAreClosed(events: seq<Term>)
    ensures forall text <- TextsOf(events) :: !LeavesStringOpen(text)
  {
    if events != [] {
      EncodedIsClosed(events[0]);
      TextsAreClosed(events[1..]);
    }
  }

  /**
   A file of complete appends is readable iff no string of an event holds U+0085, U+2028 or U+2029: then
   its lines are the texts of the events; otherwise some line breaks off inside a string.
   */
  lemma CompleteAppendsAreReadable(events: seq<Term>)
    ensures var lines := SplitLines(FileOf(TextsOf(events)));
            && (Clean(events) <==> lines == TextsOf(events))
            && (Clean(events) <==> forall line <- lines :: !LeavesStringOpen(line))
  {
    TextsAreClosed(events);
    if Clean(events) {
      CleanEventsAreLines(events);
    } else {
      var i := UncleanEventBreaksLine(events);
      var lines := SplitLines(FileOf(TextsOf(events)));
      assert lines[i] in lines;
    }
  }

  // ---------------------------------------------------------------- a request that breaks the journal

  /** The names and fixed values in a request event. They are ASCII words without quotes and backslashes. */
  datatype Names = Names(
    schemaVersion: Plain, version: Plain, recordedAt: Plain, requestId: Plain, event: Plain, request: Plain,
    payload: Plain, actor: Plain, operation: Plain, arguments: Plain)

  /** A request with one string argument. */
  datatype Request = Request(id: string, actor: string, operation: string, name: string, argument: string)

  function PayloadOf(names: Names, r: Request): Term {
    Record(
      Field(names.schemaVersion, Text(names.version),
        Field(names.requestId, Text(r.id),
          Field(names.actor, Text(r.actor),
            Field(names.operation, Text(r.operation),
              Field(names.arguments, Record(Field(r.name, Text(r.argument), NoField)), NoField))))))
  }

  /** The event that the broker appends when a request arrives. */
  function RequestEvent(names: Names, recordedAt: string, r: Request): Term {
    Record(
      Field(names.schemaVersion, Text(names.version),
        Field(names.recordedAt, Text(recordedAt),
          Field(names.requestId, Text(r.id),
            Field(names.event, Text(names.request),
              Field(names.payload, PayloadOf(names, r), NoField))))))
  }

  lemma {:induction false} PlainIsClean(s: string)
    requires forall c <- s :: c <= '~'
    ensures Separators(s) == 0
  {
    if s != "" {
      assert s[0] in s && forall c <- s[1..] :: c in s;
      PlainIsClean(s[1..]);
    }
  }

  lemma FieldAdds(key: Plain, value: Term, rest: Fields)
    ensures SeparatorsOfFields(Field(key, value, rest)) == SeparatorsOf(value) + SeparatorsOfFields(rest)
  {
    PlainIsClean(key);
  }

  lemma PayloadSeparators(names: Names, r: Request)
    ensures SeparatorsOf(PayloadOf(names, r))
         == Separators(r.id) + Separators(r.actor) + Separators(r.operation)
            + Separators(r.name) + Separators(r.argument)
  {
    var arguments := Record(Field(r.name, Text(r.argument), NoField));
    var f5 := Field(names.arguments, arguments, NoField);
    var f4 := Field(names.operation, Text(r.operation), f5);
    var f3 := Field(names.actor, Text(r.actor), f4);
    var f2 := Field(names.requestId, Text(r.id), f3);
    assert SeparatorsOfFields(NoField) == 0;
    assert SeparatorsOfFields(Field(r.name, Text(r.argument), NoField)) == Separators(r.name) + Separators(r.argument);
    assert SeparatorsOf(arguments) == Separators(r.name) + Separators(r.argument);
    FieldAdds(names.arguments, arguments, NoField);
    FieldAdds(names.operation, Text(r.operation), f5);
    FieldAdds(names.actor, Text(r.actor), f4);
    FieldAdds(names.requestId, Text(r.id), f3);
    FieldAdds(names.schemaVersion, Text(names.version), f2);
    PlainIsClean(names.version);
  }

  /** The separators of a request event are those of the strings that the request brings along. */
  lemma RequestSeparators(names: Names, recordedAt: string, r: Request)
    ensures SeparatorsOf(RequestEvent(names, recordedAt, r))
         == Separators(recordedAt) + Separators(r.id) + SeparatorsOf(PayloadOf(names, r))
  {
    var f5 := Field(names.payload, PayloadOf(names, r), NoField);
    var f4 := Field(names.event, Text(names.request), f5);
    var f3 := Field(names.requestId, Text(r.id), f4);
    var f2 := Field(names.recordedAt, Text(recordedAt), f3);
    FieldAdds(names.payload, PayloadOf(names, r), NoField);
    FieldAdds(names.event, Text(names.request), f5);
    FieldAdds(names.requestId, Text(r.id), f4);
    FieldAdds(names.recordedAt, Text(recordedAt), f3);
    FieldAdds(names.schemaVersion, Text(names.version), f2);
    PlainIsClean(names.version);
    PlainIsClean(names.request);
  }

  /** Any event with one separator in its strings is read as two lines, the first with an open string. */
  lemma OneSeparatorTwoLines(event: Term) returns (a: string, end: char, b: string)
    requires SeparatorsOf(event) == 1
    ensures Separator(end) && Encode(event) == a + [end] + b
    ensures SplitLines(FileOf([Encode(event)])) == [a, b] && LeavesStringOpen(a)
  {
    EncodedLeads(event);
    a, end, b := FirstLineEnd(Outside, Encode(event));
    SeparatorSplitsRecord(a, end, b);
  }

  /** The complete append of a request whose argument holds the only separator is read as two lines. */
  lemma RequestIsReadAsTwoLines(
    names: Names, recordedAt: string, r: Request, before: string, c: char, after: string)
    returns (a: string, end: char, b: string)
    requires Separators(recordedAt) == Separators(r.id) == Separators(r.actor) == 0
    requires Separators(r.operation) == Separators(r.name) == Separators(before) == Separators(after) == 0
    requires r.argument == before + [c] + after && Separator(c)
    ensures var text := Encode(RequestEvent(names, recordedAt, r));
            Separator(end) && text == a + [end] + b && SplitLines(FileOf([text])) == [a, b]
    ensures LeavesStringOpen(a)
  {
    ArgumentHasOneSeparator(before, c, after);
    RequestSeparators(names, recordedAt, r);
    PayloadSeparators(names, r);
    a, end, b := OneSeparatorTwoLines(RequestEvent(names, recordedAt, r));
  }

  lemma {:induction false} SeparatorsInParts(a: string, b: string)
    ensures Separators(a + b) == Separators(a) + Separators(b)
  {
    if a == "" {
      assert a + b == b;
    } else {
      assert (a + b)[1..] == a[1..] + b;
      SeparatorsInParts(a[1..], b);
    }
  }

  /** The same for the text of a separator between two clean parts of an argument. */
  lemma ArgumentHasOneSeparator(before: string, c: char, after: string)
    requires Separators(before) == Separators(after) == 0 && Separator(c)
    ensures Separators(before + [c] + after) == 1
  {
    SeparatorsInParts(before, [c]);
    SeparatorsInParts(before + [c], after);
    assert [c][1..] == "";
  }

  // ---------------------------------------------------------------- one such file, letter by letter

  function Flatten(words: seq<string>): string {
    if words == [] then "" else words[0] + Flatten(words[1..])
  }

  ghost predicate Printable(words: seq<string>) {
    forall i, j :: 0 <= i < |words| && 0 <= j < |words[i]| ==> ' ' <= words[i][j] <= '~'
  }

  lemma {:induction false} PrintableWord(word: string)
    requires forall j :: 0 <= j < |word| ==> ' ' <= word[j] <= '~'
    ensures LineEnds(word) == 0
  {
    if word != "" {
      PrintableWord(word[1..]);
    }
  }

  lemma {:induction false} LineEndsInParts(a: string, b: string)
    ensures LineEnds(a + b) == LineEnds(a) + LineEnds(b)
  {
    if a == "" {
      assert a + b == b;
    } else {
      assert (a + b)[1..] == a[1..] + b;
      LineEndsInParts(a[1..], b);
    }
  }

  lemma {:induction false} PrintableHasNoLineEnd(words: seq<string>)
    requires Printable(words)
    ensures LineEnds(Flatten(words)) == 0
  {
    if words != [] {
      PrintableWord(words[0]);
      PrintableHasNoLineEnd(words[1..]);
      LineEndsInParts(words[0], Flatten(words[1..]));
    }
  }

  /** The event of a fact query: the fields of the event, then the payload up to the middle of its selector. */
  ghost predicate EventWords(words: seq<string>) {
    words == [
      "{\"schema_version\":", "\"1.0\",", "\"recorded_at\":", "\"2025-01-01T00:", "00:00.000Z\",",
      "\"request_id\":", "\"r-1\",", "\"event\":", "\"request\",", "\"payload\":"]
  }

  ghost predicate PayloadWords(words: seq<string>) {
    words == [
      "{\"schema_version\":", "\"1.0\",", "\"request_id\":", "\"r-1\",", "\"actor\":", "\"agent\",",
      "\"operation\":", "\"state.query\",", "\"arguments\":", "{\"selectors\":", "[\"cpu"]
  }

  ghost predicate RestWords(words: seq<string>) {
    words == ["memory\"]", "}}}"]
  }

  lemma EventIsPrintable(words: seq<string>)
    requires EventWords(words)
    ensures Printable(words)
  {
  }

  lemma PayloadIsPrintable(words: seq<string>)
    requires PayloadWords(words)
    ensures Printable(words)
  {
  }

  lemma RestIsPrintable(words: seq<string>)
    requires RestWords(words)
    ensures Printable(words)
  {
  }

  /** A complete append of this event, with a line separator in its selector, is read as two lines. */
  lemma RequestCanBeUnreadable(event: seq<string>, payload: seq<string>, rest: seq<string>)
    requires EventWords(event) && PayloadWords(payload) && RestWords(rest)
    ensures var before, after := Flatten(event) + Flatten(payload), Flatten(rest);
            SplitLines(FileOf([before + ['\U{2028}'] + after])) == [before, after]
  {
    EventIsPrintable(event);
    PayloadIsPrintable(payload);
    RestIsPrintable(rest);
    PrintableHasNoLineEnd(event);
    PrintableHasNoLineEnd(payload);
    PrintableHasNoLineEnd(rest);
    LineEndsInParts(Flatten(event), Flatten(payload));
    SeparatorSplitsRecord(Flatten(event) + Flatten(payload), '\U{2028}', Flatten(rest));
  }
}
