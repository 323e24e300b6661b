/** Splitting a text at a separator, and joining the parts again. */
module Text {
  function Split(s: string, separator: char): (parts: seq<string>)
    ensures |parts| > 0
  {
    if s == "" then [""]
    else
      var rest := Split(s[1..], separator);
      if s[0] == separator then [""] + rest else [[s[0]] + rest[0]] + rest[1..]
  }

  function Join(parts: seq<string>, separator: char): string {
    if parts == [] then ""
    else if |parts| == 1 then parts[0]
    else parts[0] + [separator] + Join(parts[1..], separator)
  }

  lemma {:induction false} JoinOfSplit(s: string, separator: char)
    ensures Join(Split(s, separator), separator) == s
    ensures forall part <- Split(s, separator) :: separator !in part
  {
    if s != "" {
      JoinOfSplit(s[1..], separator);
      var rest := Split(s[1..], separator);
      if s[0] == separator {
        assert ([""] + rest)[1..] == rest;
        assert s == "" + [separator] + s[1..];
      } else {
        var parts := [[s[0]] + rest[0]] + rest[1..];
        if |rest| > 1 {
          assert parts[1..] == rest[1..];
          assert ([s[0]] + rest[0]) + [separator] + Join(rest[1..], separator)
              == [s[0]] + (rest[0] + [separator] + Join(rest[1..], separator));
        }
        forall part | part in parts
          ensures separator !in part
        {
          assert part == parts[0] || part in rest[1..];
          assert rest[0] in rest;
        }
      }
    }
  }

  lemma {:induction false} SplitOfPlain(s: string, separator: char)
    requires separator !in s
    ensures Split(s, separator) == [s]
  {
    if s != "" {
      SplitOfPlain(s[1..], separator);
      assert s[0] in s && s == [s[0]] + s[1..];
    }
  }

  lemma {:induction false} SplitOfPrefix(part: string, tail: string, separator: char)
    requires separator !in part
    ensures Split(part + [separator] + tail, separator) == [part] + Split(tail, separator)
  {
    var s := part + [separator] + tail;
    if part == "" {
      assert s[1..] == tail;
    } else {
      assert part[0] in part && s[0] == part[0] && part == [part[0]] + part[1..];
      assert s[1..] == part[1..] + [separator] + tail;
      SplitOfPrefix(part[1..], tail, separator);
      assert ([part[1..]] + Split(tail, separator))[1..] == Split(tail, separator);
    }
  }

  lemma {:induction false} SplitOfJoin(parts: seq<string>, separator: char)
    requires parts != [] && forall part <- parts :: separator !in part
    ensures Split(Join(parts, separator), separator) == parts
  {
    if |parts| == 1 {
      SplitOfPlain(parts[0], separator);
      assert parts == [parts[0]];
    } else {
      SplitOfPrefix(parts[0], Join(parts[1..], separator), separator);
      SplitOfJoin(parts[1..], separator);
      assert parts == [parts[0]] + parts[1..];
    }
  }

  lemma {:induction false} SplitOfConcatenation(a: string, b: string, separator: char)
    ensures Split(a + [separator] + b, separator) == Split(a, separator) + Split(b, separator)
  {
    var s := a + [separator] + b;
    if a == "" {
      assert s[1..] == b;
    } else {
      assert s[1..] == a[1..] + [separator] + b;
      SplitOfConcatenation(a[1..], b, separator);
    }
  }
}
