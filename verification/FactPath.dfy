/**
 Selection of values inside a fact. The code walks all selected values together, one path segment
 at a time; the meaning is a walk of each value on its own.
 */
module FactPath {
  import opened Wrappers
  import opened Json
  import opened Text

  datatype PathError = NotAnArray | FieldMissing(field: string) | NotOneValue

  /** The values one item gives for one segment: all items of an array for "*", otherwise the named field. */
  function Select(item: Value, segment: string): (r: Result<seq<Value>, PathError>)
    ensures segment == "*" && item.Array? ==> r == Ok(item.items)
    ensures segment == "*" && !item.Array? ==> r == Err(NotAnArray)
    ensures segment != "*" && item.Object? && segment in item.fields ==> r == Ok([item.fields[segment]])
    ensures segment != "*" && (!item.Object? || segment !in item.fields) ==> r == Err(FieldMissing(segment))
  {
    if segment == "*" then
      if item.Array? then Ok(item.items) else Err(NotAnArray)
    else if item.Object? && segment in item.fields then Ok([item.fields[segment]])
    else Err(FieldMissing(segment))
  }

  /** The item has nothing for this segment, and this is the error that says so. */
  ghost predicate Fails(item: Value, segment: string, e: PathError) {
    if segment == "*" then !item.Array? && e == NotAnArray
    else (!item.Object? || segment !in item.fields) && e == FieldMissing(segment)
  }

  /** The reference meaning: everything below `value` along the path, or nothing if any branch fails. */
  function Descend(value: Value, segments: seq<string>): Option<seq<Value>>
    decreases |segments|, 0
  {
    if segments == [] then Some([value])
    else
      var next := Select(value, segments[0]);
      if next.Err? then None else DescendAll(next.value, segments[1..])
  }

  function DescendAll(values: seq<Value>, segments: seq<string>): Option<seq<Value>>
    decreases |segments|, 1 + |values|
  {
    if values == [] then Some([])
    else
      var first, rest := Descend(values[0], segments), DescendAll(values[1..], segments);
      if first.None? || rest.None? then None else Some(first.value + rest.value)
  }

  lemma {:induction false} DescendAllNothing(values: seq<Value>)
    ensures DescendAll(values, []) == Some(values)
  {
    if values != [] {
      DescendAllNothing(values[1..]);
      assert values == [values[0]] + values[1..];
    }
  }

  lemma {:induction false} DescendAllAppend(a: seq<Value>, b: seq<Value>, segments: seq<string>)
    ensures DescendAll(a + b, segments)
         == if DescendAll(a, segments).None? || DescendAll(b, segments).None? then None
            else Some(DescendAll(a, segments).value + DescendAll(b, segments).value)
  {
    if a == [] {
      assert a + b == b;
      if DescendAll(b, segments).Some? {
        assert [] + DescendAll(b, segments).value == DescendAll(b, segments).value;
      }
    } else {
      assert (a + b)[1..] == a[1..] + b;
      DescendAllAppend(a[1..], b, segments);
      if Descend(a[0], segments).Some? && DescendAll(a[1..], segments).Some? && DescendAll(b, segments).Some? {
        assert Descend(a[0], segments).value + (DescendAll(a[1..], segments).value + DescendAll(b, segments).value)
            == (Descend(a[0], segments).value + DescendAll(a[1..], segments).value) + DescendAll(b, segments).value;
      }
    }
  }

  lemma DescendAllOne(value: Value, segments: seq<string>)
    ensures DescendAll([value], segments) == Descend(value, segments)
  {
    if Descend(value, segments).Some? {
      assert Descend(value, segments).value + [] == Descend(value, segments).value;
    }
  }

  // ---------------------------------------------------------------- laws of the descent

  /** One field of an object. */
  lemma DescendField(value: Value, field: string)
    requires field != "*"
    ensures Descend(value, [field]) ==
              if value.Object? && field in value.fields then Some([value.fields[field]]) else None
  {
    assert [field] + [] == [field];
    DescendAllRest(value, field, []);
    if value.Object? && field in value.fields {
      DescendAllNothing([value.fields[field]]);
    }
  }

  /** All items of an array, in their order. */
  lemma DescendItems(value: Value)
    ensures Descend(value, ["*"]) == if value.Array? then Some(value.items) else None
  {
    assert ["*"] + [] == ["*"];
    DescendAllRest(value, "*", []);
    if value.Array? {
      DescendAllNothing(value.items);
    }
  }

  lemma DescendAllRest(value: Value, segment: string, rest: seq<string>)
    ensures Descend(value, [segment] + rest)
         == if Select(value, segment).Err? then None else DescendAll(Select(value, segment).value, rest)
  {
    assert ([segment] + rest)[1..] == rest;
  }

  /** A path in two parts: the second part goes on from every value that the first part gives. */
  lemma {:induction false} DescendInParts(value: Value, a: seq<string>, b: seq<string>)
    ensures Descend(value, a + b)
         == if Descend(value, a).None? then None else DescendAll(Descend(value, a).value, b)
    decreases |a|, 0
  {
    if a == [] {
      assert a + b == b;
      DescendAllOne(value, b);
    } else {
      assert (a + b)[1..] == a[1..] + b;
      if Select(value, a[0]).Ok? {
        DescendAllInParts(Select(value, a[0]).value, a[1..], b);
      }
    }
  }

  lemma {:induction false} DescendAllInParts(values: seq<Value>, a: seq<string>, b: seq<string>)
    ensures DescendAll(values, a + b)
         == if DescendAll(values, a).None? then None else DescendAll(DescendAll(values, a).value, b)
    decreases |a|, 1 + |values|
  {
    if values != [] {
      DescendInParts(values[0], a, b);
      DescendAllInParts(values[1..], a, b);
      if Descend(values[0], a).Some? && DescendAll(values[1..], a).Some? {
        DescendAllAppend(Descend(values[0], a).value, DescendAll(values[1..], a).value, b);
      }
    }
  }

  /** Without a wildcard in `p`, the path `p.q` gives what `q` gives on the value of `p`. */
  lemma DottedPath(value: Value, p: string, q: string, x: Value)
    requires Descend(value, Split(p, '.')) == Some([x])
    ensures Descend(value, Split(p + "." + q, '.')) == Descend(x, Split(q, '.'))
  {
    SplitOfConcatenation(p, q, '.');
    DescendInParts(value, Split(p, '.'), Split(q, '.'));
    DescendAllOne(x, Split(q, '.'));
  }

  /** Along every path, `values` give what `items` give with `segment` before it. */
  ghost predicate OneSegmentOn(items: seq<Value>, segment: string, values: seq<Value>) {
    forall rest: seq<string> :: DescendAll(items, [segment] + rest) == DescendAll(values, rest)
  }

  ghost predicate NoWayOn(items: seq<Value>, segment: string) {
    forall rest: seq<string> :: DescendAll(items, [segment] + rest).None?
  }

  lemma OneMoreItem(current: seq<Value>, n: nat, segment: string, values: seq<Value>)
    requires n < |current| && OneSegmentOn(current[..n], segment, values)
    ensures var next := Select(current[n], segment);
            if next.Err? then NoWayOn(current, segment)
            else OneSegmentOn(current[..n + 1], segment, values + next.value)
  {
    forall rest: seq<string>
      ensures var next := Select(current[n], segment);
              && (next.Ok? ==>
                    DescendAll(current[..n + 1], [segment] + rest) == DescendAll(values + next.value, rest))
              && (next.Err? ==> DescendAll(current, [segment] + rest).None?)
    {
      OneMore(current, n, segment, rest, values);
    }
  }

  /** All items of one level, after one segment. */
  method Level(current: seq<Value>, segment: string) returns (r: Result<seq<Value>, PathError>)
    ensures if r.Err? then NoWayOn(current, segment) else OneSegmentOn(current, segment, r.value)
    ensures r.Ok? && segment != "*" ==> FieldsOf(current, |current|, segment, r.value)
    ensures r.Err? ==> exists i :: 0 <= i < |current| && Fails(current[i], segment, r.error)
  {
    var values: seq<Value> := [];
    for n := 0 to |current|
      invariant OneSegmentOn(current[..n], segment, values)
      invariant segment != "*" ==> FieldsOf(current, n, segment, values)
    {
      var next := Select(current[n], segment);
      OneMoreItem(current, n, segment, values);
      if next.Err? {
        assert Fails(current[n], segment, next.error);
        return Err(next.error);
      }
      values := values + next.value;
    }
    assert current[..|current|] == current;
    r := Ok(values);
  }

  /** The values are the named fields of the first `n` items, in their order. */
  ghost predicate FieldsOf(items: seq<Value>, n: nat, segment: string, values: seq<Value>)
    requires n <= |items|
  {
    && |values| == n
    && forall i :: 0 <= i < n ==>
         items[i].Object? && segment in items[i].fields && values[i] == items[i].fields[segment]
  }

  lemma OneMore(current: seq<Value>, n: nat, segment: string, rest: seq<string>, values: seq<Value>)
    requires n < |current| && DescendAll(current[..n], [segment] + rest) == DescendAll(values, rest)
    ensures var next := Select(current[n], segment);
            && DescendAll(current[..n + 1], [segment] + rest)
                 == (if next.Err? then None else DescendAll(values + next.value, rest))
            && (next.Err? ==> DescendAll(current, [segment] + rest).None?)
  {
    var segments := [segment] + rest;
    assert segments[1..] == rest;
    assert current[..n + 1] == current[..n] + [current[n]];
    assert current == current[..n + 1] + current[n + 1..];
    DescendAllAppend(current[..n], [current[n]], segments);
    DescendAllOne(current[n], segments);
    DescendAllAppend(current[..n + 1], current[n + 1..], segments);
    var next := Select(current[n], segment);
    if next.Ok? {
      DescendAllAppend(values, next.value, rest);
    }
  }

  /** The first `k` segments reach `level`, and one of its values has nothing for the next segment. */
  ghost predicate FailsAt(value: Value, segments: seq<string>, k: nat, level: seq<Value>, item: Value, e: PathError) {
    && k < |segments| && Descend(value, segments[..k]) == Some(level)
    && item in level && Fails(item, segments[k], e)
  }

  lemma FailureStays(value: Value, a: seq<string>, b: seq<string>)
    requires Descend(value, a).None?
    ensures Descend(value, a + b).None?
  {
    DescendInParts(value, a, b);
  }

  /** One level further down. */
  lemma NextLevel(value: Value, segments: seq<string>, n: nat, current: seq<Value>, next: Result<seq<Value>, PathError>)
    requires n < |segments| && Descend(value, segments[..n]) == Some(current)
    requires if next.Err? then NoWayOn(current, segments[n]) else OneSegmentOn(current, segments[n], next.value)
    ensures next.Ok? ==> Descend(value, segments[..n + 1]) == Some(next.value)
    ensures next.Err? ==> Descend(value, segments).None?
  {
    assert segments[..n + 1] == segments[..n] + [segments[n]];
    DescendInParts(value, segments[..n], [segments[n]]);
    assert [segments[n]] + [] == [segments[n]];
    if next.Ok? {
      assert DescendAll(current, [segments[n]] + []) == DescendAll(next.value, []);
      DescendAllNothing(next.value);
    } else {
      assert DescendAll(current, [segments[n]] + []).None?;
      FailureStays(value, segments[..n + 1], segments[n + 1..]);
      assert segments == segments[..n + 1] + segments[n + 1..];
    }
  }

  /** The walk of all selected values together, along the segments. */
  method Walk(value: Value, segments: seq<string>) returns (r: Result<seq<Value>, PathError>)
    ensures Descend(value, segments) == if r.Err? then None else Some(r.value)
    ensures r.Ok? && "*" !in segments ==> |r.value| == 1
    ensures r.Err? ==> exists k, level, item :: FailsAt(value, segments, k, level, item, r.error)
  {
    var current := [value];
    for n := 0 to |segments|
      invariant Descend(value, segments[..n]) == Some(current)
      invariant "*" !in segments[..n] ==> |current| == 1
    {
      assert segments[..n + 1] == segments[..n] + [segments[n]];
      var next := Level(current, segments[n]);
      NextLevel(value, segments, n, current, next);
      if next.Err? {
        ghost var i :| 0 <= i < |current| && Fails(current[i], segments[n], next.error);
        assert FailsAt(value, segments, n, current, current[i], next.error);
        return Err(next.error);
      }
      current := next.value;
    }
    assert segments[..|segments|] == segments;
    r := Ok(current);
  }

  /**
   The selection. It fails exactly when some branch of the descent fails, and otherwise returns the
   same values in the same order; without a wildcard that is always exactly one value.
   */
  method ExtractFactPath(value: Value, path: Option<string>) returns (r: Result<Value, PathError>)
    ensures path.None? ==> r == Ok(value)
    ensures path.Some? ==>
              var segments := Split(path.value, '.');
              && (r.Err? <==> Descend(value, segments).None?)
              && (r.Ok? && "*" in segments ==> r.value == Array(Descend(value, segments).value))
              && (r.Ok? && "*" !in segments ==> Descend(value, segments) == Some([r.value]))
    // One field, and one wildcard, in their own terms.
    ensures path.Some? && '.' !in path.value && path.value != "*" ==>
              if value.Object? && path.value in value.fields then r == Ok(value.fields[path.value])
              else r == Err(FieldMissing(path.value))
    ensures path == Some("*") ==> r == if value.Array? then Ok(value) else Err(NotAnArray)
    // An error belongs to a value that the path reaches: it has no such field, or is no array.
    ensures r.Err? ==>
              && path.Some?
              && exists k, level, item {:trigger FailsAt(value, Split(path.value, '.'), k, level, item, r.error)} ::
                   FailsAt(value, Split(path.value, '.'), k, level, item, r.error)
  {
    if path.None? {
      return Ok(value);
    }
    var segments := Split(path.value, '.');
    if '.' !in path.value {
      OneSegment(value, path.value);
    }
    var walked := Walk(value, segments);
    if walked.Err? {
      return Err(walked.error);
    }
    if "*" in segments {
      return Ok(Array(walked.value));
    }
    if |walked.value| != 1 {
      return Err(NotOneValue);
    }
    assert walked.value == [walked.value[0]];
    return Ok(walked.value[0]);
  }

  /** A path of one segment. */
  lemma OneSegment(value: Value, text: string)
    requires '.' !in text
    ensures Split(text, '.') == [text]
    ensures text == "*" ==> Descend(value, [text]) == if value.Array? then Some(value.items) else None
    ensures text != "*" ==>
              Descend(value, [text]) ==
                if value.Object? && text in value.fields then Some([value.fields[text]]) else None
    ensures forall k, level, item, e :: FailsAt(value, [text], k, level, item, e) ==> Fails(value, text, e)
  {
    SplitOfPlain(text, '.');
    DescendItems(value);
    if text != "*" {
      DescendField(value, text);
    }
    forall k: nat, level, item, e | FailsAt(value, [text], k, level, item, e)
      ensures Fails(value, text, e)
    {
      assert [text][..k] == [];
    }
  }
}
