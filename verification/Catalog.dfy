/**
 The catalog of machine facts, their refresh classes, and the selection of facts by selectors.
 */
module Catalog {
  import opened Wrappers
  import opened Text

  datatype RefreshClass = Static | Dynamic

  datatype FactSpec = FactSpec(id: string, refreshClass: RefreshClass)

  const FACTS: seq<FactSpec> := [
    FactSpec("system.hostname", Static),
    FactSpec("system.os", Static),
    FactSpec("system.kernel", Static),
    FactSpec("system.omarchy.version", Static),
    FactSpec("packages.installed", Static),
    FactSpec("services.system_state", Dynamic),
    FactSpec("services.running", Dynamic),
    FactSpec("hardware.cpu", Static),
    FactSpec("hardware.memory", Dynamic),
    FactSpec("networks.active", Dynamic),
    FactSpec("networks.interfaces", Dynamic),
    FactSpec("snapshots.configurations", Static),
    FactSpec("snapshots.active_root", Dynamic)
  ]

  ghost predicate Distinct(specs: seq<FactSpec>) {
    forall i, j :: 0 <= i < j < |specs| ==> specs[i].id != specs[j].id
  }

  lemma CatalogIdsAreDistinct()
    ensures Distinct(FACTS)
  {
    // Lengths tell most IDs apart, and the first two letters the rest.
    assert FACTS[0].id[0] == 's' && FACTS[8].id[0] == 'h' && FACTS[9].id[0] == 'n';
    assert FACTS[5].id[1] == 'e' && FACTS[12].id[1] == 'n';
    forall i, j | 0 <= i < j < |FACTS|
      ensures FACTS[i].id != FACTS[j].id
    {
      LengthOfId(i);
      LengthOfId(j);
    }
  }

  /** Which facts change while the machine runs: seven are collected at start, six are dynamic. */
  lemma DynamicFacts()
    ensures |FACTS| == 13
    ensures forall k :: 0 <= k < 13 ==> (FACTS[k].refreshClass == Dynamic <==> k in {5, 6, 8, 9, 10, 12})
  {
  }

  lemma LengthOfId(k: nat)
    requires k < |FACTS|
    ensures |FACTS[k].id| == [15, 9, 13, 22, 18, 21, 16, 12, 15, 15, 19, 24, 21][k]
  {
  }

  function OfClass(specs: seq<FactSpec>, refreshClass: RefreshClass): (r: seq<FactSpec>)
    ensures forall spec :: spec in r <==> spec in specs && spec.refreshClass == refreshClass
    ensures Distinct(specs) ==> Distinct(r)
  {
    if specs == [] then []
    else
      var rest := OfClass(specs[1..], refreshClass);
      if specs[0].refreshClass == refreshClass then [specs[0]] + rest else rest
  }

  // ---------------------------------------------------------------- selectors

  function TrimDots(s: string): string {
    if s != "" && s[|s| - 1] == '.' then TrimDots(s[..|s| - 1]) else s
  }

  /** Trimming removes dots only, and leaves none at the end. */
  lemma {:induction false} TrimDotsRemovesDots(s: string)
    ensures var t := TrimDots(s);
            && t <= s && (forall i :: |t| <= i < |s| ==> s[i] == '.')
            && (t != "" ==> t[|t| - 1] != '.')
  {
    if s != "" && s[|s| - 1] == '.' {
      TrimDotsRemovesDots(s[..|s| - 1]);
    }
  }

  predicate Matches(selector: string, id: string) {
    id == selector || TrimDots(selector) + "." <= id
  }

  lemma {:induction false} JoinOfConcatenation(a: seq<string>, b: seq<string>, separator: char)
    requires a != [] && b != []
    ensures Join(a + b, separator) == Join(a, separator) + [separator] + Join(b, separator)
  {
    assert (a + b)[1..] == a[1..] + b;
    if |a| > 1 {
      JoinOfConcatenation(a[1..], b, separator);
    }
  }

  lemma BelowMeansFirstSegments(space: string, id: string)
    requires space + "." <= id
    ensures |Split(space, '.')| < |Split(id, '.')| && Split(space, '.') == Split(id, '.')[..|Split(space, '.')|]
  {
    var rest := id[|space| + 1..];
    assert id == space + "." + rest;
    SplitOfConcatenation(space, rest, '.');
  }

  lemma FirstSegmentsMeanBelow(space: string, id: string)
    requires |Split(space, '.')| < |Split(id, '.')| && Split(space, '.') == Split(id, '.')[..|Split(space, '.')|]
    ensures space + "." <= id
  {
    var first, all := Split(space, '.'), Split(id, '.');
    JoinOfSplit(space, '.');
    JoinOfSplit(id, '.');
    assert all == first + all[|first|..];
    JoinOfConcatenation(first, all[|first|..], '.');
    assert id == space + "." + Join(all[|first|..], '.');
  }

  /**
   A selector other than the full ID names a part of the dotted name space: its own segments,
   without dots at its end, must be the first ones of the ID, and the ID must have more.
   */
  lemma SelectorsNameNamespaces(selector: string, id: string)
    ensures var space, name := Split(TrimDots(selector), '.'), Split(id, '.');
            Matches(selector, id) <==> id == selector || (|space| < |name| && space == name[..|space|])
  {
    var trimmed := TrimDots(selector);
    var space, name := Split(trimmed, '.'), Split(id, '.');
    if trimmed + "." <= id {
      BelowMeansFirstSegments(trimmed, id);
    } else if |space| < |name| && space == name[..|space|] {
      FirstSegmentsMeanBelow(trimmed, id);
    }
  }

  /** The position of the first selector that matches, or the number of selectors. */
  function FirstMatch(selectors: seq<string>, id: string): (n: nat)
    ensures n <= |selectors|
    ensures n < |selectors| ==> Matches(selectors[n], id)
    ensures forall i :: 0 <= i < n ==> !Matches(selectors[i], id)
  {
    if selectors == [] || Matches(selectors[0], id) then 0 else 1 + FirstMatch(selectors[1..], id)
  }

  predicate Known(catalog: seq<FactSpec>, selector: string) {
    exists spec <- catalog :: Matches(selector, spec.id)
  }

  function Unknown(catalog: seq<FactSpec>, selectors: seq<string>, n: nat): seq<string>
    requires n <= |selectors|
  {
    if n == 0 then []
    else Unknown(catalog, selectors, n - 1) + if Known(catalog, selectors[n - 1]) then [] else [selectors[n - 1]]
  }

  ghost predicate InCatalogOrder(catalog: seq<FactSpec>, x: FactSpec, y: FactSpec) {
    exists i, j :: 0 <= i < j < |catalog| && catalog[i] == x && catalog[j] == y
  }

  ghost predicate Listed(specs: seq<FactSpec>, catalog: seq<FactSpec>) {
    forall a, b :: 0 <= a < b < |specs| ==> InCatalogOrder(catalog, specs[a], specs[b])
  }

  /** `x` comes before `y`: an earlier selector matches it, or the same one and the catalog has it first. */
  ghost predicate Before(catalog: seq<FactSpec>, selectors: seq<string>, x: FactSpec, y: FactSpec) {
    || FirstMatch(selectors, x.id) < FirstMatch(selectors, y.id)
    || (FirstMatch(selectors, x.id) == FirstMatch(selectors, y.id) && InCatalogOrder(catalog, x, y))
  }

  ghost predicate Ordered(specs: seq<FactSpec>, catalog: seq<FactSpec>, selectors: seq<string>) {
    forall a, b :: 0 <= a < b < |specs| ==> Before(catalog, selectors, specs[a], specs[b])
  }

  /** The facts chosen by the first `n` selectors, each once, in their order. */
  ghost predicate Chosen(selected: seq<FactSpec>, catalog: seq<FactSpec>, selectors: seq<string>, n: nat) {
    && (forall spec :: spec in selected <==> spec in catalog && FirstMatch(selectors, spec.id) < n)
    && Distinct(selected) && Ordered(selected, catalog, selectors)
  }

  lemma OneMoreListed(catalog: seq<FactSpec>, specs: seq<FactSpec>, j: nat)
    requires j < |catalog| && Listed(specs, catalog) && forall spec <- specs :: spec in catalog[..j]
    ensures Listed(specs + [catalog[j]], catalog)
  {
    forall a | 0 <= a < |specs|
      ensures InCatalogOrder(catalog, specs[a], catalog[j])
    {
      assert specs[a] in catalog[..j];
    }
  }

  /** The facts that the catalog has for one selector. */
  method MatchesOf(catalog: seq<FactSpec>, selector: string) returns (r: seq<FactSpec>)
    ensures forall spec :: spec in r <==> spec in catalog && Matches(selector, spec.id)
    ensures Listed(r, catalog)
    ensures r != [] <==> Known(catalog, selector)
  {
    r := [];
    for j := 0 to |catalog|
      invariant forall spec :: spec in r <==> spec in catalog[..j] && Matches(selector, spec.id)
      invariant Listed(r, catalog)
    {
      if Matches(selector, catalog[j].id) {
        OneMoreListed(catalog, r, j);
        r := r + [catalog[j]];
      }
    }
    assert r == [] || r[0] in r;
  }

  lemma EqualIdsEqualFacts(catalog: seq<FactSpec>, x: FactSpec, y: FactSpec)
    requires Distinct(catalog) && x in catalog && y in catalog && x.id == y.id
    ensures x == y
  {
  }

  lemma NewMatchIsLast(
    chosen: seq<FactSpec>, selected: seq<FactSpec>, matches: seq<FactSpec>, m: nat,
    catalog: seq<FactSpec>, selectors: seq<string>, n: nat)
    requires n < |selectors| && m < |matches| && Listed(matches, catalog)
    requires Chosen(chosen, catalog, selectors, n) && Matches(selectors[n], matches[m].id) && matches[m] in catalog
    requires matches[m] !in chosen
    requires forall spec <- selected ::
               spec in chosen || (spec in matches[..m] && FirstMatch(selectors, spec.id) == n)
    ensures FirstMatch(selectors, matches[m].id) == n
    ensures forall a :: 0 <= a < |selected| ==> Before(catalog, selectors, selected[a], matches[m])
  {
    forall a | 0 <= a < |selected|
      ensures Before(catalog, selectors, selected[a], matches[m])
    {
      assert selected[a] in selected;
    }
  }

  /** Adds those matches of selector `n` that no earlier selector has chosen. */
  method AddMatches(chosen: seq<FactSpec>, matches: seq<FactSpec>,
                    ghost catalog: seq<FactSpec>, ghost selectors: seq<string>, ghost n: nat)
    returns (selected: seq<FactSpec>)
    requires Distinct(catalog) && n < |selectors| && Chosen(chosen, catalog, selectors, n)
    requires forall spec :: spec in matches <==> spec in catalog && Matches(selectors[n], spec.id)
    requires Listed(matches, catalog)
    ensures Chosen(selected, catalog, selectors, n + 1)
  {
    selected := chosen;
    for m := 0 to |matches|
      invariant forall spec :: spec in selected <==>
                                 spec in chosen || (spec in matches[..m] && FirstMatch(selectors, spec.id) == n)
      invariant Distinct(selected) && Ordered(selected, catalog, selectors)
    {
      assert matches[m] in matches;
      if forall existing <- selected :: existing.id != matches[m].id {
        NewMatchIsLast(chosen, selected, matches, m, catalog, selectors, n);
        selected := selected + [matches[m]];
      } else {
        var existing :| existing in selected && existing.id == matches[m].id;
        EqualIdsEqualFacts(catalog, existing, matches[m]);
      }
    }
  }

  lemma {:induction false} NoUnknown(catalog: seq<FactSpec>, selectors: seq<string>, n: nat)
    requires n <= |selectors|
    ensures Unknown(catalog, selectors, n) == [] <==> forall i :: 0 <= i < n ==> Known(catalog, selectors[i])
  {
    if n > 0 {
      NoUnknown(catalog, selectors, n - 1);
    }
  }

  /** Some selector asks for the fact. */
  predicate Asked(selectors: seq<string>, id: string) {
    exists selector <- selectors :: Matches(selector, id)
  }

  lemma AskedMeansFirstMatch(selectors: seq<string>, id: string)
    ensures Asked(selectors, id) <==> FirstMatch(selectors, id) < |selectors|
  {
  }

  /**
   Without selectors, all facts; otherwise every selector must match some fact, and the result has
   each matching fact once, in the order of the selectors and then of the catalog.
   */
  method SelectFacts(catalog: seq<FactSpec>, selectors: seq<string>) returns (r: Result<seq<FactSpec>, seq<string>>)
    requires Distinct(catalog)
    ensures r.Ok? <==> forall selector <- selectors :: Known(catalog, selector)
    ensures r.Ok? ==> forall spec :: spec in r.value <==>
                        spec in catalog && (selectors == [] || Asked(selectors, spec.id))
    ensures r.Ok? ==> Distinct(r.value) && (selectors == [] || Ordered(r.value, catalog, selectors))
    ensures selectors == [] ==> r == Ok(catalog)
    ensures r.Err? ==> r.error == Unknown(catalog, selectors, |selectors|)
  {
    if selectors == [] {
      return Ok(catalog);
    }
    var selected: seq<FactSpec> := [];
    var unknown: seq<string> := [];
    for n := 0 to |selectors|
      invariant unknown == Unknown(catalog, selectors, n)
      invariant Chosen(selected, catalog, selectors, n)
    {
      var matches := MatchesOf(catalog, selectors[n]);
      if matches == [] {
        unknown := unknown + [selectors[n]];
        continue;
      }
      selected := AddMatches(selected, matches, catalog, selectors, n);
    }
    NoUnknown(catalog, selectors, |selectors|);
    forall spec | spec in catalog
      ensures Asked(selectors, spec.id) <==> FirstMatch(selectors, spec.id) < |selectors|
    {
      AskedMeansFirstMatch(selectors, spec.id);
    }
    if unknown == [] {
      return Ok(selected);
    }
    return Err(unknown);
  }
}
