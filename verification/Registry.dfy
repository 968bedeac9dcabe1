/** Expansion of registry patterns into node ids
    (opcua-bridge/src/registry.cpp, lines 104-125, 231-265 and 324-333). */
module Registry {
  import opened Words
  import opened Patterns

  const NAMESPACE_PREFIX: string := "nsu=urn:dune:pds:daphne;s="

  datatype RegistryError =
    | OutsideNamespace | EmptyNodeId | BadPattern(error: PatternError) | TooManyNodes
    | UnexpandedNodeId | NoInstances(name: string) | NoDevicePairs | DuplicateNodeId

  datatype Entry = Entry(name: string, nodeIdPattern: string, readOnly: bool)

  datatype ExpandedNode = ExpandedNode(entry: Entry, nodeId: string)

  datatype ExpansionConfig = ExpansionConfig(
    instances: map<string, seq<string>>, i2cDevices: seq<(string, string)>, maximumNodes: nat)
  {
    predicate Configured(name: string) {
      name in instances && instances[name] != []
    }

    predicate AllConfigured(names: seq<string>) {
      forall i :: 0 <= i < |names| ==> Configured(names[i])
    }

    function InstancesOf(name: string): (s: seq<string>)
      requires Configured(name)
      ensures s != []
    {
      instances[name]
    }
  }

  function StringNodeId(pattern: string): Result<string, RegistryError> {
    var n := |NAMESPACE_PREFIX|;
    if |pattern| < n || pattern[..n] != NAMESPACE_PREFIX then Err(OutsideNamespace)
    else if pattern[n..] == "" then Err(EmptyNodeId)
    else Ok(pattern[n..])
  }

  /** A node id is what follows the namespace, if anything does. */
  lemma NodeIdExactly(pattern: string, id: string)
    ensures StringNodeId(pattern) == Ok(id) <==> id != "" && pattern == NAMESPACE_PREFIX + id
  {}

  // ---------- the Cartesian product ----------

  /** How many ways there are to choose an instance for each name. */
  function Ways(config: ExpansionConfig, names: seq<string>): (n: nat)
    requires config.AllConfigured(names)
    ensures n > 0
  {
    if names == [] then 1 else Times(|config.InstancesOf(names[0])|, Ways(config, names[1..]))
  }

  function Times(a: nat, b: nat): (n: nat)
    ensures a > 0 && b > 0 ==> n > 0
  {
    a * b
  }

  /** Number `k` below n * ways as a digit below n and a rest below ways. */
  function Digit(k: nat, n: nat, ways: nat): (d: nat)
    requires ways > 0 && k < Times(n, ways)
    ensures d < n && Times(d, ways) <= k < Times(d, ways) + ways
  {
    DigitBelow(k / ways, n, ways);
    k / ways
  }

  lemma DigitBelow(d: nat, n: nat, ways: nat)
    requires ways > 0
    ensures d * ways < n * ways ==> d < n
  {}

  /** Digit and rest determine the number. */
  lemma DigitOf(d: nat, rest: nat, n: nat, ways: nat)
    requires rest < ways && d < n
    ensures Times(d, ways) + rest < Times(n, ways) && Digit(Times(d, ways) + rest, n, ways) == d
  {
    hide Times, Digit;
    TimesNext(d, n, ways);
    var e := Digit(Times(d, ways) + rest, n, ways);
    if e < d {
      TimesNext(e, d, ways);
    } else if d < e {
      TimesNext(d, e, ways);
    }
  }

  lemma TimesNext(d: nat, e: nat, ways: nat)
    requires d < e
    ensures Times(d, ways) + ways <= Times(e, ways)
  {
    assert (d + 1) * ways <= e * ways;
  }

  /** Choice `k`, the last name varying fastest. */
  function Choice(config: ExpansionConfig, names: seq<string>, k: nat): map<string, string>
    requires config.AllConfigured(names) && k < Ways(config, names)
  {
    if names == [] then map[]
    else
      var ways, instances := Ways(config, names[1..]), config.InstancesOf(names[0]);
      var d := Digit(k, |instances|, ways);
      Choice(config, names[1..], k - Times(d, ways))[names[0] := instances[d]]
  }

  /** Choices assign to every name one of its instances. */
  lemma {:induction false} ChoiceAssigns(config: ExpansionConfig, names: seq<string>, k: nat)
    requires config.AllConfigured(names) && k < Ways(config, names)
    ensures Choice(config, names, k).Keys == set n | n in names
    ensures forall n :: n in names ==> config.Configured(n) && Choice(config, names, k)[n] in config.InstancesOf(n)
  {
    if names != [] {
      var ways, instances := Ways(config, names[1..]), config.InstancesOf(names[0]);
      var d := Digit(k, |instances|, ways);
      ChoiceAssigns(config, names[1..], k - Times(d, ways));
      assert names == [names[0]] + names[1..];
    }
  }

  /** Every way to pick an instance for each of distinct names is a choice: the
      product misses nothing. */
  lemma {:induction false} EveryChoiceOccurs(config: ExpansionConfig, names: seq<string>, picks: map<string, nat>)
    returns (k: nat)
    requires config.AllConfigured(names) && Distinct(names)
    requires forall i :: 0 <= i < |names| ==> names[i] in picks && picks[names[i]] < |config.InstancesOf(names[i])|
    ensures k < Ways(config, names)
    ensures forall i :: 0 <= i < |names| ==>
      var n := names[i];
      n in Choice(config, names, k) && Choice(config, names, k)[n] == config.InstancesOf(n)[picks[n]]
  {
    if names == [] {
      k := 0;
    } else {
      var ways, instances := Ways(config, names[1..]), config.InstancesOf(names[0]);
      var rest := EveryChoiceOccurs(config, names[1..], picks);
      var d := picks[names[0]];
      DigitOf(d, rest, |instances|, ways);
      k := Times(d, ways) + rest;
      forall i | 1 <= i < |names|
        ensures names[i] in Choice(config, names, k)
        ensures Choice(config, names, k)[names[i]] == config.InstancesOf(names[i])[picks[names[i]]]
      {
        assert names[i] == names[1..][i - 1] && names[i] != names[0];
      }
    }
  }

  /** The pattern with the names replaced one after the other. */
  function Chained(id: string, names: seq<string>, values: map<string, string>): string
    requires forall i :: 0 <= i < |names| ==> names[i] in values
    decreases |names|
  {
    if names == [] then id else Chained(Replaced(id, Token(names[0]), values[names[0]]), names[1..], values)
  }

  predicate Distinct(names: seq<string>) {
    forall i, j :: 0 <= i < j < |names| ==> names[i] != names[j]
  }

  /** The ids of a pattern, choice by choice. */
  function Chains(config: ExpansionConfig, names: seq<string>, id: string): (ids: seq<string>)
    requires config.AllConfigured(names)
    ensures |ids| == Ways(config, names)
  {
    seq(Ways(config, names), k requires 0 <= k < Ways(config, names) =>
      ChoiceAssigns(config, names, k); Chained(id, names, Choice(config, names, k)))
  }

  /** The fillings of a pattern by the choices, in order, where `base` fills
      what the names leave open. */
  function Fillings(config: ExpansionConfig, names: seq<string>, id: string, base: map<string, string>)
    : (ids: seq<string>)
    requires config.AllConfigured(names)
    ensures |ids| == Ways(config, names)
  {
    seq(Ways(config, names), k requires 0 <= k < Ways(config, names) => Fill(id, Choice(config, names, k) + base))
  }

  // ---------- the recursion of the source ----------

  /** One name after the other, each by replacement. */
  function Expansions(config: ExpansionConfig, names: seq<string>, id: string): (ids: seq<string>)
    requires config.AllConfigured(names)
    decreases |names|, 1, 0
  {
    if names == [] then [id]
    else InstanceExpansions(config, names, id, |config.InstancesOf(names[0])|)
  }

  /** The expansions for the first `k` instances of the first name. */
  function InstanceExpansions(config: ExpansionConfig, names: seq<string>, id: string, k: nat): (ids: seq<string>)
    requires names != [] && config.AllConfigured(names) && k <= |config.InstancesOf(names[0])|
    decreases |names|, 0, k
  {
    if k == 0 then []
    else
      InstanceExpansions(config, names, id, k - 1)
      + Expansions(config, names[1..], Replaced(id, Token(names[0]), config.InstancesOf(names[0])[k - 1]))
  }

  function Nodes(entry: Entry, ids: seq<string>): (nodes: seq<ExpandedNode>)
    ensures |nodes| == |ids|
  {
    seq(|ids|, i requires 0 <= i < |ids| => ExpandedNode(entry, ids[i]))
  }

  predicate NoneOpen(ids: seq<string>) {
    forall id :: id in ids ==> '{' !in id
  }

  lemma {:induction false} SomeExpansion(config: ExpansionConfig, names: seq<string>, id: string)
    requires config.AllConfigured(names)
    ensures |Expansions(config, names, id)| > 0
    decreases |names|
  {
    if names != [] {
      var k := |config.InstancesOf(names[0])|;
      SomeExpansion(config, names[1..], Replaced(id, Token(names[0]), config.InstancesOf(names[0])[k - 1]));
    }
  }

  lemma {:induction false} InstancesGrow(config: ExpansionConfig, names: seq<string>, id: string, k: nat, m: nat)
    requires names != [] && config.AllConfigured(names) && k <= m <= |config.InstancesOf(names[0])|
    ensures InstanceExpansions(config, names, id, k) <= InstanceExpansions(config, names, id, m)
    decreases m - k
  {
    if k < m {
      InstancesGrow(config, names, id, k, m - 1);
    }
  }

  lemma NoneOpenPrefix(a: seq<string>, b: seq<string>)
    requires a <= b
    ensures NoneOpen(b) ==> NoneOpen(a)
  {
    assert forall id :: id in a ==> id in b;
  }

  lemma NoneOpenBoth(a: seq<string>, b: seq<string>)
    ensures NoneOpen(a + b) <==> NoneOpen(a) && NoneOpen(b)
  {
    assert forall id :: id in a ==> id in a + b;
    assert forall id :: id in b ==> id in a + b;
  }

  lemma NodesAppend(entry: Entry, a: seq<string>, b: seq<string>)
    ensures Nodes(entry, a + b) == Nodes(entry, a) + Nodes(entry, b)
  {}

  /** Appends the nodes of one pattern. It succeeds exactly when every name has
      instances, every id is fully expanded and the limit is not passed. */
  method ExpandRecursive(entry: Entry, config: ExpansionConfig, names: seq<string>, index: nat, nodeId: string,
                         result: seq<ExpandedNode>)
    returns (r: Result<seq<ExpandedNode>, RegistryError>)
    requires index <= |names|
    ensures r.Ok? <==>
      && config.AllConfigured(names[index..])
      && NoneOpen(Expansions(config, names[index..], nodeId))
      && |result| + |Expansions(config, names[index..], nodeId)| <= config.maximumNodes
    ensures r.Ok? ==> r.value == result + Nodes(entry, Expansions(config, names[index..], nodeId))
    decreases |names| - index, 1
  {
    ghost var rest := names[index..];
    if config.AllConfigured(rest) {
      SomeExpansion(config, rest, nodeId);
    }
    if |result| >= config.maximumNodes {
      return Err(TooManyNodes);
    }
    if index == |names| {
      assert Expansions(config, rest, nodeId) == [nodeId];
      if FindChar(nodeId, '{', 0) < |nodeId| {
        assert nodeId in [nodeId];
        return Err(UnexpandedNodeId);
      }
      assert Nodes(entry, [nodeId]) == [ExpandedNode(entry, nodeId)];
      return Ok(result + [ExpandedNode(entry, nodeId)]);
    }
    var name := names[index];
    assert rest == [name] + names[index + 1..];
    if name !in config.instances || config.instances[name] == [] {
      return Err(NoInstances(name));
    }
    r := ExpandInstances(entry, config, names, index, nodeId, result);
  }

  /** The loop over the instances of name `index`. */
  method ExpandInstances(entry: Entry, config: ExpansionConfig, names: seq<string>, index: nat, nodeId: string,
                         result: seq<ExpandedNode>)
    returns (r: Result<seq<ExpandedNode>, RegistryError>)
    requires index < |names| && config.Configured(names[index]) && |result| < config.maximumNodes
    ensures r.Ok? <==>
      && config.AllConfigured(names[index..])
      && NoneOpen(Expansions(config, names[index..], nodeId))
      && |result| + |Expansions(config, names[index..], nodeId)| <= config.maximumNodes
    ensures r.Ok? ==> r.value == result + Nodes(entry, Expansions(config, names[index..], nodeId))
    decreases |names| - index, 0
  {
    var instances := config.InstancesOf(names[index]);
    ghost var rest, ok := names[index..], config.AllConfigured(names[index..]);
    assert rest == [names[index]] + names[index + 1..] && rest[1..] == names[index + 1..];
    var nodes := result;
    for k := 0 to |instances|
      invariant k > 0 ==> ok
      invariant k == 0 ==> nodes == result
      invariant ok ==>
        var ids := InstanceExpansions(config, rest, nodeId, k);
        NoneOpen(ids) && nodes == result + Nodes(entry, ids) && |result| + |ids| <= config.maximumNodes
    {
      var expanded := ReplaceAll(nodeId, Token(names[index]), instances[k]);
      var next := ExpandRecursive(entry, config, names, index + 1, expanded, nodes);
      if ok {
        InstancesGrow(config, rest, nodeId, k + 1, |instances|);
        var before, sub := InstanceExpansions(config, rest, nodeId, k), Expansions(config, rest[1..], expanded);
        NodesAppend(entry, before, sub);
        NoneOpenPrefix(before + sub, Expansions(config, rest, nodeId));
        NoneOpenBoth(before, sub);
      }
      if next.Err? {
        return next;
      }
      nodes := next.value;
    }
    r := Ok(nodes);
  }

  // ---------- the recursion yields the Cartesian product ----------

  lemma ChoiceAt(config: ExpansionConfig, names: seq<string>, d: nat, j: nat)
    requires names != [] && config.AllConfigured(names)
    requires d < |config.InstancesOf(names[0])| && j < Ways(config, names[1..])
    ensures var k := Times(d, Ways(config, names[1..])) + j;
            && k < Ways(config, names)
            && Choice(config, names, k) == Choice(config, names[1..], j)[names[0] := config.InstancesOf(names[0])[d]]
  {
    hide Times, Digit;
    DigitOf(d, j, |config.InstancesOf(names[0])|, Ways(config, names[1..]));
  }

  lemma {:induction false} ChainedAgrees(id: string, names: seq<string>, a: map<string, string>, b: map<string, string>)
    requires forall i :: 0 <= i < |names| ==> names[i] in a && names[i] in b && a[names[i]] == b[names[i]]
    ensures Chained(id, names, a) == Chained(id, names, b)
    decreases |names|
  {
    hide Replaced;
    if names != [] {
      ChainedAgrees(Replaced(id, Token(names[0]), a[names[0]]), names[1..], a, b);
    }
  }

  /** The first name of a choice replaced, the others are chosen as before. */
  lemma ChainNext(config: ExpansionConfig, names: seq<string>, id: string, d: nat, j: nat)
    requires names != [] && config.AllConfigured(names) && Distinct(names)
    requires d < |config.InstancesOf(names[0])| && j < Ways(config, names[1..])
    ensures var k, v := Times(d, Ways(config, names[1..])) + j, config.InstancesOf(names[0])[d];
            && Token(names[0]) != "" && k < Ways(config, names)
            && Choice(config, names, k).Keys == (set n | n in names)
            && Choice(config, names[1..], j).Keys == (set n | n in names[1..])
            && Chained(id, names, Choice(config, names, k))
            == Chained(Replaced(id, Token(names[0]), v), names[1..], Choice(config, names[1..], j))
  {
    hide Times, Choice, Ways, Replaced;
    ChoiceAt(config, names, d, j);
    var rest := names[1..];
    var k := Times(d, Ways(config, rest)) + j;
    ChoiceAssigns(config, names, k);
    ChoiceAssigns(config, rest, j);
    assert forall i :: 0 <= i < |rest| ==> rest[i] == names[i + 1] && rest[i] in rest;
    ChainedAgrees(Replaced(id, Token(names[0]), config.InstancesOf(names[0])[d]), rest,
                  Choice(config, names, k), Choice(config, rest, j));
  }

  lemma {:induction false} InstancesAreChains(config: ExpansionConfig, names: seq<string>, id: string, k: nat)
    requires names != [] && config.AllConfigured(names) && Distinct(names) && k <= |config.InstancesOf(names[0])|
    ensures Times(k, Ways(config, names[1..])) <= Ways(config, names)
    ensures InstanceExpansions(config, names, id, k)
         == Chains(config, names, id)[..Times(k, Ways(config, names[1..]))]
    decreases |names|, 0, k
  {
    hide Replaced, Times, Digit, Choice, Chained;
    var n, ways := |config.InstancesOf(names[0])|, Ways(config, names[1..]);
    var all := Chains(config, names, id);
    SlicesFit(k, n, ways);
    if k > 0 {
      InstancesAreChains(config, names, id, k - 1);
      var expanded := Replaced(id, Token(names[0]), config.InstancesOf(names[0])[k - 1]);
      ExpansionsAreChains(config, names[1..], expanded);
      var next := Chains(config, names[1..], expanded);
      forall j | 0 <= j < ways ensures Times(k - 1, ways) + j < |all| && all[Times(k - 1, ways) + j] == next[j] {
        ChainNext(config, names, id, k - 1, j);
      }
      NextSlice(all, Times(k - 1, ways), next);
    }
  }

  lemma SlicesFit(k: nat, n: nat, ways: nat)
    requires k <= n
    ensures Times(k, ways) <= Times(n, ways)
    ensures if k == 0 then Times(k, ways) == 0 else Times(k, ways) == Times(k - 1, ways) + ways
  {
    if k < n {
      TimesNext(k, n, ways);
    }
  }

  lemma NextSlice(all: seq<string>, from: nat, next: seq<string>)
    requires from + |next| <= |all| && forall j :: 0 <= j < |next| ==> all[from + j] == next[j]
    ensures all[..from + |next|] == all[..from] + next
  {}

  /** The source's recursion yields exactly one id for each way to choose an
      instance for every name, in order: the pattern with the names replaced one
      after the other by what is chosen for them. */
  lemma {:induction false} ExpansionsAreChains(config: ExpansionConfig, names: seq<string>, id: string)
    requires config.AllConfigured(names) && Distinct(names)
    ensures Expansions(config, names, id) == Chains(config, names, id)
    decreases |names|, 1, 0
  {
    if names != [] {
      InstancesAreChains(config, names, id, |config.InstancesOf(names[0])|);
    }
  }

  // ---------- one after the other and all at once ----------

  /** No instance of a name begins a token of a later one. */
  ghost predicate InstancesInert(config: ExpansionConfig, names: seq<string>)
    requires config.AllConfigured(names)
  {
    forall i, j, v :: 0 <= i < j < |names| && v in config.InstancesOf(names[i]) ==> Inert(v, names[j])
  }

  /** The names can be replaced one after the other in the pattern filled with
      `base`. */
  ghost predicate Orderly(config: ExpansionConfig, names: seq<string>, id: string, base: map<string, string>)
    requires config.AllConfigured(names)
  {
    && InstancesInert(config, names)
    && (forall i :: 0 <= i < |names| ==> '}' !in names[i])
    && (forall i, n :: 0 <= i < |names| && n in Names(id) && n in base ==> Inert(base[n], names[i]))
    && (forall i, n :: 0 <= i < |names| && n in Names(id) && n !in base && EndsWith(n, ['{'] + names[i]) ==>
          n in names[..i])
  }

  lemma OrderlyRest(config: ExpansionConfig, names: seq<string>, id: string, base: map<string, string>, v: string)
    requires names != [] && config.AllConfigured(names) && Orderly(config, names, id, base)
    requires v in config.InstancesOf(names[0])
    ensures Token(names[0]) != ""
    ensures Replaced(Fill(id, base), Token(names[0]), v) == Fill(id, map[names[0] := v] + base)
    ensures Orderly(config, names[1..], id, map[names[0] := v] + base)
  {
    hide Replaced, Fill, Names, EndsWith, Inert;
    assert names[..0] == [];
    ReplacedAfterFill(id, base, names[0], v);
    var rest, filled := names[1..], map[names[0] := v] + base;
    forall i, n | 0 <= i < |rest| && n in Names(id) && n !in filled && EndsWith(n, ['{'] + rest[i])
      ensures n in rest[..i]
    {
      assert n in names[..i + 1] && names[..i + 1] == [names[0]] + rest[..i];
    }
  }

  lemma NothingChosen(config: ExpansionConfig, id: string, base: map<string, string>)
    ensures Choice(config, [], 0) == map[] && Chained(id, [], map[]) == id && map[] + base == base
  {}

  lemma Merged(a: map<string, string>, name: string, v: string, base: map<string, string>)
    ensures a[name := v] + base == a + (map[name := v] + base)
  {}

  lemma LaterDistinct(names: seq<string>)
    requires names != [] && Distinct(names)
    ensures Distinct(names[1..])
  {}

  lemma SplitNumber(k: nat, n: nat, ways: nat) returns (d: nat, j: nat)
    requires ways > 0 && k < Times(n, ways)
    ensures d < n && j < ways && k == Times(d, ways) + j
  {
    hide Times;
    d := Digit(k, n, ways);
    j := k - Times(d, ways);
  }

  lemma WaysOfRest(config: ExpansionConfig, names: seq<string>)
    requires names != [] && config.AllConfigured(names)
    ensures Ways(config, names) == Times(|config.InstancesOf(names[0])|, Ways(config, names[1..]))
  {}

  /** A choice replaced name by name is the choice filled in at once. */
  lemma {:induction false} ChainIsFilling(config: ExpansionConfig, names: seq<string>, id: string,
                                          base: map<string, string>, k: nat)
    requires config.AllConfigured(names) && Distinct(names) && Orderly(config, names, id, base)
    requires k < Ways(config, names)
    ensures Choice(config, names, k).Keys == set n | n in names
    ensures Chained(Fill(id, base), names, Choice(config, names, k)) == Fill(id, Choice(config, names, k) + base)
    decreases |names|
  {
    hide Replaced, Fill, Orderly, Times, Digit, Choice, Chained, Distinct;
    ChoiceAssigns(config, names, k);
    if names == [] {
      NothingChosen(config, Fill(id, base), base);
    } else {
      hide Ways;
      WaysOfRest(config, names);
      var rest := names[1..];
      var d, j := SplitNumber(k, |config.InstancesOf(names[0])|, Ways(config, rest));
      var v := config.InstancesOf(names[0])[d];
      var filled := map[names[0] := v] + base;
      LaterDistinct(names);
      OrderlyRest(config, names, id, base, v);
      ChainIsFilling(config, rest, id, filled, j);
      ChainNext(config, names, Fill(id, base), d, j);
      ChoiceAt(config, names, d, j);
      Merged(Choice(config, rest, j), names[0], v, base);
    }
  }

  /** Then the ids are the fillings of the pattern. */
  lemma ExpansionsAreFillings(config: ExpansionConfig, names: seq<string>, id: string, base: map<string, string>)
    requires config.AllConfigured(names) && Distinct(names) && Orderly(config, names, id, base)
    ensures Expansions(config, names, Fill(id, base)) == Fillings(config, names, id, base)
  {
    hide Fill, Orderly, Choice, Chained, Ways, Distinct;
    ExpansionsAreChains(config, names, Fill(id, base));
    forall k | 0 <= k < Ways(config, names)
      ensures Chains(config, names, Fill(id, base))[k] == Fillings(config, names, id, base)[k]
    {
      ChainIsFilling(config, names, id, base, k);
    }
  }

  /** No instance has an opening brace. */
  ghost predicate BraceFree(config: ExpansionConfig, names: seq<string>)
    requires config.AllConfigured(names)
  {
    forall i, v :: 0 <= i < |names| && v in config.InstancesOf(names[i]) ==> '{' !in v
  }

  lemma BraceFreeInert(config: ExpansionConfig, names: seq<string>)
    requires config.AllConfigured(names) && BraceFree(config, names)
    ensures InstancesInert(config, names)
  {
    forall i, j, v | 0 <= i < j < |names| && v in config.InstancesOf(names[i]) ensures Inert(v, names[j]) {
      NoOpeningInert(v, names[j]);
    }
  }

  /** Every id of a closed pattern is free of braces exactly if the instances
      are: with others the check for a brace fires. */
  lemma NoBraceLeftExactly(config: ExpansionConfig, names: seq<string>, id: string, base: map<string, string>)
    requires config.AllConfigured(names) && Terminated(id)
    requires Distinct(names)
    requires forall n :: n in Names(id) ==> n in names || n in base
    requires forall n :: n in names ==> n in Names(id) && n !in base
    ensures NoneOpen(Fillings(config, names, id, base)) <==>
      BraceFree(config, names) && forall n :: n in Names(id) && n in base ==> '{' !in base[n]
  {
    hide Fill, Choice, Names, Terminated, Ways;
    var ids := Fillings(config, names, id, base);
    if BraceFree(config, names) && forall n :: n in Names(id) && n in base ==> '{' !in base[n] {
      forall k | 0 <= k < |ids| ensures '{' !in ids[k] {
        BraceFreeFilling(config, names, id, base, k);
      }
    }
    if NoneOpen(ids) {
      forall i, v | 0 <= i < |names| && v in config.InstancesOf(names[i]) ensures '{' !in v {
        var k := InstanceOccurs(config, names, i, v);
        ChoiceAssigns(config, names, k);
        assert ids[k] in ids && names[i] in Names(id);
        FilledBraces(id, Choice(config, names, k) + base);
        assert (Choice(config, names, k) + base)[names[i]] == v;
      }
      ChoiceAssigns(config, names, 0);
      assert ids[0] in ids;
      FilledBraces(id, Choice(config, names, 0) + base);
    }
  }

  lemma BraceFreeFilling(config: ExpansionConfig, names: seq<string>, id: string, base: map<string, string>, k: nat)
    requires config.AllConfigured(names) && Terminated(id) && k < Ways(config, names)
    requires forall n :: n in Names(id) ==> n in names || n in base
    requires BraceFree(config, names) && forall n :: n in Names(id) && n in base ==> '{' !in base[n]
    ensures '{' !in Fill(id, Choice(config, names, k) + base)
  {
    hide Fill, Choice, Names, Terminated, Ways;
    var a := Choice(config, names, k) + base;
    ChoiceAssigns(config, names, k);
    FilledBraces(id, a);
    forall n | n in Names(id) ensures '{' !in a[n] {
      if n !in base {
        var i :| 0 <= i < |names| && names[i] == n;
        assert a[n] in config.InstancesOf(names[i]);
      }
    }
  }

  /** Some choice picks a given instance of a given name. */
  lemma InstanceOccurs(config: ExpansionConfig, names: seq<string>, i: nat, v: string) returns (k: nat)
    requires config.AllConfigured(names) && Distinct(names)
    requires i < |names| && v in config.InstancesOf(names[i])
    ensures k < Ways(config, names)
    ensures names[i] in Choice(config, names, k) && Choice(config, names, k)[names[i]] == v
  {
    hide Choice, Ways;
    var d :| 0 <= d < |config.InstancesOf(names[i])| && config.InstancesOf(names[i])[d] == v;
    var picks: map<string, nat> := map n | n in names :: if n == names[i] then d else 0;
    k := EveryChoiceOccurs(config, names, picks);
  }

  // ---------- the order is needed ----------

  /** Every name has the empty instance and no other. */
  function EmptyInstances(names: seq<string>): (config: ExpansionConfig)
    ensures config.AllConfigured(names)
    ensures forall n :: n in names ==> config.Configured(n) && config.InstancesOf(n) == [""]
  {
    ExpansionConfig(map n | n in names :: [""], [], 1)
  }

  /** What is left of a placeholder that was cut open stays. */
  lemma {:induction false} CutStays(config: ExpansionConfig, names: seq<string>, id: string)
    requires config.AllConfigured(names) && '}' !in id
    requires forall n :: n in names ==> config.Configured(n) && config.InstancesOf(n) == [""]
    ensures Expansions(config, names, id) == [id]
    decreases |names|
  {
    hide Replaced;
    if names != [] {
      NoTokenWithoutClose(id, names[0]);
      NothingReplaced(id, Token(names[0]), "", 0);
      assert id[0..] == id;
      CutStays(config, names[1..], id);
      OneInstance(config, names, id);
    }
  }

  lemma OneInstance(config: ExpansionConfig, names: seq<string>, id: string)
    requires names != [] && config.AllConfigured(names) && config.InstancesOf(names[0]) == [""]
    ensures Token(names[0]) != ""
    ensures Expansions(config, names, id) == Expansions(config, names[1..], Replaced(id, Token(names[0]), ""))
  {
    assert InstanceExpansions(config, names, id, 0) == [];
  }

  /** A name that hides an earlier one is cut open by it. */
  lemma {:induction false} HiddenCut(config: ExpansionConfig, names: seq<string>, i: nat, name: string)
    requires config.AllConfigured(names) && i < |names| && forall n :: n in names ==> '}' !in n
    requires forall n :: n in names ==> config.Configured(n) && config.InstancesOf(n) == [""]
    requires '}' !in name && name !in names[..i + 1] && EndsWith(name, ['{'] + names[i])
    ensures exists id :: id != "" && Expansions(config, names, Token(name)) == [id]
    decreases |names|
  {
    hide Replaced;
    var s, first := Token(name), names[0];
    assert Closes(s, |name| + 1) && s[1..|name| + 1] == name;
    PlaceholderReplaced(s, first, "", |name| + 1);
    assert s[|name| + 1 + 1..] == "";
    NothingReplaced("", Token(first), "", 0);
    OneInstance(config, names, s);
    assert first in names[..i + 1];
    if EndsWith(name, ['{'] + first) {
      var id := s[..|name| - |first|];
      assert Replaced(s, Token(first), "") == id + "" + "" == id;
      assert forall j :: 0 <= j < |id| ==> id[j] == (if j == 0 then '{' else name[j - 1]);
      CutStays(config, names[1..], id);
    } else {
      assert i > 0 && names[..i + 1] == [first] + names[1..][..i];
      assert s[..|name| + 1 + 1] == s && Replaced(s, Token(first), "") == s + "" == s;
      HiddenCut(config, names[1..], i - 1, name);
    }
  }

  /** Replacement by replacement is the product for all patterns over the names
      and all instances in which no token begins if and only if the names are in
      order. */
  lemma InOrderExactly(names: seq<string>)
    requires Distinct(names)
    requires forall n :: n in names ==> '}' !in n
    ensures InOrder(names) <==>
      forall config: ExpansionConfig, id |
        config.AllConfigured(names) && InstancesInert(config, names) && forall n :: n in Names(id) ==> n in names ::
        Expansions(config, names, id) == Fillings(config, names, id, map[])
  {
    hide Expansions, Names, EndsWith, BraceFree, Fillings, InstancesInert, Fill, Inert;
    if InOrder(names) {
      forall config: ExpansionConfig, id |
        config.AllConfigured(names) && InstancesInert(config, names) && forall n :: n in Names(id) ==> n in names
        ensures Expansions(config, names, id) == Fillings(config, names, id, map[])
      {
        NothingToFill(id);
        OrderlyFrom(config, names, id, map[]);
        ExpansionsAreFillings(config, names, id, map[]);
      }
    } else {
      var i, j :| 0 <= i < j < |names| && EndsWith(names[j], ['{'] + names[i]);
      var config, id := EmptyInstances(names), Token(names[j]);
      assert names[j] !in names[..i + 1];
      HiddenCut(config, names, i, names[j]);
      TokenEmptied(config, names, names[j]);
      BraceFreeInert(config, names);
    }
  }

  lemma OrderlyFrom(config: ExpansionConfig, names: seq<string>, id: string, base: map<string, string>)
    requires config.AllConfigured(names) && InstancesInert(config, names)
    requires InOrder(names) && forall n :: n in names ==> '}' !in n
    requires forall n :: n in Names(id) ==> n in names || n in base
    requires forall i, n :: 0 <= i < |names| && n in Names(id) && n in base ==> Inert(base[n], names[i])
    ensures Orderly(config, names, id, base)
  {
    hide Names, Inert;
    forall i, n | 0 <= i < |names| && n in Names(id) && n !in base && EndsWith(n, ['{'] + names[i])
      ensures n in names[..i]
    {
      HiddenEarlier(names, n, i);
    }
  }

  /** The product empties a placeholder of an empty instance. */
  lemma TokenEmptied(config: ExpansionConfig, names: seq<string>, name: string)
    requires config.AllConfigured(names) && name in names && '}' !in name
    requires forall n :: n in names ==> config.Configured(n) && config.InstancesOf(n) == [""]
    ensures BraceFree(config, names) && forall n :: n in Names(Token(name)) ==> n in names
    ensures "" in Fillings(config, names, Token(name), map[])
  {
    hide Fill, Names, Choice;
    var a := Choice(config, names, 0) + map[];
    ChoiceAssigns(config, names, 0);
    assert Token(name) + "" == Token(name);
    TokenFilled(name, "", a);
    NoPlaceholder("", a);
    assert Fill(Token(name), a) == "" + "";
    assert Fillings(config, names, Token(name), map[])[0] == "";
  }

  // ---------- one entry ----------

  function Without(names: seq<string>, name: string): (r: seq<string>)
    ensures forall n :: n in r <==> n in names && n != name
  {
    if names == [] then []
    else
      var rest, last := Without(names[..|names| - 1], name), names[|names| - 1];
      if last == name then rest else rest + [last]
  }

  /** What is left keeps its order. */
  lemma {:induction false} WithoutInOrder(names: seq<string>, name: string, i: nat, j: nat) returns (p: nat, q: nat)
    requires i < j < |Without(names, name)|
    ensures p < q < |names| && names[p] == Without(names, name)[i] && names[q] == Without(names, name)[j]
  {
    var n := |names| - 1;
    var rest := Without(names[..n], name);
    if j < |rest| {
      p, q := WithoutInOrder(names[..n], name, i, j);
    } else {
      assert rest[i] in rest;
      p :| 0 <= p < n && names[p] == rest[i];
      q := n;
    }
  }

  predicate Paired(names: seq<string>) {
    "Bus" in names && "Address" in names
  }

  /** The names left to the recursion: bus and address come in pairs. */
  function OpenNames(names: seq<string>): seq<string> {
    if Paired(names) then Without(Without(names, "Bus"), "Address") else names
  }

  function PairedId(id: string, device: (string, string)): string {
    Replaced(Replaced(id, Token("Bus"), device.0), Token("Address"), device.1)
  }

  /** The patterns the recursion starts from: one for each device. */
  function Bases(config: ExpansionConfig, id: string): (bases: seq<string>) {
    if Paired(FirstSeen(Names(id))) then
      seq(|config.i2cDevices|, i requires 0 <= i < |config.i2cDevices| => PairedId(id, config.i2cDevices[i]))
    else [id]
  }

  function BaseExpansions(config: ExpansionConfig, names: seq<string>, bases: seq<string>): (ids: seq<string>)
    requires config.AllConfigured(names)
  {
    if bases == [] then []
    else BaseExpansions(config, names, bases[..|bases| - 1]) + Expansions(config, names, bases[|bases| - 1])
  }

  /** Everything expansion asks of an entry before it looks at the ids. */
  predicate Expandable(config: ExpansionConfig, entry: Entry) {
    && StringNodeId(entry.nodeIdPattern).Ok?
    && var id := StringNodeId(entry.nodeIdPattern).value;
    && Terminated(id) && "" !in Names(id)
    && Bases(config, id) != []
    && config.AllConfigured(OpenNames(FirstSeen(Names(id))))
  }

  function EntryIds(config: ExpansionConfig, entry: Entry): seq<string>
    requires Expandable(config, entry)
  {
    var id := StringNodeId(entry.nodeIdPattern).value;
    BaseExpansions(config, OpenNames(FirstSeen(Names(id))), Bases(config, id))
  }

  predicate Expands(config: ExpansionConfig, entry: Entry) {
    && Expandable(config, entry)
    && NoneOpen(EntryIds(config, entry)) && |EntryIds(config, entry)| <= config.maximumNodes
  }

  lemma {:induction false} BasesGrow(config: ExpansionConfig, names: seq<string>, bases: seq<string>, k: nat)
    requires config.AllConfigured(names) && k <= |bases|
    ensures BaseExpansions(config, names, bases[..k]) <= BaseExpansions(config, names, bases)
    decreases |bases|
  {
    if k < |bases| {
      assert bases[..|bases| - 1][..k] == bases[..k];
      BasesGrow(config, names, bases[..|bases| - 1], k);
    } else {
      assert bases[..k] == bases;
    }
  }

  method ExpandBases(entry: Entry, config: ExpansionConfig, names: seq<string>, bases: seq<string>)
    returns (r: Result<seq<ExpandedNode>, RegistryError>)
    requires bases != []
    ensures r.Ok? <==>
      && config.AllConfigured(names)
      && NoneOpen(BaseExpansions(config, names, bases))
      && |BaseExpansions(config, names, bases)| <= config.maximumNodes
    ensures r.Ok? ==> r.value == Nodes(entry, BaseExpansions(config, names, bases))
  {
    var nodes: seq<ExpandedNode> := [];
    assert names[0..] == names;
    for k := 0 to |bases|
      invariant k > 0 ==> config.AllConfigured(names)
      invariant k == 0 ==> nodes == []
      invariant config.AllConfigured(names) ==>
        var ids := BaseExpansions(config, names, bases[..k]);
        NoneOpen(ids) && nodes == Nodes(entry, ids) && |ids| <= config.maximumNodes
    {
      var next := ExpandRecursive(entry, config, names, 0, bases[k], nodes);
      if config.AllConfigured(names) {
        var before, sub := BaseExpansions(config, names, bases[..k]), Expansions(config, names, bases[k]);
        assert bases[..k + 1][..k] == bases[..k];
        assert BaseExpansions(config, names, bases[..k + 1]) == before + sub;
        BasesGrow(config, names, bases, k + 1);
        NodesAppend(entry, before, sub);
        NoneOpenPrefix(before + sub, BaseExpansions(config, names, bases));
        NoneOpenBoth(before, sub);
      }
      if next.Err? {
        return next;
      }
      nodes := next.value;
    }
    assert bases[..|bases|] == bases;
    r := Ok(nodes);
  }

  method DevicePatterns(id: string, devices: seq<(string, string)>) returns (bases: seq<string>)
    ensures |bases| == |devices| && forall i :: 0 <= i < |devices| ==> bases[i] == PairedId(id, devices[i])
  {
    bases := [];
    for k := 0 to |devices|
      invariant |bases| == k && forall i :: 0 <= i < k ==> bases[i] == PairedId(id, devices[i])
    {
      var pairedId := ReplaceAll(id, Token("Bus"), devices[k].0);
      pairedId := ReplaceAll(pairedId, Token("Address"), devices[k].1);
      bases := bases + [pairedId];
    }
  }

  method ExpandEntry(entry: Entry, config: ExpansionConfig) returns (r: Result<seq<ExpandedNode>, RegistryError>)
    ensures r.Ok? <==> Expands(config, entry)
    ensures r.Ok? ==> r.value == Nodes(entry, EntryIds(config, entry))
  {
    hide StringNodeId, Names, Terminated, FirstSeen, Without, BaseExpansions, PairedId, NoneOpen;
    var id :- StringNodeId(entry.nodeIdPattern);
    var found := Placeholders(id);
    if found.Err? {
      return Err(BadPattern(found.error));
    }
    var names := found.value;
    if Paired(names) {
      if config.i2cDevices == [] {
        return Err(NoDevicePairs);
      }
      names := Without(Without(names, "Bus"), "Address");
      var bases := DevicePatterns(id, config.i2cDevices);
      assert bases == Bases(config, id);
      r := ExpandBases(entry, config, names, bases);
    } else {
      r := ExpandBases(entry, config, names, [id]);
    }
  }

  // ---------- all entries ----------

  predicate AllExpand(config: ExpansionConfig, entries: seq<Entry>) {
    forall i :: 0 <= i < |entries| ==> Expands(config, entries[i])
  }

  function AllNodes(config: ExpansionConfig, entries: seq<Entry>): seq<ExpandedNode>
    requires AllExpand(config, entries)
  {
    if entries == [] then []
    else
      var last := entries[|entries| - 1];
      AllNodes(config, entries[..|entries| - 1]) + Nodes(last, EntryIds(config, last))
  }

  predicate DistinctIds(nodes: seq<ExpandedNode>) {
    forall i, j :: 0 <= i < j < |nodes| ==> nodes[i].nodeId != nodes[j].nodeId
  }

  function IdsOf(nodes: seq<ExpandedNode>): set<string> {
    set n | n in nodes :: n.nodeId
  }

  lemma {:induction false} AllNodesGrow(config: ExpansionConfig, entries: seq<Entry>, k: nat)
    requires AllExpand(config, entries) && k <= |entries|
    ensures AllExpand(config, entries[..k]) && AllNodes(config, entries[..k]) <= AllNodes(config, entries)
    decreases |entries|
  {
    if k < |entries| {
      assert entries[..|entries| - 1][..k] == entries[..k];
      AllNodesGrow(config, entries[..|entries| - 1], k);
    } else {
      assert entries[..k] == entries;
    }
  }

  /** The nodes of an entry stand together, behind those of the entries before
      it: each is the entry itself under one of its ids, in order. */
  lemma EntryNodesAt(config: ExpansionConfig, entries: seq<Entry>, e: nat, j: nat)
    requires AllExpand(config, entries) && e < |entries| && j < |EntryIds(config, entries[e])|
    ensures AllExpand(config, entries[..e]) && AllExpand(config, entries[..e + 1])
    ensures var start := |AllNodes(config, entries[..e])|;
            && start + |EntryIds(config, entries[e])| == |AllNodes(config, entries[..e + 1])|
            && start + j < |AllNodes(config, entries)|
            && AllNodes(config, entries)[start + j] == ExpandedNode(entries[e], EntryIds(config, entries[e])[j])
    ensures entries[..|entries|] == entries && AllNodes(config, []) == []
  {
    hide EntryIds, Expands;
    AllNodesGrow(config, entries, e);
    AllNodesGrow(config, entries, e + 1);
    assert entries[..e + 1][..e] == entries[..e];
  }

  /** Adds the nodes of one entry, refusing an id seen before. */
  method AddNodes(nodes: seq<ExpandedNode>, entryNodes: seq<ExpandedNode>, nodeIds: set<string>, maximumNodes: nat)
    returns (r: Result<(seq<ExpandedNode>, set<string>), RegistryError>)
    requires DistinctIds(nodes) && |nodes| <= maximumNodes
    requires nodeIds == IdsOf(nodes)
    ensures r.Ok? <==> DistinctIds(nodes + entryNodes) && |nodes + entryNodes| <= maximumNodes
    ensures r.Ok? ==> r.value.0 == nodes + entryNodes && r.value.1 == IdsOf(nodes + entryNodes)
  {
    var result, seen := nodes, nodeIds;
    for k := 0 to |entryNodes|
      invariant result == nodes + entryNodes[..k] && DistinctIds(result) && |result| <= maximumNodes
      invariant seen == IdsOf(result)
    {
      var node := entryNodes[k];
      ghost var all := nodes + entryNodes;
      assert all[|result|] == node && forall i :: 0 <= i < |result| ==> all[i] == result[i];
      if node.nodeId in seen {
        return Err(DuplicateNodeId);
      }
      seen := seen + {node.nodeId};
      result := result + [node];
      if |result| > maximumNodes {
        return Err(TooManyNodes);
      }
    }
    assert entryNodes[..|entryNodes|] == entryNodes;
    r := Ok((result, seen));
  }

  /** Expansion succeeds exactly when every entry expands, no id comes twice and
      the limit is kept, and then yields the nodes of the entries in order. */
  method Expand(entries: seq<Entry>, config: ExpansionConfig) returns (r: Result<seq<ExpandedNode>, RegistryError>)
    ensures r.Ok? <==>
      && AllExpand(config, entries)
      && DistinctIds(AllNodes(config, entries)) && |AllNodes(config, entries)| <= config.maximumNodes
    ensures r.Ok? ==> r.value == AllNodes(config, entries)
  {
    hide Expands, EntryIds, DistinctIds;
    var result: seq<ExpandedNode>, nodeIds: set<string> := [], {};
    NoneDistinct();
    for k := 0 to |entries|
      invariant AllExpand(config, entries[..k]) && result == AllNodes(config, entries[..k])
      invariant DistinctIds(result) && |result| <= config.maximumNodes
      invariant nodeIds == IdsOf(result)
    {
      var entryNodes :- ExpandEntry(entries[k], config);
      assert entries[..k + 1][..k] == entries[..k];
      assert AllNodes(config, entries[..k + 1]) == result + entryNodes;
      var added := AddNodes(result, entryNodes, nodeIds, config.maximumNodes);
      if AllExpand(config, entries) {
        AllNodesGrow(config, entries, k + 1);
        DistinctPrefix(result + entryNodes, AllNodes(config, entries));
      }
      if added.Err? {
        return Err(added.error);
      }
      result, nodeIds := added.value.0, added.value.1;
    }
    assert entries[..|entries|] == entries;
    r := Ok(result);
  }

  lemma NoneDistinct()
    ensures DistinctIds([])
  {}

  lemma DistinctPrefix(a: seq<ExpandedNode>, b: seq<ExpandedNode>)
    requires a <= b
    ensures DistinctIds(b) ==> DistinctIds(a)
  {
    assert forall i :: 0 <= i < |a| ==> a[i] == b[i];
  }

  // ---------- the ids of an entry ----------

  lemma {:induction false} WithoutDistinct(names: seq<string>, name: string)
    requires Distinct(names)
    ensures Distinct(Without(names, name))
  {
    if names != [] {
      var n := |names| - 1;
      WithoutDistinct(names[..n], name);
      assert forall i :: 0 <= i < n ==> names[..n][i] == names[i];
      assert names[n] !in names[..n];
      var rest := Without(names[..n], name);
      assert forall i :: 0 <= i < |rest| ==> rest[i] in rest;
    }
  }

  lemma OpenNamesDistinct(names: seq<string>)
    requires Distinct(names)
    ensures Distinct(OpenNames(names))
  {
    WithoutDistinct(names, "Bus");
    WithoutDistinct(Without(names, "Bus"), "Address");
  }

  /** The names in the order in which they are replaced. */
  function Order(names: seq<string>): seq<string> {
    (if Paired(names) then ["Bus", "Address"] else []) + OpenNames(names)
  }

  function Pair(device: (string, string)): map<string, string> {
    map["Bus" := device.0, "Address" := device.1]
  }

  /** No token of a name replaced later begins in a device's bus or address. */
  ghost predicate DevicesInert(config: ExpansionConfig, names: seq<string>) {
    forall device :: device in config.i2cDevices ==>
      && Inert(device.0, "Address")
      && forall n :: n in names ==> Inert(device.0, n) && Inert(device.1, n)
  }

  /** The entry's names are in order, and no token of a later name begins in
      what is filled in. */
  ghost predicate InTurn(config: ExpansionConfig, entry: Entry)
    requires Expandable(config, entry)
  {
    var names := FirstSeen(Names(StringNodeId(entry.nodeIdPattern).value));
    && InOrder(Order(names)) && InstancesInert(config, OpenNames(names))
    && (Paired(names) ==> DevicesInert(config, OpenNames(names)))
  }

  lemma OpenNamesRest(names: seq<string>, n: string)
    ensures n in OpenNames(names) <==> n in names && !(Paired(names) && n in ["Bus", "Address"])
  {}

  /** The pattern for one device is the pattern filled with its pair. */
  lemma PairFilled(id: string, names: seq<string>, device: (string, string))
    requires Paired(names) && InOrder(Order(names)) && forall n :: n in Names(id) ==> n in names
    requires Inert(device.0, "Address")
    ensures PairedId(id, device) == Fill(id, Pair(device))
  {
    hide Fill, Names, Replaced, Inert, EndsWith, InOrder, OpenNames;
    var order, bus := Order(names), map["Bus" := device.0];
    assert order[0] == "Bus" && order[1] == "Address" && order[..0] == [] && order[..1] == ["Bus"];
    forall n | n in Names(id)
      ensures !EndsWith(n, ['{'] + "Bus") && (n != "Bus" ==> !EndsWith(n, ['{'] + "Address"))
    {
      OpenNamesRest(names, n);
      if EndsWith(n, ['{'] + "Bus") {
        HiddenEarlier(order, n, 0);
      }
      if EndsWith(n, ['{'] + "Address") {
        HiddenEarlier(order, n, 1);
      }
    }
    NothingToFill(id);
    ReplacedAfterFill(id, map[], "Bus", device.0);
    assert bus + map[] == bus;
    ReplacedAfterFill(id, bus, "Address", device.1);
    assert map["Address" := device.1] + bus == Pair(device);
  }

  lemma InOrderRest(a: seq<string>, b: seq<string>)
    requires InOrder(a + b)
    ensures InOrder(b)
  {
    hide EndsWith;
    forall i, j | 0 <= i < j < |b| ensures !EndsWith(b[j], ['{'] + b[i]) {
      assert (a + b)[|a| + i] == b[i] && (a + b)[|a| + j] == b[j];
    }
  }

  lemma EntryNames(config: ExpansionConfig, entry: Entry)
    requires Expandable(config, entry)
    ensures var id := StringNodeId(entry.nodeIdPattern).value;
            var all := FirstSeen(Names(id));
            var names := OpenNames(all);
            && config.AllConfigured(names) && Terminated(id)
            && Distinct(names)
            && (forall n :: n in names ==>
                  '}' !in n && n in Names(id) && (Paired(all) ==> n != "Bus" && n != "Address"))
            && (forall n :: n in Names(id) ==>
                  n in all && (n in names || (Paired(all) && (n == "Bus" || n == "Address"))))
  {
    hide Names, Terminated, FirstSeen, OpenNames, StringNodeId;
    var all := FirstSeen(Names(StringNodeId(entry.nodeIdPattern).value));
    OpenNamesDistinct(all);
    forall n ensures n in OpenNames(all) <==> n in all && !(Paired(all) && n in ["Bus", "Address"]) {
      OpenNamesRest(all, n);
    }
  }

  lemma {:induction false} BaseAt(config: ExpansionConfig, names: seq<string>, bases: seq<string>, d: nat, k: nat)
    requires config.AllConfigured(names) && d < |bases| && k < Ways(config, names)
    requires forall i :: 0 <= i < |bases| ==> |Expansions(config, names, bases[i])| == Ways(config, names)
    ensures var ids, ways := BaseExpansions(config, names, bases), Ways(config, names);
            && |ids| == Times(|bases|, ways) && Times(d, ways) + k < |ids|
            && ids[Times(d, ways) + k] == Expansions(config, names, bases[d])[k]
    decreases |bases|
  {
    hide Times, Expansions, Ways;
    var n, ways := |bases| - 1, Ways(config, names);
    SlicesFit(n + 1, n + 1, ways);
    if n == 0 {
      SlicesFit(0, 0, ways);
    } else {
      BaseAt(config, names, bases[..n], if d < n then d else 0, k);
      TimesNext(d, n + 1, ways);
    }
  }

  /** What device `d` fills in, if there are devices. */
  function BaseValues(config: ExpansionConfig, names: seq<string>, d: nat): map<string, string>
    requires Paired(names) ==> d < |config.i2cDevices|
  {
    if Paired(names) then Pair(config.i2cDevices[d]) else map[]
  }

  predicate DeviceBraceFree(config: ExpansionConfig, d: nat) {
    d < |config.i2cDevices| && '{' !in config.i2cDevices[d].0 && '{' !in config.i2cDevices[d].1
  }

  /** No instance and no device used has an opening brace. */
  ghost predicate NoBraces(config: ExpansionConfig, names: seq<string>)
    requires config.AllConfigured(OpenNames(names))
  {
    && BraceFree(config, OpenNames(names))
    && (Paired(names) ==> forall d :: 0 <= d < |config.i2cDevices| ==> DeviceBraceFree(config, d))
  }

  /** In turn, the ids of each base are the fillings of the whole pattern. */
  lemma BaseIsProduct(config: ExpansionConfig, entry: Entry, d: nat)
    requires Expandable(config, entry) && InTurn(config, entry)
    requires d < |Bases(config, StringNodeId(entry.nodeIdPattern).value)|
    ensures var id := StringNodeId(entry.nodeIdPattern).value;
            var all := FirstSeen(Names(id));
            var names := OpenNames(all);
            && (Paired(all) ==> d < |config.i2cDevices|)
            && Expansions(config, names, Bases(config, id)[d])
            == Fillings(config, names, id, BaseValues(config, all, d))
            && (NoneOpen(Expansions(config, names, Bases(config, id)[d])) <==>
                  BraceFree(config, names) && (Paired(all) ==> DeviceBraceFree(config, d)))
  {
    hide Orderly, Fillings, Expansions, FirstSeen, Names, Terminated, Fill, InOrder, BraceFree, InstancesInert;
    hide NoneOpen, OpenNames, PairedId, Inert, Distinct;
    var id := StringNodeId(entry.nodeIdPattern).value;
    var all := FirstSeen(Names(id));
    var names := OpenNames(all);
    EntryNames(config, entry);
    if Paired(all) {
      var device := config.i2cDevices[d];
      assert device in config.i2cDevices;
      PairFilled(id, all, device);
      InOrderRest(["Bus", "Address"], names);
      forall i, n | 0 <= i < |names| && n in Names(id) && n in Pair(device) ensures Inert(Pair(device)[n], names[i]) {
        assert names[i] in names;
      }
      OrderlyFrom(config, names, id, Pair(device));
      ExpansionsAreFillings(config, names, id, Pair(device));
      NoBraceLeftExactly(config, names, id, Pair(device));
    } else {
      UnpairedOrder(all);
      NothingToFill(id);
      OrderlyFrom(config, names, id, map[]);
      ExpansionsAreFillings(config, names, id, map[]);
      NoBraceLeftExactly(config, names, id, map[]);
    }
  }

  lemma UnpairedOrder(names: seq<string>)
    requires !Paired(names)
    ensures Order(names) == names == OpenNames(names)
  {
    assert [] + names == names;
  }

  /** The ids of an entry, device by device and choice by choice: bus and
      address are replaced as a configured pair, then the other names one after
      the other by the choice. In turn that fills them all in at once. */
  lemma EntryIsProduct(config: ExpansionConfig, entry: Entry, d: nat, k: nat)
    requires Expandable(config, entry) && d < |Bases(config, StringNodeId(entry.nodeIdPattern).value)|
    requires k < Ways(config, OpenNames(FirstSeen(Names(StringNodeId(entry.nodeIdPattern).value))))
    ensures var id := StringNodeId(entry.nodeIdPattern).value;
            var all := FirstSeen(Names(id));
            var names := OpenNames(all);
            var (ids, ways) := (EntryIds(config, entry), Ways(config, names));
            && entry.nodeIdPattern == NAMESPACE_PREFIX + id
            && (Paired(all) ==> d < |config.i2cDevices|)
            && Choice(config, names, k).Keys == (set n | n in names)
            && |ids| == Times(|Bases(config, id)|, ways) && Times(d, ways) + k < |ids|
            && ids[Times(d, ways) + k] == Chained(Bases(config, id)[d], names, Choice(config, names, k))
            && (InTurn(config, entry) ==>
                  ids[Times(d, ways) + k] == Fill(id, Choice(config, names, k) + BaseValues(config, all, d)))
  {
    hide Expansions, Names, FirstSeen, OpenNames, Fill, Choice, PairedId, InTurn, NoneOpen, Chained, Ways, Times;
    hide StringNodeId, Distinct;
    var id := StringNodeId(entry.nodeIdPattern).value;
    var names, bases := OpenNames(FirstSeen(Names(id))), Bases(config, id);
    NodeIdExactly(entry.nodeIdPattern, id);
    EntryNames(config, entry);
    ChoiceAssigns(config, names, k);
    forall i | 0 <= i < |bases| ensures |Expansions(config, names, bases[i])| == Ways(config, names) {
      ExpansionsAreChains(config, names, bases[i]);
    }
    ExpansionsAreChains(config, names, bases[d]);
    BaseAt(config, names, bases, d, k);
    if InTurn(config, entry) {
      BaseIsProduct(config, entry, d);
    }
  }

  lemma {:induction false} BasesOpen(config: ExpansionConfig, names: seq<string>, bases: seq<string>)
    requires config.AllConfigured(names)
    ensures NoneOpen(BaseExpansions(config, names, bases)) <==>
      forall i :: 0 <= i < |bases| ==> NoneOpen(Expansions(config, names, bases[i]))
  {
    hide Expansions, NoneOpen;
    NoneOpenEmpty();
    if bases != [] {
      var n := |bases| - 1;
      BasesOpen(config, names, bases[..n]);
      NoneOpenBoth(BaseExpansions(config, names, bases[..n]), Expansions(config, names, bases[n]));
      assert forall i :: 0 <= i < n ==> bases[..n][i] == bases[i];
    }
  }

  lemma NoneOpenEmpty()
    ensures NoneOpen([])
  {}

  /** An entry is accepted exactly if no id has an opening brace and the product
      keeps the limit; in turn, if no instance and no device has one. */
  lemma EntryAccepted(config: ExpansionConfig, entry: Entry)
    requires Expandable(config, entry)
    ensures var id := StringNodeId(entry.nodeIdPattern).value;
            var all := FirstSeen(Names(id));
            var fits := Times(|Bases(config, id)|, Ways(config, OpenNames(all))) <= config.maximumNodes;
            && (Expands(config, entry) ==> fits)
            && (InTurn(config, entry) ==> (Expands(config, entry) <==> NoBraces(config, all) && fits))
  {
    hide Expansions, Names, FirstSeen, OpenNames, Fill, Choice, PairedId, InTurn, NoneOpen, BraceFree, Times;
    hide StringNodeId, DeviceBraceFree;
    var id := StringNodeId(entry.nodeIdPattern).value;
    var all := FirstSeen(Names(id));
    var names, bases := OpenNames(all), Bases(config, id);
    EntryIsProduct(config, entry, 0, 0);
    if InTurn(config, entry) {
      forall i | 0 <= i < |bases|
        ensures NoneOpen(Expansions(config, names, bases[i])) <==>
          BraceFree(config, names) && (Paired(all) ==> DeviceBraceFree(config, i))
      {
        BaseIsProduct(config, entry, i);
      }
      BasesOpen(config, names, bases);
    }
  }
}
