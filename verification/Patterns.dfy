/** Placeholders in node id patterns and their replacement
    (opcua-bridge/src/registry.cpp, lines 77-102; opcua-bridge/src/v8_snapshot.cpp,
    lines 35-55). */
module Patterns {
  import opened Words

  datatype PatternError = UnterminatedPlaceholder | EmptyPlaceholder

  // ---------- searching ----------

  /** The first position of `c` from `from` on, or the length. */
  function FindChar(s: string, c: char, from: nat): (k: nat)
    requires from <= |s|
    ensures from <= k <= |s| && (k < |s| ==> s[k] == c)
    ensures forall j :: from <= j < k ==> s[j] != c
    decreases |s| - from
  {
    if from == |s| || s[from] == c then from else FindChar(s, c, from + 1)
  }

  predicate OccursAt(s: string, needle: string, k: nat) {
    k + |needle| <= |s| && s[k..k + |needle|] == needle
  }

  /** The first occurrence of `needle` from `from` on. */
  function Find(s: string, needle: string, from: nat): (r: Option<nat>)
    requires from <= |s|
    ensures r.Some? ==> from <= r.value && OccursAt(s, needle, r.value)
    ensures forall j :: from <= j < (if r.Some? then r.value else |s| + 1) ==> !OccursAt(s, needle, j)
    decreases |s| - from
  {
    if OccursAt(s, needle, from) then Some(from)
    else if from == |s| then None
    else Find(s, needle, from + 1)
  }

  // ---------- replacing every occurrence ----------

  /** Every occurrence replaced from left to right; what was inserted is not
      looked at again. */
  function Replaced(s: string, needle: string, replacement: string): string
    requires needle != ""
    decreases |s|
  {
    if OccursAt(s, needle, 0) then replacement + Replaced(s[|needle|..], needle, replacement)
    else if s == "" then ""
    else [s[0]] + Replaced(s[1..], needle, replacement)
  }

  lemma OccursInSuffix(s: string, needle: string, k: nat)
    requires k <= |s|
    ensures OccursAt(s[k..], needle, 0) <==> OccursAt(s, needle, k)
  {
    if k + |needle| <= |s| {
      assert s[k..][0..|needle|] == s[k..k + |needle|];
    }
  }

  lemma ReplacedStep(s: string, needle: string, replacement: string, from: nat)
    requires needle != "" && from < |s| && !OccursAt(s, needle, from)
    ensures Replaced(s[from..], needle, replacement) == [s[from]] + Replaced(s[from + 1..], needle, replacement)
  {
    hide OccursAt;
    OccursInSuffix(s, needle, from);
    assert s[from..][1..] == s[from + 1..];
  }

  lemma {:induction false} ReplacedSkips(s: string, needle: string, replacement: string, from: nat, k: nat)
    requires needle != "" && from <= k <= |s| && forall j :: from <= j < k ==> !OccursAt(s, needle, j)
    ensures Replaced(s[from..], needle, replacement) == s[from..k] + Replaced(s[k..], needle, replacement)
    decreases k - from
  {
    hide OccursAt, Replaced;
    if from < k {
      ReplacedStep(s, needle, replacement, from);
      ReplacedSkips(s, needle, replacement, from + 1, k);
      assert [s[from]] + s[from + 1..k] == s[from..k];
      Associated([s[from]], s[from + 1..k], Replaced(s[k..], needle, replacement));
    }
  }

  lemma Associated(a: string, b: string, c: string)
    ensures a + (b + c) == (a + b) + c
  {}

  lemma NothingReplaced(s: string, needle: string, replacement: string, from: nat)
    requires needle != "" && from <= |s| && forall j :: from <= j <= |s| ==> !OccursAt(s, needle, j)
    ensures Replaced(s[from..], needle, replacement) == s[from..]
  {
    ReplacedSkips(s, needle, replacement, from, |s|);
    assert s[|s|..] == "" && s[from..|s|] == s[from..];
  }

  /** In place and left to right. It ends for every replacement, also one that
      contains the needle, because the cursor moves past what was inserted. */
  method ReplaceAll(value: string, needle: string, replacement: string) returns (r: string)
    requires needle != ""
    ensures r == Replaced(value, needle, replacement)
  {
    r := value;
    var cursor := 0;
    var found := Find(r, needle, cursor);
    assert r[0..] == r && r[..0] == "";
    while found.Some?
      invariant cursor <= |r| && found == Find(r, needle, cursor)
      invariant r[..cursor] + Replaced(r[cursor..], needle, replacement) == Replaced(value, needle, replacement)
      decreases |r| - cursor
    {
      ghost var before, start := r, cursor;
      cursor := found.value;
      ReplaceNext(before, needle, replacement, start, cursor);
      r := r[..cursor] + replacement + r[cursor + |needle|..];
      cursor := cursor + |replacement|;
      assert r[..cursor] == before[..found.value] + replacement;
      assert r[cursor..] == before[found.value + |needle|..];
      found := Find(r, needle, cursor);
    }
    NothingReplaced(r, needle, replacement, cursor);
    assert r[..cursor] + r[cursor..] == r;
  }

  lemma ReplaceNext(s: string, needle: string, replacement: string, from: nat, k: nat)
    requires needle != "" && from <= k && k + |needle| <= |s| && OccursAt(s, needle, k)
    requires forall j :: from <= j < k ==> !OccursAt(s, needle, j)
    ensures s[..from] + Replaced(s[from..], needle, replacement)
         == s[..k] + replacement + Replaced(s[k + |needle|..], needle, replacement)
  {
    hide Replaced, OccursAt;
    ReplacedSkips(s, needle, replacement, from, k);
    ReplacedHere(s, needle, replacement, k);
    var tail := Replaced(s[k + |needle|..], needle, replacement);
    Regroup(s[..from], s[from..k], replacement, tail);
    assert s[..from] + s[from..k] == s[..k];
  }

  lemma Regroup(a: string, b: string, c: string, d: string)
    ensures a + (b + (c + d)) == (a + b) + c + d
  {}

  lemma ReplacedHere(s: string, needle: string, replacement: string, k: nat)
    requires needle != "" && OccursAt(s, needle, k)
    ensures k + |needle| <= |s|
    ensures Replaced(s[k..], needle, replacement) == replacement + Replaced(s[k + |needle|..], needle, replacement)
  {
    OccursInSuffix(s, needle, k);
    assert s[k..][|needle|..] == s[k + |needle|..];
  }

  // ---------- placeholders ----------

  /** Every opening brace met outside a placeholder is closed. */
  predicate Terminated(s: string)
    decreases |s|
  {
    if s == "" then true
    else if s[0] != '{' then Terminated(s[1..])
    else FindChar(s, '}', 1) < |s| && Terminated(s[FindChar(s, '}', 1) + 1..])
  }

  /** The names between braces, from left to right. */
  function Names(s: string): (names: seq<string>)
    ensures forall n :: n in names ==> '}' !in n
    decreases |s|
  {
    if s == "" then []
    else if s[0] != '{' then Names(s[1..])
    else
      var end := FindChar(s, '}', 1);
      if end == |s| then [] else [s[1..end]] + Names(s[end + 1..])
  }

  lemma {:induction false} NamesSkip(s: string, k: nat)
    requires k <= |s| && forall j :: 0 <= j < k ==> s[j] != '{'
    ensures Names(s) == Names(s[k..]) && (Terminated(s) <==> Terminated(s[k..]))
    decreases k
  {
    if k == 0 {
      assert s[0..] == s;
    } else {
      NamesSkip(s[1..], k - 1);
      assert s[1..][k - 1..] == s[k..];
    }
  }

  lemma FindCharShifts(s: string, c: char, from: nat, k: nat)
    requires from <= k <= |s|
    ensures FindChar(s[from..], c, k - from) == FindChar(s, c, k) - from
  {
  }

  /** A placeholder at `k`, and what follows it. */
  lemma NamesAt(s: string, k: nat)
    requires k < |s| && s[k] == '{'
    ensures var end := FindChar(s, '}', k + 1);
            if end == |s| then !Terminated(s[k..])
            else
              && Names(s[k..]) == [s[k + 1..end]] + Names(s[end + 1..])
              && (Terminated(s[k..]) <==> Terminated(s[end + 1..]))
  {
    var end := FindChar(s, '}', k + 1);
    FindCharShifts(s, '}', k, k + 1);
    if end < |s| {
      assert s[k..][1..end - k] == s[k + 1..end];
      assert s[k..][end - k + 1..] == s[end + 1..];
    }
  }

  /** All names, repetitions included: fails exactly on an unclosed brace. */
  method ExtractPlaceholders(pattern: string) returns (r: Result<seq<string>, PatternError>)
    ensures r == if Terminated(pattern) then Ok(Names(pattern)) else Err(UnterminatedPlaceholder)
  {
    hide Names, Terminated, FindChar;
    var names: seq<string> := [];
    var offset := FindChar(pattern, '{', 0);
    assert pattern[0..] == pattern;
    NamesFrom(pattern, 0);
    NamesAtEnd();
    while offset < |pattern|
      invariant offset <= |pattern| && (offset < |pattern| ==> pattern[offset] == '{')
      invariant Names(pattern) == names + Names(pattern[offset..])
      invariant Terminated(pattern) <==> Terminated(pattern[offset..])
    {
      var close := FindChar(pattern, '}', offset + 1);
      NamesAt(pattern, offset);
      if close == |pattern| {
        return Err(UnterminatedPlaceholder);
      }
      names := names + [pattern[offset + 1..close]];
      NamesFrom(pattern, close + 1);
      offset := FindChar(pattern, '{', close + 1);
    }
    assert pattern[offset..] == "" && names + [] == names;
    r := Ok(names);
  }

  /** Names from a position are names from the next opening brace. */
  lemma NamesFrom(s: string, from: nat)
    requires from <= |s|
    ensures var k := FindChar(s, '{', from);
            Names(s[from..]) == Names(s[k..]) && (Terminated(s[from..]) <==> Terminated(s[k..]))
  {
    var k := FindChar(s, '{', from);
    NamesSkip(s[from..], k - from);
    assert s[from..][k - from..] == s[k..];
  }

  lemma NamesAtEnd()
    ensures Names("") == [] && Terminated("") && FirstSeen([]) == []
  {}

  function FirstSeen(names: seq<string>): (r: seq<string>)
    ensures forall n :: n in r <==> n in names
    ensures forall i, j :: 0 <= i < j < |r| ==> r[i] != r[j]
  {
    if names == [] then []
    else
      var rest, last := FirstSeen(names[..|names| - 1]), names[|names| - 1];
      if last in rest then rest else rest + [last]
  }

  lemma FirstSeenNext(names: seq<string>, name: string)
    ensures FirstSeen(names + [name])
         == if name in FirstSeen(names) then FirstSeen(names) else FirstSeen(names) + [name]
  {
    assert (names + [name])[..|names|] == names;
  }

  /** Distinct names in order of first appearance; empty names are refused. */
  method Placeholders(pattern: string) returns (r: Result<seq<string>, PatternError>)
    ensures r.Ok? <==> Terminated(pattern) && "" !in Names(pattern)
    ensures r.Ok? ==> r.value == FirstSeen(Names(pattern))
  {
    hide Names, Terminated, FindChar, FirstSeen;
    var result: seq<string>, seen: set<string> := [], {};
    ghost var names: seq<string> := [];
    var cursor := FindChar(pattern, '{', 0);
    assert pattern[0..] == pattern;
    NamesFrom(pattern, 0);
    NamesAtEnd();
    while cursor < |pattern|
      invariant cursor <= |pattern| && (cursor < |pattern| ==> pattern[cursor] == '{')
      invariant Names(pattern) == names + Names(pattern[cursor..])
      invariant Terminated(pattern) <==> Terminated(pattern[cursor..])
      invariant "" !in names && result == FirstSeen(names)
      invariant forall n :: n in seen <==> n in result
    {
      var end := FindChar(pattern, '}', cursor + 1);
      NamesAt(pattern, cursor);
      if end == |pattern| {
        return Err(UnterminatedPlaceholder);
      }
      var name := pattern[cursor + 1..end];
      assert Names(pattern) == names + ([name] + Names(pattern[end + 1..]));
      if name == "" {
        return Err(EmptyPlaceholder);
      }
      if name !in seen {
        seen := seen + {name};
        result := result + [name];
      }
      FirstSeenNext(names, name);
      names := names + [name];
      NamesFrom(pattern, end + 1);
      cursor := FindChar(pattern, '{', end + 1);
    }
    assert pattern[cursor..] == "" && names + [] == names;
    r := Ok(result);
  }

  // ---------- filling a pattern ----------

  /** The pattern with every placeholder that `values` names replaced, all at
      once. */
  function Fill(s: string, values: map<string, string>): string
    decreases |s|
  {
    if s == "" then ""
    else if s[0] != '{' then [s[0]] + Fill(s[1..], values)
    else
      var end := FindChar(s, '}', 1);
      if end == |s| then s
      else (if s[1..end] in values then values[s[1..end]] else s[..end + 1]) + Fill(s[end + 1..], values)
  }

  function Token(name: string): string {
    ['{'] + name + ['}']
  }

  predicate EndsWith(s: string, suffix: string) {
    |suffix| <= |s| && s[|s| - |suffix|..] == suffix
  }

  /** No name in the pattern hides `{name` at its end. */
  predicate Apart(s: string, name: string) {
    forall n :: n in Names(s) ==> !EndsWith(n, ['{'] + name)
  }

  lemma OccursChar(s: string, needle: string, k: nat, j: nat)
    requires j < |needle|
    ensures OccursAt(s, needle, k) ==> s[k + j] == needle[j]
  {
    if OccursAt(s, needle, k) {
      assert s[k..k + |needle|][j] == s[k + j];
    }
  }

  lemma NoTokenWithoutClose(s: string, name: string)
    requires forall j :: 1 <= j < |s| ==> s[j] != '}'
    ensures forall k :: 0 <= k <= |s| ==> !OccursAt(s, Token(name), k)
  {
    forall k | 0 <= k <= |s| ensures !OccursAt(s, Token(name), k) {
      OccursChar(s, Token(name), k, |name| + 1);
    }
  }

  /** `end` is the first closing brace of a placeholder that starts the text. */
  predicate Closes(s: string, end: nat) {
    && 1 <= end < |s| && s[0] == '{' && s[end] == '}'
    && forall j :: 1 <= j < end ==> s[j] != '}'
  }

  /** A token ends at the first closing brace after it begins. */
  lemma TokenEndsHere(s: string, name: string, end: nat, k: nat)
    requires Closes(s, end) && '}' !in name && k <= end && OccursAt(s, Token(name), k)
    ensures end == k + |name| + 1
  {
    OccursChar(s, Token(name), k, 0);
    OccursChar(s, Token(name), k, |name| + 1);
    if k < end < k + |name| + 1 {
      OccursChar(s, Token(name), k, end - k);
    }
  }

  lemma TokenNotInside(s: string, name: string, end: nat, k: nat)
    requires Closes(s, end) && '}' !in name && 1 <= k <= end && !EndsWith(s[1..end], ['{'] + name)
    ensures !OccursAt(s, Token(name), k)
  {
    if OccursAt(s, Token(name), k) {
      TokenEndsHere(s, name, end, k);
      SuffixOfName(s, name, end, k);
    }
  }

  lemma SuffixOfName(s: string, name: string, end: nat, k: nat)
    requires 1 <= k && OccursAt(s, Token(name), k) && end == k + |name| + 1
    ensures EndsWith(s[1..end], ['{'] + name)
  {
    assert s[1..end][k - 1..] == s[k..k + |name| + 2][..|name| + 1] == ['{'] + name;
  }

  lemma TokenAtStart(s: string, name: string, end: nat)
    requires Closes(s, end) && '}' !in name
    ensures OccursAt(s, Token(name), 0) <==> s[1..end] == name
  {
    if OccursAt(s, Token(name), 0) {
      TokenEndsHere(s, name, end, 0);
      assert s[1..end] == s[0..|name| + 2][1..|name| + 1] == name;
    }
  }

  lemma {:induction false} FillSkips(v: string, s: string, values: map<string, string>)
    requires '{' !in v
    ensures Fill(v + s, values) == v + Fill(s, values)
    ensures Names(v + s) == Names(s) && (Terminated(v + s) <==> Terminated(s))
    decreases |v|
  {
    if v == "" {
      assert v + s == s;
    } else {
      assert (v + s)[1..] == v[1..] + s;
      FillSkips(v[1..], s, values);
    }
  }

  lemma FirstCloseKept(s: string, x: string)
    requires s != "" && s[|s| - 1] == '}' && FindChar(s, '}', 1) == |s| - 1 && |s| >= 2
    ensures FindChar(s + x, '}', 1) == |s| - 1
  {
    assert (s + x)[|s| - 1] == '}';
  }

  lemma FirstClose(s: string, end: nat)
    requires Closes(s, end)
    ensures FindChar(s, '}', 1) == end
  {
    hide FindChar;
  }

  lemma CloseOfPrefix(s: string)
    requires s != "" && s[0] == '{' && FindChar(s, '}', 1) < |s|
    ensures FindChar(s[..FindChar(s, '}', 1) + 1], '}', 1) == FindChar(s, '}', 1)
  {}

  lemma TokenStays(s: string, end: nat, rest: string, b: map<string, string>)
    requires s != "" && s[0] == '{' && end == FindChar(s, '}', 1) < |s|
    ensures var t, n := s[..end + 1] + rest, s[1..end];
            && Fill(t, b) == (if n in b then b[n] else s[..end + 1]) + Fill(rest, b)
            && Names(t) == [n] + Names(rest) && (Terminated(t) <==> Terminated(rest))
  {
    var head := s[..end + 1];
    CloseOfPrefix(s);
    FirstCloseKept(head, rest);
    assert (head + rest)[1..end] == s[1..end];
    assert (head + rest)[..end + 1] == head;
    assert (head + rest)[end + 1..] == rest;
  }

  // ---------- replacement by replacement ----------

  /** No token of `name` begins inside `v`, whatever follows it. */
  predicate Inert(v: string, name: string) {
    forall j :: 0 <= j < |v| ==> !(v[j..] <= Token(name)) && !(Token(name) <= v[j..])
  }

  lemma NoOpeningInert(v: string, name: string)
    requires '{' !in v
    ensures Inert(v, name)
  {
    forall j | 0 <= j < |v| ensures !(v[j..] <= Token(name)) && !(Token(name) <= v[j..]) {
      assert v[j..][0] == v[j] != '{' == Token(name)[0];
    }
  }

  lemma BeginsInside(v: string, rest: string, t: string, k: nat)
    requires k < |v| && OccursAt(v + rest, t, k)
    ensures v[k..] <= t || t <= v[k..]
  {
    var s := v + rest;
    if k + |t| <= |v| {
      assert v[k..][..|t|] == s[k..k + |t|];
    } else {
      assert v[k..] == s[k..k + |t|][..|v| - k];
    }
  }

  lemma InertSkipped(v: string, rest: string, name: string, value: string)
    requires Inert(v, name)
    ensures Token(name) != ""
    ensures Replaced(v + rest, Token(name), value) == v + Replaced(rest, Token(name), value)
  {
    hide Replaced;
    var s, t := v + rest, Token(name);
    forall k | 0 <= k < |v| && OccursAt(s, t, k) ensures false {
      BeginsInside(v, rest, t, k);
    }
    ReplacedSkips(s, t, value, 0, |v|);
    assert s[0..] == s && s[0..|v|] == v && s[|v|..] == rest;
  }

  lemma TokenStarts(s: string, name: string)
    ensures Token(name) != ""
    ensures s == "" || s[0] != '{' ==> !OccursAt(s, Token(name), 0)
  {
    OccursChar(s, Token(name), 0, 0);
  }

  /** What a placeholder that starts the text becomes when the token of a name
      is replaced: the token may be the placeholder or only its end. */
  function HeadReplaced(s: string, name: string, value: string, end: nat): string
    requires 1 <= end < |s|
  {
    if s[1..end] == name then value
    else if EndsWith(s[1..end], ['{'] + name) then s[..end - |name| - 1] + value
    else s[..end + 1]
  }

  lemma PlaceholderReplaced(s: string, name: string, value: string, end: nat)
    requires '}' !in name && Closes(s, end)
    ensures Token(name) != ""
    ensures Replaced(s, Token(name), value)
         == HeadReplaced(s, name, value, end) + Replaced(s[end + 1..], Token(name), value)
  {
    hide Replaced, EndsWith, OccursAt;
    var t := Token(name);
    TokenAtStart(s, name, end);
    assert s[0..] == s;
    if s[1..end] == name {
      ReplacedHere(s, t, value, 0);
      assert |t| == end + 1;
    } else if EndsWith(s[1..end], ['{'] + name) {
      TokenAtEnd(s, name, end);
      var k := end - |name| - 1;
      forall j | 0 <= j < k ensures !OccursAt(s, t, j) {
        if OccursAt(s, t, j) {
          TokenEndsHere(s, name, end, j);
        }
      }
      ReplacedSkips(s, t, value, 0, k);
      ReplacedHere(s, t, value, k);
      assert s[0..k] == s[..k] && k + |t| == end + 1;
    } else {
      forall k | 1 <= k <= end ensures !OccursAt(s, t, k) {
        TokenNotInside(s, name, end, k);
      }
      ReplacedSkips(s, t, value, 0, end + 1);
      assert s[0..end + 1] == s[..end + 1];
    }
  }

  lemma TokenAtEnd(s: string, name: string, end: nat)
    requires Closes(s, end) && EndsWith(s[1..end], ['{'] + name)
    ensures |name| + 2 <= end && OccursAt(s, Token(name), end - |name| - 1)
  {
    var k := end - |name| - 1;
    assert s[1..end][k - 1..] == s[k..end];
    assert s[k..end + 1] == s[k..end] + [s[end]];
  }

  /** Replacing the token of a name in a filled pattern is filling in that name
      too, if no token begins in what was filled in and no name that is left
      hides another at its end. */
  lemma {:induction false} ReplacedAfterFill(s: string, a: map<string, string>, name: string, value: string)
    requires '}' !in name
    requires forall n :: n in Names(s) ==> if n in a then Inert(a[n], name) else !EndsWith(n, ['{'] + name)
    ensures Replaced(Fill(s, a), Token(name), value) == Fill(s, map[name := value] + a)
    decreases |s|
  {
    hide Replaced, Fill, Names, OccursAt, FindChar, Token, EndsWith, Inert;
    var t, both := Token(name), map[name := value] + a;
    TokenStarts(s, name);
    NoPlaceholder(s, a);
    NoPlaceholder(s, both);
    if s == "" {
      NothingReplaced(s, t, value, 0);
      assert s[0..] == s;
    } else if s[0] != '{' {
      var first, rest := [s[0]], Fill(s[1..], a);
      assert s == first + s[1..];
      FillSkips(first, s[1..], a);
      FillSkips(first, s[1..], both);
      ReplacedAfterFill(s[1..], a, name, value);
      NoOpeningInert(first, name);
      InertSkipped(first, rest, name, value);
    } else {
      var end := FindChar(s, '}', 1);
      if end == |s| {
        NoTokenWithoutClose(s, name);
        NothingReplaced(s, t, value, 0);
        assert s[0..] == s;
      } else {
        var n, rest := s[1..end], Fill(s[end + 1..], a);
        assert s == s[..end + 1] + s[end + 1..];
        TokenStays(s, end, s[end + 1..], a);
        TokenStays(s, end, s[end + 1..], both);
        assert n in Names(s);
        ReplacedAfterFill(s[end + 1..], a, name, value);
        if n in a {
          InertSkipped(a[n], rest, name, value);
        } else {
          KeptReplaced(s, end, rest, name, value);
        }
      }
    }
  }

  /** A placeholder that does not hide the name at its end, before other text. */
  lemma KeptReplaced(s: string, end: nat, rest: string, name: string, value: string)
    requires Closes(s, end) && '}' !in name && !EndsWith(s[1..end], ['{'] + name)
    ensures Token(name) != ""
    ensures Replaced(s[..end + 1] + rest, Token(name), value)
         == (if s[1..end] == name then value else s[..end + 1]) + Replaced(rest, Token(name), value)
  {
    hide Replaced, EndsWith;
    var x := s[..end + 1] + rest;
    assert x[1..end] == s[1..end] && x[..end + 1] == s[..end + 1] && x[end + 1..] == rest;
    PlaceholderReplaced(x, name, value, end);
  }

  /** Replacing the token of a name everywhere is filling in that name if and
      only if no other name of the pattern ends in it, or nothing changes. */
  lemma ReplacedIsFilled(s: string, name: string, value: string)
    requires '}' !in name
    ensures Token(name) != ""
    ensures Replaced(s, Token(name), value) == Fill(s, map[name := value]) <==> Apart(s, name) || value == Token(name)
  {
    hide Replaced, Fill, Names, EndsWith;
    if Apart(s, name) {
      NothingToFill(s);
      ReplacedAfterFill(s, map[], name, value);
      assert map[name := value] + map[] == map[name := value];
    } else if value == Token(name) {
      SameReplaced(s, Token(name));
      SameFilled(s, name);
    } else {
      TangledDiffers(s, name, value);
    }
  }

  lemma {:induction false} SameReplaced(s: string, t: string)
    requires t != ""
    ensures Replaced(s, t, t) == s
    decreases |s|
  {
    if OccursAt(s, t, 0) {
      SameReplaced(s[|t|..], t);
      assert s == t + s[|t|..];
    } else if s != "" {
      SameReplaced(s[1..], t);
      assert s == [s[0]] + s[1..];
    }
  }

  lemma {:induction false} SameFilled(s: string, name: string)
    ensures Fill(s, map[name := Token(name)]) == s
    decreases |s|
  {
    hide FindChar, Fill, Names, Terminated;
    var a := map[name := Token(name)];
    NoPlaceholder(s, a);
    if s == "" {
    } else if s[0] != '{' {
      assert s == [s[0]] + s[1..];
      FillSkips([s[0]], s[1..], a);
      SameFilled(s[1..], name);
    } else if FindChar(s, '}', 1) < |s| {
      var end := FindChar(s, '}', 1);
      SameFilled(s[end + 1..], name);
      assert s == s[..end + 1] + s[end + 1..];
      TokenStays(s, end, s[end + 1..], a);
      assert s[..end + 1] == Token(s[1..end]);
    }
  }

  /** How the two lengths compare, and that texts of one length still differ. */
  predicate Drifts(replaced: string, filled: string, grows: int, apart: bool) {
    if grows > 0 then (if apart then |replaced| >= |filled| else |replaced| > |filled|)
    else if grows < 0 then (if apart then |replaced| <= |filled| else |replaced| < |filled|)
    else |replaced| == |filled| && (!apart ==> replaced != filled)
  }

  lemma DriftsOn(head: string, x: string, keptHead: string, y: string, grows: int, headApart: bool, apart: bool)
    requires Drifts(head, keptHead, grows, headApart) && Drifts(x, y, grows, apart)
    ensures Drifts(head + x, keptHead + y, grows, headApart && apart)
  {
    if grows == 0 {
      assert (head + x)[..|head|] == head && (head + x)[|head|..] == x;
      assert (keptHead + y)[..|head|] == keptHead && (keptHead + y)[|head|..] == y;
    }
  }

  lemma {:induction false} TangledDrifts(s: string, name: string, value: string)
    requires '}' !in name && value != Token(name)
    ensures Token(name) != ""
    ensures Drifts(Replaced(s, Token(name), value), Fill(s, map[name := value]),
                   |value| - |Token(name)|, Apart(s, name))
    decreases |s|
  {
    hide Replaced, Fill, Names, OccursAt, FindChar, Token, EndsWith, Inert, Drifts;
    var t, values := Token(name), map[name := value];
    TokenStarts(s, name);
    NoPlaceholder(s, values);
    if s == "" {
      NothingReplaced(s, t, value, 0);
      assert s[0..] == s;
      DriftsNot(s, |value| - |t|);
    } else if s[0] != '{' {
      var first := [s[0]];
      assert s == first + s[1..];
      FillSkips(first, s[1..], values);
      NoOpeningInert(first, name);
      InertSkipped(first, s[1..], name, value);
      TangledDrifts(s[1..], name, value);
      DriftsNot(first, |value| - |t|);
      DriftsOn(first, Replaced(s[1..], t, value), first, Fill(s[1..], values),
               |value| - |t|, true, Apart(s[1..], name));
    } else {
      var end := FindChar(s, '}', 1);
      if end == |s| {
        NoTokenWithoutClose(s, name);
        NothingReplaced(s, t, value, 0);
        assert s[0..] == s;
        DriftsNot(s, |value| - |t|);
      } else {
        var n, rest := s[1..end], s[end + 1..];
        assert s == s[..end + 1] + rest;
        TokenStays(s, end, rest, values);
        PlaceholderReplaced(s, name, value, end);
        TangledDrifts(rest, name, value);
        HeadDrifts(s, name, value, end);
        ApartNext(s, name, n, rest);
        DriftsOn(HeadReplaced(s, name, value, end), Replaced(rest, t, value),
                 if n == name then value else s[..end + 1], Fill(rest, values), |value| - |t|,
                 !EndsWith(n, ['{'] + name), Apart(rest, name));
      }
    }
  }

  lemma ApartNext(s: string, name: string, n: string, rest: string)
    requires Names(s) == [n] + Names(rest)
    ensures Apart(s, name) <==> !EndsWith(n, ['{'] + name) && Apart(rest, name)
  {
    hide Names, EndsWith;
    assert n in Names(s);
    assert forall p :: p in Names(s) <==> p == n || p in Names(rest);
  }

  lemma DriftsNot(s: string, grows: int)
    ensures Drifts(s, s, grows, true)
  {}

  lemma DifferentEnds(x: string, y: string, z: string)
    requires y != z
    ensures x + y != x + z
  {
    assert (x + y)[|x|..] == y && (x + z)[|x|..] == z;
  }

  lemma HeadDrifts(s: string, name: string, value: string, end: nat)
    requires Closes(s, end) && value != Token(name)
    ensures Drifts(HeadReplaced(s, name, value, end), if s[1..end] == name then value else s[..end + 1],
                   |value| - |Token(name)|, !EndsWith(s[1..end], ['{'] + name))
  {
    var n := s[1..end];
    if EndsWith(n, ['{'] + name) {
      TokenAtEnd(s, name, end);
      var k := end - |name| - 1;
      assert s[k..end + 1] == Token(name);
      assert s[..end + 1] == s[..k] + Token(name);
      DifferentEnds(s[..k], value, Token(name));
    }
  }

  lemma TangledDiffers(s: string, name: string, value: string)
    requires '}' !in name && value != Token(name) && !Apart(s, name)
    ensures Token(name) != ""
    ensures Replaced(s, Token(name), value) != Fill(s, map[name := value])
  {
    hide Replaced, Fill, Apart;
    TangledDrifts(s, name, value);
  }

  /** None of the names ends in an opening brace and an earlier one. */
  predicate InOrder(names: seq<string>) {
    forall i, j :: 0 <= i < j < |names| ==> !EndsWith(names[j], ['{'] + names[i])
  }

  /** Only an earlier name can be the end of a name. */
  lemma HiddenEarlier(names: seq<string>, n: string, i: nat)
    requires InOrder(names) && n in names && i < |names| && EndsWith(n, ['{'] + names[i])
    ensures n in names[..i]
  {
    hide EndsWith;
    var j :| 0 <= j < |names| && names[j] == n;
    if j < i {
      InPrefix(names, j, i);
    } else {
      NotItsOwnEnd(n);
    }
  }

  lemma InPrefix(s: seq<string>, j: nat, i: nat)
    requires j < i <= |s|
    ensures s[j] in s[..i]
  {
    assert s[..i][j] == s[j];
  }

  lemma NotItsOwnEnd(n: string)
    ensures !EndsWith(n, ['{'] + n)
  {}

  // ---------- values that hold a token ----------

  /** Filling in `first` and then replacing the token of `name` fills in both. */
  predicate FilledInTurn(s: string, first: string, v: string, name: string, w: string) {
    Replaced(Fill(s, map[first := v]), Token(name), w) == Fill(s, map[name := w] + map[first := v])
  }

  lemma {:induction false} FillOthers(s: string, a: map<string, string>)
    requires forall n :: n in Names(s) ==> n !in a
    ensures Fill(s, a) == s
    decreases |s|
  {
    hide FindChar, Fill, Names;
    NoPlaceholder(s, a);
    if s == "" {
    } else if s[0] != '{' {
      assert s == [s[0]] + s[1..];
      FillSkips([s[0]], s[1..], a);
      FillOthers(s[1..], a);
    } else if FindChar(s, '}', 1) < |s| {
      var end := FindChar(s, '}', 1);
      assert s == s[..end + 1] + s[end + 1..];
      TokenStays(s, end, s[end + 1..], a);
      assert s[1..end] in Names(s);
      FillOthers(s[end + 1..], a);
    }
  }

  /** The names in a proper suffix of a token end the token's name. */
  lemma {:induction false} SuffixNames(name: string, k: nat)
    requires '}' !in name && 1 <= k <= |Token(name)|
    ensures forall p :: p in Names(Token(name)[k..]) ==> EndsWith(name, ['{'] + p)
    decreases |Token(name)| - k
  {
    hide FindChar, Names, Terminated;
    var t := Token(name);
    var f := t[k..];
    NoPlaceholder(f, map[]);
    NamesAtEnd();
    if k < |t| && t[k] != '{' {
      assert f == [t[k]] + t[k + 1..];
      FillSkips([t[k]], t[k + 1..], map[]);
      SuffixNames(name, k + 1);
    } else if k < |t| {
      forall j | 1 <= j < |f| - 1 ensures f[j] != '}' {
        assert f[j] == name[k + j - 1];
      }
      FirstClose(f, |f| - 1);
      assert f[..|f|] + "" == f;
      TokenStays(f, |f| - 1, "", map[]);
      var p := f[1..|f| - 1];
      assert p == name[k..] && name[k - 1..] == ['{'] + p;
      assert Names(f) == [p];
    }
  }

  lemma {:induction false} OccurrenceShortens(s: string, t: string, k: nat)
    requires t != "" && k <= |s|
    ensures |Replaced(s, t, "")| <= |s|
    ensures OccursAt(s, t, k) ==> |Replaced(s, t, "")| < |s|
    decreases |s|
  {
    hide OccursAt;
    OccursLength(s, t, 0);
    OccursLength(s, t, k);
    if OccursAt(s, t, 0) {
      OccurrenceShortens(s[|t|..], t, 0);
    } else if s != "" {
      if k > 0 {
        OccursInSuffix(s, t, k);
        OccursInSuffix(s[1..], t, k - 1);
        assert s[1..][k - 1..] == s[k..];
      }
      OccurrenceShortens(s[1..], t, if k > 0 then k - 1 else 0);
    }
  }

  lemma OccursLength(s: string, t: string, k: nat)
    ensures OccursAt(s, t, k) ==> k + |t| <= |s|
  {}

  /** A value in which a token of `name` begins, completed by what follows. */
  lemma BegunToken(first: string, v: string, name: string, j: nat)
    requires '}' !in first && '}' !in name && first != name
    requires !EndsWith(first, ['{'] + name) && !EndsWith(name, ['{'] + first)
    requires j < |v| && (v[j..] <= Token(name) || Token(name) <= v[j..])
    ensures exists s :: Apart(s, name) && !FilledInTurn(s, first, v, name, "")
  {
    hide Replaced, Fill, Names, FindChar, OccursAt;
    var t, a := Token(name), map[first := v];
    var both := map[name := ""] + a;
    var k := if |v| - j <= |t| then |v| - j else |t|;
    var filler := t[k..];
    var s, x := Token(first) + filler, v + filler;
    SuffixNames(name, k);
    FillOthers(filler, a);
    FillOthers(filler, both);
    TokenFilled(first, filler, a);
    TokenFilled(first, filler, both);
    assert x[j..j + |t|] == t by {
      assert v[j..][..k] == t[..k];
      assert x[j..j + |t|] == v[j..][..k] + filler[..|t| - k];
    }
    TokenOccurs(x, t, j);
    OccurrenceShortens(x, t, j);
    assert Apart(s, name) && !FilledInTurn(s, first, v, name, "");
  }

  lemma TokenOccurs(s: string, t: string, k: nat)
    requires k + |t| <= |s| && s[k..k + |t|] == t
    ensures OccursAt(s, t, k)
  {}

  lemma TokenFilled(name: string, rest: string, a: map<string, string>)
    requires '}' !in name
    ensures Fill(Token(name) + rest, a) == (if name in a then a[name] else Token(name)) + Fill(rest, a)
    ensures Names(Token(name) + rest) == [name] + Names(rest)
  {
    hide Fill, Names, FindChar, Terminated;
    var t := Token(name);
    forall j | 1 <= j < |t| - 1 ensures t[j] != '}' {
      assert t[j] == name[j - 1];
    }
    FirstClose(t, |t| - 1);
    assert t[..|t| - 1 + 1] == t && t[1..|t| - 1] == name;
    TokenStays(t, |t| - 1, rest, a);
  }

  /** Of two names filled in one after the other, exactly the values in which no
      token of the second begins are safe in every pattern. */
  lemma InertExactly(first: string, v: string, name: string)
    requires '}' !in first && '}' !in name && first != name
    requires !EndsWith(first, ['{'] + name) && !EndsWith(name, ['{'] + first)
    ensures Inert(v, name) <==> forall s, w :: Apart(s, name) ==> FilledInTurn(s, first, v, name, w)
  {
    hide Replaced, Fill, EndsWith, Names, OccursAt;
    if Inert(v, name) {
      forall s, w | Apart(s, name) ensures FilledInTurn(s, first, v, name, w) {
        ReplacedAfterFill(s, map[first := v], name, w);
      }
    } else {
      var j :| 0 <= j < |v| && (v[j..] <= Token(name) || Token(name) <= v[j..]);
      BegunToken(first, v, name, j);
    }
  }

  // ---------- placeholders cut open ----------

  /** An opening brace that no token of up to `n` characters can close: text
      without a closing brace follows, and `n` characters of it begin none. */
  predicate Pinned(s: string, p: nat, q: nat, n: nat) {
    && p < q && q + n <= |s| && s[p] == '{'
    && (forall j :: p <= j < q + n ==> s[j] != '}')
    && (forall j :: q <= j < q + n ==> s[j] != '{')
  }

  ghost predicate HasPinned(s: string, n: nat) {
    exists p: nat, q: nat :: Pinned(s, p, q, n)
  }

  lemma PinnedAfter(head: string, s: string, n: nat)
    requires HasPinned(s, n)
    ensures HasPinned(head + s, n) && '{' in head + s
  {
    var p: nat, q: nat :| Pinned(s, p, q, n);
    var t := head + s;
    assert t[|head| + p] == '{';
    assert forall j :: |head| <= j < |t| ==> t[j] == s[j - |head|];
    assert Pinned(t, |head| + p, |head| + q, n);
  }

  lemma PinnedBefore(s: string, p: nat, q: nat, n: nat, tail: string)
    requires Pinned(s, p, q, n)
    ensures HasPinned(s + tail, n)
  {
    assert Pinned(s + tail, p, q, n);
  }

  /** No such token occurs where it would touch the pinned text. */
  lemma PinnedApart(s: string, p: nat, q: nat, n: nat, name: string, k: nat)
    requires Pinned(s, p, q, n) && |Token(name)| <= n && OccursAt(s, Token(name), k)
    ensures k + |Token(name)| <= p || q + n <= k
  {
    OccursChar(s, Token(name), k, 0);
    OccursChar(s, Token(name), k, |name| + 1);
  }

  /** Replacing short tokens leaves it pinned. */
  lemma {:induction false} PinnedStays(s: string, p: nat, q: nat, n: nat, name: string, value: string)
    requires Pinned(s, p, q, n) && |Token(name)| <= n
    ensures Token(name) != "" && HasPinned(Replaced(s, Token(name), value), n)
    decreases |s|
  {
    hide Pinned, HasPinned, OccursAt, Replaced, Token;
    var t := Token(name);
    TokenStarts(s, name);
    PinnedLength(s, p, q, n);
    assert s[0..] == s;
    if OccursAt(s, t, 0) {
      PinnedApart(s, p, q, n, name, 0);
      ReplacedHere(s, t, value, 0);
      PinnedShifts(s, p, q, n, |t|);
      PinnedStays(s[|t|..], p - |t|, q - |t|, n, name, value);
      PinnedAfter(value, Replaced(s[|t|..], t, value), n);
    } else if p > 0 {
      ReplacedStep(s, t, value, 0);
      PinnedShifts(s, p, q, n, 1);
      PinnedStays(s[1..], p - 1, q - 1, n, name, value);
      PinnedAfter([s[0]], Replaced(s[1..], t, value), n);
    } else {
      forall k | 0 <= k < q + n ensures !OccursAt(s, t, k) {
        if OccursAt(s, t, k) {
          PinnedApart(s, p, q, n, name, k);
        }
      }
      ReplacedSkips(s, t, value, 0, q + n);
      assert s[0..q + n] == s[..q + n];
      PinnedPrefix(s, p, q, n);
      PinnedBefore(s[..q + n], p, q, n, Replaced(s[q + n..], t, value));
    }
  }

  lemma PinnedLength(s: string, p: nat, q: nat, n: nat)
    requires Pinned(s, p, q, n)
    ensures p < q && q + n <= |s|
  {}

  lemma PinnedShifts(s: string, p: nat, q: nat, n: nat, k: nat)
    requires Pinned(s, p, q, n) && k <= p
    ensures Pinned(s[k..], p - k, q - k, n)
  {}

  lemma PinnedPrefix(s: string, p: nat, q: nat, n: nat)
    requires Pinned(s, p, q, n)
    ensures Pinned(s[..q + n], p, q, n)
  {}

  /** Replacing a name at the end of another placeholder cuts that one open. */
  lemma CutHead(s: string, name: string, value: string, end: nat, tail: string)
    requires Closes(s, end) && EndsWith(s[1..end], ['{'] + name) && '{' !in value && '}' !in value
    ensures HasPinned(HeadReplaced(s, name, value, end) + tail, |value|)
  {
    NotItsOwnEnd(name);
    TokenAtEnd(s, name, end);
    var k := end - |name| - 1;
    var head := s[..k] + value;
    assert forall j :: k <= j < |head| ==> head[j] == value[j - k];
    assert Pinned(head, 0, k, |value|);
    PinnedBefore(head, 0, k, |value|, tail);
  }

  lemma {:induction false} FilledThenCut(s: string, a: map<string, string>, name: string, value: string, n: string)
    requires '}' !in name && '{' !in value && '}' !in value
    requires n in Names(s) && n !in a && EndsWith(n, ['{'] + name)
    requires forall m :: m in Names(s) && m in a ==> Inert(a[m], name)
    ensures Token(name) != "" && HasPinned(Replaced(Fill(s, a), Token(name), value), |value|)
    decreases |s|
  {
    hide Replaced, Fill, Names, OccursAt, FindChar, Token, EndsWith, Inert, HasPinned;
    TokenStarts(s, name);
    NoPlaceholder(s, a);
    if s[0] != '{' {
      var first := [s[0]];
      assert s == first + s[1..];
      FillSkips(first, s[1..], a);
      NoOpeningInert(first, name);
      InertSkipped(first, Fill(s[1..], a), name, value);
      FilledThenCut(s[1..], a, name, value, n);
      PinnedAfter(first, Replaced(Fill(s[1..], a), Token(name), value), |value|);
    } else {
      var end := FindChar(s, '}', 1);
      var x, tail := s[1..end], s[end + 1..];
      var rest := Fill(tail, a);
      assert s == s[..end + 1] + tail;
      TokenStays(s, end, tail, a);
      assert x in Names(s);
      if x !in a {
        var t := s[..end + 1] + rest;
        assert t[1..end] == x && t[end + 1..] == rest;
        PlaceholderReplaced(t, name, value, end);
        if EndsWith(x, ['{'] + name) {
          CutHead(t, name, value, end, Replaced(rest, Token(name), value));
        } else {
          FilledThenCut(tail, a, name, value, n);
          PinnedAfter(HeadReplaced(t, name, value, end), Replaced(rest, Token(name), value), |value|);
        }
      } else {
        InertSkipped(a[x], rest, name, value);
        FilledThenCut(tail, a, name, value, n);
        PinnedAfter(a[x], Replaced(rest, Token(name), value), |value|);
      }
    }
  }

  lemma {:induction false} NamesFit(s: string)
    ensures forall n :: n in Names(s) ==> |Token(n)| <= |s|
    decreases |s|
  {
    if s != "" && s[0] != '{' {
      NamesFit(s[1..]);
    } else if s != "" && FindChar(s, '}', 1) < |s| {
      NamesFit(s[FindChar(s, '}', 1) + 1..]);
    }
  }

  // ---------- what is left ----------

  /** A closed pattern filled with all its names has an opening brace exactly if
      one of the values used brings it in. */
  lemma {:induction false} FilledBraces(s: string, a: map<string, string>)
    requires Terminated(s) && forall n :: n in Names(s) ==> n in a
    ensures '{' in Fill(s, a) <==> exists n :: n in Names(s) && '{' in a[n]
    decreases |s|
  {
    hide FindChar, Fill, Names, Terminated;
    NoPlaceholder(s, a);
    if s == "" {
    } else if s[0] != '{' {
      assert s == [s[0]] + s[1..];
      FillSkips([s[0]], s[1..], a);
      FilledBraces(s[1..], a);
    } else {
      var end := FindChar(s, '}', 1);
      OpenTerminated(s);
      assert s == s[..end + 1] + s[end + 1..];
      TokenStays(s, end, s[end + 1..], a);
      assert s[1..end] in Names(s);
      FilledBraces(s[end + 1..], a);
    }
  }

  lemma OpenTerminated(s: string)
    requires s != "" && s[0] == '{' && Terminated(s)
    ensures FindChar(s, '}', 1) < |s|
  {}

  lemma {:induction false} NothingToFill(s: string)
    ensures Fill(s, map[]) == s
    decreases |s|
  {
    if s != "" && s[0] == '{' && FindChar(s, '}', 1) < |s| {
      NothingToFill(s[FindChar(s, '}', 1) + 1..]);
    } else if s != "" && s[0] != '{' {
      NothingToFill(s[1..]);
    }
  }

  /** Text that is empty, or whose first brace is never closed, has nothing to
      fill. */
  lemma NoPlaceholder(s: string, values: map<string, string>)
    ensures s == "" || (s[0] == '{' && FindChar(s, '}', 1) == |s|) ==> Fill(s, values) == s && Names(s) == []
  {}
}
