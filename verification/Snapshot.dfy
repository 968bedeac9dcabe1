/** Validation of explicit telemetry snapshots
    (opcua-bridge/src/v8_snapshot.cpp). The protobuf message is modelled by its
    declared fields; reflection and parsing of bytes are not part of it. */
module Snapshot {
  import opened Words
  import opened Patterns

  const EXPECTED_FIELDS: nat := 316
  const SCHEMA_MAJOR: nat := 2

  datatype Quality = Unspecified | Good | Stale | Unavailable | NotApplicable | Invalid

  datatype ValueType = Boolean | Integer | Long | Double | Text | DateTime

  datatype Real64 = Finite(x: real) | NotFinite

  /** The typed value of a sample, present or not. */
  datatype SampleValue =
    | BooleanValue(b: Option<bool>) | IntegerValue(i: Option<int>) | LongValue(l: Option<int>)
    | DoubleValue(d: Option<Real64>) | TextValue(s: Option<string>) | DateTimeValue(unixNs: Option<int>)
  {
    function Type(): ValueType {
      match this
      case BooleanValue(_) => Boolean case IntegerValue(_) => Integer case LongValue(_) => Long
      case DoubleValue(_) => Double case TextValue(_) => Text case DateTimeValue(_) => DateTime
    }

    predicate Present() {
      match this
      case BooleanValue(v) => v.Some? case IntegerValue(v) => v.Some? case LongValue(v) => v.Some?
      case DoubleValue(v) => v.Some? case TextValue(v) => v.Some? case DateTimeValue(v) => v.Some?
    }
  }

  datatype Metadata = Metadata(quality: Quality, sampleTimeUnixNs: u64)

  /** `value` is absent for a message of no supported sample type. */
  datatype Sample = Sample(value: Option<SampleValue>, metadata: Option<Metadata>)

  /** The declared fields of an indexed wrapper, in order. */
  datatype EntryField = StringKey(key: string) | OtherKey | SampleField(sample: Option<Sample>)

  datatype Content = Scalar(sample: Option<Sample>) | Indexed(entries: seq<seq<EntryField>>)

  datatype Field = Field(annotated: bool, source: string, owner: string, pattern: string, content: Content)

  datatype View = View(nodeId: string, value: SampleValue, metadata: Metadata)

  datatype SnapshotError =
    | WrongFieldCount(count: nat) | NotTraceable | BadPlaceholder | ScalarWithPlaceholder | AbsentField
    | NoInstances | NoSample | BadSample | BadShape | EmptyKey | Unresolved(nodeId: string)
    | BadPayload | Failed | WrongSchema | NoRevision | WrongBoard | WrongSequence | NoTelemetry
    | OutsideBoard(nodeId: string) | Duplicate(nodeId: string) | MissingValue | UnexpectedValue
    | NonFinite | BadQuality | NoSamples

  // ---------- visiting the samples ----------

  function ViewOf(nodeId: string, sample: Sample): Result<View, SnapshotError> {
    if sample.metadata.None? || sample.value.None? then Err(BadSample)
    else Ok(View(nodeId, sample.value.value, sample.metadata.value))
  }

  function SampleOf(fields: seq<EntryField>): Option<Sample> {
    if fields == [] then None
    else if fields[0].SampleField? then fields[0].sample
    else SampleOf(fields[1..])
  }

  predicate HasSampleField(fields: seq<EntryField>) {
    exists i :: 0 <= i < |fields| && fields[i].SampleField?
  }

  /** The wrapper declares a key for each placeholder, then the sample, and no
      key is empty. */
  predicate KeysComplete(fields: seq<EntryField>, placeholders: seq<string>) {
    && HasSampleField(fields) && |fields| == |placeholders| + 1
    && forall i :: 0 <= i < |placeholders| ==> fields[i].StringKey? && fields[i].key != ""
  }

  /** The pattern after its first `k` placeholders were replaced by their keys. */
  function RenderedUpTo(pattern: string, fields: seq<EntryField>, placeholders: seq<string>, k: nat): string
    requires KeysComplete(fields, placeholders) && k <= |placeholders|
  {
    if k == 0 then pattern
    else Replaced(RenderedUpTo(pattern, fields, placeholders, k - 1), Token(placeholders[k - 1]), fields[k - 1].key)
  }

  function Rendered(pattern: string, fields: seq<EntryField>, placeholders: seq<string>): string
    requires KeysComplete(fields, placeholders)
  {
    RenderedUpTo(pattern, fields, placeholders, |placeholders|)
  }

  predicate Resolved(nodeId: string) {
    '{' !in nodeId && '}' !in nodeId
  }

  method RenderIndexedNodeId(pattern: string, fields: seq<EntryField>, placeholders: seq<string>)
    returns (r: Result<string, SnapshotError>)
    ensures r.Ok? <==> KeysComplete(fields, placeholders) && Resolved(Rendered(pattern, fields, placeholders))
    ensures r.Ok? ==> r.value == Rendered(pattern, fields, placeholders)
  {
    var nodeId := pattern;
    var found := exists i :: 0 <= i < |fields| && fields[i].SampleField?;
    if !found || |fields| != |placeholders| + 1 {
      return Err(BadShape);
    }
    for index := 0 to |placeholders|
      invariant forall i :: 0 <= i < index ==> fields[i].StringKey? && fields[i].key != ""
      invariant KeysComplete(fields, placeholders) ==> nodeId == RenderedUpTo(pattern, fields, placeholders, index)
    {
      if !fields[index].StringKey? {
        return Err(BadShape);
      }
      if fields[index].key == "" {
        return Err(EmptyKey);
      }
      nodeId := ReplaceAll(nodeId, Token(placeholders[index]), fields[index].key);
    }
    if FindChar(nodeId, '{', 0) < |nodeId| || FindChar(nodeId, '}', 0) < |nodeId| {
      return Err(Unresolved(nodeId));
    }
    r := Ok(nodeId);
  }

  /** The keys by placeholder; of a repeated placeholder the first counts. */
  function KeyMap(fields: seq<EntryField>, placeholders: seq<string>, k: nat): map<string, string>
    requires KeysComplete(fields, placeholders) && k <= |placeholders|
  {
    if k == 0 then map[]
    else map[placeholders[k - 1] := fields[k - 1].key] + KeyMap(fields, placeholders, k - 1)
  }

  /** No key begins a token of a later placeholder. */
  predicate KeysInert(fields: seq<EntryField>, placeholders: seq<string>)
    requires KeysComplete(fields, placeholders)
  {
    forall i, j :: 0 <= i < j < |placeholders| ==> Inert(fields[i].key, placeholders[j])
  }

  /** Placeholder `i` is the end of one that it comes before. */
  predicate Cuts(placeholders: seq<string>, i: nat)
    requires i < |placeholders|
  {
    exists n :: n in placeholders && EndsWith(n, ['{'] + placeholders[i]) && n !in placeholders[..i]
  }

  predicate Untangled(placeholders: seq<string>) {
    forall i :: 0 <= i < |placeholders| ==> !Cuts(placeholders, i)
  }

  lemma {:induction false} KeyMapAt(fields: seq<EntryField>, placeholders: seq<string>, k: nat, n: string)
    requires KeysComplete(fields, placeholders) && k <= |placeholders|
    ensures n in KeyMap(fields, placeholders, k) <==> n in placeholders[..k]
    ensures n in KeyMap(fields, placeholders, k) ==>
      exists i :: 0 <= i < k && placeholders[i] == n && KeyMap(fields, placeholders, k)[n] == fields[i].key
  {
    if k > 0 {
      KeyMapAt(fields, placeholders, k - 1, n);
      assert placeholders[..k] == placeholders[..k - 1] + [placeholders[k - 1]];
    }
  }

  /** Replacing `k` keys one by one is filling the pattern with them, as long as
      none of them cuts open another placeholder. */
  lemma {:induction false} RenderedSoFar(pattern: string, fields: seq<EntryField>, placeholders: seq<string>, k: nat)
    requires KeysComplete(fields, placeholders) && k <= |placeholders| && placeholders == Names(pattern)
    requires KeysInert(fields, placeholders) && forall i :: 0 <= i < k ==> !Cuts(placeholders, i)
    ensures RenderedUpTo(pattern, fields, placeholders, k) == Fill(pattern, KeyMap(fields, placeholders, k))
  {
    hide Fill, Names, Replaced, EndsWith, Inert;
    if k == 0 {
      NothingToFill(pattern);
    } else {
      RenderedSoFar(pattern, fields, placeholders, k - 1);
      var a, name := KeyMap(fields, placeholders, k - 1), placeholders[k - 1];
      forall n | n in Names(pattern)
        ensures if n in a then Inert(a[n], name) else !EndsWith(n, ['{'] + name)
      {
        KeyMapAt(fields, placeholders, k - 1, n);
        assert !Cuts(placeholders, k - 1);
      }
      assert placeholders[k - 1] in Names(pattern);
      ReplacedAfterFill(pattern, a, name, fields[k - 1].key);
    }
  }

  /** An entry whose keys are all the same. */
  function OneKey(n: nat, key: string): (fields: seq<EntryField>)
    ensures |fields| == n + 1 && fields[n].SampleField? && forall i :: 0 <= i < n ==> fields[i] == StringKey(key)
  {
    seq(n + 1, i requires 0 <= i <= n => if i < n then StringKey(key) else SampleField(None))
  }

  function Letters(n: nat): (s: string)
    ensures |s| == n && forall i :: 0 <= i < n ==> s[i] == 'x'
  {
    seq(n, _ => 'x')
  }

  /** Once a placeholder was cut open by long keys, its brace stays. */
  lemma {:induction false} CutRemains(pattern: string, fields: seq<EntryField>, placeholders: seq<string>, n: nat,
                                      k: nat, m: nat)
    requires KeysComplete(fields, placeholders) && placeholders == Names(pattern) && k <= m <= |placeholders|
    requires |pattern| <= n && HasPinned(RenderedUpTo(pattern, fields, placeholders, k), n)
    ensures HasPinned(RenderedUpTo(pattern, fields, placeholders, m), n)
    decreases m - k
  {
    hide Names, Replaced, Pinned, HasPinned;
    if k < m {
      CutRemains(pattern, fields, placeholders, n, k, m - 1);
      var s := RenderedUpTo(pattern, fields, placeholders, m - 1);
      NamesFit(pattern);
      assert placeholders[m - 1] in placeholders;
      StillPinned(s, n, placeholders[m - 1], fields[m - 1].key);
    }
  }

  lemma StillPinned(s: string, n: nat, name: string, value: string)
    requires HasPinned(s, n) && |Token(name)| <= n
    ensures Token(name) != "" && HasPinned(Replaced(s, Token(name), value), n)
  {
    var p: nat, q: nat :| Pinned(s, p, q, n);
    PinnedStays(s, p, q, n, name, value);
  }

  lemma PinnedOpens(s: string, n: nat)
    requires HasPinned(s, n)
    ensures '{' in s
  {
    var p: nat, q: nat :| Pinned(s, p, q, n);
    assert s[p] == '{';
  }

  lemma {:induction false} FirstCut(placeholders: seq<string>, k: nat) returns (i: nat)
    requires k < |placeholders| && Cuts(placeholders, k)
    ensures i <= k && Cuts(placeholders, i) && forall j :: 0 <= j < i ==> !Cuts(placeholders, j)
  {
    hide Cuts;
    i := 0;
    while !Cuts(placeholders, i)
      invariant i <= k && forall j :: 0 <= j < i ==> !Cuts(placeholders, j)
      decreases k - i
    {
      i := i + 1;
    }
  }

  /** With a placeholder cut open there are keys that leave a brace in the id. */
  lemma TangledStaysOpen(pattern: string, placeholders: seq<string>, k: nat) returns (fields: seq<EntryField>)
    requires placeholders == Names(pattern) && k < |placeholders| && Cuts(placeholders, k)
    ensures KeysComplete(fields, placeholders) && KeysInert(fields, placeholders)
    ensures forall i :: 0 <= i < |placeholders| ==> '{' !in fields[i].key
    ensures '{' in Rendered(pattern, fields, placeholders)
  {
    hide Fill, Names, Replaced, EndsWith, Inert, HasPinned, Cuts;
    var key := Letters(|pattern|);
    var i := FirstCut(placeholders, k);
    fields := OneKey(|placeholders|, key);
    LongKeys(pattern, fields, placeholders, key);
    RenderedSoFar(pattern, fields, placeholders, i);
    var n := CutName(placeholders, i);
    var a := KeyMap(fields, placeholders, i);
    KeyMapAt(fields, placeholders, i, n);
    forall m | m in Names(pattern) && m in a ensures Inert(a[m], placeholders[i]) {
      KeyMapAt(fields, placeholders, i, m);
    }
    assert placeholders[i] in placeholders;
    FilledThenCut(pattern, a, placeholders[i], key, n);
    CutRemains(pattern, fields, placeholders, |pattern|, i + 1, |placeholders|);
    PinnedOpens(Rendered(pattern, fields, placeholders), |pattern|);
  }

  lemma CutName(placeholders: seq<string>, i: nat) returns (n: string)
    requires i < |placeholders| && Cuts(placeholders, i)
    ensures n in placeholders && EndsWith(n, ['{'] + placeholders[i]) && n !in placeholders[..i]
  {
    n :| n in placeholders && EndsWith(n, ['{'] + placeholders[i]) && n !in placeholders[..i];
  }

  lemma LongKeys(pattern: string, fields: seq<EntryField>, placeholders: seq<string>, key: string)
    requires placeholders == Names(pattern) && placeholders != []
    requires key == Letters(|pattern|) && fields == OneKey(|placeholders|, key)
    ensures KeysComplete(fields, placeholders) && KeysInert(fields, placeholders)
    ensures key != "" && '{' !in key && '}' !in key
  {
    assert HasSampleField(fields) by {
      assert fields[|placeholders|].SampleField?;
    }
    NamesFit(pattern);
    assert placeholders[0] in placeholders;
    forall j | 0 <= j < |placeholders| ensures Inert(key, placeholders[j]) {
      NoOpeningInert(key, placeholders[j]);
    }
  }

  /** Rendering a closed pattern key by key is filling it with the keys, for all
      keys in which no token of a later placeholder begins, if and only if no
      placeholder comes before one that it ends. */
  lemma RenderedExactly(pattern: string)
    requires Terminated(pattern)
    ensures Untangled(Names(pattern)) <==>
      forall fields: seq<EntryField> | KeysComplete(fields, Names(pattern)) && KeysInert(fields, Names(pattern)) ::
        Rendered(pattern, fields, Names(pattern)) == Fill(pattern, KeyMap(fields, Names(pattern), |Names(pattern)|))
  {
    hide Names, Terminated, KeysComplete, KeysInert, Rendered, Fill, Cuts, KeyMap;
    var placeholders := Names(pattern);
    if Untangled(placeholders) {
      forall fields: seq<EntryField> | KeysComplete(fields, placeholders) && KeysInert(fields, placeholders)
        ensures Rendered(pattern, fields, placeholders)
             == Fill(pattern, KeyMap(fields, placeholders, |placeholders|))
      {
        RenderedIsFilled(pattern, fields, placeholders);
      }
    } else {
      var k: nat :| k < |placeholders| && Cuts(placeholders, k);
      var fields := TangledStaysOpen(pattern, placeholders, k);
      OpenKeys(pattern, fields, placeholders);
    }
  }

  lemma RenderedIsFilled(pattern: string, fields: seq<EntryField>, placeholders: seq<string>)
    requires KeysComplete(fields, placeholders) && placeholders == Names(pattern)
    requires Untangled(placeholders) && KeysInert(fields, placeholders)
    ensures Rendered(pattern, fields, placeholders) == Fill(pattern, KeyMap(fields, placeholders, |placeholders|))
  {
    hide Names, RenderedUpTo, KeysComplete, KeysInert, Fill, Cuts;
    RenderedSoFar(pattern, fields, placeholders, |placeholders|);
  }

  /** A closed pattern filled with its keys has an opening brace exactly if a key
      brings it in. */
  lemma OpenKeys(pattern: string, fields: seq<EntryField>, placeholders: seq<string>)
    requires KeysComplete(fields, placeholders) && placeholders == Names(pattern) && Terminated(pattern)
    ensures var keys := KeyMap(fields, placeholders, |placeholders|);
            && (forall n :: n in placeholders ==> n in keys)
            && ('{' in Fill(pattern, keys) <==> exists n :: n in placeholders && '{' in keys[n])
            && (forall n :: n in placeholders ==>
                  exists i :: 0 <= i < |placeholders| && placeholders[i] == n && keys[n] == fields[i].key)
  {
    hide Fill, Names, Terminated;
    forall n | n in placeholders
      ensures n in KeyMap(fields, placeholders, |placeholders|)
      ensures exists i :: 0 <= i < |placeholders| && placeholders[i] == n
                && KeyMap(fields, placeholders, |placeholders|)[n] == fields[i].key
    {
      KeyMapAt(fields, placeholders, |placeholders|, n);
    }
    FilledBraces(pattern, KeyMap(fields, placeholders, |placeholders|));
  }

  /** So of an untangled pattern an opening brace is left exactly if a key
      brings it in. */
  lemma OpenKeysRemain(pattern: string, fields: seq<EntryField>, placeholders: seq<string>)
    requires KeysComplete(fields, placeholders) && placeholders == Names(pattern) && Terminated(pattern)
    ensures var keys := KeyMap(fields, placeholders, |placeholders|);
            && (forall n :: n in placeholders ==> n in keys)
            && (Untangled(placeholders) && KeysInert(fields, placeholders) ==>
                  ('{' in Rendered(pattern, fields, placeholders) <==> exists n :: n in placeholders && '{' in keys[n]))
  {
    hide Fill, Names, Terminated, KeysInert, Untangled, Rendered;
    OpenKeys(pattern, fields, placeholders);
    if Untangled(placeholders) && KeysInert(fields, placeholders) {
      RenderedIsFilled(pattern, fields, placeholders);
    }
  }

  /** A visit stops at the first sample it cannot view. */
  datatype Visit = Visit(views: seq<View>, error: Option<SnapshotError>)

  function EntryView(pattern: string, placeholders: seq<string>, fields: seq<EntryField>): Option<View> {
    if SampleOf(fields).None? then None
    else if !KeysComplete(fields, placeholders) || !Resolved(Rendered(pattern, fields, placeholders)) then None
    else
      match ViewOf(Rendered(pattern, fields, placeholders), SampleOf(fields).value)
      case Ok(view) => Some(view)
      case Err(_) => None
  }

  /** The views of the entries up to the first that has none. */
  function EntryViews(pattern: string, placeholders: seq<string>, entries: seq<seq<EntryField>>): (views: seq<View>)
    ensures |views| <= |entries|
  {
    if entries == [] || EntryView(pattern, placeholders, entries[0]).None? then []
    else
      [EntryView(pattern, placeholders, entries[0]).value] + EntryViews(pattern, placeholders, entries[1..])
  }

  /** No entry is skipped: all have views exactly if there are as many. */
  lemma {:induction false} AllEntriesViewed(pattern: string, placeholders: seq<string>, entries: seq<seq<EntryField>>)
    ensures |EntryViews(pattern, placeholders, entries)| == |entries| <==>
      forall i :: 0 <= i < |entries| ==> EntryView(pattern, placeholders, entries[i]).Some?
  {
    hide EntryView;
    if entries != [] {
      AllEntriesViewed(pattern, placeholders, entries[1..]);
      assert forall i :: 1 <= i < |entries| ==> entries[1..][i - 1] == entries[i];
    }
  }

  lemma Regrouped(a: seq<View>, b: seq<View>, c: seq<View>)
    ensures a + (b + c) == (a + b) + c
  {}

  method VisitEntry(pattern: string, placeholders: seq<string>, fields: seq<EntryField>)
    returns (r: Result<View, SnapshotError>)
    ensures EntryView(pattern, placeholders, fields) == if r.Ok? then Some(r.value) else None
  {
    hide KeysComplete, Rendered, Resolved, SampleOf;
    var sample := SampleOf(fields);
    if sample.None? {
      return Err(NoSample);
    }
    var nodeId :- RenderIndexedNodeId(pattern, fields, placeholders);
    r := ViewOf(nodeId, sample.value);
  }

  lemma EntryViewsStep(pattern: string, placeholders: seq<string>, entries: seq<seq<EntryField>>, k: nat)
    requires k < |entries|
    ensures EntryViews(pattern, placeholders, entries[k..])
         == if EntryView(pattern, placeholders, entries[k]).None? then []
            else
              [EntryView(pattern, placeholders, entries[k]).value]
              + EntryViews(pattern, placeholders, entries[k + 1..])
  {
    hide EntryView;
  }

  method VisitEntries(pattern: string, placeholders: seq<string>, entries: seq<seq<EntryField>>) returns (visit: Visit)
    ensures visit.views == EntryViews(pattern, placeholders, entries)
    ensures visit.error.None? <==> |visit.views| == |entries|
  {
    hide EntryViews, EntryView;
    var views := [];
    assert entries[0..] == entries;
    for index := 0 to |entries|
      invariant |views| == index
      invariant EntryViews(pattern, placeholders, entries)
             == views + EntryViews(pattern, placeholders, entries[index..])
    {
      EntryViewsStep(pattern, placeholders, entries, index);
      var view := VisitEntry(pattern, placeholders, entries[index]);
      if view.Err? {
        assert views + [] == views;
        return Visit(views, Some(view.error));
      }
      Regrouped(views, [view.value], EntryViews(pattern, placeholders, entries[index + 1..]));
      views := views + [view.value];
    }
    assert entries[|entries|..] == [];
    NoEntryViews(pattern, placeholders);
    assert views + [] == views;
    visit := Visit(views, None);
  }

  lemma NoEntryViews(pattern: string, placeholders: seq<string>)
    ensures EntryViews(pattern, placeholders, []) == []
  {}

  predicate Traceable(f: Field) {
    f.annotated && f.source != "" && f.owner != ""
  }

  function BoardPattern(f: Field, board: string): string {
    Replaced(f.pattern, Token("BoardId"), board)
  }

  /** The field can be visited to its end. */
  predicate FieldVisits(f: Field, board: string) {
    && Traceable(f)
    && var pattern := BoardPattern(f, board);
    && Terminated(pattern)
    && match f.content
       case Scalar(sample) => Names(pattern) == [] && sample.Some? && ViewOf(pattern, sample.value).Ok?
       case Indexed(entries) =>
         && Names(pattern) != [] && entries != []
         && forall i :: 0 <= i < |entries| ==> EntryView(pattern, Names(pattern), entries[i]).Some?
  }

  /** The views of a field, up to an error. */
  function FieldViews(f: Field, board: string): (views: seq<View>)
    ensures FieldVisits(f, board) ==> views != []
  {
    var pattern := BoardPattern(f, board);
    if !Traceable(f) || !Terminated(pattern) then []
    else
      match f.content
      case Scalar(sample) =>
        if Names(pattern) != [] || sample.None? || ViewOf(pattern, sample.value).Err? then []
        else [ViewOf(pattern, sample.value).value]
      case Indexed(entries) => if Names(pattern) == [] then [] else EntryViews(pattern, Names(pattern), entries)
  }

  method VisitField(f: Field, board: string) returns (visit: Visit)
    ensures visit.error.None? <==> FieldVisits(f, board)
    ensures visit.views == FieldViews(f, board)
  {
    hide Terminated, Names, Replaced, EntryViews, EntryView;
    if !f.annotated || f.source == "" || f.owner == "" {
      return Visit([], Some(NotTraceable));
    }
    var pattern := ReplaceAll(f.pattern, Token("BoardId"), board);
    var found := ExtractPlaceholders(pattern);
    if found.Err? {
      return Visit([], Some(BadPlaceholder));
    }
    var placeholders := found.value;
    match f.content {
      case Scalar(sample) =>
        if placeholders != [] {
          return Visit([], Some(ScalarWithPlaceholder));
        }
        if sample.None? {
          return Visit([], Some(AbsentField));
        }
        var view := ViewOf(pattern, sample.value);
        if view.Err? {
          return Visit([], Some(view.error));
        }
        visit := Visit([view.value], None);
      case Indexed(entries) =>
        if placeholders == [] || entries == [] {
          return Visit([], Some(NoInstances));
        }
        AllEntriesViewed(pattern, placeholders, entries);
        visit := VisitEntries(pattern, placeholders, entries);
    }
  }

  /** All samples can be viewed. */
  predicate Visits(fields: seq<Field>, board: string) {
    forall i :: 0 <= i < |fields| ==> FieldVisits(fields[i], board)
  }

  /** The views of a message in the order they are handed over, up to the first
      field with an error. */
  function ViewsOf(fields: seq<Field>, board: string): seq<View> {
    if fields == [] then []
    else FieldViews(fields[0], board) + if FieldVisits(fields[0], board) then ViewsOf(fields[1..], board) else []
  }

  lemma ViewsStep(fields: seq<Field>, board: string, k: nat)
    requires k < |fields|
    ensures ViewsOf(fields[k..], board)
         == FieldViews(fields[k], board) + if FieldVisits(fields[k], board) then ViewsOf(fields[k + 1..], board) else []
  {
    hide FieldVisits, FieldViews;
  }

  /** Hands the samples of a message to a visitor, in order and up to an error. */
  method VisitWireSamples(fields: seq<Field>, board: string) returns (visit: Visit)
    ensures visit.error.None? <==> |fields| == EXPECTED_FIELDS && Visits(fields, board)
    ensures visit.views == if |fields| == EXPECTED_FIELDS then ViewsOf(fields, board) else []
  {
    hide FieldVisits, FieldViews, ViewsOf;
    if |fields| != EXPECTED_FIELDS {
      return Visit([], Some(WrongFieldCount(|fields|)));
    }
    var views := [];
    assert fields[0..] == fields;
    for index := 0 to |fields|
      invariant forall i :: 0 <= i < index ==> FieldVisits(fields[i], board)
      invariant ViewsOf(fields, board) == views + ViewsOf(fields[index..], board)
    {
      ViewsStep(fields, board, index);
      var visit := VisitField(fields[index], board);
      if visit.error.Some? {
        assert visit.views + [] == visit.views;
        return Visit(views + visit.views, visit.error);
      }
      Regrouped(views, visit.views, ViewsOf(fields[index + 1..], board));
      views := views + visit.views;
    }
    NoViews(board);
    assert fields[|fields|..] == [] && views + [] == views;
    visit := Visit(views, None);
  }

  lemma NoViews(board: string)
    ensures ViewsOf([], board) == []
  {}

  // ---------- views are samples ----------

  /** Sample of a scalar field, under the field's id. */
  predicate ShowsScalar(f: Field, board: string, view: View) {
    && f.content.Scalar? && f.content.sample.Some?
    && Shown(view, BoardPattern(f, board), f.content.sample.value)
  }

  /** First sample of entry `k` of an indexed field, under the id its keys make. */
  predicate ShowsEntry(f: Field, board: string, k: nat, view: View) {
    && f.content.Indexed? && k < |f.content.entries|
    && var fields, names := f.content.entries[k], Names(BoardPattern(f, board));
    && KeysComplete(fields, names)
    && exists j :: 0 <= j < |fields| && FirstSample(fields, j)
         && Shown(view, Rendered(BoardPattern(f, board), fields, names), fields[j].sample.value)
  }

  predicate FirstSample(fields: seq<EntryField>, j: nat)
    requires j < |fields|
  {
    fields[j].SampleField? && fields[j].sample.Some? && forall i :: 0 <= i < j ==> !fields[i].SampleField?
  }

  /** The view hands on id, value and metadata of the sample. */
  predicate Shown(view: View, nodeId: string, sample: Sample) {
    view.nodeId == nodeId && sample.value == Some(view.value) && sample.metadata == Some(view.metadata)
  }

  lemma {:induction false} SampleIsFirst(fields: seq<EntryField>)
    ensures SampleOf(fields).Some? ==>
      exists j :: 0 <= j < |fields| && FirstSample(fields, j) && fields[j].sample == SampleOf(fields)
  {
    if fields != [] && fields[0].SampleField? {
      assert SampleOf(fields).Some? ==> FirstSample(fields, 0);
    } else if fields != [] {
      SampleIsFirst(fields[1..]);
      if SampleOf(fields).Some? {
        var j :| 0 <= j < |fields| - 1 && FirstSample(fields[1..], j) && fields[1..][j].sample == SampleOf(fields);
        assert forall i :: 1 <= i < |fields| ==> fields[i] == fields[1..][i - 1];
        assert FirstSample(fields, j + 1);
      }
    }
  }

  lemma {:induction false} EntryViewsAt(pattern: string, placeholders: seq<string>, entries: seq<seq<EntryField>>,
                                        k: nat)
    requires k < |EntryViews(pattern, placeholders, entries)|
    ensures EntryView(pattern, placeholders, entries[k]) == Some(EntryViews(pattern, placeholders, entries)[k])
  {
    hide EntryView;
    if k > 0 {
      EntryViewsAt(pattern, placeholders, entries[1..], k - 1);
    }
  }

  /** The views of a field are its samples: a scalar field's own, or one for each
      entry in order. */
  lemma FieldViewsAreSamples(f: Field, board: string, k: nat)
    requires k < |FieldViews(f, board)|
    ensures if f.content.Scalar? then k == 0 && ShowsScalar(f, board, FieldViews(f, board)[0])
            else ShowsEntry(f, board, k, FieldViews(f, board)[k])
    ensures FieldVisits(f, board) ==>
      |FieldViews(f, board)| == if f.content.Scalar? then 1 else |f.content.entries|
  {
    hide Terminated, Names, Replaced, Rendered, SampleOf, KeysComplete, FirstSample;
    var pattern := BoardPattern(f, board);
    match f.content
    case Scalar(_) =>
    case Indexed(entries) =>
      AllEntriesViewed(pattern, Names(pattern), entries);
      EntryViewsAt(pattern, Names(pattern), entries, k);
      SampleIsFirst(entries[k]);
  }

  /** Every view of a message is a sample of one of its fields, and of a message
      visited to its end every field has its samples viewed. */
  lemma {:induction false} ViewsAreSamples(fields: seq<Field>, board: string)
    ensures forall view :: view in ViewsOf(fields, board) ==>
      exists f :: f in fields && view in FieldViews(f, board)
    ensures Visits(fields, board) ==>
      forall f, view :: f in fields && view in FieldViews(f, board) ==> view in ViewsOf(fields, board)
  {
    hide FieldVisits, FieldViews;
    if fields != [] {
      ViewsAreSamples(fields[1..], board);
      assert fields == [fields[0]] + fields[1..];
      if Visits(fields, board) {
        assert FieldVisits(fields[0], board) && forall i :: 0 <= i < |fields[1..]| ==> fields[1..][i] == fields[i + 1];
      }
    }
  }

  // ---------- validation ----------

  datatype Response = Response(
    success: bool, schemaMajor: nat, schemaHash: string, revision: string, boardId: string,
    requestSequence: u64, snapshotTimeUnixNs: u64, telemetry: Option<seq<Field>>)

  datatype Counts = Counts(samples: nat, good: nat, unavailable: nat, invalid: nat)

  /** A good or stale sample has a value, one that is unavailable or not
      applicable has none, and doubles are finite. */
  predicate ValidView(view: View) {
    var quality := view.metadata.quality;
    && !quality.Unspecified?
    && (quality.Good? || quality.Stale? ==> view.value.Present())
    && (quality.Unavailable? || quality.NotApplicable? ==> !view.value.Present())
    && (view.value.DoubleValue? && view.value.Present() ==> view.value.d.value.Finite?)
  }

  function CountOf(views: seq<View>, quality: Quality): (n: nat)
    ensures n <= |views|
  {
    if views == [] then 0
    else CountOf(views[..|views| - 1], quality) + if views[|views| - 1].metadata.quality == quality then 1 else 0
  }

  function CountsOf(views: seq<View>): Counts {
    Counts(|views|, CountOf(views, Good), CountOf(views, Unavailable), CountOf(views, Invalid))
  }

  /** The qualities partition the samples of a valid snapshot. */
  lemma {:induction false} QualitiesPartition(views: seq<View>)
    requires forall i :: 0 <= i < |views| ==> ValidView(views[i])
    ensures |views| == CountOf(views, Good) + CountOf(views, Stale) + CountOf(views, Unavailable)
                       + CountOf(views, NotApplicable) + CountOf(views, Invalid)
  {
    if views != [] {
      QualitiesPartition(views[..|views| - 1]);
      assert ValidView(views[|views| - 1]);
    }
  }

  method ValidateSample(view: View, counts: Counts) returns (r: Result<Counts, SnapshotError>)
    ensures r.Ok? <==> ValidView(view)
    ensures r.Ok? ==>
      var quality := view.metadata.quality;
      r.value == Counts(counts.samples + 1,
                        counts.good + if quality.Good? then 1 else 0,
                        counts.unavailable + if quality.Unavailable? then 1 else 0,
                        counts.invalid + if quality.Invalid? then 1 else 0)
  {
    var result := counts.(samples := counts.samples + 1);
    var hasValue := view.value.Present();
    var quality := view.metadata.quality;
    if (quality.Good? || quality.Stale?) && !hasValue {
      return Err(MissingValue);
    }
    if (quality.Unavailable? || quality.NotApplicable?) && hasValue {
      return Err(UnexpectedValue);
    }
    if view.value.DoubleValue? && hasValue && !view.value.d.value.Finite? {
      return Err(NonFinite);
    }
    match quality {
      case Good => result := result.(good := result.good + 1);
      case Stale =>
      case NotApplicable =>
      case Unavailable => result := result.(unavailable := result.unavailable + 1);
      case Invalid => result := result.(invalid := result.invalid + 1);
      case Unspecified => return Err(BadQuality);
    }
    r := Ok(result);
  }

  function BoardPrefix(board: string): string {
    "DAPHNE.Boards." + board + "."
  }

  predicate OfBoard(nodeId: string, board: string) {
    BoardPrefix(board) <= nodeId
  }

  predicate DistinctNodes(views: seq<View>) {
    forall i, j :: 0 <= i < j < |views| ==> views[i].nodeId != views[j].nodeId
  }

  predicate ValidViews(views: seq<View>, board: string) {
    && (forall i :: 0 <= i < |views| ==> OfBoard(views[i].nodeId, board) && ValidView(views[i]))
    && DistinctNodes(views)
  }

  /** The envelope fields are those of the answer to this very request. */
  predicate Answers(response: Response, board: string, sequence: u64, schemaHash: string) {
    && response.success && response.schemaMajor == SCHEMA_MAJOR && response.schemaHash == schemaHash
    && response.revision != "" && response.boardId == board && response.requestSequence == sequence
    && response.telemetry.Some?
  }

  predicate Acceptable(response: Response, board: string, sequence: u64, schemaHash: string) {
    && Answers(response, board, sequence, schemaHash)
    && var fields := response.telemetry.value;
    && |fields| == EXPECTED_FIELDS && Visits(fields, board) && ValidViews(ViewsOf(fields, board), board)
  }

  /** The visitor of the validation, sample by sample. */
  method ValidateViews(views: seq<View>, board: string) returns (r: Result<Counts, SnapshotError>)
    ensures r.Ok? <==> ValidViews(views, board)
    ensures r.Ok? ==> r.value == CountsOf(views)
  {
    hide ValidView, OfBoard;
    var nodeIds: set<string>, counts := {}, Counts(0, 0, 0, 0);
    for k := 0 to |views|
      invariant ValidViews(views[..k], board) && counts == CountsOf(views[..k])
      invariant nodeIds == set i | 0 <= i < k :: views[i].nodeId
    {
      var view := views[k];
      if !(BoardPrefix(board) <= view.nodeId) {
        IsOfBoard(view.nodeId, board);
        return Err(OutsideBoard(view.nodeId));
      }
      IsOfBoard(view.nodeId, board);
      if view.nodeId in nodeIds {
        return Err(Duplicate(view.nodeId));
      }
      nodeIds := nodeIds + {view.nodeId};
      counts :- ValidateSample(view, counts);
      assert views[..k + 1][..k] == views[..k];
    }
    assert views[..|views|] == views;
    r := Ok(counts);
  }

  lemma IsOfBoard(nodeId: string, board: string)
    ensures OfBoard(nodeId, board) <==> BoardPrefix(board) <= nodeId
  {}

  /** Accepts exactly the well-formed answers to the request and counts their
      samples by quality. `parsed` is what the payload parses to, if it does. */
  method ParseAndValidate(parsed: Option<Response>, board: string, sequence: u64, schemaHash: string)
    returns (r: Result<(Response, Counts), SnapshotError>)
    ensures r.Ok? <==> parsed.Some? && Acceptable(parsed.value, board, sequence, schemaHash)
    ensures r.Ok? ==>
      r.value == (parsed.value, CountsOf(ViewsOf(parsed.value.telemetry.value, board)))
  {
    hide ValidViews, Visits, ViewsOf, CountsOf;
    if parsed.None? {
      return Err(BadPayload);
    }
    var response := parsed.value;
    if !response.success {
      return Err(Failed);
    }
    if response.schemaMajor != SCHEMA_MAJOR || response.schemaHash != schemaHash {
      return Err(WrongSchema);
    }
    if response.revision == "" {
      return Err(NoRevision);
    }
    if response.boardId != board {
      return Err(WrongBoard);
    }
    if response.requestSequence != sequence {
      return Err(WrongSequence);
    }
    if response.telemetry.None? {
      return Err(NoTelemetry);
    }
    var visit := VisitWireSamples(response.telemetry.value, board);
    var counts :- ValidateViews(visit.views, board);
    if visit.error.Some? {
      return Err(visit.error.value);
    }
    SomeView(response.telemetry.value, board);
    if visit.views == [] {
      return Err(NoSamples);
    }
    r := Ok((response, counts));
  }

  /** Every declared field brings a sample: the check for none never fires. */
  lemma SomeView(fields: seq<Field>, board: string)
    requires fields != [] && Visits(fields, board)
    ensures ViewsOf(fields, board) != []
  {}
}
