/** Publication of a snapshot to the OPC-UA server
    (opcua-bridge/src/opcua_snapshot_writer.cpp). */
module Writer {
  import opened Words
  import opened Snapshot

  const UNIX_EPOCH_IN_UA_TICKS: int := 116444736000000000

  datatype Status =
    | StatusGood | UncertainLastUsableValue | BadInvalidState | BadWaitingForInitialData | BadNotSupported
    | BadTypeMismatch

  datatype Variant =
    | UaBoolean(b: bool) | UaInt32(i: int) | UaInt64(l: int) | UaDouble(d: Real64) | UaString(s: string)
    | UaDateTime(ticks: int)

  /** A source timestamp of `None` is not sent. */
  datatype DataValue = DataValue(value: Variant, status: Status, sourceTimestamp: Option<int>)

  datatype NodeWrite = NodeWrite(nodeId: string, data: DataValue)

  function UnixNsToUaDateTime(unixNs: nat): int {
    unixNs / 100 + UNIX_EPOCH_IN_UA_TICKS
  }

  function InitialValue(t: ValueType): Variant {
    match t
    case Boolean => UaBoolean(false) case Integer => UaInt32(0) case Long => UaInt64(0)
    case Double => UaDouble(Finite(0.0)) case Text => UaString("Unavailable") case DateTime => UaDateTime(0)
  }

  function QualityToStatus(quality: Quality): Status {
    match quality
    case Good => StatusGood
    case Stale => UncertainLastUsableValue
    case Invalid => BadInvalidState
    case Unavailable => BadWaitingForInitialData
    case NotApplicable => BadNotSupported
    case Unspecified => BadInvalidState
  }

  /** The variant to write, and whether the sample has the node's type. */
  function SampleToVariant(value: SampleValue, expected: ValueType): (Variant, bool) {
    if !value.Present() then (InitialValue(expected), true)
    else if value.Type() != expected then (InitialValue(expected), false)
    else
      match value
      case BooleanValue(v) => (UaBoolean(v.value), true)
      case IntegerValue(v) => (UaInt32(v.value), true)
      case LongValue(v) => (UaInt64(v.value), true)
      case DoubleValue(v) => (UaDouble(v.value), true)
      case TextValue(v) => (UaString(v.value), true)
      case DateTimeValue(v) =>
        if v.value < 0 then (InitialValue(expected), false) else (UaDateTime(UnixNsToUaDateTime(v.value)), true)
  }

  /** A value that is there has another type than the node, or is a time before
      1970. */
  predicate Mismatches(value: SampleValue, expected: ValueType) {
    value.Present() && (value.Type() != expected || (value.DateTimeValue? && value.unixNs.value < 0))
  }

  lemma MatchesExactly(value: SampleValue, expected: ValueType)
    ensures SampleToVariant(value, expected).1 <==> !Mismatches(value, expected)
  {}

  /** A node's data is good exactly when the sample is good, matches and was
      carried by a current transport. */
  function NodeStatus(view: View, expected: ValueType, current: bool): Status {
    var status := QualityToStatus(view.metadata.quality);
    if Mismatches(view.value, expected) || (view.metadata.quality.Good? && !view.value.Present()) then BadTypeMismatch
    else if !current && status.StatusGood? then UncertainLastUsableValue
    else status
  }

  function SourceTime(view: View, snapshotTime: u64): Option<int> {
    var ns := if view.metadata.sampleTimeUnixNs != 0 then view.metadata.sampleTimeUnixNs else snapshotTime;
    if ns == 0 then None else Some(UnixNsToUaDateTime(ns))
  }

  type NodeTypes = map<string, ValueType>

  function WriteOf(view: View, expected: ValueType, current: bool, snapshotTime: u64): NodeWrite {
    NodeWrite(view.nodeId, DataValue(SampleToVariant(view.value, expected).0, NodeStatus(view, expected, current),
                                     SourceTime(view, snapshotTime)))
  }

  lemma WriteNamed(view: View, expected: ValueType, current: bool, snapshotTime: u64)
    ensures WriteOf(view, expected, current, snapshotTime).nodeId == view.nodeId
  {}

  predicate Seen(views: seq<View>, nodeId: string) {
    exists i :: 0 <= i < |views| && views[i].nodeId == nodeId
  }

  /** The writes a list of views leads to: each known node, the first time. */
  function Writes(views: seq<View>, types: NodeTypes, current: bool, snapshotTime: u64): seq<NodeWrite> {
    if views == [] then []
    else
      var rest, last := views[..|views| - 1], views[|views| - 1];
      Writes(rest, types, current, snapshotTime)
      + if Seen(rest, last.nodeId) || last.nodeId !in types then []
        else [WriteOf(last, types[last.nodeId], current, snapshotTime)]
  }

  /** Repeated, unknown, of another type, or good without a value. */
  predicate Rejects(before: seq<View>, view: View, types: NodeTypes) {
    || Seen(before, view.nodeId) || view.nodeId !in types
    || Mismatches(view.value, types[view.nodeId]) || (view.metadata.quality.Good? && !view.value.Present())
  }

  function RejectedCount(views: seq<View>, types: NodeTypes): nat {
    if views == [] then 0
    else
      var rest, last := views[..|views| - 1], views[|views| - 1];
      RejectedCount(rest, types) + if Rejects(rest, last, types) then 1 else 0
  }

  /** The server keeps the writes it was asked for; a failing write only makes
      the bridge print a warning. */
  class OpcUaServer {
    var writes: seq<NodeWrite>

    constructor ()
      ensures writes == []
    {
      writes := [];
    }

    method WriteDataValue(nodeId: string, value: Variant, status: Status, sourceTimestamp: Option<int>)
      modifies this
      ensures writes == old(writes) + [NodeWrite(nodeId, DataValue(value, status, sourceTimestamp))]
    {
      writes := writes + [NodeWrite(nodeId, DataValue(value, status, sourceTimestamp))];
    }
  }

  class OpcUaSnapshotWriter {
    const server: OpcUaServer
    const nodeTypes: NodeTypes

    constructor (server: OpcUaServer, nodeTypes: NodeTypes)
      ensures this.server == server && this.nodeTypes == nodeTypes
    {
      this.server := server;
      this.nodeTypes := nodeTypes;
    }

    /** Writes the points in the order they are visited, up to an error of the
        visit, and counts the ones it rejects. */
    method Publish(response: Response, transportIsCurrent: bool) returns (r: Result<nat, SnapshotError>)
      requires response.telemetry.Some?
      modifies server
      ensures r.Ok? <==>
        |response.telemetry.value| == EXPECTED_FIELDS && Visits(response.telemetry.value, response.boardId)
      ensures var fields := response.telemetry.value;
        var views := if |fields| == EXPECTED_FIELDS then ViewsOf(fields, response.boardId) else [];
        && server.writes ==
           old(server.writes) + Writes(views, nodeTypes, transportIsCurrent, response.snapshotTimeUnixNs)
        && (r.Ok? ==> r.value == RejectedCount(views, nodeTypes))
        // each known node is written once, and as the first sample for it says;
        // no other is
        && (forall w :: w in server.writes[|old(server.writes)|..] ==> Seen(views, w.nodeId))
        && (forall i :: 0 <= i < |views| && !Seen(views[..i], views[i].nodeId) ==>
              PublishedAs(views[i], nodeTypes, transportIsCurrent, response.snapshotTimeUnixNs,
                          server.writes[|old(server.writes)|..]))
    {
      hide Visits, ViewsOf, PublishedAs, Writes;
      ghost var before := server.writes;
      var visit := VisitWireSamples(response.telemetry.value, response.boardId);
      var rejected := PublishViews(visit.views, transportIsCurrent, response.snapshotTimeUnixNs);
      assert server.writes[|before|..]
          == Writes(visit.views, nodeTypes, transportIsCurrent, response.snapshotTimeUnixNs);
      forall i | 0 <= i < |visit.views| && !Seen(visit.views[..i], visit.views[i].nodeId)
        ensures PublishedAs(visit.views[i], nodeTypes, transportIsCurrent, response.snapshotTimeUnixNs,
                            server.writes[|before|..])
      {
        ViewPublished(visit.views, nodeTypes, transportIsCurrent, response.snapshotTimeUnixNs, i);
      }
      OnlySeenWritten(visit.views, nodeTypes, transportIsCurrent, response.snapshotTimeUnixNs);
      if visit.error.Some? {
        return Err(visit.error.value);
      }
      r := Ok(rejected);
    }

    /** A snapshot from the client's validation to the server: one that is valid
        is published to its end, each known node with a sample exactly once, and
        one that is not is not published at all. */
    method PublishAccepted(parsed: Option<Response>, board: string, sequence: u64, schemaHash: string,
                           transportIsCurrent: bool)
      returns (r: Result<(Counts, nat), SnapshotError>)
      modifies server
      ensures r.Ok? <==> parsed.Some? && Acceptable(parsed.value, board, sequence, schemaHash)
      ensures r.Err? ==> server.writes == old(server.writes)
      ensures r.Ok? ==>
        var views := ViewsOf(parsed.value.telemetry.value, board);
        && r.value == (CountsOf(views), UnwritableCount(views, nodeTypes))
        && server.writes ==
           old(server.writes) + Writes(views, nodeTypes, transportIsCurrent, parsed.value.snapshotTimeUnixNs)
        && (forall w :: w in server.writes[|old(server.writes)|..] ==> Seen(views, w.nodeId))
        && forall i :: 0 <= i < |views| ==>
             PublishedAs(views[i], nodeTypes, transportIsCurrent, parsed.value.snapshotTimeUnixNs,
                         server.writes[|old(server.writes)|..])
    {
      hide ViewsOf, Visits, ValidViews, CountsOf, PublishedAs, Writes;
      var checked := ParseAndValidate(parsed, board, sequence, schemaHash);
      if checked.Err? {
        return Err(checked.error);
      }
      var response := checked.value.0;
      ghost var before := server.writes;
      var rejected := Publish(response, transportIsCurrent);
      ghost var views := ViewsOf(response.telemetry.value, board);
      OnlyUnwritableRejected(views, board, nodeTypes);
      assert server.writes[|before|..] == Writes(views, nodeTypes, transportIsCurrent, response.snapshotTimeUnixNs);
      forall i | 0 <= i < |views|
        ensures PublishedAs(views[i], nodeTypes, transportIsCurrent, response.snapshotTimeUnixNs,
                            server.writes[|before|..])
      {
        PublishedSnapshot(views, board, nodeTypes, transportIsCurrent, response.snapshotTimeUnixNs, i);
      }
      r := Ok((checked.value.1, rejected.value));
    }

    method PublishViews(views: seq<View>, transportIsCurrent: bool, snapshotTime: u64) returns (rejectedPoints: nat)
      modifies server
      ensures server.writes == old(server.writes) + Writes(views, nodeTypes, transportIsCurrent, snapshotTime)
      ensures rejectedPoints == RejectedCount(views, nodeTypes)
    {
      rejectedPoints := 0;
      var seenNodeIds: set<string> := {};
      for k := 0 to |views|
        invariant seenNodeIds == set i | 0 <= i < k :: views[i].nodeId
        invariant server.writes == old(server.writes) + Writes(views[..k], nodeTypes, transportIsCurrent, snapshotTime)
        invariant rejectedPoints == RejectedCount(views[..k], nodeTypes)
      {
        var view := views[k];
        assert views[..k + 1][..k] == views[..k];
        assert Seen(views[..k], view.nodeId) <==> view.nodeId in seenNodeIds;
        var seen := view.nodeId in seenNodeIds;
        seenNodeIds := seenNodeIds + {view.nodeId};
        if seen || view.nodeId !in nodeTypes {
          rejectedPoints := rejectedPoints + 1;
        } else {
          var rejected := PublishView(view, nodeTypes[view.nodeId], transportIsCurrent, snapshotTime);
          if rejected {
            rejectedPoints := rejectedPoints + 1;
          }
        }
      }
      assert views[..|views|] == views;
    }

    method PublishView(view: View, expected: ValueType, transportIsCurrent: bool, snapshotTime: u64)
      returns (rejected: bool)
      modifies server
      ensures server.writes == old(server.writes) + [WriteOf(view, expected, transportIsCurrent, snapshotTime)]
      ensures rejected <==>
        Mismatches(view.value, expected) || (view.metadata.quality.Good? && !view.value.Present())
    {
      var (value, typeMatches) := SampleToVariant(view.value, expected);
      MatchesExactly(view.value, expected);
      var status := QualityToStatus(view.metadata.quality);
      var goodValueIsMissing := view.metadata.quality.Good? && !view.value.Present();
      rejected := false;
      if !typeMatches || goodValueIsMissing {
        status := BadTypeMismatch;
        rejected := true;
      } else if !transportIsCurrent && status.StatusGood? {
        status := UncertainLastUsableValue;
      }
      var sourceTimeNs := if view.metadata.sampleTimeUnixNs != 0 then view.metadata.sampleTimeUnixNs else snapshotTime;
      server.WriteDataValue(view.nodeId, value, status,
                            if sourceTimeNs == 0 then None else Some(UnixNsToUaDateTime(sourceTimeNs)));
    }
  }

  // ---------- what publication of an accepted snapshot means ----------

  /** A point of a valid snapshot is rejected exactly if its node is unknown or
      its value does not match. */
  predicate Unwritable(view: View, types: NodeTypes) {
    view.nodeId !in types || Mismatches(view.value, types[view.nodeId])
  }

  function UnwritableCount(views: seq<View>, types: NodeTypes): nat {
    if views == [] then 0
    else UnwritableCount(views[..|views| - 1], types) + if Unwritable(views[|views| - 1], types) then 1 else 0
  }

  lemma {:induction false} OnlyUnwritableRejected(views: seq<View>, board: string, types: NodeTypes)
    requires ValidViews(views, board)
    ensures RejectedCount(views, types) == UnwritableCount(views, types)
  {
    hide OfBoard;
    if views != [] {
      var rest, last := views[..|views| - 1], views[|views| - 1];
      assert forall i :: 0 <= i < |rest| ==> rest[i] == views[i];
      OnlyUnwritableRejected(rest, board, types);
      assert !Seen(rest, last.nodeId);
      assert ValidView(last);
    }
  }

  /** How often a node is written. */
  function TimesWritten(writes: seq<NodeWrite>, nodeId: string): nat {
    if writes == [] then 0
    else TimesWritten(writes[..|writes| - 1], nodeId) + if writes[|writes| - 1].nodeId == nodeId then 1 else 0
  }

  lemma {:induction false} WrittenOnce(views: seq<View>, types: NodeTypes, current: bool, snapshotTime: u64,
                                       nodeId: string)
    ensures TimesWritten(Writes(views, types, current, snapshotTime), nodeId)
         == if nodeId in types && Seen(views, nodeId) then 1 else 0
  {
    hide Writes, TimesWritten, Seen, WriteOf;
    if views == [] {
      NothingWritten(types, current, snapshotTime, nodeId);
    } else {
      var rest, last := views[..|views| - 1], views[|views| - 1];
      WrittenOnce(rest, types, current, snapshotTime, nodeId);
      SeenNext(views, nodeId);
      WritesNext(views, types, current, snapshotTime);
      if !Seen(rest, last.nodeId) && last.nodeId in types {
        var w := WriteOf(last, types[last.nodeId], current, snapshotTime);
        WriteNamed(last, types[last.nodeId], current, snapshotTime);
        OneMoreWrite(Writes(rest, types, current, snapshotTime), w, nodeId);
      }
    }
  }

  lemma NothingWritten(types: NodeTypes, current: bool, snapshotTime: u64, nodeId: string)
    ensures TimesWritten(Writes([], types, current, snapshotTime), nodeId) == 0 && !Seen([], nodeId)
  {}

  lemma OneMoreWrite(writes: seq<NodeWrite>, w: NodeWrite, nodeId: string)
    ensures TimesWritten(writes + [w], nodeId) == TimesWritten(writes, nodeId) + if w.nodeId == nodeId then 1 else 0
  {
    assert (writes + [w])[..|writes|] == writes;
  }

  lemma SeenNext(views: seq<View>, nodeId: string)
    requires views != []
    ensures Seen(views, nodeId) <==>
      Seen(views[..|views| - 1], nodeId) || views[|views| - 1].nodeId == nodeId
  {
    var rest := views[..|views| - 1];
    assert forall i :: 0 <= i < |rest| ==> rest[i] == views[i];
  }

  lemma WritesNext(views: seq<View>, types: NodeTypes, current: bool, snapshotTime: u64)
    requires views != []
    ensures var rest, last := views[..|views| - 1], views[|views| - 1];
      Writes(views, types, current, snapshotTime)
      == if Seen(rest, last.nodeId) || last.nodeId !in types then Writes(rest, types, current, snapshotTime)
         else Writes(rest, types, current, snapshotTime) + [WriteOf(last, types[last.nodeId], current, snapshotTime)]
  {}

  lemma {:induction false} ViewWritten(views: seq<View>, types: NodeTypes, current: bool, snapshotTime: u64, i: nat)
    requires i < |views| && !Seen(views[..i], views[i].nodeId) && views[i].nodeId in types
    ensures WriteOf(views[i], types[views[i].nodeId], current, snapshotTime)
         in Writes(views, types, current, snapshotTime)
  {
    var n := |views| - 1;
    if i < n {
      assert views[..n][..i] == views[..i];
      ViewWritten(views[..n], types, current, snapshotTime, i);
    }
  }

  /** 1 January 1970, in seconds since 1 January 1601. */
  const UNIX_EPOCH_SECONDS: int := 134774 * 86400

  /** The 100 ns ticks since 1601 of a time given in ns since 1970. */
  predicate IsTime(ticks: int, unixNs: nat) {
    var ns := 100 * (ticks - 10_000_000 * UNIX_EPOCH_SECONDS);
    ns <= unixNs < ns + 100
  }

  /** The variant holds the value, in the value's own type. */
  predicate Holds(v: Variant, value: SampleValue) {
    match value
    case BooleanValue(b) => v.UaBoolean? && b == Some(v.b)
    case IntegerValue(i) => v.UaInt32? && i == Some(v.i)
    case LongValue(l) => v.UaInt64? && l == Some(v.l)
    case DoubleValue(d) => v.UaDouble? && d == Some(v.d)
    case TextValue(t) => v.UaString? && t == Some(v.s)
    case DateTimeValue(ns) => v.UaDateTime? && ns.Some? && ns.value >= 0 && IsTime(v.ticks, ns.value)
  }

  /** The value a node of the type has before anything is published. */
  predicate IsBlank(v: Variant, t: ValueType) {
    match t
    case Boolean => v.UaBoolean? && !v.b
    case Integer => v.UaInt32? && v.i == 0
    case Long => v.UaInt64? && v.l == 0
    case Double => v.UaDouble? && v.d == Finite(0.0)
    case Text => v.UaString? && v.s == "Unavailable"
    case DateTime => v.UaDateTime? && v.ticks == 0
  }

  /** What is written of a sample: its value if it is there and matches the node,
      else the blank; a status that says which of these it is, and of what
      quality; the sample's time, or else the snapshot's. */
  predicate WrittenAs(data: DataValue, view: View, expected: ValueType, current: bool, snapshotTime: u64) {
    var unfit := Mismatches(view.value, expected) || (view.metadata.quality.Good? && !view.value.Present());
    var time := if view.metadata.sampleTimeUnixNs != 0 then view.metadata.sampleTimeUnixNs else snapshotTime;
    && (if view.value.Present() && !unfit then Holds(data.value, view.value) else IsBlank(data.value, expected))
    && (data.status.BadTypeMismatch? <==> unfit)
    && (data.status.StatusGood? <==> !unfit && view.metadata.quality.Good? && current)
    && (data.status.UncertainLastUsableValue? <==>
          !unfit && (view.metadata.quality.Stale? || (view.metadata.quality.Good? && !current)))
    && (data.status.BadWaitingForInitialData? <==> !unfit && view.metadata.quality.Unavailable?)
    && (data.status.BadNotSupported? <==> !unfit && view.metadata.quality.NotApplicable?)
    && (data.status.BadInvalidState? <==>
          !unfit && (view.metadata.quality.Invalid? || view.metadata.quality.Unspecified?))
    && (if time == 0 then data.sourceTimestamp.None?
        else data.sourceTimestamp.Some? && IsTime(data.sourceTimestamp.value, time))
  }

  /** A sample's node is written exactly once if it is known, and as the sample
      says. */
  ghost predicate PublishedAs(view: View, types: NodeTypes, current: bool, snapshotTime: u64, writes: seq<NodeWrite>) {
    && TimesWritten(writes, view.nodeId) == (if view.nodeId in types then 1 else 0)
    && forall w :: w in writes && w.nodeId == view.nodeId ==>
         view.nodeId in types && WrittenAs(w.data, view, types[view.nodeId], current, snapshotTime)
  }

  lemma WriteSays(view: View, expected: ValueType, current: bool, snapshotTime: u64)
    ensures WrittenAs(WriteOf(view, expected, current, snapshotTime).data, view, expected, current, snapshotTime)
  {}

  lemma {:induction false} OnlyWrite(writes: seq<NodeWrite>, nodeId: string, w: NodeWrite, x: NodeWrite)
    requires TimesWritten(writes, nodeId) <= 1 && w in writes && x in writes && w.nodeId == x.nodeId == nodeId
    ensures w == x
  {
    var n := |writes| - 1;
    WrittenSome(writes[..n], nodeId, w);
    WrittenSome(writes[..n], nodeId, x);
    if writes[n].nodeId != nodeId {
      OnlyWrite(writes[..n], nodeId, w, x);
    }
  }

  lemma {:induction false} WrittenSome(writes: seq<NodeWrite>, nodeId: string, w: NodeWrite)
    requires w.nodeId == nodeId
    ensures w in writes ==> TimesWritten(writes, nodeId) >= 1
  {
    if writes != [] {
      WrittenSome(writes[..|writes| - 1], nodeId, w);
    }
  }

  lemma {:induction false} WritesKnown(views: seq<View>, types: NodeTypes, current: bool, snapshotTime: u64,
                                       w: NodeWrite)
    requires w in Writes(views, types, current, snapshotTime)
    ensures w.nodeId in types
  {
    if views != [] && w in Writes(views[..|views| - 1], types, current, snapshotTime) {
      WritesKnown(views[..|views| - 1], types, current, snapshotTime, w);
    }
  }

  lemma OnlySeenWritten(views: seq<View>, types: NodeTypes, current: bool, snapshotTime: u64)
    ensures forall w :: w in Writes(views, types, current, snapshotTime) ==> Seen(views, w.nodeId)
  {
    hide Writes, TimesWritten, Seen;
    forall w | w in Writes(views, types, current, snapshotTime) ensures Seen(views, w.nodeId) {
      WrittenOnce(views, types, current, snapshotTime, w.nodeId);
      WrittenSome(Writes(views, types, current, snapshotTime), w.nodeId, w);
    }
  }

  /** Of any list of views the first for each node is published. */
  lemma ViewPublished(views: seq<View>, types: NodeTypes, current: bool, snapshotTime: u64, i: nat)
    requires i < |views| && !Seen(views[..i], views[i].nodeId)
    ensures PublishedAs(views[i], types, current, snapshotTime, Writes(views, types, current, snapshotTime))
  {
    hide Writes, TimesWritten, WriteOf, WrittenAs;
    var view, writes := views[i], Writes(views, types, current, snapshotTime);
    WrittenOnce(views, types, current, snapshotTime, view.nodeId);
    assert Seen(views, view.nodeId);
    forall w | w in writes && w.nodeId == view.nodeId
      ensures view.nodeId in types && WrittenAs(w.data, view, types[view.nodeId], current, snapshotTime)
    {
      WritesKnown(views, types, current, snapshotTime, w);
      var x := WriteOf(view, types[view.nodeId], current, snapshotTime);
      ViewWritten(views, types, current, snapshotTime, i);
      WriteNamed(view, types[view.nodeId], current, snapshotTime);
      OnlyWrite(writes, view.nodeId, w, x);
      WriteSays(view, types[view.nodeId], current, snapshotTime);
    }
  }

  /** Publication of an accepted snapshot: the rejected points are those of
      unknown nodes or with a value of another type, a time before 1970
      included, and every sample is published. */
  lemma PublishedSnapshot(views: seq<View>, board: string, types: NodeTypes, current: bool, snapshotTime: u64, i: nat)
    requires ValidViews(views, board) && i < |views|
    ensures RejectedCount(views, types) == UnwritableCount(views, types)
    ensures PublishedAs(views[i], types, current, snapshotTime, Writes(views, types, current, snapshotTime))
  {
    hide OfBoard, ValidView, Writes, RejectedCount, UnwritableCount, PublishedAs;
    OnlyUnwritableRejected(views, board, types);
    ViewPublished(views, types, current, snapshotTime, i);
  }
}
