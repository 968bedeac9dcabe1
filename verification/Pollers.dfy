/** Poll workers sharing boards, and what is published of a board
    (opcua-bridge/src/main.cpp, lines 1270-1331 and 1461-1521). */
module Pollers {
  import opened Words

  /** A poll result; `reading` stands for everything that was measured. */
  datatype Status<T> = Status(connected: bool, success: bool, updateTimeNs: u64, reading: T) {
    predicate IsGood() {
      connected && success
    }
  }

  /** What the bridge keeps of a board. */
  datatype Board<T> = Board(status: Status<T>, lastGood: Option<Status<T>>, lastGoodUpdateNs: u64, errors: u64)

  function NewBoard<T>(initial: Status<T>): Board<T> {
    Board(initial, None, 0, 0)
  }

  /** A poll recorded under the board's lock. */
  function Recorded<T>(b: Board<T>, status: Status<T>): Board<T> {
    if status.IsGood() then Board(status, Some(status), status.updateTimeNs, b.errors)
    else Board(status, b.lastGood, b.lastGoodUpdateNs, (b.errors + 1) % 0x1_0000_0000_0000_0000)
  }

  // ---------- a board by its polls ----------

  function LastGood<T>(polls: seq<Status<T>>): Option<Status<T>> {
    if polls == [] then None
    else if polls[|polls| - 1].IsGood() then Some(polls[|polls| - 1])
    else LastGood(polls[..|polls| - 1])
  }

  function Failures<T>(polls: seq<Status<T>>): nat {
    if polls == [] then 0
    else Failures(polls[..|polls| - 1]) + if polls[|polls| - 1].IsGood() then 0 else 1
  }

  /** The board shows its latest poll, keeps the latest good one, and counts the
      failed ones. */
  predicate Shows<T(==)>(b: Board<T>, initial: Status<T>, polls: seq<Status<T>>) {
    && b.status == (if polls == [] then initial else polls[|polls| - 1])
    && b.lastGood == LastGood(polls)
    && b.lastGoodUpdateNs == (if LastGood(polls).Some? then LastGood(polls).value.updateTimeNs else 0)
    && b.errors == Failures(polls) % 0x1_0000_0000_0000_0000
  }

  lemma RecordedShows<T>(b: Board<T>, initial: Status<T>, polls: seq<Status<T>>, status: Status<T>)
    requires Shows(b, initial, polls)
    ensures Shows(Recorded(b, status), initial, polls + [status])
  {
    assert (polls + [status])[..|polls|] == polls;
  }

  class DaphneRuntime<T> {
    var status: Status<T>
    var lastGoodStatus: Status<T>
    var hasLastGoodStatus: bool
    var lastGoodUpdateNs: u64
    var pollErrorCount: u64

    function Value(): Board<T>
      reads this
    {
      Board(status, if hasLastGoodStatus then Some(lastGoodStatus) else None, lastGoodUpdateNs, pollErrorCount)
    }

    constructor (initial: Status<T>)
      ensures Value() == NewBoard(initial)
    {
      status := initial;
      lastGoodStatus := initial;
      hasLastGoodStatus := false;
      lastGoodUpdateNs := 0;
      pollErrorCount := 0;
    }

    /** What a worker does with a poll result while it holds the lock. */
    method Record(status: Status<T>)
      modifies this
      ensures Value() == Recorded(old(Value()), status)
    {
      if status.connected && status.success {
        lastGoodStatus := status;
        hasLastGoodStatus := true;
        lastGoodUpdateNs := status.updateTimeNs;
      } else {
        pollErrorCount := (pollErrorCount + 1) % 0x1_0000_0000_0000_0000;
      }
      this.status := status;
    }
  }

  // ---------- the workers ----------

  /** The boards a worker visits in one cycle. */
  method Visited(worker: nat, workerCount: nat, boards: nat) returns (indices: seq<nat>)
    requires worker < workerCount
    ensures forall i: nat :: i in indices <==> i < boards && i % workerCount == worker
    ensures forall j, k :: 0 <= j < k < |indices| ==> indices[j] < indices[k]
  {
    indices := [];
    var index := worker;
    forall i | 0 <= i < worker ensures i % workerCount != worker {
      SmallRemainder(i, workerCount);
    }
    SmallRemainder(worker, workerCount);
    while index < boards
      invariant index % workerCount == worker
      invariant forall i: nat :: i in indices <==> i < boards && i < index && i % workerCount == worker
      invariant forall j, k :: 0 <= j < k < |indices| ==> indices[j] < indices[k]
      decreases boards - index
    {
      NextIndex(index, workerCount, worker);
      assert forall j :: 0 <= j < |indices| ==> indices[j] in indices;
      indices := indices + [index];
      index := index + workerCount;
    }
  }

  /** Between two indices of a worker there is none of its own. */
  lemma NextIndex(index: nat, workerCount: nat, worker: nat)
    requires worker < workerCount && index % workerCount == worker
    ensures (index + workerCount) % workerCount == worker
    ensures forall i :: index < i < index + workerCount ==> i % workerCount != worker
    ensures forall i :: index <= i < index + workerCount && i % workerCount == worker ==> i == index
  {
    hide Times;
    var q := index / workerCount;
    Division(index, workerCount);
    TimesNext(q, workerCount);
    RemainderOf(q + 1, worker, workerCount);
    forall i | index < i < index + workerCount ensures i % workerCount != worker {
      if i < Times(q + 1, workerCount) {
        RemainderOf(q, i - Times(q, workerCount), workerCount);
      } else {
        RemainderOf(q + 1, i - Times(q + 1, workerCount), workerCount);
      }
    }
  }

  function Times(q: nat, n: nat): nat {
    q * n
  }

  lemma TimesNext(q: nat, n: nat)
    ensures Times(q + 1, n) == Times(q, n) + n
  {}

  lemma {:induction false} TimesGrows(a: nat, b: nat, n: nat)
    requires a <= b
    ensures Times(a, n) <= Times(b, n)
    decreases b - a
  {
    hide Times;
    if a < b {
      TimesGrows(a, b - 1, n);
      TimesNext(b - 1, n);
    }
  }

  lemma Division(k: nat, n: nat)
    requires n > 0
    ensures k == Times(k / n, n) + k % n
  {}

  lemma SmallRemainder(r: nat, n: nat)
    requires r < n
    ensures r % n == r
  {
    assert Times(0, n) == 0;
    RemainderOf(0, r, n);
  }

  lemma RemainderOf(q: nat, r: nat, n: nat)
    requires r < n
    ensures (Times(q, n) + r) % n == r
  {
    hide Times;
    var k := Times(q, n) + r;
    Division(k, n);
    TimesNext(k / n, n);
    TimesNext(q, n);
    if k / n < q {
      TimesGrows(k / n + 1, q, n);
    } else if q < k / n {
      TimesGrows(q + 1, k / n, n);
    }
  }

  /** Each worker is at some board, waiting to poll it or holding its result. */
  datatype Worker<T> = Worker(index: nat, polled: Option<Status<T>>)

  /** `polls` is, board by board, the history of polls that were answered. */
  datatype System<T> = System(boards: seq<Board<T>>, workers: seq<Worker<T>>, polls: seq<seq<Status<T>>>)

  datatype Event<T> = Poll(worker: nat, status: Status<T>) | Publish(worker: nat)

  predicate Enabled<T>(s: System<T>, e: Event<T>) {
    && e.worker < |s.workers| && s.workers[e.worker].index < |s.boards| == |s.polls|
    && (e.Poll? <==> s.workers[e.worker].polled.None?)
  }

  function Advance(index: nat, worker: nat, workerCount: nat, boards: nat): nat {
    if index + workerCount < boards then index + workerCount else worker
  }

  function Step<T>(s: System<T>, e: Event<T>): System<T>
    requires Enabled(s, e)
  {
    var worker := s.workers[e.worker];
    var i := worker.index;
    match e
    case Poll(w, status) =>
      s.(workers := s.workers[w := worker.(polled := Some(status))], polls := s.polls[i := s.polls[i] + [status]])
    case Publish(w) =>
      s.(boards := s.boards[i := Recorded(s.boards[i], worker.polled.value)],
         workers := s.workers[w := Worker(Advance(i, w, |s.workers|, |s.boards|), None)])
  }

  /** The events of all workers, interleaved in any way. */
  predicate Possible<T>(s: System<T>, events: seq<Event<T>>)
    decreases |events|, 0
  {
    || events == []
    || (Possible(s, events[..|events| - 1]) && Enabled(Run(s, events[..|events| - 1]), events[|events| - 1]))
  }

  function Run<T>(s: System<T>, events: seq<Event<T>>): System<T>
    requires Possible(s, events)
    decreases |events|, 1
  {
    if events == [] then s else Step(Run(s, events[..|events| - 1]), events[|events| - 1])
  }

  function Start<T>(initial: seq<Status<T>>, configured: nat): System<T> {
    var workerCount := if configured < |initial| then configured else |initial|;
    System(seq(|initial|, i requires 0 <= i < |initial| => NewBoard(initial[i])),
           seq(workerCount, w requires 0 <= w < workerCount => Worker(w, None)),
           seq(|initial|, _ => []))
  }

  /** The polls of a board that were published: all but the one its worker
      still holds. */
  function PublishedPolls<T>(s: System<T>, i: nat): seq<Status<T>>
    requires i < |s.boards| == |s.polls| && s.workers != []
  {
    var w := s.workers[i % |s.workers|];
    if w.index == i && w.polled.Some? && s.polls[i] != [] then s.polls[i][..|s.polls[i]| - 1] else s.polls[i]
  }

  /** Every worker is at a board of its own, and every board shows exactly the
      polls published for it. */
  ghost predicate Consistent<T(!new)>(s: System<T>, initial: seq<Status<T>>) {
    && |s.boards| == |s.polls| == |initial| && 0 < |s.workers| <= |initial|
    && (forall w :: 0 <= w < |s.workers| ==> Placed(s, w))
    && (forall i :: 0 <= i < |initial| ==> Shows(s.boards[i], initial[i], PublishedPolls(s, i)))
  }

  /** A worker is at a board of its own, and holds that board's latest poll. */
  predicate Placed<T(==)>(s: System<T>, w: nat)
    requires w < |s.workers| && |s.boards| == |s.polls|
  {
    var worker := s.workers[w];
    && worker.index < |s.boards| && worker.index % |s.workers| == w
    && (worker.polled.Some? ==>
          s.polls[worker.index] != [] && s.polls[worker.index][|s.polls[worker.index]| - 1] == worker.polled.value)
  }

  lemma StartConsistent<T(!new)>(initial: seq<Status<T>>, configured: nat)
    requires initial != [] && configured > 0
    ensures Consistent(Start(initial, configured), initial)
  {
    var s := Start(initial, configured);
    forall w | 0 <= w < |s.workers| ensures Placed(s, w) {
      SmallRemainder(w, |s.workers|);
    }
  }

  lemma AdvancePlaced(index: nat, worker: nat, workerCount: nat, boards: nat)
    requires worker < workerCount <= boards && index % workerCount == worker
    ensures Advance(index, worker, workerCount, boards) < boards
    ensures Advance(index, worker, workerCount, boards) % workerCount == worker
  {
    NextIndex(index, workerCount, worker);
    SmallRemainder(worker, workerCount);
  }

  lemma StepConsistent<T(!new)>(s: System<T>, e: Event<T>, initial: seq<Status<T>>)
    requires Consistent(s, initial) && Enabled(s, e)
    ensures Consistent(Step(s, e), initial)
  {
    var t, w, i := Step(s, e), e.worker, s.workers[e.worker].index;
    assert Placed(s, w);
    AdvancePlaced(i, w, |s.workers|, |s.boards|);
    forall v | 0 <= v < |t.workers| ensures Placed(t, v) {
      assert Placed(s, v);
    }
    forall k | 0 <= k < |initial| ensures Shows(t.boards[k], initial[k], PublishedPolls(t, k)) {
      assert Shows(s.boards[k], initial[k], PublishedPolls(s, k));
      if k == i && e.Publish? {
        RecordedShows(s.boards[i], initial[i], PublishedPolls(s, i), s.workers[w].polled.value);
        assert PublishedPolls(s, i) + [s.workers[w].polled.value] == s.polls[i];
      } else if k == i {
        assert (s.polls[i] + [e.status])[..|s.polls[i]|] == s.polls[i];
      }
    }
  }

  /** However the workers are interleaved, every board shows its most recent
      published poll, the most recent good one, and the number of failures. */
  lemma {:induction false} RunConsistent<T(!new)>(initial: seq<Status<T>>, configured: nat, events: seq<Event<T>>)
    requires initial != [] && configured > 0 && Possible(Start(initial, configured), events)
    ensures Consistent(Run(Start(initial, configured), events), initial)
  {
    if events == [] {
      StartConsistent(initial, configured);
    } else {
      RunConsistent(initial, configured, events[..|events| - 1]);
      StepConsistent(Run(Start(initial, configured), events[..|events| - 1]), events[|events| - 1], initial);
    }
  }

  /** A board never goes back to an older poll: what is published for it only
      grows. */
  lemma NeverGoesBack<T(!new)>(s: System<T>, e: Event<T>, initial: seq<Status<T>>, i: nat)
    requires Consistent(s, initial) && Enabled(s, e) && i < |initial|
    ensures |Step(s, e).boards| == |Step(s, e).polls| == |initial| && Step(s, e).workers != []
    ensures PublishedPolls(s, i) <= PublishedPolls(Step(s, e), i)
  {
    assert Placed(s, e.worker);
    assert Placed(s, i % |s.workers|) by {
      RemainderOf(0, 0, |s.workers|);
    }
  }

  // ---------- rounds ----------

  /** A worker has published each of its boards `rounds` times, and those before
      the one it is at once more. */
  ghost predicate Evenly<T(!new)>(s: System<T>, w: nat, rounds: nat)
    requires w < |s.workers| && |s.boards| == |s.polls|
  {
    forall i :: 0 <= i < |s.boards| && i % |s.workers| == w ==>
      |PublishedPolls(s, i)| == rounds + if i < s.workers[w].index then 1 else 0
  }

  lemma StepPublishes<T(!new)>(s: System<T>, e: Event<T>, initial: seq<Status<T>>, i: nat)
    requires Consistent(s, initial) && Enabled(s, e) && i < |initial|
    ensures |Step(s, e).boards| == |Step(s, e).polls| == |initial| && |Step(s, e).workers| == |s.workers|
    ensures |PublishedPolls(Step(s, e), i)|
         == |PublishedPolls(s, i)| + if e.Publish? && s.workers[e.worker].index == i then 1 else 0
  {
    var w := e.worker;
    assert Placed(s, w);
    assert Placed(s, i % |s.workers|) by {
      RemainderOf(0, 0, |s.workers|);
    }
    AdvancePlaced(s.workers[w].index, w, |s.workers|, |s.boards|);
    AdvanceMoves(s.workers[w].index, w, |s.workers|, |s.boards|);
  }

  lemma AdvanceMoves(index: nat, worker: nat, workerCount: nat, boards: nat)
    requires worker < workerCount <= boards && index < boards
    ensures Advance(index, worker, workerCount, boards) == index ==> index == worker
  {}

  /** Boards of a worker up to the one it is at are those before its next one, or
      all of them when the next is the first. */
  lemma UpToNext(index: nat, worker: nat, workerCount: nat, boards: nat, i: nat)
    requires worker < workerCount <= boards && index % workerCount == i % workerCount == worker && i < boards
    ensures var next := Advance(index, worker, workerCount, boards);
            if index + workerCount < boards then i <= index <==> i < next else i <= index && next <= i
  {
    NextIndex(index, workerCount, worker);
    if i < worker {
      SmallRemainder(i, workerCount);
    }
  }

  lemma StepEvenly<T(!new)>(s: System<T>, e: Event<T>, initial: seq<Status<T>>, w: nat, rounds: nat)
    requires Consistent(s, initial) && Enabled(s, e) && w < |s.workers| && Evenly(s, w, rounds)
    ensures |Step(s, e).boards| == |Step(s, e).polls| && w < |Step(s, e).workers|
    ensures exists r: nat :: Evenly(Step(s, e), w, r)
  {
    hide PublishedPolls;
    var t, n, index := Step(s, e), |s.workers|, s.workers[w].index;
    assert Placed(s, w) && Placed(s, e.worker);
    StepPublishes(s, e, initial, index);
    var wraps := e.Publish? && e.worker == w && index + n >= |s.boards|;
    var r := if wraps then rounds + 1 else rounds;
    forall i | 0 <= i < |t.boards| && i % |t.workers| == w
      ensures |PublishedPolls(t, i)| == r + if i < t.workers[w].index then 1 else 0
    {
      StepPublishes(s, e, initial, i);
      UpToNext(index, w, n, |s.boards|, i);
    }
    assert Evenly(t, w, r);
  }

  lemma StartEvenly<T(!new)>(initial: seq<Status<T>>, configured: nat, w: nat)
    requires initial != [] && configured > 0 && w < |Start(initial, configured).workers|
    ensures Evenly(Start(initial, configured), w, 0)
  {
    var s := Start(initial, configured);
    forall i | 0 <= i < |s.boards| && i % |s.workers| == w
      ensures |PublishedPolls(s, i)| == if i < s.workers[w].index then 1 else 0
    {
      if i < w {
        SmallRemainder(i, |s.workers|);
      }
    }
  }

  /** However the workers are interleaved, each serves its boards round by round,
      in ascending order: none of them is ever more than one poll behind. */
  lemma {:induction false} RoundsAreEven<T(!new)>(initial: seq<Status<T>>, configured: nat, events: seq<Event<T>>,
                                                  w: nat)
    requires initial != [] && configured > 0 && Possible(Start(initial, configured), events)
    requires w < |Start(initial, configured).workers|
    ensures var s := Run(Start(initial, configured), events);
            && |s.boards| == |s.polls| && w < |s.workers|
            && exists rounds: nat :: Evenly(s, w, rounds)
  {
    hide Evenly, Start, Step, Enabled;
    if events == [] {
      StartEvenly(initial, configured, w);
      StartConsistent(initial, configured);
    } else {
      var rest, e := events[..|events| - 1], events[|events| - 1];
      RoundsAreEven(initial, configured, rest, w);
      RunConsistent(initial, configured, rest);
      var s := Run(Start(initial, configured), rest);
      var rounds: nat :| Evenly(s, w, rounds);
      StepEvenly(s, e, initial, w, rounds);
    }
  }

  // ---------- what is published ----------

  datatype MeasurementStatus = MeasurementGood | Uncertain | BadNotConnected

  datatype Published<T> = Published(quality: string, status: MeasurementStatus, measurement: Status<T>)

  function AgeMs<T>(b: Board<T>, nowNs: u64): real {
    if b.lastGood.Some? && nowNs >= b.lastGoodUpdateNs then (nowNs - b.lastGoodUpdateNs) as real / 1000000000.0 * 1000.0
    else 0.0
  }

  /** The quality, status and measurement published for a board. */
  ghost predicate Publishes<T>(b: Board<T>, nowNs: u64, staleAfterMs: nat, p: Published<T>) {
    && (p.quality == "Good" <==> b.status.IsGood())
    && (p.quality == "Stale" <==>
          !b.status.IsGood() && b.lastGood.Some? && AgeMs(b, nowNs) >= staleAfterMs as real)
    && (p.quality == "Bad" <==> !b.status.IsGood() && b.lastGood.None?)
    && p.quality in {"Good", "Stale", "Uncertain", "Bad"}
    && (p.status.MeasurementGood? <==> p.quality == "Good")
    && (p.status.BadNotConnected? <==> p.quality == "Bad")
    && p.measurement == if b.lastGood.Some? then b.lastGood.value else b.status
  }

  method Publication<T>(b: Board<T>, nowNs: u64, staleAfterMs: nat) returns (p: Published<T>)
    ensures Publishes(b, nowNs, staleAfterMs, p)
  {
    var ageSeconds: real := if b.lastGood.Some? && nowNs >= b.lastGoodUpdateNs
                            then (nowNs - b.lastGoodUpdateNs) as real / 1000000000.0 else 0.0;
    var currentGood := b.status.connected && b.status.success;
    var stale := !currentGood && b.lastGood.Some? && ageSeconds * 1000.0 >= staleAfterMs as real;
    var quality := if currentGood then "Good" else if stale then "Stale"
                   else if b.lastGood.Some? then "Uncertain" else "Bad";
    var status := if currentGood then MeasurementGood else if b.lastGood.Some? then Uncertain else BadNotConnected;
    p := Published(quality, status, if b.lastGood.Some? then b.lastGood.value else b.status);
  }

  /** The latest of the polls, or what the board started with. */
  function Current<T>(initial: Status<T>, polls: seq<Status<T>>): Status<T> {
    if polls == [] then initial else polls[|polls| - 1]
  }

  lemma {:induction false} LastGoodIsLast<T>(polls: seq<Status<T>>)
    ensures LastGood(polls).None? <==> forall poll :: poll in polls ==> !poll.IsGood()
    ensures LastGood(polls).Some? ==> exists k :: 0 <= k < |polls| && GoodSince(polls, k, LastGood(polls).value)
  {
    if polls != [] {
      var n := |polls| - 1;
      LastGoodIsLast(polls[..n]);
      assert polls == polls[..n] + [polls[n]];
      if polls[n].IsGood() {
        assert GoodSince(polls, n, polls[n]);
      } else if LastGood(polls).Some? {
        var k :| 0 <= k < n && GoodSince(polls[..n], k, LastGood(polls).value);
        assert GoodSince(polls, k, LastGood(polls).value);
      }
    }
  }

  /** Poll `k` is good, and none after it is. */
  predicate GoodSince<T(==)>(polls: seq<Status<T>>, k: nat, poll: Status<T>)
    requires k < |polls|
  {
    polls[k] == poll && poll.IsGood() && forall j :: k < j < |polls| ==> !polls[j].IsGood()
  }

  /** However the workers are interleaved, quality Good vouches for what is
      published: it is the board's current poll, and a good one. Stale and
      Uncertain give the latest poll that was good, Bad a board none of whose
      polls was. */
  lemma GoodMeansCurrent<T(!new)>(initial: seq<Status<T>>, configured: nat, events: seq<Event<T>>, i: nat,
                                  nowNs: u64, staleAfterMs: nat, p: Published<T>)
    requires initial != [] && configured > 0 && Possible(Start(initial, configured), events) && i < |initial|
    requires var s := Run(Start(initial, configured), events);
             i < |s.boards| ==> Publishes(s.boards[i], nowNs, staleAfterMs, p)
    ensures var s := Run(Start(initial, configured), events);
            && i < |s.boards| == |s.polls| && s.workers != []
            && var polls := PublishedPolls(s, i);
               var current := Current(initial[i], polls);
               && (p.quality == "Good" <==> current.IsGood())
               && (p.quality == "Bad" <==> !current.IsGood() && forall poll :: poll in polls ==> !poll.IsGood())
               && (p.quality in {"Good", "Bad"} ==> p.measurement == current)
               && (p.quality in {"Stale", "Uncertain"} ==>
                     exists k :: 0 <= k < |polls| && GoodSince(polls, k, p.measurement))
  {
    hide Run, Start, Possible, PublishedPolls, GoodSince, AgeMs;
    RunConsistent(initial, configured, events);
    var s := Run(Start(initial, configured), events);
    var polls := PublishedPolls(s, i);
    assert Shows(s.boards[i], initial[i], polls);
    LastGoodIsLast(polls);
  }
}
