/** One exchange of the RPMsg host with the RPU, and what any run of exchanges
    does to the queue of replies (crates/daphne-sc-server/src/rpmsg.rs, lines
    38-67). */
module Exchanges {
  import opened Words
  import opened Wire
  import opened Protocol

  /** Every transport failure while a command is submitted is reported as
      Transport, a timeout included. */
  datatype RpuError = Invalid | Transport | TimedOut

  /** What happens to one frame: the write may fail; a written frame may be
      delivered; its reply may be queued for the host; the host may find the
      file readable in time. The interlock is the one the frame meets. */
  datatype LinkEvent = LinkEvent(interlock: Interlock, written: bool, delivered: bool, answered: bool, readable: bool) {
    /** A reply gets into the host's queue. */
    predicate Answers() {
      written && delivered && answered
    }

    predicate Whole() {
      Answers() && readable
    }
  }

  /** What the host makes of the bytes it reads after sending `sequence`. */
  function Accept(bytes: Frame, sequence: u64): (r: Result<Reply, RpuError>)
    ensures r.Ok? ==> r.value.sequence == sequence
  {
    match DecodeReply(bytes)
    case Ok(reply) => if reply.sequence == sequence then Ok(reply) else Err(Transport)
    case Err(_) => Err(Transport)
  }

  /** None of the replies still queued can be taken for the reply to `sequence`. */
  predicate Foreign(pending: seq<Frame>, sequence: u64) {
    forall bytes :: bytes in pending ==> Accept(bytes, sequence).Err?
  }

  lemma AnswerAccepted(s: Rpu, i: Input, c: Command)
    requires Supported(i.frame) && i.frame == EncodedCommand(c)
    ensures Accept(EncodedReply(Step(s, i).1), c.sequence) == Ok(Step(s, i).1)
  {
    hide EncodedCommand, DecodeCommand, EncodedReply, DecodeReply;
    CommandRoundTrip(c);
    ReplyRoundTrip(Step(s, i).1);
  }

  /** The queue after an exchange, before the host reads. */
  function Arrived(pending: seq<Frame>, event: LinkEvent, s: Rpu, input: Option<Input>): seq<Frame>
    requires input.Some? ==> Supported(input.value.frame)
  {
    if input.Some? && event.answered then pending + [EncodedReply(Step(s, input.value).1)] else pending
  }

  /** What the host gets, and what it leaves in the queue. */
  function Reading(arrived: seq<Frame>, event: LinkEvent, sequence: u64): (Result<Reply, RpuError>, seq<Frame>) {
    if !event.written then (Err(Transport), arrived)
    else if !event.readable || arrived == [] then (Err(TimedOut), arrived)
    else (Accept(arrived[0], sequence), arrived[1..])
  }

  predicate AllForeign(pending: seq<Frame>, frames: seq<Command>) {
    forall c :: c in frames ==> Foreign(pending, c.sequence)
  }

  /** With no stranger queued, the only reply that can be accepted is the one to
      the frame just sent; over a link that keeps up it is. */
  lemma ExchangeAnswered(pending: seq<Frame>, event: LinkEvent, s: Rpu, input: Option<Input>, c: Command)
    requires input.Some? <==> event.written && event.delivered
    requires input.Some? ==> Supported(input.value.frame) && input.value.frame == EncodedCommand(c)
    ensures var (r, left) := Reading(Arrived(pending, event, s, input), event, c.sequence);
      && (r.Ok? && Foreign(pending, c.sequence) ==>
            pending == left == [] && input.Some? && r.value == Step(s, input.value).1)
      && (event.Whole() && pending == [] ==> r.Ok? && left == [])
  {
    hide Accept, Step, EncodedCommand, EncodedReply;
    if input.Some? {
      AnswerAccepted(s, input.value, c);
    }
  }

  // ---------- the numbers in the queue ----------

  /** How many sequence numbers there are. */
  const SEQUENCES: nat := 0x1_0000_0000_0000_0000

  /** No queued reply carries a number from `from` on and below `to`. */
  ghost predicate Clear(pending: seq<Frame>, from: nat, to: nat) {
    forall bytes :: bytes in pending && DecodeReply(bytes).Ok? ==> !(from <= DecodeReply(bytes).value.sequence < to)
  }

  lemma ClearForeign(pending: seq<Frame>, from: nat, to: nat, sequence: u64)
    requires Clear(pending, from, to) && from <= sequence < to
    ensures Foreign(pending, sequence)
  {
    hide DecodeReply;
  }

  /** The frames carry the numbers from `first` on. */
  ghost predicate Consecutive(frames: seq<Command>, first: nat) {
    forall k :: 0 <= k < |frames| ==> frames[k].sequence == first + k
  }

  lemma ClearAllForeign(pending: seq<Frame>, frames: seq<Command>, first: nat)
    requires Consecutive(frames, first) && Clear(pending, first, first + |frames|)
    ensures AllForeign(pending, frames)
  {
    hide Clear, Foreign;
    forall c | c in frames ensures Foreign(pending, c.sequence) {
      var k :| 0 <= k < |frames| && frames[k] == c;
      ClearForeign(pending, first, first + |frames|, c.sequence);
    }
  }

  lemma NothingQueued(from: nat, to: nat)
    ensures Clear([], from, to)
  {}

  lemma ClearPart(pending: seq<Frame>, from: nat, to: nat, from': nat, to': nat)
    requires Clear(pending, from, to) && from <= from' && to' <= to
    ensures Clear(pending, from', to')
  {
    hide DecodeReply;
  }

  /** Numbers from `next` on are as clear of the queue afterwards as numbers
      from `from` on were before. */
  ghost predicate Clears(before: seq<Frame>, from: nat, after: seq<Frame>, next: nat) {
    forall to: nat :: Clear(before, from, to) ==> Clear(after, next, to)
  }

  lemma InClear(before: seq<Frame>, from: nat, after: seq<Frame>, next: nat, to: nat)
    requires Clears(before, from, after, next) && Clear(before, from, to)
    ensures Clear(after, next, to)
  {
    hide Clear;
  }

  lemma ClearsNothing(pending: seq<Frame>, from: nat)
    ensures Clears(pending, from, pending, from)
  {}

  lemma ClearsOn(a: seq<Frame>, from: nat, b: seq<Frame>, mid: nat, c: seq<Frame>, next: nat)
    requires Clears(a, from, b, mid) && Clears(b, mid, c, next)
    ensures Clears(a, from, c, next)
  {
    hide Clear;
  }

  lemma ClearsLater(before: seq<Frame>, from: nat, after: seq<Frame>, next: nat, later: nat)
    requires Clears(before, from, after, next) && next <= later
    ensures Clears(before, from, after, later)
  {
    forall to: nat | Clear(before, from, to) ensures Clear(after, later, to) {
      ClearPart(after, next, to, later, to);
    }
  }

  /** An exchange leaves no number queued that is still to be sent. */
  lemma ExchangeClears(pending: seq<Frame>, event: LinkEvent, s: Rpu, input: Option<Input>, c: Command)
    requires input.Some? ==> Supported(input.value.frame) && input.value.frame == EncodedCommand(c)
    ensures Clears(pending, c.sequence, Reading(Arrived(pending, event, s, input), event, c.sequence).1, c.sequence + 1)
  {
    hide Step, EncodedCommand, EncodedReply, DecodeReply;
    if input.Some? {
      AnswerAccepted(s, input.value, c);
    }
  }

  // ---------- histories ----------

  /** An exchange as it happened: what was sent in which state of the RPU, the
      replies queued before and after, and what the host made of it. */
  datatype Exchange = Exchange(
    command: Command, queue: seq<Frame>, event: LinkEvent, before: Rpu, input: Option<Input>,
    result: Result<Reply, RpuError>, left: seq<Frame>)

  ghost predicate Exchanged(e: Exchange) {
    && (e.input.Some? <==> e.event.written && e.event.delivered)
    && (e.input.Some? ==> Supported(e.input.value.frame) && e.input.value.frame == EncodedCommand(e.command))
    && (e.result, e.left) == Reading(Arrived(e.queue, e.event, e.before, e.input), e.event, e.command.sequence)
  }

  /** What was accepted, if anything, is the reply of the RPU to this frame. */
  ghost predicate Own(e: Exchange) {
    e.result.Ok? ==>
      && e.input.Some? && Supported(e.input.value.frame)
      && e.result.value == Step(e.before, e.input.value).1
  }

  ghost predicate AllOwn(es: seq<Exchange>) {
    forall e :: e in es ==> Own(e)
  }

  /** A run of exchanges over one queue. */
  ghost predicate Trace(es: seq<Exchange>, queue: seq<Frame>) {
    && (forall e :: e in es ==> Exchanged(e))
    && (es != [] ==> es[0].queue == queue)
    && (forall k :: 0 < k < |es| ==> es[k].queue == es[k - 1].left)
  }

  function QueueAfter(es: seq<Exchange>, queue: seq<Frame>): seq<Frame> {
    if es == [] then queue else es[|es| - 1].left
  }

  lemma NumberAt(frames: seq<Command>, first: nat, k: nat)
    requires Consecutive(frames, first) && k < |frames|
    ensures frames[k].sequence == first + k
  {}

  lemma TraceStarts(queue: seq<Frame>)
    ensures Trace([], queue) && QueueAfter([], queue) == queue && AllOwn([])
  {}

  lemma TraceNext(es: seq<Exchange>, queue: seq<Frame>, e: Exchange)
    requires Trace(es, queue) && Exchanged(e) && e.queue == QueueAfter(es, queue)
    ensures Trace(es + [e], queue) && QueueAfter(es + [e], queue) == e.left
  {
    hide Exchanged;
  }

  /** The numbers sent increase: the counter has not started over. */
  ghost predicate Increasing(es: seq<Exchange>) {
    forall i, j :: 0 <= i < j < |es| ==> es[i].command.sequence < es[j].command.sequence
  }

  /** A number above those sent. */
  function NextNumber(es: seq<Exchange>): nat {
    if es == [] then 0 else es[|es| - 1].command.sequence + 1
  }

  /** From one history to the next the frames were sent one by one over the
      link, until one failed or all were answered; `done` is whether they were. */
  ghost predicate Sent(before: seq<Exchange>, after: seq<Exchange>, frames: seq<Command>, link: nat -> LinkEvent,
                       start: nat, done: bool) {
    && before <= after && |after| <= |before| + |frames|
    && (done ==> |after| == |before| + |frames| && (after != before ==> after[|after| - 1].result.Ok?))
    && (!done ==> after != before && after[|after| - 1].result.Err?)
    && forall k :: |before| <= k < |after| ==>
         && after[k].command == frames[k - |before|] && after[k].event == link(start + k - |before|)
         && (k < |after| - 1 ==> after[k].result.Ok?)
  }

  lemma NothingSent(history: seq<Exchange>, link: nat -> LinkEvent, start: nat)
    ensures Sent(history, history, [], link, start, true)
  {}

  lemma SentNext(before: seq<Exchange>, after: seq<Exchange>, frames: seq<Command>, k: nat, link: nat -> LinkEvent,
                 start: nat, e: Exchange)
    requires k < |frames| && Sent(before, after, frames[..k], link, start, true)
    requires e.command == frames[k] && e.event == link(start + k)
    ensures |after| == |before| + k && before <= after + [e]
    ensures e.result.Ok? ==> Sent(before, after + [e], frames[..k + 1], link, start, true)
    ensures e.result.Err? ==> Sent(before, after + [e], frames, link, start, false)
  {}

  lemma OwnNext(es: seq<Exchange>, e: Exchange)
    ensures AllOwn(es) && Own(e) ==> AllOwn(es + [e])
  {
    hide Own;
  }

  lemma ForeignOwn(e: Exchange)
    requires Exchanged(e) && Foreign(e.queue, e.command.sequence)
    ensures Own(e)
  {
    hide Accept, Step, EncodedReply, EncodedCommand;
    ExchangeAnswered(e.queue, e.event, e.before, e.input, e.command);
  }

  /** What one exchange leaves behind. */
  lemma ExchangeKept(so: seq<Exchange>, e: Exchange, link: nat -> LinkEvent, start: nat)
    requires Exchanged(e) && e.event == link(start)
    ensures Sent(so, so + [e], [e.command], link, start, e.result.Ok?) && (so + [e])[|so|] == e && so <= so + [e]
    ensures Foreign(e.queue, e.command.sequence) ==> Own(e) && (e.result.Ok? ==> e.left == [])
    ensures Foreign(e.queue, e.command.sequence) && AllOwn(so) ==> AllOwn(so + [e])
    ensures Clears(e.queue, e.command.sequence, e.left, e.command.sequence + 1)
    ensures Clear(e.queue, e.command.sequence, SEQUENCES) ==>
      Foreign(e.queue, e.command.sequence) && Clear(e.left, e.command.sequence + 1, SEQUENCES)
  {
    hide Foreign, Own, AllOwn, Clear, Clears, Step, EncodedCommand, EncodedReply, Accept, Reading, Arrived;
    if Foreign(e.queue, e.command.sequence) {
      ForeignOwn(e);
      ExchangeAnswered(e.queue, e.event, e.before, e.input, e.command);
    }
    OwnNext(so, e);
    ExchangeClears(e.queue, e.event, e.before, e.input, e.command);
    if Clear(e.queue, e.command.sequence, SEQUENCES) {
      ClearForeign(e.queue, e.command.sequence, SEQUENCES, e.command.sequence);
      InClear(e.queue, e.command.sequence, e.left, e.command.sequence + 1, SEQUENCES);
    }
  }

  lemma TracePrefix(es: seq<Exchange>, queue: seq<Frame>, k: nat)
    requires Trace(es, queue) && k <= |es|
    ensures Trace(es[..k], queue)
    ensures k < |es| ==> Exchanged(es[k]) && es[k].queue == QueueAfter(es[..k], queue)
    ensures Increasing(es) ==>
      Increasing(es[..k]) && (k < |es| ==> NextNumber(es[..k]) <= es[k].command.sequence)
  {
    hide Exchanged;
    assert forall e :: e in es[..k] ==> e in es;
  }

  /** The exchange accepts a reply that was queued before its frame was sent
      exactly if it reads and the oldest queued reply carries its number. */
  lemma StaleExactly(e: Exchange)
    requires Exchanged(e)
    ensures e.result.Ok? && e.queue != [] <==>
      e.event.written && e.event.readable && e.queue != [] && Accept(e.queue[0], e.command.sequence).Ok?
    ensures e.result.Ok? && e.queue != [] ==> e.result == Accept(e.queue[0], e.command.sequence)
    ensures e.queue == [] ==> Own(e)
  {
    hide Accept, Step, EncodedReply, EncodedCommand;
    if e.input.Some? {
      AnswerAccepted(e.before, e.input.value, e.command);
    }
  }

  /** A reply is accepted only for the frame just sent: in every run in which
      the counter does not start over, if no reply queued at first carries a
      number that is sent. */
  lemma {:induction false} AcceptedIsOwn(es: seq<Exchange>, queue: seq<Frame>, from: nat, to: nat)
    requires Trace(es, queue) && Increasing(es) && Clear(queue, from, to)
    requires forall e :: e in es ==> from <= e.command.sequence < to
    ensures AllOwn(es)
    ensures Clear(QueueAfter(es, queue), if es == [] then from else NextNumber(es), to)
  {
    hide Exchanged, Own, Clear;
    if es == [] {
      TraceStarts(queue);
    } else {
      var n := |es| - 1;
      var rest, e := es[..n], es[n];
      TracePrefix(es, queue, n);
      assert forall f :: f in rest ==> f in es;
      AcceptedIsOwn(rest, queue, from, to);
      assert e in es;
      ClearPart(e.queue, if rest == [] then from else NextNumber(rest), to, e.command.sequence, to);
      OwnAndClear(e, to);
      OwnNext(rest, e);
      assert rest + [e] == es;
    }
  }

  lemma OwnAndClear(e: Exchange, to: nat)
    requires Exchanged(e) && Clear(e.queue, e.command.sequence, to) && e.command.sequence < to
    ensures Own(e) && Clear(e.left, e.command.sequence + 1, to)
    ensures e.result.Ok? ==> e.queue == e.left == []
  {
    hide Accept, Step, EncodedReply, EncodedCommand, Clear, Foreign;
    ClearForeign(e.queue, e.command.sequence, to, e.command.sequence);
    ExchangeAnswered(e.queue, e.event, e.before, e.input, e.command);
    ExchangeClears(e.queue, e.event, e.before, e.input, e.command);
  }

  // ---------- strangers in the queue ----------

  /** How many of the exchanges get to read. */
  function Reads(es: seq<Exchange>): nat {
    if es == [] then 0
    else
      var event := es[|es| - 1].event;
      Reads(es[..|es| - 1]) + if event.written && event.readable then 1 else 0
  }

  function Rest(queue: seq<Frame>, p: nat): seq<Frame> {
    if p < |queue| then queue[p..] else []
  }

  /** No number in the queue reaches `below`. */
  ghost predicate Below(pending: seq<Frame>, below: nat) {
    forall bytes :: bytes in pending && DecodeReply(bytes).Ok? ==> DecodeReply(bytes).value.sequence < below
  }

  /** One exchange with the rest of a first queue and then earlier replies. */
  lemma ExchangeSplits(e: Exchange, queue: seq<Frame>, p: nat, later: seq<Frame>) returns (later': seq<Frame>)
    requires Exchanged(e) && e.queue == Rest(queue, p) + later && Below(later, e.command.sequence)
    ensures e.left == Rest(queue, if e.event.written && e.event.readable then p + 1 else p) + later'
    ensures Below(later', e.command.sequence + 1)
  {
    hide Step, EncodedCommand, EncodedReply, Accept, Below, Rest;
    var arrived := Arrived(e.queue, e.event, e.before, e.input);
    var own := if e.input.Some? && e.event.answered then [EncodedReply(Step(e.before, e.input.value).1)] else [];
    OwnBelow(e, own);
    BelowMore(later, e.command.sequence, e.command.sequence + 1);
    BelowBoth(later, own, e.command.sequence + 1);
    Joined(Rest(queue, p), later, own);
    assert arrived == Rest(queue, p) + (later + own);
    later' := OneRead(queue, p, later + own, e.event.written && e.event.readable, e.command.sequence + 1);
  }

  lemma Joined(a: seq<Frame>, b: seq<Frame>, c: seq<Frame>)
    ensures (a + b) + c == a + (b + c) && a + b + [] == a + b
  {}

  lemma OwnBelow(e: Exchange, own: seq<Frame>)
    requires e.input.Some? ==> Supported(e.input.value.frame) && e.input.value.frame == EncodedCommand(e.command)
    requires own == [] || (e.input.Some? && own == [EncodedReply(Step(e.before, e.input.value).1)])
    ensures Below(own, e.command.sequence + 1)
  {
    hide Step, EncodedCommand, EncodedReply, DecodeReply;
    if e.input.Some? {
      AnswerNumbered(e.before, e.input.value, e.command);
    }
  }

  lemma BelowBoth(a: seq<Frame>, b: seq<Frame>, below: nat)
    requires Below(a, below) && Below(b, below)
    ensures Below(a + b, below)
  {
    hide DecodeReply;
  }

  lemma OneRead(queue: seq<Frame>, p: nat, later: seq<Frame>, taken: bool, below: nat) returns (later': seq<Frame>)
    requires Below(later, below)
    ensures var arrived := Rest(queue, p) + later;
      (if taken && arrived != [] then arrived[1..] else arrived) == Rest(queue, if taken then p + 1 else p) + later'
    ensures Below(later', below)
  {
    hide DecodeReply;
    later' := if taken && p >= |queue| && later != [] then later[1..] else later;
    if taken && p < |queue| {
      assert (queue[p..] + later)[1..] == queue[p + 1..] + later;
    }
  }

  lemma AnswerNumbered(s: Rpu, i: Input, c: Command)
    requires Supported(i.frame) && i.frame == EncodedCommand(c)
    ensures DecodeReply(EncodedReply(Step(s, i).1)).Ok?
    ensures DecodeReply(EncodedReply(Step(s, i).1)).value.sequence == c.sequence
  {
    hide EncodedCommand, EncodedReply, DecodeReply, Step;
    AnswerAccepted(s, i, c);
  }

  lemma {:induction false} QueueSplits(es: seq<Exchange>, queue: seq<Frame>) returns (later: seq<Frame>)
    requires Trace(es, queue) && Increasing(es)
    ensures QueueAfter(es, queue) == Rest(queue, Reads(es)) + later
    ensures Below(later, NextNumber(es))
  {
    hide Exchanged, Below, Trace, Increasing, Rest;
    if es == [] {
      later := [];
      NothingBelow();
      AllRest(queue);
    } else {
      var n := |es| - 1;
      TracePrefix(es, queue, n);
      var before := QueueSplits(es[..n], queue);
      BelowMore(before, NextNumber(es[..n]), es[n].command.sequence);
      later := ExchangeSplits(es[n], queue, Reads(es[..n]), before);
    }
  }

  lemma AllRest(queue: seq<Frame>)
    ensures Rest(queue, 0) + [] == queue
  {}

  lemma NothingBelow()
    ensures Below([], 0)
  {}

  lemma BelowMore(pending: seq<Frame>, below: nat, more: nat)
    requires Below(pending, below) && below <= more
    ensures Below(pending, more)
  {
    hide DecodeReply;
  }

  /** As long as the counter does not start over, an exchange accepts a reply
      that is not its own exactly if it reads while replies from before the run
      are left and the one then oldest carries its number. */
  lemma StrangerAccepted(es: seq<Exchange>, queue: seq<Frame>, k: nat)
    requires Trace(es, queue) && Increasing(es) && k < |es|
    ensures var e, p := es[k], Reads(es[..k]);
      && (e.result.Ok? && e.queue != [] <==>
            e.event.written && e.event.readable && p < |queue| && Accept(queue[p], e.command.sequence).Ok?)
      && (e.result.Ok? && e.queue != [] ==> e.result == Accept(queue[p], e.command.sequence))
      && (e.queue == [] ==> Own(e))
  {
    hide Exchanged, Own, Below, Accept;
    TracePrefix(es, queue, k);
    var e, p := es[k], Reads(es[..k]);
    var later := QueueSplits(es[..k], queue);
    BelowMore(later, NextNumber(es[..k]), e.command.sequence);
    BelowForeign(later, e.command.sequence);
    StaleExactly(e);
    if p < |queue| {
      assert e.queue[0] == queue[p];
    } else if e.queue != [] {
      assert e.queue[0] in later;
    }
  }

  lemma BelowForeign(pending: seq<Frame>, sequence: u64)
    requires Below(pending, sequence)
    ensures Foreign(pending, sequence)
  {
    hide DecodeReply;
  }

  // ---------- a late reply ----------

  /** How many replies the host is behind after n exchanges from `start` on,
      having been `behind` at first: an answered frame queues a reply, and an
      exchange that gets to read takes one. */
  function Lag(link: nat -> LinkEvent, start: nat, behind: nat, n: nat): nat {
    if n == 0 then behind
    else
      var event := link(start + n - 1);
      var queued := Lag(link, start, behind, n - 1) + if event.Answers() then 1 else 0;
      if event.written && event.readable && queued > 0 then queued - 1 else queued
  }

  predicate AllDistinct(frames: seq<Command>) {
    forall i, j :: 0 <= i < j < |frames| ==> frames[i].sequence != frames[j].sequence
  }

  lemma LagStarts(link: nat -> LinkEvent, start: nat, behind: nat)
    ensures Lag(link, start, behind, 0) == behind
  {}

  lemma ForeignRest(pending: seq<Frame>, frames: seq<Command>, k: nat)
    requires k < |frames| && AllForeign(pending, frames[k..]) && AllDistinct(frames)
    ensures Foreign(pending, frames[k].sequence) && AllForeign(pending, frames[k + 1..])
    ensures forall d :: d in frames[k + 1..] ==> d.sequence != frames[k].sequence
  {
    hide Foreign;
    assert frames[k] == frames[k..][0];
    assert forall d :: d in frames[k + 1..] ==> d in frames[k..];
  }

  /** One exchange with no reply queued that carries the number just sent, nor
      one of the numbers still to be sent. */
  lemma ExchangeLags(pending: seq<Frame>, link: nat -> LinkEvent, start: nat, behind: nat, n: nat, s: Rpu,
                     input: Option<Input>, c: Command, later: seq<Command>)
    requires input.Some? <==> link(start + n).written && link(start + n).delivered
    requires input.Some? ==> Supported(input.value.frame) && input.value.frame == EncodedCommand(c)
    requires |pending| == Lag(link, start, behind, n) && Foreign(pending, c.sequence) && AllForeign(pending, later)
    requires forall d :: d in later ==> d.sequence != c.sequence
    ensures var (r, left) := Reading(Arrived(pending, link(start + n), s, input), link(start + n), c.sequence);
      && (r.Ok? <==> Lag(link, start, behind, n) == 0 && link(start + n).Whole())
      && |left| == Lag(link, start, behind, n + 1)
      && AllForeign(left, later)
  {
    hide Step, EncodedCommand, EncodedReply, DecodeReply;
    if input.Some? {
      AnswerAccepted(s, input.value, c);
    }
  }

  /** Over a link that answers every frame the host never catches up: it is
      behind after n more exchanges if and only if it was behind before or one
      of their replies came too late to be read. */
  lemma {:induction false} LateReplyNeverRecovers(link: nat -> LinkEvent, start: nat, behind: nat, m: nat, n: nat)
    requires forall t :: start + m <= t < start + m + n ==> link(t).Answers()
    ensures Lag(link, start, behind, m + n) >= Lag(link, start, behind, m)
    ensures Lag(link, start, behind, m + n) == 0 <==>
      && Lag(link, start, behind, m) == 0
      && forall t :: start + m <= t < start + m + n ==> link(t).readable
  {
    if n > 0 {
      LateReplyNeverRecovers(link, start, behind, m, n - 1);
      assert link(start + m + n - 1).Answers();
    }
  }

  /** What the host is behind by goes down exactly when it reads a reply while
      the frame it sent, or the reply to it, is lost. */
  lemma OnlyLossCatchesUp(link: nat -> LinkEvent, start: nat, behind: nat, n: nat)
    ensures var event := link(start + n);
      Lag(link, start, behind, n + 1) < Lag(link, start, behind, n) <==>
        Lag(link, start, behind, n) > 0 && event.written && event.readable && !event.Answers()
  {}
}
