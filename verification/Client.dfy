/** Request and reply correlation between the bridge and a board
    (opcua-bridge/src/daphne_client.cpp, lines 326-378;
    crates/daphne-sc-server/src/v2.rs, lines 8-30). */
module Client {
  import opened Words

  datatype Direction = Request | Response

  datatype Envelope = Envelope(
    version: nat, dir: Direction, kind: int, payload: seq<u8>, taskId: u64, msgId: u64, correlId: u64,
    route: string, timestampNs: u64)

  // ---------- the answering side ----------

  /** Requests are even, their responses the next odd number; zero and odd
      numbers are answered in kind. */
  function ResponseType(requestType: int): int {
    if requestType == 0 then 0 else if requestType % 2 == 0 then requestType + 1 else requestType
  }

  /** `e` was made in answer to `q`. */
  predicate AnswerTo(e: Envelope, q: Envelope) {
    && e.version == 2 && e.dir.Response? && e.kind == ResponseType(q.kind)
    && e.taskId == q.taskId && e.correlId == q.msgId && e.route == q.route
  }

  /** The kind of an answer is odd and that of its request or the next, and zero
      is answered by zero. Answers tell requests of different kinds apart: only a
      request that already carries an odd kind shares its answer's kind with
      another. */
  lemma ResponseTypeExactly(a: int, b: int)
    ensures a == 0 ==> ResponseType(a) == 0
    ensures a != 0 ==> a <= ResponseType(a) <= a + 1 && ResponseType(a) % 2 == 1
    ensures ResponseType(a) == ResponseType(b) <==>
      a == b || (a != 0 && b != 0 && (a == b + 1 || b == a + 1) && (if a < b then a else b) % 2 == 0)
  {}

  class ControlServer {
    var nextMsgSeq: u64

    constructor ()
      ensures nextMsgSeq == 1
    {
      nextMsgSeq := 1;
    }

    /** `mix` combines the clock with the sequence number. */
    method MakeResponse(req: Envelope, payload: seq<u8>, nowNs: u64, mix: (u64, u64) -> u64) returns (e: Envelope)
      modifies this
      ensures AnswerTo(e, req) && e.payload == payload && e.msgId == mix(nowNs, old(nextMsgSeq))
      ensures nextMsgSeq == (old(nextMsgSeq) + 1) % 0x1_0000_0000_0000_0000
    {
      var msgId := mix(nowNs, nextMsgSeq);
      nextMsgSeq := (nextMsgSeq + 1) % 0x1_0000_0000_0000_0000;
      e := Envelope(2, Response, ResponseType(req.kind), payload, req.taskId, msgId, req.msgId, req.route, nowNs);
    }
  }

  // ---------- the asking side ----------

  datatype ClientError = SendTimeout | ReceiveTimeout | BadEnvelope | UnexpectedType(kind: int)

  /** A message as the socket delivers it. */
  datatype Arrival = Garbage | Message(envelope: Envelope)

  /** An answer to some other request: to be skipped. */
  predicate Stale(m: Arrival, msgId: u64) {
    m.Message? && m.envelope.correlId != 0 && m.envelope.correlId != msgId
  }

  /** What is left when the leading stale answers are skipped. */
  function SkipStale(arrivals: seq<Arrival>, msgId: u64): (rest: seq<Arrival>)
    ensures |rest| <= |arrivals| && rest == arrivals[|arrivals| - |rest|..]
    ensures rest != [] ==> !Stale(rest[0], msgId)
    ensures forall i :: 0 <= i < |arrivals| - |rest| ==> Stale(arrivals[i], msgId)
  {
    if arrivals != [] && Stale(arrivals[0], msgId) then SkipStale(arrivals[1..], msgId) else arrivals
  }

  /** What the first message that is not stale makes of the request. */
  function Decided(rest: seq<Arrival>, responseType: int): Result<Envelope, ClientError> {
    if rest == [] then Err(ReceiveTimeout)
    else
      match rest[0]
      case Garbage => Err(BadEnvelope)
      case Message(e) => if e.kind != responseType then Err(UnexpectedType(e.kind)) else Ok(e)
  }

  /** A network that may lose and delay but not forge: every envelope on it is
      the answer to one of the requests. */
  ghost predicate Honest(arrivals: seq<Arrival>, requests: seq<Envelope>) {
    forall m :: m in arrivals && m.Message? ==> exists q :: q in requests && AnswerTo(m.envelope, q)
  }

  const ID_COUNT: nat := 0x1_0000_0000_0000_0000

  /** Message ids count from 1 and wrap to 0. */
  predicate Numbered(requests: seq<Envelope>) {
    forall i :: 0 <= i < |requests| ==> requests[i].msgId == (i + 1) % ID_COUNT
  }

  /** Answers to `p` pass the test made while `q` is waited for. */
  predicate Passes(p: Envelope, q: Envelope) {
    p.msgId == 0 || p.msgId == q.msgId
  }

  /** Whatever answers `p` answers `q`. */
  predicate SameAnswers(p: Envelope, q: Envelope) {
    ResponseType(p.kind) == ResponseType(q.kind) && p.taskId == q.taskId && p.msgId == q.msgId && p.route == q.route
  }

  /** `e` answers one of the requests with a passing id. */
  ghost predicate AnswersPassing(e: Envelope, requests: seq<Envelope>)
    requires requests != []
  {
    exists p :: p in requests && Passes(p, requests[|requests| - 1]) && AnswerTo(e, p)
  }

  /** No answer to an earlier request passes the test. */
  predicate ToldApart(requests: seq<Envelope>)
    requires requests != []
  {
    forall i :: 0 <= i < |requests| - 1 ==> !Passes(requests[i], requests[|requests| - 1])
  }

  /** A message that is not stale answers a request with a passing id. */
  lemma NotStaleMeansPasses(m: Arrival, requests: seq<Envelope>)
    requires requests != [] && m.Message? && Honest([m], requests) && !Stale(m, requests[|requests| - 1].msgId)
    ensures AnswersPassing(m.envelope, requests)
    ensures ToldApart(requests) ==> AnswerTo(m.envelope, requests[|requests| - 1])
  {
    assert m in [m];
    var p :| p in requests && AnswerTo(m.envelope, p);
    assert Passes(p, requests[|requests| - 1]);
  }

  /** The client's own numbering tells requests apart exactly up to the one
      that gets id 0. */
  lemma ToldApartExactly(requests: seq<Envelope>)
    requires requests != [] && Numbered(requests)
    ensures ToldApart(requests) <==> |requests| <= ID_COUNT
  {
    if |requests| > ID_COUNT {
      assert requests[ID_COUNT - 1].msgId == 0;
      assert Passes(requests[ID_COUNT - 1], requests[|requests| - 1]);
    } else {
      forall i | 0 <= i < |requests| - 1 ensures !Passes(requests[i], requests[|requests| - 1]) {
        assert requests[i].msgId == i + 1;
      }
    }
  }

  /** Every honest run of messages gets the last request the answer made to
      it, or no answer. */
  ghost predicate AlwaysRight(requests: seq<Envelope>, responseType: int)
    requires requests != []
  {
    var q := requests[|requests| - 1];
    forall inbox: seq<Arrival> | Honest(inbox, requests) ::
      var r := Decided(SkipStale(inbox, q.msgId), responseType);
      r.Ok? ==> AnswerTo(r.value, q)
  }

  lemma PassingAnswered(requests: seq<Envelope>, responseType: int, p: Envelope)
    requires requests != [] && p in requests && Passes(p, requests[|requests| - 1])
    requires AlwaysRight(requests, responseType) && ResponseType(p.kind) == responseType
    ensures SameAnswers(p, requests[|requests| - 1])
  {
    hide Honest, SkipStale, Decided, ResponseType, AnswerTo;
    var q := requests[|requests| - 1];
    var e := Envelope(2, Response, ResponseType(p.kind), [], p.taskId, 0, p.msgId, p.route, 0);
    AnswerSays(e, p);
    OneHonest(e, p, requests);
    OnlyArrival(e, q.msgId);
    AnswerSays(e, q);
  }

  lemma SameAnswersRight(inbox: seq<Arrival>, requests: seq<Envelope>, responseType: int)
    requires requests != [] && Honest(inbox, requests)
    requires var q := requests[|requests| - 1];
      forall p :: p in requests && Passes(p, q) && ResponseType(p.kind) == responseType ==> SameAnswers(p, q)
    ensures var r := Decided(SkipStale(inbox, requests[|requests| - 1].msgId), responseType);
      r.Ok? ==> AnswerTo(r.value, requests[|requests| - 1])
  {
    hide Honest, SkipStale, ResponseType, Stale, Passes;
    var q := requests[|requests| - 1];
    var rest := SkipStale(inbox, q.msgId);
    StaleSkipped(inbox, requests);
    if rest != [] && rest[0].Message? {
      HonestHead(rest, requests);
      NotStaleMeansPasses(rest[0], requests);
      var p :| p in requests && Passes(p, q) && AnswerTo(rest[0].envelope, p);
    }
  }

  /** The exact condition on the history, whatever its ids: each request with a
      passing id and the expected answer kind has the last request's answers. */
  lemma RightExactly(requests: seq<Envelope>, responseType: int)
    requires requests != []
    ensures var q := requests[|requests| - 1];
      AlwaysRight(requests, responseType) <==>
        forall p :: p in requests && Passes(p, q) && ResponseType(p.kind) == responseType ==> SameAnswers(p, q)
  {
    hide Honest, SkipStale, ResponseType, Passes, SameAnswers, AnswerTo, Decided;
    var q := requests[|requests| - 1];
    if AlwaysRight(requests, responseType) {
      forall p | p in requests && Passes(p, q) && ResponseType(p.kind) == responseType ensures SameAnswers(p, q) {
        PassingAnswered(requests, responseType, p);
      }
    } else {
      var inbox :| Honest(inbox, requests) && Decided(SkipStale(inbox, q.msgId), responseType).Ok?
                   && !AnswerTo(Decided(SkipStale(inbox, q.msgId), responseType).value, q);
      if forall p :: p in requests && Passes(p, q) && ResponseType(p.kind) == responseType ==> SameAnswers(p, q) {
        SameAnswersRight(inbox, requests, responseType);
      }
    }
  }

  lemma AnswerSays(e: Envelope, q: Envelope)
    ensures AnswerTo(e, q) <==>
      && e.version == 2 && e.dir.Response? && e.kind == ResponseType(q.kind)
      && e.taskId == q.taskId && e.correlId == q.msgId && e.route == q.route
  {}

  lemma OnlyArrival(e: Envelope, msgId: u64)
    requires !Stale(Message(e), msgId)
    ensures Decided(SkipStale([Message(e)], msgId), e.kind) == Ok(e)
  {}

  lemma OneHonest(e: Envelope, p: Envelope, requests: seq<Envelope>)
    requires p in requests && AnswerTo(e, p)
    ensures Honest([Message(e)], requests)
  {}

  lemma HonestRest(arrivals: seq<Arrival>, requests: seq<Envelope>, k: nat)
    requires k <= |arrivals| && Honest(arrivals, requests)
    ensures Honest(arrivals[k..], requests)
  {
    assert forall m :: m in arrivals[k..] ==> m in arrivals;
  }

  class DaphneClient {
    const route: string
    var nextMessageId: u64
    /** Messages delivered but not yet received. */
    var inbox: seq<Arrival>
    ghost var requests: seq<Envelope>

    ghost predicate Valid()
      reads this
    {
      && nextMessageId == (|requests| + 1) % ID_COUNT
      && Numbered(requests) && Honest(inbox, requests)
    }

    constructor (route: string)
      ensures Valid() && this.route == route && requests == [] && inbox == []
    {
      this.route := route;
      nextMessageId := 1;
      inbox := [];
      requests := [];
    }

    /** The envelope the next request goes out in. */
    function NextEnvelope(requestType: int, payload: seq<u8>, nowNs: u64): Envelope
      reads this
    {
      Envelope(2, Request, requestType, payload, nextMessageId, nextMessageId, 0, route, nowNs)
    }

    /** Sends a request and receives until the answer correlated to it, a
        message that cannot be used, or the deadline. `arrivals` is what the
        network delivers before the deadline; what is not received stays in the
        inbox for later requests to skip. */
    method SendRequest(requestType: int, responseType: int, payload: seq<u8>, nowNs: u64, sent: bool,
                       arrivals: seq<Arrival>)
      returns (r: Result<Envelope, ClientError>)
      requires Valid()
      requires Honest(arrivals, requests + [NextEnvelope(requestType, payload, nowNs)])
      modifies this
      ensures Valid() && requests == old(requests + [NextEnvelope(requestType, payload, nowNs)])
      // the request sent is the caller's, under the number of the request
      ensures var q := requests[|requests| - 1];
        && q.version == 2 && q.dir.Request? && q.kind == requestType && q.payload == payload
        && q.route == route && q.timestampNs == nowNs
        && q.taskId == q.msgId == |requests| % ID_COUNT && q.correlId == 0
      ensures !sent ==> r == Err(SendTimeout)
      ensures sent ==>
        var rest := SkipStale(old(inbox) + arrivals, old(nextMessageId));
        r == Decided(rest, responseType) && inbox == if rest == [] then [] else rest[1..]
      // always the answer to a request with id 0 or the current id
      ensures r.Ok? ==>
        r.value.kind == responseType && AnswersPassing(r.value, requests)
      // for the first 2^64 requests never the answer to another one
      ensures r.Ok? && |requests| <= ID_COUNT ==> AnswerTo(r.value, old(NextEnvelope(requestType, payload, nowNs)))
      // and never a complaint about the kind of a late answer
      ensures responseType == ResponseType(requestType) && |requests| <= ID_COUNT ==>
        !(r.Err? && r.error.UnexpectedType?)
    {
      hide Honest, AnswerTo, SkipStale, Numbered, Decided, ToldApart, AnswersPassing, ResponseType;
      var envelope := NextEnvelope(requestType, payload, nowNs);
      Asked(inbox, arrivals, requests, envelope);
      nextMessageId := (nextMessageId + 1) % 0x1_0000_0000_0000_0000;
      requests := requests + [envelope];
      inbox := inbox + arrivals;
      if !sent {
        return Err(SendTimeout);
      }
      StaleSkipped(inbox, requests);
      DecidedRightly(SkipStale(inbox, envelope.msgId), requests, responseType);
      r := Receive(envelope.msgId, responseType);
    }

    /** The request with id 0 has timed out, and its answer comes in while the
        next request of its kind is waited for: it is taken for that one's. */
    method AnswerToZeroIsTaken(kind: int, late: Envelope, payload: seq<u8>, nowNs: u64)
      returns (r: Result<Envelope, ClientError>)
      requires Valid() && inbox == [] && |requests| == ID_COUNT
      requires requests[ID_COUNT - 1].kind == kind && AnswerTo(late, requests[ID_COUNT - 1])
      modifies this
      ensures |requests| == ID_COUNT + 1 && r == Ok(late) && !AnswerTo(late, requests[ID_COUNT])
    {
      hide Honest, SkipStale, Decided, AnswersPassing, AnswerTo, ResponseType;
      ghost var zero := requests[ID_COUNT - 1];
      AnswerSays(late, zero);
      OneHonest(late, zero, requests + [NextEnvelope(kind, payload, nowNs)]);
      OnlyArrival(late, nextMessageId);
      assert inbox + [Message(late)] == [Message(late)];
      r := SendRequest(kind, late.kind, payload, nowNs, true, [Message(late)]);
      AnswerSays(late, requests[ID_COUNT]);
    }

    /** Receives until a message that is not a stale answer, or the deadline. */
    method Receive(msgId: u64, responseType: int) returns (r: Result<Envelope, ClientError>)
      modifies this`inbox
      ensures var rest := SkipStale(old(inbox), msgId);
        r == Decided(rest, responseType) && inbox == if rest == [] then [] else rest[1..]
    {
      hide SkipStale;
      while inbox != []
        invariant SkipStale(inbox, msgId) == SkipStale(old(inbox), msgId)
        decreases |inbox|
      {
        SkipHead(inbox, msgId);
        var received := inbox[0];
        inbox := inbox[1..];
        if received.Garbage? {
          return Err(BadEnvelope);
        }
        var response := received.envelope;
        if response.correlId != 0 && response.correlId != msgId {
          continue;
        }
        if response.kind != responseType {
          return Err(UnexpectedType(response.kind));
        }
        return Ok(response);
      }
      SkipHead(inbox, msgId);
      r := Err(ReceiveTimeout);
    }
  }

  lemma StaleSkipped(inbox: seq<Arrival>, requests: seq<Envelope>)
    requires requests != [] && Honest(inbox, requests)
    ensures var rest := SkipStale(inbox, requests[|requests| - 1].msgId);
      && Honest(rest, requests)
      && (rest != [] ==> !Stale(rest[0], requests[|requests| - 1].msgId) && Honest(rest[1..], requests))
  {
    hide Honest, Stale, SkipStale;
    var rest := SkipStale(inbox, requests[|requests| - 1].msgId);
    HonestRest(inbox, requests, |inbox| - |rest|);
    if rest != [] {
      HonestRest(rest, requests, 1);
    }
  }

  /** What an honest network lets decide the last request. */
  lemma DecidedRightly(rest: seq<Arrival>, requests: seq<Envelope>, responseType: int)
    requires requests != [] && Numbered(requests) && Honest(rest, requests)
    requires rest != [] ==> !Stale(rest[0], requests[|requests| - 1].msgId)
    ensures var r := Decided(rest, responseType);
            var q := requests[|requests| - 1];
            && (r.Ok? ==> r.value.kind == responseType && AnswersPassing(r.value, requests))
            && (|requests| <= ID_COUNT ==>
                  && (r.Ok? ==> AnswerTo(r.value, q))
                  && (responseType == ResponseType(q.kind) ==> !(r.Err? && r.error.UnexpectedType?)))
  {
    hide Honest, Numbered, AnswerTo, AnswersPassing, Stale, ResponseType, ToldApart;
    ToldApartExactly(requests);
    if rest != [] && rest[0].Message? {
      HonestHead(rest, requests);
      NotStaleMeansPasses(rest[0], requests);
      if |requests| <= ID_COUNT {
        AnswerKind(rest[0].envelope, requests[|requests| - 1]);
      }
    }
  }

  lemma SkipHead(arrivals: seq<Arrival>, msgId: u64)
    ensures arrivals == [] ==> SkipStale(arrivals, msgId) == []
    ensures arrivals != [] ==>
      SkipStale(arrivals, msgId) == if Stale(arrivals[0], msgId) then SkipStale(arrivals[1..], msgId) else arrivals
  {}

  lemma HonestHead(arrivals: seq<Arrival>, requests: seq<Envelope>)
    requires arrivals != [] && Honest(arrivals, requests)
    ensures Honest([arrivals[0]], requests)
  {}

  lemma AnswerKind(e: Envelope, q: Envelope)
    requires AnswerTo(e, q)
    ensures e.kind == ResponseType(q.kind)
  {}

  lemma Asked(inbox: seq<Arrival>, arrivals: seq<Arrival>, requests: seq<Envelope>, q: Envelope)
    requires Honest(inbox, requests) && Honest(arrivals, requests + [q])
    requires Numbered(requests) && q.msgId == (|requests| + 1) % ID_COUNT
    ensures Honest(inbox + arrivals, requests + [q]) && Numbered(requests + [q])
    ensures (requests + [q])[|requests|] == q
  {
    HonestLater(inbox, requests, q);
  }

  lemma HonestLater(arrivals: seq<Arrival>, requests: seq<Envelope>, q: Envelope)
    requires Honest(arrivals, requests)
    ensures Honest(arrivals, requests + [q])
  {
    forall m | m in arrivals && m.Message? ensures exists p :: p in requests + [q] && AnswerTo(m.envelope, p) {
      var p :| p in requests && AnswerTo(m.envelope, p);
      assert p in requests + [q];
    }
  }
}
