/** The configuration protocol by what it means: between a Begin and its Apply
    the RPU collects a list of records. The counters of the runtime and the
    slots of the backend are two views of that list
    (crates/daphne-sc-rpu/src/lib.rs, lines 211-238 and 266-312;
    crates/daphne-sc-rpu/src/mmio.rs, lines 661-691 and 747-782). */
module Session {
  import opened Words
  import opened Afe
  import opened Wire
  import opened Records
  import opened Staging
  import opened Protocol

  /** The records accepted since the last Begin that has not been applied. */
  datatype Session = Closed | Open(counts: ConfigCounts, afes: seq<AfeRecord>, channels: seq<ChannelRecord>)

  /** How a session moves, from nothing but the frame and the reply to it. */
  function Observe(x: Session, c: Command, status: ReplyStatus): Session {
    if !status.Applied? then x
    else
      match c.op
      case BeginConfigureFrontend =>
        (match ConfigureCounts(c) case Ok(counts) => Open(counts, [], []) case Err(_) => x)
      case ConfigureAfe =>
        (match (x, AfeConfig(c)) case (Open(n, a, ch), Ok(r)) => Open(n, a + [r], ch) case _ => x)
      case ConfigureChannel =>
        (match (x, ChannelConfig(c)) case (Open(n, a, ch), Ok(r)) => Open(n, a, ch + [r]) case _ => x)
      case ApplyConfigureFrontend => Closed
      case _ => x
  }

  // ---------- lists of records and slots ----------

  predicate AfesPlaced(records: seq<AfeRecord>) {
    forall r :: r in records ==> r.afePl < AFE_COUNT
  }

  predicate ChannelsPlaced(records: seq<ChannelRecord>) {
    forall r :: r in records ==> r.afePl < AFE_COUNT && r.afeChannel < CHANNELS_PER_AFE && r.channel < CHANNEL_COUNT
  }

  /** The slots a list of records fills: the last record for a slot stays. */
  function AfeSlotsOf(records: seq<AfeRecord>): AfeSlots
    requires AfesPlaced(records)
  {
    if records == [] then NO_AFES
    else
      var last := records[|records| - 1];
      AfeSlotsOf(records[..|records| - 1])[last.afePl := Some(last)]
  }

  function ChannelSlotsOf(records: seq<ChannelRecord>): ChannelSlots
    requires ChannelsPlaced(records)
  {
    if records == [] then NO_CHANNELS
    else
      var last := records[|records| - 1];
      ChannelSlotsOf(records[..|records| - 1])[last.channel := Some(last)]
  }

  predicate DistinctAfes(records: seq<AfeRecord>) {
    forall i, j :: 0 <= i < j < |records| ==> records[i].afePl != records[j].afePl
  }

  predicate DistinctChannels(records: seq<ChannelRecord>) {
    forall i, j :: 0 <= i < j < |records| ==> records[i].channel != records[j].channel
  }

  lemma {:induction false} FilledUpdate<T>(s: seq<Option<T>>, k: nat, v: T)
    requires k < |s|
    ensures Filled(s[k := Some(v)]) == Filled(s) + if s[k].None? then 1 else 0
  {
    var n := |s| - 1;
    if k == n {
      assert s[k := Some(v)][..n] == s[..n];
    } else {
      FilledUpdate(s[..n], k, v);
      assert s[k := Some(v)][..n] == s[..n][k := Some(v)];
    }
  }

  lemma {:induction false} FilledNone<T>(s: seq<Option<T>>)
    requires forall i :: 0 <= i < |s| ==> s[i].None?
    ensures Filled(s) == 0
  {
    if s != [] {
      FilledNone(s[..|s| - 1]);
    }
  }

  lemma {:induction false} AfeSlotFilled(records: seq<AfeRecord>, k: nat)
    requires AfesPlaced(records) && k < AFE_COUNT
    ensures AfeSlotsOf(records)[k].Some? <==> exists i :: 0 <= i < |records| && records[i].afePl == k
  {
    if records != [] {
      var rest := records[..|records| - 1];
      AfeSlotFilled(rest, k);
      assert forall i :: 0 <= i < |rest| ==> records[i] == rest[i];
      assert records[|records| - 1] in records;
    }
  }

  lemma {:induction false} ChannelSlotFilled(records: seq<ChannelRecord>, k: nat)
    requires ChannelsPlaced(records) && k < CHANNEL_COUNT
    ensures ChannelSlotsOf(records)[k].Some? <==> exists i :: 0 <= i < |records| && records[i].channel == k
  {
    if records != [] {
      var rest := records[..|records| - 1];
      ChannelSlotFilled(rest, k);
      assert forall i :: 0 <= i < |rest| ==> records[i] == rest[i];
      assert records[|records| - 1] in records;
    }
  }

  /** Pigeonhole: the slots filled never outnumber the records, and there are
      as many exactly when the records hit pairwise distinct slots. */
  lemma {:induction false} AfePigeonhole(records: seq<AfeRecord>)
    requires AfesPlaced(records)
    ensures Filled(AfeSlotsOf(records)) <= |records|
    ensures Filled(AfeSlotsOf(records)) == |records| <==> DistinctAfes(records)
  {
    hide Filled;
    if records == [] {
      FilledNone(NO_AFES);
    } else {
      var n := |records| - 1;
      var rest, last := records[..n], records[n];
      assert last in records;
      AfePigeonhole(rest);
      AfeSlotFilled(rest, last.afePl);
      FilledUpdate(AfeSlotsOf(rest), last.afePl, last);
      assert DistinctAfes(records) <==>
             DistinctAfes(rest) && forall i :: 0 <= i < n ==> rest[i].afePl != last.afePl by {
        assert forall i :: 0 <= i < n ==> rest[i] == records[i];
      }
    }
  }

  lemma {:induction false} ChannelPigeonhole(records: seq<ChannelRecord>)
    requires ChannelsPlaced(records)
    ensures Filled(ChannelSlotsOf(records)) <= |records|
    ensures Filled(ChannelSlotsOf(records)) == |records| <==> DistinctChannels(records)
  {
    hide Filled;
    if records == [] {
      FilledNone(NO_CHANNELS);
    } else {
      var n := |records| - 1;
      var rest, last := records[..n], records[n];
      assert last in records;
      ChannelPigeonhole(rest);
      ChannelSlotFilled(rest, last.channel);
      FilledUpdate(ChannelSlotsOf(rest), last.channel, last);
      assert DistinctChannels(records) <==>
             DistinctChannels(rest) && forall i :: 0 <= i < n ==> rest[i].channel != last.channel by {
        assert forall i :: 0 <= i < n ==> rest[i] == records[i];
      }
    }
  }

  // ---------- the coupling invariant ----------

  /** Counters and slots are both views of the session. */
  ghost predicate Coupled(s: Rpu, x: Session) {
    match x
    case Closed => s.config == NO_CONFIG && s.staged == UNSTAGED
    case Open(counts, afes, channels) =>
      && |afes| <= counts.afeCount && |channels| <= counts.channelCount
      && AfesPlaced(afes) && ChannelsPlaced(channels)
      && s.config == ConfigState(true, counts.afeCount, counts.channelCount, |afes|, |channels|)
      && s.staged == StagedConfig(true, counts, AfeSlotsOf(afes), ChannelSlotsOf(channels))
  }

  lemma ReceiveAfeCoupled(s: Rpu, x: Session, c: Command)
    requires Coupled(s, x) && c.op.ConfigureAfe?
    ensures var (t, answer) := ReceiveAfe(s, c);
            Coupled(t, if answer.Ok? then Observe(x, c, Applied) else x)
  {
    if ReceiveAfe(s, c).1.Ok? {
      var r := AfeConfig(c).value;
      assert (x.afes + [r])[..|x.afes|] == x.afes;
      assert AfeSlotsOf(x.afes + [r]) == AfeSlotsOf(x.afes)[r.afePl := Some(r)];
    }
  }

  lemma ReceiveChannelCoupled(s: Rpu, x: Session, c: Command)
    requires Coupled(s, x) && c.op.ConfigureChannel?
    ensures var (t, answer) := ReceiveChannel(s, c);
            Coupled(t, if answer.Ok? then Observe(x, c, Applied) else x)
  {
    if ReceiveChannel(s, c).1.Ok? {
      var r := ChannelConfig(c).value;
      assert (x.channels + [r])[..|x.channels|] == x.channels;
      assert ChannelSlotsOf(x.channels + [r]) == ChannelSlotsOf(x.channels)[r.channel := Some(r)];
    }
  }

  /** The session an input leaves behind. */
  function After(s: Rpu, x: Session, i: Input): Session
    requires Supported(i.frame)
  {
    match DecodeCommand(i.frame)
    case Ok(c) => Observe(x, c, Step(s, i).1.status)
    case Err(_) => x
  }

  lemma BeginCoupled(s: Rpu, x: Session, c: Command)
    requires Coupled(s, x) && c.op.BeginConfigureFrontend?
    ensures var (t, answer) := Begin(s, c);
            Coupled(t, if answer.Ok? then Observe(x, c, Applied) else x)
  {}

  lemma ApplyCoupled(s: Rpu, x: Session, c: Command, hw: Outcome)
    requires Coupled(s, x) && c.op.ApplyConfigureFrontend?
    ensures var (t, answer) := ApplyStaged(s, hw);
            Coupled(t, if answer.Ok? then Observe(x, c, Applied) else x)
  {
    hide StagedConfig.CountsMatch;
  }

  /** Only an applied Begin, record or Apply is observed. */
  lemma Unobserved(x: Session, c: Command, status: ReplyStatus)
    ensures !status.Applied? ==> Observe(x, c, status) == x
    ensures Observe(x, c, status) != x ==>
      c.op.BeginConfigureFrontend? || c.op.ConfigureAfe? || c.op.ConfigureChannel? || c.op.ApplyConfigureFrontend?
  {}

  lemma AppliedCoupled(s: Rpu, x: Session, c: Command, hw: Outcome)
    requires !c.op.ReadAlignment? && Coupled(s, x)
    ensures var (t, answer) := ApplyCommand(s, c, hw);
            Coupled(t, if answer.Ok? then Observe(x, c, Applied) else x)
  {
    hide Begin, ReceiveAfe, ReceiveChannel, ApplyStaged, Coupled, Observe;
    Unobserved(x, c, Applied);
    if c.op.BeginConfigureFrontend? {
      BeginCoupled(s, x, c);
    } else if c.op.ConfigureAfe? {
      ReceiveAfeCoupled(s, x, c);
    } else if c.op.ConfigureChannel? {
      ReceiveChannelCoupled(s, x, c);
    } else if c.op.ApplyConfigureFrontend? {
      ApplyCoupled(s, x, c, hw);
    }
  }

  lemma CommandCoupled(s: Rpu, x: Session, c: Command, hw: Outcome)
    requires !c.op.ReadAlignment? && Coupled(s, x)
    ensures var (t, reply) := HandleCommand(s, c, hw);
            Coupled(t, Observe(x, c, reply.status))
  {
    hide ApplyCommand, Coupled, Observe;
    AppliedCoupled(s, x, c, hw);
    Unobserved(x, c, HandleCommand(s, c, hw).1.status);
  }

  /** Every input keeps the coupling: an Open session where the runtime's flag
      and the backend's flag are both up, the same expected counts on both
      sides, received counters equal to the list lengths, slots filled by the
      list. */
  lemma StepCoupled(s: Rpu, x: Session, i: Input)
    requires Supported(i.frame) && Coupled(s, x)
    ensures Coupled(Step(s, i).0, After(s, x, i))
  {
    var t := s.(interlock := i.interlock, heartbeat := Beat(s.heartbeat));
    match DecodeCommand(i.frame) {
      case Ok(c) => CommandCoupled(t, x, c, i.hw);
      case Err(_) =>
    }
  }

  function SessionOf(s: Rpu, inputs: seq<Input>): Session
    requires AllSupported(inputs)
  {
    if inputs == [] then Closed
    else
      var rest := inputs[..|inputs| - 1];
      After(Run(s, rest), SessionOf(s, rest), inputs[|inputs| - 1])
  }

  /** Every reachable state is coupled to the session its own replies show. */
  lemma {:induction false} RunCoupled(inputs: seq<Input>)
    requires AllSupported(inputs)
    ensures Coupled(Run(START, inputs), SessionOf(START, inputs))
  {
    if inputs != [] {
      var rest := inputs[..|inputs| - 1];
      RunCoupled(rest);
      StepCoupled(Run(START, rest), SessionOf(START, rest), inputs[|inputs| - 1]);
    }
  }

  /** Apply gets to the devices exactly when the session holds the announced
      numbers of records and no two of them share a slot; there are then at
      most 5 AFE records and 40 channel records. */
  lemma ApplyReachesExactly(s: Rpu, x: Session)
    requires Coupled(s, x)
    ensures ApplyReachesDevices(s) <==>
      && x.Open? && |x.afes| == x.counts.afeCount && |x.channels| == x.counts.channelCount
      && DistinctAfes(x.afes) && DistinctChannels(x.channels)
    ensures ApplyReachesDevices(s) ==> |x.afes| <= 5 && |x.channels| <= 40
  {
    if x.Open? {
      AfePigeonhole(x.afes);
      ChannelPigeonhole(x.channels);
    }
  }

  // ---------- one apply per begin ----------

  /** The input is command `op` and is answered Applied. */
  predicate Applies(s: Rpu, i: Input, op: Op)
    requires Supported(i.frame)
  {
    match DecodeCommand(i.frame)
    case Ok(c) => c.op == op && Step(s, i).1.status.Applied?
    case Err(_) => false
  }

  function One(b: bool): nat {
    if b then 1 else 0
  }

  /** How often an operation was answered Applied in a run. */
  function AppliedCount(s: Rpu, inputs: seq<Input>, op: Op): nat
    requires AllSupported(inputs)
  {
    if inputs == [] then 0
    else
      var rest, last := inputs[..|inputs| - 1], inputs[|inputs| - 1];
      AppliedCount(s, rest, op) + One(Applies(Run(s, rest), last, op))
  }

  lemma StepBalance(s: Rpu, x: Session, i: Input)
    requires Supported(i.frame) && Coupled(s, x)
    ensures One(Applies(s, i, ApplyConfigureFrontend)) + One(After(s, x, i).Open?)
         <= One(Applies(s, i, BeginConfigureFrontend)) + One(x.Open?)
  {}

  /** In every run, applies that succeeded are never more than begins, and a
      session still open has one begin to spare. */
  lemma {:induction false} OneApplyPerBegin(inputs: seq<Input>)
    requires AllSupported(inputs)
    ensures AppliedCount(START, inputs, ApplyConfigureFrontend) + One(SessionOf(START, inputs).Open?)
         <= AppliedCount(START, inputs, BeginConfigureFrontend)
  {
    if inputs != [] {
      var rest, last := inputs[..|inputs| - 1], inputs[|inputs| - 1];
      OneApplyPerBegin(rest);
      RunCoupled(rest);
      StepBalance(Run(START, rest), SessionOf(START, rest), last);
    }
  }
}
