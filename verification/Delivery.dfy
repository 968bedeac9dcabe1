/** Delivering a ConfigureFrontend request frame by frame: what the runtime and
    the backend hold after each frame, and when the last one is applied
    (crates/daphne-sc-core/src/rpu_wire.rs, lines 292-333;
    crates/daphne-sc-rpu/src/lib.rs, lines 211-238). */
module Delivery {
  import opened Words
  import opened Afe
  import opened Wire
  import opened Records
  import opened Protocol
  import opened Session
  import opened Witness
  import opened Configuration

  ghost predicate AllReady(inputs: seq<Input>) {
    forall i :: 0 <= i < |inputs| ==> inputs[i].interlock.ReadyForAfe()
  }

  lemma BeginDelivered(s: Rpu, i: Input, sequence: u64, counts: ConfigCounts)
    requires i.frame == EncodedCommand(BeginFrame(sequence, counts.afeCount, counts.channelCount, counts.biasControl))
    requires i.interlock.ReadyForAfe()
    ensures Supported(i.frame)
    ensures Step(s, i).1.status.Applied? && Coupled(Step(s, i).0, Open(counts, [], []))
  {
    BeginStep(s, i, sequence, counts.afeCount, counts.channelCount, counts.biasControl);
  }

  lemma AfeDelivered(s: Rpu, x: Session, i: Input, sequence: u64, afe: AfeFrontendConfig)
    requires i.frame == EncodedCommand(AfeFrame(sequence, afe)) && i.interlock.ReadyForAfe()
    requires Coupled(s, x) && x.Open? && |x.afes| < x.counts.afeCount
    ensures Supported(i.frame) && Step(s, i).1.status.Applied?
    ensures Coupled(Step(s, i).0, x.(afes := x.afes + [RecordOfAfe(afe)]))
  {
    hide EncodedCommand, DecodeCommand, AfeConfig, AfeSlotsOf, ChannelSlotsOf;
    var c := AfeFrame(sequence, afe);
    CommandRoundTrip(c);
    AfeRecordRecovered(sequence, afe);
    PlIsInjective(afe.afe, afe.afe);
    StepCoupled(s, x, i);
  }

  lemma ChannelDelivered(s: Rpu, x: Session, i: Input, sequence: u64, channel: ChannelFrontendConfig)
    requires i.frame == EncodedCommand(ChannelFrame(sequence, channel)) && i.interlock.ReadyForAfe()
    requires Coupled(s, x) && x.Open? && |x.channels| < x.counts.channelCount
    ensures Supported(i.frame) && Step(s, i).1.status.Applied?
    ensures Coupled(Step(s, i).0, x.(channels := x.channels + [RecordOfChannel(channel)]))
  {
    hide EncodedCommand, DecodeCommand, ChannelConfig, AfeSlotsOf, ChannelSlotsOf;
    var c := ChannelFrame(sequence, channel);
    CommandRoundTrip(c);
    ChannelRecordRecovered(sequence, channel);
    PlaceIsInjective(channel.channel, channel.channel);
    StepCoupled(s, x, i);
  }

  /** The session after the first `k` frames of a request. */
  function SessionAfter(afes: seq<AfeFrontendConfig>, channels: seq<ChannelFrontendConfig>, biasControl: u16, k: nat)
    : Session
    requires |afes| <= RECORD_MAX && |channels| <= RECORD_MAX
    requires 1 <= k <= 1 + |afes| + |channels|
  {
    var a := if k - 1 <= |afes| then k - 1 else |afes|;
    Open(ConfigCounts(|afes|, |channels|, biasControl), AfeRecords(afes)[..a], ChannelRecords(channels)[..k - 1 - a])
  }

  /** With the interlock ready, every frame but the last is applied and leaves
      the records sent so far, whatever was going on before. */
  lemma {:induction false} FramesDelivered(s: Rpu, inputs: seq<Input>, first: u64, afes: seq<AfeFrontendConfig>,
                                           channels: seq<ChannelFrontendConfig>, biasControl: u16, k: nat)
    requires Sends(inputs, first, afes, channels, biasControl) && AllSupported(inputs) && AllReady(inputs)
    requires 1 <= k <= 1 + |afes| + |channels|
    ensures Coupled(Run(s, inputs[..k]), SessionAfter(afes, channels, biasControl, k))
    ensures forall j :: 0 <= j < k ==> ReplyAt(s, inputs, j).status.Applied?
  {
    hide EncodedCommand, DecodeCommand, Step, Coupled, ConfigureFrames, AfeFrame, ChannelFrame, BeginFrame;
    hide Run, SessionAfter, AfeRecords, ChannelRecords, SequenceForFrame;
    FrameAt(first, afes, channels, biasControl, k - 1);
    Protocol.RunNext(s, inputs, k - 1);
    SessionNext(afes, channels, biasControl, k);
    var r := Run(s, inputs[..k - 1]);
    var sequence := SequenceForFrame(first, k - 1);
    if k == 1 {
      BeginDelivered(r, inputs[0], sequence, ConfigCounts(|afes|, |channels|, biasControl));
    } else {
      FramesDelivered(s, inputs, first, afes, channels, biasControl, k - 1);
      var before := SessionAfter(afes, channels, biasControl, k - 1);
      if k - 1 <= |afes| {
        AfeDelivered(r, before, inputs[k - 1], sequence, afes[k - 2]);
      } else {
        ChannelDelivered(r, before, inputs[k - 1], sequence, channels[k - 2 - |afes|]);
      }
    }
  }

  /** Frame k adds its record. */
  lemma SessionNext(afes: seq<AfeFrontendConfig>, channels: seq<ChannelFrontendConfig>, biasControl: u16, k: nat)
    requires |afes| <= RECORD_MAX && |channels| <= RECORD_MAX
    requires 1 <= k <= 1 + |afes| + |channels|
    ensures var x := SessionAfter(afes, channels, biasControl, k);
            if k == 1 then x == Open(ConfigCounts(|afes|, |channels|, biasControl), [], [])
            else
              var before := SessionAfter(afes, channels, biasControl, k - 1);
              && before.Open? && before.counts == ConfigCounts(|afes|, |channels|, biasControl)
              && (if k - 1 <= |afes|
                  then |before.afes| < |afes| && x == before.(afes := before.afes + [RecordOfAfe(afes[k - 2])])
                  else && |before.channels| < |channels|
                       && x == before.(channels := before.channels + [RecordOfChannel(channels[k - 2 - |afes|])]))
  {}

  lemma AppliedMeansReady(s: Rpu, i: Input, c: Command)
    requires i.frame == EncodedCommand(c) && !c.op.Status? && !c.op.ReadAlignment?
    ensures Supported(i.frame)
    ensures Step(s, i).1.status.Applied? ==> i.interlock.ReadyForAfe()
  {
    hide EncodedCommand, DecodeCommand, ApplyCommand;
    CommandRoundTrip(c);
  }

  /** If the interlock was ready for the Begin and the last frame was applied,
      it was ready for every frame. */
  lemma ReadyAtBeginSuffices(s: Rpu, inputs: seq<Input>, first: u64, afes: seq<AfeFrontendConfig>,
                             channels: seq<ChannelFrontendConfig>, biasControl: u16)
    requires Sends(inputs, first, afes, channels, biasControl) && AllSupported(inputs)
    requires inputs[0].interlock.ReadyForAfe()
    ensures ReplyAt(s, inputs, |inputs| - 1).status.Applied? ==> AllReady(inputs)
  {
    hide EncodedCommand, DecodeCommand, Step, Run, ConfigureFrames;
    FirstFrame(s, inputs, first, afes, channels, biasControl);
    LastReplyWitnesses(s, inputs, first, afes, channels, biasControl);
    if ReplyAt(s, inputs, |inputs| - 1).status.Applied? {
      forall i | 0 <= i < |inputs| ensures inputs[i].interlock.ReadyForAfe() {
        FrameAt(first, afes, channels, biasControl, i);
        assert ReplyAt(s, inputs, i).status.Applied?;
        AppliedMeansReady(Run(s, inputs[..i]), inputs[i], ConfigureFrames(first, afes, channels, biasControl)[i]);
      }
    }
  }

  /** Before the last frame exactly the request is staged; the last frame is
      applied exactly when no AFE and no channel is named twice and the devices
      do their part. */
  lemma RequestDelivered(s: Rpu, inputs: seq<Input>, first: u64, afes: seq<AfeFrontendConfig>,
                         channels: seq<ChannelFrontendConfig>, biasControl: u16)
    requires Sends(inputs, first, afes, channels, biasControl) && AllSupported(inputs) && AllReady(inputs)
    ensures var n := |inputs| - 1;
            && Run(s, inputs[..n]).staged == StagedFor(afes, channels, biasControl)
            && Run(s, inputs[..n]).config.Complete()
            && (forall j :: 0 <= j < n ==> ReplyAt(s, inputs, j).status.Applied?)
            && (ApplyReachesDevices(Run(s, inputs[..n])) <==> DistinctRequest(afes, channels))
            && (ReplyAt(s, inputs, n).status.Applied? <==> DistinctRequest(afes, channels) && inputs[n].hw.Done?)
  {
    hide EncodedCommand, DecodeCommand, Step, ConfigureFrames, ApplyFrame;
    var n := |inputs| - 1;
    FramesDelivered(s, inputs, first, afes, channels, biasControl, n);
    var x, r := SessionAfter(afes, channels, biasControl, n), Run(s, inputs[..n]);
    assert x == Open(x.counts, AfeRecords(afes), ChannelRecords(channels));
    ApplyReachesExactly(r, x);
    DistinctRecords(afes, channels);
    FrameAt(first, afes, channels, biasControl, n);
    ApplyStep(r, inputs[n], SequenceForFrame(first, n), |afes|, |channels|);
  }
}
