/** Why the host may judge a whole configuration by its last reply
    (crates/daphne-sc-server/src/rpmsg.rs, lines 102-136), and when it may not. */
module Witness {
  import opened Words
  import opened Afe
  import opened Wire
  import opened Records
  import opened Staging
  import opened Protocol
  import opened Session

  /** The frames of one ConfigureFrontend command, each handled under some
      interlock and with some outcome of the devices. */
  ghost predicate Sends(inputs: seq<Input>, first: u64, afes: seq<AfeFrontendConfig>,
                        channels: seq<ChannelFrontendConfig>, biasControl: u16) {
    && |afes| <= RECORD_MAX && |channels| <= RECORD_MAX
    && var frames := ConfigureFrames(first, afes, channels, biasControl);
       |inputs| == |frames| && forall i :: 0 <= i < |inputs| ==> inputs[i].frame == EncodedCommand(frames[i])
  }

  lemma FrameAt(first: u64, afes: seq<AfeFrontendConfig>, channels: seq<ChannelFrontendConfig>, biasControl: u16,
                i: nat)
    requires |afes| <= RECORD_MAX && |channels| <= RECORD_MAX && i < 2 + |afes| + |channels|
    ensures var frames := ConfigureFrames(first, afes, channels, biasControl);
            var sequence := SequenceForFrame(first, i);
            frames[i] ==
              if i == 0 then BeginFrame(sequence, |afes|, |channels|, biasControl)
              else if i <= |afes| then AfeFrame(sequence, afes[i - 1])
              else if i <= |afes| + |channels| then ChannelFrame(sequence, channels[i - 1 - |afes|])
              else ApplyFrame(sequence, |afes|, |channels|)
  {}

  lemma BeginStep(s: Rpu, i: Input, sequence: u64, afeCount: u16, channelCount: u16, biasControl: u16)
    requires i.frame == EncodedCommand(BeginFrame(sequence, afeCount, channelCount, biasControl))
    ensures Supported(i.frame)
    ensures Step(s, i).1.status.Applied? <==> i.interlock.ReadyForAfe()
    ensures Step(s, i).1.status.Applied? ==>
      var counts := ConfigCounts(afeCount, channelCount, biasControl);
      Step(s, i).0.config == BeginConfig(counts) && Step(s, i).0.staged == NewStaged(counts)
  {
    CommandRoundTrip(BeginFrame(sequence, afeCount, channelCount, biasControl));
    CountsRecovered(sequence, afeCount, channelCount, biasControl);
  }

  /** A record frame moves its counter by one when it is applied, and nothing
      when it is not. */
  lemma RecordStep(s: Rpu, i: Input, c: Command)
    requires i.frame == EncodedCommand(c) && (c.op.ConfigureAfe? || c.op.ConfigureChannel?)
    ensures Supported(i.frame)
    ensures var (t, reply) := Step(s, i);
            if !reply.status.Applied? then t.config == s.config
            else
              && s.config.active
              && (c.op.ConfigureAfe? ==>
                    s.config.receivedAfes < s.config.expectedAfes
                    && t.config == s.config.(receivedAfes := s.config.receivedAfes + 1))
              && (c.op.ConfigureChannel? ==>
                    s.config.receivedChannels < s.config.expectedChannels
                    && t.config == s.config.(receivedChannels := s.config.receivedChannels + 1))
  {
    hide EncodedCommand, DecodeCommand, AfeConfig, ChannelConfig;
    CommandRoundTrip(c);
  }

  lemma ApplyStep(s: Rpu, i: Input, sequence: u64, afeCount: u16, channelCount: u16)
    requires i.frame == EncodedCommand(ApplyFrame(sequence, afeCount, channelCount))
    ensures Supported(i.frame)
    ensures Step(s, i).1.status.Applied? <==>
      i.interlock.ReadyForAfe() && ApplyReachesDevices(s) && i.hw.Done?
    ensures Step(s, i).1.status.Applied? ==> Step(s, i).0.config == NO_CONFIG && Step(s, i).0.staged == UNSTAGED
    ensures !Step(s, i).1.status.Applied? ==> Step(s, i).0.config == s.config && Step(s, i).0.staged == s.staged
  {
    CommandRoundTrip(ApplyFrame(sequence, afeCount, channelCount));
  }

  /** One record frame as the counters see it. */
  predicate Counts(c: ConfigState, d: ConfigState, applied: bool) {
    if !applied then d == c
    else
      && c.active
      && (|| (c.receivedAfes < c.expectedAfes && d == c.(receivedAfes := c.receivedAfes + 1))
          || (c.receivedChannels < c.expectedChannels && d == c.(receivedChannels := c.receivedChannels + 1)))
  }

  /** `configs[j]` is the state before frame j. Once Begin was applied, the
      counters reach k - 1 after k frames only if all of them were applied. */
  lemma {:induction false} CountersShowMisses(configs: seq<ConfigState>, applied: seq<bool>, afeCount: u16,
                                              channelCount: u16, k: nat)
    requires 1 <= k < |configs| && |configs| == |applied| && applied[0]
    requires configs[1] == ConfigState(true, afeCount, channelCount, 0, 0)
    requires forall j :: 1 <= j < k ==> Counts(configs[j], configs[j + 1], applied[j])
    ensures var c := configs[k];
            && c.active && c.expectedAfes == afeCount && c.expectedChannels == channelCount
            && c.receivedAfes + c.receivedChannels < k
            && (c.receivedAfes + c.receivedChannels == k - 1 ==> forall j :: 0 <= j < k ==> applied[j])
  {
    if k > 1 {
      CountersShowMisses(configs, applied, afeCount, channelCount, k - 1);
      assert Counts(configs[k - 1], configs[k - 1 + 1], applied[k - 1]);
    }
  }

  function Configs(s: Rpu, inputs: seq<Input>): (r: seq<ConfigState>)
    requires AllSupported(inputs)
    ensures |r| == |inputs|
  {
    seq(|inputs|, k requires 0 <= k < |inputs| => Run(s, inputs[..k]).config)
  }

  function AppliedFlags(s: Rpu, inputs: seq<Input>): (r: seq<bool>)
    requires AllSupported(inputs)
    ensures |r| == |inputs|
  {
    seq(|inputs|, k requires 0 <= k < |inputs| => ReplyAt(s, inputs, k).status.Applied?)
  }

  lemma RecordCounts(s: Rpu, inputs: seq<Input>, first: u64, afes: seq<AfeFrontendConfig>,
                     channels: seq<ChannelFrontendConfig>, biasControl: u16, j: nat)
    requires Sends(inputs, first, afes, channels, biasControl) && AllSupported(inputs)
    requires 1 <= j <= |afes| + |channels|
    ensures Counts(Configs(s, inputs)[j], Configs(s, inputs)[j + 1], AppliedFlags(s, inputs)[j])
  {
    hide DecodeCommand, EncodedCommand, Step, Run;
    FrameAt(first, afes, channels, biasControl, j);
    Protocol.RunNext(s, inputs, j);
    RecordStep(Run(s, inputs[..j]), inputs[j], ConfigureFrames(first, afes, channels, biasControl)[j]);
  }

  lemma FirstFrame(s: Rpu, inputs: seq<Input>, first: u64, afes: seq<AfeFrontendConfig>,
                   channels: seq<ChannelFrontendConfig>, biasControl: u16)
    requires Sends(inputs, first, afes, channels, biasControl) && AllSupported(inputs)
    ensures AppliedFlags(s, inputs)[0] <==> inputs[0].interlock.ReadyForAfe()
    ensures AppliedFlags(s, inputs)[0] ==>
      Configs(s, inputs)[1] == ConfigState(true, |afes|, |channels|, 0, 0)
  {
    FrameAt(first, afes, channels, biasControl, 0);
    Protocol.RunNext(s, inputs, 0);
    BeginStep(Run(s, inputs[..0]), inputs[0], SequenceForFrame(first, 0), |afes|, |channels|, biasControl);
  }

  lemma LastFrame(s: Rpu, inputs: seq<Input>, first: u64, afes: seq<AfeFrontendConfig>,
                  channels: seq<ChannelFrontendConfig>, biasControl: u16)
    requires Sends(inputs, first, afes, channels, biasControl) && AllSupported(inputs)
    ensures var k := |inputs| - 1;
            AppliedFlags(s, inputs)[k] ==> Configs(s, inputs)[k].Complete()
  {
    var k := |inputs| - 1;
    FrameAt(first, afes, channels, biasControl, k);
    ApplyStep(Run(s, inputs[..k]), inputs[k], SequenceForFrame(first, k), |afes|, |channels|);
  }

  /** If the last reply to a configuration is Applied, then every frame was
      applied exactly when the Begin was. Interlock and devices may change
      between frames. */
  lemma LastReplyWitnesses(s: Rpu, inputs: seq<Input>, first: u64, afes: seq<AfeFrontendConfig>,
                           channels: seq<ChannelFrontendConfig>, biasControl: u16)
    requires Sends(inputs, first, afes, channels, biasControl) && AllSupported(inputs)
    ensures ReplyAt(s, inputs, |inputs| - 1).status.Applied? ==>
      (ReplyAt(s, inputs, 0).status.Applied? <==> AllApplied(s, inputs))
  {
    hide Step, ReplyAt, Run, ConfigureFrames, EncodedCommand;
    var k := |inputs| - 1;
    var configs, applied := Configs(s, inputs), AppliedFlags(s, inputs);
    FirstFrame(s, inputs, first, afes, channels, biasControl);
    LastFrame(s, inputs, first, afes, channels, biasControl);
    if applied[0] && applied[k] {
      forall j | 1 <= j < k ensures Counts(configs[j], configs[j + 1], applied[j]) {
        RecordCounts(s, inputs, first, afes, channels, biasControl, j);
      }
      CountersShowMisses(configs, applied, |afes|, |channels|, k);
      assert forall j :: 0 <= j <= k ==> applied[j] == ReplyAt(s, inputs, j).status.Applied?;
    }
    assert applied[0] == ReplyAt(s, inputs, 0).status.Applied?;
    assert applied[k] == ReplyAt(s, inputs, k).status.Applied?;
  }

  predicate AllApplied(s: Rpu, inputs: seq<Input>)
    requires AllSupported(inputs)
  {
    forall j :: 0 <= j < |inputs| ==> ReplyAt(s, inputs, j).status.Applied?
  }

  /** With the interlock ready for the whole sequence the last reply alone is a
      sound witness, from any earlier state. */
  lemma ReadySequenceWitnessed(s: Rpu, inputs: seq<Input>, first: u64, afes: seq<AfeFrontendConfig>,
                               channels: seq<ChannelFrontendConfig>, biasControl: u16)
    requires Sends(inputs, first, afes, channels, biasControl) && AllSupported(inputs)
    requires forall i :: 0 <= i < |inputs| ==> inputs[i].interlock.ReadyForAfe()
    ensures ReplyAt(s, inputs, |inputs| - 1).status.Applied? <==> AllApplied(s, inputs)
  {
    hide Step, Run;
    FirstFrame(s, inputs, first, afes, channels, biasControl);
    LastReplyWitnesses(s, inputs, first, afes, channels, biasControl);
  }

  const UP: Interlock := Interlock(true, true, true, true, true, true, 0)

  function BeginInput(interlock: Interlock, biasControl: u16): Input {
    Input(interlock, EncodedCommand(BeginFrame(1, 0, 0, biasControl)), Done(0))
  }

  function ApplyInput(hw: Outcome): Input {
    Input(UP, EncodedCommand(ApplyFrame(2, 0, 0)), hw)
  }

  /** Without it the witness can lie: an apply that fails leaves its
      configuration complete; when the next Begin is interlocked and the
      interlock clears before its Apply, the last reply is Applied and what was
      applied is the older configuration, whatever the two VBIAS values are. */
  lemma StaleConfigurationApplied(older: u16, newer: u16)
    ensures var inputs := [BeginInput(UP, older), ApplyInput(Failed), BeginInput(DOWN, newer), ApplyInput(Done(0))];
            && AllSupported(inputs)
            && ReplyAt(START, inputs, 2).status.Interlocked?
            && ReplyAt(START, inputs, 3).status.Applied?
            && Run(START, inputs[..3]).staged == NewStaged(ConfigCounts(0, 0, older))
  {
    hide DecodeCommand, EncodedCommand;
    var a, b, c, d := BeginInput(UP, older), ApplyInput(Failed), BeginInput(DOWN, newer), ApplyInput(Done(0));
    BeginStep(START, a, 1, 0, 0, older);
    var s1 := Step(START, a).0;
    ApplyStep(s1, b, 2, 0, 0);
    var s2 := Step(s1, b).0;
    BlockedStep(s2, c, BeginFrame(1, 0, 0, newer));
    var s3 := Step(s2, c).0;
    EmptyCountsMatch(ConfigCounts(0, 0, older));
    ApplyStep(s3, d, 2, 0, 0);
    FourSteps(START, a, b, c, d);
  }

  lemma FourSteps(s: Rpu, a: Input, b: Input, c: Input, d: Input)
    requires Supported(a.frame) && Supported(b.frame) && Supported(c.frame) && Supported(d.frame)
    ensures var s1 := Step(s, a).0;
            var s2 := Step(s1, b).0;
            var s3 := Step(s2, c).0;
            var inputs := [a, b, c, d];
            && ReplyAt(s, inputs, 2) == Step(s2, c).1
            && ReplyAt(s, inputs, 3) == Step(s3, d).1
            && Run(s, inputs[..3]) == s3
  {
    hide Step;
    var inputs := [a, b, c, d];
    assert inputs[..0] == [];
    Protocol.RunNext(s, inputs, 0);
    Protocol.RunNext(s, inputs, 1);
    Protocol.RunNext(s, inputs, 2);
  }

  lemma BlockedStep(s: Rpu, i: Input, c: Command)
    requires i.frame == EncodedCommand(c) && !c.op.Status? && !c.op.ReadAlignment? && !i.interlock.ReadyForAfe()
    ensures Supported(i.frame)
    ensures Step(s, i).1.status.Interlocked? && Step(s, i).0.config == s.config && Step(s, i).0.staged == s.staged
  {
    CommandRoundTrip(c);
  }

  lemma EmptyCountsMatch(counts: ConfigCounts)
    requires counts.afeCount == counts.channelCount == 0
    ensures NewStaged(counts).CountsMatch()
  {
    FilledNone(NO_AFES);
    FilledNone(NO_CHANNELS);
  }
}
