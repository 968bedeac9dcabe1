/** Frontend alignment: the delay scan, the bitslip scan and their cleanup
    (crates/daphne-sc-rpu/src/mmio.rs, lines 151-311). */
module Alignment {
  import opened Words
  import opened Afe
  import opened AfeHw
  import opened Board
  import opened BusOps

  // ---------- runs of equal words ----------

  /** `len` equal words from `start` on. */
  ghost predicate ConstantRun(words: seq<u32>, start: nat, len: nat) {
    && 1 <= len && start + len <= |words|
    && forall i :: start <= i < start + len ==> words[i] == words[start]
  }

  /** No run is longer, and none as long starts earlier. */
  ghost predicate EarliestLongestRun(words: seq<u32>, start: nat, len: nat) {
    && ConstantRun(words, start, len)
    && forall s: nat, l: nat :: ConstantRun(words, s, l) ==> l < len || (l == len && start <= s)
  }

  function Midpoint(start: nat, len: nat): nat
    requires len >= 1
  {
    start + (len - 1) / 2
  }

  /** The tap the delay scan must choose for the words it saw. */
  ghost predicate BestDelay(words: seq<u32>, tap: nat) {
    exists start: nat, len: nat :: EarliestLongestRun(words, start, len) && tap == Midpoint(start, len)
  }

  lemma BestDelayIsUnique(words: seq<u32>, tap: nat, tap': nat)
    requires BestDelay(words, tap) && BestDelay(words, tap')
    ensures tap == tap'
  {
    var s: nat, l: nat :| EarliestLongestRun(words, s, l) && tap == Midpoint(s, l);
    var s': nat, l': nat :| EarliestLongestRun(words, s', l') && tap' == Midpoint(s', l');
    assert ConstantRun(words, s, l) && ConstantRun(words, s', l');
  }

  /** The tap lies inside its run, and the run reaches equally far on both
      sides of it, up to one tap. */
  lemma BestDelayIsCentred(words: seq<u32>, tap: nat)
    requires BestDelay(words, tap)
    ensures tap < |words|
    ensures exists start: nat, len: nat ::
      && EarliestLongestRun(words, start, len) && start <= tap < start + len
      && 0 <= (start + len - 1 - tap) - (tap - start) <= 1
  {
    var s: nat, l: nat :| EarliestLongestRun(words, s, l) && tap == Midpoint(s, l);
    assert s <= tap < s + l && 0 <= (s + l - 1 - tap) - (tap - s) <= 1;
  }

  /** The scan's bookkeeping after the words seen so far: the current run
      reaches their end and cannot start earlier, and the best run is the
      earliest longest of those that ended before it. */
  ghost predicate Scanned(words: seq<u32>, bestStart: nat, bestLen: nat, currentStart: nat, currentLen: nat) {
    if words == [] then bestLen == currentLen == 0
    else
      && ConstantRun(words, currentStart, currentLen) && currentStart + currentLen == |words|
      && (currentStart > 0 ==> words[currentStart - 1] != words[currentStart])
      && (bestLen == 0 <==> currentStart == 0)
      && (bestLen > 0 ==> EarliestLongestRun(words[..currentStart], bestStart, bestLen))
  }

  /** A run of the longer sequence that does not reach its last word is a run
      of the shorter one, and one that does starts no earlier than the current
      run. */
  lemma RunsSplit(words: seq<u32>, cut: nat, s: nat, l: nat)
    requires 0 < cut < |words| && words[cut - 1] != words[cut] && ConstantRun(words, s, l)
    ensures ConstantRun(words[..cut], s, l) || cut <= s
  {
    if s < cut {
      assert s + l <= cut;
      assert forall i :: s <= i < s + l ==> words[..cut][i] == words[i];
    }
  }

  lemma PrefixRun(words: seq<u32>, cut: nat, s: nat, l: nat)
    requires cut <= |words| && ConstantRun(words[..cut], s, l)
    ensures ConstantRun(words, s, l)
  {
    assert forall i :: 0 <= i < cut ==> words[..cut][i] == words[i];
  }

  /** Closing the current run gives the earliest longest run of all words. */
  lemma CloseRun(words: seq<u32>, bestStart: nat, bestLen: nat, currentStart: nat, currentLen: nat)
    requires words != [] && Scanned(words, bestStart, bestLen, currentStart, currentLen)
    ensures if currentLen > bestLen then EarliestLongestRun(words, currentStart, currentLen)
            else EarliestLongestRun(words, bestStart, bestLen)
  {
    if bestLen > 0 {
      PrefixRun(words, currentStart, bestStart, bestLen);
    }
    forall s: nat, l: nat | ConstantRun(words, s, l)
      ensures if currentLen > bestLen then l < currentLen || (l == currentLen && currentStart <= s)
              else l < bestLen || (l == bestLen && bestStart <= s)
    {
      if currentStart > 0 {
        RunsSplit(words, currentStart, s, l);
      }
    }
  }

  /** One more word: it extends the current run or closes it. */
  lemma ScanNext(words: seq<u32>, word: u32, bestStart: nat, bestLen: nat, currentStart: nat, currentLen: nat)
    requires Scanned(words, bestStart, bestLen, currentStart, currentLen)
    ensures var n := |words|;
            if n > 0 && word == words[n - 1] then
              Scanned(words + [word], bestStart, bestLen, currentStart, currentLen + 1)
            else if currentLen > bestLen then
              Scanned(words + [word], currentStart, currentLen, n, 1)
            else
              Scanned(words + [word], bestStart, bestLen, n, 1)
  {
    var n, more := |words|, words + [word];
    if n > 0 {
      assert words[n - 1] == words[currentStart];
      if word == words[n - 1] {
        assert more[..currentStart] == words[..currentStart];
      } else {
        assert more[..n] == words;
        CloseRun(words, bestStart, bestLen, currentStart, currentLen);
      }
    }
  }

  lemma ScanStarts()
    ensures Scanned([], 0, 0, 0, 0)
  {}

  lemma ChosenTap(words: seq<u32>, start: nat, len: nat)
    requires EarliestLongestRun(words, start, len)
    ensures len >= 1 && start + (len - 1) / 2 < |words| && BestDelay(words, start + (len - 1) / 2)
  {
    assert Midpoint(start, len) == start + (len - 1) / 2;
  }

  // ---------- register accesses ----------

  /** No access at the times from `from` on and before `to` fails. */
  ghost predicate Clean(env: Environment, from: nat, to: nat) {
    forall t: nat :: from <= t < to ==> !env.fails(t)
  }

  method SetFrontendDelay(io: RegisterBus, afeBoard: u8, value: u32) returns (r: Result<(), MmioError>)
    requires io.Valid()
    modifies io`tick, io`board
    ensures io.Valid()
    ensures r.Ok? ==>
      && afeBoard < AFE_COUNT && value < FRONTEND_DELAY_TAPS
      && io.board == old(io.board).(delay := old(io.board.delay)[afeBoard := value])
    ensures r.Err? ==> io.board == old(io.board)
    ensures afeBoard < AFE_COUNT && value < FRONTEND_DELAY_TAPS ==>
      && io.tick == old(io.tick) + 1
      && (if io.env.fails(old(io.tick)) then r == Err(MmioError.Io) else r == Ok(()))
  {
    var offset :- OffsetOf(FrontendDelayOffset(afeBoard), afeBoard);
    if value >= FRONTEND_DELAY_TAPS {
      return Err(MmioError.InvalidValue(value));
    }
    OffsetsSelectTheirPorts(afeBoard);
    r := Write(io, offset, value);
  }

  method SetFrontendBitslip(io: RegisterBus, afeBoard: u8, value: u32) returns (r: Result<(), MmioError>)
    requires io.Valid()
    modifies io`tick, io`board
    ensures io.Valid()
    ensures r.Ok? ==>
      && afeBoard < AFE_COUNT && value < FRONTEND_BITSLIP_TAPS
      && io.board == old(io.board).(bitslip := old(io.board.bitslip)[afeBoard := value])
    ensures r.Err? ==> io.board == old(io.board)
    ensures afeBoard < AFE_COUNT && value < FRONTEND_BITSLIP_TAPS ==>
      && io.tick == old(io.tick) + 1
      && (if io.env.fails(old(io.tick)) then r == Err(MmioError.Io) else r == Ok(()))
  {
    var offset :- OffsetOf(FrontendBitslipOffset(afeBoard), afeBoard);
    if value >= FRONTEND_BITSLIP_TAPS {
      return Err(MmioError.InvalidValue(value));
    }
    OffsetsSelectTheirPorts(afeBoard);
    r := Write(io, offset, value);
  }

  lemma Triggered(board: Board)
    ensures board.Write(PortOf(FRONTEND_TRIGGER_OFFSET), FRONTEND_TRIGGER_WORD)
         == board.(captured := SettingsOf(board.delay, board.bitslip))
  {}

  lemma FrameClockAnswer(board: Board, env: Environment, t: nat, afe: nat)
    ensures Answer(board, env, t, FrameClock(afe)) == env.sample(t)
  {}

  /** Triggers a snapshot and reads the AFE's frame clock: the word captured at
      the taps the AFE is set to. */
  method ScanFrontendWord(io: RegisterBus, afeBoard: u8) returns (r: Result<u32, MmioError>)
    requires io.Valid() && afeBoard < AFE_COUNT
    modifies io
    ensures io.Valid() && io.board == old(io.board).(captured := io.board.captured)
    ensures var at := Setting(io.board.delay[afeBoard], io.board.bitslip[afeBoard]);
      io.frames == if r.Ok? then old(io.frames)[afeBoard := old(io.frames)[afeBoard] + [Capture(r.value, at)]]
                   else old(io.frames)
    ensures r.Err? ==> r.error == MmioError.Io
    ensures r.Ok? <==> Clean(io.env, old(io.tick), old(io.tick) + 2)
    ensures r.Ok? ==> io.tick == old(io.tick) + 2 && r.value == io.env.sample(old(io.tick) + 1)
  {
    hide FrameClockOffset, PortOf, Board.Write, Answer;
    OffsetsSelectTheirPorts(afeBoard);
    Triggered(io.board);
    FrameClockAnswer(io.board.(captured := SettingsOf(io.board.delay, io.board.bitslip)), io.env, io.tick + 1,
                     afeBoard);
    var _ :- Write(io, FRONTEND_TRIGGER_OFFSET, FRONTEND_TRIGGER_WORD);
    r := Read(io, FrameClockOffset(afeBoard).value);
  }

  // ---------- captured words ----------

  function WordsOf(captures: seq<Capture>): (words: seq<u32>)
    ensures |words| == |captures|
  {
    seq(|captures|, k requires 0 <= k < |captures| => captures[k].word)
  }

  /** Words captured while the delay taps are stepped, while the bitslip taps
      are, and at fixed taps. */
  function OverDelays(words: seq<u32>, bitslip: nat): (captures: seq<Capture>)
    ensures |captures| == |words|
  {
    seq(|words|, k requires 0 <= k < |words| => Capture(words[k], Setting(k, bitslip)))
  }

  function OverBitslips(words: seq<u32>, delay: nat): (captures: seq<Capture>)
    ensures |captures| == |words|
  {
    seq(|words|, k requires 0 <= k < |words| => Capture(words[k], Setting(delay, k)))
  }

  function AtTaps(words: seq<u32>, at: Setting): (captures: seq<Capture>)
    ensures |captures| == |words|
  {
    seq(|words|, k requires 0 <= k < |words| => Capture(words[k], at))
  }

  lemma NextOverDelays(seen: seq<Capture>, words: seq<u32>, word: u32, bitslip: u32)
    ensures (seen + OverDelays(words, bitslip)) + [Capture(word, Setting(|words|, bitslip))]
         == seen + OverDelays(words + [word], bitslip)
  {}

  lemma NextOverBitslips(seen: seq<Capture>, words: seq<u32>, word: u32, delay: u32)
    ensures (seen + OverBitslips(words, delay)) + [Capture(word, Setting(delay, |words|))]
         == seen + OverBitslips(words + [word], delay)
  {}

  lemma NextAtTaps(seen: seq<Capture>, words: seq<u32>, word: u32, at: Setting)
    ensures (seen + AtTaps(words, at)) + [Capture(word, at)] == seen + AtTaps(words + [word], at)
  {}

  lemma NothingCaptured(seen: seq<Capture>, at: Setting)
    ensures seen + OverDelays([], at.bitslip) == seen + OverBitslips([], at.delay) == seen + AtTaps([], at) == seen
  {}

  // ---------- the delay scan ----------

  /** Three accesses for each tap, and one to set the best. */
  const DELAY_ACCESSES: nat := 3 * FRONTEND_DELAY_TAPS + 1

  /** Word `k` was captured at delay `k`, all at one bitslip, and the words
      choose the tap. */
  ghost predicate DelayScanned(captures: seq<Capture>, bitslip: nat, tap: nat) {
    && |captures| == FRONTEND_DELAY_TAPS && BestDelay(WordsOf(captures), tap)
    && forall k :: 0 <= k < FRONTEND_DELAY_TAPS ==> captures[k].at == Setting(k, bitslip)
  }

  lemma DelaysScanned(seen: seq<Capture>, words: seq<u32>, bitslip: u32, tap: nat)
    requires |words| == FRONTEND_DELAY_TAPS && BestDelay(words, tap)
    ensures DelayScanned((seen + OverDelays(words, bitslip))[|seen|..], bitslip, tap)
  {
    hide BestDelay;
    var captures := (seen + OverDelays(words, bitslip))[|seen|..];
    assert captures == OverDelays(words, bitslip);
    assert WordsOf(captures) == words;
  }

  /** Every tap is set and its word captured; the earliest longest run of equal
      words is kept. */
  method ScanDelays(io: RegisterBus, afeBoard: u8, ghost seen: seq<Capture>)
    returns (r: Result<(nat, nat), MmioError>, ghost words: seq<u32>)
    requires io.Valid() && afeBoard < AFE_COUNT && io.frames[afeBoard] == seen
    modifies io
    ensures io.Valid()
    ensures io.board == old(io.board).(delay := old(io.board.delay)[afeBoard := io.board.delay[afeBoard]],
                                       captured := io.board.captured)
    ensures io.frames == old(io.frames)[afeBoard := seen + OverDelays(words, old(io.board.bitslip[afeBoard]))]
    ensures r.Ok? ==> |words| == FRONTEND_DELAY_TAPS && EarliestLongestRun(words, r.value.0, r.value.1)
    ensures r.Ok? <==> Clean(io.env, old(io.tick), old(io.tick) + 3 * FRONTEND_DELAY_TAPS)
    ensures r.Ok? ==> io.tick == old(io.tick) + 3 * FRONTEND_DELAY_TAPS
    ensures r.Err? ==> r.error == MmioError.Io
  {
    hide Scanned, EarliestLongestRun, Answer, PortOf, Board.Write, OverDelays;
    var bestStart, bestLen, currentStart, currentLen := 0, 0, 0, 0;
    var previousWord: u32, havePrevious := 0, false;
    ghost var bitslip := io.board.bitslip[afeBoard];
    words := [];
    NothingCaptured(seen, Setting(0, bitslip));
    ScanStarts();

    for tap := 0 to FRONTEND_DELAY_TAPS
      invariant io.Valid() && |words| == tap
      invariant io.tick == old(io.tick) + 3 * tap && Clean(io.env, old(io.tick), io.tick)
      invariant io.board == old(io.board).(delay := old(io.board.delay)[afeBoard := io.board.delay[afeBoard]],
                                           captured := io.board.captured)
      invariant io.frames == old(io.frames)[afeBoard := seen + OverDelays(words, bitslip)]
      invariant havePrevious <==> tap > 0
      invariant tap > 0 ==> previousWord == words[tap - 1]
      invariant Scanned(words, bestStart, bestLen, currentStart, currentLen)
    {
      var _ :- SetFrontendDelay(io, afeBoard, tap);
      var word :- ScanFrontendWord(io, afeBoard);
      ScanNext(words, word, bestStart, bestLen, currentStart, currentLen);
      NextOverDelays(seen, words, word, bitslip);
      words := words + [word];

      if havePrevious && word == previousWord {
        currentLen := currentLen + 1;
      } else {
        if currentLen > bestLen {
          bestStart := currentStart;
          bestLen := currentLen;
        }
        currentStart := tap;
        currentLen := 1;
        previousWord := word;
        havePrevious := true;
      }
    }

    CloseRun(words, bestStart, bestLen, currentStart, currentLen);
    if currentLen > bestLen {
      bestStart := currentStart;
      bestLen := currentLen;
    }
    r := Ok((bestStart, bestLen));
  }

  /** Scans every delay tap and sets the midpoint of the earliest longest run
      of equal frame-clock words. Only a failed access can make it fail. */
  method SetBestFrontendDelay(io: RegisterBus, afeBoard: u8) returns (r: Result<(), MmioError>)
    requires io.Valid() && afeBoard < AFE_COUNT
    modifies io
    ensures io.Valid()
    ensures io.board == old(io.board).(delay := old(io.board.delay)[afeBoard := io.board.delay[afeBoard]],
                                       captured := io.board.captured)
    ensures old(io.frames[afeBoard]) <= io.frames[afeBoard]
    ensures io.frames == old(io.frames)[afeBoard := io.frames[afeBoard]]
    ensures r.Ok? ==>
      DelayScanned(io.frames[afeBoard][|old(io.frames[afeBoard])|..], io.board.bitslip[afeBoard],
                   io.board.delay[afeBoard])
    ensures r.Err? ==> r.error == MmioError.Io
    ensures r.Ok? <==> Clean(io.env, old(io.tick), old(io.tick) + DELAY_ACCESSES)
    ensures r.Ok? ==> io.tick == old(io.tick) + DELAY_ACCESSES
  {
    hide EarliestLongestRun, BestDelay, DelayScanned, OverDelays, Answer, PortOf, Board.Write;
    ghost var seen := io.frames[afeBoard];
    var best;
    ghost var words;
    best, words :- ScanDelays(io, afeBoard, seen);
    var (bestStart, bestLen) := best;
    ChosenTap(words, bestStart, bestLen);
    if bestLen == 0 {
      return Err(AlignmentFailed);
    }
    var tap := bestStart + (bestLen - 1) / 2;
    DelaysScanned(seen, words, io.board.bitslip[afeBoard], tap);
    r := SetFrontendDelay(io, afeBoard, tap);
  }

  // ---------- the bitslip scan ----------

  /** The least of the first `n` words that shows the expected pattern. */
  ghost predicate FirstMatch(words: seq<u32>, n: nat, tap: nat)
    requires n <= |words|
  {
    && tap < n && words[tap] == FRONTEND_EXPECTED_FCLK_WORD
    && forall j :: 0 <= j < tap ==> words[j] != FRONTEND_EXPECTED_FCLK_WORD
  }

  ghost predicate NoMatch(words: seq<u32>, n: nat)
    requires n <= |words|
  {
    forall j :: 0 <= j < n ==> words[j] != FRONTEND_EXPECTED_FCLK_WORD
  }

  const BITSLIP_READS: nat := FRONTEND_BITSLIP_TAPS + 1 + FRONTEND_VERIFY_READS

  /** The scan's accesses: the initial bitslip, three for each tap, one to set
      the match, and two for each read that verifies it. */
  const BITSLIP_ACCESSES: nat := 2 + 3 * FRONTEND_BITSLIP_TAPS + 2 * (1 + FRONTEND_VERIFY_READS)

  /** The word sampled at time `t` shows the expected pattern. */
  predicate Matches(env: Environment, t: nat) {
    env.sample(t) == FRONTEND_EXPECTED_FCLK_WORD
  }

  /** Taps scanned from time `t` on: the word of a tap is sampled here. */
  function TapTime(t: nat, tap: nat): nat {
    t + 3 * tap + 2
  }

  /** Words read from time `t` on: word `k` is sampled here. */
  function VerifyTime(t: nat, k: nat): nat {
    t + 2 * k + 1
  }

  /** `n` words from time `t` on show the pattern. */
  ghost predicate Verifies(env: Environment, t: nat, n: nat) {
    forall k: nat :: k < n ==> Matches(env, VerifyTime(t, k))
  }

  /** One of the first `n` taps scanned from time `t` on shows the pattern. */
  ghost predicate Found(env: Environment, t: nat, n: nat) {
    exists tap: nat :: tap < n && Matches(env, TapTime(t, tap))
  }

  /** A scan from time `t` on finds a tap that shows the pattern, and sees it
      five times more. */
  ghost predicate Locks(env: Environment, t: nat) {
    && Found(env, t + 1, FRONTEND_BITSLIP_TAPS)
    && Verifies(env, t + 2 + 3 * FRONTEND_BITSLIP_TAPS, 1 + FRONTEND_VERIFY_READS)
  }

  /** The scan saw the pattern first at `tap`, and then five times more. */
  ghost predicate BitslipLocked(words: seq<u32>, tap: nat) {
    && |words| == BITSLIP_READS
    && FirstMatch(words, FRONTEND_BITSLIP_TAPS, tap)
    && forall i :: FRONTEND_BITSLIP_TAPS <= i < BITSLIP_READS ==> words[i] == FRONTEND_EXPECTED_FCLK_WORD
  }

  method ReadFrontendBitslip(io: RegisterBus, afeBoard: u8) returns (r: Result<u32, MmioError>)
    requires io.Valid() && afeBoard < AFE_COUNT
    modifies io`tick, io`frames
    ensures io.Valid() && io.frames == old(io.frames)
    ensures r.Ok? ==> r.value == io.board.bitslip[afeBoard] % 16
    ensures r.Err? ==> r.error == MmioError.Io
    ensures io.tick == old(io.tick) + 1 && (r.Ok? <==> !io.env.fails(old(io.tick)))
  {
    OffsetsSelectTheirPorts(afeBoard);
    var value :- Read(io, FrontendBitslipOffset(afeBoard).value);
    r := Ok(value % 16);
  }

  /** Reads `n` more words, all of which must show the expected pattern. */
  method VerifyPattern(io: RegisterBus, afeBoard: u8, n: nat, ghost seen: seq<Capture>)
    returns (r: Result<(), MmioError>, ghost words: seq<u32>)
    requires io.Valid() && afeBoard < AFE_COUNT && io.frames[afeBoard] == seen
    modifies io
    ensures io.Valid() && io.board == old(io.board).(captured := io.board.captured)
    ensures var at := Setting(io.board.delay[afeBoard], io.board.bitslip[afeBoard]);
            io.frames == old(io.frames)[afeBoard := seen + AtTaps(words, at)]
    ensures r.Ok? ==> |words| == n && forall i :: 0 <= i < n ==> words[i] == FRONTEND_EXPECTED_FCLK_WORD
    ensures r == Err(AlignmentFailed) ==> words != [] && words[|words| - 1] != FRONTEND_EXPECTED_FCLK_WORD
    ensures r.Err? ==> r.error == MmioError.Io || r.error == AlignmentFailed
    ensures r.Ok? <==> Clean(io.env, old(io.tick), old(io.tick) + 2 * n) && Verifies(io.env, old(io.tick), n)
    ensures r.Ok? ==> io.tick == old(io.tick) + 2 * n
    ensures r == Err(MmioError.Io) ==> !io.env.NoFailures()
  {
    hide AtTaps;
    ghost var at := Setting(io.board.delay[afeBoard], io.board.bitslip[afeBoard]);
    words := [];
    NothingCaptured(seen, at);
    for i := 0 to n
      invariant io.Valid() && io.board == old(io.board).(captured := io.board.captured) && |words| == i
      invariant io.frames == old(io.frames)[afeBoard := seen + AtTaps(words, at)]
      invariant forall j :: 0 <= j < i ==> words[j] == FRONTEND_EXPECTED_FCLK_WORD
      invariant io.tick == old(io.tick) + 2 * i && Clean(io.env, old(io.tick), io.tick)
      invariant Verifies(io.env, old(io.tick), i)
    {
      assert VerifyTime(old(io.tick), i) == io.tick + 1;
      var word :- ScanFrontendWord(io, afeBoard);
      NextAtTaps(seen, words, word, at);
      words := words + [word];
      if word != FRONTEND_EXPECTED_FCLK_WORD {
        return Err(AlignmentFailed), words;
      }
    }
    r := Ok(());
  }

  /** The scan proper: every tap is set and its word captured. */
  method ScanBitslips(io: RegisterBus, afeBoard: u8, ghost seen: seq<Capture>)
    returns (r: Result<Option<u32>, MmioError>, ghost words: seq<u32>)
    requires io.Valid() && afeBoard < AFE_COUNT && io.frames[afeBoard] == seen
    modifies io
    ensures io.Valid()
    ensures io.board == old(io.board).(bitslip := old(io.board.bitslip)[afeBoard := io.board.bitslip[afeBoard]],
                                       captured := io.board.captured)
    ensures io.frames == old(io.frames)[afeBoard := seen + OverBitslips(words, io.board.delay[afeBoard])]
    ensures r.Ok? ==> |words| == FRONTEND_BITSLIP_TAPS
    ensures r.Ok? ==> match r.value
      case None => NoMatch(words, FRONTEND_BITSLIP_TAPS)
      case Some(tap) => FirstMatch(words, FRONTEND_BITSLIP_TAPS, tap)
    ensures r.Ok? ==> (r.value.Some? <==> Found(io.env, old(io.tick), FRONTEND_BITSLIP_TAPS))
    ensures r.Ok? <==> Clean(io.env, old(io.tick), old(io.tick) + 3 * FRONTEND_BITSLIP_TAPS)
    ensures r.Ok? ==> io.tick == old(io.tick) + 3 * FRONTEND_BITSLIP_TAPS
    ensures r.Err? ==> r.error == MmioError.Io
  {
    hide OverBitslips;
    ghost var delay := io.board.delay[afeBoard];
    words := [];
    var matchedBitslip: Option<u32> := None;
    NothingCaptured(seen, Setting(delay, 0));
    for tap := 0 to FRONTEND_BITSLIP_TAPS
      invariant io.Valid() && |words| == tap
      invariant io.board == old(io.board).(bitslip := old(io.board.bitslip)[afeBoard := io.board.bitslip[afeBoard]],
                                           captured := io.board.captured)
      invariant io.frames == old(io.frames)[afeBoard := seen + OverBitslips(words, delay)]
      invariant match matchedBitslip case None => NoMatch(words, tap) case Some(t) => FirstMatch(words, tap, t)
      invariant io.tick == old(io.tick) + 3 * tap && Clean(io.env, old(io.tick), io.tick)
      invariant matchedBitslip.Some? <==> Found(io.env, old(io.tick), tap)
    {
      var _ :- SetFrontendBitslip(io, afeBoard, tap);
      var word :- ScanFrontendWord(io, afeBoard);
      FoundNext(io.env, old(io.tick), tap);
      NextOverBitslips(seen, words, word, delay);
      words := words + [word];
      if matchedBitslip.None? && word == FRONTEND_EXPECTED_FCLK_WORD {
        matchedBitslip := Some(tap);
      }
    }
    r := Ok(matchedBitslip);
  }

  lemma FoundNext(env: Environment, t: nat, n: nat)
    ensures Found(env, t, n + 1) <==> Found(env, t, n) || env.sample(t + 3 * n + 2) == FRONTEND_EXPECTED_FCLK_WORD
  {
    assert Matches(env, TapTime(t, n)) <==> env.sample(t + 3 * n + 2) == FRONTEND_EXPECTED_FCLK_WORD;
  }

  /** Word `j` of the scan was captured at bitslip `j`, the words that verify
      the match at the tap that matched first, all at one delay. */
  ghost predicate BitslipScanned(captures: seq<Capture>, delay: nat, tap: nat) {
    && |captures| == BITSLIP_READS && BitslipLocked(WordsOf(captures), tap)
    && (forall j :: 0 <= j < FRONTEND_BITSLIP_TAPS ==> captures[j].at == Setting(delay, j))
    && (forall j :: FRONTEND_BITSLIP_TAPS <= j < BITSLIP_READS ==> captures[j].at == Setting(delay, tap))
  }

  /** A scan that fails on its words: no tap matched and the initial bitslip was
      put back, or a word that was to verify the first match did not. */
  ghost predicate BitslipMissed(captures: seq<Capture>, delay: nat, initial: nat, tap: nat) {
    var words := WordsOf(captures);
    && |captures| >= FRONTEND_BITSLIP_TAPS
    && (forall j :: 0 <= j < FRONTEND_BITSLIP_TAPS ==> captures[j].at == Setting(delay, j))
    && (forall j :: FRONTEND_BITSLIP_TAPS <= j < |captures| ==> captures[j].at == Setting(delay, tap))
    && if |words| == FRONTEND_BITSLIP_TAPS then NoMatch(words, FRONTEND_BITSLIP_TAPS) && tap == initial % 16
       else FirstMatch(words, FRONTEND_BITSLIP_TAPS, tap) && words[|words| - 1] != FRONTEND_EXPECTED_FCLK_WORD
  }

  lemma NoTapMatches(seen: seq<Capture>, words: seq<u32>, delay: u32, initial: u32)
    requires |words| == FRONTEND_BITSLIP_TAPS && NoMatch(words, FRONTEND_BITSLIP_TAPS)
    ensures BitslipMissed((seen + OverBitslips(words, delay))[|seen|..], delay, initial, initial % 16)
  {
    var captures := (seen + OverBitslips(words, delay))[|seen|..];
    assert captures == OverBitslips(words, delay);
    assert WordsOf(captures) == words;
  }

  lemma MatchVerified(seen: seq<Capture>, words: seq<u32>, more: seq<u32>, delay: u32, tap: u32, initial: nat)
    requires |words| == FRONTEND_BITSLIP_TAPS && FirstMatch(words, FRONTEND_BITSLIP_TAPS, tap)
    ensures var captures := (seen + OverBitslips(words, delay) + AtTaps(more, Setting(delay, tap)))[|seen|..];
            var verified := |more| == 1 + FRONTEND_VERIFY_READS
              && forall i :: 0 <= i < |more| ==> more[i] == FRONTEND_EXPECTED_FCLK_WORD;
            && tap < FRONTEND_BITSLIP_TAPS
            && (verified ==> BitslipScanned(captures, delay, tap))
            && (more != [] && more[|more| - 1] != FRONTEND_EXPECTED_FCLK_WORD ==>
                  BitslipMissed(captures, delay, initial, tap))
  {
    var captures := (seen + OverBitslips(words, delay) + AtTaps(more, Setting(delay, tap)))[|seen|..];
    assert captures == OverBitslips(words, delay) + AtTaps(more, Setting(delay, tap));
    assert WordsOf(captures) == words + more;
  }

  /** Scans every bitslip tap, sets the least one that shows the pattern and
      verifies it; restores the initial bitslip when none does. */
  method SetBestFrontendBitslip(io: RegisterBus, afeBoard: u8) returns (r: Result<(), MmioError>)
    requires io.Valid() && afeBoard < AFE_COUNT
    modifies io
    ensures io.Valid()
    ensures io.board == old(io.board).(bitslip := old(io.board.bitslip)[afeBoard := io.board.bitslip[afeBoard]],
                                       captured := io.board.captured)
    ensures old(io.frames[afeBoard]) <= io.frames[afeBoard]
    ensures io.frames == old(io.frames)[afeBoard := io.frames[afeBoard]]
    ensures var captures := io.frames[afeBoard][|old(io.frames[afeBoard])|..];
      && (r.Ok? ==> BitslipScanned(captures, io.board.delay[afeBoard], io.board.bitslip[afeBoard]))
      && (r == Err(AlignmentFailed) ==>
            BitslipMissed(captures, io.board.delay[afeBoard], old(io.board.bitslip[afeBoard]),
                          io.board.bitslip[afeBoard]))
    ensures r.Err? ==> r.error == MmioError.Io || r.error == AlignmentFailed
    ensures r.Ok? <==> Clean(io.env, old(io.tick), old(io.tick) + BITSLIP_ACCESSES) && Locks(io.env, old(io.tick))
    ensures r.Ok? ==> io.tick == old(io.tick) + BITSLIP_ACCESSES
    ensures r == Err(MmioError.Io) ==> !io.env.NoFailures()
  {
    hide BitslipScanned, BitslipMissed, FirstMatch, NoMatch, Matches, TapTime, VerifyTime, Answer, PortOf, Board.Write;
    hide Found, Verifies, OverBitslips, AtTaps;
    ghost var seen, delay := io.frames[afeBoard], io.board.delay[afeBoard];
    var initialBitslip :- ReadFrontendBitslip(io, afeBoard);
    var matchedBitslip;
    ghost var words;
    matchedBitslip, words :- ScanBitslips(io, afeBoard, seen);
    if matchedBitslip.None? {
      NoTapMatches(seen, words, delay, old(io.board.bitslip[afeBoard]));
      var _ :- SetFrontendBitslip(io, afeBoard, initialBitslip);
      return Err(AlignmentFailed);
    }
    MatchVerified(seen, words, [], delay, matchedBitslip.value, 0);
    var _ :- SetFrontendBitslip(io, afeBoard, matchedBitslip.value);
    ghost var more;
    r, more := VerifyPattern(io, afeBoard, 1 + FRONTEND_VERIFY_READS, seen + OverBitslips(words, delay));
    MatchVerified(seen, words, more, delay, matchedBitslip.value, old(io.board.bitslip[afeBoard]));
  }

  // ---------- all five AFEs ----------

  predicate VtcOn(board: Board) {
    BitIsSet(board.frontend, FRONTEND_DELAY_EN_VTC_BIT)
  }

  /** Delay controller and deserialisers were reset once and are released. */
  predicate ReceiverReset(before: Board, after: Board) {
    && after.resets == Resets(before.resets.delayctrl + 1, before.resets.serdes + 1)
    && !BitIsSet(after.frontend, FRONTEND_DELAYCTRL_RESET_BIT) && !BitIsSet(after.frontend, FRONTEND_SERDES_RESET_BIT)
  }

  /** Ten writes. */
  method ResetFrontendDelayValues(io: RegisterBus) returns (r: Result<(), MmioError>)
    requires io.Valid()
    modifies io`tick, io`board
    ensures io.Valid()
    ensures io.board == old(io.board).(delay := io.board.delay, bitslip := io.board.bitslip)
    ensures r.Ok? ==> forall a :: 0 <= a < 5 ==> io.board.delay[a] == io.board.bitslip[a] == 0
    ensures r.Ok? ==> io.tick == old(io.tick) + 10 && Clean(io.env, old(io.tick), io.tick)
    ensures r.Err? ==>
      r.error == MmioError.Io && old(io.tick) < io.tick <= old(io.tick) + 10 && io.env.fails(io.tick - 1)
  {
    for afe: u8 := 0 to AFE_COUNT
      invariant io.Valid() && io.tick == old(io.tick) + 2 * afe && Clean(io.env, old(io.tick), io.tick)
      invariant io.board == old(io.board).(delay := io.board.delay, bitslip := io.board.bitslip)
      invariant forall a :: 0 <= a < afe ==> io.board.delay[a] == io.board.bitslip[a] == 0
    {
      var _ :- SetFrontendBitslip(io, afe, 0);
      var _ :- SetFrontendDelay(io, afe, 0);
    }
    r := Ok(());
  }

  /** One bit of the frontend control register: a read and a write. */
  method SetFrontendBit(io: RegisterBus, bitIndex: nat, asserted: bool) returns (r: Result<(), MmioError>)
    requires io.Valid() && bitIndex < 3
    modifies io
    ensures io.Valid() && io.frames == old(io.frames)
    ensures io.board == old(io.board).(frontend := io.board.frontend, resets := io.board.resets)
    ensures r.Ok? ==>
      && io.tick == old(io.tick) + 2 && Clean(io.env, old(io.tick), io.tick)
      && io.board.resets == Pulsed(old(io.board.frontend), io.board.frontend, old(io.board.resets))
      && BitIsSet(io.board.frontend, bitIndex) == asserted
      && forall j :: 0 <= j < 3 && j != bitIndex ==>
           BitIsSet(io.board.frontend, j) == BitIsSet(old(io.board.frontend), j)
    ensures r.Err? ==>
      && r.error == MmioError.Io && io.board == old(io.board)
      && old(io.tick) < io.tick <= old(io.tick) + 2 && io.env.fails(io.tick - 1)
  {
    WithBitSetsOneBit(io.board.frontend, bitIndex, asserted);
    var value :- Read(io, FRONTEND_CONTROL_OFFSET);
    r := Write(io, FRONTEND_CONTROL_OFFSET, WithBit(value, bitIndex, asserted));
  }

  /** One of the two reset bits, set and cleared. */
  method PulseFrontendBit(io: RegisterBus, bitIndex: nat) returns (r: Result<(), MmioError>)
    requires io.Valid() && bitIndex < FRONTEND_DELAY_EN_VTC_BIT
    modifies io
    ensures io.Valid() && io.frames == old(io.frames)
    ensures io.board == old(io.board).(frontend := io.board.frontend, resets := io.board.resets)
    ensures VtcOn(io.board) == VtcOn(old(io.board))
    ensures r.Ok? ==>
      && io.tick == old(io.tick) + 4 && Clean(io.env, old(io.tick), io.tick)
      && !BitIsSet(io.board.frontend, bitIndex)
      && (bitIndex == FRONTEND_DELAYCTRL_RESET_BIT ==>
            && BitIsSet(io.board.frontend, FRONTEND_SERDES_RESET_BIT)
               == BitIsSet(old(io.board.frontend), FRONTEND_SERDES_RESET_BIT)
            && io.board.resets == old(io.board.resets).(delayctrl := old(io.board.resets.delayctrl) + 1))
      && (bitIndex == FRONTEND_SERDES_RESET_BIT ==>
            && BitIsSet(io.board.frontend, FRONTEND_DELAYCTRL_RESET_BIT)
               == BitIsSet(old(io.board.frontend), FRONTEND_DELAYCTRL_RESET_BIT)
            && io.board.resets == old(io.board.resets).(serdes := old(io.board.resets.serdes) + 1))
    ensures r.Err? ==>
      r.error == MmioError.Io && old(io.tick) < io.tick <= old(io.tick) + 4 && io.env.fails(io.tick - 1)
  {
    var _ :- SetFrontendBit(io, bitIndex, true);
    r := SetFrontendBit(io, bitIndex, false);
  }

  const FRAMES_PER_AFE: nat := FRONTEND_DELAY_TAPS + BITSLIP_READS
  const ACCESSES_PER_AFE: nat := DELAY_ACCESSES + BITSLIP_ACCESSES

  /** Both scans of an AFE from time `t` on succeed. */
  ghost predicate AfeAligns(env: Environment, t: nat) {
    Clean(env, t, t + ACCESSES_PER_AFE) && Locks(env, t + DELAY_ACCESSES)
  }

  /** When the scans of AFE `afe` start if the first one's start at `t`. */
  function AfeStart(t: nat, afe: nat): nat {
    t + afe * ACCESSES_PER_AFE
  }

  /** An AFE is aligned by the words its own scans captured, each at the taps it
      stands for: the delay scan at bitslip 0, the bitslip scan at the delay
      chosen, and the words that verify the match at both taps chosen. */
  ghost predicate Aligned(captures: seq<Capture>, delay: nat, bitslip: nat) {
    && |captures| == FRAMES_PER_AFE
    && DelayScanned(captures[..FRONTEND_DELAY_TAPS], 0, delay)
    && BitslipScanned(captures[FRONTEND_DELAY_TAPS..], delay, bitslip)
  }

  /** Both scans of one AFE. */
  method AlignAfe(io: RegisterBus, afeBoard: u8) returns (r: Result<(), MmioError>)
    requires io.Valid() && afeBoard < AFE_COUNT
    modifies io
    ensures io.Valid()
    ensures io.board == old(io.board).(delay := old(io.board.delay)[afeBoard := io.board.delay[afeBoard]],
                                       bitslip := old(io.board.bitslip)[afeBoard := io.board.bitslip[afeBoard]],
                                       captured := io.board.captured)
    ensures io.frames == old(io.frames)[afeBoard := io.frames[afeBoard]]
    ensures r.Ok? && old(io.board.bitslip[afeBoard]) == 0 ==>
      && old(io.frames[afeBoard]) <= io.frames[afeBoard]
      && Aligned(io.frames[afeBoard][|old(io.frames[afeBoard])|..],
                 io.board.delay[afeBoard], io.board.bitslip[afeBoard])
    ensures r.Err? ==> r.error == MmioError.Io || r.error == AlignmentFailed
    ensures r.Ok? <==> AfeAligns(io.env, old(io.tick))
    ensures r.Ok? ==> io.tick == old(io.tick) + ACCESSES_PER_AFE
    ensures r == Err(MmioError.Io) ==> !io.env.NoFailures()
  {
    hide BestDelay, BitslipLocked;
    ghost var n := |io.frames[afeBoard]|;
    var _ :- SetBestFrontendDelay(io, afeBoard);
    ghost var m := |io.frames[afeBoard]|;
    ghost var captures := io.frames[afeBoard][n..];
    r := SetBestFrontendBitslip(io, afeBoard);
    assert io.frames[afeBoard][n..][..m - n] == captures;
    assert io.frames[afeBoard][n..][m - n..] == io.frames[afeBoard][m..];
  }

  /** How many accesses come before the wait for the delay controller. */
  const PREPARATION: nat := 20

  /** The scans are reached: the accesses before the wait succeed and the delay
      controller becomes ready in time. */
  ghost predicate ScanReached(env: Environment, t: nat, spinLimit: nat) {
    Clean(env, t, t + PREPARATION) && env.DelayReadyAt(t + PREPARATION, spinLimit).Some?
  }

  /** When the scans start. */
  function ScanStart(env: Environment, t: nat, spinLimit: nat): nat
    requires env.DelayReadyAt(t + PREPARATION, spinLimit).Some?
  {
    env.DelayReadyAt(t + PREPARATION, spinLimit).value + 1
  }

  ghost predicate AllAlign(env: Environment, start: nat, n: nat) {
    forall afe: nat :: afe < n ==> AfeAligns(env, AfeStart(start, afe))
  }

  /** An alignment from time `t` on succeeds: the scans are reached, those of
      all five AFEs succeed, and so do the two accesses that restore VTC. */
  ghost predicate Aligns(env: Environment, t: nat, spinLimit: nat) {
    && ScanReached(env, t, spinLimit)
    && var start := ScanStart(env, t, spinLimit);
       AllAlign(env, start, 5) && Clean(env, AfeStart(start, 5), AfeStart(start, 5) + 2)
  }

  /** If no access fails, only the delay controller and the words sampled by
      the bitslip scans decide. */
  lemma AlignsWithoutFailures(env: Environment, t: nat, spinLimit: nat)
    requires env.NoFailures()
    ensures Aligns(env, t, spinLimit) <==>
      && env.DelayReadyWithin(t + PREPARATION, spinLimit)
      && ScanReached(env, t, spinLimit)
      && forall afe: nat :: afe < 5 ==>
           Locks(env, AfeStart(ScanStart(env, t, spinLimit), afe) + DELAY_ACCESSES)
  {
    env.DelayBecomesReady(t + PREPARATION, spinLimit);
  }

  /** Aligns every AFE. Delay VTC is switched off for the scans. A failed access
      before that leaves it as it was; a delay controller that does not become
      ready leaves it off; after the scans, whatever their outcome, it is on
      exactly if the access that restores it succeeds. */
  method AlignFrontend(io: RegisterBus, spinLimit: u32) returns (r: Result<(), MmioError>)
    requires io.Valid()
    modifies io
    ensures io.Valid()
    ensures io.board == old(io.board).(frontend := io.board.frontend, delay := io.board.delay,
                                       bitslip := io.board.bitslip, captured := io.board.captured,
                                       resets := io.board.resets)
    ensures r.Ok? ==>
      && VtcOn(io.board)
      && ReceiverReset(old(io.board), io.board)
      && forall a :: 0 <= a < 5 ==>
           && old(io.frames[a]) <= io.frames[a]
           && Aligned(io.frames[a][|old(io.frames[a])|..], io.board.delay[a], io.board.bitslip[a])
    ensures r.Ok? <==> Aligns(io.env, old(io.tick), spinLimit)
    ensures r == Err(AlignmentFailed) ==> ScanReached(io.env, old(io.tick), spinLimit)
    ensures io.env.NoFailures() && r.Err? ==>
      r.error == if ScanReached(io.env, old(io.tick), spinLimit) then AlignmentFailed else TimedOut
    ensures r == Err(TimedOut) ==> Clean(io.env, old(io.tick), old(io.tick) + PREPARATION)
    ensures !ScanReached(io.env, old(io.tick), spinLimit) ==>
      io.frames == old(io.frames) && r.Err?
    ensures VtcOn(io.board) ==
      if !Clean(io.env, old(io.tick), old(io.tick) + PREPARATION) then VtcOn(old(io.board))
      else ScanReached(io.env, old(io.tick), spinLimit) && io.tick > 0 && !io.env.fails(io.tick - 1)
    ensures io.env.NoFailures() ==>
      (VtcOn(io.board) <==> io.env.DelayReadyWithin(old(io.tick) + PREPARATION, spinLimit))
  {
    hide Aligned, AfeAligns, BitIsSet, Environment.DelayReadyAt, Environment.DelayReadyWithin;
    if io.env.NoFailures() {
      io.env.DelayBecomesReady(io.tick + PREPARATION, spinLimit);
    }
    r := PrepareScan(io, spinLimit);
    if r.Err? {
      return;
    }
    ghost var start := io.tick;

    for afe: u8 := 0 to AFE_COUNT
      invariant io.Valid()
      invariant io.board == old(io.board).(frontend := io.board.frontend, delay := io.board.delay,
                                           bitslip := io.board.bitslip, captured := io.board.captured,
                                           resets := io.board.resets)
      invariant r.Ok? && !VtcOn(io.board) && ReceiverReset(old(io.board), io.board)
      invariant forall a :: afe <= a < 5 ==> io.board.bitslip[a] == 0
      invariant io.tick == AfeStart(start, afe) && AllAlign(io.env, start, afe)
      invariant forall a :: afe <= a < 5 ==> io.frames[a] == old(io.frames[a])
      invariant forall a :: 0 <= a < afe ==>
        && old(io.frames[a]) <= io.frames[a]
        && Aligned(io.frames[a][|old(io.frames[a])|..], io.board.delay[a], io.board.bitslip[a])
    {
      r := AlignAfe(io, afe);
      if r.Err? {
        break;
      }
    }

    assert r.Ok? <==> AllAlign(io.env, start, 5);
    var vtc := SetFrontendBit(io, FRONTEND_DELAY_EN_VTC_BIT, true);
    if r.Ok? {
      r := vtc;
    }
  }

  /** Everything before the scans: clears the taps, pulses the resets, switches
      VTC off and waits for the delay controller. */
  method PrepareScan(io: RegisterBus, spinLimit: u32) returns (r: Result<(), MmioError>)
    requires io.Valid()
    modifies io
    ensures io.Valid() && io.frames == old(io.frames)
    ensures io.board == old(io.board).(frontend := io.board.frontend, delay := io.board.delay,
                                       bitslip := io.board.bitslip, resets := io.board.resets)
    ensures r.Ok? ==> forall a :: 0 <= a < 5 ==> io.board.delay[a] == io.board.bitslip[a] == 0
    ensures r.Ok? ==> ReceiverReset(old(io.board), io.board)
    ensures r.Ok? <==> ScanReached(io.env, old(io.tick), spinLimit)
    ensures r.Ok? ==> io.tick == ScanStart(io.env, old(io.tick), spinLimit)
    ensures VtcOn(io.board) ==
      (!Clean(io.env, old(io.tick), old(io.tick) + PREPARATION) && VtcOn(old(io.board)))
    ensures r == Err(TimedOut) ==> Clean(io.env, old(io.tick), old(io.tick) + PREPARATION)
    ensures r.Err? && io.env.NoFailures() ==> r.error == TimedOut
    ensures r.Err? ==> r.error == MmioError.Io || r.error == TimedOut
  {
    hide Environment.DelayReadyAt, BitIsSet;
    var _ :- ResetFrontendDelayValues(io);
    var _ :- PulseFrontendBit(io, FRONTEND_DELAYCTRL_RESET_BIT);
    var _ :- PulseFrontendBit(io, FRONTEND_SERDES_RESET_BIT);
    var _ :- SetFrontendBit(io, FRONTEND_DELAY_EN_VTC_BIT, false);
    r := WaitFrontendDelayctrlReady(io, spinLimit);
  }

  /** On any board whose delay controller never becomes ready, alignment times
      out and leaves VTC off, also when it was on. */
  method NeverReadyLeavesVtcOff(board: Board, spinLimit: u32) returns (io: RegisterBus, r: Result<(), MmioError>)
    ensures r == Err(TimedOut) && !VtcOn(io.board)
  {
    var env := Environment(_ => false, _ => 0, _ => false, _ => false, _ => 0);
    io := new RegisterBus(env, board);
    env.DelayBecomesReady(PREPARATION, spinLimit);
    r := AlignFrontend(io, spinLimit);
  }
}
