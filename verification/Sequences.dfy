/** The host's sequence numbers (crates/daphne-sc-server/src/rpmsg.rs, lines
    69-73 and 149-162; crates/daphne-sc-core/src/rpu_wire.rs, lines 610-612). */
module Sequences {
  import opened Words
  import opened Records

  const MOST_FRAMES: nat := 2 + 2 * RECORD_MAX

  function SaturatingSub(a: u64, b: u64): u64 {
    if b <= a then a - b else 0
  }

  function SaturatingAdd(a: u64, b: u64): u64 {
    if a + b <= U64_MAX then a + b else U64_MAX
  }

  function AtLeastOne(a: u64): u64 {
    if a == 0 then 1 else a
  }

  function WrappingNext(a: u64): u64 {
    AtLeastOne((a + 1) % 0x1_0000_0000_0000_0000)
  }

  /** The counter starts over because the block would not fit below the top. */
  predicate Restarts(next: u64, count: u64) {
    count > 0 && next > SaturatingSub(U64_MAX, count)
  }

  /** The first number of a reserved block. */
  function BlockStart(next: u64, count: u64): u64 {
    if Restarts(next, count) then 1 else next
  }

  function AfterBlock(next: u64, count: u64): u64 {
    if count == 0 then next else AtLeastOne(SaturatingAdd(BlockStart(next, count), count))
  }

  /** A block ends where the counter continues, so that the saturation never
      fires, exactly when it is not the one block that spans every number. */
  lemma BlocksAreExact(next: u64, count: u64)
    requires next >= 1
    ensures BlockStart(next, count) >= 1 && AfterBlock(next, count) >= 1
    ensures BlockStart(next, count) + count == AfterBlock(next, count) <==> count < U64_MAX
    ensures Restarts(next, count) <==> count > 0 && next + count > U64_MAX
  {}

  /** Within a reserved block neither the wrap nor the clamp of a frame's number
      ever fires: frame `i` has number `i` of the block. */
  lemma FramesNumberedByBlock(next: u64, count: u64, i: nat)
    requires next >= 1 && count < U64_MAX && i < count
    ensures SequenceForFrame(BlockStart(next, count), i) == BlockStart(next, count) + i
  {
    BlocksAreExact(next, count);
  }

  ghost predicate DistinctNumbers(first: u64, n: nat) {
    forall i, j :: 0 <= i < j < n ==> SequenceForFrame(first, i) != SequenceForFrame(first, j)
  }

  /** From an arbitrary start the numbers of a command's frames are distinct
      exactly when they do not run past the wrap: there the number 1 stands for
      both zero and one. */
  lemma DistinctExactly(first: u64, n: nat)
    requires n <= MOST_FRAMES
    ensures DistinctNumbers(first, n) <==> n <= 1 || 1 <= first <= 0x1_0000_0000_0000_0001 - n
  {
    if n >= 2 {
      if first == 0 {
        assert SequenceForFrame(first, 0) == SequenceForFrame(first, 1);
      } else if first > 0x1_0000_0000_0000_0001 - n {
        var k := 0x1_0000_0000_0000_0000 - first;
        assert SequenceForFrame(first, k) == SequenceForFrame(first, k + 1) == 1;
      }
    }
  }

  // ---------- runs of reservations ----------

  /** One draw of numbers: a status query takes one, a command a block. */
  datatype Draw = Single | Block(count: u64)

  predicate Small(draws: seq<Draw>) {
    forall d :: d in draws && d.Block? ==> 1 <= d.count <= MOST_FRAMES
  }

  function Count(d: Draw): u64 {
    match d case Single => 1 case Block(count) => count
  }

  /** The numbers a draw takes, and the counter after it. */
  function Taken(next: u64, d: Draw): (seq<u64>, u64) {
    match d
    case Single => ([next], WrappingNext(next))
    case Block(count) =>
      (seq(count, i requires 0 <= i < count => SequenceForFrame(BlockStart(next, count), i)), AfterBlock(next, count))
  }

  function AllTaken(next: u64, draws: seq<Draw>): (seq<u64>, u64) {
    if draws == [] then ([], next)
    else
      var (before, n) := AllTaken(next, draws[..|draws| - 1]);
      var (last, m) := Taken(n, draws[|draws| - 1]);
      (before + last, m)
  }

  function Total(draws: seq<Draw>): nat {
    if draws == [] then 0 else Total(draws[..|draws| - 1]) + Count(draws[|draws| - 1])
  }

  function From(first: nat, n: nat): seq<nat> {
    seq(n, i requires 0 <= i < n => first + i)
  }

  /** The counter stays at least 1 over every run. */
  lemma {:induction false} CounterStaysPositive(next: u64, draws: seq<Draw>)
    requires next >= 1 && Small(draws)
    ensures AllTaken(next, draws).1 >= 1
  {
    if draws != [] {
      assert draws[|draws| - 1] in draws;
      CounterStaysPositive(next, draws[..|draws| - 1]);
    }
  }

  lemma TakenBelowTop(next: u64, d: Draw)
    requires next >= 1 && (d.Block? ==> 1 <= d.count <= MOST_FRAMES) && next + Count(d) <= U64_MAX
    ensures Taken(next, d) == (From(next, Count(d)), next + Count(d))
  {
    if d.Block? {
      forall i | 0 <= i < d.count ensures Taken(next, d).0[i] == next + i {
        FramesNumberedByBlock(next, d.count, i);
      }
    }
    assert Taken(next, d).0 == From(next, Count(d));
  }

  /** Until the counter has to start over, the numbers of a run of draws are
      consecutive from the counter on: no number is ever used twice. */
  lemma {:induction false} ConsecutiveUntilRestart(next: u64, draws: seq<Draw>)
    requires next >= 1 && Small(draws) && next + Total(draws) <= U64_MAX
    ensures AllTaken(next, draws) == (From(next, Total(draws)), next + Total(draws))
  {
    hide Taken, From;
    if draws == [] {
      FromNone(next);
    } else {
      var rest, last := draws[..|draws| - 1], draws[|draws| - 1];
      assert last in draws;
      ConsecutiveUntilRestart(next, rest);
      TakenBelowTop(next + Total(rest), last);
      FromOn(next, Total(rest), Count(last));
    }
  }

  lemma FromNone(first: nat)
    ensures From(first, 0) == []
  {}

  lemma FromOn(first: nat, n: nat, m: nat)
    ensures From(first, n + m) == From(first, n) + From(first + n, m)
  {}
}
