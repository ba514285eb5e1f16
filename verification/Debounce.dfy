/** The input debouncer of `board_io.c`: eight channels packed in two masks and
    eight saturating counters, refined to one small machine per channel, and that
    machine to the value of the last run of three equal samples. */
module Debounce {
  import opened BitMask

  const CHANNELS: nat := 8
  const SAMPLES: nat := 3

  /** What the packed state says about one channel. */
  datatype Channel = Channel(candidate: bool, count: nat, output: bool)

  function Step(ch: Channel, sample: bool): Channel {
    var next := if sample == ch.candidate
                then ch.(count := if ch.count < SAMPLES then ch.count + 1 else ch.count)
                else ch.(candidate := sample, count := 1);
    if next.count >= SAMPLES then next.(output := sample) else next
  }

  function After(history: seq<bool>): Channel {
    if history == [] then Channel(false, 0, false)
    else Step(After(history[..|history| - 1]), history[|history| - 1])
  }

  /** The input task's state. */
  class Debouncer {
    var candidateMask: bv8
    var stableCounts: array<nat>
    var inputMask: bv8

    constructor ()
      ensures Valid() && fresh(stableCounts)
      ensures forall i: nat | i < CHANNELS :: View(i) == After([])
    {
      candidateMask, inputMask := 0, 0;
      stableCounts := new nat[CHANNELS](_ => 0);
      new;
      forall i: nat | i < CHANNELS ensures View(i) == After([]) {
        NoBits(i);
      }
    }

    ghost predicate Valid()
      reads this
    {
      stableCounts.Length == CHANNELS
    }

    ghost function View(i: nat): Channel
      requires Valid() && i < CHANNELS
      reads this, stableCounts
    {
      Channel(Bit(candidateMask, i), stableCounts[i], Bit(inputMask, i))
    }

    /** One pass over the channels; a channel is active when its level differs from its invert bit. */
    method Sample(rawHigh: seq<bool>, invert: bv8)
      requires Valid() && |rawHigh| == CHANNELS
      modifies this`candidateMask, this`inputMask, stableCounts
      ensures Valid()
      ensures forall i: nat | i < CHANNELS :: View(i) == Step(old(View(i)), rawHigh[i] != Bit(invert, i))
    {
      var sampleMask: bv8 := 0;
      forall j: nat | j < CHANNELS ensures !Bit(sampleMask, j) { NoBits(j); }
      for i := 0 to CHANNELS
        invariant forall j: nat | i <= j < CHANNELS :: !Bit(sampleMask, j)
        invariant forall j: nat | j < i :: View(j) == Step(old(View(j)), rawHigh[j] != Bit(invert, j))
        invariant forall j: nat | i <= j < CHANNELS :: View(j) == old(View(j))
      {
        var active := if Bit(invert, i) then !rawHigh[i] else rawHigh[i];
        if active {
          SetBitIsBit(sampleMask, i);
          sampleMask := SetBit(sampleMask, i);
        }
        Settle(i, Bit(sampleMask, i));
      }
    }

    /** The debouncing of one channel within the pass. */
    method Settle(i: nat, sample: bool)
      requires Valid() && i < CHANNELS
      modifies this`candidateMask, this`inputMask, stableCounts
      ensures Valid() && View(i) == Step(old(View(i)), sample)
      ensures forall j: nat | j < CHANNELS && j != i :: View(j) == old(View(j))
    {
      if sample == Bit(candidateMask, i) {
        if stableCounts[i] < SAMPLES {
          stableCounts[i] := stableCounts[i] + 1;
        }
      } else {
        FlipBitIsBit(candidateMask, i);
        candidateMask := FlipBit(candidateMask, i);
        stableCounts[i] := 1;
      }
      if stableCounts[i] >= SAMPLES {
        SetBitIsBit(inputMask, i);
        ClearBitIsBit(inputMask, i);
        inputMask := if sample then SetBit(inputMask, i) else ClearBit(inputMask, i);
      }
    }
  }

  function Column(samples: seq<seq<bool>>, invert: bv8, i: nat): seq<bool>
    requires i < CHANNELS
    requires forall s | s in samples :: |s| == CHANNELS
  {
    seq(|samples|, k requires 0 <= k < |samples| => samples[k][i] != Bit(invert, i))
  }

  /** One more pass is one more sample in every column. */
  lemma ColumnStep(samples: seq<seq<bool>>, invert: bv8, n: nat, i: nat)
    requires n < |samples| && i < CHANNELS && forall s | s in samples :: |s| == CHANNELS
    ensures After(Column(samples[..n + 1], invert, i)) ==
      Step(After(Column(samples[..n], invert, i)), samples[n][i] != Bit(invert, i))
  {
    var h := Column(samples[..n + 1], invert, i);
    assert h[..n] == Column(samples[..n], invert, i);
  }

  /** The task's loop over any sample history: every input bit is its channel's settled value. */
  method Run(samples: seq<seq<bool>>, invert: bv8) returns (d: Debouncer)
    requires forall s | s in samples :: |s| == CHANNELS
    ensures d.Valid()
    ensures forall i: nat | i < CHANNELS :: Bit(d.inputMask, i) == Settled(Column(samples, invert, i))
  {
    d := new Debouncer();
    for n := 0 to |samples|
      invariant d.Valid() && fresh(d) && fresh(d.stableCounts)
      invariant forall i: nat | i < CHANNELS :: d.View(i) == After(Column(samples[..n], invert, i))
    {
      d.Sample(samples[n], invert);
      forall i: nat | i < CHANNELS
        ensures d.View(i) == After(Column(samples[..n + 1], invert, i))
      {
        ColumnStep(samples, invert, n, i);
      }
    }
    assert samples[..|samples|] == samples;
    forall i: nat | i < CHANNELS
      ensures Bit(d.inputMask, i) == Settled(Column(samples, invert, i))
    {
      OutputIsSettled(Column(samples, invert, i));
      assert Bit(d.inputMask, i) == d.View(i).output;
    }
  }

  // ----- the declarative view -------------------------------------------------

  /** Samples `end - 3 .. end` are equal. */
  predicate Stable(history: seq<bool>, end: nat) {
    SAMPLES <= end <= |history| &&
    history[end - 1] == history[end - 2] == history[end - 3]
  }

  /** The value of the most recent three equal samples; off if there never were any. */
  ghost predicate Settled(history: seq<bool>) {
    exists end: nat :: LastStable(history, end) && history[end - 1]
  }

  ghost predicate LastStable(history: seq<bool>, end: nat) {
    Stable(history, end) && forall later: nat :: end < later ==> !Stable(history, later)
  }

  /** The length of the final run of equal samples, up to three. */
  function FinalRun(history: seq<bool>): nat {
    var n := |history|;
    if n < 2 then n
    else if history[n - 1] != history[n - 2] then 1
    else if n < 3 || history[n - 2] != history[n - 3] then 2 else 3
  }

  lemma {:induction false} CountIsFinalRun(history: seq<bool>)
    ensures After(history).count == FinalRun(history)
    ensures history != [] ==> After(history).candidate == history[|history| - 1]
    decreases |history|
  {
    if history == [] {
    } else {
      CountIsFinalRun(history[..|history| - 1]);
    }
  }

  /** A new sample decides the settled value exactly when it completes a stable run. */
  lemma SettledStep(history: seq<bool>)
    requires history != []
    ensures var n := |history|;
      Settled(history) == if Stable(history, n) then history[n - 1] else Settled(history[..n - 1])
  {
    var n := |history|;
    var before := history[..n - 1];
    assert forall end: nat | end < n :: Stable(history, end) == Stable(before, end);
    if Stable(history, n) {
      assert LastStable(history, n);
      assert forall end: nat :: LastStable(history, end) ==> end == n;
    } else {
      assert forall end: nat :: LastStable(history, end) <==> LastStable(before, end);
    }
  }

  /** Candidate and counter together compute the declarative value. */
  lemma {:induction false} OutputIsSettled(history: seq<bool>)
    ensures After(history).output == Settled(history)
    decreases |history|
  {
    if history == [] {
      assert forall end: nat :: !Stable(history, end);
    } else {
      var before := history[..|history| - 1];
      OutputIsSettled(before);
      SettledStep(history);
      CountIsFinalRun(before);
      CountIsFinalRun(history);
    }
  }
}
