/** The "Hi" wave detector used by the main application. Its only memory is
    one bounded FIFO of wrist x positions per hand slot (slot = position in
    the frame's hand list); the buffers are never cleared. */
module WaveDetector {
  import opened Landmarks

  /** `deque(maxlen=5)`. */
  const BufferLen := 5

  type Buffer = b: seq<int> | |b| <= BufferLen

  /** The two slot buffers; hands at list index 2 or more are ignored. */
  type Buffers = s: seq<Buffer> | |s| == 2 witness var e: Buffer := []; [e, e]

  const EmptyBuffers: Buffers := var e: Buffer := []; [e, e]

  /** `append` on a full deque drops the oldest sample. */
  function Push(b: Buffer, x: int): (r: Buffer)
    ensures |r| == if |b| < BufferLen then |b| + 1 else BufferLen
    ensures r[|r| - 1] == x
  {
    if |b| < BufferLen then b + [x] else b[1..] + [x]
  }

  function PushAll(b: Buffer, xs: seq<int>): (r: Buffer)
    decreases |xs|
  {
    if |xs| == 0 then b else PushAll(Push(b, xs[0]), xs[1..])
  }

  /** `u` is a suffix of `v`. */
  predicate SuffixOf(u: seq<int>, v: seq<int>)
  {
    |u| <= |v| && u == v[|v| - |u|..]
  }

  lemma PushIsSuffix(b: Buffer, x: int)
    ensures SuffixOf(Push(b, x), b + [x])
  {
  }

  lemma SuffixAppend(u: seq<int>, v: seq<int>, ys: seq<int>)
    requires SuffixOf(u, v)
    ensures SuffixOf(u + ys, v + ys)
  {
    var w := v + ys;
    forall k | 0 <= k < |u + ys|
      ensures (u + ys)[k] == w[|w| - |u + ys|..][k]
    {
      if k < |u| {
        assert (u + ys)[k] == u[k] == v[|v| - |u| + k];
      } else {
        assert (u + ys)[k] == ys[k - |u|];
      }
    }
  }

  lemma SuffixTrans(r: seq<int>, u: seq<int>, v: seq<int>)
    requires SuffixOf(r, u) && SuffixOf(u, v)
    ensures SuffixOf(r, v)
  {
    forall k | 0 <= k < |r|
      ensures r[k] == v[|v| - |r|..][k]
    {
      assert r[k] == u[|u| - |r| + k];
    }
  }

  lemma {:induction false} PushAllLength(b: Buffer, xs: seq<int>)
    ensures |PushAll(b, xs)| == if |b| + |xs| < BufferLen then |b| + |xs| else BufferLen
    decreases |xs|
  {
    if |xs| > 0 {
      PushAllLength(Push(b, xs[0]), xs[1..]);
    }
  }

  lemma SplitFirst(b: seq<int>, xs: seq<int>)
    requires |xs| > 0
    ensures b + [xs[0]] + xs[1..] == b + xs
  {
    assert [xs[0]] + xs[1..] == xs;
  }

  /** The buffer always holds the last (up to) five samples in arrival
      order. */
  lemma {:induction false} PushAllKeepsLastFive(b: Buffer, xs: seq<int>)
    ensures |PushAll(b, xs)| == if |b| + |xs| < BufferLen then |b| + |xs| else BufferLen
    ensures SuffixOf(PushAll(b, xs), b + xs)
    decreases |xs|
  {
    PushAllLength(b, xs);
    if |xs| > 0 {
      var b' := Push(b, xs[0]);
      var r := PushAll(b', xs[1..]);
      PushAllKeepsLastFive(b', xs[1..]);
      PushIsSuffix(b, xs[0]);
      SuffixAppend(b', b + [xs[0]], xs[1..]);
      SplitFirst(b, xs);
      SuffixTrans(r, b' + xs[1..], b + xs);
    }
  }

  function Max(s: seq<int>): (m: int)
    requires |s| > 0
    ensures m in s && forall i :: 0 <= i < |s| ==> s[i] <= m
  {
    if |s| == 1 then s[0]
    else
      var m := Max(s[1..]);
      assert forall i :: 1 <= i < |s| ==> s[i] == s[1..][i - 1];
      if s[0] > m then s[0] else m
  }

  function Min(s: seq<int>): (m: int)
    requires |s| > 0
    ensures m in s && forall i :: 0 <= i < |s| ==> m <= s[i]
  {
    if |s| == 1 then s[0]
    else
      var m := Min(s[1..]);
      assert forall i :: 1 <= i < |s| ==> s[i] == s[1..][i - 1];
      if s[0] < m then s[0] else m
  }

  function Abs(x: int): nat { if x < 0 then -x else x }

  /** `(max - min) / (|wrist.y - middle_tip.y| + 1) > 0.05` on a full buffer;
      the height is at least 1, so the test is `20 * spread > height`. */
  predicate Waving(b: Buffer, h: Hand)
  {
    |b| == BufferLen && 20 * (Max(b) - Min(b)) > Abs(h[0].y - h[12].y) + 1
  }

  /** Slot `b` (before this frame's sample) sees hand `t` wave with an open
      palm. */
  predicate Hit(b: Buffer, t: TrackedHand)
  {
    OpenPalm(t.marks, t.side) && Waving(Push(b, t.marks[0].x), t.marks)
  }

  /** The loop over the frame's hands from slot `idx` on, returning at the
      first open waving palm. */
  function ScanFrom(bufs: Buffers, hands: seq<TrackedHand>, idx: nat): (r: (bool, Buffers))
    requires idx <= 2
    decreases 2 - idx
  {
    if idx == 2 || idx >= |hands| then (false, bufs)
    else
      var t := hands[idx];
      var b := Push(bufs[idx], t.marks[0].x);
      var bufs' := bufs[idx := b];
      if OpenPalm(t.marks, t.side) && Waving(b, t.marks) then (true, bufs')
      else ScanFrom(bufs', hands, idx + 1)
  }

  /** `detect_wave`: each processed hand pushes its wrist x into its slot;
      the call answers whether some processed hand waved with an open palm,
      and stops at the first one, so later slots keep their buffers. */
  function DetectWave(bufs: Buffers, hands: seq<TrackedHand>): (r: (bool, Buffers))
    ensures |hands| == 0 ==> r == (false, bufs)
    ensures r.0 <==> (|hands| > 0 && Hit(bufs[0], hands[0]))
                     || (|hands| > 1 && Hit(bufs[1], hands[1]))
    ensures r.1[0] == if |hands| > 0 then Push(bufs[0], hands[0].marks[0].x) else bufs[0]
    ensures r.1[1] == if |hands| > 1 && !Hit(bufs[0], hands[0])
                      then Push(bufs[1], hands[1].marks[0].x) else bufs[1]
    ensures r.0 ==> |r.1[0]| == BufferLen || |r.1[1]| == BufferLen
  {
    ScanFrom(bufs, hands, 0)
  }

  /** Hand `i` of the frame has all five fingers out (thumb tested on x by
      handedness, the others on y) and its slot, after this frame's sample,
      spreads more than a twentieth of the hand height. */
  predicate WavesOpenPalm(bufs: Buffers, hands: seq<TrackedHand>, i: nat)
    requires i < 2 && i < |hands|
  {
    && ThumbOut(hands[i].marks, hands[i].side)
    && (forall f :: 1 <= f <= 4 ==> FingerUp(hands[i].marks, f))
    && Waving(Push(bufs[i], hands[i].marks[0].x), hands[i].marks)
  }

  /** The call answers true exactly when one of the first two hands waves an
      open palm. */
  lemma DetectWaveMeaning(bufs: Buffers, hands: seq<TrackedHand>)
    ensures DetectWave(bufs, hands).0 <==>
      exists i :: 0 <= i < 2 && i < |hands| && WavesOpenPalm(bufs, hands, i)
  {
    forall i | 0 <= i < 2 && i < |hands|
      ensures WavesOpenPalm(bufs, hands, i) <==> Hit(bufs[i], hands[i])
    {
      OpenPalmIff(hands[i].marks, hands[i].side);
      assert (forall f :: 1 <= f <= 4 ==> FingerUp(hands[i].marks, f)) <==>
        FingerUp(hands[i].marks, 1) && FingerUp(hands[i].marks, 2)
        && FingerUp(hands[i].marks, 3) && FingerUp(hands[i].marks, 4);
    }
  }

  /** Successive calls, one per frame, threading the buffers through. */
  function Run(bufs: Buffers, frames: seq<seq<TrackedHand>>): (r: (seq<bool>, Buffers))
    ensures |r.0| == |frames|
    decreases |frames|
  {
    if |frames| == 0 then ([], bufs)
    else
      var (w, bufs') := DetectWave(bufs, frames[0]);
      var (ws, final) := Run(bufs', frames[1..]);
      ([w] + ws, final)
  }

  /** Answer `i` of a run is the detector's answer on frame `i`, called
      with the buffers the first `i` frames left behind. */
  lemma {:induction false} RunIsSuccessiveCalls(bufs: Buffers, frames: seq<seq<TrackedHand>>, i: nat)
    requires i < |frames|
    ensures Run(bufs, frames).0[i] == DetectWave(Run(bufs, frames[..i]).1, frames[i]).0
    decreases i
  {
    var (w, bufs') := DetectWave(bufs, frames[0]);
    assert Run(bufs, frames).0 == [w] + Run(bufs', frames[1..]).0;
    if i == 0 {
      assert frames[..0] == [];
    } else {
      RunIsSuccessiveCalls(bufs', frames[1..], i - 1);
      assert frames[..i][0] == frames[0] && frames[..i][1..] == frames[1..][..i - 1];
      assert Run(bufs, frames[..i]).1 == Run(bufs', frames[1..][..i - 1]).1;
    }
  }

  /** No wave can be reported before a slot has been fed five samples: from
      empty buffers the first four calls all answer false. */
  lemma {:induction false} NoWaveWhileFilling(bufs: Buffers, frames: seq<seq<TrackedHand>>)
    requires |bufs[0]| + |frames| < BufferLen && |bufs[1]| + |frames| < BufferLen
    ensures forall j :: 0 <= j < |frames| ==> !Run(bufs, frames).0[j]
    decreases |frames|
  {
    if |frames| > 0 {
      var (w, bufs') := DetectWave(bufs, frames[0]);
      assert !w;
      NoWaveWhileFilling(bufs', frames[1..]);
      var ws := Run(bufs', frames[1..]).0;
      assert Run(bufs, frames).0 == [w] + ws;
    }
  }

  lemma FirstFourCallsNeverWave(frames: seq<seq<TrackedHand>>)
    requires |frames| <= 4
    ensures forall j :: 0 <= j < |frames| ==> !Run(EmptyBuffers, frames).0[j]
  {
    NoWaveWhileFilling(EmptyBuffers, frames);
  }
}
