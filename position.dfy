/** The position interpolation buffer of src/core/game/component/Position.ts.

    A `PositionBuffer` keeps a bounded, strictly time-ordered history of
    samples for one entity and answers "where was it at render time T".
    Timestamps are integer milliseconds; `Vec2.lerp`, which lives in
    `core/math`, is a parameter of the lookup. */
module Position {
  import opened Wrappers

  /** `Vec2` from `core/math`: a pair of coordinates. */
  datatype Vec2 = Vec2(x: real, y: real)

  /** `Position`: where an entity was at a given time. */
  datatype Sample = Sample(pos: Vec2, time: int)

  /** The shape of `Vec2.lerp(a, b, weight)`. */
  type Lerp = (Vec2, Vec2, real) -> Vec2

  /** Componentwise `start * (1 - weight) + end * weight`, the formula of
      `Math.lerp` in src/core/util/Common.ts; used only for the worked
      examples below. */
  function LinearLerp(a: Vec2, b: Vec2, weight: real): Vec2 {
    Vec2(a.x * (1.0 - weight) + b.x * weight, a.y * (1.0 - weight) + b.y * weight)
  }

  predicate Increasing(b: seq<Sample>) {
    forall i, j :: 0 <= i < j < |b| ==> b[i].time < b[j].time
  }

  /** How many samples the buffer holds at most: a `size` below 1 still
      keeps the newest sample, since `update` shifts before it pushes. */
  function Capacity(size: int): nat {
    if size < 1 then 1 else size
  }

  /** The buffer invariant: never empty, strictly increasing, bounded. */
  predicate WellFormed(b: seq<Sample>, size: int) {
    1 <= |b| <= Capacity(size) && Increasing(b)
  }

  /** The buffer after `update(s)`. */
  function Pushed(b: seq<Sample>, size: int, s: Sample): seq<Sample>
    requires b != []
  {
    if s.time <= b[|b| - 1].time then b
    else if |b| + 1 > size then b[1..] + [s]
    else b + [s]
  }

  /** The last `n` elements of `s` (all of them when there are fewer). */
  function Newest(s: seq<Sample>, n: nat): (r: seq<Sample>)
    ensures |r| == if |s| < n then |s| else n
  {
    if |s| <= n then s else s[|s| - n..]
  }

  /** A stale `update` (time not after the newest sample) changes nothing;
      any other one makes the new sample the newest. */
  lemma PushedStale(b: seq<Sample>, size: int, s: Sample)
    requires b != []
    ensures Pushed(b, size, s) == b <==> s.time <= b[|b| - 1].time
    ensures s.time > b[|b| - 1].time ==> Pushed(b, size, s)[|Pushed(b, size, s)| - 1] == s
  {
    if s.time > b[|b| - 1].time {
      var r := Pushed(b, size, s);
      assert r[|r| - 1] == s != b[|b| - 1];
    }
  }

  /** An accepted `update` keeps the newest `Capacity(size)` samples: when the
      buffer is full the oldest one is shifted out first. */
  lemma PushedKeepsNewest(b: seq<Sample>, size: int, s: Sample)
    requires WellFormed(b, size) && s.time > b[|b| - 1].time
    ensures Pushed(b, size, s) == Newest(b + [s], Capacity(size))
  {
  }

  /** `update` preserves the buffer invariant. */
  lemma PushedWellFormed(b: seq<Sample>, size: int, s: Sample)
    requires WellFormed(b, size)
    ensures WellFormed(Pushed(b, size, s), size)
    ensures Pushed(b, size, s)[|Pushed(b, size, s)| - 1].time >= s.time
  {
    var r := Pushed(b, size, s);
    if s.time > b[|b| - 1].time {
      forall i, j | 0 <= i < j < |r| ensures r[i].time < r[j].time {
        if j == |r| - 1 {
          assert r[i] in b;
        }
      }
    }
  }

  /** A run of `update` calls, in order. */
  function PushedAll(b: seq<Sample>, size: int, ss: seq<Sample>): seq<Sample>
    requires WellFormed(b, size)
    decreases |ss|
  {
    if ss == [] then b
    else
      PushedWellFormed(b, size, ss[0]);
      PushedAll(Pushed(b, size, ss[0]), size, ss[1..])
  }

  /** After strictly newer samples than the buffer holds have all been pushed,
      the buffer holds exactly the newest `Capacity(size)` samples seen, so it
      never grows past its capacity and the oldest ones are the ones evicted. */
  lemma {:induction false} PushedAllKeepsNewest(b: seq<Sample>, size: int, ss: seq<Sample>)
    requires WellFormed(b, size) && Increasing(b + ss)
    ensures PushedAll(b, size, ss) == Newest(b + ss, Capacity(size))
    decreases |ss|
  {
    if ss != [] {
      PushedOneOfMany(b, size, ss);
      PushedAllKeepsNewest(Pushed(b, size, ss[0]), size, ss[1..]);
    }
  }

  /** One step of `PushedAllKeepsNewest`: pushing the first pending sample
      keeps the newest samples of everything seen the same. */
  lemma PushedOneOfMany(b: seq<Sample>, size: int, ss: seq<Sample>)
    requires WellFormed(b, size) && Increasing(b + ss) && ss != []
    ensures WellFormed(Pushed(b, size, ss[0]), size)
    ensures Increasing(Pushed(b, size, ss[0]) + ss[1..])
    ensures Newest(Pushed(b, size, ss[0]) + ss[1..], Capacity(size)) == Newest(b + ss, Capacity(size))
  {
    var s, rest := ss[0], ss[1..];
    var w := b + ss;
    assert w == (b + [s]) + rest;
    assert w[|b| - 1] == b[|b| - 1] && w[|b|] == s;
    PushedWellFormed(b, size, s);
    var off := PushedIsSuffix(b, size, s);
    SuffixOfConcat(b + [s], rest, off);
    IncreasingSuffix(w, off);
    NewestOfSuffix(w, off, Capacity(size));
  }

  /** A fresh `update` leaves a suffix of the old buffer plus the new sample,
      dropping the oldest one only when the buffer was full. */
  lemma PushedIsSuffix(b: seq<Sample>, size: int, s: Sample) returns (off: nat)
    requires WellFormed(b, size) && s.time > b[|b| - 1].time
    ensures off <= 1 && Pushed(b, size, s) == (b + [s])[off..]
    ensures off == 1 ==> |b| >= Capacity(size)
  {
    if |b| + 1 > size {
      off := 1;
      assert b[1..] + [s] == (b + [s])[1..];
    } else {
      off := 0;
      assert b + [s] == (b + [s])[0..];
    }
  }

  lemma SuffixOfConcat(u: seq<Sample>, v: seq<Sample>, off: nat)
    requires off <= |u|
    ensures u[off..] + v == (u + v)[off..]
  {
  }

  lemma IncreasingSuffix(w: seq<Sample>, off: nat)
    requires off <= |w| && Increasing(w)
    ensures Increasing(w[off..])
  {
    forall i, j | 0 <= i < j < |w| - off ensures w[off..][i].time < w[off..][j].time {
      assert w[off..][i] == w[off + i] && w[off..][j] == w[off + j];
    }
  }

  lemma NewestOfSuffix(w: seq<Sample>, off: nat, n: nat)
    requires off <= |w| && (off == 0 || |w| - off >= n)
    ensures Newest(w[off..], n) == Newest(w, n)
  {
  }

  /** `Math.max(0, time)`. */
  function Clamp(time: int): int {
    if time < 0 then 0 else time
  }

  /** The `while` loop of `get`: `i` indexes `next`, and the loop steps while
      `next` exists and is older than `t`. It stops at the first sample from
      index `i` on that is not older than `t`. */
  function Advance(b: seq<Sample>, t: int, i: nat): (j: nat)
    requires 1 <= i <= |b|
    ensures i <= j <= |b|
    ensures forall k :: i <= k < j ==> b[k].time < t
    ensures j < |b| ==> b[j].time >= t
    decreases |b| - i
  {
    if i < |b| && b[i].time < t then Advance(b, t, i + 1) else i
  }

  /** The index of sample `A` once the loop of `get` is over. In an
      increasing buffer it is the number of samples at index 1 or later that
      are older than the clamped time. */
  function AIndex(b: seq<Sample>, time: int): (k: nat)
    requires b != [] && Increasing(b)
    ensures k < |b|
    ensures forall j :: 1 <= j <= k ==> b[j].time < Clamp(time)
    ensures forall j :: k < j < |b| ==> b[j].time >= Clamp(time)
  {
    Advance(b, Clamp(time), 1) - 1
  }

  /** What `get` reads: `A` alone, or `A`, `B` and the weight between them. */
  datatype Pick = Single(a: Sample) | Pair(a: Sample, b: Sample, weight: real)

  /** The sample choice of `get`. `B` is read at `buffer[i + 1]` after the loop
      has already moved `i` past `next`, so it is two slots after `A`. */
  function Choose(b: seq<Sample>, time: int): Pick
    requires b != [] && Increasing(b)
  {
    var t := Clamp(time);
    var i := Advance(b, t, 1);
    var a := b[i - 1];
    if i + 1 < |b| then Pair(a, b[i + 1], (t - a.time) as real / (b[i + 1].time - a.time) as real)
    else Single(a)
  }

  /** The value `get(time)` returns. */
  function Lookup(b: seq<Sample>, time: int, lerp: Lerp): Vec2
    requires b != [] && Increasing(b)
  {
    match Choose(b, time)
    case Single(a) => a.pos
    case Pair(a, c, weight) => lerp(a.pos, c.pos, weight)
  }

  /** `get` uses `A = buffer[k]` and, when it exists, `B = buffer[k + 2]`,
      never `buffer[k + 1]`; the weight is `(T - A.time) / (B.time - A.time)`. */
  lemma ChooseReadsTwoAhead(b: seq<Sample>, time: int)
    requires b != [] && Increasing(b)
    ensures var k := AIndex(b, time);
      Choose(b, time) ==
        if k + 2 < |b| then
          Pair(b[k], b[k + 2], (Clamp(time) - b[k].time) as real / (b[k + 2].time - b[k].time) as real)
        else Single(b[k])
  {
  }

  /** When `B` exists the weight is below 1 (B is newer than the render time)
      and not negative once `A` is not newer than the render time, which is
      always so when `A` is not the first sample. */
  lemma WeightBounds(b: seq<Sample>, time: int)
    requires b != [] && Increasing(b)
    ensures Choose(b, time).Pair? ==> Choose(b, time).weight < 1.0
    ensures Choose(b, time).Pair? && (AIndex(b, time) > 0 || b[0].time <= Clamp(time)) ==> 0.0 <= Choose(b, time).weight
  {
    var k := AIndex(b, time);
    var t := Clamp(time);
    if k + 2 < |b| {
      var num := (t - b[k].time) as real;
      var den := (b[k + 2].time - b[k].time) as real;
      assert b[k + 1].time >= t && b[k + 2].time > b[k + 1].time;
      assert num < den;
      DivBelowOne(num, den);
      if k > 0 || b[0].time <= t {
        assert num >= 0.0;
      }
    }
  }

  lemma DivBelowOne(num: real, den: real)
    requires 0.0 < den && num < den
    ensures num / den < 1.0
  {
  }

  /** With at most two samples `B` never exists, so `get` never interpolates. */
  lemma FewSamplesNeverInterpolate(b: seq<Sample>, time: int, lerp: Lerp)
    requires b != [] && Increasing(b) && |b| <= 2
    ensures Lookup(b, time, lerp) == b[AIndex(b, time)].pos
  {
  }

  /** Past the newest sample the lookup is clamped to it. */
  lemma AfterNewestIsNewest(b: seq<Sample>, time: int, lerp: Lerp)
    requires b != [] && Increasing(b) && time > b[|b| - 1].time
    ensures Lookup(b, time, lerp) == b[|b| - 1].pos
  {
    assert AIndex(b, time) == |b| - 1;
  }

  /** The buffer of the test "returns closest update": (0,0)@0, (10,10)@100
      and (20,20)@200. */
  function ExampleBuffer(): seq<Sample> {
    [Sample(Vec2(0.0, 0.0), 0), Sample(Vec2(10.0, 10.0), 100), Sample(Vec2(20.0, 20.0), 200)]
  }

  /** The constructor and two updates build that buffer. */
  lemma ExampleBufferBuilt()
    ensures Pushed(Pushed([ExampleBuffer()[0]], 5, ExampleBuffer()[1]), 5, ExampleBuffer()[2]) == ExampleBuffer()
  {
  }

  /** At or before the first sample, `get` gives the first position. */
  lemma ExampleLookupEarly()
    ensures Increasing(ExampleBuffer())
    ensures Lookup(ExampleBuffer(), 0, LinearLerp) == Vec2(0.0, 0.0)
    ensures Lookup(ExampleBuffer(), -100, LinearLerp) == Vec2(0.0, 0.0)
  {
    var b := ExampleBuffer();
    assert Advance(b, 0, 1) == 1;
    assert Choose(b, 0) == Pair(b[0], b[2], 0.0);
    assert Choose(b, -100) == Pair(b[0], b[2], 0.0);
  }

  /** Past the last sample, `get` gives the last position. */
  lemma ExampleLookupLate()
    ensures Increasing(ExampleBuffer())
    ensures Lookup(ExampleBuffer(), 400, LinearLerp) == Vec2(20.0, 20.0)
  {
    var b := ExampleBuffer();
    assert Advance(b, 400, 3) == 3;
    assert Advance(b, 400, 2) == 3;
    assert Advance(b, 400, 1) == 3;
  }

  /** At 50, `get` blends the first and the third sample with weight 0.25. */
  lemma ExampleLookupBetween()
    ensures Increasing(ExampleBuffer())
    ensures Lookup(ExampleBuffer(), 50, LinearLerp) == Vec2(5.0, 5.0)
  {
    var b := ExampleBuffer();
    assert Advance(b, 50, 1) == 1;
    assert Choose(b, 50) == Pair(b[0], b[2], 0.25);
  }

  /** The test "doesn't push old update": from one sample at 50, an update at
      25 is dropped and one at 75 is kept. */
  lemma StaleUpdateExample()
    ensures var b := [Sample(Vec2(0.0, 0.0), 50)];
      |Pushed(b, 5, Sample(Vec2(10.0, 10.0), 25))| == 1 &&
      |Pushed(Pushed(b, 5, Sample(Vec2(10.0, 10.0), 25)), 5, Sample(Vec2(10.0, 10.0), 75))| == 2
  {
  }

  /** The buffer object; `buffer` and `size` are its fields in the source. */
  class PositionBuffer {
    var buffer: seq<Sample>
    var size: int

    ghost predicate Valid()
      reads this
    {
      WellFormed(buffer, size)
    }

    /** The buffer starts with exactly the initial sample. */
    constructor (initial: Sample, size: int := 5)
      ensures Valid() && buffer == [initial] && this.size == size
    {
      this.buffer := [initial];
      this.size := size;
    }

    /** `update`: drop a stale sample, shift the oldest out when full, push. */
    method Update(pos: Sample)
      requires Valid()
      modifies this
      ensures Valid() && size == old(size)
      ensures buffer == Pushed(old(buffer), size, pos)
    {
      PushedWellFormed(buffer, size, pos);
      if pos.time <= buffer[|buffer| - 1].time {
        return;
      }
      if |buffer| + 1 > size {
        buffer := buffer[1..];
      }
      buffer := buffer + [pos];
    }

    /** `get`: clamp the time, walk `A` forward, read `B` and interpolate. */
    method Get(time: int, lerp: Lerp) returns (v: Vec2)
      requires Valid()
      ensures v == Lookup(buffer, time, lerp)
    {
      var t := if 0 > time then 0 else time;
      var i := 0;
      var a := buffer[i];
      i := i + 1;
      var next := if i < |buffer| then Some(buffer[i]) else None;
      while next.Some? && next.value.time < t
        invariant 1 <= i <= |buffer|
        invariant a == buffer[i - 1]
        invariant next == if i < |buffer| then Some(buffer[i]) else None
        invariant Advance(buffer, t, i) == Advance(buffer, t, 1)
        decreases |buffer| - i
      {
        a := next.value;
        i := i + 1;
        next := if i < |buffer| then Some(buffer[i]) else None;
      }
      var b := if i + 1 < |buffer| then Some(buffer[i + 1]) else None;
      if b.None? {
        return a.pos;
      }
      var weight := (t - a.time) as real / (b.value.time - a.time) as real;
      v := lerp(a.pos, b.value.pos, weight);
    }
  }
}
