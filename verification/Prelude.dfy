/** Small vocabulary shared by every part of the model. */
module Prelude {
  datatype Option<+T> = None | Some(value: T)

  /** A point on the monotonic clock, and a length of time, in nanoseconds. */
  type Instant = nat
  type Duration = nat

  /** An IPv4 source address as the kernel stores it: a 32-bit number. */
  type Ipv4Addr = a: nat | a < 0x1_0000_0000

  lemma OctetsRebuild(a: Ipv4Addr)
    ensures a == a / 0x100_0000 * 0x100_0000 + a / 0x1_0000 % 0x100 * 0x1_0000 + a / 0x100 % 0x100 * 0x100 + a % 0x100
  {
    var q1 := a / 0x100;
    var q2 := q1 / 0x100;
    var q3 := q2 / 0x100;
    assert a == q1 * 0x100 + a % 0x100 && q1 == q2 * 0x100 + q1 % 0x100 && q2 == q3 * 0x100 + q2 % 0x100;
    assert q2 == a / 0x1_0000 && q3 == a / 0x100_0000;
  }

  function Max(a: int, b: int): int {
    if a < b then b else a
  }

  /** `Instant::duration_since`: saturates at zero instead of failing. */
  function DurationSince(now: Instant, earlier: Instant): Duration {
    if now < earlier then 0 else now - earlier
  }

  /** Pushes the value, if there is one. */
  function Append<T>(xs: seq<T>, x: Option<T>): seq<T> {
    if x.Some? then xs + [x.value] else xs
  }

  // ---- The times of successive ticks ----

  function Times<T>(ticks: seq<T>, timeOf: T -> Instant): (times: seq<Instant>)
    ensures |times| == |ticks| && forall i :: 0 <= i < |ticks| ==> times[i] == timeOf(ticks[i])
  {
    seq(|ticks|, i requires 0 <= i < |ticks| => timeOf(ticks[i]))
  }

  ghost predicate Monotone(times: seq<Instant>) {
    forall i, j :: 0 <= i <= j < |times| ==> times[i] <= times[j]
  }

  /** Consecutive ticks are at least `d` apart. */
  ghost predicate Spaced(times: seq<Instant>, d: nat) {
    forall i, j :: 0 <= i < j < |times| && j == i + 1 ==> times[i] + d <= times[j]
  }

  lemma {:induction false} SpacedGap(times: seq<Instant>, d: nat, i: nat, j: nat)
    requires Spaced(times, d) && i <= j < |times|
    ensures times[i] + (j - i) * d <= times[j]
  {
    if i == j {
    } else {
      SpacedGap(times, d, i, j - 1);
      assert (j - i) * d == (j - 1 - i) * d + d;
    }
  }
}
