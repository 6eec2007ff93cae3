/** The strictly monotonic clock (common/clock.h, common/clock.cc). Times are microseconds. */
module Clocks {

  type Time = int

  /** SystemNowMicros: a system reading in nanoseconds, truncated to microseconds. */
  function Micros(nanos: int): Time {
    nanos / 1000
  }

  /** What `Now` hands out for a system reading when it last handed out `d`. */
  function Next(d: Time, reading: Time): Time {
    if reading <= d then d + 1 else reading
  }

  /** What `Now` hands out last, after the given system readings and starting from `d0`. */
  function Dispensed(d0: Time, readings: seq<Time>): Time {
    if readings == [] then d0
    else Next(Dispensed(d0, readings[..|readings| - 1]), readings[|readings| - 1])
  }

  class Clock {
    var lastSystemTime: Time
    var lastDispensedTime: Time
    ghost var start: Time
    ghost var readings: seq<Time>     // every reading since the clock was made

    ghost predicate Valid()
      reads this
    {
      lastDispensedTime == Dispensed(start, readings)
    }

    constructor (nanos: int)
      ensures Valid() && start == Micros(nanos) && readings == []
    {
      lastSystemTime := Micros(nanos);
      lastDispensedTime := Micros(nanos);
      start := Micros(nanos);
      readings := [];
    }

    method Now(nanos: int) returns (t: Time)
      requires Valid()
      modifies this
      ensures Valid() && start == old(start) && readings == old(readings) + [Micros(nanos)]
      ensures t == lastDispensedTime == Dispensed(start, readings)
      ensures lastSystemTime == Micros(nanos)
      ensures t > old(lastDispensedTime) && t >= Micros(nanos)
    {
      var now := Micros(nanos);
      if now <= lastDispensedTime {
        lastDispensedTime := lastDispensedTime + 1;
      } else {
        lastDispensedTime := now;
      }
      lastSystemTime := now;
      readings := readings + [now];
      assert readings[..|readings| - 1] == old(readings);
      t := lastDispensedTime;
    }
  }

  /**
   * One of the values the dispensed time is the greatest of: the start, or reading `j`, plus one
   * step per later call.
   */
  function Candidate(d0: Time, readings: seq<Time>, j: nat): Time
    requires j <= |readings|
  {
    if j == 0 then d0 + |readings| else readings[j - 1] + (|readings| - j)
  }

  /** Closed form: the n-th dispensed value is the greatest of d0 + n and s_j + (n - j). */
  lemma {:induction false} ClosedForm(d0: Time, readings: seq<Time>) returns (j: nat)
    ensures forall i :: 0 <= i <= |readings| ==> Candidate(d0, readings, i) <= Dispensed(d0, readings)
    ensures j <= |readings| && Dispensed(d0, readings) == Candidate(d0, readings, j)
  {
    if readings == [] {
      j := 0;
    } else {
      var n := |readings|;
      var front := readings[..n - 1];
      j := ClosedForm(d0, front);
      forall i | 0 <= i <= n ensures Candidate(d0, readings, i) <= Dispensed(d0, readings) {
        if i < n {
          assert Candidate(d0, readings, i) == Candidate(d0, front, i) + 1;
        }
      }
      if readings[n - 1] > Dispensed(d0, front) {
        j := n;
      }
    }
  }

  /** A strictly increasing sequence above `d0` that never falls below the readings. */
  ghost predicate Admissible(d0: Time, readings: seq<Time>, e: seq<Time>) {
    && |e| == |readings|
    && (forall i :: 0 <= i < |e| ==> e[i] >= readings[i] && e[i] > d0)
    && (forall i, k :: 0 <= i < k < |e| ==> e[i] < e[k])
  }

  /** Every value handed out so far, in order. */
  function AllDispensed(d0: Time, readings: seq<Time>): (e: seq<Time>)
    ensures |e| == |readings|
    ensures readings != [] ==> e[|e| - 1] == Dispensed(d0, readings)
  {
    if readings == [] then [] else AllDispensed(d0, readings[..|readings| - 1]) + [Dispensed(d0, readings)]
  }

  lemma AdmissibleSnoc(d0: Time, readings: seq<Time>, e: seq<Time>, r: Time, d: Time)
    requires Admissible(d0, readings, e) && d >= r && d > d0 && (e == [] || d > e[|e| - 1])
    ensures Admissible(d0, readings + [r], e + [d])
  {
    forall i | 0 <= i < |e| ensures e[i] < d {
      assert e[i] <= e[|e| - 1];
    }
  }

  lemma AdmissibleFront(d0: Time, readings: seq<Time>, e: seq<Time>)
    requires Admissible(d0, readings, e) && readings != []
    ensures Admissible(d0, readings[..|readings| - 1], e[..|e| - 1])
  {
  }

  lemma {:induction false} DispensedIsAdmissible(d0: Time, readings: seq<Time>)
    ensures Admissible(d0, readings, AllDispensed(d0, readings))
    ensures readings != [] ==> Dispensed(d0, readings) > d0
  {
    if readings != [] {
      var n := |readings| - 1;
      DispensedIsAdmissible(d0, readings[..n]);
      assert Dispensed(d0, readings[..n]) >= d0;
      AdmissibleSnoc(d0, readings[..n], AllDispensed(d0, readings[..n]), readings[n], Dispensed(d0, readings));
      assert readings == readings[..n] + [readings[n]];
    }
  }

  /** The dispensed times are admissible, and pointwise below every other admissible sequence. */
  lemma {:induction false} LeastAdmissible(d0: Time, readings: seq<Time>, e: seq<Time>)
    requires Admissible(d0, readings, e)
    ensures Admissible(d0, readings, AllDispensed(d0, readings))
    ensures forall i :: 0 <= i < |e| ==> AllDispensed(d0, readings)[i] <= e[i]
  {
    DispensedIsAdmissible(d0, readings);
    if readings != [] {
      var n := |readings| - 1;
      AdmissibleFront(d0, readings, e);
      LeastAdmissible(d0, readings[..n], e[..n]);
      assert n > 0 ==> e[..n][n - 1] < e[n];
    }
  }

  /** The lead does not accumulate: once the system clock has caught up, it is handed out as it is. */
  lemma NoDrift(d0: Time, readings: seq<Time>)
    requires readings != []
    requires forall i :: 0 <= i < |readings| ==> Candidate(d0, readings, i) <= readings[|readings| - 1]
    ensures Dispensed(d0, readings) == readings[|readings| - 1]
  {
    var j := ClosedForm(d0, readings);
    assert Candidate(d0, readings, |readings|) == readings[|readings| - 1];
  }
}
