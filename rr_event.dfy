/**
 * `sign` and the `RREventParser` of zephyr/rr_event.py.  The parser counts
 * the RR values it has seen and yields `(count / samplerate, |value|)`
 * whenever the sign of a value differs from the sign of the value before
 * it (0 before the first value).
 *
 * `handle_values` is a generator; the model consumes it completely and
 * returns the yielded tuples as a sequence.
 */
module RrEvent {
  import opened Packets

  /** `sign(value)`, i.e. Python's `cmp(value, 0)`. */
  function Sign(v: real): (r: int)
    ensures r == -1 || r == 0 || r == 1
    ensures r == 1 <==> v > 0.0
    ensures r == -1 <==> v < 0.0
  {
    if v > 0.0 then 1 else if v < 0.0 then -1 else 0
  }

  function Abs(v: real): (r: real)
    ensures r >= 0.0 && (r == v || r == -v)
  {
    if v < 0.0 then -v else v
  }

  /** The sign recorded before value `i`: the initial one, or that of value `i - 1`. */
  function SignBefore(latest: int, values: seq<real>, i: nat): int
    requires i <= |values|
  {
    if i == 0 then latest else Sign(values[i - 1])
  }

  /** Whether value `i` differs in sign from its predecessor and so yields an event. */
  predicate ChangesSign(latest: int, values: seq<real>, i: nat)
    requires i < |values|
  {
    Sign(values[i]) != SignBefore(latest, values, i)
  }

  /** What value `i` yields when `count` values had been received before the call. */
  function EventAt(samplerate: real, count: nat, latest: int, values: seq<real>, i: nat): seq<TimedValue>
    requires samplerate != 0.0 && i < |values|
  {
    if ChangesSign(latest, values, i)
    then [TimedValue((count + i) as real / samplerate, Abs(values[i]))]
    else []
  }

  /** The events yielded by the first `k` values. */
  function EventsUpTo(samplerate: real, count: nat, latest: int, values: seq<real>, k: nat): seq<TimedValue>
    requires samplerate != 0.0 && k <= |values|
  {
    if k == 0 then []
    else EventsUpTo(samplerate, count, latest, values, k - 1) + EventAt(samplerate, count, latest, values, k - 1)
  }

  /** Everything `handle_values(values)` yields from the given parser state. */
  function Events(samplerate: real, count: nat, latest: int, values: seq<real>): seq<TimedValue>
    requires samplerate != 0.0
  {
    EventsUpTo(samplerate, count, latest, values, |values|)
  }

  /** An event is yielded for a value exactly when its sign changes. */
  lemma {:induction false} EventsUpToMembership(samplerate: real, count: nat, latest: int, values: seq<real>, k: nat, e: TimedValue)
    requires samplerate != 0.0 && k <= |values|
    ensures e in EventsUpTo(samplerate, count, latest, values, k) <==>
      exists i :: 0 <= i < k && ChangesSign(latest, values, i) &&
        e == TimedValue((count + i) as real / samplerate, Abs(values[i]))
  {
    if k > 0 {
      EventsUpToMembership(samplerate, count, latest, values, k - 1, e);
    }
  }

  lemma EventsMembership(samplerate: real, count: nat, latest: int, values: seq<real>, e: TimedValue)
    requires samplerate != 0.0
    ensures e in Events(samplerate, count, latest, values) <==>
      exists i :: 0 <= i < |values| && ChangesSign(latest, values, i) &&
        e == TimedValue((count + i) as real / samplerate, Abs(values[i]))
  {
    EventsUpToMembership(samplerate, count, latest, values, |values|, e);
  }

  lemma DivStrictlyMonotone(a: real, b: real, d: real)
    requires a < b && d > 0.0
    ensures a / d < b / d
  {
    assert b / d - a / d == (b - a) / d;
  }

  /**
   * Event times strictly increase and lie in `[lo, hi)`; every interval is
   * non-negative.
   */
  ghost predicate OrderedWithin(es: seq<TimedValue>, lo: real, hi: real)
  {
    && (forall i, j :: 0 <= i < j < |es| ==> es[i].timestamp < es[j].timestamp)
    && (forall i :: 0 <= i < |es| ==> lo <= es[i].timestamp < hi)
    && (forall i :: 0 <= i < |es| ==> es[i].value >= 0.0)
  }

  lemma {:induction false} EventsUpToOrdered(samplerate: real, count: nat, latest: int, values: seq<real>, k: nat)
    requires samplerate > 0.0 && k <= |values|
    ensures OrderedWithin(EventsUpTo(samplerate, count, latest, values, k),
                          count as real / samplerate, (count + k) as real / samplerate)
  {
    if k > 0 {
      EventsUpToOrdered(samplerate, count, latest, values, k - 1);
      var lo := count as real / samplerate;
      var mid := (count + k - 1) as real / samplerate;
      var hi := (count + k) as real / samplerate;
      DivStrictlyMonotone((count + k - 1) as real, (count + k) as real, samplerate);
      if k > 1 {
        DivStrictlyMonotone(count as real, (count + k - 1) as real, samplerate);
      }
      assert lo <= mid < hi;
      var prev := EventsUpTo(samplerate, count, latest, values, k - 1);
      var es := EventsUpTo(samplerate, count, latest, values, k);
      assert es == prev + EventAt(samplerate, count, latest, values, k - 1);
      forall i | 0 <= i < |prev|
        ensures es[i] == prev[i] && es[i].timestamp < mid
      {
      }
    }
  }

  /**
   * With a positive samplerate the yielded times strictly increase and lie
   * in `[count / samplerate, (count + |values|) / samplerate)`, so the times
   * of successive calls strictly increase too.  Every interval is >= 0.
   */
  lemma EventsOrdered(samplerate: real, count: nat, latest: int, values: seq<real>)
    requires samplerate > 0.0
    ensures OrderedWithin(Events(samplerate, count, latest, values),
                          count as real / samplerate, (count + |values|) as real / samplerate)
  {
    EventsUpToOrdered(samplerate, count, latest, values, |values|);
  }

  /** The events of the first `k` values do not depend on the values after them. */
  lemma {:induction false} EventsUpToPrefix(samplerate: real, count: nat, latest: int, a: seq<real>, b: seq<real>, k: nat)
    requires samplerate != 0.0 && k <= |a|
    ensures EventsUpTo(samplerate, count, latest, a + b, k) == EventsUpTo(samplerate, count, latest, a, k)
  {
    if k > 0 {
      EventsUpToPrefix(samplerate, count, latest, a, b, k - 1);
    }
  }

  /** Value `|a| + j` of `a + b` yields what value `j` of `b` yields when fed after `a`. */
  lemma EventAtShift(samplerate: real, count: nat, latest: int, a: seq<real>, b: seq<real>, j: nat)
    requires samplerate != 0.0 && j < |b|
    ensures EventAt(samplerate, count, latest, a + b, |a| + j) ==
      EventAt(samplerate, count + |a|, SignBefore(latest, a, |a|), b, j)
  {
    var i := |a| + j;
    assert (a + b)[i] == b[j];
    assert SignBefore(latest, a + b, i) == SignBefore(SignBefore(latest, a, |a|), b, j);
    assert (count + i) as real == (count + |a| + j) as real;
  }

  /** The events of `b`'s first `k` values after `a`, as if `b` were fed alone after `a`. */
  lemma {:induction false} EventsUpToShift(samplerate: real, count: nat, latest: int, a: seq<real>, b: seq<real>, k: nat)
    requires samplerate != 0.0 && k <= |b|
    ensures EventsUpTo(samplerate, count, latest, a + b, |a| + k) ==
      EventsUpTo(samplerate, count, latest, a, |a|) +
      EventsUpTo(samplerate, count + |a|, SignBefore(latest, a, |a|), b, k)
  {
    if k == 0 {
      EventsUpToPrefix(samplerate, count, latest, a, b, |a|);
    } else {
      EventsUpToShift(samplerate, count, latest, a, b, k - 1);
      EventAtShift(samplerate, count, latest, a, b, k - 1);
      var front := EventsUpTo(samplerate, count, latest, a, |a|);
      var rest := EventsUpTo(samplerate, count + |a|, SignBefore(latest, a, |a|), b, k - 1);
      var e := EventAt(samplerate, count, latest, a + b, |a| + k - 1);
      assert EventsUpTo(samplerate, count, latest, a + b, |a| + k) == (front + rest) + e;
      assert (front + rest) + e == front + (rest + e);
    }
  }

  /** Feeding `a + b` in one call is feeding `a`, then `b`. */
  lemma EventsAppend(samplerate: real, count: nat, latest: int, a: seq<real>, b: seq<real>)
    requires samplerate != 0.0
    ensures Events(samplerate, count, latest, a + b) ==
      Events(samplerate, count, latest, a) + Events(samplerate, count + |a|, SignBefore(latest, a, |a|), b)
    ensures SignBefore(latest, a + b, |a + b|) == SignBefore(SignBefore(latest, a, |a|), b, |b|)
  {
    EventsUpToShift(samplerate, count, latest, a, b, |b|);
  }

  class RREventParser {
    const samplerate: real
    var receivedValueCount: nat
    var latestValueSign: int

    constructor (samplerate: real)
      ensures this.samplerate == samplerate
      ensures receivedValueCount == 0 && latestValueSign == 0
    {
      this.samplerate := samplerate;
      receivedValueCount := 0;
      latestValueSign := 0;
    }

    /** `handle_values(values)`, consumed to the end. */
    method HandleValues(values: seq<real>) returns (events: seq<TimedValue>)
      requires samplerate != 0.0
      modifies this
      ensures events == Events(samplerate, old(receivedValueCount), old(latestValueSign), values)
      ensures receivedValueCount == old(receivedValueCount) + |values|
      ensures latestValueSign == SignBefore(old(latestValueSign), values, |values|)
    {
      ghost var count := receivedValueCount;
      ghost var latest := latestValueSign;
      events := [];
      for k := 0 to |values|
        invariant receivedValueCount == count + k
        invariant latestValueSign == SignBefore(latest, values, k)
        invariant events == EventsUpTo(samplerate, count, latest, values, k)
      {
        var value := values[k];
        var valueSign := Sign(value);
        if valueSign != latestValueSign {
          events := events + [TimedValue(receivedValueCount as real / samplerate, Abs(value))];
        }
        receivedValueCount := receivedValueCount + 1;
        latestValueSign := valueSign;
      }
    }
  }
}
