/**
 The retransmission timeout of a destination (net/roundTripTimer.C): a smoothed round trip `sa`, scaled
 by 8, and its variation `sv`, scaled by 4, in 32-bit integers, with back-off on timeouts.
 */
module RoundTrips {

  const MAX_RTO := 5000
  const MIN_RTO := 500

  /** The largest sample that can be scaled by 8 in 32 bits. */
  const MAX_SAMPLE := 0x1000_0000 - 1

  predicate Int32(x: int) {
    -0x8000_0000 <= x < 0x8000_0000
  }

  function Abs(x: int): nat {
    if x < 0 then -x else x
  }

  function Min(x: int, y: int): int {
    if x < y then x else y
  }

  function Clamp(x: int): (r: int)
    ensures MIN_RTO <= r <= MAX_RTO
    ensures r >= Min(x, MAX_RTO)
  {
    if x > MAX_RTO then MAX_RTO else if x < MIN_RTO then MIN_RTO else x
  }

  /** `Clamp` gives the value within the bounds that is nearest to `x`. */
  lemma {:induction false} ClampNearest(x: int, y: int)
    requires MIN_RTO <= y <= MAX_RTO
    ensures Abs(Clamp(x) - x) <= Abs(y - x) && (Abs(Clamp(x) - x) == Abs(y - x) <==> y == Clamp(x))
  {
  }

  /** `sa` and `sv` after the sample `m`; both shifts round down. */
  function NextSa(sa: int, m: int): int {
    sa + (m - sa / 8)
  }

  function NextSv(sa: int, sv: int, m: int): int {
    sv + (Abs(m - sa / 8) - sv / 4)
  }

  /**
   The new sample counts for one eighth of the average, and its distance from the old average for one
   quarter of the variation; what the shifts cut off stays below the last place.
   */
  lemma {:induction false} SampleWeights(sa: int, sv: int, m: int)
    ensures 7 * sa + 8 * m <= 8 * NextSa(sa, m) < 7 * sa + 8 * m + 8
    ensures var deviation := if m < sa / 8 then sa / 8 - m else m - sa / 8;
            3 * sv + 4 * deviation <= 4 * NextSv(sa, sv, m) < 3 * sv + 4 * deviation + 4
  {
  }

  /** The estimate covers the newest sample, however far it was from the others. */
  lemma {:induction false} CoversSample(sa: int, sv: nat, m: int)
    ensures NextSa(sa, m) / 8 + NextSv(sa, sv, m) >= m
  {
    SampleWeights(sa, sv, m);
  }

  /** What the estimate is worth when every sample so far lay in [low, high]. */
  ghost predicate Bracketed(low: int, high: int, sa: int, sv: int) {
    && 0 <= low <= high
    && 8 * low <= sa <= 8 * high + 7
    && 0 <= sv <= 4 * (high - low) + 3
  }

  lemma {:induction false} BracketedStep(low: int, high: int, sa: int, sv: int, m: int)
    requires Bracketed(low, high, sa, sv) && low <= m <= high
    ensures Bracketed(low, high, NextSa(sa, m), NextSv(sa, sv, m))
    ensures -(high - low) <= m - sa / 8 <= high - low
  {
  }

  class RttRecord {
    var sa: int
    var sv: int
    var rto: int

    /** -1 in `sa` means that there was no sample yet. */
    ghost predicate Valid(low: int, high: int)
      reads this
    {
      && MIN_RTO <= rto <= MAX_RTO
      && (sa == -1 || (Bracketed(low, high, sa, sv) && rto >= Min(low + 10, MAX_RTO)))
    }

    ghost function Now(): Estimate
      reads this
    {
      Estimate(sa, sv, rto)
    }

    constructor ()
      ensures sa == -1 && sv == 0 && rto == MAX_RTO
    {
      sa, sv, rto := -1, 0, MAX_RTO;
    }

    /** `add_rtt_meas`: negative samples are ignored; the others update the estimate without overflow. */
    method AddMeasurement(sample: int, ghost low: int, ghost high: int)
      requires 0 <= low <= high <= MAX_SAMPLE && Valid(low, high)
      requires sample >= 0 ==> low <= sample <= high
      modifies this
      ensures Valid(low, high)
      ensures sample < 0 ==> sa == old(sa) && sv == old(sv) && rto == old(rto)
      ensures sample >= 0 && old(sa) == -1 ==> sa == 8 * sample && sv == 0 && rto == Clamp(4 * sample + 10)
      ensures sample >= 0 && old(sa) != -1 ==>
                && sa == NextSa(old(sa), sample) && sv == NextSv(old(sa), old(sv), sample)
                && rto == Clamp(sa / 8 + sv + 10)
      ensures sample >= 0 ==> rto >= Clamp(sample + 10)
    {
      var m := sample;
      if m < 0 {
        return;
      }
      if sa == -1 {
        assert Int32(m * 8) && Int32(m * 4) && Int32(m * 4 + 10);
        sa := m * 8;
        sv := 0;
        rto := m * 4 + 10;
      } else {
        BracketedStep(low, high, sa, sv, m);
        CoversSample(sa, sv, m);
        Smooth(m, low, high);
      }
      Cap();
    }

    /** The update from the second sample on. */
    method Smooth(sample: int, ghost low: int, ghost high: int)
      requires low <= sample <= high <= MAX_SAMPLE && Bracketed(low, high, sa, sv)
      modifies this
      ensures sa == NextSa(old(sa), sample) && sv == NextSv(old(sa), old(sv), sample)
      ensures rto == sa / 8 + sv + 10
    {
      BracketedStep(low, high, sa, sv, sample);
      var m := sample;
      assert Int32(m - sa / 8);
      m := m - sa / 8;
      assert Int32(sa + m);
      sa := sa + m;
      if m < 0 {
        assert Int32(-1 * m);
        m := -1 * m;
      }
      assert Int32(m - sv / 4);
      m := m - sv / 4;
      assert Int32(sv + m);
      sv := sv + m;
      assert Int32(sa / 8 + sv) && Int32(sa / 8 + sv + 10);
      rto := sa / 8 + sv + 10;
    }

    /** `timeout`: backs off. */
    method Timeout(ghost low: int, ghost high: int)
      requires Valid(low, high)
      modifies this
      ensures Valid(low, high) && sa == old(sa) && sv == old(sv)
      ensures rto == Min(2 * old(rto), MAX_RTO)
    {
      assert Int32(rto * 2);
      rto := rto * 2;
      Cap();
    }

    method Cap()
      modifies `rto
      ensures rto == Clamp(old(rto))
    {
      if rto > MAX_RTO {
        rto := MAX_RTO;
      } else if rto < MIN_RTO {
        rto := MIN_RTO;
      }
    }
  }

  datatype Event = Sample(delay: int) | TimedOut

  ghost predicate SamplesWithin(events: seq<Event>, low: int, high: int) {
    forall i | 0 <= i < |events| :: events[i].Sample? && events[i].delay >= 0 ==> low <= events[i].delay <= high
  }

  /** Was there a sample that counts? */
  ghost predicate Sampled(events: seq<Event>) {
    exists i | 0 <= i < |events| :: events[i].Sample? && events[i].delay >= 0
  }

  /** What is known about a destination. */
  datatype Estimate = Estimate(sa: int, sv: int, rto: int)

  ghost function NextEstimate(e: Estimate, event: Event): Estimate {
    match event
    case TimedOut => e.(rto := Min(2 * e.rto, MAX_RTO))
    case Sample(m) =>
      if m < 0 then e
      else if e.sa == -1 then Estimate(8 * m, 0, Clamp(4 * m + 10))
      else
        var (sa, sv) := (NextSa(e.sa, m), NextSv(e.sa, e.sv, m));
        Estimate(sa, sv, Clamp(sa / 8 + sv + 10))
  }

  ghost function EstimateAfter(events: seq<Event>, n: nat): Estimate
    requires n <= |events|
  {
    if n == 0 then Estimate(-1, 0, MAX_RTO) else NextEstimate(EstimateAfter(events, n - 1), events[n - 1])
  }

  lemma {:induction false} EstimateBounds(events: seq<Event>, n: nat)
    requires n <= |events|
    ensures var e := EstimateAfter(events, n);
            MIN_RTO <= e.rto <= MAX_RTO && e.sv >= 0
  {
    if n > 0 {
      EstimateBounds(events, n - 1);
    }
  }

  /** Event `i` is the last of the first `n` to bring a sample that counts. */
  ghost predicate Newest(events: seq<Event>, i: nat, n: nat) {
    && i < n <= |events| && events[i].Sample? && events[i].delay >= 0
    && forall k | i < k < n :: events[k].TimedOut? || events[k].delay < 0
  }

  /** After any run the timeout covers the newest round trip, however the samples jump about. */
  lemma {:induction false} CoversNewest(events: seq<Event>, i: nat, n: nat)
    requires Newest(events, i, n)
    ensures EstimateAfter(events, n).rto >= Clamp(events[i].delay + 10)
  {
    EstimateBounds(events, n - 1);
    if i == n - 1 {
      var e := EstimateAfter(events, i);
      CoversSample(e.sa, e.sv, events[i].delay);
    } else {
      CoversNewest(events, i, n - 1);
    }
  }

  function Power(k: nat): nat {
    if k == 0 then 1 else 2 * Power(k - 1)
  }

  lemma {:induction false} DoubledAgain(rto: nat, p: nat)
    ensures Min(rto * (2 * p), MAX_RTO) == Min(2 * Min(rto * p, MAX_RTO), MAX_RTO)
  {
    assert rto * (2 * p) == 2 * (rto * p);
  }

  /** `k` timeouts in a row double the timeout `k` times, up to its bound, and leave the estimate. */
  lemma {:induction false} BacksOff(events: seq<Event>, n: nat, k: nat)
    requires n + k <= |events| && forall i | n <= i < n + k :: events[i].TimedOut?
    ensures var (e, e') := (EstimateAfter(events, n), EstimateAfter(events, n + k));
            e'.sa == e.sa && e'.sv == e.sv && e'.rto == Min(e.rto * Power(k), MAX_RTO)
  {
    EstimateBounds(events, n);
    if k > 0 {
      BacksOff(events, n, k - 1);
      DoubledAgain(EstimateAfter(events, n).rto, Power(k - 1));
    }
  }

  /**
   Every run of samples and timeouts whose samples lie in [low, high], `high` at most `MAX_SAMPLE`, stays
   in 32 bits and gives the estimate that it should.  The timeout stays between its bounds and above the
   smallest sample, the smoothed round trip within the samples, and the variation within four times their
   spread.
   */
  method Run(events: seq<Event>, low: int, high: int) returns (sa: int, sv: int, rto: int)
    requires 0 <= low <= high <= MAX_SAMPLE && SamplesWithin(events, low, high)
    ensures Estimate(sa, sv, rto) == EstimateAfter(events, |events|)
    ensures MIN_RTO <= rto <= MAX_RTO
    ensures sa == -1 <==> !Sampled(events)
    ensures Sampled(events) ==>
              && low <= sa / 8 <= high && sa <= 8 * high + 7
              && 0 <= sv <= 4 * (high - low) + 3 && rto >= Min(low + 10, MAX_RTO)
  {
    var r := RunRecord(events, low, high);
    return r.sa, r.sv, r.rto;
  }

  /** A record after a run. */
  method RunRecord(events: seq<Event>, low: int, high: int) returns (r: RttRecord)
    requires 0 <= low <= high <= MAX_SAMPLE && SamplesWithin(events, low, high)
    ensures fresh(r) && r.Valid(low, high) && (r.sa == -1 <==> !Sampled(events))
    ensures r.Now() == EstimateAfter(events, |events|)
  {
    r := new RttRecord();
    for n := 0 to |events|
      invariant fresh(r) && r.Valid(low, high) && r.Now() == EstimateAfter(events, n)
      invariant r.sa == -1 <==> !exists i | 0 <= i < n :: events[i].Sample? && events[i].delay >= 0
    {
      match events[n] {
        case Sample(delay) => r.AddMeasurement(delay, low, high);
        case TimedOut => r.Timeout(low, high);
      }
    }
  }

  /** The bound on samples is exact: the first sample above it does not fit once scaled. */
  lemma {:induction false} SampleBoundExact(m: nat)
    ensures m <= MAX_SAMPLE <==> Int32(8 * m) && Int32(4 * m + 10)
  {
  }

  // ---------------------------------------------------------------------------------
  // Convergence
  // ---------------------------------------------------------------------------------

  function SaAfter(sa: int, m: int, n: nat): int {
    if n == 0 then sa else NextSa(SaAfter(sa, m, n - 1), m)
  }

  function SvAfter(sa: int, sv: int, m: int, n: nat): int {
    if n == 0 then sv else NextSv(SaAfter(sa, m, n - 1), SvAfter(sa, sv, m, n - 1), m)
  }

  /** How far `sa` is from the values that stand for `m`. */
  function Off(sa: int, m: int): nat {
    if sa < 8 * m then 8 * m - sa else if sa > 8 * m + 7 then sa - (8 * m + 7) else 0
  }

  lemma {:induction false} OffStep(sa: int, m: int)
    ensures Off(sa, m) == 0 <==> sa / 8 == m
    ensures Off(sa, m) == 0 ==> NextSa(sa, m) == sa
    ensures Off(sa, m) > 0 ==> Off(NextSa(sa, m), m) < Off(sa, m)
  {
  }

  lemma {:induction false} OffShrinks(sa: int, m: int, n: nat)
    ensures Off(SaAfter(sa, m, n), m) == 0 || Off(SaAfter(sa, m, n), m) + n <= Off(sa, m)
  {
    if n > 0 {
      OffShrinks(sa, m, n - 1);
      OffStep(SaAfter(sa, m, n - 1), m);
    }
  }

  /** A steady round trip is learned: from any state the average reaches it exactly and stays. */
  lemma {:induction false} AverageConverges(sa: int, m: int, n: nat)
    requires n >= Off(sa, m)
    ensures SaAfter(sa, m, n) / 8 == m
  {
    OffShrinks(sa, m, n);
    OffStep(SaAfter(sa, m, n), m);
  }

  lemma {:induction false} SvStaysNonNegative(sa: int, sv: nat, m: int, n: nat)
    ensures SvAfter(sa, sv, m, n) >= 0
  {
    if n > 0 {
      SvStaysNonNegative(sa, sv, m, n - 1);
    }
  }

  lemma {:induction false} SvShrinks(sa: int, sv: nat, m: int, n: nat)
    ensures var v := SvAfter(sa, sv, m, Off(sa, m) + n);
            v <= 3 || v + n <= SvAfter(sa, sv, m, Off(sa, m))
  {
    if n > 0 {
      SvShrinks(sa, sv, m, n - 1);
      SvStaysNonNegative(sa, sv, m, Off(sa, m) + n - 1);
      AverageConverges(sa, m, Off(sa, m) + n - 1);
    }
  }

  /**
   The variation then decays to at most 3, so the timeout settles 10 to 13 above the round trip, within
   its bounds.
   */
  lemma {:induction false} TimeoutConverges(sa: int, sv: nat, m: int, n: nat)
    requires n >= Off(sa, m) + SvAfter(sa, sv, m, Off(sa, m))
    ensures var rto := Clamp(SaAfter(sa, m, n) / 8 + SvAfter(sa, sv, m, n) + 10);
            Clamp(m + 10) <= rto <= Clamp(m + 13)
  {
    var k := Off(sa, m);
    SvStaysNonNegative(sa, sv, m, k);
    SvStaysNonNegative(sa, sv, m, n);
    AverageConverges(sa, m, n);
    SvShrinks(sa, sv, m, n - k);
  }

  lemma {:induction false} BracketedAfter(low: int, high: int, sa: int, sv: int, m: int, n: nat)
    requires Bracketed(low, high, sa, sv) && low <= m <= high
    ensures Bracketed(low, high, SaAfter(sa, m, n), SvAfter(sa, sv, m, n))
  {
    if n > 0 {
      BracketedAfter(low, high, sa, sv, m, n - 1);
      BracketedStep(low, high, SaAfter(sa, m, n - 1), SvAfter(sa, sv, m, n - 1), m);
    }
  }

  /** From an estimate over samples up to `high`, 12 * `high` + 10 steady samples are enough. */
  lemma {:induction false} SteadyIsEnough(low: int, high: int, sa: int, sv: nat, m: int, n: nat)
    requires Bracketed(low, high, sa, sv) && low <= m <= high && n >= 12 * high + 10
    ensures var rto := Clamp(SaAfter(sa, m, n) / 8 + SvAfter(sa, sv, m, n) + 10);
            Clamp(m + 10) <= rto <= Clamp(m + 13)
  {
    BracketedAfter(low, high, sa, sv, m, Off(sa, m));
    TimeoutConverges(sa, sv, m, n);
  }

  /**
   After any run, enough equal samples bring the timeout of the record to 10 to 13 above them, within its
   bounds, whatever came before.
   */
  method RunThenSteady(events: seq<Event>, low: int, high: int, m: int, n: nat) returns (rto: int)
    requires 0 <= low <= m <= high <= MAX_SAMPLE && SamplesWithin(events, low, high)
    requires n >= 12 * high + 11
    ensures Clamp(m + 10) <= rto <= Clamp(m + 13)
  {
    var r := RunRecord(events, low, high);
    r.AddMeasurement(m, low, high);
    ghost var (sa, sv) := (r.sa, r.sv);
    for i := 1 to n
      invariant r.Valid(low, high) && r.sa == SaAfter(sa, m, i - 1) && r.sv == SvAfter(sa, sv, m, i - 1)
      invariant sa != -1 && Bracketed(low, high, sa, sv)
      invariant i > 1 ==> r.rto == Clamp(r.sa / 8 + r.sv + 10)
    {
      BracketedAfter(low, high, sa, sv, m, i - 1);
      r.AddMeasurement(m, low, high);
    }
    SteadyIsEnough(low, high, sa, sv, m, n - 1);
    return r.rto;
  }
}
