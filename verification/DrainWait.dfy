/**
  Waiting for the callback drain to become quiet (scripts/xiaoyou_wecom_callback_drain.py): poll until nothing has
  been processing for a stable window, or until a deadline. Polls and clock readings are arbitrary; between two
  readings the process sleeps for at least the poll interval.
 */
module DrainWait {

  datatype Sample = Sample(active: bool, valid: bool, processing: int, now: real)

  datatype Outcome = NotActive | Invalid | Quiesced | TimedOut

  datatype Decision = Continue | Stop(outcome: Outcome)

  datatype Options = Options(timeout: real, stable: real, poll: real)

  function Max(a: real, b: real): real {
    if a < b then b else a
  }

  function Interval(o: Options): real {
    Max(0.05, o.poll)
  }

  function Allowed(o: Options): real {
    Max(0.1, o.timeout)
  }

  function Window(o: Options): real {
    Max(0.0, o.stable)
  }

  type Samples = nat -> Sample

  ghost predicate Tick(s: Samples, o: Options, k: nat) {
    s(k + 1).now >= s(k).now + if o.poll < 0.05 then 0.05 else o.poll
  }

  /** What the clock promises a wait that began at `start`. */
  ghost predicate Clock(s: Samples, o: Options, start: real) {
    start <= s(0).now && forall k: nat :: Tick(s, o, k)
  }

  predicate Idle(s: Sample) {
    s.active && s.valid && s.processing == 0
  }

  /** The samples from `j` to `k` show nothing processing. */
  ghost predicate ZeroRun(s: Samples, j: nat, k: nat) {
    j <= k && forall i: nat :: j <= i <= k ==> s(i).processing == 0
  }

  /** The samples up to `k` end in a run of zeros that spans the window. */
  ghost predicate StableAt(s: Samples, o: Options, k: nat) {
    exists j: nat :: ZeroRun(s, j, k) && s(k).now - s(j).now >= Window(o)
  }

  /** The decision at sample `k`. */
  ghost function DecisionAt(s: Samples, o: Options, start: real, k: nat): Decision {
    if !s(k).active then Stop(NotActive)
    else if !s(k).valid then Stop(Invalid)
    else if StableAt(s, o, k) then Stop(Quiesced)
    else if s(k).now >= start + Allowed(o) then Stop(TimedOut)
    else Continue
  }

  /** Sample `k` is the first that decides. */
  ghost predicate EndsAt(s: Samples, o: Options, start: real, k: nat, outcome: Outcome) {
    && DecisionAt(s, o, start, k) == Stop(outcome)
    && forall i: nat :: i < k ==> DecisionAt(s, o, start, i) == Continue
  }

  lemma {:induction false} ClockAdvances(s: Samples, o: Options, start: real, k: nat)
    requires Clock(s, o, start)
    ensures s(k).now >= start + k as real * Interval(o)
  {
    if k > 0 {
      ClockAdvances(s, o, start, k - 1);
      assert Tick(s, o, k - 1);
      assert k as real * Interval(o) == (k - 1) as real * Interval(o) + Interval(o);
    }
  }

  lemma {:induction false} ClockMonotone(s: Samples, o: Options, start: real, j: nat, k: nat)
    requires Clock(s, o, start) && j <= k
    ensures s(j).now <= s(k).now
    decreases k
  {
    if j < k {
      ClockMonotone(s, o, start, j, k - 1);
      assert Tick(s, o, k - 1);
    }
  }

  /** Samples that come after one interval more than the allowed time cannot be reached. */
  lemma PollBound(s: Samples, o: Options, start: real, k: nat)
    requires Clock(s, o, start) && s(k).now < start + Allowed(o)
    ensures k as real * Interval(o) < Allowed(o)
    ensures k <= (Allowed(o) / Interval(o)).Floor
  {
    ClockAdvances(s, o, start, k);
    QuotientBound(k, Interval(o), Allowed(o));
  }

  lemma QuotientBound(k: nat, p: real, t: real)
    requires p > 0.0 && k as real * p < t
    ensures k <= (t / p).Floor
  {
    var q := t / p;
    assert q * p == t;
    ScaleMonotone(q, k as real, p);
  }

  lemma ScaleMonotone(a: real, b: real, p: real)
    requires p > 0.0
    ensures a <= b ==> a * p <= b * p
  {
  }

  /**
    The wait ends at the first sample that decides: it never polls on past a decision, and it reports quiet only for
    a run of zeros as long as the window. The number of polls is bounded by the allowed time over the interval.
   */
  method WaitForQuiesced(o: Options, start: real, s: Samples) returns (outcome: Outcome, last: nat)
    requires Clock(s, o, start)
    ensures EndsAt(s, o, start, last, outcome)
    ensures last > 0 ==> (last - 1) as real * (if o.poll < 0.05 then 0.05 else o.poll) < if o.timeout < 0.1 then 0.1 else o.timeout
  {
    var deadline := start + Allowed(o);
    var stableRequired := Window(o);
    var zeroSince: real, counting := 0.0, false;
    ghost var first: nat := 0;
    last := 0;
    while true
      invariant forall i: nat :: i < last ==> DecisionAt(s, o, start, i) == Continue
      invariant counting ==> first < last && ZeroRun(s, first, last - 1) && zeroSince == s(first).now
      invariant counting ==> first == 0 || s(first - 1).processing != 0
      invariant !counting && last > 0 ==> s(last - 1).processing != 0
      invariant last > 0 ==> s(last - 1).now < deadline
      invariant last <= (Allowed(o) / Interval(o)).Floor + 1
      decreases (Allowed(o) / Interval(o)).Floor + 1 - last
    {
      var sample := s(last);
      if !sample.active {
        outcome := NotActive;
        break;
      }
      if !sample.valid {
        outcome := Invalid;
        break;
      }
      if sample.processing == 0 {
        if !counting {
          zeroSince, counting := sample.now, true;
          first := last;
        }
        LongestRun(s, o, start, first, last);
        if sample.now - zeroSince >= stableRequired {
          outcome := Quiesced;
          break;
        }
      } else {
        counting := false;
      }
      if sample.now >= deadline {
        outcome := TimedOut;
        break;
      }
      PollBound(s, o, start, last);
      last := last + 1;
    }
    if last > 0 {
      PollBound(s, o, start, last - 1);
    }
  }

  /** Counting from the start of the longest run of zeros decides whether any run spans the window. */
  lemma LongestRun(s: Samples, o: Options, start: real, first: nat, k: nat)
    requires Clock(s, o, start) && ZeroRun(s, first, k)
    requires first == 0 || s(first - 1).processing != 0
    ensures StableAt(s, o, k) <==> s(k).now - s(first).now >= Window(o)
  {
    if StableAt(s, o, k) {
      var j: nat :| ZeroRun(s, j, k) && s(k).now - s(j).now >= Window(o);
      assert first > 0 ==> !(j <= first - 1);
      if first <= j {
        ClockMonotone(s, o, start, first, j);
      }
    }
  }

  /** A wait has one outcome. */
  lemma EndsOnce(s: Samples, o: Options, start: real, j: nat, a: Outcome, k: nat, b: Outcome)
    requires EndsAt(s, o, start, j, a) && EndsAt(s, o, start, k, b)
    ensures j == k && a == b
  {
    assert DecisionAt(s, o, start, j) != Continue && DecisionAt(s, o, start, k) != Continue;
  }

  /** Quiet means: every sample of some run that spans the window, up to the last one, was active, valid and zero. */
  lemma QuiescedMeans(s: Samples, o: Options, start: real, k: nat)
    requires EndsAt(s, o, start, k, Quiesced)
    ensures exists j: nat :: j <= k && s(k).now - s(j).now >= o.stable &&
              forall i: nat :: j <= i <= k ==> s(i).active && s(i).valid && s(i).processing == 0
  {
    var j: nat :| ZeroRun(s, j, k) && s(k).now - s(j).now >= Window(o);
    forall i: nat | j <= i <= k ensures Idle(s(i)) {
      if i < k {
        assert DecisionAt(s, o, start, i) == Continue;
      }
    }
  }

  /** A timeout means: the time is over, at no earlier sample it was, and no run of zeros up to here spans the window. */
  lemma TimedOutMeans(s: Samples, o: Options, start: real, k: nat, j: nat)
    requires EndsAt(s, o, start, k, TimedOut)
    ensures s(k).now >= start + o.timeout && s(k).now >= start + 0.1
    ensures forall i: nat :: i < k ==> s(i).now < start + o.timeout || s(i).now < start + 0.1
    ensures j <= k && s(k).now - s(j).now >= o.stable && s(k).now >= s(j).now ==> exists i: nat :: j <= i <= k && s(i).processing != 0
  {
    forall i: nat | i < k ensures s(i).now < start + o.timeout || s(i).now < start + 0.1 {
      assert DecisionAt(s, o, start, i) == Continue;
    }
    if j <= k && forall i: nat :: j <= i <= k ==> s(i).processing == 0 {
      assert ZeroRun(s, j, k);
    }
  }

  /** A wait over idle samples ends quietly or by timeout; by timeout only if the window does not fit before the deadline. */
  lemma IdleWait(s: Samples, o: Options, start: real, k: nat, outcome: Outcome)
    requires Clock(s, o, start) && EndsAt(s, o, start, k, outcome)
    requires forall i: nat :: i <= k ==> Idle(s(i))
    ensures outcome == if s(k).now - s(0).now >= o.stable then Quiesced else TimedOut
    ensures s(0).now + o.stable <= start + o.timeout ==> outcome == Quiesced
  {
    assert Idle(s(k));
    assert ZeroRun(s, 0, k);
    ClockMonotone(s, o, start, 0, k);
    LongestRun(s, o, start, 0, k);
  }
}
