/** The connection-staleness state machine: when a stale callback is acted on, and how often. */
module ConnectionStale {
  import opened Integers
  import opened Statuses

  const HUNDREDS_OF_NANOS_IN_A_SECOND := 10_000_000
  const GRACE_PERIOD := 30 * HUNDREDS_OF_NANOS_IN_A_SECOND
  const VERIFICATION_PERIOD := 60 * HUNDREDS_OF_NANOS_IN_A_SECOND

  datatype Handling = Normal | ResetConnection | OtherState

  datatype State = State(handling: Handling, quietTime: nat, backToNormalTime: nat, currTime: nat)

  /** One stale callback: the clock reading, whether the stream is ready, and what resetting the
      connection would return. */
  datatype Callback = Callback(now: nat, ready: bool, resetStatus: Status)

  /** What a callback led to: a call that resets the connection or none, and the status returned. */
  datatype Outcome = Outcome(acted: bool, reset: bool, status: Status)

  function Stamp(s: State): State {
    var quiet := (s.currTime + GRACE_PERIOD) % TWO_64;
    s.(quietTime := quiet, backToNormalTime := (quiet + VERIFICATION_PERIOD) % TWO_64)
  }

  predicate Acts(s: State, now: nat) {
    s.quietTime < now && !s.handling.OtherState?
  }

  function Step(s: State, cb: Callback): State {
    var s' := s.(currTime := cb.now);
    if Acts(s, cb.now) then Stamp(s'.(handling := ResetConnection)) else s'
  }

  predicate Resets(s: State, cb: Callback) {
    Acts(s, cb.now) && s.handling == Normal && cb.ready
  }

  function Result(s: State, cb: Callback): Outcome {
    Outcome(Acts(s, cb.now), Resets(s, cb), if Resets(s, cb) then cb.resetStatus else STATUS_SUCCESS)
  }

  /** A reading is acted on exactly when it lies past the quiet time, in the normal and in the reset state. */
  lemma ActsExactly(s: State, now: nat)
    ensures Acts(s, now) <==> s.quietTime < now && (s.handling == Normal || s.handling == ResetConnection)
  {}

  /** The connection is reset exactly when a reading is acted on in the normal state with the stream ready; the
      status is what the reset returns, and success in every other case. */
  lemma ResultExactly(s: State, cb: Callback)
    ensures
      var out := Result(s, cb);
      var resets := s.quietTime < cb.now && s.handling == Normal && cb.ready;
      && (out.acted <==> Acts(s, cb.now)) && (out.reset <==> resets)
      && out.status == if resets then cb.resetStatus else 0
  {}

  /** The reading is noted in any case; a reading acted on leads to the reset state, 30 s of quiet, and a
      verification time 60 s after that; one not acted on changes nothing. */
  lemma StepExactly(s: State, cb: Callback)
    ensures Step(s, cb).currTime == cb.now
    ensures Acts(s, cb.now) ==>
      && Step(s, cb).handling == ResetConnection
      && Step(s, cb).quietTime == (cb.now + 300_000_000) % 0x1_0000_0000_0000_0000
      && Step(s, cb).backToNormalTime == (Step(s, cb).quietTime + 600_000_000) % 0x1_0000_0000_0000_0000
    ensures !Acts(s, cb.now) ==> Step(s, cb) == s.(currTime := cb.now)
  {}

  function Exec(s: State, cbs: seq<Callback>): State {
    if cbs == [] then s else Step(Exec(s, cbs[..|cbs| - 1]), cbs[|cbs| - 1])
  }

  predicate ActsAt(s: State, cbs: seq<Callback>, k: nat)
    requires k < |cbs|
  {
    Acts(Exec(s, cbs[..k]), cbs[k].now)
  }

  predicate ResetsAt(s: State, cbs: seq<Callback>, k: nat)
    requires k < |cbs|
  {
    Resets(Exec(s, cbs[..k]), cbs[k])
  }

  /** The quiet time fits the clock for every reading acted on. */
  predicate NoOverflow(s: State, cbs: seq<Callback>) {
    forall k | 0 <= k < |cbs| && ActsAt(s, cbs, k) :: cbs[k].now + GRACE_PERIOD < TWO_64
  }

  // ---- Quiet after acting ----

  /** After acting on callback i the machine stays quiet for at least the grace period from its reading. */
  lemma {:induction false} QuietAfter(s: State, cbs: seq<Callback>, i: nat, n: nat)
    requires NoOverflow(s, cbs) && i < n <= |cbs| && ActsAt(s, cbs, i)
    ensures Exec(s, cbs[..n]).quietTime >= cbs[i].now + GRACE_PERIOD
    ensures Exec(s, cbs[..n]).backToNormalTime == (Exec(s, cbs[..n]).quietTime + VERIFICATION_PERIOD) % TWO_64
  {
    assert cbs[..n][..n - 1] == cbs[..n - 1];
    if i == n - 1 {
    } else {
      QuietAfter(s, cbs, i, n - 1);
      assert ActsAt(s, cbs, n - 1) ==> cbs[n - 1].now + GRACE_PERIOD < TWO_64;
    }
  }

  /** Two callbacks acted on are more than 30 seconds apart, whatever the clock read in between. */
  lemma ActedApart(s: State, cbs: seq<Callback>, i: nat, j: nat)
    requires NoOverflow(s, cbs) && i < j < |cbs| && ActsAt(s, cbs, i) && ActsAt(s, cbs, j)
    ensures cbs[j].now > cbs[i].now + 300_000_000
  {
    QuietAfter(s, cbs, i, j);
  }

  // ---- Exactly when the gap is kept ----

  /** Any two callbacks acted on are more than 30 seconds apart. */
  predicate Apart(s: State, cbs: seq<Callback>) {
    forall i, j | 0 <= i < j < |cbs| && ActsAt(s, cbs, i) && ActsAt(s, cbs, j) ::
      cbs[j].now > cbs[i].now + GRACE_PERIOD
  }

  /** The readings are 64-bit values. */
  predicate InRange(cbs: seq<Callback>) {
    forall k | 0 <= k < |cbs| :: cbs[k].now < TWO_64
  }

  /** Having acted at one reading, the next reading acted on is certain to lie more than 30 seconds later
      if and only if the quiet time fits the clock. */
  lemma GapAfterOne(s: State, cb: Callback)
    requires Acts(s, cb.now) && cb.now < TWO_64
    ensures (forall now: nat | now < TWO_64 && Acts(Step(s, cb), now) :: now > cb.now + GRACE_PERIOD) <==>
            cb.now + GRACE_PERIOD < TWO_64
  {
    if cb.now + GRACE_PERIOD >= TWO_64 {
      assert Step(s, cb).quietTime == cb.now + GRACE_PERIOD - TWO_64;
      assert Acts(Step(s, cb), cb.now);
    }
  }

  /** What a run acts on is decided before the callbacks that follow. */
  lemma ActsInPrefix(s: State, cbs: seq<Callback>, n: nat, cb: Callback, k: nat)
    requires k < n <= |cbs|
    ensures ActsAt(s, cbs[..n] + [cb], k) <==> ActsAt(s, cbs, k)
  {
    assert (cbs[..n] + [cb])[..k] == cbs[..k];
  }

  lemma ApartUpTo(s: State, cbs: seq<Callback>, n: nat, cb: Callback)
    requires NoOverflow(s, cbs) && n <= |cbs|
    ensures Apart(s, cbs[..n] + [cb])
  {
    var run := cbs[..n] + [cb];
    forall i, j | 0 <= i < j < |run| && ActsAt(s, run, i) && ActsAt(s, run, j)
      ensures run[j].now > run[i].now + GRACE_PERIOD
    {
      ActsInPrefix(s, cbs, n, cb, i);
      if j < n {
        ActsInPrefix(s, cbs, n, cb, j);
        ActedApart(s, cbs, i, j);
      } else {
        assert run[..n] == cbs[..n];
        QuietAfter(s, cbs, i, n);
      }
    }
  }

  /** Where the quiet time wraps, the very same reading is acted on again. */
  lemma OverflowRepeats(s: State, cbs: seq<Callback>, k: nat)
    requires k < |cbs| && ActsAt(s, cbs, k) && cbs[k].now < TWO_64 <= cbs[k].now + GRACE_PERIOD
    ensures !Apart(s, cbs[..k + 1] + [cbs[k]])
  {
    var run := cbs[..k + 1] + [cbs[k]];
    ActsInPrefix(s, cbs, k + 1, cbs[k], k);
    assert run[..k + 1] == cbs[..k + 1] && cbs[..k + 1][..k] == cbs[..k];
    assert Exec(s, cbs[..k + 1]).quietTime == cbs[k].now + GRACE_PERIOD - TWO_64;
    assert ActsAt(s, run, k + 1);
  }

  /** Wherever a run is cut off and whatever is read next, everything acted on stays more than 30 seconds
      apart: this holds if and only if the quiet time fits the clock for every reading acted on. */
  lemma GapExactly(s: State, cbs: seq<Callback>)
    requires InRange(cbs)
    ensures (forall n: nat, cb: Callback | n <= |cbs| && cb.now < TWO_64 :: Apart(s, cbs[..n] + [cb])) <==>
            NoOverflow(s, cbs)
  {
    if NoOverflow(s, cbs) {
      forall n: nat, cb: Callback | n <= |cbs| && cb.now < TWO_64 ensures Apart(s, cbs[..n] + [cb]) {
        ApartUpTo(s, cbs, n, cb);
      }
    }
    if forall n: nat, cb: Callback | n <= |cbs| && cb.now < TWO_64 :: Apart(s, cbs[..n] + [cb]) {
      forall k | 0 <= k < |cbs| && ActsAt(s, cbs, k) ensures cbs[k].now + GRACE_PERIOD < TWO_64 {
        if cbs[k].now + GRACE_PERIOD >= TWO_64 {
          OverflowRepeats(s, cbs, k);
          assert false;
        }
      }
    }
  }

  // ---- The reset of the connection ----

  /** Having acted once the machine never returns to its normal state. */
  lemma {:induction false} StaysReset(s: State, cbs: seq<Callback>, i: nat, n: nat)
    requires i < n <= |cbs| && ActsAt(s, cbs, i)
    ensures Exec(s, cbs[..n]).handling == ResetConnection
  {
    assert cbs[..n][..n - 1] == cbs[..n - 1];
    if i == n - 1 {
    } else {
      StaysReset(s, cbs, i, n - 1);
    }
  }

  lemma {:induction false} StateBeforeActing(s: State, cbs: seq<Callback>, n: nat)
    requires n <= |cbs| && forall i | 0 <= i < n :: !ActsAt(s, cbs, i)
    ensures Exec(s, cbs[..n]).handling == s.handling
  {
    if n == 0 {
    } else {
      assert cbs[..n][..n - 1] == cbs[..n - 1];
      StateBeforeActing(s, cbs, n - 1);
      assert !ActsAt(s, cbs, n - 1);
    }
  }

  /** The connection is reset only at the first callback acted on, only from the normal state, and only
      with the stream ready; so at most once. */
  lemma ResetOnlyFirst(s: State, cbs: seq<Callback>, j: nat)
    requires j < |cbs| && ResetsAt(s, cbs, j)
    ensures s.handling == Normal && cbs[j].ready && ActsAt(s, cbs, j)
    ensures forall i | 0 <= i < j :: !ActsAt(s, cbs, i)
    ensures forall i | j < i < |cbs| :: !ResetsAt(s, cbs, i)
  {
    forall i | 0 <= i < j ensures !ActsAt(s, cbs, i) {
      if ActsAt(s, cbs, i) { StaysReset(s, cbs, i, j); }
    }
    StateBeforeActing(s, cbs, j);
    forall i | j < i < |cbs| ensures !ResetsAt(s, cbs, i) {
      StaysReset(s, cbs, j, i);
    }
  }

  /** And it is reset at the first callback acted on whenever that could be: from the normal state with
      the stream ready. */
  lemma ResetExactlyThen(s: State, cbs: seq<Callback>, j: nat)
    requires j < |cbs|
    ensures ResetsAt(s, cbs, j) <==>
      s.handling == Normal && cbs[j].ready && ActsAt(s, cbs, j) && forall i | 0 <= i < j :: !ActsAt(s, cbs, i)
  {
    if ResetsAt(s, cbs, j) {
      ResetOnlyFirst(s, cbs, j);
    } else if forall i | 0 <= i < j :: !ActsAt(s, cbs, i) {
      StateBeforeActing(s, cbs, j);
    }
  }

  // ---- How many callbacks are acted on ----

  /** The callbacks acted on whose reading lies in [lo, hi], in order. */
  function ActedWithin(s: State, cbs: seq<Callback>, n: nat, lo: nat, hi: nat): seq<nat>
    requires n <= |cbs|
  {
    if n == 0 then []
    else
      ActedWithin(s, cbs, n - 1, lo, hi) +
      if ActsAt(s, cbs, n - 1) && lo <= cbs[n - 1].now <= hi then [n - 1] else []
  }

  /** The last of the callbacks `a` was acted on before n, and its reading leaves room for all of them. */
  predicate Spans(s: State, cbs: seq<Callback>, n: nat, lo: nat, hi: nat, a: seq<nat>)
    requires n <= |cbs|
  {
    a == [] ||
    var last := a[|a| - 1];
    last < n && ActsAt(s, cbs, last) && lo + (|a| - 1) * GRACE_PERIOD <= cbs[last].now <= hi
  }

  lemma {:induction false} ActedWithinSpan(s: State, cbs: seq<Callback>, n: nat, lo: nat, hi: nat)
    requires NoOverflow(s, cbs) && n <= |cbs|
    ensures Spans(s, cbs, n, lo, hi, ActedWithin(s, cbs, n, lo, hi))
  {
    if n == 0 {
    } else {
      ActedWithinSpan(s, cbs, n - 1, lo, hi);
      var a := ActedWithin(s, cbs, n - 1, lo, hi);
      if a != [] && ActsAt(s, cbs, n - 1) {
        ActedApart(s, cbs, a[|a| - 1], n - 1);
      }
    }
  }

  /** At most W / 30 s + 1 callbacks with readings in any interval of length W are acted on. */
  lemma RateBound(s: State, cbs: seq<Callback>, lo: nat, width: nat)
    requires NoOverflow(s, cbs)
    ensures |ActedWithin(s, cbs, |cbs|, lo, lo + width)| <= width / GRACE_PERIOD + 1
  {
    ActedWithinSpan(s, cbs, |cbs|, lo, lo + width);
  }

  class Machine {
    var currentState: Handling
    var quietTime: nat
    var backToNormalTime: nat
    var currTime: nat

    function Snapshot(): State
      reads this
    {
      State(currentState, quietTime, backToNormalTime, currTime)
    }

    constructor (state: Handling, currTime: nat, quietTime: nat, backToNormalTime: nat)
      ensures Snapshot() == State(state, quietTime, backToNormalTime, currTime)
    {
      this.currentState := state;
      this.currTime := currTime;
      this.backToNormalTime := backToNormalTime;
      this.quietTime := quietTime;
    }

    method UpdateTimestamp()
      modifies `quietTime, `backToNormalTime
      ensures Snapshot() == Stamp(old(Snapshot()))
      ensures currTime + GRACE_PERIOD < TWO_64 ==>
        forall now: nat | now <= currTime + GRACE_PERIOD :: !Acts(Snapshot(), now)
    {
      quietTime := (currTime + GRACE_PERIOD) % TWO_64;
      backToNormalTime := (quietTime + VERIFICATION_PERIOD) % TWO_64;
    }

    method HandleConnectionStale(cb: Callback) returns (out: Outcome)
      modifies this
      ensures Snapshot() == Step(old(Snapshot()), cb) && out == Result(old(Snapshot()), cb)
      ensures out.acted <==> old(quietTime) < cb.now && old(currentState) in {Normal, ResetConnection}
    {
      out := Outcome(false, false, STATUS_SUCCESS);
      currTime := cb.now;
      if quietTime < currTime {
        match currentState
        case Normal =>
          currentState := ResetConnection;
          UpdateTimestamp();
          out := if cb.ready then Outcome(true, true, cb.resetStatus) else Outcome(true, false, STATUS_SUCCESS);
        case ResetConnection =>
          UpdateTimestamp();
          out := Outcome(true, false, STATUS_SUCCESS);
        case OtherState =>
      }
    }
  }
}
