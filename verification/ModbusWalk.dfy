/** The walk of a Modbus slave over its output list: which outputs get their turn. */
module ModbusWalk {

  /** What the slave answers to a request, as far as it shows. */
  datatype Reply = Done | Failed

  /** Where the walk is in the list, and until when writes pause. */
  datatype Walk = Walk(current: nat, nextWrite: int)

  /** The position in the list of the output that is attempted. */
  datatype Attempted = NoAttempt | Attempt(k: nat)

  /** One turn of a slave: the time, the time after the request, what a request would
      yield, and the flags it finds; other threads may set flags between turns. */
  datatype Turn = Turn(now: int, clock: int, reply: Reply, pending: seq<bool>)

  /** The k-th output of the list is pending. */
  predicate IsPending(order: seq<nat>, pending: seq<bool>, k: nat) {
    k < |order| && order[k] < |pending| && pending[order[k]]
  }

  /** The first position from `i` on whose output is pending. */
  function FirstPending(order: seq<nat>, pending: seq<bool>, i: nat): (k: nat)
    ensures i <= |order| ==> i <= k <= |order|
    ensures k < |order| ==> IsPending(order, pending, k)
    ensures forall j :: i <= j < k ==> !IsPending(order, pending, j)
    decreases |order| - i
  {
    if i >= |order| then |order|
    else if IsPending(order, pending, i) then i
    else FirstPending(order, pending, i + 1)
  }

  /** slave_task_write, and master_task where nothing was written: the walk starts again. */
  function AfterTurn(order: seq<nat>, interval: int, w: Walk, t: Turn): (Walk, Attempted) {
    var k := FirstPending(order, t.pending, w.current);
    if w.nextWrite > t.now || k >= |order| then (w.(current := 0), NoAttempt)
    else (Walk(k + 1, if t.reply.Failed? then t.clock + interval else w.nextWrite), Attempt(k))
  }

  /** Consecutive turns of a slave, and where the walk is before each of them and at the end. */
  datatype Turns = Turns(order: seq<nat>, interval: int, walks: seq<Walk>, turns: seq<Turn>) {

    ghost predicate IsRun() {
      && |walks| == |turns| + 1
      && forall i :: 0 <= i < |turns| ==> walks[i + 1] == AfterTurn(order, interval, walks[i], turns[i]).0
    }

    function Tried(i: nat): Attempted
      requires i < |turns| < |walks|
    {
      AfterTurn(order, interval, walks[i], turns[i]).1
    }

    predicate Wants(i: nat, k: nat)
      requires i < |turns|
    {
      IsPending(order, turns[i].pending, k)
    }

    /** The k-th output is attempted at the i-th turn, and fails. */
    predicate FailsAt(i: nat, k: nat)
      requires i < |turns| < |walks|
    {
      Tried(i) == Attempt(k) && turns[i].reply.Failed?
    }

    /** The pause after a failure at the i-th turn lasts over the next one. */
    predicate PauseOutlasts(i: nat)
      requires i < |turns|
    {
      i + 1 < |turns| ==> turns[i + 1].now < turns[i].clock + interval
    }

    /** One walk over the list: it begins at the head and ends with the turn in which
        nothing is attempted, and writes do not pause for a failure before it. */
    ghost predicate IsWalk() {
      && IsRun() && turns != [] && walks[0].current == 0
      && (forall i :: 0 <= i < |turns| ==> (Tried(i).NoAttempt? <==> i == |turns| - 1))
      && (forall i :: 0 <= i < |turns| ==> walks[0].nextWrite <= turns[i].now)
    }

    /** Every failure pauses the next turn. */
    ghost predicate PausesLast()
      requires IsRun()
    {
      forall i, k :: 0 <= i < |turns| && FailsAt(i, k) ==> PauseOutlasts(i)
    }
  }

  // ----- An output that always fails -----

  /** The output stays pending and fails whenever it is attempted, and the pause after
      each of its failures lasts over a turn. */
  ghost predicate AlwaysFails(r: Turns, p: nat) {
    && r.IsRun() && p < |r.order|
    && (forall i :: 0 <= i < |r.turns| ==> r.Wants(i, p))
    && (forall i :: 0 <= i < |r.turns| && r.Tried(i) == Attempt(p) ==> r.turns[i].reply.Failed? && r.PauseOutlasts(i))
  }

  /** The walk is not past position `p`, or it pauses. */
  predicate NotPast(r: Turns, p: nat, i: nat)
    requires i < |r.turns| < |r.walks|
  {
    r.walks[i].current <= p || r.walks[i].nextWrite > r.turns[i].now
  }

  lemma NextIsNotPast(r: Turns, p: nat, i: nat)
    requires r.IsRun() && i + 1 < |r.turns| && r.Wants(i, p) && NotPast(r, p, i)
    requires r.Tried(i) == Attempt(p) ==> r.turns[i].reply.Failed? && r.PauseOutlasts(i)
    ensures NotPast(r, p, i + 1)
  {
    assert r.walks[i + 1] == AfterTurn(r.order, r.interval, r.walks[i], r.turns[i]).0;
  }

  lemma {:induction false} NeverPast(r: Turns, p: nat, m: nat, i: nat)
    requires AlwaysFails(r, p) && m <= i < |r.turns| && r.walks[m].current <= p
    ensures NotPast(r, p, i)
  {
    if m < i {
      NeverPast(r, p, m, i - 1);
      assert r.Wants(i - 1, p);
      NextIsNotPast(r, p, i - 1);
    }
  }

  /** An output that always fails starves all outputs behind it: from any moment on at
      which the walk is not past it, as after every new start at the head, the walk
      never gets past it, whatever the other outputs do. */
  lemma {:induction false} FailingOutputStarvesOthers(r: Turns, p: nat, m: nat, i: nat, k: nat)
    requires AlwaysFails(r, p) && m <= i < |r.turns|
    requires r.walks[m].current <= p || (m > 0 && r.Tried(m - 1).NoAttempt?)
    ensures r.Tried(i) == Attempt(k) ==> k <= p
  {
    if m > 0 && r.Tried(m - 1).NoAttempt? {
      assert r.walks[m] == AfterTurn(r.order, r.interval, r.walks[m - 1], r.turns[m - 1]).0;
    }
    NeverPast(r, p, m, i);
    assert r.Wants(i, p);
  }

  // ----- Who is served in a walk -----

  /** The position of the walk only grows. */
  lemma {:induction false} WalkAdvances(r: Turns, j: nat, i: nat)
    requires r.IsWalk() && j < i < |r.turns|
    ensures r.Tried(j).Attempt? && r.Tried(j).k < r.walks[i].current
  {
    assert !r.Tried(i - 1).NoAttempt? && !r.Tried(j).NoAttempt?;
    if j < i - 1 {
      WalkAdvances(r, j, i - 1);
    }
  }

  /** At the i-th turn the k-th output is attempted or not pending. */
  predicate IsServed(r: Turns, i: nat, k: nat)
    requires i < |r.turns| < |r.walks|
  {
    r.Tried(i) == Attempt(k) || !r.Wants(i, k)
  }

  /** The outputs before the position of the walk have been served. */
  lemma {:induction false} PassedAreServed(r: Turns, i: nat, k: nat)
    requires r.IsWalk() && i < |r.turns| && k < r.walks[i].current
    ensures exists j :: 0 <= j < i && IsServed(r, j, k)
  {
    if i > 0 {
      assert !r.Tried(i - 1).NoAttempt?;
      if k < r.walks[i - 1].current {
        PassedAreServed(r, i - 1, k);
        var j :| 0 <= j < i - 1 && IsServed(r, j, k);
        assert IsServed(r, j, k);
      } else {
        assert IsServed(r, i - 1, k);
      }
    }
  }

  /** Writes pause at a turn of a walk only after a failure in it. */
  lemma {:induction false} PauseComesFromFailure(r: Turns, i: nat) returns (j: nat)
    requires r.IsWalk() && i < |r.turns| && r.walks[i].nextWrite > r.turns[i].now
    ensures j < i && r.Tried(j).Attempt? && r.FailsAt(j, r.Tried(j).k)
  {
    j := FailureBefore(r, i);
  }

  lemma {:induction false} FailureBefore(r: Turns, i: nat) returns (j: nat)
    requires r.IsWalk() && i < |r.turns| && r.walks[i].nextWrite != r.walks[0].nextWrite
    ensures j < i && r.Tried(j).Attempt? && r.turns[j].reply.Failed?
  {
    assert !r.Tried(i - 1).NoAttempt?;
    if r.turns[i - 1].reply.Failed? {
      j := i - 1;
    } else {
      j := FailureBefore(r, i - 1);
    }
  }

  /** Each output of the list gets its turn in a walk in which no output before it
      fails: it is attempted, or it is not pending at some time during the walk. */
  lemma WalkServes(r: Turns, k: nat)
    requires r.IsWalk() && k < |r.order|
    requires forall i, q :: 0 <= i < |r.turns| && 0 <= q < k ==> !r.FailsAt(i, q)
    ensures exists i :: 0 <= i < |r.turns| && IsServed(r, i, k)
  {
    var last := |r.turns| - 1;
    if k < r.walks[last].current {
      PassedAreServed(r, last, k);
      var j :| 0 <= j < last && IsServed(r, j, k);
      assert IsServed(r, j, k);
    } else {
      if r.walks[last].nextWrite > r.turns[last].now {
        var j := PauseComesFromFailure(r, last);
        WalkAdvances(r, j, last);
        assert false;
      }
      assert r.Tried(last).NoAttempt?;
      assert IsServed(r, last, k);
    }
  }

  /** A failure ends the walk at the next turn. */
  lemma FailureEndsWalk(r: Turns, i: nat, q: nat)
    requires r.IsWalk() && r.PausesLast() && i < |r.turns| && r.FailsAt(i, q)
    ensures i == |r.turns| - 2
  {
    assert !r.Tried(i).NoAttempt?;
    assert r.PauseOutlasts(i) && r.walks[i + 1] == AfterTurn(r.order, r.interval, r.walks[i], r.turns[i]).0;
    assert r.Tried(i + 1).NoAttempt?;
  }

  /** Where pauses last over a turn, an output that is pending all the time is attempted
      in a walk exactly if no output before it in the list fails in that walk. */
  lemma AttemptedIffNoneBeforeFails(r: Turns, k: nat)
    requires r.IsWalk() && r.PausesLast() && k < |r.order| && forall i :: 0 <= i < |r.turns| ==> r.Wants(i, k)
    ensures (exists i :: 0 <= i < |r.turns| && r.Tried(i) == Attempt(k))
      <==> forall i, q :: 0 <= i < |r.turns| && 0 <= q < k ==> !r.FailsAt(i, q)
  {
    if j :| 0 <= j < |r.turns| && r.Tried(j) == Attempt(k) {
      forall i, q | 0 <= i < |r.turns| && 0 <= q < k ensures !r.FailsAt(i, q) {
        if r.FailsAt(i, q) {
          FailureEndsWalk(r, i, q);
          if j < i {
            WalkAdvances(r, j, i);
          }
        }
      }
    }
    if forall i, q :: 0 <= i < |r.turns| && 0 <= q < k ==> !r.FailsAt(i, q) {
      WalkServes(r, k);
      var i :| 0 <= i < |r.turns| && IsServed(r, i, k);
      assert r.Wants(i, k);
    }
  }

  // ----- Every output gets its turn -----

  /** After a turn in which nothing is attempted the walk is at the head of the list,
      and if the next turn attempts nothing either and no pause is on, no output of the
      list is pending. */
  lemma IdleMeansNonePending(r: Turns, i: nat, k: nat)
    requires r.IsRun() && i < |r.turns| && r.Tried(i).NoAttempt?
    ensures r.walks[i + 1] == Walk(0, r.walks[i].nextWrite)
    ensures i + 1 < |r.turns| && r.Tried(i + 1).NoAttempt? && r.walks[i + 1].nextWrite <= r.turns[i + 1].now ==>
      !r.Wants(i + 1, k)
  {
    assert r.walks[i + 1] == AfterTurn(r.order, r.interval, r.walks[i], r.turns[i]).0;
  }

  /** Writes do not pause at the i-th turn. */
  predicate IsActive(r: Turns, i: nat)
    requires i < |r.turns| < |r.walks|
  {
    r.walks[i].nextWrite <= r.turns[i].now
  }

  function ActiveTurns(r: Turns, n: nat): nat
    requires n <= |r.turns| < |r.walks|
  {
    if n == 0 then 0 else ActiveTurns(r, n - 1) + if IsActive(r, n - 1) then 1 else 0
  }

  /** How many turns without a pause may pass until the k-th output is attempted. */
  function Distance(r: Turns, k: nat, current: nat): int {
    if current <= k then k + 1 - current else |r.order| - current + k + 2
  }

  /** On its way to the k-th output the walk does not have to pause. */
  predicate GoesOn(r: Turns, k: nat, i: nat)
    requires i < |r.turns| < |r.walks|
  {
    r.walks[i].current <= |r.order| && (0 < r.walks[i].current <= k ==> IsActive(r, i))
  }

  ghost predicate StaysPending(r: Turns, k: nat) {
    && r.IsRun() && k < |r.order| && r.walks[0].current <= |r.order|
    && (forall i :: 0 <= i < |r.turns| ==> r.Wants(i, k))
    && (forall i :: 0 <= i < |r.turns| - 1 ==> r.turns[i].now <= r.turns[i + 1].now)
    && (forall i, q :: 0 <= i < |r.turns| && 0 <= q < k ==> !r.FailsAt(i, q))
  }

  lemma GoesOnStep(r: Turns, k: nat, i: nat)
    requires StaysPending(r, k) && i < |r.turns| && r.walks[i].current <= |r.order| && r.Tried(i) != Attempt(k)
    requires IsActive(r, i) ==> GoesOn(r, k, i)
    ensures i + 1 < |r.turns| ==> GoesOn(r, k, i + 1)
    ensures IsActive(r, i) ==> Distance(r, k, r.walks[i + 1].current) < Distance(r, k, r.walks[i].current)
    ensures !IsActive(r, i) ==> r.walks[i + 1].current == 0
  {
    assert r.Wants(i, k) && r.walks[i + 1] == AfterTurn(r.order, r.interval, r.walks[i], r.turns[i]).0;
    if i + 1 < |r.turns| {
      assert r.turns[i].now <= r.turns[i + 1].now;
    }
    if r.Tried(i).Attempt? {
      assert r.Tried(i).k < k ==> !r.FailsAt(i, r.Tried(i).k);
    }
  }

  lemma {:induction false} ComesCloser(r: Turns, k: nat, n: nat)
    requires StaysPending(r, k) && n <= |r.turns| && forall i :: 0 <= i < n ==> r.Tried(i) != Attempt(k)
    ensures r.walks[n].current <= |r.order| && (0 < n < |r.turns| ==> GoesOn(r, k, n))
    ensures ActiveTurns(r, n) + Distance(r, k, r.walks[n].current) <= |r.order| + 1
    ensures 0 < n <= |r.turns| && r.walks[n].current == 0 ==> ActiveTurns(r, n) <= |r.order| - k
  {
    if n > 0 {
      ComesCloser(r, k, n - 1);
      assert r.walks[n] == AfterTurn(r.order, r.interval, r.walks[n - 1], r.turns[n - 1]).0;
      GoesOnStep(r, k, n - 1);
    }
  }

  /** From any state of the walk: an output that stays pending is attempted within
      |order| + 1 turns without a pause, if no output before it fails.  Outputs behind
      it may fail, and pauses may come at any time. */
  lemma {:induction false} PendingIsServed(r: Turns, k: nat)
    requires StaysPending(r, k) && ActiveTurns(r, |r.turns|) > |r.order|
    ensures exists i :: 0 <= i < |r.turns| && r.Tried(i) == Attempt(k)
  {
    if forall i :: 0 <= i < |r.turns| ==> r.Tried(i) != Attempt(k) {
      ComesCloser(r, k, |r.turns|);
    }
  }
}
