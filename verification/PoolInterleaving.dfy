/** Get and Put of the handle pool step by step, as they interleave: Get runs under the pool lock,
    while Put sends and checks outside of it and takes the lock only to close. Puts follow one
    another under the lock of the surrounding pool. */
module PoolInterleaving {

  /** Inside Get: not called, waiting for a handle with the lock held, holding one. */
  datatype Getter = NoGet | Locked | Holding

  /** Inside Put: not called, handle sent back, found the pool full and about to close. */
  datatype Putter = NoPut | Sent | Closing

  /** Handles are numbered as they are handed out and refer to a numbered database, 0 for none. */
  datatype State = State(
    idle: nat,
    outstanding: map<nat, nat>,
    db: nat,
    opens: nat,
    handed: nat,
    getter: Getter,
    putter: Putter)

  datatype Step = GetLock | GetTake | GetAttach | PutSend(handle: nat) | PutCheck | PutClose

  function Start(capacity: nat): State {
    State(capacity, map[], 0, 0, 0, NoGet, NoPut)
  }

  predicate Enabled(capacity: nat, s: State, step: Step) {
    match step
    case GetLock => s.getter.NoGet?
    case GetTake => s.getter.Locked? && s.idle > 0
    case GetAttach => s.getter.Holding?
    case PutSend(h) => s.putter.NoPut? && h in s.outstanding && s.idle < capacity
    case PutCheck => s.putter.Sent?
    case PutClose => s.putter.Closing? && s.getter.NoGet?
  }

  function Apply(capacity: nat, s: State, step: Step): State
    requires Enabled(capacity, s, step)
  {
    match step
    case GetLock => s.(getter := Locked)
    case GetTake => s.(getter := Holding, idle := s.idle - 1)
    case GetAttach =>
      var db := if s.db == 0 then s.opens + 1 else s.db;
      s.(getter := NoGet, db := db, opens := if s.db == 0 then s.opens + 1 else s.opens,
         outstanding := s.outstanding[s.handed := db], handed := s.handed + 1)
    case PutSend(h) => s.(putter := Sent, outstanding := s.outstanding - {h}, idle := s.idle + 1)
    case PutCheck => s.(putter := if s.idle == capacity then Closing else NoPut)
    case PutClose => s.(putter := NoPut, db := 0)
  }

  ghost predicate Run(capacity: nat, states: seq<State>, steps: seq<Step>) {
    && |states| == |steps| + 1 && states[0] == Start(capacity)
    && forall k | 0 <= k < |steps| ::
      Enabled(capacity, states[k], steps[k]) && states[k + 1] == Apply(capacity, states[k], steps[k])
  }

  // ---- Accounting -----------------------------------------------------------------------

  function InTransit(s: State): nat {
    if s.getter.Holding? then 1 else 0
  }

  ghost predicate Accounted(capacity: nat, s: State) {
    && s.idle + |s.outstanding| + InTransit(s) == capacity
    && (forall h | h in s.outstanding :: h < s.handed && s.outstanding[h] <= s.opens)
    && s.db <= s.opens
  }

  lemma StepKeepsAccount(capacity: nat, s: State, step: Step)
    requires Accounted(capacity, s) && Enabled(capacity, s, step)
    ensures Accounted(capacity, Apply(capacity, s, step))
  {
    match step
    case GetAttach =>
      assert s.handed !in s.outstanding;
    case PutSend(h) =>
      assert (s.outstanding - {h}).Keys == s.outstanding.Keys - {h};
    case _ =>
  }

  /** No handle is ever lost or handed out twice, however Gets and Puts interleave. */
  lemma {:induction false} HandlesAreAccounted(capacity: nat, states: seq<State>, steps: seq<Step>, k: nat)
    requires Run(capacity, states, steps) && k < |states|
    ensures Accounted(capacity, states[k])
  {
    if k > 0 {
      HandlesAreAccounted(capacity, states, steps, k - 1);
      StepKeepsAccount(capacity, states[k - 1], steps[k - 1]);
    }
  }

  // ---- The open database ----------------------------------------------------------------

  /** Every handle in use refers to the open database, and at rest the database is open exactly
      when a handle is in use. */
  ghost predicate Sound(s: State) {
    && (forall h | h in s.outstanding :: s.outstanding[h] == s.db != 0)
    && (s.getter.NoGet? && s.putter.NoPut? ==> (s.db != 0 <==> s.outstanding != map[]))
  }

  ghost predicate WellTimed(capacity: nat, states: seq<State>, steps: seq<Step>)
    requires |states| == |steps| + 1
  {
    forall k | 0 <= k < |steps| && steps[k].PutClose? :: states[k].idle == capacity
  }

  /** What Sound needs in between: an open database without handles is about to be used or closed. */
  ghost predicate Steady(capacity: nat, s: State) {
    && Accounted(capacity, s)
    && (forall h | h in s.outstanding :: s.outstanding[h] == s.db != 0)
    && (s.db != 0 ==> s.outstanding != map[] || s.getter.Holding? || !s.putter.NoPut?)
  }

  lemma StepKeepsSteady(capacity: nat, s: State, step: Step)
    requires Steady(capacity, s) && Enabled(capacity, s, step)
    requires step.PutClose? ==> s.idle == capacity
    ensures Steady(capacity, Apply(capacity, s, step))
  {
    StepKeepsAccount(capacity, s, step);
    match step
    case GetAttach =>
      assert s.handed in Apply(capacity, s, step).outstanding;
    case PutClose =>
      assert |s.outstanding| == 0;
    case PutCheck =>
      assert s.idle < capacity && s.getter != Holding ==> s.outstanding != map[];
    case _ =>
  }

  lemma SteadyIsSound(capacity: nat, s: State)
    requires Steady(capacity, s)
    ensures Sound(s)
  {
    if s.outstanding != map[] {
      var h :| h in s.outstanding;
    }
  }

  lemma {:induction false} WellTimedSteady(capacity: nat, states: seq<State>, steps: seq<Step>, k: nat)
    requires Run(capacity, states, steps) && WellTimed(capacity, states, steps) && k < |states|
    ensures Steady(capacity, states[k])
  {
    if k > 0 {
      WellTimedSteady(capacity, states, steps, k - 1);
      StepKeepsSteady(capacity, states[k - 1], steps[k - 1]);
    }
  }

  /** A run keeps every handle on the open database exactly when each close finds the pool still
      full, that is, when no Get came in between its check and its lock. */
  lemma SoundExactly(capacity: nat, states: seq<State>, steps: seq<Step>)
    requires Run(capacity, states, steps)
    ensures (forall k | 0 <= k < |states| :: Sound(states[k])) <==> WellTimed(capacity, states, steps)
  {
    if WellTimed(capacity, states, steps) {
      forall k | 0 <= k < |states| ensures Sound(states[k]) {
        WellTimedSteady(capacity, states, steps, k);
        SteadyIsSound(capacity, states[k]);
      }
    } else {
      var k :| 0 <= k < |steps| && steps[k].PutClose? && states[k].idle != capacity;
      HandlesAreAccounted(capacity, states, steps, k);
      assert states[k].outstanding != map[];
      var h :| h in states[k].outstanding;
      assert states[k + 1] == Apply(capacity, states[k], steps[k]);
      assert h in states[k + 1].outstanding && states[k + 1].db == 0;
      assert !Sound(states[k + 1]);
    }
  }

  /** The steps of a late close: the last handle comes back and the pool is found full; before the
      close, the handle is handed out again. */
  function LateClose(): (run: (seq<State>, seq<Step>))
    ensures |run.0| == 9 && |run.1| == 8
  {
    ([Start(1),
      State(1, map[], 0, 0, 0, Locked, NoPut),
      State(0, map[], 0, 0, 0, Holding, NoPut),
      State(0, map[0 := 1], 1, 1, 1, NoGet, NoPut),
      State(1, map[], 1, 1, 1, NoGet, Sent),
      State(1, map[], 1, 1, 1, NoGet, Closing),
      State(1, map[], 1, 1, 1, Locked, Closing),
      State(0, map[], 1, 1, 1, Holding, Closing),
      State(0, map[1 := 1], 1, 1, 2, NoGet, Closing)],
     [GetLock, GetTake, GetAttach, PutSend(0), PutCheck, GetLock, GetTake, GetAttach])
  }

  lemma LateCloseIsRun()
    ensures Run(1, LateClose().0, LateClose().1)
  {
    var run := LateClose();
    assert map[0 := 1] - {0} == map[];
    forall k | 0 <= k < 8
      ensures Enabled(1, run.0[k], run.1[k]) && run.0[k + 1] == Apply(1, run.0[k], run.1[k])
    {
    }
  }

  lemma RunExtends(capacity: nat, states: seq<State>, steps: seq<Step>, step: Step)
    requires Run(capacity, states, steps) && Enabled(capacity, states[|steps|], step)
    ensures Run(capacity, states + [Apply(capacity, states[|steps|], step)], steps + [step])
  {
  }

  /** This happens: a caller is left with a handle on a closed database. */
  lemma ClosedUnderCaller() returns (states: seq<State>, steps: seq<Step>, h: nat)
    ensures Run(1, states, steps) && h in states[|steps|].outstanding
    ensures states[|steps|].outstanding[h] != 0 && states[|steps|].db == 0
  {
    LateCloseIsRun();
    RunExtends(1, LateClose().0, LateClose().1, PutClose);
    states, steps, h := LateClose().0 + [Apply(1, LateClose().0[8], PutClose)], LateClose().1 + [PutClose], 1;
  }

  // ---- Deadlock -------------------------------------------------------------------------

  /** No step is possible, although callers return their handles. */
  ghost predicate Stuck(capacity: nat, s: State) {
    forall step :: !Enabled(capacity, s, step)
  }

  /** The pool is stuck exactly when a late close waits for the lock of a Get that waits for a
      handle: the returning of handles waits for the close. */
  lemma StuckExactly(capacity: nat, s: State)
    requires capacity > 0 && Accounted(capacity, s)
    ensures Stuck(capacity, s) <==> s.putter.Closing? && s.getter.Locked? && s.idle == 0
  {
    if Stuck(capacity, s) {
      assert !Enabled(capacity, s, GetLock) && !Enabled(capacity, s, GetTake) && !Enabled(capacity, s, GetAttach);
      assert !Enabled(capacity, s, PutCheck);
      assert |s.outstanding| == capacity;
      assert s.outstanding != map[];
      var h :| h in s.outstanding;
      assert !Enabled(capacity, s, PutSend(h));
    }
  }

  /** This happens as well, already with a single handle. */
  lemma LateCloseDeadlocks() returns (states: seq<State>, steps: seq<Step>)
    ensures Run(1, states, steps) && Stuck(1, states[|steps|])
  {
    LateCloseIsRun();
    RunExtends(1, LateClose().0, LateClose().1, GetLock);
    states, steps := LateClose().0 + [Apply(1, LateClose().0[8], GetLock)], LateClose().1 + [GetLock];
  }
}
