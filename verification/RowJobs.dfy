/** Jobs that run side by side on the stored rows: each fetches once, computes, and writes its rows
    back one by one. */
module RowJobs {
  import opened EnergyImport

  /** What a job writes, as a function of the rows it finds when it fetches. */
  type Task = Rows -> Rows

  predicate Agree(a: Rows, b: Rows, row: int) {
    (row in a <==> row in b) && (row in a && row in b ==> a[row] == b[row])
  }

  lemma AgreeEverywhere(a: Rows, b: Rows)
    requires forall row :: Agree(a, b, row)
    ensures a == b
  {
    forall row ensures row in a.Keys <==> row in b.Keys {
      assert Agree(a, b, row);
    }
    assert a.Keys == b.Keys;
    forall row | row in a ensures a[row] == b[row] {
      assert Agree(a, b, row);
    }
  }

  /** The task depends on the rows of its owner only. */
  ghost predicate Reads(task: Task, owner: int -> int, i: int) {
    forall a: Rows, b: Rows | (forall row | owner(row) == i :: Agree(a, b, row)) :: task(a) == task(b)
  }

  /** The task writes rows of its owner only. */
  ghost predicate Writes(task: Task, owner: int -> int, i: int) {
    forall a: Rows, row | row in task(a) :: owner(row) == i
  }

  ghost predicate Local(tasks: seq<Task>, owner: int -> int) {
    forall i | 0 <= i < |tasks| :: Reads(tasks[i], owner, i) && Writes(tasks[i], owner, i)
  }

  /** The tasks one after the other. */
  function InSequence(rows: Rows, tasks: seq<Task>): Rows {
    if tasks == [] then rows
    else
      var prev := InSequence(rows, tasks[..|tasks| - 1]);
      prev + tasks[|tasks| - 1](prev)
  }

  // ---- The step system ------------------------------------------------------------------

  datatype Job = Waiting | Writing(pending: Rows)

  datatype State = State(rows: Rows, jobs: seq<Job>)

  datatype Step = Fetch(job: nat) | Write(job: nat, row: int)

  ghost predicate Next(tasks: seq<Task>, s: State, step: Step, s': State) {
    |s.jobs| == |tasks| && step.job < |tasks| &&
    match step
    case Fetch(i) =>
      && s.jobs[i].Waiting?
      && s' == State(s.rows, s.jobs[i := Writing(tasks[i](s.rows))])
    case Write(i, row) =>
      && s.jobs[i].Writing? && row in s.jobs[i].pending
      && s' == State(s.rows[row := s.jobs[i].pending[row]], s.jobs[i := Writing(s.jobs[i].pending - {row})])
  }

  ghost predicate Start(tasks: seq<Task>, s: State, rows0: Rows) {
    s.rows == rows0 && |s.jobs| == |tasks| && forall i | 0 <= i < |s.jobs| :: s.jobs[i].Waiting?
  }

  ghost predicate Finished(s: State) {
    forall i | 0 <= i < |s.jobs| :: s.jobs[i] == Writing(map[])
  }

  ghost predicate Run(tasks: seq<Task>, states: seq<State>, steps: seq<Step>) {
    |states| == |steps| + 1 && forall k | 0 <= k < |steps| :: Next(tasks, states[k], steps[k], states[k + 1])
  }

  /** A row while its job is under way: untouched before the fetch, and afterwards either still to
      be written with the value computed from the rows at the start, or settled. */
  ghost predicate RowOk(rows0: Rows, target: Rows, rows: Rows, job: Job, row: int) {
    match job
    case Waiting => Agree(rows, rows0, row)
    case Writing(p) =>
      if row in p then row in target && p[row] == target[row] else Agree(rows, rows0 + target, row)
  }

  ghost predicate JobOk(rows0: Rows, task: Task, owner: int -> int, i: int, rows: Rows, job: Job) {
    && (forall row | owner(row) == i :: RowOk(rows0, task(rows0), rows, job, row))
    && (job.Writing? ==> forall row | row in job.pending :: owner(row) == i)
  }

  ghost predicate Owned(tasks: seq<Task>, owner: int -> int, row: int) {
    0 <= owner(row) < |tasks|
  }

  ghost predicate Inv(rows0: Rows, tasks: seq<Task>, owner: int -> int, s: State) {
    && |s.jobs| == |tasks|
    && (forall i | 0 <= i < |tasks| :: JobOk(rows0, tasks[i], owner, i, s.rows, s.jobs[i]))
    && (forall row | !Owned(tasks, owner, row) :: Agree(s.rows, rows0, row))
  }

  lemma FetchKeepsInv(rows0: Rows, tasks: seq<Task>, owner: int -> int, s: State, i: nat, s': State)
    requires Local(tasks, owner) && Inv(rows0, tasks, owner, s) && Next(tasks, s, Fetch(i), s')
    ensures Inv(rows0, tasks, owner, s')
  {
    assert JobOk(rows0, tasks[i], owner, i, s.rows, s.jobs[i]);
    assert tasks[i](s.rows) == tasks[i](rows0) by {
      forall row | owner(row) == i ensures Agree(s.rows, rows0, row) {
        assert RowOk(rows0, tasks[i](rows0), s.rows, s.jobs[i], row);
      }
      assert Reads(tasks[i], owner, i);
    }
    forall row | owner(row) == i ensures RowOk(rows0, tasks[i](rows0), s.rows, s'.jobs[i], row) {
      assert RowOk(rows0, tasks[i](rows0), s.rows, s.jobs[i], row);
    }
    assert Writes(tasks[i], owner, i);
    assert JobOk(rows0, tasks[i], owner, i, s'.rows, s'.jobs[i]);
  }

  lemma WriteKeepsInv(rows0: Rows, tasks: seq<Task>, owner: int -> int, s: State, i: nat, row: int, s': State)
    requires Inv(rows0, tasks, owner, s) && Next(tasks, s, Write(i, row), s')
    ensures Inv(rows0, tasks, owner, s')
  {
    assert JobOk(rows0, tasks[i], owner, i, s.rows, s.jobs[i]);
    assert owner(row) == i;
    forall j | 0 <= j < |tasks| ensures JobOk(rows0, tasks[j], owner, j, s'.rows, s'.jobs[j]) {
      assert JobOk(rows0, tasks[j], owner, j, s.rows, s.jobs[j]);
      forall r | owner(r) == j ensures RowOk(rows0, tasks[j](rows0), s'.rows, s'.jobs[j], r) {
        assert RowOk(rows0, tasks[j](rows0), s.rows, s.jobs[j], r);
      }
    }
    forall r | !Owned(tasks, owner, r) ensures Agree(s'.rows, rows0, r) {
      assert Agree(s.rows, rows0, r);
    }
  }

  lemma {:induction false} RunKeepsInv(rows0: Rows, tasks: seq<Task>, owner: int -> int, states: seq<State>,
                                       steps: seq<Step>, n: nat)
    requires Local(tasks, owner) && Run(tasks, states, steps) && Start(tasks, states[0], rows0) && n < |states|
    ensures Inv(rows0, tasks, owner, states[n])
  {
    if n == 0 {
      forall i | 0 <= i < |tasks| ensures JobOk(rows0, tasks[i], owner, i, rows0, states[0].jobs[i]) {
      }
    } else {
      RunKeepsInv(rows0, tasks, owner, states, steps, n - 1);
      match steps[n - 1]
      case Fetch(i) => FetchKeepsInv(rows0, tasks, owner, states[n - 1], i, states[n]);
      case Write(i, row) => WriteKeepsInv(rows0, tasks, owner, states[n - 1], i, row, states[n]);
    }
  }

  // ---- Serialisability ------------------------------------------------------------------

  /** What the tasks leave in a row, computed from the rows at the start. */
  ghost predicate Settled(rows0: Rows, tasks: seq<Task>, owner: int -> int, rows: Rows, row: int) {
    if Owned(tasks, owner, row) then Agree(rows, rows0 + tasks[owner(row)](rows0), row) else Agree(rows, rows0, row)
  }

  lemma {:induction false} SequenceSettles(rows0: Rows, tasks: seq<Task>, owner: int -> int)
    requires Local(tasks, owner)
    ensures forall row :: Settled(rows0, tasks, owner, InSequence(rows0, tasks), row)
  {
    if tasks != [] {
      var rest, n := tasks[..|tasks| - 1], |tasks| - 1;
      var prev := InSequence(rows0, rest);
      SequenceSettles(rows0, rest, owner);
      assert tasks[n](prev) == tasks[n](rows0) by {
        forall row | owner(row) == n ensures Agree(prev, rows0, row) {
          assert Settled(rows0, rest, owner, prev, row);
        }
        assert Reads(tasks[n], owner, n);
      }
      assert Writes(tasks[n], owner, n);
      forall row ensures Settled(rows0, tasks, owner, InSequence(rows0, tasks), row) {
        assert Settled(rows0, rest, owner, prev, row);
      }
    }
  }

  /** Serialisability: however the fetches and the single writes of local jobs interleave, a
      finished run leaves the same rows as running the tasks one after the other. */
  lemma RunsAreSerialisable(rows0: Rows, tasks: seq<Task>, owner: int -> int, states: seq<State>, steps: seq<Step>)
    requires Local(tasks, owner) && Run(tasks, states, steps) && Start(tasks, states[0], rows0)
    requires Finished(states[|steps|])
    ensures states[|steps|].rows == InSequence(rows0, tasks)
  {
    var s := states[|steps|];
    var all := InSequence(rows0, tasks);
    RunKeepsInv(rows0, tasks, owner, states, steps, |steps|);
    SequenceSettles(rows0, tasks, owner);
    forall row ensures Agree(s.rows, all, row) {
      assert Settled(rows0, tasks, owner, all, row);
      if Owned(tasks, owner, row) {
        var i := owner(row);
        assert JobOk(rows0, tasks[i], owner, i, s.rows, s.jobs[i]);
        assert RowOk(rows0, tasks[i](rows0), s.rows, s.jobs[i], row);
      }
    }
    AgreeEverywhere(s.rows, all);
  }
}
