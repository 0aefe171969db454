/** The greedy initializer `initialize_greedy`: longest-processing-time-first
    list scheduling, each task going to the VM on which it would finish
    earliest, the first such VM in list order on ties. */
module Greedy {
  import opened Records
  import opened Aggregates
  import opened Sorting
  import opened Makespan

  function NegLoad(t: Task): real {
    -t.cpuLoad
  }

  /** `sorted(tasks, key=cpu_load, reverse=True)`: a permutation in
      non-increasing load order in which tasks of equal load keep their
      input order. */
  function SortByLoadDesc(tasks: seq<Task>): (r: seq<Task>)
    ensures multiset(r) == multiset(tasks)
    ensures |r| == |tasks|
    ensures forall i, j :: 0 <= i < j < |r| ==> r[i].cpuLoad >= r[j].cpuLoad
    ensures forall k :: WithKey(r, NegLoad, k) == WithKey(tasks, NegLoad, k)
  {
    var r := SortBy(tasks, NegLoad);
    assert forall i, j :: 0 <= i < j < |r| ==> NegLoad(r[i]) <= NegLoad(r[j]);
    r
  }

  /** The running state of the pass: the schedule built so far and every
      VM's finish time, in VM order. */
  datatype GreedyState = GreedyState(assignment: Assignment, finish: seq<real>)

  function Start(vms: seq<Vm>): GreedyState {
    GreedyState(map[], seq(|vms|, _ => 0.0))
  }

  /** The finish time every VM would reach if `t` were added to it. */
  function Candidates(finish: seq<real>, vms: seq<Vm>, t: Task): (c: seq<real>)
    requires |finish| == |vms| && PositiveCores(vms)
    ensures |c| == |vms|
    ensures forall j :: 0 <= j < |vms| ==> c[j] == finish[j] + Time(t, vms[j])
  {
    seq(|vms|, j requires 0 <= j < |vms| => finish[j] + Time(t, vms[j]))
  }

  /** One iteration of the outer loop: pick the first VM with the smallest
      candidate finish time and commit `t` to it, unless there is no VM or
      its name is empty (Python's `if best_vm_name:`). */
  function Step(st: GreedyState, t: Task, vms: seq<Vm>): (r: GreedyState)
    requires |st.finish| == |vms| && PositiveCores(vms)
    ensures |r.finish| == |vms|
  {
    var c := Candidates(st.finish, vms, t);
    match FirstMin(c)
    case None => st
    case Some(i) =>
      if vms[i].name != "" then GreedyState(st.assignment[t.id := vms[i].name], st.finish[i := c[i]])
      else st
  }

  /** The state after the tasks `ts` have been processed in order. */
  function Run(ts: seq<Task>, vms: seq<Vm>): (r: GreedyState)
    requires PositiveCores(vms)
    ensures |r.finish| == |vms|
  {
    if |ts| == 0 then Start(vms)
    else Step(Run(ts[..|ts| - 1], vms), ts[|ts| - 1], vms)
  }

  /** The schedule `initialize_greedy` returns. */
  function GreedyAssignment(tasks: seq<Task>, vms: seq<Vm>): Assignment
    requires PositiveCores(vms)
  {
    Run(SortByLoadDesc(tasks), vms).assignment
  }

  /** What holds of the state after the tasks `done` have been processed:
      only they are placed (all of them when some VM can take them), only
      on known VMs, and each VM's finish time is exactly the load the
      makespan function charges it with. */
  predicate Committed(st: GreedyState, done: seq<Task>, tasks: seq<Task>, vms: seq<Vm>)
    requires PositiveCores(vms) && |st.finish| == |vms|
  {
    && Consistent(st.assignment, tasks, vms)
    && st.assignment.Keys <= Ids(done)
    && (|vms| > 0 && NamesNonEmpty(vms) ==> st.assignment.Keys == Ids(done))
    && forall j :: 0 <= j < |vms| ==> st.finish[j] == Load(st.assignment, tasks, vms[j])
  }

  /** Reordering keeps ids distinct. */
  lemma PermutationKeepsIdsDistinct(a: seq<Task>, b: seq<Task>)
    requires multiset(a) == multiset(b) && DistinctIds(a)
    ensures DistinctIds(b)
  {
    forall i, j | 0 <= i < j < |b| ensures b[i].id != b[j].id {
      if b[i] == b[j] {
        TwoCopies(b, i, j);
        AtMostOneCopy(a, b[i]);
      } else {
        assert b[i] in multiset(a) && b[j] in multiset(a);
        var p :| 0 <= p < |a| && a[p] == b[i];
        var q :| 0 <= q < |a| && a[q] == b[j];
        assert p != q;
      }
    }
  }

  /** A value at two positions occurs at least twice. */
  lemma TwoCopies(s: seq<Task>, i: nat, j: nat)
    requires i < j < |s| && s[i] == s[j]
    ensures multiset(s)[s[i]] >= 2
  {
    assert s == s[..j] + [s[j]] + s[j + 1..];
    assert s[..j][i] == s[i];
  }

  /** With distinct ids no task occurs twice. */
  lemma {:induction false} AtMostOneCopy(a: seq<Task>, x: Task)
    requires DistinctIds(a)
    ensures multiset(a)[x] <= 1
  {
    if |a| > 0 {
      assert a == [a[0]] + a[1..];
      assert DistinctIds(a[1..]) by {
        forall i, j | 0 <= i < j < |a[1..]| ensures a[1..][i].id != a[1..][j].id {
          assert a[1..][i] == a[i + 1] && a[1..][j] == a[j + 1];
        }
      }
      AtMostOneCopy(a[1..], x);
      if a[0] == x {
        assert x !in a[1..] by {
          forall k | 0 <= k < |a[1..]| ensures a[1..][k] != x {
            assert a[1..][k] == a[k + 1];
          }
        }
      }
    }
  }

  /** One step of the pass preserves `Committed`. */
  lemma CommitStep(s: seq<Task>, k: nat, tasks: seq<Task>, vms: seq<Vm>)
    requires ValidInstance(tasks, vms) && multiset(s) == multiset(tasks) && DistinctIds(s)
    requires k < |s|
    requires Committed(Run(s[..k], vms), s[..k], tasks, vms)
    ensures Committed(Run(s[..k + 1], vms), s[..k + 1], tasks, vms)
  {
    var st := Run(s[..k], vms);
    var t := s[k];
    assert s[..k + 1][..k] == s[..k];
    assert Run(s[..k + 1], vms) == Step(st, t, vms);
    var ti := NextTaskIsFresh(s, k, tasks);
    StepCommits(st, s[..k], tasks, vms, ti);
    assert s[..k + 1] == s[..k] + [t];
  }

  /** The next task in the sorted list is one of the input tasks and its
      id is not among those already processed. */
  lemma NextTaskIsFresh(s: seq<Task>, k: nat, tasks: seq<Task>) returns (ti: nat)
    requires multiset(s) == multiset(tasks) && DistinctIds(s) && k < |s|
    ensures ti < |tasks| && tasks[ti] == s[k]
    ensures s[k].id !in Ids(s[..k])
  {
    assert s[k] in multiset(tasks);
    ti :| 0 <= ti < |tasks| && tasks[ti] == s[k];
    forall u | u in s[..k] ensures u.id != s[k].id {
      var q :| 0 <= q < k && s[..k][q] == u;
      assert s[q] == u;
    }
  }

  /** Processing a fresh input task `tasks[ti]` preserves `Committed`. */
  lemma StepCommits(st: GreedyState, done: seq<Task>, tasks: seq<Task>, vms: seq<Vm>, ti: nat)
    requires ValidInstance(tasks, vms) && |st.finish| == |vms|
    requires ti < |tasks| && tasks[ti].id !in Ids(done)
    requires Committed(st, done, tasks, vms)
    ensures Committed(Step(st, tasks[ti], vms), done + [tasks[ti]], tasks, vms)
  {
    var t := tasks[ti];
    assert Ids(done + [t]) == Ids(done) + {t.id};
    assert t.id in Ids(tasks) by { assert tasks[ti] in tasks; }
    var c := Candidates(st.finish, vms, t);
    match FirstMin(c)
    case None =>
    case Some(i) =>
      assert vms[i] in vms;
      if vms[i].name != "" {
        CommitOne(st, tasks, vms, ti, i);
      }
  }

  /** Committing `tasks[ti]` to `vms[i]` keeps every finish time equal to
      the corresponding load. */
  lemma CommitOne(st: GreedyState, tasks: seq<Task>, vms: seq<Vm>, ti: nat, i: nat)
    requires ValidInstance(tasks, vms) && |st.finish| == |vms|
    requires ti < |tasks| && i < |vms| && tasks[ti].id !in st.assignment
    requires forall j :: 0 <= j < |vms| ==> st.finish[j] == Load(st.assignment, tasks, vms[j])
    ensures forall j :: 0 <= j < |vms| ==>
      st.finish[i := st.finish[i] + Time(tasks[ti], vms[i])][j]
        == Load(st.assignment[tasks[ti].id := vms[i].name], tasks, vms[j])
  {
    CommitAddsToOneVm(st.assignment, tasks, vms, ti, i);
  }

  /** `Committed` holds after every prefix of the sorted task list. */
  lemma {:induction false} CommittedAfterPrefix(tasks: seq<Task>, vms: seq<Vm>, k: nat)
    requires ValidInstance(tasks, vms) && k <= |tasks|
    ensures Committed(Run(SortByLoadDesc(tasks)[..k], vms), SortByLoadDesc(tasks)[..k], tasks, vms)
  {
    var s := SortByLoadDesc(tasks);
    PermutationKeepsIdsDistinct(tasks, s);
    if k == 0 {
      assert s[..0] == [];
      forall j | 0 <= j < |vms| ensures Start(vms).finish[j] == Load(map[], tasks, vms[j]) {
        assert vms[j] in vms;
        LoadOfEmpty(tasks, vms[j]);
      }
    } else {
      CommittedAfterPrefix(tasks, vms, k - 1);
      CommitStep(s, k - 1, tasks, vms);
    }
  }

  /** Every final finish time is the load the makespan function charges
      that VM with, so the greedy schedule's makespan is the latest final
      finish time. */
  lemma GreedyFinishTimesAreLoads(tasks: seq<Task>, vms: seq<Vm>)
    requires ValidInstance(tasks, vms)
    ensures Consistent(GreedyAssignment(tasks, vms), tasks, vms)
    ensures Loads(GreedyAssignment(tasks, vms), tasks, vms) == Run(SortByLoadDesc(tasks), vms).finish
    ensures EstimatedMakespan(GreedyAssignment(tasks, vms), tasks, vms) == MaxOf(Run(SortByLoadDesc(tasks), vms).finish)
  {
    var s := SortByLoadDesc(tasks);
    CommittedAfterPrefix(tasks, vms, |tasks|);
    assert s[..|tasks|] == s;
  }

  /** With at least one VM and no empty VM name, every task is placed on
      exactly one listed VM and nothing else is placed; without VMs the
      schedule is empty. */
  lemma GreedyCovers(tasks: seq<Task>, vms: seq<Vm>)
    requires ValidInstance(tasks, vms)
    ensures |vms| > 0 && NamesNonEmpty(vms) ==> Complete(GreedyAssignment(tasks, vms), tasks, vms)
    ensures |vms| == 0 ==> GreedyAssignment(tasks, vms) == map[]
  {
    var s := SortByLoadDesc(tasks);
    CommittedAfterPrefix(tasks, vms, |tasks|);
    assert s[..|tasks|] == s;
    assert Ids(s) == Ids(tasks) by {
      forall id ensures id in Ids(s) <==> id in Ids(tasks) {
        if id in Ids(s) {
          var t :| t in s && t.id == id;
          assert t in multiset(tasks);
        }
        if id in Ids(tasks) {
          var t :| t in tasks && t.id == id;
          assert t in multiset(s);
        }
      }
    }
  }

  /** `after` is `before` with `t` placed on `vms[i]`, whose candidate
      finish time is minimal, every earlier VM in list order finishing
      strictly later, and only that VM's finish time moved. */
  predicate PlacedOn(before: GreedyState, after: GreedyState, t: Task, vms: seq<Vm>, i: int)
    requires PositiveCores(vms) && |before.finish| == |vms|
  {
    && 0 <= i < |vms|
    && after.assignment == before.assignment[t.id := vms[i].name]
    && after.finish == before.finish[i := before.finish[i] + Time(t, vms[i])]
    && (forall j :: 0 <= j < |vms| ==> before.finish[i] + Time(t, vms[i]) <= before.finish[j] + Time(t, vms[j]))
    && (forall j :: 0 <= j < i ==> before.finish[i] + Time(t, vms[i]) < before.finish[j] + Time(t, vms[j]))
  }

  /** `after` is `before` with `t` placed on some VM of minimal candidate
      finish time, the first such in list order. */
  predicate PlacedOnFirstMinimum(before: GreedyState, after: GreedyState, t: Task, vms: seq<Vm>)
    requires PositiveCores(vms) && |before.finish| == |vms|
  {
    exists i :: 0 <= i < |vms| && PlacedOn(before, after, t, vms, i)
  }

  /** One step of the pass: without VMs nothing changes; otherwise the task
      goes to the first VM on which it would finish earliest, unless that
      VM's name is empty, in which case nothing changes either. */
  lemma StepPlacesOnFirstMinimum(before: GreedyState, t: Task, vms: seq<Vm>)
    requires PositiveCores(vms) && |before.finish| == |vms|
    ensures |vms| == 0 ==> Step(before, t, vms) == before
    ensures Step(before, t, vms) == before || PlacedOnFirstMinimum(before, Step(before, t, vms), t, vms)
    ensures |vms| > 0 && NamesNonEmpty(vms) ==> PlacedOnFirstMinimum(before, Step(before, t, vms), t, vms)
    ensures |vms| > 0 && vms[FirstMin(Candidates(before.finish, vms, t)).value].name == "" ==>
              Step(before, t, vms) == before
    ensures |vms| > 0 && vms[FirstMin(Candidates(before.finish, vms, t)).value].name != "" ==>
              PlacedOnFirstMinimum(before, Step(before, t, vms), t, vms)
  {
    if |vms| > 0 {
      var i := FirstMin(Candidates(before.finish, vms, t)).value;
      if vms[i].name != "" {
        NamedFirstMinimumPlaced(before, t, vms, i);
      } else {
        assert Step(before, t, vms) == before;
      }
    }
  }

  /** When the first VM of minimal candidate finish time, `i`, has a name,
      the step places the task there. */
  lemma NamedFirstMinimumPlaced(before: GreedyState, t: Task, vms: seq<Vm>, i: nat)
    requires PositiveCores(vms) && |before.finish| == |vms|
    requires FirstMin(Candidates(before.finish, vms, t)) == Some(i) && i < |vms| && vms[i].name != ""
    ensures PlacedOnFirstMinimum(before, Step(before, t, vms), t, vms)
  {
    var c := Candidates(before.finish, vms, t);
    var ti := before.finish[i] + Time(t, vms[i]);
    var after := Step(before, t, vms);
    assert after == GreedyState(before.assignment[t.id := vms[i].name], before.finish[i := ti]);
    assert forall j :: 0 <= j < |vms| ==> ti <= before.finish[j] + Time(t, vms[j]) by {
      forall j | 0 <= j < |vms| ensures ti <= before.finish[j] + Time(t, vms[j]) {
        assert c[i] <= c[j];
      }
    }
    assert forall j :: 0 <= j < i ==> ti < before.finish[j] + Time(t, vms[j]) by {
      forall j | 0 <= j < i ensures ti < before.finish[j] + Time(t, vms[j]) {
        assert c[i] < c[j];
      }
    }    assert PlacedOn(before, after, t, vms, i);
  }


  /** The k-th task in sorted order goes to the first VM on which it would
      finish earliest. */
  lemma GreedyChoice(tasks: seq<Task>, vms: seq<Vm>, k: nat)
    requires ValidInstance(tasks, vms) && NamesNonEmpty(vms) && |vms| > 0
    requires k < |tasks|
    ensures PlacedOnFirstMinimum(Run(SortByLoadDesc(tasks)[..k], vms), Run(SortByLoadDesc(tasks)[..k + 1], vms),
                                 SortByLoadDesc(tasks)[k], vms)
  {
    var s := SortByLoadDesc(tasks);
    var before := Run(s[..k], vms);
    assert s[..k + 1][..k] == s[..k];
    assert Run(s[..k + 1], vms) == Step(before, s[k], vms);
    StepPlacesOnFirstMinimum(before, s[k], vms);
  }

  /** The inner loop of `initialize_greedy`: a scan over the VMs keeping
      the best candidate so far and replacing it only on a strictly smaller
      finish time (None plays the part of the initial infinity). */
  method ScanVms(vmFinishTimes: seq<real>, vms: seq<Vm>, task: Task) returns (bestVm: Option<nat>, minFinishTime: real)
    requires |vmFinishTimes| == |vms| && PositiveCores(vms)
    ensures bestVm == FirstMin(Candidates(vmFinishTimes, vms, task))
    ensures bestVm.Some? ==> bestVm.value < |vms| && minFinishTime == vmFinishTimes[bestVm.value] + Time(task, vms[bestVm.value])
  {
    ghost var c := Candidates(vmFinishTimes, vms, task);
    bestVm := None;
    minFinishTime := 0.0;
    for j := 0 to |vms|
      invariant bestVm == FirstMin(c[..j])
      invariant bestVm.Some? ==> bestVm.value < |vms| && minFinishTime == c[bestVm.value]
    {
      var estimatedTime := task.cpuLoad / vms[j].cpuCores;
      var newFinishTime := vmFinishTimes[j] + estimatedTime;
      FirstMinSnoc(c, j);
      if bestVm.None? || newFinishTime < minFinishTime {
        minFinishTime := newFinishTime;
        bestVm := Some(j);
      }
    }
    assert c[..|vms|] == c;
  }

  /** Extending the scanned prefix by one element: the first minimum moves
      to the new element exactly when it is strictly smaller. */
  lemma FirstMinSnoc(xs: seq<real>, j: nat)
    requires j < |xs|
    ensures FirstMin(xs[..j + 1]) ==
              var p := FirstMin(xs[..j]);
              if p.None? || xs[j] < xs[p.value] then Some(j) else p
  {
    assert xs[..j + 1][..j] == xs[..j];
  }

  /** What the scan finds decides the step: commit the task to the VM it
      picked, unless there is none or its name is empty. */
  lemma ScanDecidesStep(st: GreedyState, t: Task, vms: seq<Vm>, bestVm: Option<nat>, m: real)
    requires |st.finish| == |vms| && PositiveCores(vms)
    requires bestVm == FirstMin(Candidates(st.finish, vms, t))
    requires bestVm.Some? ==> bestVm.value < |vms| && m == st.finish[bestVm.value] + Time(t, vms[bestVm.value])
    ensures bestVm.Some? && vms[bestVm.value].name != "" ==>
              Step(st, t, vms) == GreedyState(st.assignment[t.id := vms[bestVm.value].name], st.finish[bestVm.value := m])
    ensures bestVm.None? || vms[bestVm.value].name == "" ==> Step(st, t, vms) == st
  {
  }

  /** The state after one more task of `s`, as decided by the scan. */
  lemma {:induction false} ScanAdvancesRun(s: seq<Task>, k: nat, vms: seq<Vm>, bestVm: Option<nat>, m: real)
    requires PositiveCores(vms) && k < |s|
    requires bestVm == FirstMin(Candidates(Run(s[..k], vms).finish, vms, s[k]))
    requires bestVm.Some? ==> bestVm.value < |vms| && m == Run(s[..k], vms).finish[bestVm.value] + Time(s[k], vms[bestVm.value])
    ensures
      var st := Run(s[..k], vms);
      Run(s[..k + 1], vms) ==
        if bestVm.Some? && vms[bestVm.value].name != ""
        then GreedyState(st.assignment[s[k].id := vms[bestVm.value].name], st.finish[bestVm.value := m])
        else st
  {
    assert s[..k + 1][..k] == s[..k];
    ScanDecidesStep(Run(s[..k], vms), s[k], vms, bestVm, m);
  }

  /** `initialize_greedy` as written: an outer loop over the sorted tasks,
      each committed to the VM the inner scan picks unless its name is
      empty. */
  method InitializeGreedy(tasks: seq<Task>, vms: seq<Vm>) returns (initialSolution: Assignment)
    requires ValidInstance(tasks, vms)
    ensures initialSolution == GreedyAssignment(tasks, vms)
    ensures Consistent(initialSolution, tasks, vms)
    ensures |vms| > 0 && NamesNonEmpty(vms) ==> Complete(initialSolution, tasks, vms)
    ensures |vms| == 0 ==> initialSolution == map[]
  {
    var vmFinishTimes := seq(|vms|, _ => 0.0);
    initialSolution := map[];
    var sortedTasks := SortByLoadDesc(tasks);
    for k := 0 to |sortedTasks|
      invariant |vmFinishTimes| == |vms|
      invariant GreedyState(initialSolution, vmFinishTimes) == Run(sortedTasks[..k], vms)
    {
      var task := sortedTasks[k];
      var bestVm, minFinishTime := ScanVms(vmFinishTimes, vms, task);
      ScanAdvancesRun(sortedTasks, k, vms, bestVm, minFinishTime);
      if bestVm.Some? && vms[bestVm.value].name != "" {
        initialSolution := initialSolution[task.id := vms[bestVm.value].name];
        vmFinishTimes := vmFinishTimes[bestVm.value := minFinishTime];
      }
    }
    assert sortedTasks[..|sortedTasks|] == sortedTasks;
    GreedyCovers(tasks, vms);
    GreedyFinishTimesAreLoads(tasks, vms);
  }
}
