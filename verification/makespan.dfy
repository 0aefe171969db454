/** The cost function `calculate_estimated_makespan`: the busiest VM's
    accumulated load/cores. */
module Makespan {
  import opened Records
  import opened Aggregates

  /** Accumulated estimated time of `v` under `sol`: the sum of load/cores
      over the tasks that `sol` puts on `v`. */
  function Load(sol: Assignment, tasks: seq<Task>, v: Vm): real
    requires v.cpuCores > 0.0
  {
    if |tasks| == 0 then 0.0
    else
      (if tasks[0].id in sol && sol[tasks[0].id] == v.name then Time(tasks[0], v) else 0.0)
      + Load(sol, tasks[1..], v)
  }

  /** The accumulated time of every VM, in VM order. */
  function Loads(sol: Assignment, tasks: seq<Task>, vms: seq<Vm>): (r: seq<real>)
    requires PositiveCores(vms)
    ensures |r| == |vms|
    ensures forall j :: 0 <= j < |vms| ==> r[j] == Load(sol, tasks, vms[j])
  {
    seq(|vms|, j requires 0 <= j < |vms| => Load(sol, tasks, vms[j]))
  }

  /** Estimated makespan: the largest accumulated time over all VMs, idle
      ones counting 0; 0 when there is no VM at all. */
  function EstimatedMakespan(sol: Assignment, tasks: seq<Task>, vms: seq<Vm>): (r: real)
    requires ValidInstance(tasks, vms) && Consistent(sol, tasks, vms)
    ensures |vms| == 0 ==> r == 0.0
    ensures forall j :: 0 <= j < |vms| ==> Load(sol, tasks, vms[j]) <= r
    ensures |vms| > 0 ==> exists j :: 0 <= j < |vms| && r == Load(sol, tasks, vms[j])
  {
    MaxOf(Loads(sol, tasks, vms))
  }

  /** The part of `sol` whose keys are in `done`. */
  function Restrict(sol: Assignment, done: set<int>): (r: Assignment)
    ensures r.Keys == sol.Keys * done
    ensures forall id :: id in r ==> r[id] == sol[id]
  {
    map id | id in sol && id in done :: sol[id]
  }

  /** Nothing assigned, nothing accumulated. */
  lemma {:induction false} LoadOfEmpty(tasks: seq<Task>, v: Vm)
    requires v.cpuCores > 0.0
    ensures Load(map[], tasks, v) == 0.0
  {
    if |tasks| > 0 {
      LoadOfEmpty(tasks[1..], v);
    }
  }

  /** Entries for ids that are not tasks do not contribute. */
  lemma {:induction false} LoadIgnoresUnknownId(sol: Assignment, tasks: seq<Task>, v: Vm, id: int, name: string)
    requires v.cpuCores > 0.0
    requires forall i :: 0 <= i < |tasks| ==> tasks[i].id != id
    ensures Load(sol[id := name], tasks, v) == Load(sol, tasks, v)
  {
    if |tasks| > 0 {
      LoadIgnoresUnknownId(sol, tasks[1..], v, id, name);
    }
  }

  /** Committing one more task `tasks[i]` to VM `name` adds its time to that
      VM's load and changes no other VM's load. */
  lemma {:induction false} LoadAfterCommit(sol: Assignment, tasks: seq<Task>, v: Vm, i: nat, name: string)
    requires v.cpuCores > 0.0 && DistinctIds(tasks)
    requires i < |tasks| && tasks[i].id !in sol
    ensures Load(sol[tasks[i].id := name], tasks, v)
         == Load(sol, tasks, v) + (if name == v.name then Time(tasks[i], v) else 0.0)
  {
    var id := tasks[i].id;
    if i == 0 {
      LoadIgnoresUnknownId(sol, tasks[1..], v, id, name);
    } else {
      LoadAfterCommit(sol, tasks[1..], v, i - 1, name);
    }
  }

  /** With non-negative task loads no VM's accumulated time is negative. */
  lemma {:induction false} LoadNonNegative(sol: Assignment, tasks: seq<Task>, v: Vm)
    requires v.cpuCores > 0.0 && NonNegativeLoads(tasks)
    ensures Load(sol, tasks, v) >= 0.0
  {
    if |tasks| > 0 {
      assert tasks[0] in tasks;
      LoadNonNegative(sol, tasks[1..], v);
    }
  }

  /** A VM's load is at least the time of any single task placed on it. */
  lemma {:induction false} LoadCoversTask(sol: Assignment, tasks: seq<Task>, v: Vm, i: nat)
    requires v.cpuCores > 0.0 && NonNegativeLoads(tasks)
    requires i < |tasks| && tasks[i].id in sol && sol[tasks[i].id] == v.name
    ensures Load(sol, tasks, v) >= Time(tasks[i], v)
  {
    assert tasks[0] in tasks;
    if i == 0 {
      LoadNonNegative(sol, tasks[1..], v);
    } else {
      LoadCoversTask(sol, tasks[1..], v, i - 1);
    }
  }

  /** With non-negative loads the makespan is non-negative and bounds the
      time of every placed task on its VM. */
  lemma MakespanBounds(sol: Assignment, tasks: seq<Task>, vms: seq<Vm>)
    requires ValidInstance(tasks, vms) && Consistent(sol, tasks, vms)
    requires NonNegativeLoads(tasks)
    ensures EstimatedMakespan(sol, tasks, vms) >= 0.0
    ensures forall i, j :: 0 <= i < |tasks| && 0 <= j < |vms| && tasks[i].id in sol && sol[tasks[i].id] == vms[j].name
              ==> EstimatedMakespan(sol, tasks, vms) >= Time(tasks[i], vms[j])
  {
    if |vms| > 0 {
      assert vms[0] in vms;
      LoadNonNegative(sol, tasks, vms[0]);
    }
    forall i, j | 0 <= i < |tasks| && 0 <= j < |vms| && tasks[i].id in sol && sol[tasks[i].id] == vms[j].name
      ensures EstimatedMakespan(sol, tasks, vms) >= Time(tasks[i], vms[j])
    {
      assert vms[j] in vms;
      LoadCoversTask(sol, tasks, vms[j], i);
    }
  }

  /** One task on one VM costs exactly load/cores. */
  lemma SingleTaskSingleVm(t: Task, v: Vm)
    requires v.cpuCores > 0.0
    ensures EstimatedMakespan(map[t.id := v.name], [t], [v]) == t.cpuLoad / v.cpuCores
  {
    assert Load(map[t.id := v.name], [t], v) == t.cpuLoad / v.cpuCores by {
      assert [t][1..] == [];
    }
  }

  /** Assigning a fresh task `tasks[ti]` to `vms[vi]` adds its time to that
      VM's load and to no other VM's. */
  lemma CommitAddsToOneVm(sol: Assignment, tasks: seq<Task>, vms: seq<Vm>, ti: nat, vi: nat)
    requires ValidInstance(tasks, vms)
    requires ti < |tasks| && vi < |vms| && tasks[ti].id !in sol
    ensures forall j :: 0 <= j < |vms| ==>
              Load(sol[tasks[ti].id := vms[vi].name], tasks, vms[j])
                == Load(sol, tasks, vms[j]) + (if j == vi then Time(tasks[ti], vms[vi]) else 0.0)
  {
    forall j | 0 <= j < |vms|
      ensures Load(sol[tasks[ti].id := vms[vi].name], tasks, vms[j])
                == Load(sol, tasks, vms[j]) + (if j == vi then Time(tasks[ti], vms[vi]) else 0.0)
    {
      assert vms[j] in vms;
      LoadAfterCommit(sol, tasks, vms[j], ti, vms[vi].name);
    }
  }

  /** Before any entry is visited every running total is 0. */
  lemma NothingVisited(sol: Assignment, tasks: seq<Task>, vms: seq<Vm>)
    requires PositiveCores(vms)
    ensures forall j :: 0 <= j < |vms| ==> Load(Restrict(sol, {}), tasks, vms[j]) == 0.0
  {
    assert Restrict(sol, {}) == map[];
    forall j | 0 <= j < |vms| ensures Load(Restrict(sol, {}), tasks, vms[j]) == 0.0 {
      assert vms[j] in vms;
      LoadOfEmpty(tasks, vms[j]);
    }
  }

  /** Visiting entry `id` adds its task's time to the running total of its
      VM, which keeps the totals equal to the loads of the visited part. */
  lemma {:induction false} VisitEntry(sol: Assignment, tasks: seq<Task>, vms: seq<Vm>, done: set<int>, id: int, loads: seq<real>)
    requires ValidInstance(tasks, vms) && Consistent(sol, tasks, vms)
    requires id in sol && id !in done && |loads| == |vms|
    requires forall j :: 0 <= j < |vms| ==> loads[j] == Load(Restrict(sol, done), tasks, vms[j])
    ensures
      var ti := TaskIndex(tasks, id);
      var vi := VmIndex(vms, sol[id]);
      forall j :: 0 <= j < |vms| ==>
        loads[vi := loads[vi] + tasks[ti].cpuLoad / vms[vi].cpuCores][j] == Load(Restrict(sol, done + {id}), tasks, vms[j])
  {
    var ti := TaskIndex(tasks, id);
    var vi := VmIndex(vms, sol[id]);
    var before := Restrict(sol, done);
    assert Restrict(sol, done + {id}) == before[id := sol[id]];
    CommitAddsToOneVm(before, tasks, vms, ti, vi);
  }

  /** The loop of `calculate_estimated_makespan`: one pass over the entries
      of `sol`, in whatever order the dictionary yields them, adding each
      task's time to its VM's running total, then the maximum. */
  method CalculateEstimatedMakespan(sol: Assignment, tasks: seq<Task>, vms: seq<Vm>) returns (r: real)
    requires ValidInstance(tasks, vms) && Consistent(sol, tasks, vms)
    ensures r == EstimatedMakespan(sol, tasks, vms)
  {
    var vmLoads := AccumulateLoads(sol, tasks, vms);
    r := MaxOf(vmLoads);
  }

  /** The `for task_id, vm_name in solution.items()` loop: whatever order
      the entries come in, the running totals end up as the loads. */
  method AccumulateLoads(sol: Assignment, tasks: seq<Task>, vms: seq<Vm>) returns (vmLoads: seq<real>)
    requires ValidInstance(tasks, vms) && Consistent(sol, tasks, vms)
    ensures vmLoads == Loads(sol, tasks, vms)
  {
    vmLoads := seq(|vms|, _ => 0.0);
    var pending := sol.Keys;
    ghost var done: set<int> := {};
    NothingVisited(sol, tasks, vms);
    while pending != {}
      invariant pending !! done && pending + done == sol.Keys
      invariant |vmLoads| == |vms|
      invariant forall j :: 0 <= j < |vms| ==> vmLoads[j] == Load(Restrict(sol, done), tasks, vms[j])
      decreases pending
    {
      var id :| id in pending;
      var ti := TaskIndex(tasks, id);
      var vi := VmIndex(vms, sol[id]);
      var estimatedTime := tasks[ti].cpuLoad / vms[vi].cpuCores;
      VisitEntry(sol, tasks, vms, done, id, vmLoads);
      vmLoads := vmLoads[vi := vmLoads[vi] + estimatedTime];
      pending := pending - {id};
      done := done + {id};
    }
    assert Restrict(sol, done) == sol;
    assert vmLoads == Loads(sol, tasks, vms);
  }
}
