/** The records the optimizer works on: virtual machines, tasks and
    assignments of tasks to machines, together with the well-formedness
    conditions the Python dictionaries impose on them. */
module Records {

  /** "No value yet"; stands in for `None` and for the `float('inf')` sentinel. */
  datatype Option<+T> = None | Some(value: T)

  /** A virtual machine. Only the fields the optimizer reads are kept:
      `ip` and `ram_gb` are never consulted. */
  datatype Vm = Vm(name: string, cpuCores: real)

  /** A task. Only `id` and `cpu_load` are consulted by the optimizer. */
  datatype Task = Task(id: int, cpuLoad: real)

  /** A schedule: task id to VM name. */
  type Assignment = map<int, string>

  function Ids(tasks: seq<Task>): (r: set<int>)
    ensures forall i :: 0 <= i < |tasks| ==> tasks[i].id in r
  {
    set t | t in tasks :: t.id
  }

  function Names(vms: seq<Vm>): (r: set<string>)
    ensures forall j :: 0 <= j < |vms| ==> vms[j].name in r
  {
    set v | v in vms :: v.name
  }

  /** The names of a non-empty VM list: the head's and the tail's; with
      distinct names the head's is not among the tail's. */
  lemma NamesOfCons(vms: seq<Vm>)
    requires |vms| > 0
    ensures Names(vms) == {vms[0].name} + Names(vms[1..])
    ensures DistinctNames(vms) ==> vms[0].name !in Names(vms[1..])
  {
    assert vms == [vms[0]] + vms[1..];
    if DistinctNames(vms) {
      forall v | v in vms[1..] ensures v.name != vms[0].name {
        var q :| 0 <= q < |vms[1..]| && vms[1..][q] == v;
        assert vms[q + 1] == v;
      }
    }
  }

  /** The names of a non-empty VM list: the last VM's and the others';
      with distinct names the others stay distinct and the last name is not
      among theirs. */
  lemma NamesOfSnoc(vms: seq<Vm>)
    requires |vms| > 0
    ensures Names(vms) == Names(vms[..|vms| - 1]) + {vms[|vms| - 1].name}
    ensures DistinctNames(vms) ==>
              DistinctNames(vms[..|vms| - 1]) && vms[|vms| - 1].name !in Names(vms[..|vms| - 1])
  {
    var n := |vms| - 1;
    assert vms == vms[..n] + [vms[n]];
    if DistinctNames(vms) {
      forall v | v in vms[..n] ensures v.name != vms[n].name {
        var q :| 0 <= q < n && vms[..n][q] == v;
        assert vms[q] == v;
      }
    }
  }

  /** Task ids are unique, so the dictionary keyed by id loses nothing. */
  predicate DistinctIds(tasks: seq<Task>) {
    forall i, j :: 0 <= i < j < |tasks| ==> tasks[i].id != tasks[j].id
  }

  /** VM names are unique, so the dictionary keyed by name loses nothing. */
  predicate DistinctNames(vms: seq<Vm>) {
    forall i, j :: 0 <= i < j < |vms| ==> vms[i].name != vms[j].name
  }

  predicate PositiveCores(vms: seq<Vm>) {
    forall j :: 0 <= j < |vms| ==> vms[j].cpuCores > 0.0
  }

  /** Python's `if best_vm_name:` is false for the empty name. */
  predicate NamesNonEmpty(vms: seq<Vm>) {
    forall j :: 0 <= j < |vms| ==> vms[j].name != ""
  }

  predicate NonNegativeLoads(tasks: seq<Task>) {
    forall i :: 0 <= i < |tasks| ==> tasks[i].cpuLoad >= 0.0
  }

  /** What every entry point of the optimizer assumes of its input. */
  predicate ValidInstance(tasks: seq<Task>, vms: seq<Vm>) {
    DistinctIds(tasks) && DistinctNames(vms) && PositiveCores(vms)
  }

  /** Every entry refers to a known task and a known VM: the lookups
      `tasks_dict[task_id]` and `vms_dict[vm_name]` succeed. */
  predicate Consistent(sol: Assignment, tasks: seq<Task>, vms: seq<Vm>) {
    sol.Keys <= Ids(tasks) && forall id :: id in sol ==> sol[id] in Names(vms)
  }

  /** A consistent assignment that places every task. */
  predicate Complete(sol: Assignment, tasks: seq<Task>, vms: seq<Vm>) {
    Consistent(sol, tasks, vms) && sol.Keys == Ids(tasks)
  }

  /** Estimated execution time of `t` on `v`. */
  function Time(t: Task, v: Vm): real
    requires v.cpuCores > 0.0
  {
    t.cpuLoad / v.cpuCores
  }

  /** Position of the task with a given id: the `tasks_dict[task_id]` lookup. */
  function TaskIndex(tasks: seq<Task>, id: int): (i: nat)
    requires id in Ids(tasks)
    ensures i < |tasks| && tasks[i].id == id
  {
    if tasks[0].id == id then 0
    else
      assert id in Ids(tasks[1..]) by {
        var t :| t in tasks && t.id == id;
        var k :| 0 <= k < |tasks| && tasks[k] == t;
        assert tasks[1..][k - 1] == t;
      }
      1 + TaskIndex(tasks[1..], id)
  }

  /** Position of the VM with a given name: the `vms_dict[vm_name]` lookup. */
  function VmIndex(vms: seq<Vm>, name: string): (i: nat)
    requires name in Names(vms)
    ensures i < |vms| && vms[i].name == name
  {
    if vms[0].name == name then 0
    else
      assert name in Names(vms[1..]) by {
        var v :| v in vms && v.name == name;
        var k :| 0 <= k < |vms| && vms[k] == v;
        assert vms[1..][k - 1] == v;
      }
      1 + VmIndex(vms[1..], name)
  }
}
