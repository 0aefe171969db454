/** A worked instance: two tasks of load 5 and 10 on VMs with 2 and 1
    cores. The larger task is placed first, on the 2-core VM (finish 5);
    the smaller one would finish at 7.5 there and at 5 on the 1-core VM,
    so it goes there, and the makespan is 5. */
module Scenario {
  import opened Records
  import opened Aggregates
  import opened Sorting
  import opened Greedy
  import opened Makespan
  import opened Eda

  function Small(): Task { Task(1, 5.0) }
  function Large(): Task { Task(2, 10.0) }
  function Machines(): seq<Vm> { [Vm("fast", 2.0), Vm("slow", 1.0)] }

  /** The larger task is sorted first. */
  lemma SortsLargeFirst()
    ensures SortByLoadDesc([Small(), Large()]) == [Large(), Small()]
  {
    var tasks := [Small(), Large()];
    assert tasks[1..] == [Large()] && [Large()][1..] == [];
    assert SortBy([Large()], NegLoad) == [Large()];
    assert Insert(Small(), [Large()], NegLoad) == [Large()] + Insert(Small(), [], NegLoad);
  }

  /** The large task lands on the 2-core VM, finishing at 5. */
  lemma FirstPlacement()
    ensures Step(Start(Machines()), Large(), Machines()) == GreedyState(map[2 := "fast"], [5.0, 0.0])
  {
    assert FirstMin([5.0]) == Some(0);
    assert FirstMin([5.0, 10.0]) == Some(0) by { assert [5.0, 10.0][..1] == [5.0]; }
    assert Candidates(Start(Machines()).finish, Machines(), Large()) == [5.0, 10.0];
  }

  /** The small task would finish at 7.5 on the busy 2-core VM and at 5 on
      the idle 1-core one, so it goes to the latter. */
  lemma SecondPlacement()
    ensures Step(GreedyState(map[2 := "fast"], [5.0, 0.0]), Small(), Machines())
            == GreedyState(map[2 := "fast", 1 := "slow"], [5.0, 5.0])
  {
    assert FirstMin([7.5]) == Some(0);
    assert FirstMin([7.5, 5.0]) == Some(1) by { assert [7.5, 5.0][..1] == [7.5]; }
    assert Candidates([5.0, 0.0], Machines(), Small()) == [7.5, 5.0];
  }

  /** The whole pass over the sorted tasks. */
  lemma RunsBothSteps()
    ensures Run([Large(), Small()], Machines()) == GreedyState(map[2 := "fast", 1 := "slow"], [5.0, 5.0])
  {
    var s := [Large(), Small()];
    FirstPlacement();
    SecondPlacement();
    assert s[..1] == [Large()] && s[..1][..0] == [];
    assert Run(s[..1], Machines()) == GreedyState(map[2 := "fast"], [5.0, 0.0]);
  }

  /** The greedy schedule of the instance. */
  lemma GreedyExample()
    ensures GreedyAssignment([Small(), Large()], Machines()) == map[2 := "fast", 1 := "slow"]
  {
    SortsLargeFirst();
    RunsBothSteps();
  }

  /** Both VMs finish at 5. */
  lemma BothFinishAtFive()
    ensures Run(SortByLoadDesc([Small(), Large()]), Machines()).finish == [5.0, 5.0]
  {
    SortsLargeFirst();
    RunsBothSteps();
  }

  /** The instance has distinct ids and names and positive cores. */
  lemma ExampleIsValid(tasks: seq<Task>, vms: seq<Vm>)
    requires tasks == [Small(), Large()] && vms == Machines()
    ensures ValidInstance(tasks, vms)
  {
    assert DistinctIds(tasks);
    assert DistinctNames(vms);
  }

  /** Its makespan is the common finish time 5. */
  lemma MakespanExample(tasks: seq<Task>, vms: seq<Vm>)
    requires tasks == [Small(), Large()] && vms == Machines()
    ensures ValidInstance(tasks, vms)
    ensures Consistent(GreedyAssignment(tasks, vms), tasks, vms)
    ensures EstimatedMakespan(GreedyAssignment(tasks, vms), tasks, vms) == 5.0
  {
    BothFinishAtFive();
    ExampleIsValid(tasks, vms);
    GreedyFinishTimesAreLoads(tasks, vms);
    assert MaxOf([5.0, 5.0]) == 5.0 by { assert [5.0, 5.0][1..] == [5.0]; }
  }

  /** Without VMs the optimizer returns the empty schedule before anything
      is drawn, even when it is handed a candidate naming a VM that does not
      exist. */
  method NoVmsGivesEmptySchedule() returns (schedule: Assignment)
    ensures schedule == map[]
  {
    schedule := EdaOptimizeSchedule([Small()], [], 1, 1, 1, [[map[1 := "fast"]]]);
  }
}
