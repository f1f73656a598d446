/**
  The scheduler's code: each operation changes the state in place and is proved
  equal to its function in SchedOps and SchedCore.
 */
module Scheduler {
  import opened Options
  import opened SchedModel
  import opened SchedOps
  import opened SchedCore
  import opened SchedRun

  class Kernel {
    var threads: map<Tid, Thread>
    var cpus: seq<Cpu>
    var readyCount: nat

    function St(): State
      reads this
    {
      State(threads, cpus, readyCount)
    }

    method ListRemove(c: nat, p: nat, t: Tid)
      requires c < |cpus| && p < |cpus[c].lists|
      modifies this`cpus
      ensures St() == WithList(old(St()), c, p, Without(ListOf(old(St()), c, p), t))
    {
      var list := cpus[c].lists[p].list;
      cpus := cpus[c := cpus[c].(lists := cpus[c].lists[p := cpus[c].lists[p].(list := Without(list, t))])];
    }

    method ListAppend(c: nat, p: nat, t: Tid)
      requires c < |cpus| && p < |cpus[c].lists|
      modifies this`cpus
      ensures St() == WithList(old(St()), c, p, ListOf(old(St()), c, p) + [t])
    {
      var list := cpus[c].lists[p].list;
      cpus := cpus[c := cpus[c].(lists := cpus[c].lists[p := cpus[c].lists[p].(list := list + [t])])];
    }

    /** CoreH_ThreadReadyNode. */
    method ReadyNode(t: Tid) returns (r: Outcome)
      requires t in threads && Shape(St())
      modifies this
      ensures (St(), r) == DoReady(old(St()), t)
    {
      var th := threads[t];
      if th.priority < 0 || th.priority > MAX_PRIORITY {
        return InvalidArgument;
      }
      if th.master.Some? {
        return Success;
      }
      var cpuFound: Option<nat> := None;
      for cpui := 0 to |cpus|
        invariant cpuFound == LeastLoaded(St(), t, cpui)
      {
        if cpui !in th.affinity {
          continue;
        }
        if cpuFound.None? ||
           |cpus[cpui].lists[th.priority].list| < |cpus[cpuFound.value].lists[th.priority].list| {
          cpuFound := Some(cpui);
        }
      }
      if cpuFound.None? {
        return InvalidAffinity;
      }
      threads := threads[t := th.(master := cpuFound, status := Ready)];
      readyCount := readyCount + 1;
      ListAppend(cpuFound.value, th.priority, t);
      return Success;
    }

    /** CoreH_ThreadBlock, up to the yield. */
    method Block(t: Tid) returns (r: Outcome)
      requires t in threads && Inv(St(), None)
      modifies this
      ensures old(threads[t].master.Some?) ==> old(threads[t].master.value < |cpus| && readyCount > 0)
      ensures (St(), r) == DoBlock(old(St()), t)
    {
      assert Listed(St(), t);
      var th := threads[t];
      if th.master.None? || th.priority < 0 || th.priority > MAX_PRIORITY {
        return InvalidArgument;
      }
      ListedCounts(St(), t, None);
      if th.status == Blocked {
        return Success;
      }
      ListRemove(th.master.value, th.priority, t);
      threads := threads[t := th.(raised := false, status := Blocked, quantum := 0, master := None)];
      readyCount := readyCount - 1;
      return Success;
    }

    /** CoreH_ThreadBoostPriority. */
    method BoostPriority(t: Tid) returns (r: Outcome)
      requires t in threads && Inv(St(), None)
      modifies this
      ensures old(threads[t].master.Some?) ==> old(threads[t].master.value < |cpus|)
      ensures (St(), r) == DoBoost(old(St()), t)
    {
      assert Listed(St(), t);
      var th := threads[t];
      if th.priority < 0 || th.priority > MAX_PRIORITY {
        return InvalidArgument;
      }
      if th.died {
        return InvalidArgument;
      }
      if th.master.None? && th.status != Blocked {
        return InvalidArgument;
      }
      if th.raised || th.priority == MAX_PRIORITY {
        return Success;
      }
      if th.master.Some? {
        ListRemove(th.master.value, th.priority, t);
        ListAppend(th.master.value, th.priority + 1, t);
      }
      threads := threads[t := th.(raised := true, priority := th.priority + 1)];
      return Success;
    }

    /** ThreadStarvationPrevention. */
    method StarvationPrevention(c: nat, p: nat, ghost busy: Option<nat>) returns (raisedSome: bool)
      requires Inv(St(), busy) && c < |cpus| && p < MAX_PRIORITY
      modifies this
      ensures St() == Starvation(old(St()), c, p, busy)
    {
      var list := cpus[c].lists[p];
      SetNoStarvationInv(St(), c, p, list.noStarvationQuantum + 1, busy);
      if list.noStarvationQuantum + 1 >= Quantum(p) {
        cpus := cpus[c := cpus[c].(lists := cpus[c].lists[p := list.(noStarvationQuantum := 0)])];
        return false;
      }
      cpus := cpus[c := cpus[c].(lists := cpus[c].lists[p := list.(noStarvationQuantum := list.noStarvationQuantum + 1)])];
      RaiseStarved(c, p, busy);
      return true;
    }

    /** The loop over the list, from the tail. */
    method RaiseStarved(c: nat, p: nat, ghost busy: Option<nat>)
      requires Inv(St(), busy) && c < |cpus| && p < MAX_PRIORITY
      modifies this
      ensures St() == RaiseFrom(old(St()), c, p, |ListOf(old(St()), c, p)|, busy)
    {
      hide Inv;
      ShapeOf(St(), busy);
      ghost var done := RaiseFrom(St(), c, p, |ListOf(St(), c, p)|, busy);
      var node: nat := |cpus[c].lists[p].list|;
      while node > 0 && |cpus[c].lists[p].list| / 4 > 0
        invariant c < |cpus| && p < |cpus[c].lists|
        invariant Raising(St(), c, p, node, busy, done)
      {
        ghost var s1 := RaisingOn(St(), c, p, node, busy, done);
        ShapeOf(St(), busy);
        RaiseOne(c, p, cpus[c].lists[p].list[node - 1]);
        assert St() == s1;
        node := node - 1;
      }
      RaisingEnds(St(), c, p, node, busy, done);
    }

    /** One round of the loop, at the node of thread t. */
    method RaiseOne(c: nat, p: nat, t: Tid)
      requires c < |cpus| && |cpus[c].lists| == MAX_PRIORITY + 1 && p < MAX_PRIORITY
      requires t in threads && threads[t].priority == p && threads[t].status != Blocked
      modifies this
      ensures St() == if old(t == cpus[c].idle || threads[t].status == Running || threads[t].raised) then old(St())
                      else Relist(old(St()), c, t, p + 1, true)
    {
      if t == cpus[c].idle {
        return;
      }
      if threads[t].status == Running {
        return;
      }
      assert threads[t].status == Ready;
      if threads[t].raised {
        return;
      }
      ListRemove(c, p, t);
      ListAppend(c, p + 1, t);
      threads := threads[t := threads[t].(raised := true, priority := threads[t].priority + 1)];
    }

    /** Core_Schedule on CPU c. */
    method Schedule(c: nat, ghost busy: Option<nat>)
      requires Inv(St(), busy) && (busy.None? || busy == Some(c)) && c < |cpus|
      modifies this
      ensures St() == DoSchedule(old(St()), c, busy)
    {
      LowerInv(St(), c, busy);
      PrepareInv(St(), c, busy);
      LowerCurrent(c, busy);
      if |cpus| > 1 {
        RaiseAll(c, busy);
      }
      ChooseInv(St(), c, busy);
      var chosen := ChooseThread(c, busy);
      SwitchThread(c, chosen, busy);
    }

    method LowerCurrent(c: nat, ghost busy: Option<nat>)
      requires Inv(St(), busy) && c < |cpus|
      modifies this
      ensures St() == Lower(old(St()), c, busy)
    {
      assert CurrentIsMine(St(), c, busy);
      if cpus[c].current.Some? {
        var t := cpus[c].current.value;
        threads := threads[t := threads[t].(quantum := 0)];
        if threads[t].raised {
          ListRemove(c, threads[t].priority, t);
          threads := threads[t := threads[t].(priority := threads[t].priority - 1, raised := false)];
          ListAppend(c, threads[t].priority, t);
        }
      }
    }

    method RaiseAll(c: nat, ghost busy: Option<nat>)
      requires Inv(St(), busy) && c < |cpus|
      modifies this
      ensures St() == StarvationFrom(old(St()), c, 0, busy)
    {
      hide Inv;
      ghost var done := StarvationFrom(St(), c, 0, busy);
      for priority := 0 to MAX_PRIORITY
        invariant Inv(St(), busy) && c < |cpus| && StarvationFrom(St(), c, priority, busy) == done
      {
        StarvationInv(St(), c, priority, busy);
        var _ := StarvationPrevention(c, priority, busy);
      }
    }

    /** From top to switch_thread. */
    method ChooseThread(c: nat, ghost busy: Option<nat>) returns (chosen: Tid)
      requires Inv(St(), busy) && c < |cpus|
      modifies this`cpus
      ensures (St(), chosen) == Choose(old(St()), c, busy)
    {
      assert CurrentIsMine(St(), c, busy);
      if cpus[c].current.Some? {
        var t := cpus[c].current.value;
        assert Listed(St(), t);
        var next := if threads[t].master.None? then None else NextIn(cpus[c].lists[threads[t].priority].list, t);
        if next.Some? {
          return next.value;
        }
      }
      TurnInv(St(), c, busy);
      cpus := cpus[c := Turn(cpus[c])];
      chosen := Search(c, cpus[c].currentList.value, busy);
    }

    /** From find_list on: the first thread not running on the highest list that has
        one, else the idle thread. */
    method Search(c: nat, from: nat, ghost busy: Option<nat>) returns (chosen: Tid)
      requires Inv(St(), busy) && c < |cpus| && from <= MAX_PRIORITY
      ensures chosen == Pick(St(), c, from, busy)
    {
      var p: int := from;
      while p >= 0
        invariant -1 <= p <= from && Pick(St(), c, p, busy) == Pick(St(), c, from, busy)
        decreases p
      {
        var node := FirstNotRunning(cpus[c].lists[p].list);
        if node.Some? {
          return node.value;
        }
        p := p - 1;
      }
      chosen := cpus[c].idle;
    }

    method FirstNotRunning(list: seq<Tid>) returns (r: Option<Tid>)
      requires forall t :: t in list ==> t in threads
      ensures r == FirstIdle(St(), list)
    {
      var i := 0;
      while i < |list| && threads[list[i]].status == Running
        invariant i <= |list| && FirstIdle(St(), list[i..]) == FirstIdle(St(), list)
      {
        i := i + 1;
      }
      r := if i < |list| then Some(list[i]) else None;
    }

    /** From switch_thread on. */
    method SwitchThread(c: nat, chosen: Tid, ghost busy: Option<nat>)
      requires Inv(St(), busy) && c < |cpus| && chosen in threads && threads[chosen].master == Some(c)
      modifies this
      ensures old(cpus[c].current.Some?) ==> old(cpus[c].current.value in threads)
      ensures St() == Switch(old(St()), c, chosen)
    {
      assert CurrentIsMine(St(), c, busy);
      NotRunningElsewhere(St(), c, chosen, busy);
      var current := cpus[c].current;
      assert current != Some(chosen) ==> threads[chosen].status != Running;
      threads := threads[chosen := threads[chosen].(status := Running, master := Some(c), quantum := 0)];
      if current.Some? && CanRun(threads[current.value], c) {
        threads := threads[current.value := threads[current.value].(status := Ready)];
      }
      cpus := cpus[c := cpus[c].(current := Some(chosen))];
    }

    /** Core_Yield on CPU c. */
    method Yield(c: nat, ghost busy: Option<nat>)
      requires Inv(St(), busy) && (busy.None? || busy == Some(c)) && c < |cpus|
      modifies this
      ensures St() == DoYield(old(St()), c, busy)
    {
      hide Inv, DoSchedule;
      CurrentKnown(St(), c, busy);
      if cpus[c].current.Some? {
        var t := cpus[c].current.value;
        SetQuantumInv(St(), t, (threads[t].quantum + 1) % 256, busy);
        var goOn := UseQuantum(c, t);
        if goOn {
          return;
        }
      }
      Schedule(c, busy);
    }

    method UseQuantum(c: nat, t: Tid) returns (goOn: bool)
      requires t in threads
      modifies this`threads
      ensures St() == SetQuantum(old(St()), t, (old(threads[t].quantum) + 1) % 256)
      ensures goOn == (threads[t].quantum < Quantum(threads[t].priority) && CanRun(old(threads[t]), c))
    {
      var canRun := CanRun(threads[t], c);
      threads := threads[t := threads[t].(quantum := (threads[t].quantum + 1) % 256)];
      goOn := threads[t].quantum < Quantum(threads[t].priority) && canRun;
    }

    /** CoreH_ThreadBlock of the calling CPU's own thread. */
    method BlockCurrent(c: nat)
      requires Inv(St(), None) && c < |cpus| && cpus[c].current.Some? && NoIdle(St(), cpus[c].current.value)
      modifies this
      ensures St() == BlockThenYield(old(St()), c)
    {
      assert CurrentIsMine(St(), c, None);
      var t := cpus[c].current.value;
      BlockInv(St(), t, c);
      BlockOneThread(St(), t);
      var _ := Block(t);
      Yield(c, Some(c));
    }
  }
}
