// The multi-level feedback queue scheduler, one atomic step per hold of its lock.
module Scheduler {
  import opened Machine
  import opened SchedulerState
  import opened SchedulerSteps
  import opened SchedulerLaws
  import opened SleepTimers
  import opened Wrappers

  class Scheduler {
    var queues: Queues
    var currentCpus: Slots
    var suspending: Slots
    var tasks: map<Pid, Task>
    var timers: seq<SleepTimer>

    ghost function S(): State
      reads this
    {
      State(queues, currentCpus, suspending, tasks, timers)
    }

    ghost predicate Valid()
      reads this
    {
      Good(S())
    }

    /** `init`: every core runs its own idle task. */
    constructor ()
      ensures Valid()
      ensures forall c :: 0 <= c < CORES ==> currentCpus[c] == Some(IdlePid(c)) && suspending[c] == None
    {
      queues := seq(NUM_PRIORITIES, i => []);
      currentCpus := seq(CORES, i requires i >= 0 => Some(IdlePid(i)));
      suspending := seq(CORES, i => None);
      tasks := map p: Pid | FIRST_IDLE <= p < FIRST_IDLE + CORES :: Task(Ready, 4, false, true, p);
      timers := [];
    }

    /** The scan of one queue: skip running and locked tasks, drop dead entries, take the first ready one. */
    method ScanQueue(k: nat, locked: set<Pid>) returns (picked: Option<Pid>)
      requires k < NUM_PRIORITIES
      modifies this`queues, this`tasks
      ensures var r := ScanFrom([], old(queues)[k], currentCpus, suspending, old(tasks), locked);
              queues == old(queues)[k := r.queue] && tasks == r.tasks && picked == r.picked
      ensures picked == FirstIn(old(queues)[k], currentCpus, suspending, old(tasks), locked)
    {
      ScanFirst([], queues[k], currentCpus, suspending, tasks, locked);
      var i := 0;
      while i < |queues[k]|
        invariant 0 <= i <= |queues[k]| && queues == old(queues)[k := queues[k]]
        invariant ScanFrom(queues[k][..i], queues[k][i..], currentCpus, suspending, tasks, locked)
                  == ScanFrom([], old(queues)[k], currentCpus, suspending, old(tasks), locked)
        decreases |queues[k]| - i
      {
        var pid, queue := queues[k][i], queues[k];
        assert queue[i..][0] == pid && queue[i..][1..] == queue[i + 1..] && queue[..i + 1] == queue[..i] + [pid];
        if Some(pid) in currentCpus || Some(pid) in suspending {
          i := i + 1;
          continue;
        }
        if pid in tasks && pid in locked {
          i := i + 1;
          continue;
        }
        queues := Remove(queues, k, i);
        assert queues[k] == queue[..i] + queue[i + 1..];
        assert queues[k][..i] == queue[..i] && queues[k][i..] == queue[i + 1..];
        if pid in tasks {
          var ready := tasks[pid].state == Ready;
          tasks := tasks[pid := tasks[pid].(inQueue := false)];
          if ready {
            return Some(pid);
          }
        }
      }
      assert queues[k][..i] == queues[k] && queues[k][i..] == [];
      return None;
    }

    /** `pick_next`: the first task of the highest queue that may be taken; None exactly when there is none. */
    method PickNext(locked: set<Pid>) returns (picked: Option<Pid>)
      modifies this`queues, this`tasks
      ensures var r := PickFrom(old(queues), 0, currentCpus, suspending, old(tasks), locked);
              queues == r.queues && tasks == r.tasks && picked == r.picked
      ensures picked == FirstFrom(old(queues), 0, currentCpus, suspending, old(tasks), locked)
      ensures exists j: nat, x: nat ::
                && Picks(old(queues), old(tasks), currentCpus, suspending, locked, 0, j, x, Pick(queues, tasks, picked))
                && Unflagged(old(queues), old(tasks), currentCpus, suspending, locked, 0, j, x, tasks)
    {
      ghost var j, x := PickMeans(queues, 0, currentCpus, suspending, tasks, locked);
      PickFirst(queues, 0, currentCpus, suspending, tasks, locked);
      var k := 0;
      while k < NUM_PRIORITIES
        invariant 0 <= k <= NUM_PRIORITIES
        invariant PickFrom(queues, k, currentCpus, suspending, tasks, locked)
                  == PickFrom(old(queues), 0, currentCpus, suspending, old(tasks), locked)
      {
        picked := ScanQueue(k, locked);
        if picked.Some? {
          return;
        }
        k := k + 1;
      }
      return None;
    }

    /** The core changes tasks; the one that leaves is kept in the suspending slot. */
    method SwitchTo(core: nat, me: Pid, next: Pid)
      requires core < CORES && next in tasks
      modifies this`currentCpus, this`suspending, this`tasks
      ensures S() == Switched(old(S()), core, me, next)
      ensures me != next ==>
                && currentCpus == old(currentCpus)[core := Some(next)]
                && suspending == old(suspending)[core := if me in old(tasks) then Some(me) else None]
                && tasks.Keys == old(tasks).Keys
                && forall p :: p in tasks ==>
                     tasks[p] == old(tasks)[p].(state := if p == next then Running
                                                         else if p == me && old(tasks)[p].state == Running then Ready
                                                         else old(tasks)[p].state)
    {
      if me in tasks {
        if tasks[me].state == Running {
          tasks := tasks[me := tasks[me].(state := Ready)];
        }
        suspending := suspending[core := Some(me)];
      } else {
        suspending := suspending[core := None];
      }
      tasks := tasks[next := tasks[next].(state := Running)];
      currentCpus := currentCpus[core := Some(next)];
    }

    /** Nothing was picked: the current task goes on if it can, otherwise the core's idle task runs. */
    method FallBack(core: nat, me: Pid)
      requires core < CORES
      modifies this`currentCpus, this`suspending, this`tasks
      ensures S() == FellBack(old(S()), core, me)
      ensures old(Valid()) && old(currentCpus)[core] == Some(me) && old(suspending)[core] == None ==>
                if me == IdlePid(core) || (me in old(tasks) && old(tasks)[me].state in {Running, Ready})
                then Stayed(old(S()), S(), me, true) else Left(old(S()), S(), core, me, IdlePid(core))
    {
      if Good(S()) && currentCpus[core] == Some(me) && suspending[core] == None {
        IdleFree(S(), core);
        FellBackMeans(S(), S(), core, me);
      }
      if me in tasks && tasks[me].state in {Running, Ready} {
        tasks := tasks[me := tasks[me].(state := Running)];
        suspending := suspending[core := None];
        return;
      }
      if IdlePid(core) !in tasks {
        return;
      }
      if IdlePid(core) == me {
        tasks := tasks[me := tasks[me].(state := Running)];
        return;
      }
      SwitchTo(core, me, IdlePid(core));
    }

    /** The core's task is not locked: switch to the picked task, or fall back. */
    method Reschedule(core: nat, me: Pid, locked: set<Pid>, lost: bool)
      requires core < CORES
      modifies this`queues, this`currentCpus, this`suspending, this`tasks
      ensures S() == Rescheduled(old(S()), core, me, locked, lost)
    {
      var picked := PickNext(locked);
      if picked.None? {
        FallBack(core, me);
      } else if lost {
        queues := Push(queues, tasks[picked.value].priority, picked.value);
      } else {
        SwitchTo(core, me, picked.value);
      }
    }

    /**
     * `schedule` on `core`; `locked` are the tasks whose lock is taken, `lost` that the picked
     * one's was taken since.
     */
    method Schedule(core: nat, locked: set<Pid>, lost: bool)
      modifies this`queues, this`currentCpus, this`suspending, this`tasks
      ensures S() == Scheduled(old(S()), core, locked, lost)
      ensures old(Valid()) && (core < CORES ==> old(suspending)[core] == None) ==> Valid()
      ensures core >= CORES ==> S() == old(S())
      ensures old(Valid()) && core < CORES && old(suspending)[core] == None ==>
                old(currentCpus)[core].Some? && Turned(old(S()), S(), core, locked, lost)
    {
      ghost var s := S();
      if core < CORES && currentCpus[core].Some? {
        var me := currentCpus[core].value;
        if !(me in tasks && me in locked) {
          Reschedule(core, me, locked, lost);
        }
      }
      if Good(s) && (core < CORES ==> s.sus[core] == None) {
        ScheduledSound(s, core, locked, lost);
        if core < CORES {
          ScheduledMeans(s, core, locked, lost);
        }
      }
    }

    /** `post_context_switch`: the context of the task that left is saved; returns a dead thread to reap. */
    method PostContextSwitch(core: nat) returns (zombie: Option<Pid>)
      requires core < CORES
      modifies this`queues, this`suspending, this`tasks
      ensures S() == Saved(old(S()), core) && zombie == Corpse(old(S()), core)
      ensures old(Valid()) ==> Valid() && (zombie.Some? ==> !IsIdlePid(zombie.value))
      ensures suspending == old(suspending)[core := None]
      ensures var p := old(suspending)[core];
              && (p.Some? && p.value in old(tasks) && old(tasks)[p.value].state == Ready
                  && !old(tasks)[p.value].isIdle && !old(tasks)[p.value].inQueue ==>
                    var k := old(tasks)[p.value].priority;
                    && queues == old(queues)[k := old(queues)[k] + [p.value]]
                    && tasks == old(tasks)[p.value := old(tasks)[p.value].(inQueue := true)])
              && (p.None? || p.value !in old(tasks) || old(tasks)[p.value].state != Ready
                  || old(tasks)[p.value].isIdle || old(tasks)[p.value].inQueue ==>
                    queues == old(queues) && tasks == old(tasks))
              && zombie == if p.Some? && p.value in old(tasks) && old(tasks)[p.value].state == Zombie
                              && old(tasks)[p.value].tgid != p.value then p else None
    {
      ghost var s := S();
      zombie := None;
      if suspending[core].Some? {
        var p := suspending[core].value;
        suspending := suspending[core := None];
        if p in tasks {
          var t := tasks[p];
          if t.state == Ready {
            if !t.isIdle && !t.inQueue {
              queues := Push(queues, t.priority, p);
              tasks := tasks[p := t.(inQueue := true)];
            }
          } else if t.state == Zombie && t.tgid != p {
            zombie := Some(p);
          }
        }
      }
      if Good(s) {
        SavedSound(s, core);
      }
    }

    /** `wake_task`: true exactly when the task was blocked, or is ready and not idle; then it is queued and ready. */
    method WakeTask(p: Pid) returns (woken: bool)
      modifies this`queues, this`tasks
      ensures S() == Awake(old(S()), p)
      ensures woken <==> p in old(tasks) && (old(tasks)[p].state == Blocked
                                             || (old(tasks)[p].state == Ready && !old(tasks)[p].isIdle))
      ensures woken ==>
                && tasks == old(tasks)[p := old(tasks)[p].(state := Ready, inQueue := true)]
                && p in queues[tasks[p].priority]
                && queues == if p in old(queues)[tasks[p].priority] then old(queues)
                             else old(queues)[tasks[p].priority := old(queues)[tasks[p].priority] + [p]]
      ensures !woken ==> tasks == old(tasks) && queues == old(queues)
      ensures old(Valid()) ==> Valid()
    {
      if Valid() {
        AwakeSound(S(), p);
      }
      if p !in tasks || tasks[p].state in {Running, Zombie} || (tasks[p].state == Ready && tasks[p].isIdle) {
        return false;
      }
      var k := tasks[p].priority;
      if p !in queues[k] {
        queues := Push(queues, k, p);
      }
      tasks := tasks[p := tasks[p].(state := Ready, inQueue := true)];
      return true;
    }

    /** A task blocks or exits. */
    method Stop(p: Pid, state: TaskState)
      modifies this`tasks
      ensures S() == Stopped(old(S()), p, state)
      ensures tasks == if p in old(tasks) then old(tasks)[p := old(tasks)[p].(state := state)] else old(tasks)
    {
      if p in tasks {
        tasks := tasks[p := tasks[p].(state := state)];
      }
    }

    /** `add_task`. */
    method AddTask(p: Pid, priority: Priority, tgid: Pid)
      modifies this`queues, this`tasks
      ensures S() == Added(old(S()), p, priority, tgid) && (old(Valid()) && !IsIdlePid(p) ==> Valid())
      ensures tasks == old(tasks)[p := Task(Ready, priority, true, false, tgid)]
      ensures queues == old(queues)[priority := old(queues)[priority] + [p]]
    {
      if Valid() && !IsIdlePid(p) {
        AddSound(queues, currentCpus, suspending, tasks, p, priority, tgid);
      }
      tasks := tasks[p := Task(Ready, priority, true, false, tgid)];
      queues := Push(queues, priority, p);
    }

    /** The demotion of a task that has used up its quantum. */
    method Demote(p: Pid)
      modifies this`tasks
      ensures S() == Demoted(old(S()), p)
      ensures if p in old(tasks) && !old(tasks)[p].isIdle && old(tasks)[p].priority < 4
              then tasks == old(tasks)[p := old(tasks)[p].(priority := old(tasks)[p].priority + 1)]
              else tasks == old(tasks)
    {
      if p in tasks && !tasks[p].isIdle && tasks[p].priority < 4 {
        tasks := tasks[p := tasks[p].(priority := tasks[p].priority + 1)];
      }
    }

    /** The boost of one queue: its entries are looked at one by one. */
    method BoostQueue(k: nat, locked: set<Pid>)
      requires k == 2 || k == 3
      modifies this`queues, this`tasks
      ensures S() == BoostedQueue(old(S()), k, locked)
    {
      var temp := queues[k];
      ghost var t0 := tasks;
      queues := queues[k := []];
      assert queues == Boosting(old(queues), k, [], []) by {
        assert old(queues)[1] + [] == old(queues)[1];
      }
      assert Lift(tasks, locked, []) == tasks;
      var i := 0;
      assert temp[..0] == [];
      while i < |temp|
        invariant 0 <= i <= |temp| && tasks == Lift(t0, locked, temp[..i])
        invariant queues == Boosting(old(queues), k,
                                     Part(temp[..i], t0, locked, true), Part(temp[..i], t0, locked, false))
      {
        var p := temp[i];
        BoostNext(t0, locked, temp, i);
        BoostPush(old(queues), k, Part(temp[..i], t0, locked, true), Part(temp[..i], t0, locked, false), p);
        if p in tasks && p !in locked && !tasks[p].isIdle && tasks[p].state == Ready {
          tasks := tasks[p := tasks[p].(priority := 1, inQueue := true)];
          queues := Push(queues, 1, p);
        } else {
          queues := Push(queues, k, p);
        }
        i := i + 1;
      }
      assert temp[..i] == temp;
    }

    /** `boost_priorities`. */
    method BoostPriorities(locked: set<Pid>)
      modifies this`queues, this`tasks
      ensures S() == Boosted(old(S()), locked)
    {
      BoostQueue(2, locked);
      BoostQueue(3, locked);
    }

    /** `set_bootstrap_thread`: the boot thread takes over a core. */
    method SetBootstrapThread(core: nat, p: Pid, tgid: Pid)
      requires core < CORES
      modifies this`currentCpus, this`tasks
      ensures S() == Booted(old(S()), core, p, tgid)
      ensures currentCpus == old(currentCpus)[core := Some(p)]
      ensures tasks == old(tasks)[p := Task(Running, 2, false, false, tgid)]
    {
      tasks := tasks[p := Task(Running, 2, false, false, tgid)];
      currentCpus := currentCpus[core := Some(p)];
    }

    /** A waiter that finds itself woken before it left its core goes on running. */
    method Resume(p: Pid)
      modifies this`tasks
      ensures S() == SetRunning(old(S()), p)
      ensures tasks == if p in old(tasks) then old(tasks)[p := old(tasks)[p].(state := Running)] else old(tasks)
    {
      if p in tasks {
        tasks := tasks[p := tasks[p].(state := Running)];
      }
    }

    /** `register_sleep_timer`: the task's timer is replaced, the list is sorted. */
    method RegisterSleepTimer(p: Pid, deadline: nat)
      modifies this`timers
      ensures timers == SortByDeadline(Retain(old(timers), p) + [SleepTimer(deadline, p)])
      ensures Descending(timers)
      ensures forall t :: t in timers <==> t == SleepTimer(deadline, p) || (t in old(timers) && t.pid != p)
    {
      timers := Retain(timers, p) + [SleepTimer(deadline, p)];
      SortMembers(timers);
      timers := SortByDeadline(timers);
    }

    /** `remove_sleep_timer`. */
    method RemoveSleepTimer(p: Pid)
      modifies this`timers
      ensures timers == Retain(old(timers), p) && (old(Descending(timers)) ==> Descending(timers))
      ensures forall t :: t in timers <==> t in old(timers) && t.pid != p
    {
      timers := Retain(timers, p);
    }

    /** `check_sleep_timers_locked`: timers are taken from the end of the list while they are due. */
    method CheckSleepTimers(now: nat)
      modifies this`timers, this`queues, this`tasks
      ensures S() == Expired(old(S()), now)
      ensures old(Valid()) ==>
                && Valid() && Roused(old(S()), S(), Due(old(timers), now))
                && forall t :: t in timers <==> t in old(timers) && now < t.deadline
    {
      if Valid() {
        ExpiredSound(S(), now);
        ExpiredMeans(S(), now);
      }
      while timers != [] && now >= timers[|timers| - 1].deadline
        invariant Expired(S(), now) == Expired(old(S()), now)
        decreases |timers|
      {
        var timer := timers[|timers| - 1];
        timers := timers[..|timers| - 1];
        var _ := WakeTask(timer.pid);
      }
    }

    /** One step; `Enabled` says when it can happen. */
    method Perform(step: Step)
      requires Enabled(S(), step)
      modifies this
      ensures S() == Next(old(S()), step)
    {
      match step {
        case Switch(core, locked, lost) => Schedule(core, locked, lost);
        case Save(core) => var _ := PostContextSwitch(core);
        case Wake(p) => var _ := WakeTask(p);
        case Halt(p, state) => Stop(p, state);
        case Bury(p) => tasks := tasks - {p};
        case Add(p, priority, tgid) => AddTask(p, priority, tgid);
        case GoOn(p) => Resume(p);
        case Boost(locked) => BoostPriorities(locked);
        case Lower(p) => Demote(p);
        case Boot(core, p, tgid) => SetBootstrapThread(core, p, tgid);
        case Sleep(p, deadline) => RegisterSleepTimer(p, deadline);
        case Unsleep(p) => RemoveSleepTimer(p);
        case Expire(now) => CheckSleepTimers(now);
      }
    }

    /** Any interleaving of steps of any cores: no task on two cores, none runnable and lost, in every state reached. */
    method Run(steps: seq<Step>)
      requires After(S(), steps).Some?
      modifies this
      ensures Some(S()) == After(old(S()), steps)
      ensures old(Valid()) ==>
                && Valid() && Exclusive(currentCpus, suspending)
                && NotLost(queues, currentCpus, suspending, tasks, None)
                && Flagged(queues, tasks) && IdleUnqueued(queues)
    {
      if Valid() {
        RunSound(S(), steps);
      }
      var rest := steps;
      while rest != []
        invariant After(S(), rest) == After(old(S()), steps) && After(S(), rest).Some?
        decreases |rest|
      {
        Perform(rest[0]);
        rest := rest[1..];
      }
    }
  }
}
