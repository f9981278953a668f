// The scheduler's steps as functions of its state, what every step keeps, and what a bad PID breaks.
module SchedulerSteps {
  import opened Machine
  import opened SchedulerState
  import opened SleepTimers
  import opened Wrappers

  datatype State = State(queues: Queues, cur: Slots, sus: Slots, tasks: map<Pid, Task>, timers: seq<SleepTimer>)

  ghost predicate Good(s: State) {
    Sound(s.queues, s.cur, s.sus, s.tasks, None) && Descending(s.timers) && OnePerTask(s.timers)
  }

  datatype Scan = Scan(queue: seq<Pid>, tasks: map<Pid, Task>, picked: Option<Pid>)

  /** The scan of one queue: `done` has been skipped, entries of tasks that are gone or not ready are dropped. */
  function ScanFrom(done: seq<Pid>, rest: seq<Pid>, cur: Slots, sus: Slots, tasks: map<Pid, Task>,
                    locked: set<Pid>): (r: Scan)
    ensures r.picked.Some? ==> r.picked.value in r.tasks
    decreases |rest|
  {
    if rest == [] then Scan(done, tasks, None)
    else
      var p := rest[0];
      if !Idle(cur, sus, p) || (p in tasks && p in locked) then ScanFrom(done + [p], rest[1..], cur, sus, tasks, locked)
      else if p in tasks && tasks[p].state == Ready then Scan(done + rest[1..], Unflag(tasks, p), Some(p))
      else ScanFrom(done, rest[1..], cur, sus, Unflag(tasks, p), locked)
  }

  datatype Pick = Pick(queues: Queues, tasks: map<Pid, Task>, picked: Option<Pid>)

  /** `pick_next`, from queue `k` on. */
  function PickFrom(qs: Queues, k: nat, cur: Slots, sus: Slots, tasks: map<Pid, Task>, locked: set<Pid>): (r: Pick)
    ensures r.picked.Some? ==> r.picked.value in r.tasks
    decreases NUM_PRIORITIES - k
  {
    if k >= NUM_PRIORITIES then Pick(qs, tasks, None)
    else
      var sc := ScanFrom([], qs[k], cur, sus, tasks, locked);
      if sc.picked.Some? then Pick(qs[k := sc.queue], sc.tasks, sc.picked)
      else PickFrom(qs[k := sc.queue], k + 1, cur, sus, sc.tasks, locked)
  }

  /** A core changes from `me` to `next`. */
  function Switched(s: State, core: nat, me: Pid, next: Pid): State
    requires core < CORES && next in s.tasks
  {
    s.(cur := s.cur[core := Some(next)], sus := Leaving(s.sus, core, me, s.tasks), tasks := Swapped(s.tasks, me, next))
  }

  function SetRunning(s: State, p: Pid): State {
    if p in s.tasks then s.(tasks := s.tasks[p := s.tasks[p].(state := Running)]) else s
  }

  predicate Runnable(tasks: map<Pid, Task>, p: Pid) {
    p in tasks && tasks[p].state in {Running, Ready}
  }

  /** Nothing was picked: the current task goes on if it can, otherwise the core's idle task runs. */
  function FellBack(s: State, core: nat, me: Pid): State
    requires core < CORES
  {
    if Runnable(s.tasks, me) then SetRunning(s, me).(sus := s.sus[core := None])
    else if IdlePid(core) !in s.tasks then s
    else if IdlePid(core) == me then SetRunning(s, me)
    else Switched(s, core, me, IdlePid(core))
  }

  /** The core's task is not locked: switch to the picked task, or fall back. */
  function Rescheduled(s: State, core: nat, me: Pid, locked: set<Pid>, lost: bool): State
    requires core < CORES
  {
    var pk := PickFrom(s.queues, 0, s.cur, s.sus, s.tasks, locked);
    var t := s.(queues := pk.queues, tasks := pk.tasks);
    match pk.picked
    case None => FellBack(t, core, me)
    case Some(next) =>
      if lost then t.(queues := Push(t.queues, t.tasks[next].priority, next)) else Switched(t, core, me, next)
  }

  /** `schedule` on `core`; `locked` are the tasks whose lock is taken, `lost` that the picked one's was taken since. */
  function Scheduled(s: State, core: nat, locked: set<Pid>, lost: bool): State {
    if core >= CORES || s.cur[core].None? then s
    else
      var me := s.cur[core].value;
      if me in s.tasks && me in locked then s else Rescheduled(s, core, me, locked, lost)
  }

  /** A ready task that is in no queue, by its own flag. */
  predicate Unqueued(tasks: map<Pid, Task>, p: Pid) {
    p in tasks && tasks[p].state == Ready && !tasks[p].isIdle && !tasks[p].inQueue
  }

  /** A dead thread that is not the leader of its group. */
  predicate DeadThread(tasks: map<Pid, Task>, p: Pid) {
    p in tasks && tasks[p].state == Zombie && tasks[p].tgid != p
  }

  function Enqueued(s: State, p: Pid): State
    requires p in s.tasks
  {
    s.(queues := Push(s.queues, s.tasks[p].priority, p), tasks := s.tasks[p := s.tasks[p].(inQueue := true)])
  }

  /** `post_context_switch`: the context of the task that left core `core` is saved. */
  function Saved(s: State, core: nat): State {
    if core >= CORES || s.sus[core].None? then s
    else
      var p, t := s.sus[core].value, s.(sus := s.sus[core := None]);
      if Unqueued(s.tasks, p) then Enqueued(t, p) else t
  }

  /** The dead thread that this leaves to be reaped. */
  function Corpse(s: State, core: nat): Option<Pid> {
    if core < CORES && s.sus[core].Some? && DeadThread(s.tasks, s.sus[core].value) then s.sus[core] else None
  }

  /** `wake_task` finds a task to wake. */
  predicate Wakeable(tasks: map<Pid, Task>, p: Pid) {
    p in tasks && (tasks[p].state == Blocked || (tasks[p].state == Ready && !tasks[p].isIdle))
  }

  function Awake(s: State, p: Pid): State {
    if !Wakeable(s.tasks, p) then s
    else
      var k := s.tasks[p].priority;
      s.(queues := if p in s.queues[k] then s.queues else Push(s.queues, k, p),
         tasks := s.tasks[p := s.tasks[p].(state := Ready, inQueue := true)])
  }

  function Stopped(s: State, p: Pid, state: TaskState): State {
    if p in s.tasks then s.(tasks := s.tasks[p := s.tasks[p].(state := state)]) else s
  }

  /** `add_task`. */
  function Added(s: State, p: Pid, priority: Priority, tgid: Pid): State {
    s.(queues := Push(s.queues, priority, p), tasks := s.tasks[p := Task(Ready, priority, true, false, tgid)])
  }

  /** The demotion of a task that has used up its quantum. */
  function Demoted(s: State, p: Pid): State {
    if p in s.tasks && !s.tasks[p].isIdle && s.tasks[p].priority < 4
    then s.(tasks := s.tasks[p := s.tasks[p].(priority := s.tasks[p].priority + 1)]) else s
  }

  function BoostedQueue(s: State, k: nat, locked: set<Pid>): State
    requires 1 < k < NUM_PRIORITIES
  {
    s.(queues := Boosting(s.queues, k, Part(s.queues[k], s.tasks, locked, true), Part(s.queues[k], s.tasks, locked,
      false)),
       tasks := Lift(s.tasks, locked, s.queues[k]))
  }

  /** `boost_priorities`. */
  function Boosted(s: State, locked: set<Pid>): State {
    BoostedQueue(BoostedQueue(s, 2, locked), 3, locked)
  }

  /** `set_bootstrap_thread`. */
  function Booted(s: State, core: nat, p: Pid, tgid: Pid): State
    requires core < CORES
  {
    s.(cur := s.cur[core := Some(p)], tasks := s.tasks[p := Task(Running, 2, false, false, tgid)])
  }

  /** `check_sleep_timers_locked`: the last timer is the first to expire. */
  function Expired(s: State, now: nat): State
    decreases |s.timers|
  {
    if s.timers == [] || now < s.timers[|s.timers| - 1].deadline then s
    else
      var n := |s.timers| - 1;
      Expired(Awake(s.(timers := s.timers[..n]), s.timers[n].pid), now)
  }

  datatype Step =
    | Switch(core: nat, locked: set<Pid>, lost: bool)
    | Save(core: nat)
    | Wake(p: Pid)
    | Halt(p: Pid, state: TaskState)
    | Bury(p: Pid)
    | Add(p: Pid, priority: Priority, tgid: Pid)
    | GoOn(p: Pid)
    | Boost(locked: set<Pid>)
    | Lower(p: Pid)
    | Boot(core: nat, p: Pid, tgid: Pid)
    | Sleep(p: Pid, deadline: nat)
    | Unsleep(p: Pid)
    | Expire(now: nat)

  /** When a step can happen: a core schedules only after its last switch is complete, idle tasks do not stop. */
  predicate Enabled(s: State, step: Step) {
    match step
    case Switch(core, _, _) => core < CORES ==> s.sus[core] == None
    case Save(core) => core < CORES
    case Halt(p, state) => !IsIdlePid(p) && state in {Blocked, Zombie}
    case Bury(p) => !IsIdlePid(p)
    case Add(p, _, _) => !IsIdlePid(p)
    case GoOn(p) => Some(p) in s.cur && p in s.tasks
    case Boot(core, p, _) =>
      core < CORES && s.cur[core] == Some(IdlePid(core)) && !IsIdlePid(p) && Idle(s.cur, s.sus, p)
    case _ => true
  }

  function Next(s: State, step: Step): State
    requires Enabled(s, step)
  {
    match step
    case Switch(core, locked, lost) => Scheduled(s, core, locked, lost)
    case Save(core) => Saved(s, core)
    case Wake(p) => Awake(s, p)
    case Halt(p, state) => Stopped(s, p, state)
    case Bury(p) => s.(tasks := s.tasks - {p})
    case Add(p, priority, tgid) => Added(s, p, priority, tgid)
    case GoOn(p) => SetRunning(s, p)
    case Boost(locked) => Boosted(s, locked)
    case Lower(p) => Demoted(s, p)
    case Boot(core, p, tgid) => Booted(s, core, p, tgid)
    case Sleep(p, deadline) => s.(timers := SortByDeadline(Retain(s.timers, p) + [SleepTimer(deadline, p)]))
    case Unsleep(p) => s.(timers := Retain(s.timers, p))
    case Expire(now) => Expired(s, now)
  }

  /** The state after a run of steps, if each of them can be taken. */
  function After(s: State, steps: seq<Step>): Option<State>
    decreases |steps|
  {
    if steps == [] then Some(s)
    else if Enabled(s, steps[0]) then After(Next(s, steps[0]), steps[1..])
    else None
  }

  lemma {:induction false} ScanSound(qs: Queues, k: nat, done: seq<Pid>, rest: seq<Pid>, cur: Slots, sus: Slots,
                                     tasks: map<Pid, Task>, locked: set<Pid>)
    requires k < NUM_PRIORITIES && Sound(qs[k := done + rest], cur, sus, tasks, None)
    ensures var r := ScanFrom(done, rest, cur, sus, tasks, locked); Sound(qs[k := r.queue], cur, sus, r.tasks, r.picked)
    decreases |rest|
  {
    if rest == [] {
      assert done + rest == done;
    } else if !Idle(cur, sus, rest[0]) || (rest[0] in tasks && rest[0] in locked) {
      assert done + [rest[0]] + rest[1..] == done + rest;
      ScanSound(qs, k, done + [rest[0]], rest[1..], cur, sus, tasks, locked);
    } else {
      var all := qs[k := done + rest];
      RemoveSound(all, cur, sus, tasks, k, |done|);
      assert all[k][|done|] == rest[0];
      assert all[k][..|done|] + all[k][|done| + 1..] == done + rest[1..];
      assert Remove(all, k, |done|) == qs[k := done + rest[1..]];
      if !(rest[0] in tasks && tasks[rest[0]].state == Ready) {
        ScanSound(qs, k, done, rest[1..], cur, sus, Unflag(tasks, rest[0]), locked);
      }
    }
  }

  lemma {:induction false} PickSound(qs: Queues, k: nat, cur: Slots, sus: Slots, tasks: map<Pid, Task>,
                                     locked: set<Pid>)
    requires Sound(qs, cur, sus, tasks, None)
    ensures var r := PickFrom(qs, k, cur, sus, tasks, locked); Sound(r.queues, cur, sus, r.tasks, r.picked)
    decreases NUM_PRIORITIES - k
  {
    if k >= NUM_PRIORITIES {
    } else {
      assert [] + qs[k] == qs[k] && qs[k := qs[k]] == qs;
      ScanSound(qs, k, [], qs[k], cur, sus, tasks, locked);
      var sc := ScanFrom([], qs[k], cur, sus, tasks, locked);
      if sc.picked.None? {
        PickSound(qs[k := sc.queue], k + 1, cur, sus, sc.tasks, locked);
      }
    }
  }

  /** What a scan takes: the first task that may be taken; only queue flags change. */
  lemma {:induction false} ScanFirst(done: seq<Pid>, rest: seq<Pid>, cur: Slots, sus: Slots, tasks: map<Pid, Task>,
                                     locked: set<Pid>)
    ensures var r := ScanFrom(done, rest, cur, sus, tasks, locked);
            r.picked == FirstIn(rest, cur, sus, tasks, locked) && Unflags(tasks, r.tasks)
    decreases |rest|
  {
    if rest == [] {
    } else if !Idle(cur, sus, rest[0]) || (rest[0] in tasks && rest[0] in locked) {
      ScanFirst(done + [rest[0]], rest[1..], cur, sus, tasks, locked);
    } else if !(rest[0] in tasks && tasks[rest[0]].state == Ready) {
      ScanFirst(done, rest[1..], cur, sus, Unflag(tasks, rest[0]), locked);
      UnflagsFirst(rest[1..], cur, sus, tasks, Unflag(tasks, rest[0]), locked);
    }
  }

  /** A scan drops no task that is on a core or locked, and none but the picked one that is ready. */
  lemma {:induction false} ScanKeeps(done: seq<Pid>, rest: seq<Pid>, cur: Slots, sus: Slots, tasks: map<Pid, Task>,
                                     locked: set<Pid>, q: Pid)
    requires q in done + rest && (!Idle(cur, sus, q) || (q in tasks && q in locked))
    ensures q in ScanFrom(done, rest, cur, sus, tasks, locked).queue
    decreases |rest|
  {
    if rest == [] {
      assert done + rest == done;
    } else if !Idle(cur, sus, rest[0]) || (rest[0] in tasks && rest[0] in locked) {
      assert done + [rest[0]] + rest[1..] == done + rest;
      ScanKeeps(done + [rest[0]], rest[1..], cur, sus, tasks, locked, q);
    } else {
      assert done + rest == done + [rest[0]] + rest[1..];
      assert q in done + rest[1..];
      if !(rest[0] in tasks && tasks[rest[0]].state == Ready) {
        ScanKeeps(done, rest[1..], cur, sus, Unflag(tasks, rest[0]), locked, q);
      }
    }
  }

  lemma {:induction false} FirstFromSame(qs: Queues, qs1: Queues, k: nat, cur: Slots, sus: Slots,
                                         t0: map<Pid, Task>, t1: map<Pid, Task>, locked: set<Pid>)
    requires Unflags(t0, t1) && forall j :: k <= j < NUM_PRIORITIES ==> qs[j] == qs1[j]
    ensures FirstFrom(qs1, k, cur, sus, t1, locked) == FirstFrom(qs, k, cur, sus, t0, locked)
    decreases NUM_PRIORITIES - k
  {
    if k >= NUM_PRIORITIES {
    } else {
      UnflagsFirst(qs[k], cur, sus, t0, t1, locked);
      FirstFromSame(qs, qs1, k + 1, cur, sus, t0, t1, locked);
    }
  }

  lemma {:induction false} PickFirst(qs: Queues, k: nat, cur: Slots, sus: Slots, tasks: map<Pid, Task>,
                                     locked: set<Pid>)
    ensures var r := PickFrom(qs, k, cur, sus, tasks, locked);
            r.picked == FirstFrom(qs, k, cur, sus, tasks, locked) && Unflags(tasks, r.tasks)
    decreases NUM_PRIORITIES - k
  {
    if k >= NUM_PRIORITIES {
    } else {
      ScanFirst([], qs[k], cur, sus, tasks, locked);
      var sc := ScanFrom([], qs[k], cur, sus, tasks, locked);
      if sc.picked.None? {
        PickFirst(qs[k := sc.queue], k + 1, cur, sus, sc.tasks, locked);
        FirstFromSame(qs, qs[k := sc.queue], k + 1, cur, sus, tasks, sc.tasks, locked);
      }
    }
  }

  lemma {:induction false} PickKeeps(qs: Queues, k: nat, cur: Slots, sus: Slots, tasks: map<Pid, Task>,
                                     locked: set<Pid>, q: Pid)
    requires Queued(qs, q) && (!Idle(cur, sus, q) || (q in tasks && q in locked))
    ensures Queued(PickFrom(qs, k, cur, sus, tasks, locked).queues, q)
    decreases NUM_PRIORITIES - k
  {
    if k >= NUM_PRIORITIES {
    } else {
      var sc := ScanFrom([], qs[k], cur, sus, tasks, locked);
      var next := qs[k := sc.queue];
      var j :| 0 <= j < NUM_PRIORITIES && q in qs[j];
      if j == k {
        assert [] + qs[k] == qs[k];
        ScanKeeps([], qs[k], cur, sus, tasks, locked, q);
      }
      assert q in next[j];
      ScanFirst([], qs[k], cur, sus, tasks, locked);
      if sc.picked.None? {
        PickKeeps(next, k + 1, cur, sus, sc.tasks, locked, q);
      }
    }
  }

  lemma IdleFree(s: State, core: nat)
    requires Good(s) && core < CORES && s.sus[core] == None
    ensures IdlePid(core) in s.tasks && (s.cur[core] != Some(IdlePid(core)) ==> Idle(s.cur, s.sus, IdlePid(core)))
  {
    assert IsIdlePid(IdlePid(core));
  }

  lemma FellBackSound(s: State, core: nat, me: Pid)
    requires Good(s) && core < CORES && s.cur[core] == Some(me) && s.sus[core] == None
    ensures Good(FellBack(s, core, me))
  {
    assert s.cur[core] in s.cur;
    assert s.sus[core := None] == s.sus;
    IdleFree(s, core);
    if me in s.tasks && (Runnable(s.tasks, me) || IdlePid(core) == me) {
      StaySound(s.queues, s.cur, s.sus, s.tasks, me);
    } else if IdlePid(core) != me {
      SwitchSound(s.queues, s.cur, s.sus, s.tasks, None, core, me, IdlePid(core));
    }
  }

  lemma ScheduledSound(s: State, core: nat, locked: set<Pid>, lost: bool)
    requires Good(s) && (core < CORES ==> s.sus[core] == None)
    ensures Good(Scheduled(s, core, locked, lost))
  {
    if core < CORES && s.cur[core].Some? && !(s.cur[core].value in s.tasks && s.cur[core].value in locked) {
      var me := s.cur[core].value;
      var pk := PickFrom(s.queues, 0, s.cur, s.sus, s.tasks, locked);
      PickSound(s.queues, 0, s.cur, s.sus, s.tasks, locked);
      PickFirst(s.queues, 0, s.cur, s.sus, s.tasks, locked);
      FirstFromMeans(s.queues, 0, s.cur, s.sus, s.tasks, locked);
      var t := s.(queues := pk.queues, tasks := pk.tasks);
      match pk.picked
      case None => FellBackSound(t, core, me);
      case Some(next) =>
        assert Queued(s.queues, next);
        if lost {
          PushSound(t.queues, t.cur, t.sus, t.tasks, pk.picked, t.tasks[next].priority, next);
        } else {
          SwitchSound(t.queues, t.cur, t.sus, t.tasks, pk.picked, core, me, next);
        }
    }
  }

  lemma EnqueuedSound(s: State, p: Pid)
    requires Good(s) && p in s.tasks && !IsIdlePid(p) && s.tasks[p].state == Ready
    ensures Good(Enqueued(s, p)) && Queued(Enqueued(s, p).queues, p)
  {
    PushSound(s.queues, s.cur, s.sus, s.tasks, None, s.tasks[p].priority, p);
    PushQueued(s.queues, s.tasks[p].priority, p);
    ReadySound(Push(s.queues, s.tasks[p].priority, p), s.cur, s.sus, s.tasks, p);
  }

  lemma SavedSound(s: State, core: nat)
    requires Good(s)
    ensures Good(Saved(s, core))
  {
    if core < CORES && s.sus[core].Some? {
      var p := s.sus[core].value;
      if Unqueued(s.tasks, p) {
        EnqueuedSound(s, p);
        ReleaseSound(Enqueued(s, p).queues, s.cur, s.sus, Enqueued(s, p).tasks, core);
      } else {
        ReleaseSound(s.queues, s.cur, s.sus, s.tasks, core);
      }
    }
  }

  lemma AwakeSound(s: State, p: Pid)
    requires Good(s)
    ensures Good(Awake(s, p)) && (Wakeable(s.tasks, p) ==> Queued(Awake(s, p).queues, p))
    ensures forall q :: q != p ==> (Queued(Awake(s, p).queues, q) <==> Queued(s.queues, q))
  {
    if Wakeable(s.tasks, p) {
      assert !IsIdlePid(p);
      var k := s.tasks[p].priority;
      if p !in s.queues[k] {
        PushSound(s.queues, s.cur, s.sus, s.tasks, None, k, p);
        PushQueued(s.queues, k, p);
        ReadySound(Push(s.queues, k, p), s.cur, s.sus, s.tasks, p);
      } else {
        assert Queued(s.queues, p);
        ReadySound(s.queues, s.cur, s.sus, s.tasks, p);
      }
    }
  }

  lemma {:induction false} ExpiredSound(s: State, now: nat)
    requires Good(s)
    ensures Good(Expired(s, now))
    decreases |s.timers|
  {
    if s.timers == [] || now < s.timers[|s.timers| - 1].deadline {
    } else {
      var n := |s.timers| - 1;
      AwakeSound(s.(timers := s.timers[..n]), s.timers[n].pid);
      ExpiredSound(Awake(s.(timers := s.timers[..n]), s.timers[n].pid), now);
    }
  }

  lemma BoostNext(tasks: map<Pid, Task>, locked: set<Pid>, temp: seq<Pid>, i: nat)
    requires i < |temp|
    ensures var p, t := temp[i], Lift(tasks, locked, temp[..i]);
            && temp[i..][0] == p && temp[i..][1..] == temp[i + 1..]
            && Liftable(t, locked, p) == Liftable(tasks, locked, p)
            && (Liftable(tasks, locked, p) ==>
                  Lift(tasks, locked, temp[..i + 1]) == t[p := t[p].(priority := 1, inQueue := true)])
            && (!Liftable(tasks, locked, p) ==> Lift(tasks, locked, temp[..i + 1]) == t)
            && (forall b :: Part(temp[..i + 1], tasks, locked, b)
                  == if Liftable(tasks, locked, p) == b then Part(temp[..i], tasks, locked, b) + [p]
                     else Part(temp[..i], tasks, locked, b))
  {
    assert temp[..i + 1] == temp[..i] + [temp[i]];
    assert temp[..i + 1][..i] == temp[..i];
  }

  lemma {:induction false} PartMembers(s: seq<Pid>, tasks: map<Pid, Task>, locked: set<Pid>, b: bool)
    ensures forall p :: p in Part(s, tasks, locked, b) <==> p in s && Liftable(tasks, locked, p) == b
  {
    if s == [] {
    } else {
      PartMembers(s[..|s| - 1], tasks, locked, b);
      assert forall p :: p in s <==> p in s[..|s| - 1] || p == s[|s| - 1];
    }
  }

  /** A boost moves entries between queues and loses none. */
  lemma BoostQueued(qs: Queues, k: nat, tasks: map<Pid, Task>, locked: set<Pid>)
    requires 1 < k < NUM_PRIORITIES
    ensures var next := Boosting(qs, k, Part(qs[k], tasks, locked, true), Part(qs[k], tasks, locked, false));
            && (forall p :: Queued(next, p) <==> Queued(qs, p))
            && (forall p :: p in next[1] <==> p in qs[1] || (p in qs[k] && Liftable(tasks, locked, p)))
  {
    var up, left := Part(qs[k], tasks, locked, true), Part(qs[k], tasks, locked, false);
    var next := Boosting(qs, k, up, left);
    PartMembers(qs[k], tasks, locked, true);
    PartMembers(qs[k], tasks, locked, false);
    assert next[1] == qs[1] + up && next[k] == left;
    forall p ensures Queued(next, p) <==> Queued(qs, p) {
      if Queued(qs, p) {
        var j :| 0 <= j < NUM_PRIORITIES && p in qs[j];
        assert p in next[j] || p in next[1];
      }
      if Queued(next, p) {
        var j :| 0 <= j < NUM_PRIORITIES && p in next[j];
        assert p in qs[j] || p in qs[k];
      }
    }
  }

  lemma BoostedQueueSound(s: State, k: nat, locked: set<Pid>)
    requires Good(s) && 1 < k < NUM_PRIORITIES
    ensures Good(BoostedQueue(s, k, locked))
  {
    BoostQueued(s.queues, k, s.tasks, locked);
    var t := BoostedQueue(s, k, locked);
    QueuedSame(s.queues, t.queues, s.cur, s.sus, s.tasks);
    forall p | p in s.queues[k] ensures Queued(t.queues, p) {
      assert Queued(s.queues, p);
    }
    LiftSound(t.queues, s.cur, s.sus, s.tasks, locked, s.queues[k]);
  }

  /** Every step of every core keeps the invariant. */
  lemma NextSound(s: State, step: Step)
    requires Good(s) && Enabled(s, step)
    ensures Good(Next(s, step))
  {
    match step
    case Switch(core, locked, lost) => ScheduledSound(s, core, locked, lost);
    case Save(core) => SavedSound(s, core);
    case Wake(p) => AwakeSound(s, p);
    case Halt(p, state) => if p in s.tasks { StopSound(s.queues, s.cur, s.sus, s.tasks, p, state); }
    case Bury(p) => ReapSound(s.queues, s.cur, s.sus, s.tasks, p);
    case Add(p, priority, tgid) => AddSound(s.queues, s.cur, s.sus, s.tasks, p, priority, tgid);
    case GoOn(p) => StaySound(s.queues, s.cur, s.sus, s.tasks, p);
    case Boost(locked) =>
      BoostedQueueSound(s, 2, locked);
      BoostedQueueSound(BoostedQueue(s, 2, locked), 3, locked);
    case Lower(p) => DemotedSound(s, p);
    case Boot(core, p, tgid) =>
      BootSound(s.queues, s.cur, s.sus, s.tasks, core, p, Task(Running, 2, false, false, tgid));
    case Sleep(p, deadline) => SortKeeps(Retain(s.timers, p) + [SleepTimer(deadline, p)]);
    case Unsleep(p) =>
    case Expire(now) => ExpiredSound(s, now);
  }

  lemma DemotedSound(s: State, p: Pid)
    requires Good(s)
    ensures Good(Demoted(s, p))
  {
    if p in s.tasks && s.tasks[p].priority < 4 {
      PrioritySound(s.queues, s.cur, s.sus, s.tasks, p, s.tasks[p].priority + 1);
    }
  }

  lemma {:induction false} RunSound(s: State, steps: seq<Step>)
    requires Good(s) && After(s, steps).Some?
    ensures Good(After(s, steps).value)
    decreases |steps|
  {
    if steps == [] {
    } else {
      NextSound(s, steps[0]);
      RunSound(Next(s, steps[0]), steps[1..]);
    }
  }

  /** Who is to run on a core: the picked task, else the current one if it can go on, else the idle task. */
  function NextOn(s: State, core: nat, locked: set<Pid>, lost: bool): Option<Pid>
    requires core < CORES
  {
    if s.cur[core].None? || (s.cur[core].value in s.tasks && s.cur[core].value in locked) then s.cur[core]
    else
      var me := s.cur[core].value;
      match FirstFrom(s.queues, 0, s.cur, s.sus, s.tasks, locked)
      case Some(p) => if lost then s.cur[core] else Some(p)
      case None =>
        if me in s.tasks && (s.tasks[me].state == Running || s.tasks[me].state == Ready) then s.cur[core]
        else Some(IdlePid(core))
  }

  /** The same tasks; only states change, and queue flags that are cleared. */
  ghost predicate SameTasks(a: map<Pid, Task>, b: map<Pid, Task>) {
    && a.Keys == b.Keys
    && forall p :: p in a ==>
         && a[p].priority == b[p].priority && a[p].isIdle == b[p].isIdle && a[p].tgid == b[p].tgid
         && (b[p].inQueue ==> a[p].inQueue)
  }

  /** Core `core` changed from `me` to `now`, and no other task changed its state. */
  ghost predicate Left(s: State, t: State, core: nat, me: Pid, now: Pid) {
    && core < CORES && now in s.tasks && SameTasks(s.tasks, t.tasks)
    && t.cur == s.cur[core := Some(now)] && t.sus == s.sus[core := if me in s.tasks then Some(me) else None]
    && t.tasks[now].state == Running
    && (me in s.tasks ==>
          t.tasks[me].state == if s.tasks[me].state == Running then Ready else s.tasks[me].state)
    && (forall p :: p in s.tasks && p != me && p != now ==> t.tasks[p].state == s.tasks[p].state)
  }

  /** The core still runs `me`; `resumed` says that its state is Running now, whatever it was. */
  ghost predicate Stayed(s: State, t: State, me: Pid, resumed: bool) {
    && SameTasks(s.tasks, t.tasks) && t.cur == s.cur && t.sus == s.sus
    && (me in s.tasks ==> t.tasks[me].state == if resumed then Running else s.tasks[me].state)
    && (forall p :: p in s.tasks && p != me ==> t.tasks[p].state == s.tasks[p].state)
  }

  /**
   * A turn of core `core`: it runs the task that the policy names. The task
   * that left is ready again if it ran, and is kept from every core until its
   * context is saved; a task that stays for want of another runs again.
   */
  ghost predicate Turned(s: State, t: State, core: nat, locked: set<Pid>, lost: bool)
    requires core < CORES && s.cur[core].Some?
  {
    var me, now := s.cur[core].value, NextOn(s, core, locked, lost);
    && t.timers == s.timers && now.Some?
    && if now.value != me then Left(s, t, core, me, now.value)
       else Stayed(s, t, me, me !in locked && FirstFrom(s.queues, 0, s.cur, s.sus, s.tasks, locked) == None)
  }

  lemma SwitchedLeft(s: State, t: State, core: nat, me: Pid, next: Pid)
    requires core < CORES && next in s.tasks && next != me
    requires t == s.(queues := t.queues, tasks := t.tasks) && Unflags(s.tasks, t.tasks)
    ensures Left(s, Switched(t, core, me, next), core, me, next)
  {
  }

  lemma FellBackMeans(s: State, t: State, core: nat, me: Pid)
    requires core < CORES && t == s.(queues := t.queues, tasks := t.tasks) && Unflags(s.tasks, t.tasks)
    requires s.cur[core] == Some(me) && s.sus[core] == None && IdlePid(core) in s.tasks
    ensures var u, idle := FellBack(t, core, me), IdlePid(core);
            if me == idle || (me in s.tasks && (s.tasks[me].state == Running || s.tasks[me].state == Ready))
            then Stayed(s, u, me, true)
            else Left(s, u, core, me, idle)
  {
    assert s.sus[core := None] == s.sus;
    if IdlePid(core) != me {
      SwitchedLeft(s, t, core, me, IdlePid(core));
    }
  }

  lemma RescheduledMeans(s: State, core: nat, locked: set<Pid>, lost: bool, me: Pid)
    requires core < CORES && s.cur[core] == Some(me) && s.sus[core] == None && IdlePid(core) in s.tasks
    requires !(me in s.tasks && me in locked)
    ensures Turned(s, Rescheduled(s, core, me, locked, lost), core, locked, lost)
  {
    PickFirst(s.queues, 0, s.cur, s.sus, s.tasks, locked);
    FirstFromMeans(s.queues, 0, s.cur, s.sus, s.tasks, locked);
    var pk := PickFrom(s.queues, 0, s.cur, s.sus, s.tasks, locked);
    var t := s.(queues := pk.queues, tasks := pk.tasks);
    match pk.picked
    case None => FellBackMeans(s, t, core, me);
    case Some(next) =>
      assert s.cur[core] in s.cur;
      SwitchedLeft(s, t, core, me, next);
  }

  /** What `schedule` does. */
  lemma ScheduledMeans(s: State, core: nat, locked: set<Pid>, lost: bool)
    requires Good(s) && core < CORES && s.sus[core] == None
    ensures s.cur[core].Some? && Turned(s, Scheduled(s, core, locked, lost), core, locked, lost)
  {
    var me := s.cur[core].value;
    IdleFree(s, core);
    if !(me in s.tasks && me in locked) {
      RescheduledMeans(s, core, locked, lost, me);
    }
  }

  /** The tasks in `due` that were blocked are ready and queued, all others are as they were; no entry is lost. */
  ghost predicate Roused(s: State, t: State, due: set<Pid>) {
    && t.tasks.Keys == s.tasks.Keys
    && (forall p :: p in s.tasks && p !in due ==> t.tasks[p] == s.tasks[p])
    && (forall p :: p in s.tasks && p in due && s.tasks[p].state == Blocked ==>
          t.tasks[p] == s.tasks[p].(state := Ready, inQueue := true) && Queued(t.queues, p))
    && (forall p :: p in s.tasks && p in due && s.tasks[p].state != Blocked ==>
          t.tasks[p] == s.tasks[p] || t.tasks[p] == s.tasks[p].(inQueue := true))
    && (forall p :: Queued(s.queues, p) ==> Queued(t.queues, p))
  }

  lemma AwakeRouses(s: State, timers: seq<SleepTimer>, p: Pid)
    requires Good(s.(timers := timers))
    ensures Roused(s, Awake(s.(timers := timers), p), {p})
  {
    AwakeSound(s.(timers := timers), p);
    var t := Awake(s.(timers := timers), p);
    forall q | Queued(s.queues, q) ensures Queued(t.queues, q) {
      assert q == p && !Wakeable(s.tasks, p) ==> t.queues == s.queues;
    }
  }

  lemma RousedJoin(s: State, mid: State, t: State, a: set<Pid>, b: set<Pid>)
    requires Roused(s, mid, a) && Roused(mid, t, b) && a !! b
    ensures Roused(s, t, a + b)
  {
  }

  function Due(timers: seq<SleepTimer>, now: nat): set<Pid> {
    set t | t in timers && t.deadline <= now :: t.pid
  }

  /** In a sorted list, if the last timer is not due then none is. */
  lemma NoneDue(timers: seq<SleepTimer>, now: nat)
    requires Descending(timers) && (timers != [] ==> now < timers[|timers| - 1].deadline)
    ensures forall t :: t in timers ==> now < t.deadline
  {
    forall i | 0 <= i < |timers| ensures now < timers[i].deadline {
      assert i < |timers| - 1 ==> timers[i].deadline >= timers[|timers| - 1].deadline;
    }
  }

  /** Exactly the timers that are due go, and their blocked tasks become ready. */
  lemma {:induction false} ExpiredMeans(s: State, now: nat)
    requires Good(s)
    ensures var t := Expired(s, now);
            && (forall x :: x in t.timers <==> x in s.timers && now < x.deadline)
            && Roused(s, t, Due(s.timers, now)) && t.cur == s.cur && t.sus == s.sus
    decreases |s.timers|
  {
    if s.timers == [] || now < s.timers[|s.timers| - 1].deadline {
      NoneDue(s.timers, now);
      assert Due(s.timers, now) == {};
    } else {
      var n := |s.timers| - 1;
      var last := s.timers[n];
      assert s.timers == s.timers[..n] + [last];
      var mid := Awake(s.(timers := s.timers[..n]), last.pid);
      AwakeSound(s.(timers := s.timers[..n]), last.pid);
      AwakeRouses(s, s.timers[..n], last.pid);
      ExpiredMeans(mid, now);
      DueLast(s.timers, now);
      RousedJoin(s, mid, Expired(mid, now), {last.pid}, Due(mid.timers, now));
    }
  }

  lemma DueLast(timers: seq<SleepTimer>, now: nat)
    requires timers != [] && timers[|timers| - 1].deadline <= now && OnePerTask(timers)
    ensures var n := |timers| - 1;
            && Due(timers, now) == {timers[n].pid} + Due(timers[..n], now) && timers[n].pid !in Due(timers[..n], now)
            && forall x :: x in timers <==> x in timers[..n] || x == timers[n]
  {
    var n := |timers| - 1;
    assert timers == timers[..n] + [timers[n]];
    assert forall x :: x in timers[..n] ==> x.pid != timers[n].pid;
  }

  /** A boost lifts the ready tasks in queues 2 and 3 whose lock is free, but no idle task. */
  ghost predicate Lifted(s: State, locked: set<Pid>, p: Pid) {
    && p in s.tasks && p !in locked && s.tasks[p].state == Ready && !s.tasks[p].isIdle
    && (p in s.queues[2] || p in s.queues[3])
  }

  /** `boost_priorities`: the lifted tasks join queue 1 and leave their own, everything else stays. */
  lemma BoostedMeans(s: State, locked: set<Pid>)
    ensures var t := Boosted(s, locked);
            && t.cur == s.cur && t.sus == s.sus && t.timers == s.timers
            && t.queues[0] == s.queues[0] && t.queues[4] == s.queues[4] && s.queues[1] <= t.queues[1]
            && (forall p :: p in t.queues[1] <==> p in s.queues[1] || Lifted(s, locked, p))
            && (forall p :: p in t.queues[2] <==> p in s.queues[2] && !Lifted(s, locked, p))
            && (forall p :: p in t.queues[3] <==> p in s.queues[3] && !Lifted(s, locked, p))
            && t.tasks.Keys == s.tasks.Keys
            && (forall p :: p in s.tasks ==>
                  t.tasks[p] == if Lifted(s, locked, p) then s.tasks[p].(priority := 1, inQueue := true)
                                else s.tasks[p])
  {
    var mid := BoostedQueue(s, 2, locked);
    PartMembers(s.queues[2], s.tasks, locked, true);
    PartMembers(s.queues[2], s.tasks, locked, false);
    PartMembers(s.queues[3], mid.tasks, locked, true);
    PartMembers(s.queues[3], mid.tasks, locked, false);
    assert forall p :: Liftable(mid.tasks, locked, p) <==> Liftable(s.tasks, locked, p);
  }

  /** The order in a queue does not change: a boost takes the queue apart entry by entry. */
  lemma {:induction false} PartJoin(a: seq<Pid>, b: seq<Pid>, tasks: map<Pid, Task>, locked: set<Pid>, lifted: bool)
    ensures Part(a + b, tasks, locked, lifted) == Part(a, tasks, locked, lifted) + Part(b, tasks, locked, lifted)
    ensures |b| == 1 ==>
              var p := b[0];
              var up := p in tasks && p !in locked && tasks[p].state == Ready && !tasks[p].isIdle;
              Part(b, tasks, locked, lifted) == if up == lifted then b else []
    decreases |b|
  {
    if b == [] {
      assert a + b == a;
    } else {
      var n := |b| - 1;
      assert (a + b)[..|a + b| - 1] == a + b[..n];
      PartJoin(a, b[..n], tasks, locked, lifted);
      assert n == 0 ==> b[..n] == [] && b == [b[0]];
    }
  }
}
