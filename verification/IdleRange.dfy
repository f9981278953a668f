// PIDs are handed out without regard to the range of the idle tasks: what that breaks, and exactly when.
module IdleRange {
  import opened Machine
  import opened SchedulerState
  import opened SchedulerSteps
  import opened Wrappers

  /** A number above all in a set. */
  lemma {:induction false} Above(ks: set<nat>) returns (n: nat)
    ensures forall k :: k in ks ==> k < n
    decreases |ks|
  {
    if ks == {} {
      n := 0;
    } else {
      var k :| k in ks;
      var m := Above(ks - {k});
      n := if m <= k then k + 1 else m;
      assert forall j :: j in ks ==> j == k || j in ks - {k};
    }
  }

  function InSlots(s: Slots): set<Pid> {
    set c | 0 <= c < CORES && s[c].Some? :: s[c].value
  }

  /** A PID that is in no slot and names no task, and is none of the idle tasks'. */
  lemma FreshPid(s: State) returns (a: Pid)
    ensures a !in s.tasks && Idle(s.cur, s.sus, a) && !IsIdlePid(a)
  {
    var n := Above(s.tasks.Keys + InSlots(s.cur) + InSlots(s.sus));
    a := if n <= FIRST_IDLE + CORES then FIRST_IDLE + CORES else n;
    assert (Some(a) in s.cur ==> a in InSlots(s.cur)) && (Some(a) in s.sus ==> a in InSlots(s.sus));
  }

  /** Task `x` waits in a queue and is on no core. */
  ghost predicate Waits(s: State, x: Pid) {
    x in s.tasks && s.tasks[x].state == Ready && Queued(s.queues, x) && Idle(s.cur, s.sus, x)
  }

  /** Task `q` is as it was but for its queue flag, and still queued if it was. */
  ghost predicate KeptTask(s: State, t: State, q: Pid) {
    && q in s.tasks && q in t.tasks && t.tasks[q].(inQueue := s.tasks[q].inQueue) == s.tasks[q]
    && (Queued(s.queues, q) ==> Queued(t.queues, q))
  }

  /** With every other lock taken, a core picks exactly `x`. */
  lemma SwitchPicks(s: State, core: nat, me: Pid, x: Pid)
    requires core < CORES && s.cur[core] == Some(me) && Waits(s, x)
    ensures me != x
    ensures var t := Scheduled(s, core, s.tasks.Keys - {x, me}, false);
            && t.cur == s.cur[core := Some(x)] && t.sus == s.sus[core := if me in s.tasks then Some(me) else None]
            && x in t.tasks && t.tasks[x].state == Running
            && (forall q :: q in s.tasks && q != x && q != me ==> KeptTask(s, t, q))
            && (me in s.tasks && s.tasks[me].state == Ready ==> KeptTask(s, t, me))
  {
    assert s.cur[core] in s.cur;
    var locked := s.tasks.Keys - {x, me};
    var pk := PickFrom(s.queues, 0, s.cur, s.sus, s.tasks, locked);
    PickFirst(s.queues, 0, s.cur, s.sus, s.tasks, locked);
    FirstFromMeans(s.queues, 0, s.cur, s.sus, s.tasks, locked);
    assert Eligible(s.cur, s.sus, s.tasks, locked, x);
    assert pk.picked == Some(x) by {
      var j :| 0 <= j < NUM_PRIORITIES && x in s.queues[j];
      var queue := s.queues[j];
      assert pk.picked.None? ==> NoneIn(queue, s.cur, s.sus, s.tasks, locked);
    }
    forall q | q in s.tasks && q != x && Queued(s.queues, q) ensures Queued(pk.queues, q) {
      PickKeeps(s.queues, 0, s.cur, s.sus, s.tasks, locked, q);
    }
  }

  /** With every other lock taken and its own task stopped, a core falls back to its idle PID. */
  lemma SwitchFallsBack(s: State, core: nat, me: Pid)
    requires core < CORES && s.cur[core] == Some(me) && me in s.tasks && s.tasks[me].state == Blocked
    requires IdlePid(core) in s.tasks && IdlePid(core) != me
    ensures Scheduled(s, core, s.tasks.Keys - {me}, false).cur == s.cur[core := Some(IdlePid(core))]
  {
    assert s.cur[core] in s.cur;
    var locked := s.tasks.Keys - {me};
    PickFirst(s.queues, 0, s.cur, s.sus, s.tasks, locked);
    FirstFromMeans(s.queues, 0, s.cur, s.sus, s.tasks, locked);
    assert PickFrom(s.queues, 0, s.cur, s.sus, s.tasks, locked).picked == None;
  }

  /** Saving a context only adds queue entries. */
  lemma SaveKeeps(s: State, core: nat)
    requires core < CORES
    ensures var t := Saved(s, core);
            && t.cur == s.cur && t.sus == s.sus[core := None] && t.tasks.Keys == s.tasks.Keys
            && forall q :: q in s.tasks ==> KeptTask(s, t, q)
  {
    assert s.sus[core].None? ==> s.sus[core := None] == s.sus;
    if s.sus[core].Some? && Unqueued(s.tasks, s.sus[core].value) {
      PushQueued(s.queues, s.tasks[s.sus[core].value].priority, s.sus[core].value);
    }
  }

  /** A run that leaves the promised states: a task on two cores, or a runnable one lost. */
  ghost predicate Breaks(s: State, steps: seq<Step>) {
    After(s, steps).Some? &&
    var t := After(s, steps).value; !Exclusive(t.cur, t.sus) || !NotLost(t.queues, t.cur, t.sus, t.tasks, None)
  }

  lemma {:induction false} AfterJoin(s: State, a: seq<Step>, b: seq<Step>)
    requires After(s, a).Some?
    ensures After(s, a + b) == After(After(s, a).value, b)
    decreases |a|
  {
    if a == [] {
      assert a + b == b;
    } else {
      assert (a + b)[1..] == a[1..] + b;
      AfterJoin(Next(s, a[0]), a[1..], b);
    }
  }

  /** One step more. */
  lemma Extend(s: State, run: seq<Step>, t: State, step: Step) returns (longer: seq<Step>)
    requires After(s, run) == Some(t) && Enabled(t, step)
    ensures After(s, longer) == Some(Next(t, step))
  {
    longer := run + [step];
    AfterJoin(s, run, [step]);
    assert [step][1..] == [];
    assert After(Next(t, step), []) == Some(Next(t, step));
  }

  /** The idle PID `p` of core `c` has been given to an ordinary task that waits in a queue. */
  ghost predicate Taken(s: State, c: nat, p: Pid) {
    && c < CORES && p == IdlePid(c) && Busy(s.cur)
    && p in s.tasks && s.tasks[p].state == Ready && Queued(s.queues, p)
    && (forall e :: 0 <= e < CORES && e != c ==> s.cur[e] != Some(p) && s.sus[e] != Some(p))
  }

  lemma AddTakes(s: State, c: nat, priority: Priority, tgid: Pid)
    requires Good(s) && c < CORES
    ensures Taken(Added(s, IdlePid(c), priority, tgid), c, IdlePid(c))
  {
    PushQueued(s.queues, priority, IdlePid(c));
  }

  /** Saving contexts keeps that. */
  lemma SaveTaken(s: State, c: nat, p: Pid, core: nat)
    requires Taken(s, c, p) && core < CORES
    ensures Taken(Saved(s, core), c, p)
  {
    SaveKeeps(s, core);
    assert KeptTask(s, Saved(s, core), p);
  }

  /** Core `c` runs a task `a`, core `d` runs something, and `p` waits. */
  ghost predicate Settled(s: State, c: nat, d: nat, p: Pid, a: Pid) {
    && c < CORES && d < CORES && c != d && p == IdlePid(c) && a != p && !IsIdlePid(a) && a in s.tasks
    && s.cur[c] == Some(a) && s.cur[d].Some? && s.sus[c] == None && s.sus[d] == None && Waits(s, p)
  }

  /** Core `c` turns to the new task `a` and saves the context it left. */
  lemma TurnAway(s: State, c: nat, d: nat, p: Pid, a: Pid, me: Pid)
    requires Taken(s, c, p) && d < CORES && c != d && s.sus[c] == None && s.sus[d] == None && s.cur[c] == Some(me)
    requires a != p && !IsIdlePid(a) && Waits(s, a)
    ensures Settled(Saved(Scheduled(s, c, s.tasks.Keys - {a, me}, false), c), c, d, p, a)
  {
    var t := Scheduled(s, c, s.tasks.Keys - {a, me}, false);
    SwitchPicks(s, c, me, a);
    assert KeptTask(s, t, p);
    SaveKeeps(t, c);
    assert KeptTask(t, Saved(t, c), p);
  }

  /** A new task waits. */
  lemma AddWaits(s: State, c: nat, p: Pid, a: Pid)
    requires Taken(s, c, p) && a !in s.tasks && Idle(s.cur, s.sus, a)
    ensures Taken(Added(s, a, 0, a), c, p) && Waits(Added(s, a, 0, a), a)
  {
    PushQueued(s.queues, 0, a);
  }

  lemma SaveIdle(s: State, core: nat, a: Pid)
    requires core < CORES && Idle(s.cur, s.sus, a)
    ensures Idle(Saved(s, core).cur, Saved(s, core).sus, a) && Saved(s, core).tasks.Keys == s.tasks.Keys
  {
    SaveKeeps(s, core);
  }

  /** First part of the run: both cores finish their switches, and core `c` turns to a new task. */
  lemma SettleRun(s: State, c: nat, d: nat, p: Pid, a: Pid) returns (run: seq<Step>, t: State)
    requires Taken(s, c, p) && d < CORES && c != d && a !in s.tasks && Idle(s.cur, s.sus, a) && !IsIdlePid(a)
    ensures After(s, run) == Some(t) && Settled(t, c, d, p, a)
  {
    SaveTaken(s, c, p, c);
    SaveIdle(s, c, a);
    SaveKeeps(s, c);
    var s1 := Saved(s, c);
    SaveTaken(s1, c, p, d);
    SaveIdle(s1, d, a);
    SaveKeeps(s1, d);
    var s2 := Saved(s1, d);
    AddWaits(s2, c, p, a);
    var s3 := Added(s2, a, 0, a);
    var me := s3.cur[c].value;
    TurnAway(s3, c, d, p, a, me);
    run := Extend(s, [], s, Save(c));
    run := Extend(s, run, s1, Save(d));
    run := Extend(s, run, s2, Add(a, 0, a));
    run := Extend(s, run, s3, Switch(c, s3.tasks.Keys - {a, me}, false));
    t := Scheduled(s3, c, s3.tasks.Keys - {a, me}, false);
    run := Extend(s, run, t, Save(c));
    t := Saved(t, c);
  }

  /** Core `d` has picked the task with the idle PID, and the task of core `c` has blocked. */
  lemma PickTaken(s: State, c: nat, d: nat, p: Pid, a: Pid, me: Pid)
    requires Settled(s, c, d, p, a) && s.cur[d] == Some(me)
    ensures var t := Stopped(Scheduled(s, d, s.tasks.Keys - {p, me}, false), a, Blocked);
            && t.cur[c] == Some(a) && t.cur[d] == Some(p) && t.sus[c] == None
            && p in t.tasks && a in t.tasks && t.tasks[a].state == Blocked
  {
    SwitchPicks(s, d, me, p);
    TasksStay(s, d, s.tasks.Keys - {p, me}, false);
  }

  /** Second part: core `d` picks the task with the idle PID, `a` blocks, and core `c` falls back to that PID. */
  lemma CollideRun(s: State, c: nat, d: nat, p: Pid, a: Pid) returns (run: seq<Step>)
    requires Settled(s, c, d, p, a)
    ensures Breaks(s, run)
  {
    var me := s.cur[d].value;
    PickTaken(s, c, d, p, a, me);
    var s1 := Scheduled(s, d, s.tasks.Keys - {p, me}, false);
    var s2 := Stopped(s1, a, Blocked);
    SwitchFallsBack(s2, c, a);
    run := Extend(s, [], s, Switch(d, s.tasks.Keys - {p, me}, false));
    run := Extend(s, run, s1, Halt(a, Blocked));
    run := Extend(s, run, s2, Switch(c, s2.tasks.Keys - {a}, false));
    var s3 := Scheduled(s2, c, s2.tasks.Keys - {a}, false);
    assert s3.cur[c] == s3.cur[d] == Some(p);
  }

  /** Scheduling neither adds nor removes tasks. */
  lemma TasksStay(s: State, core: nat, locked: set<Pid>, lost: bool)
    ensures Scheduled(s, core, locked, lost).tasks.Keys == s.tasks.Keys
  {
    PickFirst(s.queues, 0, s.cur, s.sus, s.tasks, locked);
  }

  /** An idle PID given to an ordinary task always leads, by some run, to that PID on two cores. */
  lemma IdleCollision(s: State, p: Pid, priority: Priority, tgid: Pid) returns (steps: seq<Step>)
    requires Good(s) && IsIdlePid(p)
    ensures Breaks(Added(s, p, priority, tgid), steps)
  {
    var c := p - FIRST_IDLE;
    var d := if c == 0 then 1 else 0;
    var s0 := Added(s, p, priority, tgid);
    AddTakes(s, c, priority, tgid);
    var a := FreshPid(s0);
    var first, s1 := SettleRun(s0, c, d, p, a);
    var last := CollideRun(s1, c, d, p, a);
    steps := first + last;
    AfterJoin(s0, first, last);
  }

  /** Some run after adding a task leaves the promised states exactly when its PID is one of the idle tasks'. */
  lemma AddExact(s: State, p: Pid, priority: Priority, tgid: Pid)
    requires Good(s)
    ensures (exists steps :: Breaks(Added(s, p, priority, tgid), steps)) <==> IsIdlePid(p)
  {
    var t := Added(s, p, priority, tgid);
    if IsIdlePid(p) {
      var steps := IdleCollision(s, p, priority, tgid);
    } else {
      AddSound(s.queues, s.cur, s.sus, s.tasks, p, priority, tgid);
      forall steps | After(t, steps).Some? ensures !Breaks(t, steps) {
        RunSound(t, steps);
      }
    }
  }
}
