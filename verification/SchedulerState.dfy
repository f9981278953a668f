// The run queues, the per-core slots and the task table, and what must hold of them together.
module SchedulerState {
  import opened Machine
  import opened Wrappers

  const NUM_PRIORITIES: nat := 5
  const FIRST_IDLE: nat := 900

  type Pid = nat

  datatype TaskState = Ready | Running | Blocked | Zombie

  type Priority = k: nat | k < NUM_PRIORITIES

  datatype Task = Task(state: TaskState, priority: Priority, inQueue: bool, isIdle: bool, tgid: Pid)

  type Queues = qs: seq<seq<Pid>> | |qs| == NUM_PRIORITIES witness seq(NUM_PRIORITIES, i => [])

  type Slots = s: seq<Option<Pid>> | |s| == CORES witness seq(CORES, i => None)

  function IdlePid(core: nat): Pid {
    FIRST_IDLE + core
  }

  predicate IsIdlePid(p: Pid) {
    FIRST_IDLE <= p < FIRST_IDLE + CORES
  }

  predicate Queued(qs: Queues, p: Pid) {
    exists k :: 0 <= k < NUM_PRIORITIES && p in qs[k]
  }

  /** The PID is in no slot, so it may be given to a core. */
  predicate Idle(cur: Slots, sus: Slots, p: Pid) {
    Some(p) !in cur && Some(p) !in sus
  }

  ghost predicate NoRepeat(s: Slots) {
    forall c, d :: 0 <= c < d < CORES && s[c].Some? ==> s[c] != s[d]
  }

  /** No PID occurs twice: no task runs on two cores or is resumed before its context is saved. */
  ghost predicate Exclusive(cur: Slots, sus: Slots) {
    NoRepeat(cur) && NoRepeat(sus) && forall p :: Some(p) in cur ==> Some(p) !in sus
  }

  /** Every runnable task but `hand`, the one just taken from a queue, is where it will be found. */
  ghost predicate NotLost(qs: Queues, cur: Slots, sus: Slots, tasks: map<Pid, Task>, hand: Option<Pid>) {
    forall p :: p in tasks && !tasks[p].isIdle && hand != Some(p) ==>
      && (tasks[p].state == Ready ==> Queued(qs, p) || !Idle(cur, sus, p))
      && (tasks[p].state == Running ==> Some(p) in cur)
  }

  /** A task that believes it is queued is queued. */
  ghost predicate Flagged(qs: Queues, tasks: map<Pid, Task>) {
    forall p :: p in tasks && tasks[p].inQueue ==> Queued(qs, p)
  }

  /** Slot `s[d]` holds no other core's idle task. */
  ghost predicate IdleAtHome(s: Slots) {
    forall d, c :: 0 <= d < CORES && 0 <= c < CORES && s[d] == Some(IdlePid(c)) ==> d == c
  }

  ghost predicate IdleTasks(tasks: map<Pid, Task>) {
    && (forall p :: p in tasks && tasks[p].isIdle ==> IsIdlePid(p))
    && (forall p :: IsIdlePid(p) ==> p in tasks && tasks[p].isIdle && tasks[p].state in {Ready, Running})
  }

  /** Every core runs something. */
  ghost predicate Busy(cur: Slots) {
    forall c :: 0 <= c < CORES ==> cur[c].Some?
  }

  ghost predicate IdleUnqueued(qs: Queues) {
    forall p :: Queued(qs, p) ==> !IsIdlePid(p)
  }

  ghost predicate Sound(qs: Queues, cur: Slots, sus: Slots, tasks: map<Pid, Task>, hand: Option<Pid>) {
    && Busy(cur) && Exclusive(cur, sus) && IdleAtHome(cur) && IdleAtHome(sus)
    && IdleTasks(tasks) && IdleUnqueued(qs)
    && Flagged(qs, tasks) && NotLost(qs, cur, sus, tasks, hand)
  }

  /** `pick_next` may take this task: ready, on no core, and its lock is free. */
  predicate Eligible(cur: Slots, sus: Slots, tasks: map<Pid, Task>, locked: set<Pid>, p: Pid) {
    Idle(cur, sus, p) && p in tasks && p !in locked && tasks[p].state == Ready
  }

  /** The tasks agree but for queue flags that have been cleared. */
  ghost predicate Unflags(t0: map<Pid, Task>, t1: map<Pid, Task>) {
    && t0.Keys == t1.Keys
    && forall p :: p in t1 ==> t1[p] == t0[p] || t1[p] == t0[p].(inQueue := false)
  }

  function Push(qs: Queues, k: nat, p: Pid): Queues
    requires k < NUM_PRIORITIES
  {
    qs[k := qs[k] + [p]]
  }

  lemma PushQueued(qs: Queues, k: nat, p: Pid)
    requires k < NUM_PRIORITIES
    ensures forall q :: Queued(Push(qs, k, p), q) <==> Queued(qs, q) || q == p
  {
    var next := Push(qs, k, p);
    forall q ensures Queued(next, q) <==> Queued(qs, q) || q == p {
      if Queued(qs, q) {
        var j :| 0 <= j < NUM_PRIORITIES && q in qs[j];
        assert q in next[j];
      }
      assert p in next[k];
      if Queued(next, q) {
        var j :| 0 <= j < NUM_PRIORITIES && q in next[j];
        assert q in qs[j] || q == p;
      }
    }
  }

  /** Entry `i` of queue `k` taken out. */
  function Remove(qs: Queues, k: nat, i: nat): Queues
    requires k < NUM_PRIORITIES && i < |qs[k]|
  {
    qs[k := qs[k][..i] + qs[k][i + 1..]]
  }

  lemma RemoveQueued(qs: Queues, k: nat, i: nat)
    requires k < NUM_PRIORITIES && i < |qs[k]|
    ensures forall q :: Queued(Remove(qs, k, i), q) ==> Queued(qs, q)
    ensures forall q :: Queued(qs, q) && q != qs[k][i] ==> Queued(Remove(qs, k, i), q)
  {
    var next := Remove(qs, k, i);
    forall q | Queued(next, q) ensures Queued(qs, q) {
      var j :| 0 <= j < NUM_PRIORITIES && q in next[j];
      assert q in qs[j];
    }
    forall q | Queued(qs, q) && q != qs[k][i] ensures Queued(next, q) {
      var j :| 0 <= j < NUM_PRIORITIES && q in qs[j];
      var x :| 0 <= x < |qs[j]| && qs[j][x] == q;
      if j == k {
        assert next[k][if x < i then x else x - 1] == q;
      }
      assert q in next[j];
    }
  }

  function Unflag(tasks: map<Pid, Task>, p: Pid): map<Pid, Task> {
    if p in tasks then tasks[p := tasks[p].(inQueue := false)] else tasks
  }

  /** Taking an entry out of a queue: a dead one is dropped, a ready one is in the scheduler's hand. */
  lemma RemoveSound(qs: Queues, cur: Slots, sus: Slots, tasks: map<Pid, Task>, k: nat, i: nat)
    requires Sound(qs, cur, sus, tasks, None) && k < NUM_PRIORITIES && i < |qs[k]| && Idle(cur, sus, qs[k][i])
    ensures var p := qs[k][i];
            Sound(Remove(qs, k, i), cur, sus, Unflag(tasks, p),
                  if p in tasks && tasks[p].state == Ready then Some(p) else None)
  {
    var p, next := qs[k][i], Remove(qs, k, i);
    RemoveQueued(qs, k, i);
    assert Queued(qs, p) && !IsIdlePid(p);
    forall q | q in tasks && q != p ensures tasks[q].inQueue ==> Queued(next, q) {
      assert tasks[q].inQueue ==> Queued(qs, q);
    }
  }

  /** The first task of a queue that may be taken. */
  function FirstIn(s: seq<Pid>, cur: Slots, sus: Slots, tasks: map<Pid, Task>, locked: set<Pid>): Option<Pid> {
    if s == [] then None
    else if Eligible(cur, sus, tasks, locked, s[0]) then Some(s[0])
    else FirstIn(s[1..], cur, sus, tasks, locked)
  }

  /** The first task that may be taken, from queue `k` on. */
  function FirstFrom(qs: Queues, k: nat, cur: Slots, sus: Slots, tasks: map<Pid, Task>, locked: set<Pid>): Option<Pid>
    decreases NUM_PRIORITIES - k
  {
    if k >= NUM_PRIORITIES then None
    else
      var f := FirstIn(qs[k], cur, sus, tasks, locked);
      if f.Some? then f else FirstFrom(qs, k + 1, cur, sus, tasks, locked)
  }

  ghost predicate NoneIn(s: seq<Pid>, cur: Slots, sus: Slots, tasks: map<Pid, Task>, locked: set<Pid>) {
    forall p :: p in s ==> !Eligible(cur, sus, tasks, locked, p)
  }

  ghost predicate NoneFrom(qs: Queues, k: nat, n: nat, cur: Slots, sus: Slots, tasks: map<Pid, Task>,
                           locked: set<Pid>) {
    forall j :: k <= j < n && j < NUM_PRIORITIES ==> NoneIn(qs[j], cur, sus, tasks, locked)
  }

  /** What `FirstFrom` means: nothing before the result may be taken, and none at all if there is no result. */
  lemma {:induction false} FirstInMeans(s: seq<Pid>, cur: Slots, sus: Slots, tasks: map<Pid, Task>, locked: set<Pid>)
    ensures var f := FirstIn(s, cur, sus, tasks, locked);
            match f
            case None => NoneIn(s, cur, sus, tasks, locked)
            case Some(p) =>
              && Eligible(cur, sus, tasks, locked, p)
              && (exists x :: 0 <= x < |s| && s[x] == p && NoneIn(s[..x], cur, sus, tasks, locked))
  {
    if s != [] && !Eligible(cur, sus, tasks, locked, s[0]) {
      FirstInMeans(s[1..], cur, sus, tasks, locked);
      var f := FirstIn(s[1..], cur, sus, tasks, locked);
      match f {
        case None => assert s == [s[0]] + s[1..];
        case Some(p) =>
          var x :| 0 <= x < |s[1..]| && s[1..][x] == p && NoneIn(s[1..][..x], cur, sus, tasks, locked);
          assert s[x + 1] == p && s[..x + 1] == [s[0]] + s[1..][..x];
      }
    } else if s != [] {
      assert s[..0] == [];
    }
  }

  lemma {:induction false} FirstFromMeans(qs: Queues, k: nat, cur: Slots, sus: Slots, tasks: map<Pid, Task>,
                                          locked: set<Pid>)
    ensures var f := FirstFrom(qs, k, cur, sus, tasks, locked);
            match f
            case None => NoneFrom(qs, k, NUM_PRIORITIES, cur, sus, tasks, locked)
            case Some(p) =>
              && Eligible(cur, sus, tasks, locked, p)
              && (exists j :: k <= j < NUM_PRIORITIES && p in qs[j] && NoneFrom(qs, k, j, cur, sus, tasks, locked))
    decreases NUM_PRIORITIES - k
  {
    if k < NUM_PRIORITIES {
      FirstInMeans(qs[k], cur, sus, tasks, locked);
      if FirstIn(qs[k], cur, sus, tasks, locked).None? {
        FirstFromMeans(qs, k + 1, cur, sus, tasks, locked);
      }
    }
  }

  /** Queue flags do not matter to the choice. */
  lemma {:induction false} UnflagsFirst(s: seq<Pid>, cur: Slots, sus: Slots, t0: map<Pid, Task>, t1: map<Pid, Task>,
                                        locked: set<Pid>)
    requires Unflags(t0, t1)
    ensures FirstIn(s, cur, sus, t1, locked) == FirstIn(s, cur, sus, t0, locked)
  {
    if s == [] {
    } else {
      assert Eligible(cur, sus, t1, locked, s[0]) <==> Eligible(cur, sus, t0, locked, s[0]);
      UnflagsFirst(s[1..], cur, sus, t0, t1, locked);
    }
  }

  /** The task leaving a core is ready again if it was running, the one entering it runs. */
  function Swapped(tasks: map<Pid, Task>, me: Pid, next: Pid): map<Pid, Task>
    requires next in tasks
  {
    var t := if me in tasks && tasks[me].state == Running then tasks[me := tasks[me].(state := Ready)] else tasks;
    t[next := t[next].(state := Running)]
  }

  /** The slot that keeps the leaving task from being picked until its context is saved. */
  function Leaving(sus: Slots, core: nat, me: Pid, tasks: map<Pid, Task>): Slots
    requires core < CORES
  {
    sus[core := if me in tasks then Some(me) else None]
  }

  lemma SwitchExclusive(cur: Slots, sus: Slots, core: nat, me: Pid, next: Pid, tasks: map<Pid, Task>)
    requires Exclusive(cur, sus) && core < CORES && cur[core] == Some(me) && sus[core] == None && Idle(cur, sus, next)
    ensures Exclusive(cur[core := Some(next)], Leaving(sus, core, me, tasks))
    ensures forall p :: p != me && p != next ==>
              (Some(p) in cur[core := Some(next)] <==> Some(p) in cur)
              && (Some(p) in Leaving(sus, core, me, tasks) <==> Some(p) in sus)
    ensures Some(next) in cur[core := Some(next)] && (me in tasks ==> Some(me) in Leaving(sus, core, me, tasks))
  {
    var cur', sus' := cur[core := Some(next)], Leaving(sus, core, me, tasks);
    assert cur'[core] == Some(next) && (me in tasks ==> sus'[core] == Some(me));
    forall p | p != me && p != next
      ensures (Some(p) in cur' <==> Some(p) in cur) && (Some(p) in sus' <==> Some(p) in sus)
    {
      if Some(p) in cur {
        var c :| 0 <= c < CORES && cur[c] == Some(p);
        assert cur'[c] == Some(p);
      }
      if Some(p) in sus {
        var c :| 0 <= c < CORES && sus[c] == Some(p);
        assert sus'[c] == Some(p);
      }
    }
    assert Some(me) !in cur';
    assert cur[core] in cur && Some(me) !in sus;
  }

  /** A switch of a core from `me` to `next`, which is in the scheduler's hand or the core's idle task. */
  lemma SwitchSound(qs: Queues, cur: Slots, sus: Slots, tasks: map<Pid, Task>, hand: Option<Pid>,
                    core: nat, me: Pid, next: Pid)
    requires Sound(qs, cur, sus, tasks, hand) && core < CORES && cur[core] == Some(me) && sus[core] == None
    requires next in tasks && Idle(cur, sus, next)
    requires if hand.Some? then hand.value == next && !IsIdlePid(next) else next == IdlePid(core)
    ensures Sound(qs, cur[core := Some(next)], Leaving(sus, core, me, tasks), Swapped(tasks, me, next), None)
  {
    SwitchExclusive(cur, sus, core, me, next, tasks);
    var t := Swapped(tasks, me, next);
    assert cur[core] in cur;
    assert me != next;
    assert Flagged(qs, t);
    assert IdleTasks(t);
  }

  /** The current task of a core goes on running. */
  lemma StaySound(qs: Queues, cur: Slots, sus: Slots, tasks: map<Pid, Task>, p: Pid)
    requires Sound(qs, cur, sus, tasks, None) && p in tasks && Some(p) in cur
    ensures Sound(qs, cur, sus, tasks[p := tasks[p].(state := Running)], None)
  {
  }

  /** A task is put at the back of the queue of its priority. */
  lemma PushSound(qs: Queues, cur: Slots, sus: Slots, tasks: map<Pid, Task>, hand: Option<Pid>, k: nat, p: Pid)
    requires Sound(qs, cur, sus, tasks, hand) && k < NUM_PRIORITIES && !IsIdlePid(p)
    requires hand == None || (hand == Some(p) && (p in tasks ==> tasks[p].state == Ready))
    ensures Sound(Push(qs, k, p), cur, sus, tasks, None)
  {
    PushQueued(qs, k, p);
  }

  /** A queued task may be made ready and flagged. */
  lemma ReadySound(qs: Queues, cur: Slots, sus: Slots, tasks: map<Pid, Task>, p: Pid)
    requires Sound(qs, cur, sus, tasks, None) && p in tasks && Queued(qs, p)
    ensures Sound(qs, cur, sus, tasks[p := tasks[p].(state := Ready, inQueue := true)], None)
  {
  }

  /** A task that waits or has exited need not be found. */
  lemma StopSound(qs: Queues, cur: Slots, sus: Slots, tasks: map<Pid, Task>, p: Pid, state: TaskState)
    requires Sound(qs, cur, sus, tasks, None) && p in tasks && !IsIdlePid(p) && (state == Blocked || state == Zombie)
    ensures Sound(qs, cur, sus, tasks[p := tasks[p].(state := state)], None)
  {
  }

  /** A suspended task is released from its core, if it is queued, not runnable, or idle. */
  lemma ReleaseSound(qs: Queues, cur: Slots, sus: Slots, tasks: map<Pid, Task>, core: nat)
    requires Sound(qs, cur, sus, tasks, None) && core < CORES && sus[core].Some?
    requires var p := sus[core].value;
             p in tasks && !tasks[p].isIdle && tasks[p].state == Ready ==> Queued(qs, p)
    ensures Sound(qs, cur, sus[core := None], tasks, None)
  {
    var next := sus[core := None];
    assert sus[core] in sus;
    forall p | Some(p) in sus && sus[core] != Some(p) ensures Some(p) in next {
      var c :| 0 <= c < CORES && sus[c] == Some(p);
      assert next[c] == Some(p);
    }
    forall p | Some(p) in next ensures Some(p) in sus {
      var c :| 0 <= c < CORES && next[c] == Some(p);
      assert sus[c] == Some(p);
    }
  }

  lemma ReapSound(qs: Queues, cur: Slots, sus: Slots, tasks: map<Pid, Task>, p: Pid)
    requires Sound(qs, cur, sus, tasks, None) && !IsIdlePid(p)
    ensures Sound(qs, cur, sus, tasks - {p}, None)
  {
  }

  /** Priorities do not matter to the invariant. */
  lemma PrioritySound(qs: Queues, cur: Slots, sus: Slots, tasks: map<Pid, Task>, p: Pid, k: Priority)
    requires Sound(qs, cur, sus, tasks, None) && p in tasks
    ensures Sound(qs, cur, sus, tasks[p := tasks[p].(priority := k)], None)
  {
  }

  /** A new task outside the range of the idle tasks. */
  lemma AddSound(qs: Queues, cur: Slots, sus: Slots, tasks: map<Pid, Task>, p: Pid, priority: Priority, tgid: Pid)
    requires Sound(qs, cur, sus, tasks, None) && !IsIdlePid(p)
    ensures Sound(Push(qs, priority, p), cur, sus, tasks[p := Task(Ready, priority, true, false, tgid)], None)
  {
    PushQueued(qs, priority, p);
    assert IdleTasks(tasks[p := Task(Ready, priority, true, false, tgid)]);
  }

  /** A boost lifts a task that is ready, not idle, and whose lock is free. */
  predicate Liftable(tasks: map<Pid, Task>, locked: set<Pid>, p: Pid) {
    p in tasks && p !in locked && !tasks[p].isIdle && tasks[p].state == Ready
  }

  /** The entries of a queue that a boost lifts, or leaves, in order. */
  function Part(s: seq<Pid>, tasks: map<Pid, Task>, locked: set<Pid>, lifted: bool): seq<Pid> {
    if s == [] then []
    else
      var p, rest := s[|s| - 1], Part(s[..|s| - 1], tasks, locked, lifted);
      if Liftable(tasks, locked, p) == lifted then rest + [p] else rest
  }

  /** Every task in `s` that can be lifted gets high priority. */
  function Lift(tasks: map<Pid, Task>, locked: set<Pid>, s: seq<Pid>): map<Pid, Task> {
    map p | p in tasks ::
      if Liftable(tasks, locked, p) && p in s then tasks[p].(priority := 1, inQueue := true) else tasks[p]
  }

  /** Queue `k` taken apart: `lifted` have joined queue 1, `left` are back in queue `k`. */
  function Boosting(qs: Queues, k: nat, lifted: seq<Pid>, left: seq<Pid>): Queues
    requires 1 < k < NUM_PRIORITIES
  {
    qs[1 := qs[1] + lifted][k := left]
  }

  lemma BoostPush(qs: Queues, k: nat, lifted: seq<Pid>, left: seq<Pid>, p: Pid)
    requires 1 < k < NUM_PRIORITIES
    ensures Push(Boosting(qs, k, lifted, left), 1, p) == Boosting(qs, k, lifted + [p], left)
    ensures Push(Boosting(qs, k, lifted, left), k, p) == Boosting(qs, k, lifted, left + [p])
  {
    assert qs[1] + lifted + [p] == qs[1] + (lifted + [p]);
  }

  lemma QueuedSame(qs: Queues, next: Queues, cur: Slots, sus: Slots, tasks: map<Pid, Task>)
    requires Sound(qs, cur, sus, tasks, None) && forall p :: Queued(next, p) <==> Queued(qs, p)
    ensures Sound(next, cur, sus, tasks, None)
  {
  }

  /** Tasks that are queued may be lifted. */
  lemma LiftSound(qs: Queues, cur: Slots, sus: Slots, tasks: map<Pid, Task>, locked: set<Pid>, s: seq<Pid>)
    requires Sound(qs, cur, sus, tasks, None) && forall p :: p in s ==> Queued(qs, p)
    ensures Sound(qs, cur, sus, Lift(tasks, locked, s), None)
  {
  }

  /** A new running task takes a core over from the core's idle task. */
  lemma BootSound(qs: Queues, cur: Slots, sus: Slots, tasks: map<Pid, Task>, core: nat, p: Pid, task: Task)
    requires Sound(qs, cur, sus, tasks, None) && core < CORES && cur[core] == Some(IdlePid(core))
    requires !IsIdlePid(p) && Idle(cur, sus, p) && task.state == Running
    requires !task.isIdle && !task.inQueue
    ensures Sound(qs, cur[core := Some(p)], sus, tasks[p := task], None)
  {
    var next := cur[core := Some(p)];
    assert next[core] == Some(p);
    forall q | Some(q) in cur && q != IdlePid(core) ensures Some(q) in next {
      var c :| 0 <= c < CORES && cur[c] == Some(q);
      assert next[c] == Some(q);
    }
    assert forall q :: IsIdlePid(q) ==> q in tasks && tasks[q].isIdle;
    assert IsIdlePid(IdlePid(core));
  }
}
