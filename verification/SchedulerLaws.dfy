// What the scheduler's scan, save and boost come to entry by entry, and what becomes of a preempted task.
module SchedulerLaws {
  import IdleRange
  import opened Machine
  import opened SchedulerState
  import opened SchedulerSteps
  import opened Wrappers

  /** What a scan passes over: a task on a core, or a task of the table `known` whose lock is taken. */
  predicate Passed(cur: Slots, sus: Slots, known: set<Pid>, locked: set<Pid>, p: Pid) {
    Some(p) in cur || Some(p) in sus || (p in known && p in locked)
  }

  /** The entries of `s` that a scan passes over, in order. */
  function Kept(s: seq<Pid>, cur: Slots, sus: Slots, known: set<Pid>, locked: set<Pid>): seq<Pid> {
    if s == [] then []
    else (if Passed(cur, sus, known, locked, s[0]) then [s[0]] else []) + Kept(s[1..], cur, sus, known, locked)
  }

  /** The queue flag is cleared for the entries of `s` that were taken out, and nothing else changes. */
  ghost predicate Cleared(t0: map<Pid, Task>, t1: map<Pid, Task>, s: seq<Pid>, cur: Slots, sus: Slots,
                          locked: set<Pid>) {
    && t0.Keys == t1.Keys
    && forall p :: p in t0 ==>
         t1[p] == if p in s && !Passed(cur, sus, t0.Keys, locked, p) then t0[p].(inQueue := false) else t0[p]
  }

  /**
   * The scan of queue `s` stopped at entry `x`, or `x` is its length: nothing
   * before `x` can run, the entries before `x` that were not passed over are
   * gone, entry `x` is taken, and those behind it are where they were.
   */
  ghost predicate Scanned(s: seq<Pid>, t0: map<Pid, Task>, cur: Slots, sus: Slots, locked: set<Pid>, x: nat,
                          queue: seq<Pid>, t1: map<Pid, Task>, picked: Option<Pid>) {
    && x <= |s| && NoneIn(s[..x], cur, sus, t0, locked)
    && if x == |s| then
         picked == None && queue == Kept(s, cur, sus, t0.Keys, locked) && Cleared(t0, t1, s, cur, sus, locked)
       else
         && picked == Some(s[x]) && Eligible(cur, sus, t0, locked, s[x])
         && queue == Kept(s[..x], cur, sus, t0.Keys, locked) + s[x + 1..]
         && Cleared(t0, t1, s[..x + 1], cur, sus, locked)
  }

  lemma {:induction false} ScanMeans(done: seq<Pid>, rest: seq<Pid>, cur: Slots, sus: Slots, tasks: map<Pid, Task>,
                                     locked: set<Pid>) returns (x: nat, queue: seq<Pid>)
    ensures var r := ScanFrom(done, rest, cur, sus, tasks, locked);
            r.queue == done + queue && Scanned(rest, tasks, cur, sus, locked, x, queue, r.tasks, r.picked)
    decreases |rest|
  {
    if rest == [] {
      x, queue := 0, [];
    } else {
      var p, t := rest[0], Unflag(tasks, rest[0]);
      if Passed(cur, sus, tasks.Keys, locked, p) {
        x, queue := ScanMeans(done + [p], rest[1..], cur, sus, tasks, locked);
        ScanPasses(rest, tasks, cur, sus, locked, x, queue, done);
        x, queue := x + 1, [p] + queue;
      } else if tasks.Keys == t.Keys && p in tasks && tasks[p].state == Ready {
        x, queue := 0, rest[1..];
        assert rest[..0] == [] && rest[..1] == [p];
      } else {
        x, queue := ScanMeans(done, rest[1..], cur, sus, t, locked);
        ScanDrops(rest, tasks, cur, sus, locked, x, queue, done);
        x := x + 1;
      }
    }
  }

  /** An entry that is passed over stays in front of what the scan of the others leaves. */
  lemma ScanPasses(rest: seq<Pid>, tasks: map<Pid, Task>, cur: Slots, sus: Slots, locked: set<Pid>, x: nat,
                   queue: seq<Pid>, done: seq<Pid>)
    requires rest != [] && Passed(cur, sus, tasks.Keys, locked, rest[0])
    requires var r := ScanFrom(done + [rest[0]], rest[1..], cur, sus, tasks, locked);
             Scanned(rest[1..], tasks, cur, sus, locked, x, queue, r.tasks, r.picked)
    ensures var r := ScanFrom(done, rest, cur, sus, tasks, locked);
            Scanned(rest, tasks, cur, sus, locked, x + 1, [rest[0]] + queue, r.tasks, r.picked)
  {
    assert rest[..x + 1] == [rest[0]] + rest[1..][..x];
    assert x < |rest[1..]| ==> rest[..x + 2] == [rest[0]] + rest[1..][..x + 1];
    assert rest == [rest[0]] + rest[1..];
  }

  /** An entry that cannot run goes. */
  lemma ScanDrops(rest: seq<Pid>, tasks: map<Pid, Task>, cur: Slots, sus: Slots, locked: set<Pid>, x: nat,
                  queue: seq<Pid>, done: seq<Pid>)
    requires rest != [] && !Passed(cur, sus, tasks.Keys, locked, rest[0])
    requires !(rest[0] in tasks && tasks[rest[0]].state == Ready)
    requires var t := Unflag(tasks, rest[0]);
             var r := ScanFrom(done, rest[1..], cur, sus, t, locked);
             Scanned(rest[1..], t, cur, sus, locked, x, queue, r.tasks, r.picked)
    ensures var r := ScanFrom(done, rest, cur, sus, tasks, locked);
            Scanned(rest, tasks, cur, sus, locked, x + 1, queue, r.tasks, r.picked)
  {
    assert Unflag(tasks, rest[0]).Keys == tasks.Keys;
    assert rest[..x + 1] == [rest[0]] + rest[1..][..x];
    assert x < |rest[1..]| ==> rest[..x + 2] == [rest[0]] + rest[1..][..x + 1];
    assert rest == [rest[0]] + rest[1..];
  }

  /** An entry of `p` was looked at: in one of the queues from `k` on before queue `j`, or up to entry `x` of `j`. */
  ghost predicate Looked(qs: Queues, k: nat, j: nat, x: nat, p: Pid) {
    || (exists i :: k <= i < j && i < NUM_PRIORITIES && p in qs[i])
    || (j < NUM_PRIORITIES && x < |qs[j]| && p in qs[j][..x + 1])
  }

  /**
   * The pick from queue `k` on stopped at entry `x` of queue `j`, or `j` is
   * past the last queue: queues before `j` hold nothing that can run and keep
   * only what was passed over, queues behind `j` are as they were.
   */
  ghost predicate Picks(qs: Queues, t0: map<Pid, Task>, cur: Slots, sus: Slots, locked: set<Pid>, k: nat, j: nat,
                        x: nat, r: Pick) {
    && k <= j <= NUM_PRIORITIES
    && (forall i :: 0 <= i < NUM_PRIORITIES && (i < k || j < i) ==> r.queues[i] == qs[i])
    && (forall i :: k <= i < j ==>
          NoneIn(qs[i], cur, sus, t0, locked) && r.queues[i] == Kept(qs[i], cur, sus, t0.Keys, locked))
    && if j == NUM_PRIORITIES then r.picked == None
       else
         && x < |qs[j]| && NoneIn(qs[j][..x], cur, sus, t0, locked)
         && r.picked == Some(qs[j][x]) && Eligible(cur, sus, t0, locked, qs[j][x])
         && r.queues[j] == Kept(qs[j][..x], cur, sus, t0.Keys, locked) + qs[j][x + 1..]
  }

  /** The queue flag is cleared for the entries that were taken out, and nothing else changes. */
  ghost predicate Unflagged(qs: Queues, t0: map<Pid, Task>, cur: Slots, sus: Slots, locked: set<Pid>, k: nat, j: nat,
                            x: nat, t1: map<Pid, Task>) {
    && t0.Keys == t1.Keys
    && forall p :: p in t0 ==>
         t1[p] == if Looked(qs, k, j, x, p) && !Passed(cur, sus, t0.Keys, locked, p)
                  then t0[p].(inQueue := false) else t0[p]
  }

  lemma {:induction false} PickMeans(qs: Queues, k: nat, cur: Slots, sus: Slots, tasks: map<Pid, Task>,
                                     locked: set<Pid>) returns (j: nat, x: nat)
    requires k <= NUM_PRIORITIES
    ensures var r := PickFrom(qs, k, cur, sus, tasks, locked);
            Picks(qs, tasks, cur, sus, locked, k, j, x, r) && Unflagged(qs, tasks, cur, sus, locked, k, j, x, r.tasks)
    decreases NUM_PRIORITIES - k
  {
    if k == NUM_PRIORITIES {
      j, x := k, 0;
    } else {
      var queue;
      x, queue := ScanMeans([], qs[k], cur, sus, tasks, locked);
      var sc := ScanFrom([], qs[k], cur, sus, tasks, locked);
      assert sc.queue == queue;
      if sc.picked.Some? {
        j := k;
      } else {
        j, x := PickMeans(qs[k := sc.queue], k + 1, cur, sus, sc.tasks, locked);
        var r := PickFrom(qs, k, cur, sus, tasks, locked);
        assert qs[k][..|qs[k]|] == qs[k];
        PickOn(qs, sc.queue, k, k + 1, cur, sus, tasks, sc.tasks, r, locked, j, x);
        UnflagOn(qs, sc.queue, k, k + 1, cur, sus, tasks, sc.tasks, r.tasks, locked, j, x);
      }
    }
  }

  /** A queue that holds nothing that can run, before a pick from the queues behind it. */
  lemma PickOn(qs: Queues, queue: seq<Pid>, k: nat, next: nat, cur: Slots, sus: Slots, t0: map<Pid, Task>,
               t1: map<Pid, Task>, r: Pick, locked: set<Pid>, j: nat, x: nat)
    requires next == k + 1 && k < NUM_PRIORITIES && Cleared(t0, t1, qs[k], cur, sus, locked)
    requires NoneIn(qs[k], cur, sus, t0, locked) && queue == Kept(qs[k], cur, sus, t0.Keys, locked)
    requires Picks(qs[k := queue], t1, cur, sus, locked, next, j, x, r)
    ensures Picks(qs, t0, cur, sus, locked, k, j, x, r)
  {
    var mid := qs[k := queue];
    assert forall p :: Eligible(cur, sus, t1, locked, p) <==> Eligible(cur, sus, t0, locked, p);
    forall i | k <= i < j
      ensures NoneIn(qs[i], cur, sus, t0, locked) && r.queues[i] == Kept(qs[i], cur, sus, t0.Keys, locked)
    {
      assert if i == k then r.queues[i] == queue else mid[i] == qs[i];
    }
  }

  lemma UnflagOn(qs: Queues, queue: seq<Pid>, k: nat, next: nat, cur: Slots, sus: Slots, t0: map<Pid, Task>,
                 t1: map<Pid, Task>, t2: map<Pid, Task>, locked: set<Pid>, j: nat, x: nat)
    requires next == k + 1 <= j && k < NUM_PRIORITIES && Cleared(t0, t1, qs[k], cur, sus, locked)
    requires Unflagged(qs[k := queue], t1, cur, sus, locked, next, j, x, t2)
    ensures Unflagged(qs, t0, cur, sus, locked, k, j, x, t2)
  {
    forall p | p in t0 ensures Looked(qs, k, j, x, p) <==> p in qs[k] || Looked(qs[k := queue], next, j, x, p) {
      LookedOn(qs, queue, k, next, j, x, p);
    }
  }

  lemma LookedOn(qs: Queues, queue: seq<Pid>, k: nat, next: nat, j: nat, x: nat, p: Pid)
    requires next == k + 1 <= j && k < NUM_PRIORITIES
    ensures Looked(qs, k, j, x, p) <==> p in qs[k] || Looked(qs[k := queue], next, j, x, p)
  {
    var mid := qs[k := queue];
    assert forall i :: 0 <= i < NUM_PRIORITIES && i != k ==> mid[i] == qs[i];
    if p in qs[k] {
      assert Looked(qs, k, j, x, p);
    }
    if exists i :: next <= i < j && i < NUM_PRIORITIES && p in mid[i] {
      var i :| next <= i < j && i < NUM_PRIORITIES && p in mid[i];
      assert p in qs[i];
    }
    if exists i :: k <= i < j && i < NUM_PRIORITIES && p in qs[i] {
      var i :| k <= i < j && i < NUM_PRIORITIES && p in qs[i];
      assert i != k ==> p in mid[i];
    }
  }

  /** The queues after `schedule`: those the pick leaves; a picked task whose lock was lost is back behind its own. */
  lemma ScheduledQueues(s: State, core: nat, locked: set<Pid>, lost: bool) returns (j: nat, x: nat, r: Pick)
    requires core < CORES && s.cur[core].Some? && !(s.cur[core].value in s.tasks && s.cur[core].value in locked)
    ensures Picks(s.queues, s.tasks, s.cur, s.sus, locked, 0, j, x, r)
    ensures Scheduled(s, core, locked, lost).queues ==
            if j < NUM_PRIORITIES && lost then
              var p := s.queues[j][x]; r.queues[s.tasks[p].priority := r.queues[s.tasks[p].priority] + [p]]
            else r.queues
  {
    r := PickFrom(s.queues, 0, s.cur, s.sus, s.tasks, locked);
    j, x := PickMeans(s.queues, 0, s.cur, s.sus, s.tasks, locked);
  }

  lemma {:induction false} KeptMembers(s: seq<Pid>, cur: Slots, sus: Slots, known: set<Pid>, locked: set<Pid>, p: Pid)
    ensures p in Kept(s, cur, sus, known, locked) <==> p in s && Passed(cur, sus, known, locked, p)
  {
    if s == [] {
    } else {
      KeptMembers(s[1..], cur, sus, known, locked, p);
      assert p in s <==> p == s[0] || p in s[1..];
    }
  }

  /** A pick leaves a task that is on a core in the queues it was in, with its flag. */
  lemma PickLeaves(s: State, locked: set<Pid>, p: Pid, k: nat)
    requires Some(p) in s.cur && p in s.tasks && k < NUM_PRIORITIES
    ensures var r := PickFrom(s.queues, 0, s.cur, s.sus, s.tasks, locked);
            p in r.tasks && r.tasks[p] == s.tasks[p] && (p in r.queues[k] <==> p in s.queues[k])
  {
    var j, x := PickMeans(s.queues, 0, s.cur, s.sus, s.tasks, locked);
    PicksLeave(s, locked, p, k, j, x, PickFrom(s.queues, 0, s.cur, s.sus, s.tasks, locked));
  }

  lemma PicksLeave(s: State, locked: set<Pid>, p: Pid, k: nat, j: nat, x: nat, r: Pick)
    requires Some(p) in s.cur && k < NUM_PRIORITIES && Picks(s.queues, s.tasks, s.cur, s.sus, locked, 0, j, x, r)
    ensures p in r.queues[k] <==> p in s.queues[k]
  {
    var known := s.tasks.Keys;
    if k < j {
      KeptMembers(s.queues[k], s.cur, s.sus, known, locked, p);
    } else if k == j {
      CutMembers(s.queues[k], x, p);
      KeptMembers(s.queues[k][..x], s.cur, s.sus, known, locked, p);
      assert Idle(s.cur, s.sus, s.queues[k][x]);
    }
  }

  lemma CutMembers(s: seq<Pid>, x: nat, p: Pid)
    requires x < |s|
    ensures p in s <==> p in s[..x] || p == s[x] || p in s[x + 1..]
  {
    assert s == s[..x] + [s[x]] + s[x + 1..];
  }

  /** Task `me`, which was running on `core`, has left it and its context is saved: `u` is the state then. */
  ghost predicate Requeued(s: State, t: State, u: State, me: Pid) {
    && me in s.tasks && me in u.tasks
    && var k := s.tasks[me].priority;
       && u.tasks[me] == s.tasks[me].(state := Ready, inQueue := true) && Queued(u.queues, me)
       && (!s.tasks[me].inQueue ==> u.queues[k] == t.queues[k] + [me])
       && (me in u.queues[k] <==> !s.tasks[me].inQueue || me in s.queues[k])
  }

  /**
   * A running task that is preempted is ready again and queued once its
   * context is saved: at the end of the queue of its own priority, unless it
   * was flagged as queued when it left. Then it is in that queue exactly if it was.
   */
  lemma Preempted(s: State, core: nat, locked: set<Pid>, lost: bool, me: Pid)
    requires Good(s) && core < CORES && s.sus[core] == None && s.cur[core] == Some(me)
    requires me in s.tasks && !s.tasks[me].isIdle && s.tasks[me].state == Running
    requires Scheduled(s, core, locked, lost).cur[core] != Some(me)
    ensures var t := Scheduled(s, core, locked, lost); Requeued(s, t, Saved(t, core), me)
  {
    var t := Scheduled(s, core, locked, lost);
    ScheduledMeans(s, core, locked, lost);
    ScheduledSound(s, core, locked, lost);
    SavedSound(t, core);
    assert s.cur[core] in s.cur;
    PickLeaves(s, locked, me, s.tasks[me].priority);
    assert t.tasks[me] == s.tasks[me].(state := Ready);
  }

  /** The waiter `me` on `core` was woken before it left, goes on, and has lost a priority; task `q` has been added. */
  ghost predicate OutOfPlace(t: State, core: nat, me: Pid, q: Pid, k: nat) {
    && Good(t) && core < CORES && t.sus[core] == None && t.cur[core] == Some(me)
    && me in t.tasks && t.tasks[me] == Task(Running, t.tasks[me].priority, true, false, t.tasks[me].tgid)
    && k < NUM_PRIORITIES && t.tasks[me].priority == k && me !in t.queues[k]
    && Eligible(t.cur, t.sus, t.tasks, {}, q) && q in t.queues[0]
  }

  lemma GetsOutOfPlace(s: State, core: nat, me: Pid) returns (run: seq<Step>, t: State, q: Pid)
    requires Good(s) && core < CORES && s.sus[core] == None && s.cur[core] == Some(me)
    requires me in s.tasks && !s.tasks[me].isIdle && s.tasks[me].state == Running
    requires s.tasks[me].priority < 4 && me !in s.queues[s.tasks[me].priority + 1]
    ensures After(s, run) == Some(t) && OutOfPlace(t, core, me, q, s.tasks[me].priority + 1)
  {
    q := IdleRange.FreshPid(s);
    assert s.cur[core] in s.cur;
    var steps := [Halt(me, Blocked), Wake(me), GoOn(me), Lower(me), Add(q, 0, q)];
    var s1 := Next(s, steps[0]);
    var s2 := Next(s1, steps[1]);
    var s3 := Next(s2, steps[2]);
    var s4 := Next(s3, steps[3]);
    t := Next(s4, steps[4]);
    run := IdleRange.Extend(s, [], s, steps[0]);
    run := IdleRange.Extend(s, run, s1, steps[1]);
    run := IdleRange.Extend(s, run, s2, steps[2]);
    run := IdleRange.Extend(s, run, s3, steps[3]);
    run := IdleRange.Extend(s, run, s4, steps[4]);
    RunSound(s, run);
  }

  /**
   * The flag does matter: from every state with a preemptible task below the
   * lowest priority there is a run after which the task is ready but not in
   * the queue of its priority. It blocks, is woken before it leaves its core,
   * goes on, loses a priority at the end of its quantum and is preempted.
   */
  lemma Misqueued(s: State, core: nat, me: Pid) returns (run: seq<Step>)
    requires Good(s) && core < CORES && s.sus[core] == None && s.cur[core] == Some(me)
    requires me in s.tasks && !s.tasks[me].isIdle && s.tasks[me].state == Running
    requires s.tasks[me].priority < 4 && me !in s.queues[s.tasks[me].priority + 1]
    ensures After(s, run).Some?
    ensures var u := After(s, run).value;
            me in u.tasks && u.tasks[me].state == Ready && me !in u.queues[u.tasks[me].priority]
  {
    var before, t, q := GetsOutOfPlace(s, core, me);
    var k := s.tasks[me].priority + 1;
    FirstFromMeans(t.queues, 0, t.cur, t.sus, t.tasks, {});
    ScheduledMeans(t, core, {}, false);
    assert t.cur[core] in t.cur;
    Preempted(t, core, {}, false, me);
    run := IdleRange.Extend(s, before, t, Switch(core, {}, false));
    run := IdleRange.Extend(s, run, Scheduled(t, core, {}, false), Save(core));
  }
}
