// Wake-ups that travel from queue to queue: `wake_all_locked` and the listeners of wait queues.
module Listeners {

  type Pid = nat
  type Queue = nat

  /** A queue: its sequence number, its count of waiters and listeners, its tasks, and its listeners. */
  datatype WaitQueue = WaitQueue(sequence: nat, count: nat, pids: seq<Pid>, listeners: seq<Queue>)

  /** All queues, and the tasks that are blocked. */
  datatype Net = Net(queues: map<Queue, WaitQueue>, blocked: set<Pid>)

  /** The listeners that still exist. */
  function Alive(ls: seq<Queue>, live: set<Queue>): (r: seq<Queue>)
    ensures forall l :: l in r <==> l in ls && l in live
    ensures |r| <= |ls|
  {
    if ls == [] then []
    else
      var last, rest := ls[|ls| - 1], Alive(ls[..|ls| - 1], live);
      assert forall l :: l in ls <==> l in ls[..|ls| - 1] || l == last;
      if last in live then rest + [last] else rest
  }

  lemma {:induction false} AliveAgain(ls: seq<Queue>, live: set<Queue>)
    ensures Alive(Alive(ls, live), live) == Alive(ls, live)
  {
    if ls == [] {
    } else {
      var last, rest := ls[|ls| - 1], Alive(ls[..|ls| - 1], live);
      AliveAgain(ls[..|ls| - 1], live);
      if last in live {
        assert (rest + [last])[..|rest|] == rest;
      }
    }
  }

  /** Listening goes down in rank, so that no queue listens to itself, not even by way of others. */
  ghost predicate Ranked(n: Net, live: set<Queue>, rank: map<Queue, nat>) {
    && live <= n.queues.Keys <= rank.Keys
    && forall q, l :: q in n.queues && l in n.queues[q].listeners && l in live ==> rank[l] < rank[q]
  }

  /** The queues that a wake-up of `q` gets to. */
  ghost function Reach(n: Net, live: set<Queue>, rank: map<Queue, nat>, q: Queue): set<Queue>
    requires Ranked(n, live, rank) && q in n.queues
    decreases rank[q], 1
  {
    {q} + ReachAll(n, live, rank, q, n.queues[q].listeners)
  }

  ghost function ReachAll(n: Net, live: set<Queue>, rank: map<Queue, nat>, q: Queue, ls: seq<Queue>): set<Queue>
    requires Ranked(n, live, rank) && q in n.queues && forall l :: l in ls ==> l in n.queues[q].listeners
    decreases rank[q], 0, |ls|
  {
    if ls == [] then {}
    else
      var last := ls[|ls| - 1];
      ReachAll(n, live, rank, q, ls[..|ls| - 1]) + if last in live then Reach(n, live, rank, last) else {}
  }

  /** Between wake-ups, the count of every queue is exact. */
  ghost predicate Exact(n: Net) {
    forall q :: q in n.queues ==> n.queues[q].count == |n.queues[q].pids| + |n.queues[q].listeners|
  }

  /** A queue after a wake-up: empty, with a new sequence number, without dead listeners. */
  ghost predicate Rung(a: WaitQueue, b: WaitQueue, live: set<Queue>) {
    && b.pids == [] && a.sequence < b.sequence && b.listeners == Alive(a.listeners, live)
    && b.count == |b.listeners|
  }

  /** The tasks in some queues. */
  ghost function Sleepers(n: Net, qs: set<Queue>): set<Pid> {
    set q, p | q in qs && q in n.queues && p in n.queues[q].pids :: p
  }

  /** The queues in `qs` have been rung, the others are as they were; exactly the sleepers of `qs` are awake. */
  ghost predicate Woken(n: Net, m: Net, live: set<Queue>, qs: set<Queue>) {
    && m.queues.Keys == n.queues.Keys && qs <= n.queues.Keys
    && (forall q :: q in qs ==> Rung(n.queues[q], m.queues[q], live))
    && (forall q :: q in n.queues && q !in qs ==> m.queues[q] == n.queues[q])
    && m.blocked == n.blocked - Sleepers(n, qs)
  }

  lemma WokenNone(n: Net, live: set<Queue>)
    ensures Woken(n, n, live, {})
  {
  }

  lemma WokenJoin(n: Net, m: Net, k: Net, live: set<Queue>, a: set<Queue>, b: set<Queue>)
    requires Woken(n, m, live, a) && Woken(m, k, live, b)
    ensures Woken(n, k, live, a + b)
  {
    forall q | q in a + b ensures Rung(n.queues[q], k.queues[q], live) {
      AliveAgain(n.queues[q].listeners, live);
    }
    assert Sleepers(n, a + b) == Sleepers(n, a) + Sleepers(m, b) by {
      assert forall q :: q in a ==> m.queues[q].pids == [];
      assert forall q :: q in b && q !in a ==> m.queues[q].pids == n.queues[q].pids;
    }
  }

  /** Whoever is in the reach of a list is in the reach of one of its live members. */
  lemma {:induction false} ReachMember(n: Net, live: set<Queue>, rank: map<Queue, nat>, q: Queue, ls: seq<Queue>,
                                       x: Queue)
    requires Ranked(n, live, rank) && q in n.queues && forall l :: l in ls ==> l in n.queues[q].listeners
    ensures x in ReachAll(n, live, rank, q, ls) <==> exists l :: l in ls && l in live && x in Reach(n, live, rank, l)
  {
    if ls == [] {
    } else {
      var last, rest := ls[|ls| - 1], ls[..|ls| - 1];
      assert forall l :: l in ls <==> l in rest || l == last;
      ReachMember(n, live, rank, q, rest, x);
    }
  }

  /** Two nets with the same live listeners. */
  ghost predicate SameLive(n: Net, m: Net, live: set<Queue>) {
    && m.queues.Keys == n.queues.Keys
    && forall q, l :: q in n.queues && l in live ==> (l in m.queues[q].listeners <==> l in n.queues[q].listeners)
  }

  /** The reach of a queue depends on live listeners only. */
  lemma {:induction false} ReachSame(n: Net, m: Net, live: set<Queue>, rank: map<Queue, nat>, q: Queue)
    requires Ranked(n, live, rank) && Ranked(m, live, rank) && SameLive(n, m, live) && q in n.queues
    ensures Reach(m, live, rank, q) == Reach(n, live, rank, q)
    decreases rank[q]
  {
    forall l | l in live && l in n.queues[q].listeners ensures Reach(m, live, rank, l) == Reach(n, live, rank, l) {
      ReachSame(n, m, live, rank, l);
    }
    forall x ensures x in Reach(m, live, rank, q) <==> x in Reach(n, live, rank, q) {
      ReachMember(n, live, rank, q, n.queues[q].listeners, x);
      ReachMember(m, live, rank, q, m.queues[q].listeners, x);
    }
  }

  /** Nothing in the reach of a list ranks as high as the queue itself. */
  lemma {:induction false} ReachBelow(n: Net, live: set<Queue>, rank: map<Queue, nat>, q: Queue, x: Queue)
    requires Ranked(n, live, rank) && q in n.queues && x in Reach(n, live, rank, q)
    ensures x in n.queues && rank[x] <= rank[q]
    decreases rank[q]
  {
    if x != q {
      ReachMember(n, live, rank, q, n.queues[q].listeners, x);
      var l :| l in n.queues[q].listeners && l in live && x in Reach(n, live, rank, l);
      ReachBelow(n, live, rank, l, x);
    }
  }

  lemma ReachAllBelow(n: Net, live: set<Queue>, rank: map<Queue, nat>, q: Queue, ls: seq<Queue>)
    requires Ranked(n, live, rank) && q in n.queues && forall l :: l in ls ==> l in n.queues[q].listeners
    ensures q !in ReachAll(n, live, rank, q, ls) && ReachAll(n, live, rank, q, ls) <= n.queues.Keys
  {
    forall x | x in ReachAll(n, live, rank, q, ls) ensures x != q && x in n.queues {
      ReachMember(n, live, rank, q, ls, x);
      var l :| l in ls && l in live && x in Reach(n, live, rank, l);
      ReachBelow(n, live, rank, l, x);
    }
  }

  lemma WokenLive(n: Net, m: Net, live: set<Queue>, rank: map<Queue, nat>, qs: set<Queue>)
    requires Woken(n, m, live, qs) && Ranked(n, live, rank)
    ensures SameLive(n, m, live) && Ranked(m, live, rank)
  {
    forall q, l | q in n.queues && l in live ensures l in m.queues[q].listeners <==> l in n.queues[q].listeners {
      assert q in qs ==> m.queues[q].listeners == Alive(n.queues[q].listeners, live);
    }
  }

  /** The queue itself has been emptied, then its listeners have been woken, then the dead ones are dropped. */
  lemma WokenTop(n: Net, mid: Net, m: Net, live: set<Queue>, q: Queue, w: WaitQueue, below: set<Queue>)
    requires q in n.queues && q in mid.queues && q !in below && Woken(mid, m, live, below) && Rung(n.queues[q], w, live)
    requires mid.queues == n.queues[q := mid.queues[q]] && mid.blocked == n.blocked - Sleepers(n, {q})
    ensures Woken(n, m.(queues := m.queues[q := w]), live, {q} + below)
  {
    assert Sleepers(n, {q} + below) == Sleepers(n, {q}) + Sleepers(mid, below) by {
      assert forall r :: r in below ==> mid.queues[r] == n.queues[r];
    }
  }

  lemma ReachNext(n: Net, live: set<Queue>, rank: map<Queue, nat>, q: Queue, ls: seq<Queue>, i: nat)
    requires Ranked(n, live, rank) && q in n.queues && ls == n.queues[q].listeners && i < |ls|
    ensures ReachAll(n, live, rank, q, ls[..i + 1])
            == ReachAll(n, live, rank, q, ls[..i]) + if ls[i] in live then Reach(n, live, rank, ls[i]) else {}
  {
    assert ls[..i + 1][..i] == ls[..i];
  }

  /** One more listener has been looked at, and woken. */
  lemma WokenStep(n: Net, mid: Net, now: Net, m: Net, live: set<Queue>, rank: map<Queue, nat>, below: set<Queue>,
                  l: Queue)
    requires Ranked(n, live, rank) && Ranked(mid, live, rank) && Ranked(now, live, rank) && SameLive(n, mid, live)
    requires l in live && Woken(mid, now, live, below) && Woken(now, m, live, Reach(now, live, rank, l))
    ensures Woken(mid, m, live, below + Reach(n, live, rank, l))
  {
    WokenLive(mid, now, live, rank, below);
    ReachSame(n, mid, live, rank, l);
    ReachSame(mid, now, live, rank, l);
    WokenJoin(mid, now, m, live, below, Reach(n, live, rank, l));
  }

  class Wakers {
    var queues: map<Queue, WaitQueue>
    var blocked: set<Pid>
    const live: set<Queue>          // the listeners whose owner still exists
    ghost const rank: map<Queue, nat>

    ghost function N(): Net
      reads this
    {
      Net(queues, blocked)
    }

    ghost predicate Valid()
      reads this
    {
      Ranked(N(), live, rank) && Exact(N())
    }

    constructor (queues: map<Queue, WaitQueue>, blocked: set<Pid>, live: set<Queue>, ghost rank: map<Queue, nat>)
      requires Ranked(Net(queues, blocked), live, rank) && Exact(Net(queues, blocked))
      ensures Valid() && this.queues == queues && this.blocked == blocked && this.live == live && this.rank == rank
    {
      this.queues, this.blocked, this.live, this.rank := queues, blocked, live, rank;
    }

    /** The tasks of a queue are woken one by one. */
    method PopAll(q: Queue)
      requires Valid() && q in queues
      modifies this
      ensures Valid() && SameLive(old(N()), N(), live)
      ensures queues == old(queues)[q := queues[q]] && blocked == old(blocked) - Sleepers(old(N()), {q})
      ensures queues[q] == WaitQueue(old(queues)[q].sequence + 1, |queues[q].listeners|, [], old(queues)[q].listeners)
    {
      var w := queues[q];
      var rest := w.pids;
      ghost var popped: set<Pid> := {};
      while rest != []
        invariant blocked == old(blocked) - popped && queues == old(queues)
        invariant popped + (set p | p in rest) == set p | p in w.pids
      {
        popped := popped + {rest[0]};
        blocked := blocked - {rest[0]};
        assert (set p | p in rest) == {rest[0]} + set p | p in rest[1..];
        rest := rest[1..];
      }
      assert Sleepers(old(N()), {q}) == set p | p in w.pids;
      queues := queues[q := WaitQueue(w.sequence + 1, w.count - |w.pids|, [], w.listeners)];
    }

    /** `wake_all_locked`: every task that sleeps on a queue in reach is woken, and nothing else changes. */
    method WakeAllLocked(q: Queue)
      requires Valid() && q in queues
      modifies this
      ensures Valid() && Woken(old(N()), N(), live, Reach(old(N()), live, rank, q))
      decreases rank[q]
    {
      ghost var n := N();
      PopAll(q);
      ghost var mid := N();
      var ls := queues[q].listeners;
      ghost var below: set<Queue> := {};
      WokenNone(mid, live);
      var i := 0;
      while i < |ls|
        invariant 0 <= i <= |ls| && Valid() && Woken(mid, N(), live, below)
        invariant below == ReachAll(n, live, rank, q, ls[..i])
      {
        ReachNext(n, live, rank, q, ls, i);
        if ls[i] in live {
          ghost var now := N();
          WakeAllLocked(ls[i]);
          WokenStep(n, mid, now, N(), live, rank, below, ls[i]);
          below := below + Reach(n, live, rank, ls[i]);
        }
        i := i + 1;
      }
      assert ls[..i] == ls;
      ReachAllBelow(n, live, rank, q, ls);
      DropDead(q, n, mid, below);
    }

    /** Listeners that are gone leave the list, and the count. */
    method DropDead(q: Queue, ghost n: Net, ghost mid: Net, ghost below: set<Queue>)
      requires Valid() && q in n.queues && q !in below && Woken(mid, N(), live, below) && q in queues
      requires q in mid.queues && mid.queues[q].listeners == n.queues[q].listeners
      requires mid.queues == n.queues[q := mid.queues[q]] && mid.blocked == n.blocked - Sleepers(n, {q})
      requires mid.queues[q].pids == [] && n.queues[q].sequence < mid.queues[q].sequence
      modifies this`queues
      ensures Valid() && Woken(n, N(), live, {q} + below)
    {
      var w := queues[q];
      var kept := Alive(w.listeners, live);
      var next := w.(listeners := kept, count := w.count - (|w.listeners| - |kept|));
      WokenTop(n, mid, N(), live, q, next, below);
      queues := queues[q := next];
    }
  }

  /** No lost wake-up: a task that sleeps on any queue in the reach of `q` is awake afterwards. */
  lemma NoneLeft(n: Net, m: Net, live: set<Queue>, qs: set<Queue>, q: Queue, p: Pid)
    requires Woken(n, m, live, qs) && q in qs && p in n.queues[q].pids
    ensures p !in m.blocked && p !in m.queues[q].pids
  {
    assert p in Sleepers(n, qs);
  }
}
