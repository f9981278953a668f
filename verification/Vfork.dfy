// The completion that a vfork parent waits for: a flag and a wait queue of its own.
module Vfork {
  import opened WaitQueue
  import opened Wrappers

  const PARENT: Pid := 1
  const CHILD: Pid := 2

  /** Where the parent is in its loop; the rest of a round is the phase it has in the queue. */
  datatype Stage =
    | Looping     // about to look at the flag
    | Inside      // has seen the flag down: takes a token, then looks again
    | Tested      // has seen the flag down with its token in hand: waits
    | Returned

  datatype Completion = Completion(
    queue: State,
    completed: bool,
    stage: Stage,
    done: bool)       // the child is back from its wake-up

  const START: Completion := Completion(INIT, false, Looping, false)

  datatype Turn =
    | Look
    | Test
    | Complete
    | Inner(step: Step)

  function Parent(c: Completion): Phase {
    At(c.queue.phases, PARENT)
  }

  function Child(c: Completion): Phase {
    At(c.queue.phases, CHILD)
  }

  /** The steps on the queue: the parent waits, the child wakes, lock-free or under the scheduler lock. */
  predicate Ours(c: Completion, step: Step) {
    match step
    case Sample(p) => p == PARENT && c.stage.Inside?
    case LockScheduler(p) => p == PARENT && c.stage.Tested?
    case Check(p, _) => p == PARENT
    case Count(p) => p == PARENT
    case Enroll(p) => p == PARENT
    case UnlockScheduler(p) => p == PARENT
    case Signal(p) => p == PARENT
    case Clean(p) => p == PARENT
    case FinishWait(p) => p == PARENT
    case Bump(p) => p == CHILD && c.completed && !c.done
    case Load(p) => p == CHILD
    case BeginWake(p) => p == CHILD && c.completed && !c.done
    case Pop(p) => p == CHILD
    case Settle(p) => p == CHILD
    case Prune(p, _) => p == CHILD
    case EndWake(p) => p == CHILD
    case _ => false
  }

  predicate Possible(c: Completion, turn: Turn) {
    match turn
    case Look => c.stage.Looping?
    case Test => c.stage.Inside? && Parent(c).Sampled?
    case Complete => !c.completed
    case Inner(step) => Ours(c, step) && Enabled(c.queue, step)
  }

  function Turned(c: Completion, turn: Turn): Completion
    requires Possible(c, turn)
  {
    match turn
    case Look => c.(stage := if c.completed then Returned else Inside)
    case Test =>
      if c.completed then c.(stage := Returned, queue := Move(c.queue, PARENT, Out)) else c.(stage := Tested)
    case Complete => c.(completed := true)
    case Inner(step) =>
      var q := Next(c.queue, step);
      c.(queue := q,
         stage := if c.stage.Tested? && At(q.phases, PARENT).Out? then Looping else c.stage,
         done := c.done || (step.p == CHILD && At(q.phases, CHILD).Out?))
  }

  function After(c: Completion, turns: seq<Turn>): Option<Completion>
    decreases |turns|
  {
    if turns == [] then Some(c)
    else if Possible(c, turns[0]) then After(Turned(c, turns[0]), turns[1..])
    else None
  }

  predicate HasToken(ph: Phase) {
    ph.Sampled? || ph.Locked? || Committed(ph)
  }

  predicate Wakes(ph: Phase) {
    ph.Bumped? || ph.Seen? || ph.Waking? || ph.Popped? || ph.Settled? || ph.Pruning?
  }

  /** Nobody else uses the queue, and the phases of the two fit the loop and the flag. */
  ghost predicate Fits(c: Completion) {
    && (forall p: Pid :: p != PARENT && p != CHILD ==> At(c.queue.phases, p).Out?)
    && (c.stage.Looping? || c.stage.Returned? ==> Parent(c).Out?)
    && (c.stage.Inside? ==> Parent(c).Out? || Parent(c).Sampled?)
    && (c.stage.Tested? ==>
          HasToken(Parent(c)) || Parent(c).Cleaning?)
    && (!c.completed || c.done ==> Child(c).Out?) && (c.done ==> c.completed)
    && (Wakes(Child(c)) || Child(c).Out?)
  }

  /** Once the child has moved the sequence, a parent that saw the flag down has an old token. */
  ghost predicate Outdated(c: Completion) {
    (c.done || Wakes(Child(c))) && c.stage.Tested? && HasToken(Parent(c)) ==> Parent(c).token < c.queue.sequence
  }

  /** The parent is not on its way to sleep. */
  predicate Up(c: Completion) {
    Committed(Parent(c)) ==> Parent(c).Waiting? && PARENT !in c.queue.blocked
  }

  /** Once the child has emptied the queue, the parent is up. */
  ghost predicate Roused(c: Completion) {
    Child(c).Popped? || Child(c).Settled? || Child(c).Pruning? ==> Up(c)
  }

  ghost predicate Fair(c: Completion) {
    && Sound(c.queue) && Fits(c) && Outdated(c) && Roused(c)
    && (Parent(c).Sampled? ==> Parent(c).token <= c.queue.sequence)
  }

  lemma LeaveSound(s: State)
    requires Sound(s) && At(s.phases, PARENT).Sampled?
    ensures Sound(Move(s, PARENT, Out))
  {
    MoveAt(s, PARENT, Out);
    MoveLocks(s, PARENT, Out);
    MoveFlight(s, PARENT, Out);
    assert HoldsScheduler(At(s.phases, PARENT)) <==> s.scheduler == Some(PARENT);
    MoveTokens(s, PARENT, Out);
    forall q: Pid | Sleeps(Move(s, PARENT, Out), q) ensures q in s.pids {
      assert Sleeps(s, q);
    }
    assert BlockedExact(Move(s, PARENT, Out));
    forall q: Pid ensures ClaimExact(Move(s, PARENT, Out), q) {
      assert ClaimExact(s, q);
    }
  }

  /** What a step on the queue does to the phases. */
  lemma InnerAt(c: Completion, step: Step)
    requires Possible(c, Inner(step))
    ensures var q := Next(c.queue, step);
            && (forall p: Pid ::
                  At(q.phases, p) == if p == step.p then Target(c.queue, step) else At(c.queue.phases, p))
            && q.sequence == c.queue.sequence + (if step.Bump? || step.BeginWake? then 1 else 0)
  {
    EffectKeeps(c.queue, step);
    MoveAt(Effect(c.queue, step), step.p, Target(c.queue, step));
  }

  lemma InnerFits(c: Completion, step: Step)
    requires Fits(c) && Possible(c, Inner(step))
    ensures Fits(Turned(c, Inner(step)))
  {
    InnerAt(c, step);
  }

  lemma InnerOutdated(c: Completion, step: Step)
    requires Fair(c) && Possible(c, Inner(step))
    ensures var d := Turned(c, Inner(step));
            Outdated(d) && (Parent(d).Sampled? ==> Parent(d).token <= d.queue.sequence)
  {
    InnerAt(c, step);
    assert Committed(Parent(c)) || Parent(c).Locked? ==> Parent(c).token <= c.queue.sequence;
  }

  lemma InnerRoused(c: Completion, step: Step)
    requires Fair(c) && Possible(c, Inner(step))
    ensures Roused(Turned(c, Inner(step)))
  {
    InnerAt(c, step);
    if step.Pop? {
      PopTokens(c.queue, step);
    }
  }

  lemma TurnFair(c: Completion, turn: Turn)
    requires Fair(c) && Possible(c, turn)
    ensures Fair(Turned(c, turn))
  {
    match turn
    case Look =>
    case Test =>
      LeaveSound(c.queue);
      MoveAt(c.queue, PARENT, Out);
    case Complete =>
    case Inner(step) =>
      StepSound(c.queue, step);
      InnerFits(c, step);
      InnerOutdated(c, step);
      InnerRoused(c, step);
  }

  lemma {:induction false} RunFair(c: Completion, turns: seq<Turn>)
    requires Fair(c) && After(c, turns).Some?
    ensures Fair(After(c, turns).value)
    decreases |turns|
  {
    if turns == [] {
    } else {
      TurnFair(c, turns[0]);
      RunFair(Turned(c, turns[0]), turns[1..]);
    }
  }

  /** From here the parent can fall asleep, after the child is done. */
  ghost predicate CanHang(c: Completion) {
    exists turns :: After(c, turns).Some? && Asleep(After(c, turns).value.queue, PARENT)
  }

  /** The child is done, and the parent neither sleeps nor will pass its check. */
  ghost predicate Free(c: Completion) {
    c.done && Up(c) && (c.stage.Tested? && HasToken(Parent(c)) ==> Parent(c).token < c.queue.sequence)
  }

  lemma FreeTurn(c: Completion, turn: Turn)
    requires Fair(c) && Free(c) && Possible(c, turn)
    ensures Free(Turned(c, turn))
  {
    TurnFair(c, turn);
    match turn
    case Inner(step) => InnerAt(c, step);
    case _ =>
  }

  lemma {:induction false} FreeStays(c: Completion, turns: seq<Turn>)
    requires Fair(c) && Free(c) && After(c, turns).Some?
    ensures !Asleep(After(c, turns).value.queue, PARENT)
    decreases |turns|
  {
    if turns == [] {
    } else {
      TurnFair(c, turns[0]);
      FreeTurn(c, turns[0]);
      FreeStays(Turned(c, turns[0]), turns[1..]);
    }
  }

  /** The turns that put a parent past its check to sleep. */
  function Doze(): seq<Turn> {
    [Inner(Count(PARENT)), Inner(Enroll(PARENT)), Inner(UnlockScheduler(PARENT))]
  }

  lemma CheckedHangs(c: Completion)
    requires Fair(c) && Parent(c).Checked? && Child(c).Out?
    ensures After(c, Doze()).Some? && After(c, Doze()).value.done == c.done
    ensures Asleep(After(c, Doze()).value.queue, PARENT) && CanHang(c)
  {
    var turns := Doze();
    assert c.queue.pidsLock == None by {
      forall p: Pid ensures c.queue.pidsLock != Some(p) {
        assert HoldsPids(At(c.queue.phases, p)) <==> c.queue.pidsLock == Some(p);
      }
    }
    var c1 := Turned(c, turns[0]);
    var c2 := Turned(c1, turns[1]);
    var c3 := Turned(c2, turns[2]);
    assert turns[1..][0] == turns[1] && turns[1..][1..] == [turns[2]];
    assert After(c2, [turns[2]]) == After(c3, []) == Some(c3);
    assert After(c1, turns[1..]) == After(c2, turns[1..][1..]);
  }

  /** The turn with which the child comes back from its wake-up. */
  predicate Ends(c: Completion, turn: Turn) {
    Possible(c, turn) && !c.done && Turned(c, turn).done
  }

  lemma EndsFree(c: Completion, turn: Turn)
    requires Fair(c) && Ends(c, turn) && !(turn == Inner(Load(CHILD)) && Parent(c).Checked?)
    ensures Free(Turned(c, turn))
  {
    InnerAt(c, turn.step);
    TurnFair(c, turn);
    if turn.step.Load? {
      FastReturnEmpty(c.queue, CHILD, PARENT);
    }
  }

  /**
   * When the child is back, the parent can fall asleep for good exactly when the child took the
   * fast path and the parent was past its check just then.
   */
  lemma HangExact(turns: seq<Turn>, turn: Turn)
    requires After(START, turns).Some? && Ends(After(START, turns).value, turn)
    ensures var c := After(START, turns).value;
            CanHang(Turned(c, turn)) <==> turn == Inner(Load(CHILD)) && Parent(c).Checked?
  {
    var c := After(START, turns).value;
    RunFair(START, turns);
    TurnFair(c, turn);
    var d := Turned(c, turn);
    if turn == Inner(Load(CHILD)) && Parent(c).Checked? {
      InnerAt(c, turn.step);
      CheckedHangs(d);
    } else {
      EndsFree(c, turn);
      forall more | After(d, more).Some? ensures !Asleep(After(d, more).value.queue, PARENT) {
        FreeStays(d, more);
      }
    }
  }

  /** Once the child is back and the parent is asleep, a signal to the parent is all that can still happen. */
  lemma HangStays(c: Completion, turn: Turn)
    requires Fair(c) && c.done && Asleep(c.queue, PARENT)
    ensures Possible(c, turn) <==> turn == Inner(Signal(PARENT))
  {
    forall p: Pid ensures c.queue.scheduler != Some(p) {
      assert HoldsScheduler(At(c.queue.phases, p)) <==> c.queue.scheduler == Some(p);
    }
  }

  lemma {:induction false} AfterJoin(c: Completion, first: seq<Turn>, rest: seq<Turn>)
    requires After(c, first).Some?
    ensures After(c, first + rest) == After(After(c, first).value, rest)
    decreases |first|
  {
    if first == [] {
      assert first + rest == rest;
    } else {
      assert (first + rest)[1..] == first[1..] + rest;
      AfterJoin(Turned(c, first[0]), first[1..], rest);
    }
  }

  /** The parent passes its check, and only then the child completes. */
  function Pass(): seq<Turn> {
    [Look, Inner(Sample(PARENT)), Test, Inner(LockScheduler(PARENT)), Inner(Check(PARENT, false))]
  }

  function FastComplete(): seq<Turn> {
    [Complete, Inner(Bump(CHILD)), Inner(Load(CHILD))]
  }

  lemma PassRun() returns (turns: seq<Turn>, c: Completion)
    ensures After(START, turns) == Some(c)
    ensures Parent(c).Checked? && Child(c).Out? && !c.completed && !c.done && c.queue.waiterCount == 0
  {
    turns := Pass();
    var c1 := Turned(START, turns[0]);
    var c2 := Turned(c1, turns[1]);
    var c3 := Turned(c2, turns[2]);
    var c4 := Turned(c3, turns[3]);
    var c5 := Turned(c4, turns[4]);
    assert turns[1..][1..][1..][1..] == [turns[4]];
    assert After(c4, [turns[4]]) == After(c5, []) == Some(c5);
    assert After(c3, turns[1..][1..][1..]) == After(c4, [turns[4]]);
    assert After(c2, turns[1..][1..]) == After(c3, turns[1..][1..][1..]);
    assert After(c1, turns[1..]) == After(c2, turns[1..][1..]);
    c := c5;
  }

  lemma FastRun(c: Completion) returns (turns: seq<Turn>, d: Completion)
    requires Child(c).Out? && !c.completed && !c.done && c.queue.waiterCount == 0 && Parent(c).Checked?
    ensures After(c, turns) == Some(d) && d.completed && d.done && Child(d).Out? && Parent(d).Checked?
  {
    turns := FastComplete();
    var c1 := Turned(c, turns[0]);
    var c2 := Turned(c1, turns[1]);
    var c3 := Turned(c2, turns[2]);
    assert turns[1..][0] == turns[1] && turns[1..][1..] == [turns[2]];
    assert After(c2, [turns[2]]) == After(c3, []) == Some(c3);
    assert After(c1, turns[1..]) == After(c2, turns[1..][1..]);
    d := c3;
  }

  lemma JoinRuns(c: Completion, first: seq<Turn>, rest: seq<Turn>, d: Completion, e: Completion)
    requires Fair(c) && After(c, first) == Some(d) && After(d, rest) == Some(e)
    ensures After(c, first + rest) == Some(e) && Fair(d) && Fair(e)
  {
    AfterJoin(c, first, rest);
    RunFair(c, first);
    RunFair(d, rest);
  }

  lemma DozeRun(c: Completion) returns (turns: seq<Turn>, d: Completion)
    requires Fair(c) && c.done && Parent(c).Checked?
    ensures After(c, turns) == Some(d) && d.done && Asleep(d.queue, PARENT)
  {
    CheckedHangs(c);
    turns, d := Doze(), After(c, Doze()).value;
  }

  /** A whole run in which the child has completed and is back, and the parent sleeps. */
  lemma Hangs() returns (turns: seq<Turn>, c: Completion)
    ensures After(START, turns) == Some(c) && c.completed && c.done && Asleep(c.queue, PARENT)
  {
    var first, d := PassRun();
    var second, e := FastRun(d);
    JoinRuns(START, first, second, d, e);
    var last;
    last, c := DozeRun(e);
    turns := first + second + last;
    JoinRuns(START, first + second, last, e, c);
  }

  lemma TwoTurns(c: Completion, a: Turn, b: Turn, mid: Completion, d: Completion)
    requires Possible(c, a) && Turned(c, a) == mid && Possible(mid, b) && Turned(mid, b) == d
    ensures After(c, [a, b]) == Some(d)
  {
    assert [a, b][1..] == [b] && [b][1..] == [];
    assert After(d, []) == Some(d);
    assert After(mid, [b]) == After(d, []);
  }

  /** The child's wake-up under the scheduler lock, two steps at a time, while the parent stays where it is. */
  lemma SlowSees(c: Completion) returns (d: Completion)
    requires c.completed && !c.done && Child(c).Out? && !Parent(c).Out? && c.queue.waiterCount != 0
    requires c.queue.scheduler == None && c.queue.pidsLock != Some(CHILD) && c.queue.listenersLock != Some(CHILD)
    ensures After(c, [Inner(Bump(CHILD)), Inner(Load(CHILD))]) == Some(d)
    ensures d == c.(queue := d.queue) && Child(d).Seen? && Parent(d) == Parent(c)
    ensures d.queue == c.queue.(sequence := c.queue.sequence + 1, phases := d.queue.phases)
  {
    var mid := Turned(c, Inner(Bump(CHILD)));
    d := Turned(mid, Inner(Load(CHILD)));
    TwoTurns(c, Inner(Bump(CHILD)), Inner(Load(CHILD)), mid, d);
  }

  lemma SlowPops(c: Completion) returns (d: Completion)
    requires c.completed && !c.done && Child(c).Seen? && !Parent(c).Out? && Unlocked(c.queue)
    ensures After(c, [Inner(BeginWake(CHILD)), Inner(Pop(CHILD))]) == Some(d)
    ensures d == c.(queue := d.queue) && Child(d) == Popped(|c.queue.pids|) && Parent(d) == Parent(c)
    ensures d.queue == c.queue.(sequence := c.queue.sequence + 1, wakes := c.queue.wakes + 1, scheduler := Some(CHILD),
                                pids := [], blocked := d.queue.blocked, phases := d.queue.phases)
  {
    var mid := Turned(c, Inner(BeginWake(CHILD)));
    d := Turned(mid, Inner(Pop(CHILD)));
    TwoTurns(c, Inner(BeginWake(CHILD)), Inner(Pop(CHILD)), mid, d);
  }

  lemma SlowSettles(c: Completion, n: nat) returns (d: Completion)
    requires !c.done && Child(c) == Popped(n) && !Parent(c).Out? && n <= c.queue.waiterCount
    requires c.queue.scheduler == Some(CHILD) && c.queue.pidsLock == None && c.queue.listenersLock == None
    ensures After(c, [Inner(Settle(CHILD)), Inner(Prune(CHILD, 0))]) == Some(d)
    ensures d == c.(queue := d.queue) && Child(d) == Pruning(0) && Parent(d) == Parent(c)
  {
    var mid := Turned(c, Inner(Settle(CHILD)));
    d := Turned(mid, Inner(Prune(CHILD, 0)));
    TwoTurns(c, Inner(Settle(CHILD)), Inner(Prune(CHILD, 0)), mid, d);
  }

  lemma NobodyHolds(c: Completion)
    requires Fair(c) && Child(c).Out? && !HoldsScheduler(Parent(c)) && !HoldsPids(Parent(c))
    ensures Unlocked(c.queue)
  {
    forall p: Pid
      ensures c.queue.scheduler != Some(p) && c.queue.pidsLock != Some(p) && c.queue.listenersLock != Some(p)
    {
      var ph := At(c.queue.phases, p);
      assert p != PARENT && p != CHILD ==> ph.Out?;
      assert HoldsScheduler(ph) <==> c.queue.scheduler == Some(p);
      assert HoldsPids(ph) <==> c.queue.pidsLock == Some(p);
      assert HoldsListeners(ph) <==> c.queue.listenersLock == Some(p);
    }
  }

  /** The next turn of the parent on its own. */
  function Onward(c: Completion): Turn {
    match c.stage
    case Looping => Look
    case Inside => if Parent(c).Out? then Inner(Sample(PARENT)) else Test
    case _ =>
      if Parent(c).Sampled? then Inner(LockScheduler(PARENT))
      else if Parent(c).Locked? then Inner(Check(PARENT, false))
      else if Parent(c).Waiting? then Inner(Clean(PARENT))
      else Inner(FinishWait(PARENT))
  }

  /** How many of these turns a parent has left once the child is back. */
  function Togo(c: Completion): nat {
    match c.stage
    case Returned => 0
    case Looping => 1
    case Inside => if Parent(c).Out? then 2 else 1
    case Tested => if Parent(c).Sampled? || Parent(c).Waiting? then 3 else 2
  }

  lemma OnwardTurn(c: Completion)
    requires Fair(c) && Free(c) && !c.stage.Returned?
    ensures Possible(c, Onward(c)) && Togo(Turned(c, Onward(c))) < Togo(c)
  {
    if !HoldsScheduler(Parent(c)) && !HoldsPids(Parent(c)) {
      NobodyHolds(c);
    }
    var turn := Onward(c);
    if turn.Inner? {
      InnerAt(c, turn.step);
    }
  }

  /** A parent that is free when the child is back returns by its own turns alone. */
  lemma {:induction false} Returns(c: Completion) returns (turns: seq<Turn>, d: Completion)
    requires Fair(c) && Free(c)
    ensures After(c, turns) == Some(d) && d.stage.Returned? && |turns| <= Togo(c)
    decreases Togo(c)
  {
    if c.stage.Returned? {
      turns, d := [], c;
    } else {
      OnwardTurn(c);
      TurnFair(c, Onward(c));
      FreeTurn(c, Onward(c));
      var rest;
      rest, d := Returns(Turned(c, Onward(c)));
      turns := [Onward(c)] + rest;
      assert turns[1..] == rest;
    }
  }

  /** The first half of the wake-up empties the queue, and has the scheduler lock. */
  lemma SlowEmpties(c: Completion) returns (turns: seq<Turn>, d: Completion)
    requires Fair(c) && c.completed && !c.done && Child(c).Out? && Asleep(c.queue, PARENT)
    ensures After(c, turns) == Some(d) && Fair(d) && !d.done && !Parent(d).Out? && Child(d).Popped?
    ensures Child(d).woken <= d.queue.waiterCount
    ensures d.queue.scheduler == Some(CHILD) && d.queue.pidsLock == None && d.queue.listenersLock == None
  {
    NobodyHolds(c);
    assert Sleeps(c.queue, PARENT);
    var mid := SlowSees(c);
    d := SlowPops(mid);
    var a, b := [Inner(Bump(CHILD)), Inner(Load(CHILD))], [Inner(BeginWake(CHILD)), Inner(Pop(CHILD))];
    turns := a + b;
    JoinRuns(c, a, b, mid, d);
  }

  /** A sleeping parent is freed by a child that completes and finds it counted, and returns. */
  lemma SlowWakes(c: Completion) returns (turns: seq<Turn>, d: Completion)
    requires Fair(c) && c.completed && !c.done && Child(c).Out? && Asleep(c.queue, PARENT)
    ensures After(c, turns) == Some(d) && d.done && d.stage.Returned?
  {
    var first, c2 := SlowEmpties(c);
    var c3 := SlowSettles(c2, Child(c2).woken);
    var second := [Inner(Settle(CHILD)), Inner(Prune(CHILD, 0))];
    JoinRuns(c, first, second, c2, c3);
    var last := Inner(EndWake(CHILD));
    var c4 := Turned(c3, last);
    assert [last][1..] == [] && After(c4, []) == Some(c4) && After(c3, [last]) == Some(c4);
    JoinRuns(c, first + second, [last], c3, c4);
    EndsFree(c3, last);
    var rest;
    rest, d := Returns(c4);
    JoinRuns(c, first + second + [last], rest, c4, d);
    turns := first + second + [last] + rest;
    RunDone(c4, rest);
  }

  lemma {:induction false} RunDone(c: Completion, turns: seq<Turn>)
    requires c.done && After(c, turns).Some?
    ensures After(c, turns).value.done
    decreases |turns|
  {
    if turns != [] {
      RunDone(Turned(c, turns[0]), turns[1..]);
    }
  }
}
