// Wait queues as a protocol: threads take atomic steps on a shared queue, in any order.
module WaitQueue {
  import opened Wrappers

  type Pid = nat

  /** How far a thread has come in a wait, a wake-up or a change of the listeners. */
  datatype Phase =
    | Out
    | Sampled(token: nat)             // holds a token
    | Locked(token: nat)              // has the scheduler lock
    | Checked(token: nat)             // the sequence was equal to the token
    | Counted(token: nat)             // blocked and counted, has the queue lock as well
    | Enrolled(token: nat)            // in the queue
    | Waiting(token: nat)             // has released the scheduler lock
    | Cleaning(removed: nat)          // awake again and out of the queue, has the queue lock
    | Bumped                          // a waker has moved the sequence
    | Seen                            // and has found waiters
    | Waking                          // has the scheduler lock, and has moved the sequence
    | Popped(woken: nat)              // has emptied the queue
    | Settled                         // has lowered the count
    | Pruning(dead: nat)              // has dropped dead listeners, has the listener lock as well
    | Attaching                       // a listener is counted
    | Detaching(gone: nat)            // listeners are gone but still counted
    | Claimed                         // waitpid: has the scheduler lock and has found no child to reap
    | Listing(parks: bool)            // register: counted, has the queue lock; waitpid has the scheduler lock as well
    | Listed                          // waitpid: blocked and in the queue
    | Parked                          // waitpid: has released the scheduler lock
    | Delisting(removed: nat)         // remove: out of the queue but still counted, has the queue lock

  predicate HoldsScheduler(ph: Phase) {
    || ph.Locked? || ph.Checked? || ph.Counted? || ph.Enrolled?
    || ph.Waking? || ph.Popped? || ph.Settled? || ph.Pruning?
    || ph.Claimed? || ph.Listed? || (ph.Listing? && ph.parks)
  }

  predicate HoldsPids(ph: Phase) {
    ph.Counted? || ph.Cleaning? || ph.Listing? || ph.Delisting?
  }

  predicate HoldsListeners(ph: Phase) {
    ph.Pruning? || ph.Attaching? || ph.Detaching?
  }

  /** What a thread has counted but not yet added, or taken away but not yet uncounted. */
  function Owes(ph: Phase): nat {
    match ph
    case Counted(_) => 1
    case Cleaning(n) => n
    case Popped(n) => n
    case Pruning(n) => n
    case Attaching => 1
    case Detaching(n) => n
    case Listing(_) => 1
    case Delisting(n) => n
    case _ => 0
  }

  function Retain(s: seq<Pid>, p: Pid): (r: seq<Pid>)
    ensures forall q :: q in r <==> q in s && q != p
    ensures |r| + multiset(s)[p] == |s|
  {
    if s == [] then []
    else
      var last, rest := s[|s| - 1], Retain(s[..|s| - 1], p);
      assert s == s[..|s| - 1] + [last];
      if last == p then rest else rest + [last]
  }

  function At(phases: map<Pid, Phase>, p: Pid): Phase {
    if p in phases then phases[p] else Out
  }

  datatype State = State(
    sequence: nat,
    waiterCount: nat,
    pids: seq<Pid>,
    listeners: nat,
    blocked: set<Pid>,              // tasks whose state is Blocked
    phases: map<Pid, Phase>,
    scheduler: Option<Pid>,         // who holds the scheduler lock
    pidsLock: Option<Pid>,
    listenersLock: Option<Pid>,
    wakes: nat,                     // wake-ups under the scheduler lock begun so far
    wakesAt: map<Pid, nat>,         // that number when a thread took its token
    looksAt: map<Pid, nat>)         // that number when a thread in waitpid looked for children

  const INIT: State := State(0, 0, [], 0, {}, map[], None, None, None, 0, map[], map[])

  /** The locks are held by exactly the threads whose phase says so. */
  ghost predicate LocksExact(s: State) {
    && (forall p: Pid :: HoldsScheduler(At(s.phases, p)) <==> s.scheduler == Some(p))
    && (forall p: Pid :: HoldsPids(At(s.phases, p)) <==> s.pidsLock == Some(p))
    && (forall p: Pid :: HoldsListeners(At(s.phases, p)) <==> s.listenersLock == Some(p))
  }

  ghost function OwedBy(s: State, lock: Option<Pid>): nat {
    if lock.Some? then Owes(At(s.phases, lock.value)) else 0
  }

  /** What the holders of the locks have counted but not yet added, or taken away but not yet uncounted. */
  ghost function InFlight(s: State): nat {
    OwedBy(s, s.pidsLock) + OwedBy(s, s.listenersLock)
    + if s.scheduler.Some? && At(s.phases, s.scheduler.value).Popped? then OwedBy(s, s.scheduler) else 0
  }

  ghost predicate CountExact(s: State) {
    s.waiterCount == |s.pids| + s.listeners + InFlight(s)
  }

  /** A thread that has put itself into the queue and is not awake again. */
  ghost predicate Sleeps(s: State, p: Pid) {
    var ph := At(s.phases, p);
    ph.Enrolled? || ph.Listed? || ((ph.Waiting? || ph.Parked?) && p in s.blocked)
  }

  /** Whoever sleeps is in the queue; threads may be in it more than once, and without sleeping. */
  ghost predicate QueueExact(s: State) {
    forall p: Pid :: Sleeps(s, p) ==> p in s.pids
  }

  /** A thread that goes to sleep with the scheduler lock is blocked. */
  predicate FallsAsleep(ph: Phase) {
    ph.Counted? || ph.Enrolled? || ph.Listed? || (ph.Listing? && ph.parks)
  }

  ghost predicate BlockedExact(s: State) {
    forall p: Pid :: FallsAsleep(At(s.phases, p)) ==> p in s.blocked
  }

  /** The wait has passed its check. */
  predicate Committed(ph: Phase) {
    ph.Checked? || ph.Counted? || ph.Enrolled? || ph.Waiting?
  }

  /** A wake-up has begun and is about to empty the queue. */
  ghost predicate WakeAhead(s: State) {
    s.scheduler.Some? && At(s.phases, s.scheduler.value).Waking?
  }

  /** No wake-up has begun since there were `n`, but one that is about to empty the queue. */
  ghost predicate NoneSince(s: State, n: nat) {
    s.wakes == n || (s.wakes == n + 1 && WakeAhead(s))
  }

  /** No wake-up is missed by the token of `p`. */
  ghost predicate Unmissed(s: State, p: Pid) {
    p in s.wakesAt && NoneSince(s, s.wakesAt[p])
  }

  /** A token is no newer than the sequence, and older by at least the wake-ups begun since. */
  ghost predicate TokenOld(s: State, p: Pid, token: nat) {
    p in s.wakesAt && s.wakesAt[p] <= s.wakes && token <= s.sequence && s.wakes - s.wakesAt[p] <= s.sequence - token
  }

  ghost predicate TokensExact(s: State) {
    && (forall p: Pid :: At(s.phases, p).Sampled? || At(s.phases, p).Locked? ==> TokenOld(s, p, At(s.phases, p).token))
    && (forall p: Pid :: Committed(At(s.phases, p)) ==> At(s.phases, p).token <= s.sequence)
    && (forall p: Pid :: Committed(At(s.phases, p)) && (At(s.phases, p).Waiting? ==> p in s.blocked) ==> Unmissed(s, p))
  }

  /** A thread in waitpid that has looked for children and is still under the scheduler lock. */
  predicate Looked(ph: Phase) {
    ph.Claimed? || ph.Listed? || (ph.Listing? && ph.parks)
  }

  /** No wake-up has begun since a thread in waitpid looked for children, but one that is about to wake it. */
  ghost predicate ClaimExact(s: State, p: Pid) {
    && (Looked(At(s.phases, p)) ==> p in s.looksAt && s.looksAt[p] == s.wakes)
    && (At(s.phases, p).Parked? && p in s.blocked ==> p in s.looksAt && NoneSince(s, s.looksAt[p]))
  }

  ghost predicate ClaimsExact(s: State) {
    forall p: Pid :: ClaimExact(s, p)
  }

  ghost predicate Sound(s: State) {
    LocksExact(s) && CountExact(s) && QueueExact(s) && BlockedExact(s) && TokensExact(s) && ClaimsExact(s)
  }

  datatype Step =
    | Sample(p: Pid)
    | LockScheduler(p: Pid)
    | Check(p: Pid, signals: bool)
    | Count(p: Pid)
    | Enroll(p: Pid)
    | UnlockScheduler(p: Pid)
    | Signal(p: Pid)
    | Clean(p: Pid)
    | FinishWait(p: Pid)
    | Bump(p: Pid)
    | Load(p: Pid)
    | BeginWake(p: Pid)
    | Pop(p: Pid)
    | Settle(p: Pid)
    | Prune(p: Pid, dead: nat)
    | EndWake(p: Pid)
    | Attach(p: Pid)
    | FinishAttach(p: Pid)
    | Detach(p: Pid, gone: nat)
    | FinishDetach(p: Pid)
    | Claim(p: Pid)
    | Register(p: Pid)
    | FinishRegister(p: Pid)
    | Park(p: Pid)
    | Remove(p: Pid)
    | FinishRemove(p: Pid)

  predicate Enabled(s: State, step: Step) {
    var ph := At(s.phases, step.p);
    match step
    case Sample(p) => ph.Out?
    case LockScheduler(p) => ph.Sampled? && s.scheduler == None
    case Check(p, _) => ph.Locked?
    case Count(p) => ph.Checked? && s.pidsLock == None
    case Enroll(p) => ph.Counted?
    case UnlockScheduler(p) => ph.Enrolled?
    case Signal(p) => s.scheduler == None
    case Clean(p) => ph.Waiting? && p !in s.blocked && s.pidsLock == None
    case FinishWait(p) => ph.Cleaning?
    case Bump(p) => ph.Out?
    case Load(p) => ph.Bumped?
    case BeginWake(p) => (ph.Seen? || ph.Out?) && s.scheduler == None
    case Pop(p) => ph.Waking? && s.pidsLock == None
    case Settle(p) => ph.Popped?
    case Prune(p, dead) => ph.Settled? && s.listenersLock == None && dead <= s.listeners
    case EndWake(p) => ph.Pruning?
    case Attach(p) => ph.Out? && s.listenersLock == None
    case FinishAttach(p) => ph.Attaching?
    case Detach(p, gone) => ph.Out? && s.listenersLock == None && gone <= s.listeners
    case FinishDetach(p) => ph.Detaching?
    case Claim(p) => ph.Out? && s.scheduler == None
    case Register(p) => (ph.Out? || ph.Claimed?) && s.pidsLock == None
    case FinishRegister(p) => ph.Listing?
    case Park(p) => ph.Listed?
    case Remove(p) => (ph.Out? || (ph.Parked? && p !in s.blocked)) && s.pidsLock == None
    case FinishRemove(p) => ph.Delisting?
  }

  /** A lock after thread `p` has moved to a phase that holds it or not. */
  function Held(lock: Option<Pid>, p: Pid, holds: bool): Option<Pid> {
    if holds then Some(p) else if lock == Some(p) then None else lock
  }

  /** A thread moves to a phase, and takes or releases the locks that go with it. */
  function Move(s: State, p: Pid, ph: Phase): State {
    s.(phases := s.phases[p := ph],
       scheduler := Held(s.scheduler, p, HoldsScheduler(ph)),
       pidsLock := Held(s.pidsLock, p, HoldsPids(ph)),
       listenersLock := Held(s.listenersLock, p, HoldsListeners(ph)))
  }

  /** The subtractions are from an unsigned counter. */
  function Less(a: nat, b: nat): nat {
    if b <= a then a - b else (a - b) % 0x1_0000_0000_0000_0000
  }

  /** The phase a step leads to. */
  function Target(s: State, step: Step): Phase
    requires Enabled(s, step)
  {
    var ph := At(s.phases, step.p);
    match step
    case Sample(p) => Sampled(s.sequence)
    case LockScheduler(p) => Locked(ph.token)
    case Check(p, signals) => if s.sequence == ph.token && !signals then Checked(ph.token) else Out
    case Count(p) => Counted(ph.token)
    case Enroll(p) => Enrolled(ph.token)
    case UnlockScheduler(p) => Waiting(ph.token)
    case Signal(p) => ph
    case Clean(p) => Cleaning(multiset(s.pids)[p])
    case FinishWait(p) => Out
    case Bump(p) => Bumped
    case Load(p) => if s.waiterCount == 0 then Out else Seen
    case BeginWake(p) => Waking
    case Pop(p) => Popped(|s.pids|)
    case Settle(p) => Settled
    case Prune(p, dead) => Pruning(dead)
    case EndWake(p) => Out
    case Attach(p) => Attaching
    case FinishAttach(p) => Out
    case Detach(p, gone) => Detaching(gone)
    case FinishDetach(p) => Out
    case Claim(p) => Claimed
    case Register(p) => Listing(ph.Claimed?)
    case FinishRegister(p) => if ph.parks then Listed else Out
    case Park(p) => Parked
    case Remove(p) => Delisting(multiset(s.pids)[p])
    case FinishRemove(p) => Out
  }

  /** What a step does to the queue itself. */
  function Effect(s: State, step: Step): State
    requires Enabled(s, step)
  {
    var ph := At(s.phases, step.p);
    match step
    case Sample(p) => s.(wakesAt := s.wakesAt[p := s.wakes])
    case Count(p) => s.(blocked := s.blocked + {p}, waiterCount := s.waiterCount + 1)
    case Enroll(p) => s.(pids := s.pids + [p])
    case Signal(p) => s.(blocked := s.blocked - {p})
    case Clean(p) => s.(pids := Retain(s.pids, p))
    case FinishWait(p) => s.(waiterCount := Less(s.waiterCount, ph.removed))
    case Bump(p) => s.(sequence := s.sequence + 1)
    case BeginWake(p) => s.(sequence := s.sequence + 1, wakes := s.wakes + 1)
    case Pop(p) => s.(pids := [], blocked := s.blocked - Members(s.pids))
    case Settle(p) => s.(waiterCount := Less(s.waiterCount, ph.woken))
    case Prune(p, dead) => s.(listeners := s.listeners - dead)
    case EndWake(p) => s.(waiterCount := Less(s.waiterCount, ph.dead))
    case Attach(p) => s.(waiterCount := s.waiterCount + 1)
    case FinishAttach(p) => s.(listeners := s.listeners + 1)
    case Detach(p, gone) => s.(listeners := s.listeners - gone)
    case FinishDetach(p) => s.(waiterCount := Less(s.waiterCount, ph.gone))
    case Claim(p) => s.(looksAt := s.looksAt[p := s.wakes])
    case Register(p) =>
      s.(waiterCount := s.waiterCount + 1, blocked := if ph.Claimed? then s.blocked + {p} else s.blocked)
    case FinishRegister(p) => s.(pids := s.pids + [p])
    case Remove(p) => s.(pids := Retain(s.pids, p))
    case FinishRemove(p) => s.(waiterCount := Less(s.waiterCount, ph.removed))
    case _ => s
  }

  function Members(s: seq<Pid>): set<Pid> {
    set p | p in s
  }

  function Next(s: State, step: Step): State
    requires Enabled(s, step)
  {
    Move(Effect(s, step), step.p, Target(s, step))
  }

  /** The locks that a phase holds are free or held by the thread already. */
  ghost predicate MayHold(s: State, p: Pid, ph: Phase) {
    && (HoldsScheduler(ph) ==> s.scheduler in {None, Some(p)})
    && (HoldsPids(ph) ==> s.pidsLock in {None, Some(p)})
    && (HoldsListeners(ph) ==> s.listenersLock in {None, Some(p)})
  }

  lemma MoveAt(s: State, p: Pid, ph: Phase)
    ensures forall q: Pid :: At(Move(s, p, ph).phases, q) == if q == p then ph else At(s.phases, q)
  {
  }

  lemma MoveLocks(s: State, p: Pid, ph: Phase)
    requires LocksExact(s) && MayHold(s, p, ph)
    ensures LocksExact(Move(s, p, ph))
  {
    MoveAt(s, p, ph);
  }

  lemma MoveFlight(s: State, p: Pid, ph: Phase)
    requires LocksExact(s) && MayHold(s, p, ph)
    ensures InFlight(Move(s, p, ph)) + Owes(At(s.phases, p)) == InFlight(s) + Owes(ph)
  {
    MoveAt(s, p, ph);
  }

  /** A step takes only locks that are free. */
  lemma StepMayHold(s: State, step: Step)
    requires Enabled(s, step)
    requires HoldsScheduler(At(s.phases, step.p)) ==> s.scheduler == Some(step.p)
    requires HoldsPids(At(s.phases, step.p)) ==> s.pidsLock == Some(step.p)
    requires HoldsListeners(At(s.phases, step.p)) ==> s.listenersLock == Some(step.p)
    ensures MayHold(s, step.p, Target(s, step))
  {
  }

  lemma StepLocks(s: State, step: Step)
    requires LocksExact(s) && Enabled(s, step)
    ensures MayHold(s, step.p, Target(s, step)) && LocksExact(Next(s, step))
  {
    StepMayHold(s, step);
    EffectKeeps(s, step);
    MoveLocks(Effect(s, step), step.p, Target(s, step));
  }

  /** A thread owes no more than is in flight, so the counter never underflows. */
  lemma NoUnderflow(s: State, p: Pid)
    requires LocksExact(s) && CountExact(s)
    ensures Owes(At(s.phases, p)) <= InFlight(s) <= s.waiterCount
  {
    assert HoldsPids(At(s.phases, p)) <==> s.pidsLock == Some(p);
    assert HoldsListeners(At(s.phases, p)) <==> s.listenersLock == Some(p);
    assert HoldsScheduler(At(s.phases, p)) <==> s.scheduler == Some(p);
  }

  /** What a step adds to the count beyond the queue and the listeners is what its thread then owes. */
  lemma EffectCount(s: State, step: Step)
    requires Enabled(s, step) && Owes(At(s.phases, step.p)) <= s.waiterCount
    ensures Effect(s, step).waiterCount + Owes(At(s.phases, step.p)) + |s.pids| + s.listeners
            == s.waiterCount + Owes(Target(s, step)) + |Effect(s, step).pids| + Effect(s, step).listeners
  {
    if step.Clean? || step.Remove? {
      RetainCount(s, step);
    } else if Quiet(step) {
      QuietCount(s, step);
    } else {
      PlainCount(s, step);
    }
  }

  /** Steps that touch neither the queue nor the listeners nor the count. */
  predicate Quiet(step: Step) {
    || step.Sample? || step.LockScheduler? || step.Check? || step.UnlockScheduler? || step.Signal? || step.Bump?
    || step.Load? || step.BeginWake? || step.Claim? || step.Park?
  }

  lemma QuietCount(s: State, step: Step)
    requires Enabled(s, step) && Quiet(step)
    ensures var e := Effect(s, step); e.waiterCount == s.waiterCount && e.listeners == s.listeners && e.pids == s.pids
    ensures Owes(At(s.phases, step.p)) == Owes(Target(s, step))
  {
  }

  lemma RetainCount(s: State, step: Step)
    requires Enabled(s, step) && (step.Clean? || step.Remove?)
    ensures Effect(s, step).waiterCount == s.waiterCount && Effect(s, step).listeners == s.listeners
    ensures Owes(At(s.phases, step.p)) == 0 && Owes(Target(s, step)) + |Effect(s, step).pids| == |s.pids|
  {
  }

  lemma PlainCount(s: State, step: Step)
    requires Enabled(s, step) && Owes(At(s.phases, step.p)) <= s.waiterCount
    requires !step.Clean? && !step.Remove? && !Quiet(step)
    ensures Effect(s, step).waiterCount + Owes(At(s.phases, step.p)) + |s.pids| + s.listeners
            == s.waiterCount + Owes(Target(s, step)) + |Effect(s, step).pids| + Effect(s, step).listeners
  {
  }

  lemma EffectKeeps(s: State, step: Step)
    requires Enabled(s, step)
    ensures var e := Effect(s, step);
            && e.phases == s.phases && e.scheduler == s.scheduler && e.pidsLock == s.pidsLock
            && e.listenersLock == s.listenersLock
  {
  }

  lemma StepCount(s: State, step: Step)
    requires LocksExact(s) && CountExact(s) && Enabled(s, step)
    ensures CountExact(Next(s, step))
  {
    StepLocks(s, step);
    NoUnderflow(s, step.p);
    EffectKeeps(s, step);
    EffectCount(s, step);
    var e := Effect(s, step);
    SameFlight(s, e);
    MoveFlight(e, step.p, Target(s, step));
  }

  lemma SameFlight(s: State, e: State)
    requires e.phases == s.phases && e.scheduler == s.scheduler && e.pidsLock == s.pidsLock
    requires e.listenersLock == s.listenersLock && LocksExact(s)
    ensures InFlight(e) == InFlight(s) && LocksExact(e)
  {
  }

  lemma PopQueue(s: State, step: Step)
    requires LocksExact(s) && QueueExact(s) && Enabled(s, step) && step.Pop?
    ensures QueueExact(Next(s, step))
  {
    MoveAt(Effect(s, step), step.p, Target(s, step));
    assert s.scheduler == Some(step.p);
    forall q: Pid ensures !Sleeps(Next(s, step), q) {
      assert HoldsScheduler(At(s.phases, q)) ==> s.scheduler == Some(q);
      assert Sleeps(s, q) ==> q in Members(s.pids);
    }
  }

  lemma StepQueue(s: State, step: Step)
    requires LocksExact(s) && QueueExact(s) && Enabled(s, step)
    ensures QueueExact(Next(s, step))
  {
    if step.Pop? {
      PopQueue(s, step);
    } else {
      OtherQueue(s, step);
    }
  }

  lemma OwnQueue(s: State, step: Step)
    requires QueueExact(s) && Enabled(s, step) && !step.Pop? && Sleeps(Next(s, step), step.p)
    ensures step.p in Next(s, step).pids
  {
    MoveAt(Effect(s, step), step.p, Target(s, step));
    assert Sleeps(s, step.p) ==> step.p in s.pids;
  }

  lemma OtherQueue(s: State, step: Step)
    requires QueueExact(s) && Enabled(s, step) && !step.Pop?
    ensures QueueExact(Next(s, step))
  {
    var e, t := Effect(s, step), Next(s, step);
    MoveAt(e, step.p, Target(s, step));
    forall q: Pid | Sleeps(t, q) ensures q in t.pids {
      if q == step.p {
        OwnQueue(s, step);
      } else {
        assert Sleeps(s, q);
      }
    }
  }

  /** A move that leaves the sequence and the wake-ups alone. */
  lemma MoveTokens(s: State, p: Pid, ph: Phase)
    requires TokensExact(s) && MayHold(s, p, ph) && !At(s.phases, p).Waking? && !ph.Waking?
    requires WakeAhead(s) ==> s.scheduler != Some(p)
    requires ph.Sampled? || ph.Locked? ==> TokenOld(s, p, ph.token)
    requires Committed(ph) ==> ph.token <= s.sequence && ((ph.Waiting? ==> p in s.blocked) ==> Unmissed(s, p))
    ensures TokensExact(Move(s, p, ph))
  {
    var t := Move(s, p, ph);
    MoveAt(s, p, ph);
    forall q: Pid | Unmissed(s, q) ensures Unmissed(t, q) {
    }
    forall q: Pid, k: nat | TokenOld(s, q, k) ensures TokenOld(t, q, k) {
    }
  }

  /** A wake-up that is about to empty the queue still is, until it does. */
  lemma AheadStays(s: State, step: Step)
    requires LocksExact(s) && Enabled(s, step) && !step.Pop?
    ensures WakeAhead(s) ==> WakeAhead(Next(s, step))
  {
    StepLocks(s, step);
    MoveAt(Effect(s, step), step.p, Target(s, step));
    EffectKeeps(s, step);
  }

  lemma SampleTokens(s: State, step: Step)
    requires TokensExact(s) && Enabled(s, step) && step.Sample?
    ensures TokensExact(Next(s, step))
  {
    var t := Next(s, step);
    MoveAt(Effect(s, step), step.p, Target(s, step));
    forall q: Pid | q != step.p && Unmissed(s, q) ensures Unmissed(t, q) {
      assert WakeAhead(s) ==> WakeAhead(t);
    }
    forall q: Pid, k: nat | q != step.p && TokenOld(s, q, k) ensures TokenOld(t, q, k) {
    }
  }

  lemma BumpTokens(s: State, step: Step)
    requires TokensExact(s) && Enabled(s, step) && step.Bump?
    ensures TokensExact(Next(s, step))
  {
    var t := Next(s, step);
    MoveAt(Effect(s, step), step.p, Target(s, step));
    forall q: Pid | Unmissed(s, q) ensures Unmissed(t, q) {
      assert WakeAhead(s) ==> WakeAhead(t);
    }
    forall q: Pid, k: nat | TokenOld(s, q, k) ensures TokenOld(t, q, k) {
    }
  }

  /** A wake-up that begins is ahead of every waiter. */
  lemma BeginTokens(s: State, step: Step)
    requires LocksExact(s) && TokensExact(s) && Enabled(s, step) && step.BeginWake?
    ensures TokensExact(Next(s, step))
  {
    var t := Next(s, step);
    MoveAt(Effect(s, step), step.p, Target(s, step));
    assert WakeAhead(t) && !WakeAhead(s);
    forall q: Pid | Unmissed(s, q) ensures Unmissed(t, q) {
    }
    forall q: Pid, k: nat | TokenOld(s, q, k) ensures TokenOld(t, q, k) {
    }
  }

  /** Emptying the queue leaves no blocked waiter. */
  lemma PopTokens(s: State, step: Step)
    requires LocksExact(s) && QueueExact(s) && TokensExact(s) && Enabled(s, step) && step.Pop?
    ensures TokensExact(Next(s, step))
    ensures forall q: Pid :: Committed(At(Next(s, step).phases, q)) ==>
              At(Next(s, step).phases, q).Waiting? && q !in Next(s, step).blocked
  {
    var t := Next(s, step);
    MoveAt(Effect(s, step), step.p, Target(s, step));
    assert HoldsScheduler(At(s.phases, step.p)) && s.scheduler == Some(step.p);
    forall q: Pid | Committed(At(t.phases, q)) ensures At(t.phases, q).Waiting? && q !in t.blocked {
      assert HoldsScheduler(At(s.phases, q)) ==> s.scheduler == Some(q);
    }
    forall q: Pid, k: nat | TokenOld(s, q, k) ensures TokenOld(t, q, k) {
    }
  }

  lemma EffectPlain(s: State, step: Step)
    requires Enabled(s, step) && !step.Sample? && !step.Bump? && !step.BeginWake? && !step.Pop?
    ensures var e, p := Effect(s, step), step.p;
            && e.sequence == s.sequence && e.wakes == s.wakes && e.wakesAt == s.wakesAt
            && (e.blocked <= s.blocked || (e.blocked == s.blocked + {p} && !At(s.phases, p).Waiting?))
  {
  }

  lemma OtherTokens(s: State, step: Step)
    requires LocksExact(s) && TokensExact(s) && Enabled(s, step)
    requires !step.Sample? && !step.Bump? && !step.BeginWake? && !step.Pop?
    ensures TokensExact(Next(s, step))
  {
    StepLocks(s, step);
    var e, p := Effect(s, step), step.p;
    EffectKeeps(s, step);
    EffectPlain(s, step);
    EffectTokens(s, e, p);
    assert At(s.phases, p).Locked? || At(s.phases, p).Sampled? ==> TokenOld(s, p, At(s.phases, p).token);
    MoveTokens(e, p, Target(s, step));
  }

  lemma EffectTokens(s: State, e: State, p: Pid)
    requires TokensExact(s) && e.phases == s.phases && e.sequence == s.sequence && e.wakes == s.wakes
    requires e.wakesAt == s.wakesAt && e.scheduler == s.scheduler
    requires e.blocked <= s.blocked || (e.blocked == s.blocked + {p} && !At(s.phases, p).Waiting?)
    ensures TokensExact(e)
    ensures forall q: Pid :: Unmissed(e, q) <==> Unmissed(s, q)
    ensures forall q: Pid, k: nat :: TokenOld(e, q, k) <==> TokenOld(s, q, k)
  {
  }

  lemma StepTokens(s: State, step: Step)
    requires LocksExact(s) && QueueExact(s) && TokensExact(s) && Enabled(s, step)
    ensures TokensExact(Next(s, step))
  {
    match step {
      case Sample(_) => SampleTokens(s, step);
      case Bump(_) => BumpTokens(s, step);
      case BeginWake(_) => BeginTokens(s, step);
      case Pop(_) => PopTokens(s, step);
      case _ => OtherTokens(s, step);
    }
  }

  /** Emptying the queue leaves nobody parked and blocked. */
  lemma PopClaims(s: State, step: Step)
    requires LocksExact(s) && QueueExact(s) && ClaimsExact(s) && Enabled(s, step) && step.Pop?
    ensures ClaimsExact(Next(s, step))
  {
    StepQueue(s, step);
    MoveAt(Effect(s, step), step.p, Target(s, step));
    var t := Next(s, step);
    assert t.pids == [] && s.scheduler == Some(step.p);
    forall p: Pid ensures !Looked(At(t.phases, p)) && !(At(t.phases, p).Parked? && p in t.blocked) {
      assert HoldsScheduler(At(s.phases, p)) <==> s.scheduler == Some(p);
      assert Sleeps(t, p) ==> p in t.pids;
    }
  }

  /** The thread that takes the step. */
  lemma OwnClaims(s: State, step: Step)
    requires LocksExact(s) && ClaimExact(s, step.p) && Enabled(s, step) && !step.Pop?
    ensures ClaimExact(Next(s, step), step.p)
  {
    MoveAt(Effect(s, step), step.p, Target(s, step));
    AheadStays(s, step);
  }

  /** The other threads: a wake-up begins only while none of them has the scheduler lock. */
  lemma OtherClaims(s: State, step: Step, q: Pid)
    requires LocksExact(s) && ClaimExact(s, q) && Enabled(s, step) && !step.Pop? && q != step.p
    ensures ClaimExact(Next(s, step), q)
  {
    MoveAt(Effect(s, step), step.p, Target(s, step));
    AheadStays(s, step);
    assert HoldsScheduler(At(s.phases, q)) <==> s.scheduler == Some(q);
    assert step.BeginWake? ==> WakeAhead(Next(s, step)) && !WakeAhead(s);
  }

  lemma StepClaims(s: State, step: Step)
    requires LocksExact(s) && QueueExact(s) && ClaimsExact(s) && Enabled(s, step)
    ensures ClaimsExact(Next(s, step))
  {
    if step.Pop? {
      PopClaims(s, step);
    } else {
      forall q: Pid ensures ClaimExact(Next(s, step), q) {
        assert ClaimExact(s, q);
        if q == step.p {
          OwnClaims(s, step);
        } else {
          OtherClaims(s, step, q);
        }
      }
    }
  }

  lemma StepBlocked(s: State, step: Step)
    requires LocksExact(s) && BlockedExact(s) && Enabled(s, step)
    ensures BlockedExact(Next(s, step))
  {
    var e, t := Effect(s, step), Next(s, step);
    MoveAt(e, step.p, Target(s, step));
    forall q: Pid | FallsAsleep(At(t.phases, q)) ensures q in t.blocked {
      assert HoldsScheduler(At(s.phases, q)) <==> s.scheduler == Some(q);
      assert HoldsScheduler(At(s.phases, step.p)) <==> s.scheduler == Some(step.p);
      assert FallsAsleep(At(s.phases, q)) ==> q in s.blocked;
    }
  }

  /** Every step of every thread keeps the invariant. */
  lemma StepSound(s: State, step: Step)
    requires Sound(s) && Enabled(s, step)
    ensures Sound(Next(s, step))
  {
    StepLocks(s, step);
    StepCount(s, step);
    StepQueue(s, step);
    StepBlocked(s, step);
    StepTokens(s, step);
    StepClaims(s, step);
  }

  /** The state after a run of steps, if each of them can be taken. */
  function After(s: State, steps: seq<Step>): Option<State>
    decreases |steps|
  {
    if steps == [] then Some(s)
    else if Enabled(s, steps[0]) then After(Next(s, steps[0]), steps[1..])
    else None
  }

  lemma {:induction false} RunSound(s: State, steps: seq<Step>)
    requires Sound(s) && After(s, steps).Some?
    ensures Sound(After(s, steps).value)
    decreases |steps|
  {
    if steps == [] {
    } else {
      StepSound(s, steps[0]);
      RunSound(Next(s, steps[0]), steps[1..]);
    }
  }

  /** The task sleeps on the queue. */
  predicate Asleep(s: State, p: Pid) {
    At(s.phases, p).Waiting? && p in s.blocked
  }

  /** In every state of every run: the count covers queue and listeners, and sleepers are in the queue, unmissed. */
  lemma Reachable(steps: seq<Step>, p: Pid)
    requires After(INIT, steps).Some?
    ensures var s := After(INIT, steps).value;
            && |s.pids| + s.listeners <= s.waiterCount
            && (Sleeps(s, p) ==> p in s.pids)
            && (Asleep(s, p) ==> p in s.pids && Unmissed(s, p))
  {
    RunSound(INIT, steps);
    assert Asleep(After(INIT, steps).value, p) ==> Sleeps(After(INIT, steps).value, p);
  }

  /**
   * Who holds the locks, in every state of every run: the scheduler lock is
   * held from the check of a wait until the task is enrolled, through a whole
   * wake-up with its listeners, and by waitpid from its look at the children
   * until it is queued; the other two only around the change of their list.
   */
  lemma LocksHeld(steps: seq<Step>, p: Pid)
    requires After(INIT, steps).Some?
    ensures var s := After(INIT, steps).value;
            var ph := At(s.phases, p);
            && (s.scheduler == Some(p) <==>
                  || ph.Locked? || ph.Checked? || ph.Counted? || ph.Enrolled?
                  || ph.Waking? || ph.Popped? || ph.Settled? || ph.Pruning?
                  || ph.Claimed? || ph == Listing(true) || ph.Listed?)
            && (s.pidsLock == Some(p) <==> ph.Counted? || ph.Cleaning? || ph.Listing? || ph.Delisting?)
            && (s.listenersLock == Some(p) <==> ph.Pruning? || ph.Attaching? || ph.Detaching?)
  {
    RunSound(INIT, steps);
  }

  /** A wait whose token is outdated, or whose task has signals pending, returns and leaves nothing behind. */
  lemma CheckReturns(s: State, p: Pid, signals: bool)
    requires Sound(s) && Enabled(s, Check(p, signals))
    ensures var t, token := Next(s, Check(p, signals)), At(s.phases, p).token;
            && t.blocked == s.blocked && t.pids == s.pids && t.waiterCount == s.waiterCount
            && if signals || s.sequence != token then At(t.phases, p) == Out && t.scheduler == None
               else At(t.phases, p) == Checked(token) && t.scheduler == Some(p)
  {
    assert HoldsScheduler(At(s.phases, p)) <==> s.scheduler == Some(p);
  }

  lemma {:induction false} AfterJoin(s: State, a: seq<Step>, b: seq<Step>)
    requires After(s, a).Some?
    ensures After(s, a + b) == After(After(s, a).value, b)
    decreases |a|
  {
    if a == [] {
      assert a + b == b;
    } else {
      assert (a + b)[1..] == a[1..] + b;
      AfterJoin(Next(s, a[0]), a[1..], b);
    }
  }

  lemma TwoSteps(s: State, a: Step, b: Step, mid: State, t: State)
    requires Enabled(s, a) && Next(s, a) == mid && Enabled(mid, b) && Next(mid, b) == t
    ensures After(s, [a, b]) == Some(t)
  {
    assert [a, b][1..] == [b] && [b][1..] == [];
    assert After(t, []) == Some(t);
    assert After(mid, [b]) == After(t, []);
  }

  /** No thread is under way with the queue. */
  ghost predicate Unlocked(s: State) {
    s.scheduler == None && s.pidsLock == None && s.listenersLock == None
  }

  /** The steps of a wait that nothing disturbs, two by two. */
  lemma WaitLocks(s: State, p: Pid) returns (t: State)
    requires Unlocked(s) && At(s.phases, p) == Out
    ensures After(s, [Sample(p), LockScheduler(p)]) == Some(t)
    ensures t == s.(wakesAt := t.wakesAt, scheduler := Some(p), phases := t.phases)
    ensures At(t.phases, p) == Locked(s.sequence)
  {
    var mid := Next(s, Sample(p));
    t := Next(mid, LockScheduler(p));
    TwoSteps(s, Sample(p), LockScheduler(p), mid, t);
  }

  lemma WaitCounts(s: State, p: Pid) returns (t: State)
    requires s.scheduler == Some(p) && s.pidsLock == s.listenersLock == None && At(s.phases, p) == Locked(s.sequence)
    ensures After(s, [Check(p, false), Count(p)]) == Some(t)
    ensures t == s.(blocked := s.blocked + {p}, waiterCount := s.waiterCount + 1, pidsLock := Some(p),
                    phases := t.phases)
    ensures At(t.phases, p) == Counted(s.sequence)
  {
    var mid := Next(s, Check(p, false));
    t := Next(mid, Count(p));
    TwoSteps(s, Check(p, false), Count(p), mid, t);
  }

  lemma WaitEnrolls(s: State, p: Pid) returns (t: State)
    requires s.scheduler == s.pidsLock == Some(p) && s.listenersLock == None && At(s.phases, p) == Counted(s.sequence)
    ensures After(s, [Enroll(p), UnlockScheduler(p)]) == Some(t)
    ensures t == s.(pids := s.pids + [p], scheduler := None, pidsLock := None, phases := t.phases)
    ensures At(t.phases, p) == Waiting(s.sequence)
  {
    var mid := Next(s, Enroll(p));
    t := Next(mid, UnlockScheduler(p));
    TwoSteps(s, Enroll(p), UnlockScheduler(p), mid, t);
  }

  lemma WaitRun(s: State, p: Pid) returns (run: seq<Step>, t: State)
    requires Unlocked(s) && At(s.phases, p) == Out
    ensures After(s, run) == Some(t) && Unlocked(t) && Asleep(t, p)
    ensures t.pids == s.pids + [p] && t.blocked == s.blocked + {p} && t.waiterCount == s.waiterCount + 1
    ensures t.sequence == s.sequence && t.listeners == s.listeners
  {
    var a, b, c := [Sample(p), LockScheduler(p)], [Check(p, false), Count(p)], [Enroll(p), UnlockScheduler(p)];
    var s1 := WaitLocks(s, p);
    var s2 := WaitCounts(s1, p);
    t := WaitEnrolls(s2, p);
    run := a + b + c;
    AfterJoin(s, a, b);
    AfterJoin(s, a + b, c);
  }

  /** A wait that nothing disturbs ends asleep at the end of the queue, and counted. */
  lemma WaitSleeps(s: State, p: Pid) returns (run: seq<Step>, t: State)
    requires Sound(s) && Unlocked(s) && At(s.phases, p) == Out
    ensures After(s, run) == Some(t) && Sound(t) && Unlocked(t) && Asleep(t, p)
    ensures t.pids == s.pids + [p] && t.blocked == s.blocked + {p} && t.waiterCount == s.waiterCount + 1
    ensures t.sequence == s.sequence && t.listeners == s.listeners
  {
    run, t := WaitRun(s, p);
    RunSound(s, run);
  }

  /** The other threads are where they were. */
  ghost predicate OthersStay(s: State, t: State, w: Pid) {
    forall p: Pid :: p != w ==> At(t.phases, p) == At(s.phases, p)
  }

  /** The steps of a wake-up that finds waiters and that nothing disturbs. */
  lemma WakeSees(s: State, w: Pid) returns (t: State)
    requires Unlocked(s) && At(s.phases, w) == Out && s.waiterCount != 0
    ensures After(s, [Bump(w), Load(w)]) == Some(t)
    ensures t == s.(sequence := s.sequence + 1, phases := t.phases) && At(t.phases, w) == Seen && OthersStay(s, t, w)
  {
    var mid := Next(s, Bump(w));
    t := Next(mid, Load(w));
    TwoSteps(s, Bump(w), Load(w), mid, t);
  }

  lemma WakePops(s: State, w: Pid) returns (t: State)
    requires Unlocked(s) && At(s.phases, w) == Seen
    ensures After(s, [BeginWake(w), Pop(w)]) == Some(t)
    ensures t == s.(sequence := s.sequence + 1, wakes := s.wakes + 1, scheduler := Some(w), pids := [],
                    blocked := s.blocked - Members(s.pids), phases := t.phases)
    ensures At(t.phases, w) == Popped(|s.pids|) && OthersStay(s, t, w)
  {
    var mid := Next(s, BeginWake(w));
    t := Next(mid, Pop(w));
    TwoSteps(s, BeginWake(w), Pop(w), mid, t);
  }

  lemma WakeSettles(s: State, w: Pid, n: nat) returns (t: State)
    requires s.scheduler == Some(w) && s.pidsLock == s.listenersLock == None
    requires At(s.phases, w) == Popped(n) && n <= s.waiterCount
    ensures After(s, [Settle(w), Prune(w, 0)]) == Some(t)
    ensures t == s.(waiterCount := s.waiterCount - n, listenersLock := Some(w), phases := t.phases)
    ensures At(t.phases, w) == Pruning(0) && OthersStay(s, t, w)
  {
    var mid := Next(s, Settle(w));
    t := Next(mid, Prune(w, 0));
    TwoSteps(s, Settle(w), Prune(w, 0), mid, t);
  }

  lemma WakeLeaves(s: State, w: Pid) returns (t: State)
    requires s.scheduler == s.listenersLock == Some(w) && s.pidsLock == None && At(s.phases, w) == Pruning(0)
    ensures After(s, [EndWake(w)]) == Some(t)
    ensures t == s.(scheduler := None, listenersLock := None, phases := t.phases)
    ensures At(t.phases, w) == Out && OthersStay(s, t, w)
  {
    t := Next(s, EndWake(w));
    assert [EndWake(w)][1..] == [];
    assert After(t, []) == Some(t);
  }

  /** A wake-up that finds waiters and that nothing disturbs empties the queue and leaves nobody of it blocked. */
  lemma WakeEmpties(s: State, w: Pid) returns (run: seq<Step>, t: State)
    requires Sound(s) && Unlocked(s) && At(s.phases, w) == Out && s.waiterCount != 0
    ensures After(s, run) == Some(t) && Sound(t) && Unlocked(t) && At(t.phases, w) == Out
    ensures t.pids == [] && t.listeners == s.listeners && t.waiterCount == s.listeners
    ensures forall p :: p in t.blocked <==> p in s.blocked && p !in s.pids
    ensures t.sequence == s.sequence + 2 && t.wakes == s.wakes + 1
    ensures forall p: Pid :: p != w ==> At(t.phases, p) == At(s.phases, p)
  {
    var a, b, c, d := [Bump(w), Load(w)], [BeginWake(w), Pop(w)], [Settle(w), Prune(w, 0)], [EndWake(w)];
    var s1 := WakeSees(s, w);
    var s2 := WakePops(s1, w);
    var s3 := WakeSettles(s2, w, |s.pids|);
    t := WakeLeaves(s3, w);
    run := a + b + c + d;
    AfterJoin(s, a, b);
    AfterJoin(s, a + b, c);
    AfterJoin(s, a + b + c, d);
    RunSound(s, run);
  }

  lemma SignalRun(s: State, p: Pid) returns (run: seq<Step>, t: State)
    requires Unlocked(s) && Asleep(s, p) && multiset(s.pids)[p] <= s.waiterCount
    ensures run == [Signal(p), Clean(p)] + [FinishWait(p)] && After(s, run) == Some(t) && Unlocked(t)
    ensures At(t.phases, p) == Out && t.blocked == s.blocked - {p} && p !in t.pids
    ensures t.waiterCount + multiset(s.pids)[p] == s.waiterCount
  {
    var mid := SignalCleans(s, p);
    t := Next(mid, FinishWait(p));
    assert [FinishWait(p)][1..] == [];
    assert After(t, []) == Some(t);
    run := [Signal(p), Clean(p)] + [FinishWait(p)];
    AfterJoin(s, [Signal(p), Clean(p)], [FinishWait(p)]);
  }

  lemma SignalCleans(s: State, p: Pid) returns (t: State)
    requires Unlocked(s) && Asleep(s, p)
    ensures After(s, [Signal(p), Clean(p)]) == Some(t)
    ensures t == s.(blocked := s.blocked - {p}, pids := Retain(s.pids, p), pidsLock := Some(p), phases := t.phases)
    ensures At(t.phases, p) == Cleaning(multiset(s.pids)[p])
  {
    var mid := Next(s, Signal(p));
    t := Next(mid, Clean(p));
    TwoSteps(s, Signal(p), Clean(p), mid, t);
  }

  /** A sleeper that gets a signal returns from its wait, and is neither blocked nor queued any more. */
  lemma SignalReturns(s: State, p: Pid) returns (run: seq<Step>, t: State)
    requires Sound(s) && Unlocked(s) && Asleep(s, p)
    ensures run == [Signal(p), Clean(p)] + [FinishWait(p)]
    ensures After(s, run) == Some(t) && Sound(t) && Unlocked(t)
    ensures At(t.phases, p) == Out && t.blocked == s.blocked - {p} && p !in t.pids
    ensures t.waiterCount + multiset(s.pids)[p] == s.waiterCount
  {
    assert |Retain(s.pids, p)| + multiset(s.pids)[p] == |s.pids|;
    run, t := SignalRun(s, p);
    RunSound(s, run);
  }

  /** The queue is not emptied and the task gets no signal. */
  ghost predicate Undisturbed(steps: seq<Step>, p: Pid) {
    forall i :: 0 <= i < |steps| ==> !steps[i].Pop? && steps[i] != Signal(p)
  }

  /** A sleeper, whether it waits or has registered, stays blocked and queued until a wake-up pops it. */
  lemma {:induction false} SleeperStays(s: State, steps: seq<Step>, p: Pid)
    requires Sound(s) && Sleeps(s, p) && After(s, steps).Some? && Undisturbed(steps, p)
    ensures Sleeps(After(s, steps).value, p) && p in After(s, steps).value.pids
    decreases |steps|
  {
    if steps == [] {
    } else {
      assert !steps[0].Pop? && steps[0] != Signal(p);
      StepSound(s, steps[0]);
      SleepStep(s, steps[0], p);
      SleeperStays(Next(s, steps[0]), steps[1..], p);
    }
  }

  lemma SleepStep(s: State, step: Step, p: Pid)
    requires Sleeps(s, p) && Enabled(s, step) && !step.Pop? && step != Signal(p) && BlockedExact(s)
    ensures Sleeps(Next(s, step), p)
  {
    MoveAt(Effect(s, step), step.p, Target(s, step));
  }

  /** The wake-up that empties the queue wakes every sleeper. */
  lemma PopWakes(s: State, w: Pid, p: Pid)
    requires Sound(s) && Enabled(s, Pop(w))
    ensures !Sleeps(Next(s, Pop(w)), p)
  {
    StepSound(s, Pop(w));
    assert Next(s, Pop(w)).pids == [];
  }

  /** Wake-ups under the scheduler lock that begin in a run. */
  function WakesIn(steps: seq<Step>): nat {
    if steps == [] then 0 else (if steps[0].BeginWake? then 1 else 0) + WakesIn(steps[1..])
  }

  /** Thread `p` takes no new token. */
  ghost predicate SameToken(steps: seq<Step>, p: Pid) {
    forall i :: 0 <= i < |steps| ==> steps[i] != Sample(p)
  }

  lemma {:induction false} WakesAdd(s: State, steps: seq<Step>, p: Pid)
    requires After(s, steps).Some? && SameToken(steps, p) && p in s.wakesAt
    ensures var t := After(s, steps).value;
            t.wakes == s.wakes + WakesIn(steps) && p in t.wakesAt && t.wakesAt[p] == s.wakesAt[p]
    decreases |steps|
  {
    if steps == [] {
    } else {
      var n := Next(s, steps[0]);
      assert steps[0] != Sample(p);
      assert p in n.wakesAt && n.wakesAt[p] == s.wakesAt[p];
      assert n.wakes == s.wakes + if steps[0].BeginWake? then 1 else 0;
      WakesAdd(n, steps[1..], p);
    }
  }

  /**
   * No lost wake-up: once a locked wake-up has begun after the token, the waiter sleeps only until
   * the queue is emptied.
   */
  lemma NoLostWakeup(s: State, steps: seq<Step>, p: Pid)
    requires Sound(s) && At(s.phases, p) == Sampled(s.sequence) && p in s.wakesAt && s.wakesAt[p] == s.wakes
    requires After(s, steps).Some? && SameToken(steps, p) && WakesIn(steps) >= 1
    ensures Asleep(After(s, steps).value, p) ==> WakeAhead(After(s, steps).value) && p in After(s, steps).value.pids
  {
    RunSound(s, steps);
    WakesAdd(s, steps, p);
  }

  /** A thread in waitpid that has looked for children and is not awake again. */
  predicate InWaitpid(s: State, p: Pid) {
    Looked(At(s.phases, p)) || (At(s.phases, p).Parked? && p in s.blocked)
  }

  /** Thread `p` does not begin to look for children again. */
  ghost predicate SameClaim(steps: seq<Step>, p: Pid) {
    forall i :: 0 <= i < |steps| ==> steps[i] != Claim(p)
  }

  /** If `p` is in waitpid, it looked for children when `base` wake-ups had begun. */
  ghost predicate LookedAt(s: State, p: Pid, base: nat) {
    InWaitpid(s, p) ==> p in s.looksAt && s.looksAt[p] == base
  }

  /** Only looking for children begins a waitpid. */
  lemma WaitpidBefore(s: State, step: Step, p: Pid)
    requires LocksExact(s) && Enabled(s, step) && step != Claim(p) && InWaitpid(Next(s, step), p)
    ensures InWaitpid(s, p)
  {
    MoveAt(Effect(s, step), step.p, Target(s, step));
    assert HoldsScheduler(At(s.phases, p)) <==> s.scheduler == Some(p);
  }

  lemma EffectLooks(s: State, step: Step, p: Pid)
    requires Enabled(s, step) && step != Claim(p) && p in s.looksAt
    ensures p in Effect(s, step).looksAt && Effect(s, step).looksAt[p] == s.looksAt[p]
  {
  }

  lemma EffectWakes(s: State, step: Step)
    requires Enabled(s, step)
    ensures Effect(s, step).wakes == s.wakes + if step.BeginWake? then 1 else 0
  {
  }

  lemma LookedStep(s: State, step: Step, p: Pid, base: nat)
    requires LocksExact(s) && LookedAt(s, p, base) && Enabled(s, step) && step != Claim(p)
    ensures LookedAt(Next(s, step), p, base)
    ensures Next(s, step).wakes == s.wakes + if step.BeginWake? then 1 else 0
  {
    EffectWakes(s, step);
    if InWaitpid(Next(s, step), p) {
      WaitpidBefore(s, step, p);
      EffectLooks(s, step, p);
    }
  }

  lemma {:induction false} LookedRun(s: State, steps: seq<Step>, p: Pid, base: nat)
    requires Sound(s) && LookedAt(s, p, base) && After(s, steps).Some? && SameClaim(steps, p)
    ensures LookedAt(After(s, steps).value, p, base) && After(s, steps).value.wakes == s.wakes + WakesIn(steps)
    decreases |steps|
  {
    if steps == [] {
    } else {
      assert steps[0] != Claim(p);
      StepSound(s, steps[0]);
      LookedStep(s, steps[0], p, base);
      LookedRun(Next(s, steps[0]), steps[1..], p, base);
    }
  }

  lemma OverdueExit(t: State, p: Pid, base: nat)
    requires QueueExact(t) && ClaimExact(t, p) && LookedAt(t, p, base) && base < t.wakes && InWaitpid(t, p)
    ensures At(t.phases, p).Parked? && WakeAhead(t) && p in t.pids
  {
    assert Sleeps(t, p);
  }

  /**
   * waitpid misses no exit: from any moment at which it has looked for children and found none, over every run,
   * once a wake-up has begun it is asleep only while that wake-up is about to empty the queue it is in.
   */
  lemma NoLostExit(s: State, steps: seq<Step>, p: Pid)
    requires Sound(s) && At(s.phases, p).Claimed?
    requires After(s, steps).Some? && SameClaim(steps, p) && WakesIn(steps) >= 1
    ensures var t := After(s, steps).value;
            InWaitpid(t, p) ==> At(t.phases, p).Parked? && WakeAhead(t) && p in t.pids
  {
    assert ClaimExact(s, p);
    LookedRun(s, steps, p, s.wakes);
    RunSound(s, steps);
    var t := After(s, steps).value;
    assert ClaimExact(t, p);
    if InWaitpid(t, p) {
      OverdueExit(t, p, s.wakes);
    }
  }

  /** Thread `p` is not past its check and, with the token it has, will not pass it. */
  ghost predicate WillAbort(s: State, p: Pid) {
    !Committed(At(s.phases, p))
      && (At(s.phases, p).Sampled? || At(s.phases, p).Locked? ==> At(s.phases, p).token < s.sequence)
  }

  lemma {:induction false} AbortsStay(s: State, steps: seq<Step>, p: Pid)
    requires WillAbort(s, p) && After(s, steps).Some? && SameToken(steps, p)
    ensures WillAbort(After(s, steps).value, p)
    decreases |steps|
  {
    if steps == [] {
    } else {
      assert steps[0] != Sample(p);
      AbortStep(s, steps[0], p);
      AbortsStay(Next(s, steps[0]), steps[1..], p);
    }
  }

  lemma AbortStep(s: State, step: Step, p: Pid)
    requires WillAbort(s, p) && Enabled(s, step) && step != Sample(p)
    ensures WillAbort(Next(s, step), p)
  {
    MoveAt(Effect(s, step), step.p, Target(s, step));
    EffectKeeps(s, step);
    assert Effect(s, step).sequence >= s.sequence;
  }

  /** A lock-free wake-up of `w` that finds the count at zero and returns. */
  predicate FastReturn(s: State, w: Pid) {
    At(s.phases, w).Bumped? && s.waiterCount == 0
  }

  /** At that moment nobody is counted, queued or asleep. */
  lemma FastReturnEmpty(s: State, w: Pid, p: Pid)
    requires Sound(s) && FastReturn(s, w)
    ensures s.pids == [] && !Sleeps(s, p) && !At(s.phases, p).Counted? && !At(s.phases, p).Listing?
  {
    NoUnderflow(s, p);
  }

  /** From `s`, without a locked wake-up and without a new token, `p` can fall asleep. */
  ghost predicate CanSleep(s: State, p: Pid) {
    exists steps ::
      && SameToken(steps, p) && WakesIn(steps) == 0
      && After(s, steps).Some? && Asleep(After(s, steps).value, p)
  }

  /** The step with which the holder of the queue lock releases it. */
  function Finish(s: State, q: Pid): Step {
    match At(s.phases, q)
    case Cleaning(_) => FinishWait(q)
    case Listing(_) => FinishRegister(q)
    case _ => FinishRemove(q)
  }

  lemma FreePids(s: State, p: Pid)
    requires Sound(s) && (At(s.phases, p).Checked? || At(s.phases, p).Claimed?) && s.pidsLock.Some?
    ensures var step := Finish(s, s.pidsLock.value);
            && Enabled(s, step) && Next(s, step).pidsLock == None
            && At(Next(s, step).phases, p) == At(s.phases, p)
  {
    var q := s.pidsLock.value;
    assert HoldsPids(At(s.phases, q));
    assert HoldsScheduler(At(s.phases, q)) <==> s.scheduler == Some(q);
    assert HoldsScheduler(At(s.phases, p)) && s.scheduler == Some(p);
  }

  lemma SleepSteps(s: State, p: Pid)
    requires At(s.phases, p).Checked? && s.pidsLock == None
    ensures var steps := [Count(p), Enroll(p), UnlockScheduler(p)];
            After(s, steps).Some? && Asleep(After(s, steps).value, p)
  {
    var steps := [Count(p), Enroll(p), UnlockScheduler(p)];
    var s1 := Next(s, steps[0]);
    var s2 := Next(s1, steps[1]);
    var s3 := Next(s2, steps[2]);
    assert steps[1..][1..] == [UnlockScheduler(p)] && steps[1..][1..][1..] == [];
    assert After(s2, steps[1..][1..]) == After(s3, []) == Some(s3);
    assert After(s1, steps[1..]) == After(s2, steps[1..][1..]);
  }

  /** A step that is no locked wake-up and takes no token does not matter. */
  lemma SleepsAfter(s: State, step: Step, p: Pid)
    requires Enabled(s, step) && !step.BeginWake? && step != Sample(p) && CanSleep(Next(s, step), p)
    ensures CanSleep(s, p)
  {
    var rest :| SameToken(rest, p) && WakesIn(rest) == 0
                && After(Next(s, step), rest).Some? && Asleep(After(Next(s, step), rest).value, p);
    var steps := [step] + rest;
    assert steps[1..] == rest;
    assert After(s, steps) == After(Next(s, step), rest);
    assert SameToken(steps, p);
  }

  lemma CheckedSleeps(s: State, p: Pid)
    requires Sound(s) && At(s.phases, p).Checked?
    ensures CanSleep(s, p)
    decreases s.pidsLock.Some?
  {
    if s.pidsLock == None {
      var steps := [Count(p), Enroll(p), UnlockScheduler(p)];
      NoWakes(steps);
      SleepSteps(s, p);
      assert SameToken(steps, p) && Asleep(After(s, steps).value, p);
    } else {
      FreePids(s, p);
      var step := Finish(s, s.pidsLock.value);
      StepSound(s, step);
      CheckedSleeps(Next(s, step), p);
      SleepsAfter(s, step, p);
    }
  }

  /** The fast path loses a waiter whose token is older than the wake-up exactly when it has passed its check. */
  lemma FastPathExact(s: State, w: Pid, p: Pid)
    requires Sound(s) && FastReturn(s, w)
    requires At(s.phases, p).Sampled? || At(s.phases, p).Locked? || At(s.phases, p).Checked?
    requires At(s.phases, p).token < s.sequence
    ensures Enabled(s, Load(w)) && (CanSleep(Next(s, Load(w)), p) <==> At(s.phases, p).Checked?)
  {
    var t := Next(s, Load(w));
    StepSound(s, Load(w));
    MoveAt(s, w, Out);
    if At(s.phases, p).Checked? {
      CheckedSleeps(t, p);
    } else {
      assert WillAbort(t, p);
      forall steps | SameToken(steps, p) && After(t, steps).Some? ensures !Asleep(After(t, steps).value, p) {
        AbortsStay(t, steps, p);
      }
    }
  }

  /** From `s`, without a locked wake-up, a thread in waitpid can park. */
  ghost predicate CanPark(s: State, p: Pid) {
    exists steps ::
      WakesIn(steps) == 0 && After(s, steps).Some? && At(After(s, steps).value.phases, p).Parked?
        && p in After(s, steps).value.blocked
  }

  lemma ParkSteps(s: State, p: Pid)
    requires At(s.phases, p).Claimed? && s.pidsLock == None
    ensures var steps := [Register(p), FinishRegister(p), Park(p)];
            After(s, steps).Some? && At(After(s, steps).value.phases, p).Parked? && p in After(s, steps).value.blocked
  {
    var steps := [Register(p), FinishRegister(p), Park(p)];
    var s1 := Next(s, steps[0]);
    var s2 := Next(s1, steps[1]);
    var s3 := Next(s2, steps[2]);
    assert steps[1..][1..] == [Park(p)] && steps[1..][1..][1..] == [];
    assert After(s2, steps[1..][1..]) == After(s3, []) == Some(s3);
    assert After(s1, steps[1..]) == After(s2, steps[1..][1..]);
  }

  lemma ParksAfter(s: State, step: Step, p: Pid)
    requires Enabled(s, step) && !step.BeginWake? && CanPark(Next(s, step), p)
    ensures CanPark(s, p)
  {
    var rest :| WakesIn(rest) == 0 && After(Next(s, step), rest).Some?
                && At(After(Next(s, step), rest).value.phases, p).Parked?
                && p in After(Next(s, step), rest).value.blocked;
    var steps := [step] + rest;
    assert steps[1..] == rest;
    assert After(s, steps) == After(Next(s, step), rest);
  }

  lemma ClaimedParks(s: State, p: Pid)
    requires Sound(s) && At(s.phases, p).Claimed?
    ensures CanPark(s, p)
    decreases s.pidsLock.Some?
  {
    if s.pidsLock == None {
      NoWakes([Register(p), FinishRegister(p), Park(p)]);
      ParkSteps(s, p);
    } else {
      FreePids(s, p);
      var step := Finish(s, s.pidsLock.value);
      StepSound(s, step);
      ClaimedParks(Next(s, step), p);
      ParksAfter(s, step, p);
    }
  }

  /**
   * Why a child's exit has to wake its parent under the scheduler lock, as it does: the fast path would pass a
   * thread in waitpid by exactly when it has looked and not registered yet.
   */
  lemma FastPathWaitpid(s: State, w: Pid, p: Pid)
    requires Sound(s) && FastReturn(s, w)
    ensures Enabled(s, Load(w)) && (InWaitpid(s, p) <==> At(s.phases, p).Claimed?)
    ensures At(s.phases, p).Claimed? ==> CanPark(Next(s, Load(w)), p)
  {
    FastReturnEmpty(s, w, p);
    assert (At(s.phases, p).Parked? && p in s.blocked) || At(s.phases, p).Listed? ==> Sleeps(s, p);
    if At(s.phases, p).Claimed? {
      StepSound(s, Load(w));
      MoveAt(s, w, Out);
      ClaimedParks(Next(s, Load(w)), p);
    }
  }

  lemma {:induction false} NoWakes(steps: seq<Step>)
    requires forall i :: 0 <= i < |steps| ==> !steps[i].BeginWake?
    ensures WakesIn(steps) == 0
  {
    if steps == [] {
    } else {
      NoWakes(steps[1..]);
    }
  }

  /** The steps that put a lock-free wake-up into the window of a waiter. */
  function Window(p: Pid, w: Pid): seq<Step> {
    [Sample(p), LockScheduler(p), Check(p, false), Bump(w)]
  }

  lemma WindowRun(s: State, p: Pid, w: Pid)
    requires At(s.phases, p).Out? && At(s.phases, w).Out? && p != w && s.scheduler == None && s.waiterCount == 0
    ensures After(s, Window(p, w)).Some?
    ensures var t := After(s, Window(p, w)).value;
            FastReturn(t, w) && At(t.phases, p) == Checked(s.sequence) && t.sequence == s.sequence + 1
  {
    var steps := Window(p, w);
    var s1 := Next(s, steps[0]);
    var s2 := Next(s1, steps[1]);
    var s3 := Next(s2, steps[2]);
    var s4 := Next(s3, steps[3]);
    assert steps[1..][0] == steps[1] && steps[1..][1..][0] == steps[2] && steps[1..][1..][1..] == [steps[3]];
    assert After(s3, [steps[3]]) == After(s4, []) == Some(s4);
    assert After(s2, steps[1..][1..]) == After(s3, [steps[3]]);
    assert After(s1, steps[1..]) == After(s2, steps[1..][1..]);
  }

  /** Whenever the queue is unused, a wake-up can be lost that way. */
  lemma LostWakeup(s: State, p: Pid, w: Pid)
    requires Sound(s) && At(s.phases, p).Out? && At(s.phases, w).Out? && p != w
    requires s.scheduler == None && s.waiterCount == 0
    ensures After(s, Window(p, w)).Some?
    ensures var t := After(s, Window(p, w)).value;
            && FastReturn(t, w) && At(t.phases, p).Checked? && At(t.phases, p).token < t.sequence
            && CanSleep(Next(t, Load(w)), p)
  {
    WindowRun(s, p, w);
    RunSound(s, Window(p, w));
    FastPathExact(After(s, Window(p, w)).value, w, p);
  }
}
