// The ticket spinlock: any number of CPUs mixing lock, try_lock and guard drops, one atomic step at a time.
module TicketLock {
  import opened Wrappers

  const WORD: nat := 0x1_0000_0000_0000_0000
  const MAX_CPUS: nat := 0xFFFF_FFFF

  type Cpu = c: nat | c < MAX_CPUS

  /** How far a CPU has come; interrupts are off from the first step to the last. */
  datatype Phase =
    | Out
    | Spinning(ticket: nat)      // has a ticket, waits to be served
    | Entered(ticket: nat)       // is served, has not stored its id yet
    | Holding(ticket: nat)
    | Leaving(ticket: nat)       // has cleared the id, has not moved the serving number yet
    | Trying                     // has found the lock unheld
    | Saw(serving: nat)          // has loaded the serving number

  predicate HasTicket(ph: Phase) {
    ph.Spinning? || Inside(ph)
  }

  predicate Inside(ph: Phase) {
    ph.Entered? || ph.Holding? || ph.Leaving?
  }

  /** Tickets count without bound; the lock's words hold them modulo 2^64. */
  datatype State = State(next: nat, serving: nat, holder: Option<Cpu>, phases: map<Cpu, Phase>, owner: map<nat, Cpu>)

  const FREE: State := State(0, 0, None, map[], map[])

  function At(s: State, c: Cpu): Phase {
    if c in s.phases then s.phases[c] else Out
  }

  /** Every ticket not yet done has exactly one owner. */
  ghost predicate Owned(s: State) {
    && s.serving <= s.next
    && (forall k :: k in s.owner <==> s.serving <= k < s.next)
    && (forall k :: k in s.owner ==> HasTicket(At(s, s.owner[k])) && At(s, s.owner[k]).ticket == k)
    && (forall c: Cpu :: HasTicket(At(s, c)) ==> At(s, c).ticket in s.owner && s.owner[At(s, c).ticket] == c)
  }

  ghost predicate Sound(s: State) {
    && Owned(s)
    && (forall c: Cpu :: Inside(At(s, c)) ==> At(s, c).ticket == s.serving)
    && (forall c: Cpu :: s.holder == Some(c) <==> At(s, c).Holding?)
    && (forall c: Cpu :: At(s, c).Saw? ==> At(s, c).serving <= s.serving)
  }

  datatype Step =
    | Take(c: Cpu)        // lock: fetch_add on the next ticket
    | Enter(c: Cpu)       // lock: the serving number equals the ticket
    | Mark(c: Cpu)        // store the holder's id
    | Unmark(c: Cpu)      // drop: clear it
    | Serve(c: Cpu)       // drop: fetch_add on the serving number
    | Probe(c: Cpu)       // try_lock: load the holder
    | See(c: Cpu)         // try_lock: load the serving number
    | Try(c: Cpu)         // try_lock: compare_exchange on the next ticket

  /** `Try` comes before 2^64 more tickets have been taken. */
  predicate Enabled(s: State, step: Step) {
    var ph := At(s, step.c);
    match step
    case Take(_) => ph.Out?
    case Enter(_) => ph.Spinning? && s.serving % WORD == ph.ticket % WORD
    case Mark(_) => ph.Entered?
    case Unmark(_) => ph.Holding?
    case Serve(_) => ph.Leaving?
    case Probe(_) => ph.Out?
    case See(_) => ph.Trying?
    case Try(_) => ph.Saw? && s.next < ph.serving + WORD
  }

  function Give(s: State, c: Cpu, ph: Phase): State {
    s.(next := s.next + 1, phases := s.phases[c := ph], owner := s.owner[s.next := c])
  }

  function Next(s: State, step: Step): State
    requires Enabled(s, step)
  {
    var c, ph := step.c, At(s, step.c);
    match step
    case Take(_) => Give(s, c, Spinning(s.next))
    case Enter(_) => s.(phases := s.phases[c := Entered(ph.ticket)])
    case Mark(_) => s.(phases := s.phases[c := Holding(ph.ticket)], holder := Some(c))
    case Unmark(_) => s.(phases := s.phases[c := Leaving(ph.ticket)], holder := None)
    case Serve(_) => s.(phases := s.phases[c := Out], serving := s.serving + 1, owner := s.owner - {s.serving})
    case Probe(_) => s.(phases := s.phases[c := if s.holder == None then Trying else Out])
    case See(_) => s.(phases := s.phases[c := Saw(s.serving)])
    case Try(_) =>
      if s.next % WORD == ph.serving % WORD then Give(s, c, Entered(s.next)) else s.(phases := s.phases[c := Out])
  }

  lemma {:induction false} RangeBound(cs: set<Cpu>, n: nat)
    requires forall c :: c in cs ==> c < n
    ensures |cs| <= n
    decreases n
  {
    if n > 0 {
      var rest := set c | c in cs && c < n - 1;
      RangeBound(rest, n - 1);
      if exists c: Cpu :: c in cs && c == n - 1 {
        var c: Cpu :| c in cs && c == n - 1;
        assert cs == rest + {c};
      } else {
        assert cs == rest;
      }
    } else {
      assert cs == {};
    }
  }

  /** The owners of the tickets from `k` on are as many as those tickets. */
  lemma {:induction false} OwnersCount(s: State, k: nat)
    requires Owned(s) && s.serving <= k <= s.next
    ensures |set j | k <= j < s.next && j in s.owner :: s.owner[j]| == s.next - k
    decreases s.next - k
  {
    var all := set j | k <= j < s.next && j in s.owner :: s.owner[j];
    if k < s.next {
      OwnersCount(s, k + 1);
      var rest := set j | k + 1 <= j < s.next && j in s.owner :: s.owner[j];
      assert all == rest + {s.owner[k]};
      assert s.owner[k] !in rest;
    } else {
      assert all == {};
    }
  }

  /** There are never more tickets out than CPUs, so equality modulo 2^64 is equality. */
  lemma TicketsBounded(s: State)
    requires Owned(s)
    ensures s.next - s.serving <= MAX_CPUS
  {
    OwnersCount(s, s.serving);
    RangeBound(set j | s.serving <= j < s.next && j in s.owner :: s.owner[j], MAX_CPUS);
  }

  lemma SameWord(a: nat, b: nat)
    requires a <= b < a + WORD && a % WORD == b % WORD
    ensures a == b
  {
  }

  lemma StepSound(s: State, step: Step)
    requires Sound(s) && Enabled(s, step)
    ensures Sound(Next(s, step))
  {
    var c, ph, t := step.c, At(s, step.c), Next(s, step);
    assert forall d: Cpu :: d != c ==> At(t, d) == At(s, d);
    match step {
      case Enter(_) =>
        TicketsBounded(s);
        SameWord(s.serving, ph.ticket);
      case Try(_) =>
        if s.next % WORD == ph.serving % WORD {
          SameWord(ph.serving, s.next);
        }
      case _ =>
    }
  }

  function After(s: State, steps: seq<Step>): Option<State>
    decreases |steps|
  {
    if steps == [] then Some(s)
    else if Enabled(s, steps[0]) then After(Next(s, steps[0]), steps[1..])
    else None
  }

  lemma {:induction false} RunSound(s: State, steps: seq<Step>)
    requires Sound(s) && After(s, steps).Some?
    ensures Sound(After(s, steps).value)
    decreases |steps|
  {
    if steps == [] {
    } else {
      StepSound(s, steps[0]);
      RunSound(Next(s, steps[0]), steps[1..]);
    }
  }

  /** In every run: one CPU inside at most, earlier tickets first, and the stored id is nobody's or the holder's. */
  lemma Exclusion(steps: seq<Step>, c: Cpu, d: Cpu)
    requires After(FREE, steps).Some?
    ensures var s := After(FREE, steps).value;
            && (Inside(At(s, c)) && Inside(At(s, d)) ==> c == d)
            && (Inside(At(s, c)) && At(s, d).Spinning? ==> At(s, c).ticket < At(s, d).ticket)
            && (At(s, c).Spinning? && At(s, d).Spinning? && c != d ==> At(s, c).ticket != At(s, d).ticket)
            && (s.holder == Some(c) <==> At(s, c).Holding?)
  {
    RunSound(FREE, steps);
  }

  lemma {:induction false} AfterJoin(s: State, a: seq<Step>, b: seq<Step>)
    requires After(s, a).Some?
    ensures After(s, a + b) == After(After(s, a).value, b)
    decreases |a|
  {
    if a == [] {
      assert a + b == b;
    } else {
      assert (a + b)[1..] == a[1..] + b;
      AfterJoin(Next(s, a[0]), a[1..], b);
    }
  }

  lemma AfterOne(s: State, step: Step)
    requires Enabled(s, step)
    ensures After(s, [step]) == Some(Next(s, step))
  {
    assert [step][1..] == [];
    assert After(Next(s, step), []) == Some(Next(s, step));
  }

  /** The wrapped test lets in exactly the CPU whose ticket is served. */
  lemma EnterExact(s: State, c: Cpu)
    requires Sound(s) && At(s, c).Spinning?
    ensures Enabled(s, Enter(c)) <==> At(s, c).ticket == s.serving
  {
    TicketsBounded(s);
    if Enabled(s, Enter(c)) {
      SameWord(s.serving, At(s, c).ticket);
    }
  }

  /** `lock` hands out the next ticket, and nothing but the queue grows. */
  lemma TakeJoins(s: State, c: Cpu)
    requires Sound(s) && At(s, c) == Out
    ensures Enabled(s, Take(c))
    ensures var t := Next(s, Take(c));
            && At(t, c) == Spinning(s.next) && t.next == s.next + 1 && t.serving == s.serving && t.holder == s.holder
            && forall d: Cpu :: d != c ==> At(t, d) == At(s, d)
  {
  }

  /**
   * `try_lock` without a step of another CPU in between: it fails at once when
   * the lock is marked as held, takes it exactly when no ticket is out, and
   * otherwise leaves the lock as it was.
   */
  lemma TryExact(s: State, c: Cpu)
    requires Sound(s) && At(s, c) == Out
    ensures Enabled(s, Probe(c))
    ensures var p := Next(s, Probe(c));
            && p.next == s.next && p.serving == s.serving && p.holder == s.holder
            && if s.holder != None then At(p, c) == Out
               else
                 && Enabled(p, See(c)) && Enabled(Next(p, See(c)), Try(c))
                 && var t := Next(Next(p, See(c)), Try(c));
                    && t.serving == s.serving && t.holder == s.holder
                    && if s.next == s.serving then At(t, c) == Entered(s.next) && t.next == s.next + 1
                       else At(t, c) == Out && t.next == s.next
  {
    TicketsBounded(s);
    if s.next % WORD == s.serving % WORD {
      SameWord(s.serving, s.next);
    }
  }

  /** What the CPU that is being served does next; each CPU inside has a step to take. */
  function Onward(s: State, c: Cpu): Step {
    match At(s, c)
    case Spinning(_) => Enter(c)
    case Entered(_) => Mark(c)
    case Holding(_) => Unmark(c)
    case _ => Serve(c)
  }

  /** How many steps the CPU that is being served is away from leaving. */
  function Togo(ph: Phase): nat {
    match ph
    case Spinning(_) => 4
    case Entered(_) => 3
    case Holding(_) => 2
    case _ => 1
  }

  lemma OnwardStep(s: State, c: Cpu)
    requires Sound(s) && HasTicket(At(s, c)) && At(s, c).ticket == s.serving
    ensures Enabled(s, Onward(s, c))
    ensures var t := Next(s, Onward(s, c));
            && Sound(t) && t.next == s.next && (forall d: Cpu :: d != c ==> At(t, d) == At(s, d))
            && if Togo(At(s, c)) == 1 then t.serving == s.serving + 1 && At(t, c) == Out && t.holder == None
               else
                 && t.serving == s.serving && HasTicket(At(t, c)) && At(t, c).ticket == s.serving
                 && Togo(At(t, c)) + 1 == Togo(At(s, c))
  {
    StepSound(s, Onward(s, c));
  }

  /** The CPU that is being served gets through the lock by its own steps, and the next ticket is served. */
  lemma {:induction false} Passes(s: State, c: Cpu) returns (run: seq<Step>, t: State)
    requires Sound(s) && HasTicket(At(s, c)) && At(s, c).ticket == s.serving
    ensures After(s, run) == Some(t) && |run| == Togo(At(s, c)) && Sound(t)
    ensures t.serving == s.serving + 1 && t.next == s.next && At(t, c) == Out && t.holder == None
    ensures forall d: Cpu :: d != c ==> At(t, d) == At(s, d)
    decreases Togo(At(s, c))
  {
    OnwardStep(s, c);
    var step := Onward(s, c);
    var mid := Next(s, step);
    AfterOne(s, step);
    if Togo(At(s, c)) == 1 {
      run, t := [step], mid;
    } else {
      var rest;
      rest, t := Passes(mid, c);
      run := [step] + rest;
      AfterJoin(s, [step], rest);
    }
  }

  /**
   * No CPU is passed over: whoever spins gets in after four steps at most of
   * each CPU before it, in the order of their tickets, and none of anybody else.
   */
  lemma {:induction false} Served(s: State, c: Cpu) returns (run: seq<Step>, t: State)
    requires Sound(s) && At(s, c).Spinning?
    ensures After(s, run) == Some(t) && |run| <= 4 * (At(s, c).ticket - s.serving)
    ensures Sound(t) && At(t, c) == At(s, c) && t.serving == At(s, c).ticket && Enabled(t, Enter(c))
    decreases At(s, c).ticket - s.serving
  {
    var k := At(s, c).ticket;
    assert k in s.owner;
    if k == s.serving {
      run, t := [], s;
      EnterExact(s, c);
    } else {
      var d := s.owner[s.serving];
      var first, mid := Passes(s, d);
      var rest;
      rest, t := Served(mid, c);
      run := first + rest;
      AfterJoin(s, first, rest);
    }
  }
}
