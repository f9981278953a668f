// The kernel reader-writer lock: exclusion over all interleavings of its atomic steps.
module RwLock {
  import opened Wrappers

  type Cpu = nat

  datatype Phase =
    | Out
    | Cleared                // read: no writer was pending
    | Loaded(seen: int)      // read: and then the state was not negative
    | Reading
    | Pending                // write: has raised the pending flag
    | Writing
    | Releasing              // write guard drop: has stored 0, the flag is still up

  datatype State = State(word: int, writerPending: bool, phases: map<Cpu, Phase>, readers: set<Cpu>,
                         writer: Option<Cpu>)

  const FREE: State := State(0, false, map[], {}, None)

  function At(s: State, c: Cpu): Phase {
    if c in s.phases then s.phases[c] else Out
  }

  /** The word is -1 with one writer and no reader, or the exact number of readers. */
  ghost predicate Sound(s: State) {
    && (forall c: Cpu :: At(s, c).Reading? <==> c in s.readers)
    && (forall c: Cpu :: At(s, c).Writing? <==> s.writer == Some(c))
    && (forall c: Cpu :: At(s, c).Loaded? ==> At(s, c).seen >= 0)
    && (if s.writer.Some? then s.word == -1 && s.readers == {} else s.word == |s.readers|)
  }

  datatype Step =
    | Look(c: Cpu)
    | Load(c: Cpu)
    | Count(c: Cpu, spurious: bool)       // compare_exchange_weak may fail for no reason
    | DropRead(c: Cpu)
    | Raise(c: Cpu)
    | Seize(c: Cpu, spurious: bool)
    | Store(c: Cpu)
    | Lower(c: Cpu)

  predicate Enabled(s: State, step: Step) {
    match step
    case Look(c) => At(s, c).Out?
    case Load(c) => At(s, c).Cleared?
    case Count(c, _) => At(s, c).Loaded?
    case DropRead(c) => At(s, c).Reading?
    case Raise(c) => At(s, c).Out?
    case Seize(c, _) => At(s, c).Pending?
    case Store(c) => At(s, c).Writing?
    case Lower(c) => At(s, c).Releasing?
  }

  function Next(s: State, step: Step): State
    requires Enabled(s, step)
  {
    match step
    case Look(c) => s.(phases := s.phases[c := if s.writerPending then Out else Cleared])
    case Load(c) => s.(phases := s.phases[c := if s.word >= 0 then Loaded(s.word) else Out])
    case Count(c, spurious) =>
      if s.word == At(s, c).seen && !spurious then
        s.(word := s.word + 1, phases := s.phases[c := Reading], readers := s.readers + {c})
      else
        s.(phases := s.phases[c := Out])
    case DropRead(c) => s.(word := s.word - 1, phases := s.phases[c := Out], readers := s.readers - {c})
    case Raise(c) => s.(writerPending := true, phases := s.phases[c := Pending])
    case Seize(c, spurious) =>
      if s.word == 0 && !spurious then s.(word := -1, phases := s.phases[c := Writing], writer := Some(c)) else s
    case Store(c) => s.(word := 0, phases := s.phases[c := Releasing], writer := None)
    case Lower(c) => s.(writerPending := false, phases := s.phases[c := Out])
  }

  /** A CPU that is not inside, and does not get inside, may change its phase. */
  lemma MoveSound(s: State, c: Cpu, ph: Phase)
    requires Sound(s) && !At(s, c).Reading? && !At(s, c).Writing?
    requires !ph.Reading? && !ph.Writing? && (ph.Loaded? ==> ph.seen >= 0)
    ensures Sound(s.(phases := s.phases[c := ph]))
  {
    var t := s.(phases := s.phases[c := ph]);
    assert forall d: Cpu :: d != c ==> At(t, d) == At(s, d);
  }

  lemma ReaderSound(s: State, step: Step)
    requires Sound(s) && Enabled(s, step) && (step.Look? || step.Load? || step.Count? || step.DropRead?)
    ensures Sound(Next(s, step))
  {
    var t := Next(s, step);
    if t.word == s.word {
      MoveSound(s, step.c, At(t, step.c));
    } else {
      assert forall d: Cpu :: d != step.c ==> At(t, d) == At(s, d);
      assert step.DropRead? <==> step.c in s.readers;
    }
  }

  lemma WriterSound(s: State, step: Step)
    requires Sound(s) && Enabled(s, step) && (step.Raise? || step.Seize? || step.Store? || step.Lower?)
    ensures Sound(Next(s, step))
  {
    var t := Next(s, step);
    assert forall d: Cpu :: d != step.c ==> At(t, d) == At(s, d);
    assert s.word == 0 ==> s.readers == {};
  }

  lemma StepSound(s: State, step: Step)
    requires Sound(s) && Enabled(s, step)
    ensures Sound(Next(s, step))
  {
    if step.Look? || step.Load? || step.Count? || step.DropRead? {
      ReaderSound(s, step);
    } else {
      WriterSound(s, step);
    }
  }

  function After(s: State, steps: seq<Step>): Option<State>
    decreases |steps|
  {
    if steps == [] then Some(s)
    else if Enabled(s, steps[0]) then After(Next(s, steps[0]), steps[1..])
    else None
  }

  lemma {:induction false} RunSound(s: State, steps: seq<Step>)
    requires Sound(s) && After(s, steps).Some?
    ensures Sound(After(s, steps).value)
    decreases |steps|
  {
    if steps == [] {
    } else {
      StepSound(s, steps[0]);
      RunSound(Next(s, steps[0]), steps[1..]);
    }
  }

  /** In every run a writer is alone, and the word tells who is inside. */
  lemma Exclusion(steps: seq<Step>, c: Cpu, d: Cpu)
    requires After(FREE, steps).Some?
    ensures var s := After(FREE, steps).value;
            && (At(s, c).Writing? && (At(s, d).Writing? || At(s, d).Reading?) ==> c == d)
            && (s.word == -1 <==> s.writer.Some?) && (s.word != -1 ==> s.word == |s.readers|)
            && (At(s, c).Reading? <==> c in s.readers) && (At(s, c).Writing? <==> s.writer == Some(c))
  {
    RunSound(FREE, steps);
  }

  lemma {:induction false} AfterJoin(s: State, a: seq<Step>, b: seq<Step>)
    requires After(s, a).Some?
    ensures After(s, a + b) == After(After(s, a).value, b)
    decreases |a|
  {
    if a == [] {
      assert a + b == b;
    } else {
      assert (a + b)[1..] == a[1..] + b;
      AfterJoin(Next(s, a[0]), a[1..], b);
    }
  }

  /** One step more. */
  lemma Extend(s: State, run: seq<Step>, t: State, step: Step) returns (longer: seq<Step>)
    requires After(s, run) == Some(t) && Enabled(t, step)
    ensures After(s, longer) == Some(Next(t, step)) && longer == run + [step]
  {
    longer := run + [step];
    AfterJoin(s, run, [step]);
    assert [step][1..] == [];
    assert After(Next(t, step), []) == Some(Next(t, step));
  }

  /** The other CPUs are where they were. */
  ghost predicate OthersStay(s: State, t: State, c: Cpu) {
    forall d: Cpu :: d != c ==> At(t, d) == At(s, d)
  }

  /** `read` gets in when no writer is inside or pending, and its drop undoes that. */
  lemma ReadEnters(s: State, c: Cpu) returns (run: seq<Step>, t: State)
    requires Sound(s) && At(s, c) == Out && !s.writerPending && s.writer == None
    ensures run == [Look(c), Load(c), Count(c, false)] && After(s, run) == Some(t) && Sound(t)
    ensures At(t, c) == Reading && OthersStay(s, t, c)
    ensures t == s.(word := s.word + 1, readers := s.readers + {c}, phases := t.phases)
    ensures var u := Next(t, DropRead(c)); At(u, c) == Out && u == s.(phases := u.phases) && OthersStay(s, u, c)
  {
    var s1 := Next(s, Look(c));
    var s2 := Next(s1, Load(c));
    t := Next(s2, Count(c, false));
    run := Extend(s, [], s, Look(c));
    run := Extend(s, run, s1, Load(c));
    run := Extend(s, run, s2, Count(c, false));
    RunSound(s, run);
    assert c !in s.readers;
    assert s.readers + {c} - {c} == s.readers;
  }

  /** The weak exchange sets no bound: a reader may try any number of times on a lock it could take. */
  lemma {:induction false} ReadRetries(s: State, c: Cpu, n: nat) returns (run: seq<Step>, t: State)
    requires Sound(s) && At(s, c) == Out && !s.writerPending && s.writer == None
    ensures After(s, run) == Some(t) && |run| == 3 * n && At(t, c) == Out
    ensures t == s.(phases := t.phases) && OthersStay(s, t, c)
  {
    if n == 0 {
      run, t := [], s;
    } else {
      run, t := ReadRetries(s, c, n - 1);
      var s1 := Next(t, Look(c));
      var s2 := Next(s1, Load(c));
      run := Extend(s, run, t, Look(c));
      run := Extend(s, run, s1, Load(c));
      run := Extend(s, run, s2, Count(c, true));
      t := Next(s2, Count(c, true));
    }
  }

  /** `write` gets in when nobody is inside, and its drop undoes that. */
  lemma WriteEnters(s: State, c: Cpu) returns (run: seq<Step>, t: State)
    requires Sound(s) && At(s, c) == Out && s.word == 0
    ensures run == [Raise(c), Seize(c, false)] && After(s, run) == Some(t) && Sound(t)
    ensures At(t, c) == Writing && OthersStay(s, t, c)
    ensures t == s.(word := -1, writer := Some(c), writerPending := true, phases := t.phases)
    ensures Enabled(t, Store(c)) && Enabled(Next(t, Store(c)), Lower(c))
    ensures var u := Next(Next(t, Store(c)), Lower(c));
            At(u, c) == Out && u == s.(writerPending := false, phases := u.phases) && OthersStay(s, u, c)
  {
    var s1 := Next(s, Raise(c));
    t := Next(s1, Seize(c, false));
    run := Extend(s, [], s, Raise(c));
    run := Extend(s, run, s1, Seize(c, false));
    RunSound(s, run);
  }

  /** Readers that leave make room for a writer that waits. */
  lemma {:induction false} ReadersLeave(s: State, c: Cpu) returns (run: seq<Step>, t: State)
    requires Sound(s) && At(s, c).Pending? && s.writer == None
    ensures After(s, run) == Some(t) && |run| == |s.readers| && Sound(t)
    ensures t.word == 0 && At(t, c).Pending? && t.writer == None
    decreases |s.readers|
  {
    if s.readers == {} {
      run, t := [], s;
    } else {
      var d :| d in s.readers;
      var step := DropRead(d);
      assert At(s, d).Reading?;
      var mid := Next(s, step);
      StepSound(s, step);
      var first := Extend(s, [], s, step);
      var rest;
      rest, t := ReadersLeave(mid, c);
      run := first + rest;
      AfterJoin(s, first, rest);
    }
  }

  /** A pending writer gets in once those who are inside have left, one step each, and nobody else need move. */
  lemma WriterGetsIn(s: State, c: Cpu) returns (run: seq<Step>, t: State)
    requires Sound(s) && At(s, c).Pending?
    ensures After(s, run) == Some(t) && |run| == (if s.writer.Some? then 1 else |s.readers|)
    ensures Sound(t) && t.word == 0 && At(t, c).Pending? && At(Next(t, Seize(c, false)), c) == Writing
  {
    if s.writer.Some? {
      var d := s.writer.value;
      assert At(s, d).Writing?;
      StepSound(s, Store(d));
      run, t := [Store(d)], Next(s, Store(d));
      var again := Extend(s, [], s, Store(d));
      assert again == run;
    } else {
      run, t := ReadersLeave(s, c);
    }
  }

  /** A reader on its way in, or inside. */
  predicate Passing(ph: Phase) {
    ph.Cleared? || ph.Loaded? || ph.Reading?
  }

  lemma StepBacksOff(s: State, step: Step, d: Cpu)
    requires s.writerPending && Enabled(s, step) && !step.Lower?
    ensures Next(s, step).writerPending && (Passing(At(Next(s, step), d)) ==> Passing(At(s, d)))
  {
  }

  /**
   * Writer priority, over every run: while the flag is up and no writer lowers
   * it, nobody gets to read who had not found it down before.
   */
  lemma {:induction false} ReadersBackOff(s: State, steps: seq<Step>, d: Cpu)
    requires s.writerPending && After(s, steps).Some?
    requires forall i :: 0 <= i < |steps| ==> !steps[i].Lower?
    ensures var t := After(s, steps).value; t.writerPending && (At(t, d).Reading? ==> Passing(At(s, d)))
    decreases |steps|
  {
    if steps == [] {
    } else {
      assert !steps[0].Lower?;
      StepBacksOff(s, steps[0], d);
      assert forall i :: 0 <= i < |steps[1..]| ==> steps[1..][i] == steps[i + 1];
      ReadersBackOff(Next(s, steps[0]), steps[1..], d);
    }
  }

  /** The flag is what the last step that touched it made of it, whoever took that step. */
  function Flag(up: bool, steps: seq<Step>): bool {
    if steps == [] then up
    else
      var last := steps[|steps| - 1];
      if last.Raise? then true else if last.Lower? then false else Flag(up, steps[..|steps| - 1])
  }

  lemma {:induction false} FlagExact(s: State, steps: seq<Step>)
    requires After(s, steps).Some?
    ensures After(s, steps).value.writerPending == Flag(s.writerPending, steps)
    decreases |steps|
  {
    if steps != [] {
      var n := |steps| - 1;
      var front, last := steps[..n], [steps[n]];
      assert steps == front + last;
      AfterFront(s, front, last);
      AfterJoin(s, front, last);
      FlagExact(s, front);
      var t := After(s, front).value;
      assert last[1..] == [];
      assert After(t, last) == if Enabled(t, steps[n]) then After(Next(t, steps[n]), []) else None;
    }
  }

  lemma {:induction false} AfterFront(s: State, a: seq<Step>, b: seq<Step>)
    requires After(s, a + b).Some?
    ensures After(s, a).Some?
    decreases |a|
  {
    if a == [] {
    } else {
      assert (a + b)[1..] == a[1..] + b;
      AfterFront(Next(s, a[0]), a[1..], b);
    }
  }

  /** So a writer that leaves takes the flag from one that still waits, and a reader gets in before that one. */
  lemma PriorityLost(a: Cpu, b: Cpu, c: Cpu) returns (run: seq<Step>, t: State)
    requires a != b && b != c && c != a
    ensures After(FREE, run) == Some(t) && At(t, b).Pending? && At(t, c).Reading? && !t.writerPending
    ensures exists i :: 0 <= i < |run| && run[i] == Lower(a)
  {
    var steps := [Raise(a), Seize(a, false), Raise(b), Store(a), Lower(a)];
    var s1 := Next(FREE, steps[0]);
    var s2 := Next(s1, steps[1]);
    var s3 := Next(s2, steps[2]);
    var s4 := Next(s3, steps[3]);
    var s5 := Next(s4, steps[4]);
    run := Extend(FREE, [], FREE, steps[0]);
    run := Extend(FREE, run, s1, steps[1]);
    run := Extend(FREE, run, s2, steps[2]);
    run := Extend(FREE, run, s3, steps[3]);
    run := Extend(FREE, run, s4, steps[4]);
    assert run[4] == Lower(a);
    var before := run;
    RunSound(FREE, run);
    var rest;
    rest, t := ReadEnters(s5, c);
    run := before + rest;
    AfterJoin(FREE, before, rest);
    assert run[4] == Lower(a);
  }
}
