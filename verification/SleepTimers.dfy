// The sleep timer list: one timer per task, latest deadline first.
module SleepTimers {

  datatype SleepTimer = SleepTimer(deadline: nat, pid: nat)

  ghost predicate Descending(s: seq<SleepTimer>) {
    forall i, j :: 0 <= i < j < |s| ==> s[i].deadline >= s[j].deadline
  }

  ghost predicate OnePerTask(s: seq<SleepTimer>) {
    forall i, j :: 0 <= i < j < |s| ==> s[i].pid != s[j].pid
  }

  /** The timers of other tasks. */
  function Retain(s: seq<SleepTimer>, pid: nat): (r: seq<SleepTimer>)
    ensures forall t :: t in r <==> t in s && t.pid != pid
    ensures OnePerTask(s) ==> OnePerTask(r)
    ensures Descending(s) ==> Descending(r)
  {
    if s == [] then []
    else
      var last, rest := s[|s| - 1], Retain(s[..|s| - 1], pid);
      assert forall t :: t in s <==> t in s[..|s| - 1] || t == last;
      if last.pid == pid then rest else rest + [last]
  }

  /** A timer put behind all that are due no earlier. */
  function Insert(s: seq<SleepTimer>, t: SleepTimer): (r: seq<SleepTimer>)
    ensures forall x :: x in r <==> x in s || x == t
  {
    if s == [] || s[|s| - 1].deadline >= t.deadline then s + [t]
    else
      var last, rest := s[|s| - 1], Insert(s[..|s| - 1], t);
      assert forall x :: x in s <==> x in s[..|s| - 1] || x == last;
      rest + [last]
  }

  lemma {:induction false} InsertDescends(s: seq<SleepTimer>, t: SleepTimer)
    requires Descending(s)
    ensures Descending(Insert(s, t))
  {
    if s != [] && s[|s| - 1].deadline < t.deadline {
      var last, rest := s[|s| - 1], Insert(s[..|s| - 1], t);
      InsertDescends(s[..|s| - 1], t);
      forall i | 0 <= i < |rest| ensures rest[i].deadline >= last.deadline {
        assert rest[i] in rest;
      }
    }
  }

  lemma {:induction false} InsertCounts(s: seq<SleepTimer>, t: SleepTimer)
    ensures multiset(Insert(s, t)) == multiset(s) + multiset{t}
  {
    if s == [] {
    } else {
      assert s == s[..|s| - 1] + [s[|s| - 1]];
      InsertCounts(s[..|s| - 1], t);
    }
  }

  /** A stable sort by descending deadline. */
  function SortByDeadline(s: seq<SleepTimer>): (r: seq<SleepTimer>)
    ensures Descending(r) && multiset(r) == multiset(s)
  {
    if s == [] then []
    else
      var last, rest := s[|s| - 1], SortByDeadline(s[..|s| - 1]);
      assert s == s[..|s| - 1] + [last];
      InsertCounts(rest, last);
      InsertDescends(rest, last);
      Insert(rest, last)
  }

  lemma SortMembers(s: seq<SleepTimer>)
    ensures forall t :: t in SortByDeadline(s) <==> t in s
  {
    forall t ensures t in SortByDeadline(s) <==> t in s {
      assert t in multiset(SortByDeadline(s)) <==> t in multiset(s);
    }
  }

  /** Sorting moves timers about and keeps one per task. */
  lemma SortKeeps(s: seq<SleepTimer>)
    requires OnePerTask(s)
    ensures OnePerTask(SortByDeadline(s)) && forall t :: t in SortByDeadline(s) <==> t in s
  {
    var r := SortByDeadline(s);
    SortMembers(s);
    forall i, j | 0 <= i < j < |r| ensures r[i].pid != r[j].pid {
      assert r[i] in s && r[j] in s;
      if r[i] == r[j] {
        Twice(r, i, j);
        Once(s, r[i]);
      }
    }
  }

  lemma Twice(s: seq<SleepTimer>, i: nat, j: nat)
    requires i < j < |s| && s[i] == s[j]
    ensures multiset(s)[s[i]] >= 2
  {
    assert s == s[..j] + [s[j]] + s[j + 1..];
    assert s[..j][i] == s[i];
  }

  lemma {:induction false} Once(s: seq<SleepTimer>, t: SleepTimer)
    requires OnePerTask(s)
    ensures multiset(s)[t] <= 1
  {
    if s == [] {
    } else {
      var last := s[|s| - 1];
      assert s == s[..|s| - 1] + [last];
      Once(s[..|s| - 1], t);
      assert last !in s[..|s| - 1];
    }
  }
}
