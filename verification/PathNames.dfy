// Paths as lists of names: splitting, joining and the component stack of the normalisers.
module PathNames {

  /** A component that names something. */
  predicate Proper(c: string) {
    c != "" && c != "." && c != ".." && '/' !in c
  }

  ghost predicate AllProper(cs: seq<string>) {
    forall c :: c in cs ==> Proper(c)
  }

  /** The pieces between slashes; at least one. */
  function Split(s: string): (parts: seq<string>)
    ensures |parts| >= 1 && forall c :: c in parts ==> '/' !in c
  {
    if s == [] then [[]] else Prepend(s[0], Split(s[1..]))
  }

  /** One more character in front: a slash starts a new piece. */
  function Prepend(ch: char, parts: seq<string>): (r: seq<string>)
    requires parts != []
    ensures r != []
  {
    if ch == '/' then [[]] + parts else [[ch] + parts[0]] + parts[1..]
  }

  lemma PrependAppend(ch: char, a: seq<string>, b: seq<string>)
    requires a != []
    ensures Prepend(ch, a + b) == Prepend(ch, a) + b
  {
    assert (a + b)[0] == a[0] && (a + b)[1..] == a[1..] + b;
  }

  function Join(parts: seq<string>): string {
    if parts == [] then []
    else if |parts| == 1 then parts[0]
    else parts[0] + "/" + Join(parts[1..])
  }

  lemma {:induction false} SplitPlain(c: string)
    requires '/' !in c
    ensures Split(c) == [c]
  {
    if c == [] {
    } else {
      SplitPlain(c[1..]);
      assert c == [c[0]] + c[1..];
    }
  }

  lemma {:induction false} SplitConcat(a: string, b: string)
    ensures Split(a + "/" + b) == Split(a) + Split(b)
  {
    if a == [] {
      assert a + "/" + b == "/" + b;
      assert ("/" + b)[1..] == b;
    } else {
      SplitConcat(a[1..], b);
      var s := a + "/" + b;
      assert s[1..] == a[1..] + "/" + b && s[0] == a[0];
      PrependAppend(a[0], Split(a[1..]), Split(b));
    }
  }

  lemma {:induction false} SplitJoin(parts: seq<string>)
    requires parts != [] && forall c :: c in parts ==> '/' !in c
    ensures Split(Join(parts)) == parts
  {
    if |parts| == 1 {
      SplitPlain(parts[0]);
    } else {
      SplitJoin(parts[1..]);
      SplitConcat(parts[0], Join(parts[1..]));
      SplitPlain(parts[0]);
    }
  }

  lemma {:induction false} JoinSplit(s: string)
    ensures Join(Split(s)) == s
  {
    if s == [] {
    } else {
      JoinSplit(s[1..]);
      var rest := Split(s[1..]);
      assert s == [s[0]] + s[1..];
      if s[0] == '/' {
        assert ([[]] + rest)[1..] == rest;
      } else {
        var parts := [[s[0]] + rest[0]] + rest[1..];
        assert parts[1..] == rest[1..];
      }
    }
  }

  lemma {:induction false} JoinAppend(a: seq<string>, b: seq<string>)
    requires a != [] && b != []
    ensures Join(a + b) == Join(a) + "/" + Join(b)
  {
    if |a| == 1 {
      assert (a + b)[1..] == b;
    } else {
      JoinAppend(a[1..], b);
      assert (a + b)[1..] == a[1..] + b;
    }
  }

  /** The component stack: names are pushed, `..` pops down to `floor`, empty pieces and `.` do nothing. */
  function Fold(parts: seq<string>, stack: seq<string>, floor: nat): seq<string> {
    if parts == [] then stack
    else Fold(parts[1..], Push(stack, parts[0], floor), floor)
  }

  function Push(stack: seq<string>, c: string, floor: nat): seq<string> {
    if c == "" || c == "." then stack
    else if c == ".." then (if |stack| > floor then stack[..|stack| - 1] else stack)
    else stack + [c]
  }

  lemma {:induction false} FoldAppend(a: seq<string>, b: seq<string>, stack: seq<string>, floor: nat)
    ensures Fold(a + b, stack, floor) == Fold(b, Fold(a, stack, floor), floor)
  {
    if a == [] {
      assert a + b == b;
    } else {
      assert (a + b)[1..] == a[1..] + b;
      FoldAppend(a[1..], b, Push(stack, a[0], floor), floor);
    }
  }

  /** A list of names is pushed as it is. */
  lemma {:induction false} FoldProper(cs: seq<string>, stack: seq<string>, floor: nat)
    requires AllProper(cs)
    ensures Fold(cs, stack, floor) == stack + cs
  {
    if cs == [] {
    } else {
      assert cs[0] in cs;
      FoldProper(cs[1..], stack + [cs[0]], floor);
      assert stack + [cs[0]] + cs[1..] == stack + cs;
    }
  }

  lemma {:induction false} FoldStaysProper(parts: seq<string>, stack: seq<string>, floor: nat)
    requires AllProper(stack) && forall c :: c in parts ==> '/' !in c
    ensures AllProper(Fold(parts, stack, floor))
  {
    if parts == [] {
    } else {
      assert parts[0] in parts;
      FoldStaysProper(parts[1..], Push(stack, parts[0], floor), floor);
    }
  }

  /** The names among the pieces. */
  function Names(parts: seq<string>): seq<string> {
    if parts == [] then []
    else (if parts[0] == "" || parts[0] == "." || parts[0] == ".." then [] else [parts[0]]) + Names(parts[1..])
  }

  lemma {:induction false} NamesAppend(a: seq<string>, b: seq<string>)
    ensures Names(a + b) == Names(a) + Names(b)
  {
    if a == [] {
      assert a + b == b;
    } else {
      assert (a + b)[1..] == a[1..] + b;
      NamesAppend(a[1..], b);
    }
  }

  lemma {:induction false} NamesProper(cs: seq<string>)
    requires AllProper(cs)
    ensures Names(cs) == cs
  {
    if cs == [] {
    } else {
      assert cs[0] in cs;
      NamesProper(cs[1..]);
    }
  }

  /** What the stack looks like below the floor, given all names pushed so far. */
  ghost predicate Bottom(stack: seq<string>, all: seq<string>, floor: nat) {
    if |all| < floor then stack == all else floor <= |stack| && stack[..floor] == all[..floor]
  }

  lemma PushBottom(stack: seq<string>, all: seq<string>, c: string, floor: nat)
    requires Bottom(stack, all, floor)
    ensures Bottom(Push(stack, c, floor), all + Names([c]), floor)
  {
    var one := [c];
    var names := Names(one);
    assert one[0] == c && one[1..] == [] && Names(one[1..]) == [];
    if c == "" || c == "." || c == ".." {
      assert all + names == all;
      if c == ".." && |stack| > floor {
        assert stack[..|stack| - 1][..floor] == stack[..floor];
      }
    } else {
      assert names == [c];
      if |all| >= floor {
        assert (stack + [c])[..floor] == stack[..floor] && (all + [c])[..floor] == all[..floor];
      }
    }
  }

  /** With a floor, the first `floor` names stay at the bottom of the stack. */
  lemma {:induction false} FoldBottom(parts: seq<string>, stack: seq<string>, all: seq<string>, floor: nat)
    requires Bottom(stack, all, floor)
    ensures Bottom(Fold(parts, stack, floor), all + Names(parts), floor)
  {
    if parts == [] {
      assert all + Names(parts) == all;
    } else {
      PushBottom(stack, all, parts[0], floor);
      FoldBottom(parts[1..], Push(stack, parts[0], floor), all + Names([parts[0]]), floor);
      assert parts == [parts[0]] + parts[1..];
      NamesAppend([parts[0]], parts[1..]);
      assert all + Names([parts[0]]) + Names(parts[1..]) == all + Names(parts);
    }
  }
}
