// What normalising does to a path, one component at a time, without the component stack.
module PathLaws {
  import opened PathNames
  import opened Paths

  /** One more piece is one more step of the stack. */
  lemma StepFold(p: string, c: string, floor: nat)
    requires '/' !in c
    ensures Fold(Split(p + "/" + c), [], floor) == Push(Fold(Split(p), [], floor), c, floor)
  {
    SplitConcat(p, c);
    SplitPlain(c);
    FoldAppend(Split(p), [c], [], floor);
    var stack := Fold(Split(p), [], floor);
    assert [c][1..] == [];
    assert Fold([c], stack, floor) == Fold([], Push(stack, c, floor), floor);
  }

  lemma RenderRoot(absolute: bool, names: seq<string>)
    requires AllProper(names)
    ensures Render(absolute, names) == "/" <==> names == []
  {
    RenderNormal(absolute, names);
    assert Body("/") == "" && Split("") == [[]];
    if names != [] {
      assert names[0] in names;
    }
  }

  lemma RenderMore(absolute: bool, names: seq<string>, c: string)
    requires AllProper(names) && Proper(c)
    ensures Render(absolute, names + [c]) ==
            if names != [] then Render(absolute, names) + "/" + c else if absolute then "/" + c else c
  {
    var lead := if absolute then "/" else "";
    if names == [] {
      assert names + [c] == [c];
      assert absolute || lead + c == c;
    } else {
      RenderNormal(absolute, names);
      assert names[0] in names;
      JoinAppend(names, [c]);
      assert lead + (Join(names) + "/" + c) == lead + Join(names) + "/" + c;
      assert lead + Join(names) != "";
    }
  }

  /** The names a path comes to are proper. */
  lemma StackProper(p: string, floor: nat)
    ensures AllProper(Fold(Split(p), [], floor))
  {
    FoldStaysProper(Split(p), [], floor);
  }

  /** A path of one piece. */
  lemma OnePiece(c: string)
    requires '/' !in c
    ensures SlowNormalize(c) == if Proper(c) then c else "/"
  {
    SplitPlain(c);
    assert [c][1..] == [];
    assert Fold([c], [], 0) == Fold([], Push([], c, 0), 0);
    if Proper(c) {
      RenderMore(false, [], c);
      assert [] + [c] == [c];
    }
  }

  /** A slash at the end, or `.`, changes nothing. */
  lemma DotStays(p: string)
    ensures SlowNormalize(p + "/.") == SlowNormalize(p) == SlowNormalize(p + "/")
  {
    StepFold(p, ".", 0);
    StepFold(p, "", 0);
    assert p + "/" + "." == p + "/." && p + "/" + "" == p + "/";
    StackProper(p, 0);
    if p == "" {
      assert "/" + Join([]) == "/";
    }
  }

  /** A name goes behind what the path before it comes to. */
  lemma NameDescends(p: string, c: string)
    requires Proper(c)
    ensures var n := SlowNormalize(p);
            SlowNormalize(p + "/" + c) ==
            if n != "/" then n + "/" + c else if p == "" || p[0] == '/' then "/" + c else c
  {
    StepFold(p, c, 0);
    StackProper(p, 0);
    var names := Fold(Split(p), [], 0);
    RenderRoot(p != "" && p[0] == '/', names);
    RenderMore(p == "" || p[0] == '/', names, c);
  }

  /** `..` takes the last name away, and at the root it does nothing. */
  lemma DotsClimb(p: string)
    ensures var n, r := SlowNormalize(p), SlowNormalize(p + "/..");
            if n == "/" then r == "/"
            else exists c :: Proper(c) && (n == r + "/" + c || (r == "/" && (n == "/" + c || n == c)))
  {
    StepFold(p, "..", 0);
    assert p + "/" + ".." == p + "/..";
    StackProper(p, 0);
    var names, absolute := Fold(Split(p), [], 0), p != "" && p[0] == '/';
    RenderRoot(absolute, names);
    if names == [] {
      assert p == "" ==> SlowNormalize(p + "/..") == "/" + Join([]) == "/";
    } else {
      assert p != "";
      var k := |names| - 1;
      assert names == names[..k] + [names[k]] && names[k] in names;
      RenderMore(absolute, names[..k], names[k]);
      RenderRoot(absolute, names[..k]);
      assert Proper(names[k]);
    }
  }

  /** Down into a name and up again. */
  lemma DownAndUp(p: string, c: string)
    requires Proper(c)
    ensures SlowNormalize(p + "/" + c + "/..") == SlowNormalize(p)
  {
    StepFold(p, c, 0);
    StepFold(p + "/" + c, "..", 0);
    assert p + "/" + c + "/" + ".." == p + "/" + c + "/..";
    var names := Fold(Split(p), [], 0);
    assert (names + [c])[..|names|] == names;
    StackProper(p, 0);
    if p == "" {
      assert "/" + Join([]) == "/";
    }
  }

  /** There is nothing above the root. */
  lemma RootStays()
    ensures SlowNormalize("/..") == "/" && SlowNormalize("/") == "/" && SlowNormalize("") == "/"
  {
    DotStays("");
    OnePiece("");
    DotsClimb("");
    assert "" + "/.." == "/.." && "" + "/" == "/";
  }

  /** The path begins with the names of the root, so the stack never falls below them. */
  ghost predicate Inside(p: string, root: string) {
    RootNames(root) <= Names(Split(p))
  }

  lemma InsideStack(p: string, root: string)
    requires Inside(p, root)
    ensures JailedNames(p, root) == Fold(Split(p), [], |RootNames(root)|)
    ensures RootNames(root) <= JailedNames(p, root) && AllProper(JailedNames(p, root))
  {
    JailedExact(p, root);
    FoldBottom(Split(p), [], [], |RootNames(root)|);
    assert [] + Names(Split(p)) == Names(Split(p));
    StackProper(p, |RootNames(root)|);
  }

  lemma InsideMore(p: string, root: string, c: string)
    requires Inside(p, root) && '/' !in c
    ensures Inside(p + "/" + c, root)
  {
    SplitConcat(p, c);
    SplitPlain(c);
    NamesAppend(Split(p), [c]);
  }

  /** One more piece behind a path inside the jail. */
  lemma StepJailed(p: string, root: string, c: string)
    requires Inside(p, root) && '/' !in c
    ensures Inside(p + "/" + c, root)
    ensures JailedNames(p + "/" + c, root) == Push(JailedNames(p, root), c, |RootNames(root)|)
  {
    InsideMore(p, root, c);
    InsideStack(p, root);
    InsideStack(p + "/" + c, root);
    StepFold(p, c, |RootNames(root)|);
  }

  lemma JailedDotStays(p: string, root: string)
    requires Inside(p, root)
    ensures Jailed(p + "/.", root) == Jailed(p, root) == Jailed(p + "/", root)
  {
    StepJailed(p, root, ".");
    StepJailed(p, root, "");
    assert p + "/" + "." == p + "/." && p + "/" + "" == p + "/";
  }

  lemma JailedNameDescends(p: string, root: string, c: string)
    requires Inside(p, root) && Proper(c)
    ensures Jailed(p + "/" + c, root) == if Jailed(p, root) == "/" then "/" + c else Jailed(p, root) + "/" + c
  {
    StepJailed(p, root, c);
    InsideStack(p, root);
    RenderMore(true, JailedNames(p, root), c);
    RenderRoot(true, JailedNames(p, root));
  }

  lemma JailedDownAndUp(p: string, root: string, c: string)
    requires Inside(p, root) && Proper(c)
    ensures Jailed(p + "/" + c + "/..", root) == Jailed(p, root)
  {
    StepJailed(p, root, c);
    StepJailed(p + "/" + c, root, "..");
    InsideStack(p, root);
    assert p + "/" + c + "/" + ".." == p + "/" + c + "/..";
    assert (JailedNames(p, root) + [c])[..|JailedNames(p, root)|] == JailedNames(p, root);
  }

  /** A normal root is the path of its names. */
  lemma RootPath(root: string)
    requires Normal(root) && root[0] == '/'
    ensures root == "/" + Join(RootNames(root)) && AllProper(RootNames(root))
    ensures root == "/" ==> RootNames(root) == []
  {
    if root == "/" {
      var parts: seq<string> := [[], []];
      assert root[1..] == "" && Split(root) == parts;
      assert parts[1..] == [[]] && parts[1..][1..] == [];
      assert NonEmpty(parts[1..]) == NonEmpty(parts[1..][1..]) == [];
    } else {
      RootIsNames(root);
      JoinSplit(root[1..]);
      assert root == "/" + root[1..];
    }
  }

  lemma SameNames(a: seq<string>, b: seq<string>)
    requires AllProper(a) && AllProper(b) && "/" + Join(a) == "/" + Join(b)
    ensures a == b
  {
    RenderNormal(true, a);
    RenderNormal(true, b);
    RenderRoot(true, a);
    RenderRoot(true, b);
    assert Render(true, a) == "/" + Join(a) && Render(true, b) == "/" + Join(b);
  }

  /** Inside a jail `..` takes the last name away, and at the root of the jail it does nothing. */
  lemma JailedDotsClimb(p: string, root: string)
    requires Inside(p, root) && Normal(root) && root[0] == '/'
    ensures var n, r := Jailed(p, root), Jailed(p + "/..", root);
            if n == root then r == root
            else exists c :: Proper(c) && (n == r + "/" + c || (r == "/" && n == "/" + c))
  {
    StepJailed(p, root, "..");
    InsideStack(p, root);
    RootPath(root);
    assert p + "/" + ".." == p + "/..";
    var names, base := JailedNames(p, root), RootNames(root);
    if |names| > |base| {
      var k := |names| - 1;
      assert names == names[..k] + [names[k]] && names[k] in names;
      RenderMore(true, names[..k], names[k]);
      assert Proper(names[k]);
    } else {
      assert names == base;
    }
    if Jailed(p, root) == root {
      SameNames(names, base);
    }
  }

  /** The root of the jail resolves to itself, and so does what is above it. */
  lemma JailedRootStays(root: string)
    requires Normal(root) && root[0] == '/'
    ensures Jailed(root, root) == root && Jailed(root + "/..", root) == root
  {
    RootPath(root);
    if root == "/" {
      NormalFolds(root, 0);
    } else {
      RootIsNames(root);
      NormalFolds(root, |RootNames(root)|);
    }
    assert Inside(root, root) by {
      assert root != "/" ==> RootNames(root) == Names(Split(root));
    }
    JailedDotsClimb(root, root);
  }

  /** A path with fewer names than the root of the jail comes to that root. */
  lemma ShortIsRoot(p: string, root: string)
    requires Normal(root) && root[0] == '/' && |Names(Split(p))| < |RootNames(root)|
    ensures Jailed(p, root) == root
  {
    FoldBottom(Split(p), [], [], |RootNames(root)|);
    assert [] + Names(Split(p)) == Names(Split(p));
    RootPath(root);
  }
}
