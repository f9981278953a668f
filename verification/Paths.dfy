// Path normalisation, with and without a jail, and the resolution of relative paths.
module Paths {
  import opened PathNames

  /** An absolute path of names, or a relative one. */
  function Render(absolute: bool, names: seq<string>): string {
    var s := (if absolute then "/" else "") + Join(names);
    if s == "" then "/" else s
  }

  function Body(path: string): string {
    if path != "" && path[0] == '/' then path[1..] else path
  }

  /** The root, or names separated by single slashes. */
  ghost predicate Normal(path: string) {
    path == "/" || (path != "" && AllProper(Split(Body(path))))
  }

  /** The general way to normalise. */
  function SlowNormalize(path: string): string {
    Render(path != "" && path[0] == '/', Fold(Split(path), [], 0))
  }

  /** A normal path is its own list of names. */
  lemma NormalFolds(path: string, floor: nat)
    requires Normal(path)
    ensures path == "/" ==> Fold(Split(path), [], floor) == []
    ensures path != "/" ==> Fold(Split(path), [], floor) == Split(Body(path)) && Join(Split(Body(path))) == Body(path)
    ensures path != "/" ==> AllProper(Split(Body(path))) && Body(path) != ""
  {
    if path == "/" {
      assert path[1..] == "";
      var parts: seq<string> := [[], []];
      assert Split(path) == parts;
      assert parts[1..] == [[]] && parts[1..][1..] == [];
      assert Fold(parts[1..], [], floor) == Fold([], [], floor) == [];
    } else {
      var names := Split(Body(path));
      JoinSplit(Body(path));
      FoldProper(names, [], floor);
      assert [] + names == names;
      if path[0] == '/' {
        assert Split(path) == [[]] + names;
        assert ([[]] + names)[1..] == names;
      }
      assert names[0] in names;
    }
  }

  /** The fast path is the slow path. */
  lemma FastIsSlow(path: string)
    requires Normal(path)
    ensures SlowNormalize(path) == path
  {
    NormalFolds(path, 0);
    if path == "/" {
      assert "/" + "" == "/";
    } else if path[0] == '/' {
      assert path == "/" + path[1..];
    } else {
      assert "" + path == path;
    }
  }

  lemma RenderNormal(absolute: bool, names: seq<string>)
    requires AllProper(names)
    ensures Normal(Render(absolute, names))
    ensures names != [] ==> Split(Body(Render(absolute, names))) == names
  {
    if names == [] {
      assert "/" + "" == "/";
    } else {
      SplitJoin(names);
      var j, r := Join(names), Render(absolute, names);
      assert names[0] in names;
      assert j != "" && j[0] != '/';
      if absolute {
        assert r == "/" + j && r[1..] == j;
      } else {
        assert r == "" + j == j;
      }
    }
  }

  /** Normalising yields a normal path, and changes nothing the second time. */
  lemma NormalizeLaws(path: string)
    ensures Normal(SlowNormalize(path)) && SlowNormalize(SlowNormalize(path)) == SlowNormalize(path)
  {
    var names := Fold(Split(path), [], 0);
    FoldStaysProper(Split(path), [], 0);
    RenderNormal(path != "" && path[0] == '/', names);
    FastIsSlow(SlowNormalize(path));
  }

  lemma {:induction false} SplitAt(s: string, k: nat)
    requires k <= |s| && '/' !in s[..k] && (k < |s| ==> s[k] == '/')
    ensures Split(s) == [s[..k]] + if k < |s| then Split(s[k + 1..]) else []
  {
    SplitPlain(s[..k]);
    if k < |s| {
      assert s == s[..k] + "/" + s[k + 1..];
      SplitConcat(s[..k], s[k + 1..]);
    } else {
      assert s[..k] == s;
    }
  }

  /** `is_normalized`: one scan over the characters. */
  method IsNormalized(path: string) returns (normal: bool)
    ensures normal <==> Normal(path)
  {
    if path == "" {
      return false;
    }
    if path == "/" {
      return true;
    }
    var len := |path|;
    if len > 1 && path[len - 1] == '/' {
      TrailingSlash(path);
      return false;
    }
    var i := if path[0] == '/' then 1 else 0;
    assert path[i..] == Body(path);
    while i < len
      invariant 0 <= i <= len
      invariant if i < len then AllProper(Split(path[i..])) <==> AllProper(Split(Body(path)))
                else AllProper(Split(Body(path)))
    {
      var start := i;
      i := ComponentEnd(path, start);
      NextComponent(path, start, i);
      var comp := path[start..i];
      if comp == "" || comp == "." || comp == ".." {
        return false;
      }
      if i < len {
        i := i + 1;
      }
    }
    return true;
  }

  method ComponentEnd(path: string, start: nat) returns (i: nat)
    requires start <= |path|
    ensures start <= i <= |path| && '/' !in path[start..i] && (i < |path| ==> path[i] == '/')
  {
    i := start;
    while i < |path| && path[i] != '/'
      invariant start <= i <= |path| && '/' !in path[start..i]
    {
      i := i + 1;
    }
  }

  lemma NextComponent(path: string, start: nat, i: nat)
    requires start <= i <= |path| && '/' !in path[start..i] && (i < |path| ==> path[i] == '/')
    ensures AllProper(Split(path[start..])) <==>
              Proper(path[start..i]) && (i < |path| ==> AllProper(Split(path[i + 1..])))
  {
    var s, k := path[start..], i - start;
    assert s[..k] == path[start..i];
    SplitAt(s, k);
    if i < |path| {
      assert s[k + 1..] == path[i + 1..];
      assert forall c :: c in Split(s) <==> c == s[..k] || c in Split(path[i + 1..]);
    } else {
      assert Split(s) == [s[..k]];
    }
  }

  lemma TrailingSlash(path: string)
    requires |path| > 1 && path[|path| - 1] == '/'
    ensures !AllProper(Split(Body(path)))
  {
    var b := Body(path);
    var front := b[..|b| - 1];
    assert b == front + "/" + "";
    SplitConcat(front, "");
    assert Split("") == [[]];
    assert "" in Split(b);
  }

  /** The strings are appended one by one, with slashes in between. */
  method Assemble(prefix: string, names: seq<string>) returns (s: string)
    ensures s == prefix + Join(names)
  {
    s := prefix;
    var i := 0;
    assert names[..0] == [];
    while i < |names|
      invariant 0 <= i <= |names| && s == prefix + Join(names[..i])
    {
      if i > 0 {
        JoinAppend(names[..i], [names[i]]);
        s := s + "/";
      }
      assert names[..i + 1] == names[..i] + [names[i]];
      s := s + names[i];
      i := i + 1;
    }
    assert names[..i] == names;
  }

  /** The loop over the pieces with its stack. */
  method Collect(parts: seq<string>, floor: nat) returns (stack: seq<string>)
    ensures stack == Fold(parts, [], floor)
  {
    stack := [];
    var i := 0;
    assert parts[0..] == parts;
    while i < |parts|
      invariant 0 <= i <= |parts| && Fold(parts, [], floor) == Fold(parts[i..], stack, floor)
    {
      var c := parts[i];
      assert parts[i..][0] == c && parts[i..][1..] == parts[i + 1..];
      if c == "" || c == "." {
      } else if c == ".." {
        if |stack| > floor {
          stack := stack[..|stack| - 1];
        }
      } else {
        stack := stack + [c];
      }
      i := i + 1;
    }
    assert parts[i..] == [];
  }

  /** `normalize`. */
  method Normalize(path: string) returns (r: string)
    ensures r == SlowNormalize(path) && Normal(r)
  {
    NormalizeLaws(path);
    var fast := IsNormalized(path);
    if fast {
      FastIsSlow(path);
      return path;
    }
    var names := Collect(Split(path), 0);
    r := Assemble(if path != "" && path[0] == '/' then "/" else "", names);
    if r == "" {
      r := "/";
    }
  }

  /** The non-empty pieces of a root directory. */
  function RootNames(root: string): seq<string> {
    NonEmpty(Split(root))
  }

  function NonEmpty(parts: seq<string>): seq<string> {
    if parts == [] then []
    else (if parts[0] == "" then [] else [parts[0]]) + NonEmpty(parts[1..])
  }

  lemma {:induction false} NonEmptyProper(cs: seq<string>)
    requires AllProper(cs)
    ensures NonEmpty(cs) == cs
  {
    if cs == [] {
    } else {
      assert cs[0] in cs;
      NonEmptyProper(cs[1..]);
    }
  }

  /** The names of a path normalised inside a jail. */
  function JailedNames(path: string, root: string): seq<string> {
    var base := RootNames(root);
    var names := Fold(Split(path), [], |base|);
    if |names| < |base| then base else names
  }

  /** A path normalised inside a jail. */
  function Jailed(path: string, root: string): string {
    "/" + Join(JailedNames(path, root))
  }

  /** `normalize_jailed`. */
  method NormalizeJailed(path: string, root: string) returns (r: string)
    ensures r == Jailed(path, root)
  {
    var base := RootNames(root);
    var names := Collect(Split(path), |base|);
    if |names| < |base| {
      names := base;
    }
    r := Assemble("/", names);
  }

  /** The jail holds exactly when the path has fewer names than the root, or begins with the root's names. */
  lemma JailedExact(path: string, root: string)
    ensures var base, names := RootNames(root), Names(Split(path));
            base <= JailedNames(path, root) <==> |names| < |base| || base <= names
  {
    var base, names := RootNames(root), Names(Split(path));
    FoldBottom(Split(path), [], [], |base|);
    assert [] + names == names;
    var f := Fold(Split(path), [], |base|);
    if |names| >= |base| {
      assert base <= f <==> f[..|base|] == base;
      assert base <= names <==> names[..|base|] == base;
    }
  }

  /** `join`. */
  function JoinPath(base: string, name: string): string {
    if name != "" && name[0] == '/' then name
    else if base != "" && base[|base| - 1] == '/' then base + name
    else base + "/" + name
  }

  /** A slash between the directory and the path is not missed where the directory ends in one. */
  lemma SlashMore(cwd: string, path: string)
    requires Normal(cwd) && cwd[0] == '/' && (path == "" || path[0] != '/')
    ensures SlowNormalize(JoinPath(cwd, path)) == SlowNormalize(cwd + "/" + path)
  {
    if cwd == "/" {
      var more := "/" + path;
      assert cwd + "/" + path == "/" + more && cwd + path == more;
      assert ("/" + more)[1..] == more && Split("/" + more) == [[]] + Split(more);
      assert ([[]] + Split(more))[1..] == Split(more);
    } else {
      NoTrailingSlash(cwd);
    }
  }

  /** `resolve_relative_path` without a jail. */
  method ResolveFree(cwd: string, path: string) returns (r: string)
    requires Normal(cwd) && cwd[0] == '/'
    ensures r == SlowNormalize(if path != "" && path[0] == '/' then path else cwd + "/" + path)
  {
    if path != "" && path[0] == '/' {
      r := Normalize(path);
      return;
    }
    SlashMore(cwd, path);
    var normal := IsNormalized(path);
    if !normal {
      r := Normalize(JoinPath(cwd, path));
      return;
    }
    r := AppendPath(cwd, path);
    NormalJoin(cwd, path);
    FastIsSlow(r);
  }

  /** A normal path put behind the directory, without normalising. */
  method AppendPath(cwd: string, path: string) returns (r: string)
    requires cwd != "" && path != "" && path[0] != '/'
    ensures r == JoinPath(cwd, path)
  {
    if cwd == "/" {
      return "/" + path;
    }
    var extra := cwd[|cwd| - 1] != '/';
    r := cwd;
    if extra {
      r := r + "/";
    }
    r := r + path;
  }

  /** A normal path has no slash at its end, unless it is the root. */
  lemma NoTrailingSlash(path: string)
    requires Normal(path) && path != "/"
    ensures path[|path| - 1] != '/'
  {
    if path[|path| - 1] == '/' {
      TrailingSlash(path);
    }
  }

  /** A normal relative path below a normal directory is normal as it stands. */
  lemma NormalJoin(cwd: string, path: string)
    requires Normal(cwd) && cwd[0] == '/' && Normal(path) && path[0] != '/'
    ensures Normal(JoinPath(cwd, path))
  {
    var full := JoinPath(cwd, path);
    if cwd == "/" {
      assert full == "/" + path && full[1..] == path;
    } else {
      NoTrailingSlash(cwd);
      assert full == cwd + "/" + path && full[1..] == cwd[1..] + "/" + path;
      SplitConcat(cwd[1..], path);
    }
  }

  /** A directory below the root of the jail, or that root; all three are normal and absolute. */
  ghost predicate Below(dir: string, root: string) {
    && Normal(root) && root != "/" && root[0] == '/' && Normal(dir) && dir != "/" && dir[0] == '/'
    && Split(root[1..]) <= Split(dir[1..])
  }

  /** The path starts with the root of the jail already. */
  predicate IsPrefixed(path: string, root: string) {
    path == root || (root <= path && ((root != "" && root[|root| - 1] == '/') || (|root| < |path|
      && path[|root|] == '/')))
  }

  /** The path that is normalised inside the jail. */
  function FullPath(cwd: string, root: string, path: string): string {
    if IsPrefixed(path, root) then path
    else if path == "/" then root
    else if path != "" && path[0] == '/' then root + path
    else JoinPath(cwd, path)
  }

  /** A slash at the end changes nothing. */
  lemma SlashLast(path: string, root: string)
    ensures Jailed(path + "/", root) == Jailed(path, root)
  {
    assert path + "/" + "" == path + "/";
    SplitConcat(path, "");
    var last: seq<string> := [[]];
    assert Split("") == last && last[1..] == [];
    FoldAppend(Split(path), last, [], |RootNames(root)|);
  }

  /** The jailed normaliser gets the path itself below the root, else the path behind the root or the directory. */
  lemma FullPathMeans(cwd: string, root: string, path: string)
    requires Below(cwd, root)
    ensures Jailed(FullPath(cwd, root, path), root) ==
            Jailed(if path == root || root + "/" <= path then path
                   else if path != "" && path[0] == '/' then root + path
                   else cwd + "/" + path, root)
  {
    NoTrailingSlash(root);
    NoTrailingSlash(cwd);
    SlashLast(root, root);
    assert IsPrefixed(path, root) <==> path == root || root + "/" <= path by {
      if root <= path && |root| < |path| && path[|root|] == '/' {
        assert path[..|root| + 1] == root + "/";
      }
    }
  }

  /** `resolve_relative_path` with a jail. */
  method ResolveJailed(cwd: string, root: string, path: string) returns (r: string)
    requires Below(cwd, root)
    ensures r == Jailed(if path == root || root + "/" <= path then path
                        else if path != "" && path[0] == '/' then root + path
                        else cwd + "/" + path, root)
    ensures Normal(r) && Below(r, root)
  {
    JailHolds(cwd, root, path);
    FullPathMeans(cwd, root, path);
    if path == root || (root <= path && ((root != "" && root[|root| - 1] == '/') || (|root| < |path|
      && path[|root|] == '/'))) {
      r := NormalizeJailed(path, root);
      return;
    }
    var full;
    if path != "" && path[0] == '/' {
      full := if path == "/" then root else root + path;
    } else {
      full := JoinPath(cwd, path);
    }
    r := NormalizeJailed(full, root);
  }

  lemma RootIsNames(root: string)
    requires Normal(root) && root != "/" && root[0] == '/'
    ensures RootNames(root) == Names(Split(root)) == Split(root[1..]) && AllProper(Split(root[1..]))
  {
    var names := Split(root[1..]);
    assert Split(root) == [[]] + names;
    NonEmptyProper(names);
    NamesProper(names);
    assert ([[]] + names)[1..] == names;
  }

  /** Names behind a directory come after the directory's names. */
  lemma NamesBehind(dir: string, rest: string)
    requires Normal(dir) && dir != "/" && dir[0] == '/'
    ensures Names(Split(dir + "/" + rest)) == Split(dir[1..]) + Names(Split(rest))
  {
    SplitConcat(dir, rest);
    NamesAppend(Split(dir), Split(rest));
    RootIsNames(dir);
  }

  /** Every path handed to the jailed normaliser begins with the names of the root. */
  lemma FullPathInside(cwd: string, root: string, path: string)
    requires Below(cwd, root)
    ensures RootNames(root) <= Names(Split(FullPath(cwd, root, path)))
  {
    RootIsNames(root);
    RootIsNames(cwd);
    NoTrailingSlash(root);
    NoTrailingSlash(cwd);
    var full := FullPath(cwd, root, path);
    if full != root {
      if IsPrefixed(path, root) {
        assert full == root + "/" + path[|root| + 1..];
        NamesBehind(root, path[|root| + 1..]);
      } else if path != "" && path[0] == '/' {
        assert full == root + "/" + path[1..];
        NamesBehind(root, path[1..]);
      } else {
        assert full == cwd + "/" + path;
        NamesBehind(cwd, path);
      }
    }
  }

  /** Whatever the path, the result is normal and below the root. */
  lemma JailHolds(cwd: string, root: string, path: string)
    requires Below(cwd, root)
    ensures var r := Jailed(FullPath(cwd, root, path), root);
            Normal(r) && Below(r, root)
  {
    var full := FullPath(cwd, root, path);
    var names := JailedNames(full, root);
    FullPathInside(cwd, root, path);
    JailedExact(full, root);
    RootIsNames(root);
    FoldStaysProper(Split(full), [], |RootNames(root)|);
    assert AllProper(names) && RootNames(root) <= names && names != [];
    RenderNormal(true, names);
    assert Render(true, names) == "/" + Join(names);
    assert Join(names) == Body("/" + Join(names)) == ("/" + Join(names))[1..];
  }

  lemma LongerPrefixed(root: string, dir: string, tail: string)
    requires dir == root + "/" + tail
    ensures IsPrefixed(dir, root)
  {
    assert root <= dir && dir[|root|] == '/';
  }

  lemma JoinLonger(base: seq<string>, rest: seq<string>, root: string, dir: string)
    requires base != [] && rest != [] && root == "/" + Join(base) && dir == "/" + Join(base + rest)
    ensures dir == root + "/" + Join(rest)
  {
    JoinAppend(base, rest);
    var a, b := Join(base), Join(rest);
    assert "/" + (a + "/" + b) == "/" + a + "/" + b;
  }

  lemma NamesPrefixed(base: seq<string>, names: seq<string>, root: string, dir: string)
    requires base != [] && base <= names && root == "/" + Join(base) && dir == "/" + Join(names)
    ensures IsPrefixed(dir, root)
  {
    if |names| > |base| {
      var rest := names[|base|..];
      assert names == base + rest;
      JoinLonger(base, rest, root, dir);
      LongerPrefixed(root, dir, Join(rest));
    } else {
      assert names == base;
    }
  }

  lemma BelowPrefixed(root: string, dir: string)
    requires Below(dir, root)
    ensures IsPrefixed(dir, root)
  {
    JoinSplit(root[1..]);
    JoinSplit(dir[1..]);
    assert dir == "/" + dir[1..] && root == "/" + root[1..];
    NamesPrefixed(Split(root[1..]), Split(dir[1..]), root, dir);
  }

  /** A path that has been resolved resolves to itself, whatever the working directory. */
  lemma ResolveAgain(cwd: string, root: string, dir: string)
    requires Below(dir, root)
    ensures Jailed(FullPath(cwd, root, dir), root) == dir
  {
    BelowPrefixed(root, dir);
    RootIsNames(root);
    NormalFolds(dir, |RootNames(root)|);
    assert dir == "/" + dir[1..];
  }

  lemma OneName(c: string)
    requires Proper(c)
    ensures Normal("/" + c) && Split(("/" + c)[1..]) == [c]
  {
    assert ("/" + c)[1..] == c;
    SplitPlain(c);
  }

  /** The normaliser alone does not keep a path inside: `/b` leaves the root `/a`. */
  lemma JailNeedsPrefix(a: string, b: string)
    requires Proper(a) && Proper(b) && a != b
    ensures !(RootNames("/" + a) <= JailedNames("/" + b, "/" + a))
  {
    OneName(a);
    OneName(b);
    RootIsNames("/" + a);
    RootIsNames("/" + b);
    JailedExact("/" + b, "/" + a);
    assert [a][0] != [b][0];
  }
}
