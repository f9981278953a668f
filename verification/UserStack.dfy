// The initial stack of a user program: argc, argv, envp, the auxiliary vector and their strings.
module UserStack {
  import opened Bytes
  import opened Wrappers

  const USER_STACK_TOP: nat := 0x0000_7FFF_FFFF_0000
  const MAX_STACK_INIT_SIZE: nat := 512 * 1024
  const AUXV_COUNT: nat := 15
  const PAGE: nat := 4096

  datatype Errno = E2BIG

  /** What the auxiliary vector tells about the program. */
  datatype Program = Program(entryPoint: nat, phdr: nat, phnum: nat, phent: nat, interpreterBase: nat)

  /** Strings one after the other, each with its terminating zero. */
  function Block(strs: seq<seq<byte>>): seq<byte> {
    if strs == [] then [] else strs[0] + [0] + Block(strs[1..])
  }

  /** Words one after the other, lowest byte first. */
  function WordBytes(words: seq<nat>): (s: seq<byte>)
    ensures |s| == 8 * |words|
  {
    if words == [] then [] else LittleEndian(words[0], 8) + WordBytes(words[1..])
  }

  /** Where string `i` starts in the block. */
  function Offset(strs: seq<seq<byte>>, i: nat): nat
    requires i <= |strs|
  {
    if i == 0 then 0 else |strs[0]| + 1 + Offset(strs[1..], i - 1)
  }

  lemma {:induction false} OffsetWithin(strs: seq<seq<byte>>, i: nat)
    requires i < |strs|
    ensures Offset(strs, i) + |strs[i]| + 1 <= |Block(strs)|
  {
    if i > 0 {
      OffsetWithin(strs[1..], i - 1);
    }
  }

  /** The zero behind string `i`. */
  lemma {:induction false} BlockZero(strs: seq<seq<byte>>, i: nat)
    requires i < |strs|
    ensures Offset(strs, i) + |strs[i]| < |Block(strs)| && Block(strs)[Offset(strs, i) + |strs[i]|] == 0
  {
    if i == 0 {
    } else {
      BlockZero(strs[1..], i - 1);
    }
  }

  /** A string of the block reads back as it was. */
  lemma {:induction false} BlockReads(strs: seq<seq<byte>>, i: nat, rest: seq<byte>)
    requires i < |strs|
    ensures Offset(strs, i) <= |Block(strs)| && CString((Block(strs) + rest)[Offset(strs, i)..]) == CString(strs[i])
  {
    var head, tail := strs[0] + [0], Block(strs[1..]);
    if i == 0 {
      assert (Block(strs) + rest)[0..] == strs[0] + [0] + (tail + rest);
      CStringReads(strs[0], tail + rest);
    } else {
      BlockReads(strs[1..], i - 1, rest);
      var o := Offset(strs[1..], i - 1);
      assert Block(strs) + rest == head + (tail + rest);
      assert (head + (tail + rest))[|head| + o..] == (tail + rest)[o..];
    }
  }

  /** The word at a position. */
  function WordAt(s: seq<byte>, pos: nat): nat
    requires pos + 8 <= |s|
  {
    Value(s[pos..pos + 8])
  }

  ghost predicate AllWords(words: seq<nat>) {
    words == [] || (words[0] < WORD && AllWords(words[1..]))
  }

  lemma {:induction false} AllWordsAppend(a: seq<nat>, b: seq<nat>)
    requires AllWords(a) && AllWords(b)
    ensures AllWords(a + b)
  {
    if a == [] {
      assert a + b == b;
    } else {
      AllWordsAppend(a[1..], b);
      assert (a + b)[1..] == a[1..] + b;
    }
  }

  lemma {:induction false} WordsRead(words: seq<nat>, i: nat)
    requires AllWords(words) && i < |words|
    ensures WordAt(WordBytes(words), 8 * i) == words[i]
  {
    var head, tail := LittleEndian(words[0], 8), WordBytes(words[1..]);
    if i == 0 {
      assert (head + tail)[0..8] == head;
      PowerWord();
      LittleEndianValue(words[0], 8);
    } else {
      WordsRead(words[1..], i - 1);
      assert (head + tail)[8 * i..8 * i + 8] == tail[8 * (i - 1)..8 * (i - 1) + 8];
    }
  }

  lemma BlockCons(str: seq<byte>, rest: seq<seq<byte>>)
    ensures Block([str] + rest) == str + [0] + Block(rest)
  {
    assert ([str] + rest)[1..] == rest;
  }

  /** The addresses of the strings of a block that starts at `at`. */
  function Addresses(strs: seq<seq<byte>>, at: nat): (r: seq<nat>)
    ensures |r| == |strs|
  {
    if strs == [] then [] else [at] + Addresses(strs[1..], at + |strs[0]| + 1)
  }

  lemma {:induction false} AddressAt(strs: seq<seq<byte>>, at: nat, i: nat)
    requires i < |strs|
    ensures Addresses(strs, at)[i] == at + Offset(strs, i)
  {
    if i > 0 {
      AddressAt(strs[1..], at + |strs[0]| + 1, i - 1);
    }
  }

  lemma AddressCons(str: seq<byte>, rest: seq<seq<byte>>, at: nat, next: nat, addresses: seq<nat>)
    requires at + |str| + 1 == next && addresses == Addresses(rest, next)
    ensures [at] + addresses == Addresses([str] + rest, at)
  {
    assert ([str] + rest)[1..] == rest;
  }

  /** The next string fits below the block, and makes it one string longer. */
  lemma NextString(strs: seq<seq<byte>>, i: nat, rest: seq<seq<byte>>, pos: nat, top: nat)
    requires i < |strs| && rest == strs[i + 1..] && pos + |Block(rest)| == top && |Block(strs)| <= top
    ensures [strs[i]] + rest == strs[i..] && Block([strs[i]] + rest) == strs[i] + [0] + Block(rest)
    ensures |strs[i]| + 1 <= pos
  {
    assert [strs[i]] + rest == strs[i..];
    BlockTails(strs);
    BlockCons(strs[i], rest);
  }

  /** Copy the strings below `top`, the last one first; returns where the first one starts, and all addresses. */
  method CopyStrings(buf: array<byte>, strs: seq<seq<byte>>, top: nat, base: nat)
    returns (pos: nat, addresses: seq<nat>)
    requires |Block(strs)| <= top <= buf.Length
    modifies buf
    ensures pos + |Block(strs)| == top && buf[..] == Splice(old(buf[..]), pos, Block(strs))
    ensures addresses == Addresses(strs, base + pos)
  {
    pos, addresses := top, [];
    var i := |strs|;
    ghost var rest, block: seq<byte> := strs[i..], [];
    while 0 < i
      invariant 0 <= i <= |strs| && pos + |block| == top && rest == strs[i..]
      invariant block == Block(rest) && buf[..] == Splice(old(buf[..]), pos, block)
      invariant addresses == Addresses(rest, base + pos)
    {
      i := i - 1;
      ghost var end := pos;
      NextString(strs, i, rest, pos, top);
      pos := CopyOne(buf, strs[i] + [0], pos, old(buf[..]), block);
      AddressCons(strs[i], rest, base + pos, base + end, addresses);
      addresses := [base + pos] + addresses;
      block, rest := strs[i] + [0] + block, [strs[i]] + rest;
    }
    assert rest == strs;
  }

  /** Put `piece` right below `after`, which starts at `end`. */
  method CopyOne(buf: array<byte>, piece: seq<byte>, end: nat, ghost was: seq<byte>, ghost after: seq<byte>)
    returns (pos: nat)
    requires |was| == buf.Length && |piece| <= end && end + |after| <= |was| && buf[..] == Splice(was, end, after)
    modifies buf
    ensures pos + |piece| == end && buf[..] == Splice(was, pos, piece + after)
  {
    pos := end - |piece|;
    SpliceBelow(was, pos, piece, after);
    PutBytes(buf, pos, piece);
  }

  lemma {:induction false} BlockTails(strs: seq<seq<byte>>)
    ensures forall i :: 0 <= i <= |strs| ==> |Block(strs[i..])| <= |Block(strs)|
  {
    if strs == [] {
    } else {
      BlockTails(strs[1..]);
      forall i | 0 <= i <= |strs| ensures |Block(strs[i..])| <= |Block(strs)| {
        if i > 0 {
          assert strs[i..] == strs[1..][i - 1..];
        } else {
          assert strs[0..] == strs;
        }
      }
    }
  }

  /** Write words from `pos` on. */
  method WriteWords(buf: array<byte>, words: seq<nat>, pos: nat)
    requires pos + 8 * |words| <= buf.Length
    modifies buf
    ensures buf[..] == Splice(old(buf[..]), pos, WordBytes(words))
  {
    var i := 0;
    assert words[..0] == [];
    while i < |words|
      invariant 0 <= i <= |words| && buf[..] == Splice(old(buf[..]), pos, WordBytes(words[..i]))
    {
      ghost var was := old(buf[..]);
      WordsSnoc(words, i);
      SpliceBelow(was, pos, WordBytes(words[..i]), LittleEndian(words[i], 8));
      PutBytes(buf, pos + 8 * i, LittleEndian(words[i], 8));
      i := i + 1;
    }
    assert words[..i] == words;
  }

  lemma {:induction false} WordsSnoc(words: seq<nat>, i: nat)
    requires i < |words|
    ensures WordBytes(words[..i + 1]) == WordBytes(words[..i]) + LittleEndian(words[i], 8)
    decreases i
  {
    var a, b := words[..i], words[..i + 1];
    if i == 0 {
      assert b == [words[0]] && b[1..] == [];
    } else {
      WordsSnoc(words[1..], i - 1);
      assert a[1..] == words[1..][..i - 1] && b[1..] == words[1..][..i];
      assert a[0] == b[0] == words[0] && words[1..][i - 1] == words[i];
    }
  }

  datatype StackInit = StackInit(userSp: nat, stackBuf: seq<byte>, baseVaddr: nat)

  datatype Aux = Aux(kind: nat, value: nat)

  function Auxv(p: Program, random: nat, execFn: nat): (a: seq<Aux>)
    ensures |a| == AUXV_COUNT
  {
    [Aux(3, p.phdr), Aux(4, p.phent), Aux(5, p.phnum), Aux(6, 4096), Aux(7, p.interpreterBase),
     Aux(9, p.entryPoint), Aux(11, 0), Aux(12, 0), Aux(13, 0), Aux(14, 0), Aux(17, 100), Aux(23, 0),
     Aux(25, random), Aux(31, execFn), Aux(0, 0)]
  }

  function AuxWords(a: seq<Aux>): (w: seq<nat>)
    ensures |w| == 2 * |a|
  {
    if a == [] then [] else [a[0].kind, a[0].value] + AuxWords(a[1..])
  }

  /** The words of the table at the stack pointer. */
  function Table(argv: seq<nat>, envp: seq<nat>, aux: seq<Aux>): (w: seq<nat>)
    ensures |w| == 3 + |argv| + |envp| + 2 * |aux|
    ensures w[0] == |argv| && w[1..1 + |argv|] == argv && w[1 + |argv|] == 0
    ensures w[2 + |argv|..2 + |argv| + |envp|] == envp && w[2 + |argv| + |envp|] == 0
    ensures w[3 + |argv| + |envp|..] == AuxWords(aux)
  {
    [|argv|] + argv + [0] + envp + [0] + AuxWords(aux)
  }

  /** The strings to be passed, and the random bytes. */
  datatype Input = Input(argv: seq<seq<byte>>, envp: seq<seq<byte>>, random: seq<byte>)

  function Required(argv: seq<seq<byte>>, envp: seq<seq<byte>>): nat {
    16 + (|Block(envp)| + |Block(argv)|) + (8 + |argv| * 8 + 8 + |envp| * 8 + 8 + AUXV_COUNT * 16) + 16
  }

  ghost predicate FitsWords(p: Program) {
    p.entryPoint < WORD && p.phdr < WORD && p.phnum < WORD && p.phent < WORD && p.interpreterBase < WORD
  }

  /** Positions in the buffer: the table, then the argument strings, the environment, and the random bytes. */
  datatype Layout = Layout(size: nat, table: nat, args: nat, envs: nat)

  ghost predicate Fits(l: Layout, x: Input, words: seq<nat>) {
    && l.table + 8 * |words| <= l.args
    && l.args + |Block(x.argv)| == l.envs && l.envs + |Block(x.envp)| + 16 == l.size
  }

  /** The buffer holds the words at the table and all strings behind it. */
  ghost predicate Filled(buf: seq<byte>, l: Layout, x: Input, words: seq<nat>) {
    && Fits(l, x, words) && |buf| == l.size && |x.random| == 16
    && buf[l.table..l.table + 8 * |words|] == WordBytes(words)
    && buf[l.args..] == Block(x.argv) + (Block(x.envp) + x.random)
  }

  lemma FilledWord(buf: seq<byte>, lo: nat, part: seq<byte>, n: nat, k: nat)
    requires lo + 8 * n <= |buf| && buf[lo..lo + 8 * n] == part && k < n
    ensures |part| == 8 * n && WordAt(buf, lo + 8 * k) == WordAt(part, 8 * k)
  {
    SubSlice(buf, lo, 8 * n, 8 * k, 8);
  }

  /** The bytes from `lo` on begin with a block: string `i` of the block is there, with its zero. */
  lemma BlockAt(buf: seq<byte>, lo: nat, strs: seq<seq<byte>>, rest: seq<byte>, i: nat)
    requires lo <= |buf| && buf[lo..] == Block(strs) + rest && i < |strs|
    ensures lo + Offset(strs, i) < |buf| && 0 in buf[lo + Offset(strs, i)..]
    ensures CString(buf[lo + Offset(strs, i)..]) == CString(strs[i])
  {
    BlockReads(strs, i, rest);
    OffsetWithin(strs, i);
    BlockZero(strs, i);
    var o := Offset(strs, i);
    assert buf[lo..][o..] == buf[lo + o..];
    assert buf[lo..][o + |strs[i]|] == 0;
    assert buf[lo + o..][|strs[i]|] == 0;
  }

  lemma FilledArg(buf: seq<byte>, l: Layout, x: Input, words: seq<nat>, i: nat)
    requires Filled(buf, l, x, words) && i < |x.argv|
    ensures l.args + Offset(x.argv, i) < |buf| && 0 in buf[l.args + Offset(x.argv, i)..]
    ensures CString(buf[l.args + Offset(x.argv, i)..]) == CString(x.argv[i])
  {
    BlockAt(buf, l.args, x.argv, Block(x.envp) + x.random, i);
  }

  lemma FilledEnv(buf: seq<byte>, l: Layout, x: Input, words: seq<nat>, i: nat)
    requires Filled(buf, l, x, words) && i < |x.envp|
    ensures l.envs + Offset(x.envp, i) < |buf| && 0 in buf[l.envs + Offset(x.envp, i)..]
    ensures CString(buf[l.envs + Offset(x.envp, i)..]) == CString(x.envp[i])
  {
    var all, n := buf[l.args..], |Block(x.argv)|;
    assert all[n..] == Block(x.envp) + x.random && all[n..] == buf[l.envs..];
    BlockAt(buf, l.envs, x.envp, x.random, i);
  }

  /** Reading word `k` above the stack pointer, if it is in the buffer. */
  function StackWord(s: StackInit, k: nat): Option<nat> {
    if s.baseVaddr <= s.userSp && s.userSp - s.baseVaddr + 8 * k + 8 <= |s.stackBuf| then
      Some(WordAt(s.stackBuf, s.userSp - s.baseVaddr + 8 * k))
    else None
  }

  /** Following a pointer to a string that ends inside the buffer. */
  function StringAt(s: StackInit, address: nat): Option<seq<byte>> {
    if s.baseVaddr <= address < s.baseVaddr + |s.stackBuf| && 0 in s.stackBuf[address - s.baseVaddr..] then
      Some(CString(s.stackBuf[address - s.baseVaddr..]))
    else None
  }

  /** Word `k` points to a string at or above `floor`. */
  ghost predicate PointsTo(s: StackInit, k: nat, floor: nat, str: seq<byte>) {
    StackWord(s, k).Some? && floor <= StackWord(s, k).value && StringAt(s, StackWord(s, k).value) == Some(str)
  }

  /** Where the table of a stack ends. */
  function TableEnd(s: StackInit, x: Input, aux: seq<Aux>): nat {
    s.userSp + 8 * (3 + |x.argv| + |x.envp| + 2 * |aux|)
  }

  /** The stack as section 3.4.1 of the System V AMD64 ABI has it; strings and random bytes lie above the table. */
  ghost predicate Conforms(s: StackInit, x: Input, aux: seq<Aux>) {
    var a, e, end := |x.argv|, |x.envp|, TableEnd(s, x, aux);
    && s.userSp % 16 == 0 && s.baseVaddr + |s.stackBuf| == USER_STACK_TOP && s.baseVaddr <= s.userSp
    && StackWord(s, 0) == Some(a)
    && PointersAt(s, 1, end, x.argv) && StackWord(s, 1 + a) == Some(0)
    && PointersAt(s, 2 + a, end, x.envp) && StackWord(s, 2 + a + e) == Some(0)
    && AuxvAt(s, 3 + a + e, aux)
    && end <= USER_STACK_TOP - 16 && RandomAt(s, USER_STACK_TOP - 16, x.random)
  }

  /** The program's name: the first argument, if there is one. */
  function ExecFn(s: StackInit, argc: nat): nat {
    if argc == 0 || StackWord(s, 1).None? then 0 else StackWord(s, 1).value
  }

  /** From word `k` on there are pointers to the strings, each up to its first zero. */
  ghost predicate PointersAt(s: StackInit, k: nat, floor: nat, strs: seq<seq<byte>>)
    decreases |strs|
  {
    strs == [] || (PointsTo(s, k, floor, CString(strs[0])) && PointersAt(s, k + 1, floor, strs[1..]))
  }

  ghost predicate PointerAt(s: StackInit, k: nat, floor: nat, strs: seq<seq<byte>>, i: nat) {
    i < |strs| && PointsTo(s, k + i, floor, CString(strs[i]))
  }

  lemma {:induction false} PointersIntro(s: StackInit, k: nat, floor: nat, strs: seq<seq<byte>>)
    requires forall i: nat :: i < |strs| ==> PointerAt(s, k, floor, strs, i)
    ensures PointersAt(s, k, floor, strs)
    decreases |strs|
  {
    if strs == [] {
    } else {
      var next, rest := k + 1, strs[1..];
      assert PointerAt(s, k, floor, strs, 0);
      forall i: nat | i < |rest| ensures PointerAt(s, next, floor, rest, i) {
        assert PointerAt(s, k, floor, strs, i + 1);
      }
      PointersIntro(s, next, floor, rest);
    }
  }

  /** Word `m` points to string `i` of the list. */
  lemma {:induction false} PointersElim(s: StackInit, k: nat, floor: nat, strs: seq<seq<byte>>, i: nat, m: nat)
    requires PointersAt(s, k, floor, strs) && i < |strs| && m == k + i
    ensures PointsTo(s, m, floor, CString(strs[i]))
    decreases |strs|
  {
    if i == 0 {
    } else {
      PointersElim(s, k + 1, floor, strs[1..], i - 1, m);
    }
  }

  /** A string without zeros is read back exactly. */
  lemma PointerExact(s: StackInit, k: nat, floor: nat, strs: seq<seq<byte>>, i: nat)
    requires PointersAt(s, k, floor, strs) && i < |strs| && 0 !in strs[i]
    ensures PointsTo(s, k + i, floor, strs[i])
  {
    PointersElim(s, k, floor, strs, i, k + i);
    CStringExact(strs[i]);
  }

  lemma ArgExact(s: StackInit, x: Input, aux: seq<Aux>, i: nat)
    requires Conforms(s, x, aux) && i < |x.argv| && 0 !in x.argv[i]
    ensures PointsTo(s, 1 + i, TableEnd(s, x, aux), x.argv[i])
  {
    PointerExact(s, 1, TableEnd(s, x, aux), x.argv, i);
  }

  lemma EnvExact(s: StackInit, x: Input, aux: seq<Aux>, i: nat, k: nat)
    requires Conforms(s, x, aux) && i < |x.envp| && 0 !in x.envp[i] && k == 2 + |x.argv|
    ensures PointsTo(s, k + i, TableEnd(s, x, aux), x.envp[i])
  {
    var end := TableEnd(s, x, aux);
    assert PointersAt(s, k, end, x.envp);
    PointerExact(s, k, end, x.envp, i);
  }

  /** From word `k` on there are the entries of the auxiliary vector. */
  ghost predicate AuxvAt(s: StackInit, k: nat, aux: seq<Aux>)
    decreases |aux|
  {
    || aux == []
    || (StackWord(s, k) == Some(aux[0].kind) && StackWord(s, k + 1) == Some(aux[0].value) && AuxvAt(s, k + 2, aux[1..]))
  }

  ghost predicate RandomAt(s: StackInit, address: nat, random: seq<byte>) {
    s.baseVaddr <= address && address + 16 <= s.baseVaddr + |s.stackBuf|
    && s.stackBuf[address - s.baseVaddr..address - s.baseVaddr + 16] == random
  }

  /** The stack is in the buffer, with `words` at the stack pointer. */
  ghost predicate Stacked(s: StackInit, l: Layout, x: Input, words: seq<nat>) {
    && s.baseVaddr + |s.stackBuf| == USER_STACK_TOP && s.userSp == s.baseVaddr + l.table && AllWords(words)
    && Filled(s.stackBuf, l, x, words)
  }

  lemma StackedWord(s: StackInit, l: Layout, x: Input, words: seq<nat>, k: nat)
    requires Stacked(s, l, x, words) && k < |words|
    ensures StackWord(s, k) == Some(words[k])
  {
    WordsRead(words, k);
    FilledWord(s.stackBuf, l.table, WordBytes(words), |words|, k);
  }

  lemma ArgString(s: StackInit, l: Layout, x: Input, words: seq<nat>, i: nat, p: nat)
    requires Stacked(s, l, x, words) && i < |x.argv| && p == s.baseVaddr + l.args + Offset(x.argv, i)
    ensures StringAt(s, p) == Some(CString(x.argv[i])) && s.userSp + 8 * |words| <= p
  {
    FilledArg(s.stackBuf, l, x, words, i);
  }

  lemma EnvString(s: StackInit, l: Layout, x: Input, words: seq<nat>, i: nat, p: nat)
    requires Stacked(s, l, x, words) && i < |x.envp| && p == s.baseVaddr + l.envs + Offset(x.envp, i)
    ensures StringAt(s, p) == Some(CString(x.envp[i])) && s.userSp + 8 * |words| <= p
  {
    FilledEnv(s.stackBuf, l, x, words, i);
  }

  lemma {:induction false} StackedAux(s: StackInit, l: Layout, x: Input, words: seq<nat>, k: nat, aux: seq<Aux>)
    requires Stacked(s, l, x, words) && k + 2 * |aux| == |words| && words[k..] == AuxWords(aux)
    ensures AuxvAt(s, k, aux)
    decreases |aux|
  {
    if aux == [] {
    } else {
      var tail := words[k..];
      StackedWord(s, l, x, words, k);
      StackedWord(s, l, x, words, k + 1);
      assert tail[0] == words[k] && tail[1] == words[k + 1];
      assert words[k + 2..] == tail[2..] == AuxWords(aux[1..]);
      StackedAux(s, l, x, words, k + 2, aux[1..]);
    }
  }

  lemma StackedRandom(s: StackInit, l: Layout, x: Input, words: seq<nat>)
    requires Stacked(s, l, x, words)
    ensures RandomAt(s, USER_STACK_TOP - 16, x.random) && s.userSp + 8 * |words| <= USER_STACK_TOP - 16
  {
    var all := s.stackBuf[l.args..];
    assert all[|all| - 16..] == x.random;
    assert all[|all| - 16..] == s.stackBuf[l.size - 16..l.size];
  }

  /** Word `k + i` of the table is pointer `i` of a list that starts at word `k`. */
  lemma StackedPointer(s: StackInit, l: Layout, x: Input, words: seq<nat>, k: nat, pointers: seq<nat>, i: nat)
    requires Stacked(s, l, x, words) && k + |pointers| <= |words| && i < |pointers|
    requires words[k..k + |pointers|] == pointers
    ensures StackWord(s, k + i) == Some(pointers[i])
  {
    StackedWord(s, l, x, words, k + i);
    assert words[k + i] == words[k..k + |pointers|][i];
  }

  lemma ArgPointers(s: StackInit, l: Layout, x: Input, words: seq<nat>, floor: nat)
    requires Stacked(s, l, x, words) && 1 + |x.argv| <= |words| && floor == s.userSp + 8 * |words|
    requires words[1..1 + |x.argv|] == Addresses(x.argv, s.baseVaddr + l.args)
    ensures PointersAt(s, 1, floor, x.argv)
  {
    forall i: nat | i < |x.argv| ensures PointerAt(s, 1, floor, x.argv, i) {
      StackedPointer(s, l, x, words, 1, Addresses(x.argv, s.baseVaddr + l.args), i);
      AddressAt(x.argv, s.baseVaddr + l.args, i);
      ArgString(s, l, x, words, i, Addresses(x.argv, s.baseVaddr + l.args)[i]);
    }
    PointersIntro(s, 1, floor, x.argv);
  }

  lemma EnvPointers(s: StackInit, l: Layout, x: Input, words: seq<nat>, k: nat, floor: nat)
    requires Stacked(s, l, x, words) && k + |x.envp| <= |words| && floor == s.userSp + 8 * |words|
    requires words[k..k + |x.envp|] == Addresses(x.envp, s.baseVaddr + l.envs)
    ensures PointersAt(s, k, floor, x.envp)
  {
    forall i: nat | i < |x.envp| ensures PointerAt(s, k, floor, x.envp, i) {
      StackedPointer(s, l, x, words, k, Addresses(x.envp, s.baseVaddr + l.envs), i);
      AddressAt(x.envp, s.baseVaddr + l.envs, i);
      EnvString(s, l, x, words, i, Addresses(x.envp, s.baseVaddr + l.envs)[i]);
    }
    PointersIntro(s, k, floor, x.envp);
  }

  /** What the table says. */
  datatype Plan = Plan(argvAt: seq<nat>, envpAt: seq<nat>, aux: seq<Aux>)

  function Words(plan: Plan): (w: seq<nat>)
    ensures |w| == 3 + |plan.argvAt| + |plan.envpAt| + 2 * |plan.aux|
  {
    Table(plan.argvAt, plan.envpAt, plan.aux)
  }

  /** The table points to the strings of the buffer. */
  ghost predicate Pointed(plan: Plan, base: nat, args: nat, envs: nat, x: Input) {
    plan.argvAt == Addresses(x.argv, base + args) && plan.envpAt == Addresses(x.envp, base + envs)
  }

  ghost predicate Tabled(s: StackInit, l: Layout, x: Input, plan: Plan, words: seq<nat>) {
    Stacked(s, l, x, words) && words == Words(plan) && Pointed(plan, s.baseVaddr, l.args, l.envs, x)
  }

  lemma TabledArgs(s: StackInit, l: Layout, x: Input, plan: Plan, words: seq<nat>)
    requires Tabled(s, l, x, plan, words)
    ensures PointersAt(s, 1, TableEnd(s, x, plan.aux), x.argv)
  {
    ArgPointers(s, l, x, words, TableEnd(s, x, plan.aux));
  }

  lemma TabledEnvs(s: StackInit, l: Layout, x: Input, plan: Plan, words: seq<nat>)
    requires Tabled(s, l, x, plan, words)
    ensures PointersAt(s, 2 + |x.argv|, TableEnd(s, x, plan.aux), x.envp)
  {
    EnvPointers(s, l, x, words, 2 + |x.argv|, TableEnd(s, x, plan.aux));
  }

  lemma TabledAux(s: StackInit, l: Layout, x: Input, plan: Plan, words: seq<nat>)
    requires Tabled(s, l, x, plan, words)
    ensures AuxvAt(s, 3 + |x.argv| + |x.envp|, plan.aux)
  {
    StackedAux(s, l, x, words, 3 + |x.argv| + |x.envp|, plan.aux);
  }

  /** The fixed words of the table. */
  lemma StackedFixed(s: StackInit, l: Layout, x: Input, plan: Plan, words: seq<nat>)
    requires Tabled(s, l, x, plan, words)
    ensures StackWord(s, 0) == Some(|x.argv|) && StackWord(s, 1 + |x.argv|) == Some(0)
    ensures StackWord(s, 2 + |x.argv| + |x.envp|) == Some(0) && ExecFn(s, |x.argv|) == FirstOf(plan.argvAt)
  {
    StackedWord(s, l, x, words, 0);
    StackedWord(s, l, x, words, 1 + |x.argv|);
    StackedWord(s, l, x, words, 2 + |x.argv| + |x.envp|);
    if plan.argvAt != [] {
      StackedPointer(s, l, x, words, 1, plan.argvAt, 0);
    }
  }

  function FirstOf(addresses: seq<nat>): nat {
    if addresses == [] then 0 else addresses[0]
  }

  lemma TabledConforms(s: StackInit, l: Layout, x: Input, plan: Plan, words: seq<nat>)
    requires s.userSp % 16 == 0 && Tabled(s, l, x, plan, words)
    ensures Conforms(s, x, plan.aux) && ExecFn(s, |x.argv|) == FirstOf(plan.argvAt)
  {
    TabledArgs(s, l, x, plan, words);
    TabledEnvs(s, l, x, plan, words);
    TabledAux(s, l, x, plan, words);
    StackedFixed(s, l, x, plan, words);
    StackedRandom(s, l, x, words);
  }

  lemma {:induction false} AddressesBelow(strs: seq<seq<byte>>, at: nat)
    requires at + |Block(strs)| <= USER_STACK_TOP
    ensures AllWords(Addresses(strs, at))
  {
    if strs == [] {
    } else {
      AddressesBelow(strs[1..], at + |strs[0]| + 1);
    }
  }

  lemma {:induction false} AuxBelow(aux: seq<Aux>)
    requires forall x :: x in aux ==> x.kind < WORD && x.value < WORD
    ensures AllWords(AuxWords(aux))
  {
    if aux == [] {
    } else {
      assert aux[0] in aux;
      AuxBelow(aux[1..]);
      AllWordsAppend([aux[0].kind, aux[0].value], AuxWords(aux[1..]));
    }
  }

  lemma TableBelow(argvAt: seq<nat>, envpAt: seq<nat>, aux: seq<Aux>)
    requires |argvAt| < WORD && AllWords(argvAt) && AllWords(envpAt) && AllWords(AuxWords(aux))
    ensures AllWords(Table(argvAt, envpAt, aux))
  {
    var w1 := [|argvAt|] + argvAt;
    AllWordsAppend([|argvAt|], argvAt);
    AllWordsAppend(w1, [0]);
    AllWordsAppend(w1 + [0], envpAt);
    AllWordsAppend(w1 + [0] + envpAt, [0]);
    AllWordsAppend(w1 + [0] + envpAt + [0], AuxWords(aux));
  }

  lemma PointersBelow(x: Input, plan: Plan, base: nat, args: nat, envs: nat)
    requires base + args + |Block(x.argv)| <= USER_STACK_TOP && base + envs + |Block(x.envp)| <= USER_STACK_TOP
    requires Pointed(plan, base, args, envs, x) && |x.argv| < WORD && AllWords(AuxWords(plan.aux))
    ensures AllWords(Words(plan))
  {
    AddressesBelow(x.argv, base + args);
    AddressesBelow(x.envp, base + envs);
    TableBelow(plan.argvAt, plan.envpAt, plan.aux);
  }

  /** How a C library looks up `tag` from word `k` on: the first entry of that kind before kind 0. */
  function GetAuxval(s: StackInit, k: nat, tag: nat): Option<nat>
    decreases |s.stackBuf| - 8 * k
  {
    if StackWord(s, k).None? || StackWord(s, k) == Some(0) then None
    else if StackWord(s, k) == Some(tag) then StackWord(s, k + 1)
    else GetAuxval(s, k + 2, tag)
  }

  lemma {:induction false} AuxvalFound(s: StackInit, k: nat, aux: seq<Aux>, i: nat)
    requires AuxvAt(s, k, aux) && i < |aux| && aux[i].kind != 0
    requires forall j :: 0 <= j < i ==> aux[j].kind != 0 && aux[j].kind != aux[i].kind
    ensures GetAuxval(s, k, aux[i].kind) == Some(aux[i].value)
    decreases i
  {
    if i > 0 {
      AuxvalFound(s, k + 2, aux[1..], i - 1);
    }
  }

  /** What the program finds under each tag, from AT_PHDR (3) to AT_EXECFN (31), in the vector from word `k` on. */
  ghost predicate AuxvTells(s: StackInit, k: nat, p: Program, random: nat, execFn: nat) {
    && GetAuxval(s, k, 3) == Some(p.phdr) && GetAuxval(s, k, 4) == Some(p.phent)
    && GetAuxval(s, k, 5) == Some(p.phnum) && GetAuxval(s, k, 6) == Some(4096)
    && GetAuxval(s, k, 7) == Some(p.interpreterBase) && GetAuxval(s, k, 9) == Some(p.entryPoint)
    && (forall tag :: 11 <= tag <= 14 ==> GetAuxval(s, k, tag) == Some(0))
    && GetAuxval(s, k, 17) == Some(100) && GetAuxval(s, k, 23) == Some(0)
    && GetAuxval(s, k, 25) == Some(random) && GetAuxval(s, k, 31) == Some(execFn)
  }

  /** The auxiliary vector on the stack answers every lookup. */
  lemma AuxvAnswers(s: StackInit, k: nat, p: Program, random: nat, execFn: nat)
    requires AuxvAt(s, k, Auxv(p, random, execFn))
    ensures AuxvTells(s, k, p, random, execFn)
  {
    var aux := Auxv(p, random, execFn);
    forall i | 0 <= i < 14 ensures GetAuxval(s, k, aux[i].kind) == Some(aux[i].value) {
      AuxvalFound(s, k, aux, i);
    }
    assert aux[0].kind == 3 && aux[1].kind == 4 && aux[2].kind == 5 && aux[3].kind == 6 && aux[4].kind == 7;
    assert aux[5].kind == 9 && aux[10].kind == 17 && aux[11].kind == 23 && aux[12].kind == 25 && aux[13].kind == 31;
    forall tag | 11 <= tag <= 14 ensures GetAuxval(s, k, tag) == Some(0) {
      assert aux[tag - 5] == Aux(tag, 0);
    }
  }

  /** The lookups in the vector behind the pointers: the random bytes are at the top, the name is the first argument. */
  ghost predicate Tells(s: StackInit, x: Input, p: Program) {
    AuxvTells(s, 3 + |x.argv| + |x.envp|, p, USER_STACK_TOP - 16, ExecFn(s, |x.argv|))
  }

  lemma TellsAll(s: StackInit, x: Input, p: Program, k: nat)
    requires AuxvAt(s, k, Auxv(p, USER_STACK_TOP - 16, ExecFn(s, |x.argv|))) && k == 3 + |x.argv| + |x.envp|
    ensures Tells(s, x, p)
  {
    AuxvAnswers(s, k, p, USER_STACK_TOP - 16, ExecFn(s, |x.argv|));
  }

  lemma ConformsAux(s: StackInit, x: Input, aux: seq<Aux>, k: nat)
    requires Conforms(s, x, aux) && k == 3 + |x.argv| + |x.envp|
    ensures AuxvAt(s, k, aux)
  {
  }

  lemma StackTells(s: StackInit, x: Input, p: Program)
    requires Conforms(s, x, Auxv(p, USER_STACK_TOP - 16, ExecFn(s, |x.argv|)))
    ensures Tells(s, x, p)
  {
    var k := 3 + |x.argv| + |x.envp|;
    ConformsAux(s, x, Auxv(p, USER_STACK_TOP - 16, ExecFn(s, |x.argv|)), k);
    TellsAll(s, x, p, k);
  }

  method TotalBytes(strs: seq<seq<byte>>) returns (n: nat)
    ensures n == |Block(strs)|
  {
    n := 0;
    var i := |strs|;
    ghost var rest := strs[i..];
    while 0 < i
      invariant 0 <= i <= |strs| && rest == strs[i..] && n == |Block(rest)|
    {
      i := i - 1;
      BlockCons(strs[i], rest);
      n := n + |strs[i]| + 1;
      rest := [strs[i]] + rest;
    }
    assert rest == strs;
  }

  /** `construct_user_stack`: too big is refused, everything else reads back as it was given. */
  method ConstructUserStack(argv: seq<seq<byte>>, envp: seq<seq<byte>>, p: Program, random: seq<byte>)
    returns (res: Result<StackInit, Errno>)
    requires |random| == 16 && FitsWords(p)
    ensures res.Err? <==> Required(argv, envp) > MAX_STACK_INIT_SIZE
    ensures res.Ok? ==> Conforms(res.value, Input(argv, envp, random),
                                 Auxv(p, USER_STACK_TOP - 16, ExecFn(res.value, |argv|)))
    // what the program finds: the random bytes at the top, its name at the first argument
    ensures res.Ok? ==> Tells(res.value, Input(argv, envp, random), p)
    // whole pages, no more than needed, and no gap that alignment does not need
    ensures res.Ok? ==> var size := |res.value.stackBuf|;
                        size % 4096 == 0 && Required(argv, envp) <= size < Required(argv, envp) + 4096
    ensures res.Ok? ==> Packed(res.value, Input(argv, envp, random),
                               Auxv(p, USER_STACK_TOP - 16, ExecFn(res.value, |argv|)))
  {
    var envBytes := TotalBytes(envp);
    var argBytes := TotalBytes(argv);
    var ptrsSize := 8 + |argv| * 8 + 8 + |envp| * 8 + 8 + AUXV_COUNT * 16;
    var required := 16 + (envBytes + argBytes) + ptrsSize + 16;
    if required > MAX_STACK_INIT_SIZE {
      return Err(E2BIG);
    }
    var bufSize := (required + 4095) / PAGE * PAGE;
    var stack := FillStack(Input(argv, envp, random), p, bufSize);
    StackTells(stack, Input(argv, envp, random), p);
    return Ok(stack);
  }

  lemma AuxvBelow(p: Program, at: nat, exec: nat)
    requires FitsWords(p) && at < WORD && exec < WORD
    ensures AllWords(AuxWords(Auxv(p, at, exec)))
  {
    var aux := Auxv(p, at, exec);
    forall j | 0 <= j < |aux| ensures aux[j].kind < WORD && aux[j].value < WORD {
    }
    AuxBelow(aux);
  }

  /** The first `n` bytes are zero. */
  ghost predicate Blank(buf: seq<byte>, n: nat) {
    forall i :: 0 <= i < n && i < |buf| ==> buf[i] == 0
  }

  lemma BlankBelow(zeros: seq<byte>, args: nat, envs: nat, x: Input)
    requires |x.random| == 16 && args + |Block(x.argv)| == envs && envs + |Block(x.envp)| + 16 == |zeros|
    requires Blank(zeros, |zeros|)
    ensures Blank(Splice(Splice(Splice(zeros, |zeros| - 16, x.random), envs, Block(x.envp)), args, Block(x.argv)), args)
  {
  }

  /** The strings and the random bytes, from the top down. */
  method FillStrings(buf: array<byte>, x: Input, base: nat)
    returns (args: nat, envs: nat, argvAt: seq<nat>, envpAt: seq<nat>)
    requires |x.random| == 16 && 16 + |Block(x.envp)| + |Block(x.argv)| <= buf.Length && Blank(buf[..], buf.Length)
    modifies buf
    ensures argvAt == Addresses(x.argv, base + args) && envpAt == Addresses(x.envp, base + envs)
    ensures Strung(buf[..], args, envs, x) && Blank(buf[..], args)
  {
    ghost var zeros := buf[..];
    PutBytes(buf, buf.Length - 16, x.random);
    envs, envpAt := CopyStrings(buf, x.envp, buf.Length - 16, base);
    args, argvAt := CopyStrings(buf, x.argv, envs, base);
    StrungAll(zeros, args, envs, x);
    BlankBelow(zeros, args, envs, x);
  }

  /** The strings and the random bytes are at the end of the buffer. */
  ghost predicate Strung(buf: seq<byte>, args: nat, envs: nat, x: Input) {
    && |x.random| == 16 && args + |Block(x.argv)| == envs && envs + |Block(x.envp)| + 16 == |buf|
    && buf[args..] == Block(x.argv) + (Block(x.envp) + x.random)
  }

  lemma StrungAll(zeros: seq<byte>, args: nat, envs: nat, x: Input)
    requires |x.random| == 16 && args + |Block(x.argv)| == envs && envs + |Block(x.envp)| + 16 == |zeros|
    ensures Strung(Splice(Splice(Splice(zeros, |zeros| - 16, x.random), envs, Block(x.envp)), args, Block(x.argv)),
                   args, envs, x)
  {
    SpliceBelow(zeros, envs, Block(x.envp), x.random);
    SpliceBelow(zeros, args, Block(x.argv), Block(x.envp) + x.random);
    var all := Block(x.argv) + (Block(x.envp) + x.random);
    var strings := Splice(zeros, args, all);
    assert strings[args..] == strings[args..args + |all|];
  }

  /** The table below the strings, at the highest aligned position. */
  method FillTable(buf: array<byte>, words: seq<nat>, args: nat) returns (rsp: nat)
    requires 8 * |words| <= args <= buf.Length
    modifies buf
    ensures rsp % 16 == 0 && rsp + 8 * |words| <= args < rsp + 8 * |words| + 16
    ensures buf[..] == Splice(old(buf[..]), rsp, WordBytes(words))
  {
    rsp := (args - 8 * |words|) / 16 * 16;
    WriteWords(buf, words, rsp);
  }

  lemma FillsUp(strings: seq<byte>, l: Layout, x: Input, words: seq<nat>)
    requires |strings| == l.size && Strung(strings, l.args, l.envs, x) && l.table + 8 * |words| <= l.args
    ensures Filled(Splice(strings, l.table, WordBytes(words)), l, x, words)
  {
    var bytes := WordBytes(words);
    SpliceTail(strings, l.table, bytes, l.args);
    assert l.table + |bytes| == l.table + 8 * |words|;
  }

  /** What has been written is a conforming stack. */
  lemma Finish(stack: StackInit, strings: seq<byte>, l: Layout, x: Input, plan: Plan, words: seq<nat>)
    requires |strings| == l.size && Strung(strings, l.args, l.envs, x) && AllWords(words)
    requires Pointed(plan, stack.baseVaddr, l.args, l.envs, x)
    requires words == Words(plan) && l.table + 8 * |words| <= l.args
    requires stack.stackBuf == Splice(strings, l.table, WordBytes(words))
    requires stack.baseVaddr + l.size == USER_STACK_TOP
    requires stack.userSp == stack.baseVaddr + l.table && stack.userSp % 16 == 0
    ensures Conforms(stack, x, plan.aux) && ExecFn(stack, |x.argv|) == FirstOf(plan.argvAt)
  {
    FillsUp(strings, l, x, words);
    TabledConforms(stack, l, x, plan, words);
  }

  lemma SumAligned(a: nat, b: nat)
    requires a % 16 == 0 && b % 16 == 0
    ensures (a + b) % 16 == 0
  {
  }

  /** The table ends less than 16 bytes below the strings, and all bytes that nothing was written to are zero. */
  ghost predicate Packed(s: StackInit, x: Input, aux: seq<Aux>) {
    var end, first := TableEnd(s, x, aux), USER_STACK_TOP - 16 - |Block(x.envp)| - |Block(x.argv)|;
    && end <= first < end + 16
    && forall i :: 0 <= i < |s.stackBuf| && (s.baseVaddr + i < s.userSp || end <= s.baseVaddr + i < first) ==>
         s.stackBuf[i] == 0
  }

  lemma Packs(s: StackInit, strings: seq<byte>, args: nat, envs: nat, x: Input, plan: Plan, words: seq<nat>)
    requires Strung(strings, args, envs, x) && Blank(strings, args) && words == Words(plan)
    requires |plan.argvAt| == |x.argv| && |plan.envpAt| == |x.envp|
    requires s.baseVaddr + |strings| == USER_STACK_TOP && s.baseVaddr <= s.userSp
    requires var rsp := s.userSp - s.baseVaddr;
             && rsp + 8 * |words| <= args < rsp + 8 * |words| + 16 && args <= |strings|
             && s.stackBuf == Splice(strings, rsp, WordBytes(words))
    ensures Packed(s, x, plan.aux)
  {
  }

  /** The table is written below the strings, and the stack is complete. */
  method FinishStack(buf: array<byte>, args: nat, ghost envs: nat, ghost x: Input, ghost plan: Plan,
                     words: seq<nat>, base: nat)
    returns (stack: StackInit)
    requires Strung(buf[..], args, envs, x) && base + buf.Length == USER_STACK_TOP && base % 16 == 0
    requires Pointed(plan, base, args, envs, x) && words == Words(plan) && 8 * |words| <= args && AllWords(words)
    requires Blank(buf[..], args)
    modifies buf
    ensures Conforms(stack, x, plan.aux) && ExecFn(stack, |x.argv|) == FirstOf(plan.argvAt)
    ensures Packed(stack, x, plan.aux) && |stack.stackBuf| == buf.Length
  {
    ghost var strings := buf[..];
    var rsp := FillTable(buf, words, args);
    SumAligned(base, rsp);
    stack := StackInit(base + rsp, buf[..], base);
    Finish(stack, strings, Layout(buf.Length, rsp, args, envs), x, plan, words);
    Packs(stack, strings, args, envs, x, plan, words);
  }

  lemma AlignedBase(bufSize: nat)
    requires bufSize % PAGE == 0 && bufSize <= USER_STACK_TOP
    ensures (USER_STACK_TOP - bufSize) % 16 == 0
  {
    var n := bufSize / PAGE;
    assert USER_STACK_TOP - bufSize == 16 * (0x7FF_FFFF_F000 - 256 * n);
  }

  method FillStack(x: Input, p: Program, bufSize: nat) returns (stack: StackInit)
    requires |x.random| == 16 && FitsWords(p)
    requires Required(x.argv, x.envp) <= bufSize <= USER_STACK_TOP && bufSize % PAGE == 0
    requires Required(x.argv, x.envp) < WORD
    ensures Conforms(stack, x, Auxv(p, USER_STACK_TOP - 16, ExecFn(stack, |x.argv|)))
    ensures Packed(stack, x, Auxv(p, USER_STACK_TOP - 16, ExecFn(stack, |x.argv|))) && |stack.stackBuf| == bufSize
  {
    var base := USER_STACK_TOP - bufSize;
    AlignedBase(bufSize);
    var buf := new byte[bufSize](i => 0);
    var args, envs, argvAt, envpAt := FillStrings(buf, x, base);
    AddressesBelow(x.argv, base + args);
    AuxvBelow(p, USER_STACK_TOP - 16, FirstOf(argvAt));
    var plan := Plan(argvAt, envpAt, Auxv(p, base + (bufSize - 16), FirstOf(argvAt)));
    PointersBelow(x, plan, base, args, envs);
    stack := FinishStack(buf, args, envs, x, plan, Words(plan), base);
  }
}
