// Bytes, and the little-endian words and terminated strings that are made of them.
module Bytes {

  type byte = x: int | 0 <= x < 256

  const WORD: nat := 0x1_0000_0000_0000_0000

  /** The `n` low-order bytes of a number, lowest first. */
  function LittleEndian(v: nat, n: nat): (s: seq<byte>)
    ensures |s| == n
  {
    if n == 0 then [] else [v % 256] + LittleEndian(v / 256, n - 1)
  }

  function Value(s: seq<byte>): nat {
    if s == [] then 0 else s[0] + 256 * Value(s[1..])
  }

  function Power(n: nat): (p: nat)
    ensures p >= 1
  {
    if n == 0 then 1 else 256 * Power(n - 1)
  }

  lemma {:induction false} LittleEndianValue(v: nat, n: nat)
    requires v < Power(n)
    ensures Value(LittleEndian(v, n)) == v
  {
    if n > 0 {
      LittleEndianValue(v / 256, n - 1);
      var s := LittleEndian(v, n);
      assert s[1..] == LittleEndian(v / 256, n - 1);
    }
  }

  lemma PowerWord()
    ensures Power(8) == WORD
  {
    assert Power(4) == 0x1_0000_0000;
  }

  /** `s` with `d` in place of the bytes from `pos` on. */
  function Splice(s: seq<byte>, pos: nat, d: seq<byte>): (r: seq<byte>)
    requires pos + |d| <= |s|
    ensures |r| == |s| && r[pos..pos + |d|] == d
    ensures forall i :: 0 <= i < |s| && !(pos <= i < pos + |d|) ==> r[i] == s[i]
  {
    s[..pos] + d + s[pos + |d|..]
  }

  /** Two adjacent splices are one. */
  lemma SpliceBelow(s: seq<byte>, pos: nat, a: seq<byte>, b: seq<byte>)
    requires pos + |a| + |b| <= |s|
    ensures Splice(Splice(s, pos + |a|, b), pos, a) == Splice(s, pos, a + b)
    ensures Splice(Splice(s, pos, a), pos + |a|, b) == Splice(s, pos, a + b)
  {
  }

  lemma SpliceAt(s: seq<byte>, pos: nat, d: seq<byte>, k: nat)
    requires pos + |d| <= |s| && k < |s|
    ensures Splice(s, pos, d)[k] == if pos <= k < pos + |d| then d[k - pos] else s[k]
  {
    if pos <= k < pos + |d| {
      assert Splice(s, pos, d)[pos..pos + |d|][k - pos] == Splice(s, pos, d)[k];
    }
  }

  lemma SpliceTail(s: seq<byte>, pos: nat, d: seq<byte>, lo: nat)
    requires pos + |d| <= lo <= |s|
    ensures Splice(s, pos, d)[lo..] == s[lo..]
  {
  }

  /** The string that starts here: the bytes before the first zero. */
  function CString(s: seq<byte>): seq<byte> {
    if s == [] || s[0] == 0 then [] else [s[0]] + CString(s[1..])
  }

  lemma {:induction false} CStringReads(s: seq<byte>, rest: seq<byte>)
    ensures CString(s + [0] + rest) == CString(s)
  {
    if s == [] {
      assert s + [0] + rest == [0] + rest;
    } else {
      assert (s + [0] + rest)[1..] == s[1..] + [0] + rest;
      CStringReads(s[1..], rest);
    }
  }

  /** A string survives exactly when it has no zero inside. */
  lemma {:induction false} CStringExact(s: seq<byte>)
    ensures CString(s) == s <==> 0 !in s
  {
    if s == [] {
    } else {
      CStringExact(s[1..]);
      assert s == [s[0]] + s[1..];
    }
  }

  lemma SubSlice(s: seq<byte>, lo: nat, n: nat, at: nat, m: nat)
    requires lo + n <= |s| && at + m <= n
    ensures s[lo..lo + n][at..at + m] == s[lo + at..lo + at + m]
  {
    var t, u, v := s[lo..lo + n], s[lo..lo + n][at..at + m], s[lo + at..lo + at + m];
    forall i | 0 <= i < m ensures u[i] == v[i] {
      assert u[i] == t[at + i] == s[lo + at + i];
    }
  }

  /** `copy_from_slice` into the buffer. */
  method PutBytes(buf: array<byte>, pos: nat, data: seq<byte>)
    requires pos + |data| <= buf.Length
    modifies buf
    ensures buf[..] == Splice(old(buf[..]), pos, data)
  {
    for i := 0 to |data|
      invariant forall k :: 0 <= k < buf.Length ==>
                  buf[k] == if pos <= k < pos + i then data[k - pos] else old(buf[..])[k]
    {
      buf[pos + i] := data[i];
    }
    assert buf[..] == Splice(old(buf[..]), pos, data);
  }
}
