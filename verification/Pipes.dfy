// Pipe ring buffers: the two-chunk and the byte-by-byte ring are one bounded queue.
module Pipes {
  import opened Bytes

  const PIPE_BUF_SIZE: nat := 65536

  /** The queued bytes: `len` bytes of the ring from `readPos` on. */
  function Queue(data: seq<byte>, readPos: nat, len: nat): (q: seq<byte>)
    requires |data| == PIPE_BUF_SIZE
    ensures |q| == len
  {
    seq(len, i requires 0 <= i < len => data[(readPos + i) % PIPE_BUF_SIZE])
  }

  lemma QueueAt(data: seq<byte>, readPos: nat, len: nat, i: nat)
    requires |data| == PIPE_BUF_SIZE && i < len
    ensures Queue(data, readPos, len)[i] == data[(readPos + i) % PIPE_BUF_SIZE]
  {
  }

  lemma Wrap(a: nat, b: nat)
    requires a < PIPE_BUF_SIZE && b <= PIPE_BUF_SIZE
    ensures (a + b) % PIPE_BUF_SIZE == Behind(a, b)
  {
  }

  /** Taking bytes from the front. */
  lemma QueueDrop(data: seq<byte>, readPos: nat, len: nat, n: nat)
    requires |data| == PIPE_BUF_SIZE && readPos < PIPE_BUF_SIZE && n <= len <= PIPE_BUF_SIZE
    ensures Queue(data, (readPos + n) % PIPE_BUF_SIZE, len - n) == Queue(data, readPos, len)[n..]
  {
    Wrap(readPos, n);
    forall i | 0 <= i < len - n
      ensures Queue(data, (readPos + n) % PIPE_BUF_SIZE, len - n)[i] == Queue(data, readPos, len)[n..][i]
    {
      Wrap(readPos, n + i);
      Wrap((readPos + n) % PIPE_BUF_SIZE, i);
    }
  }

  /** The ring after `src` has been written from `pos` on, wrapping at the end. */
  function Written(data: seq<byte>, pos: nat, src: seq<byte>): (r: seq<byte>)
    requires |data| == PIPE_BUF_SIZE && pos < PIPE_BUF_SIZE && |src| <= PIPE_BUF_SIZE
    ensures |r| == PIPE_BUF_SIZE
  {
    var first := if |src| < PIPE_BUF_SIZE - pos then |src| else PIPE_BUF_SIZE - pos;
    Splice(Splice(data, pos, src[..first]), 0, src[first..])
  }

  /** What a write leaves at each place of the ring. */
  lemma WrittenAt(data: seq<byte>, pos: nat, src: seq<byte>, k: nat)
    requires |data| == PIPE_BUF_SIZE && pos < PIPE_BUF_SIZE && |src| <= PIPE_BUF_SIZE && k < PIPE_BUF_SIZE
    ensures Written(data, pos, src)[k] == if Distance(pos, k) < |src| then src[Distance(pos, k)] else data[k]
  {
    var first := if |src| < PIPE_BUF_SIZE - pos then |src| else PIPE_BUF_SIZE - pos;
    SpliceAt(data, pos, src[..first], k);
    SpliceAt(Splice(data, pos, src[..first]), 0, src[first..], k);
  }

  /** How far place `k` of the ring lies behind `pos`. */
  function Distance(pos: nat, k: nat): nat
    requires pos < PIPE_BUF_SIZE
  {
    if pos <= k then k - pos else k + PIPE_BUF_SIZE - pos
  }

  /** Place `b` steps behind place `a`, without the modulo. */
  function Behind(a: nat, b: nat): int {
    if a + b < PIPE_BUF_SIZE then a + b else a + b - PIPE_BUF_SIZE
  }

  lemma QueuePushAt(data: seq<byte>, readPos: nat, len: nat, src: seq<byte>, i: nat, pos: nat, k: nat)
    requires |data| == PIPE_BUF_SIZE && readPos < PIPE_BUF_SIZE && len + |src| <= PIPE_BUF_SIZE && i < len + |src|
    requires pos == Behind(readPos, len) && k == Behind(readPos, i) && pos < PIPE_BUF_SIZE && k < PIPE_BUF_SIZE
    ensures Written(data, pos, src)[k] == if i < len then data[k] else src[i - len]
  {
    WrittenAt(data, pos, src, k);
    assert if i < len then Distance(pos, k) >= |src| else Distance(pos, k) == i - len;
  }

  /** Appending at the back. */
  lemma QueuePush(data: seq<byte>, readPos: nat, len: nat, src: seq<byte>, pos: nat, total: nat)
    requires |data| == PIPE_BUF_SIZE && readPos < PIPE_BUF_SIZE && len + |src| == total <= PIPE_BUF_SIZE
    requires pos == (readPos + len) % PIPE_BUF_SIZE
    ensures Queue(Written(data, pos, src), readPos, total) == Queue(data, readPos, len) + src
  {
    var next := Written(data, pos, src);
    var q, r := Queue(next, readPos, total), Queue(data, readPos, len);
    Wrap(readPos, len);
    forall i | 0 <= i < total ensures q[i] == (r + src)[i] {
      Wrap(readPos, i);
      QueueAt(next, readPos, total, i);
      QueuePushAt(data, readPos, len, src, i, pos, (readPos + i) % PIPE_BUF_SIZE);
      if i < len {
        QueueAt(data, readPos, len, i);
      }
    }
  }

  /** Reading from the front takes at most two stretches of the ring. */
  lemma QueueTake(data: seq<byte>, readPos: nat, len: nat, n: nat, first: nat)
    requires |data| == PIPE_BUF_SIZE && readPos < PIPE_BUF_SIZE && n <= len <= PIPE_BUF_SIZE
    requires first == if n < PIPE_BUF_SIZE - readPos then n else PIPE_BUF_SIZE - readPos
    ensures data[readPos..readPos + first] + data[..n - first] == Queue(data, readPos, len)[..n]
  {
    var a, b := data[readPos..readPos + first] + data[..n - first], Queue(data, readPos, len)[..n];
    forall i | 0 <= i < n ensures a[i] == b[i] {
      Wrap(readPos, i);
    }
  }

  lemma WrittenOne(data: seq<byte>, pos: nat, b: byte)
    requires |data| == PIPE_BUF_SIZE && pos < PIPE_BUF_SIZE
    ensures Written(data, pos, [b]) == data[pos := b]
  {
    forall k | 0 <= k < PIPE_BUF_SIZE ensures Written(data, pos, [b])[k] == data[pos := b][k] {
      WrittenAt(data, pos, [b], k);
    }
  }

  function Least(a: nat, b: nat): (m: nat)
    ensures m <= a && m <= b && (m == a || m == b)
  {
    if a < b then a else b
  }

  class Ring {
    const data: array<byte>
    var readPos: nat
    var writePos: nat
    var len: nat
    ghost var written: seq<byte>    // all bytes put in so far
    ghost var taken: seq<byte>      // all bytes read so far

    ghost function Contents(): seq<byte>
      requires data.Length == PIPE_BUF_SIZE
      reads this, data
    {
      Queue(data[..], readPos, len)
    }

    /** The ring holds exactly the bytes written and not yet read, in order. */
    ghost predicate Valid()
      reads this, data
    {
      && data.Length == PIPE_BUF_SIZE && readPos < PIPE_BUF_SIZE && len <= PIPE_BUF_SIZE
      && writePos == (readPos + len) % PIPE_BUF_SIZE && written == taken + Contents()
    }

    constructor ()
      ensures Valid() && len == 0 && written == taken == [] && fresh(data)
    {
      data := new byte[PIPE_BUF_SIZE](i => 0);
      readPos, writePos, len := 0, 0, 0;
      written, taken := [], [];
    }

    /** `push_slice`: as much as fits, in at most two copies. */
    method PushSlice(src: seq<byte>) returns (n: nat)
      requires Valid()
      modifies this`writePos, this`len, this`written, data
      ensures Valid() && n == Least(|src|, PIPE_BUF_SIZE - old(len))
      ensures Contents() == old(Contents()) + src[..n] && written == old(written) + src[..n]
    {
      var available := PIPE_BUF_SIZE - len;
      if available == 0 || src == [] {
        assert src[..0] == [];
        return 0;
      }
      n := Least(|src|, available);
      ghost var before := Contents();
      QueuePush(data[..], readPos, len, src[..n], writePos, len + n);
      WriteRing(src[..n]);
      Commit(n, before, src[..n]);
    }

    /** The two copies. */
    method WriteRing(src: seq<byte>)
      requires data.Length == PIPE_BUF_SIZE && writePos < PIPE_BUF_SIZE && |src| <= PIPE_BUF_SIZE
      modifies data
      ensures data[..] == Written(old(data[..]), writePos, src)
    {
      var first := Least(|src|, PIPE_BUF_SIZE - writePos);
      PutBytes(data, writePos, src[..first]);
      PutBytes(data, 0, src[first..]);
    }

    /** `piece` has been written to the ring; now it counts. */
    method Commit(n: nat, ghost before: seq<byte>, ghost piece: seq<byte>)
      requires data.Length == PIPE_BUF_SIZE && readPos < PIPE_BUF_SIZE && len + n <= PIPE_BUF_SIZE
      requires writePos == (readPos + len) % PIPE_BUF_SIZE && written == taken + before
      requires Queue(data[..], readPos, len + n) == before + piece
      modifies this`writePos, this`len, this`written
      ensures Valid() && len == old(len) + n && written == old(written) + piece && Contents() == before + piece
    {
      assert taken + (before + piece) == taken + before + piece;
      Advance(n);
      written := written + piece;
    }

    method Advance(n: nat)
      requires data.Length == PIPE_BUF_SIZE && readPos < PIPE_BUF_SIZE && len + n <= PIPE_BUF_SIZE
      requires writePos == (readPos + len) % PIPE_BUF_SIZE
      modifies this`writePos, this`len
      ensures len == old(len) + n && writePos == (readPos + len) % PIPE_BUF_SIZE
    {
      Wrap(readPos, len);
      Wrap(readPos, len + n);
      Wrap(writePos, n);
      writePos := (writePos + n) % PIPE_BUF_SIZE;
      len := len + n;
    }

    method Retire(n: nat)
      requires data.Length == PIPE_BUF_SIZE && readPos < PIPE_BUF_SIZE && n <= len <= PIPE_BUF_SIZE
      requires writePos == (readPos + len) % PIPE_BUF_SIZE
      modifies this`readPos, this`len
      ensures len == old(len) - n && readPos == (old(readPos) + n) % PIPE_BUF_SIZE && readPos < PIPE_BUF_SIZE
      ensures writePos == (readPos + len) % PIPE_BUF_SIZE
    {
      Wrap(readPos, len);
      Wrap(readPos, n);
      readPos, len := (readPos + n) % PIPE_BUF_SIZE, len - n;
      Wrap(readPos, len);
    }

    /** `pop_slice`: as much as there is, in at most two copies. */
    method PopSlice(max: nat) returns (out: seq<byte>)
      requires Valid()
      modifies this`readPos, this`len, this`taken
      ensures Valid() && |out| == Least(max, old(len)) && out == old(Contents())[..|out|]
      ensures Contents() == old(Contents())[|out|..] && taken == old(taken) + out
    {
      if len == 0 || max == 0 {
        return [];
      }
      var n := Least(max, len);
      out := ReadRing(n);
      Discard(n);
    }

    /** The two copies. */
    method ReadRing(n: nat) returns (out: seq<byte>)
      requires data.Length == PIPE_BUF_SIZE && readPos < PIPE_BUF_SIZE && n <= len <= PIPE_BUF_SIZE
      ensures out == Contents()[..n]
    {
      var first := Least(n, PIPE_BUF_SIZE - readPos);
      out := data[readPos..readPos + first] + data[..n - first];
      QueueTake(data[..], readPos, len, n, first);
      assert data[..][readPos..readPos + first] == data[readPos..readPos + first];
      assert data[..][..n - first] == data[..n - first];
    }

    /** The first `n` bytes have been read. */
    method Discard(n: nat)
      requires Valid() && n <= len
      modifies this`readPos, this`len, this`taken
      ensures Valid() && len == old(len) - n
      ensures Contents() == old(Contents())[n..] && taken == old(taken) + old(Contents())[..n]
    {
      ghost var all := Contents();
      QueueDrop(data[..], readPos, len, n);
      Retire(n);
      assert taken + all == taken + all[..n] + all[n..];
      taken := taken + all[..n];
    }

    /** One byte of the byte-by-byte ring. */
    method PushByte(b: byte)
      requires Valid() && len < PIPE_BUF_SIZE
      modifies this`writePos, this`len, this`written, data
      ensures Valid() && len == old(len) + 1
      ensures Contents() == old(Contents()) + [b] && written == old(written) + [b]
    {
      ghost var was, before := data[..], Contents();
      QueuePush(was, readPos, len, [b], writePos, len + 1);
      WrittenOne(was, writePos, b);
      data[writePos] := b;
      assert data[..] == was[writePos := b];
      Commit(1, before, [b]);
    }

    method PopByte() returns (b: byte)
      requires Valid() && len > 0
      modifies this`readPos, this`len, this`taken
      ensures Valid() && len == old(len) - 1 && b == old(Contents())[0]
      ensures Contents() == old(Contents())[1..] && taken == old(taken) + [b]
    {
      Wrap(readPos, 0);
      b := data[readPos];
      assert Contents()[..1] == [b];
      Discard(1);
    }

    /** The other pipe's write: the same contract, one byte at a time. */
    method PushBytes(src: seq<byte>) returns (n: nat)
      requires Valid()
      modifies this`writePos, this`len, this`written, data
      ensures Valid() && n == Least(|src|, PIPE_BUF_SIZE - old(len))
      ensures Contents() == old(Contents()) + src[..n] && written == old(written) + src[..n]
    {
      n := Least(|src|, PIPE_BUF_SIZE - len);
      assert src[..0] == [];
      for i := 0 to n
        invariant Valid() && len == old(len) + i
        invariant Contents() == old(Contents()) + src[..i] && written == old(written) + src[..i]
      {
        assert src[..i + 1] == src[..i] + [src[i]];
        PushByte(src[i]);
      }
    }

    method PopBytes(max: nat) returns (out: seq<byte>)
      requires Valid()
      modifies this`readPos, this`len, this`taken
      ensures Valid() && |out| == Least(max, old(len)) && out == old(Contents())[..|out|]
      ensures Contents() == old(Contents())[|out|..] && taken == old(taken) + out
    {
      out := [];
      for i := 0 to Least(max, len)
        invariant Valid() && len == old(len) - i && |out| == i && out == old(Contents())[..i]
        invariant Contents() == old(Contents())[i..] && taken == old(taken) + out
      {
        var b := PopByte();
        out := out + [b];
      }
    }
  }

  datatype ReadOutcome = Data(bytes: seq<byte>) | Eof | WouldBlock

  datatype WriteOutcome = Pushed(n: nat) | Broken | Full

  datatype Step = Write(data: seq<byte>) | Read(max: nat) | CloseReader | CloseWriter

  datatype Outcome = Got(read: ReadOutcome) | Put(piece: seq<byte>, write: WriteOutcome) | Closed

  /** The bytes that the readers got, in order. */
  function Delivered(outcomes: seq<Outcome>): seq<byte> {
    if outcomes == [] then []
    else
      var last, before := outcomes[|outcomes| - 1], Delivered(outcomes[..|outcomes| - 1]);
      if last.Got? && last.read.Data? then before + last.read.bytes else before
  }

  /** The bytes that were accepted from the writers, in order. */
  function Accepted(outcomes: seq<Outcome>): seq<byte> {
    if outcomes == [] then []
    else
      var last, before := outcomes[|outcomes| - 1], Accepted(outcomes[..|outcomes| - 1]);
      if last.Put? && last.write.Pushed? then before + last.piece else before
  }

  /** An outcome belongs to its step: what was accepted is a prefix of what was offered. */
  predicate Answers(step: Step, o: Outcome) {
    match step
    case Write(data) => o.Put? && (o.write.Pushed? ==> o.write.n == |o.piece| && o.piece <= data)
    case Read(max) => o.Got? && (o.read.Data? ==> |o.read.bytes| <= max)
    case _ => o.Closed?
  }

  /** How many of `n` open ends are left after `closings`. */
  function Left(n: nat, closings: nat): nat {
    if closings < n then n - closings else 0
  }

  /** How many of the steps are `step`. */
  function Times(steps: seq<Step>, step: Step): nat {
    if steps == [] then 0
    else Times(steps[..|steps| - 1], step) + if steps[|steps| - 1] == step then 1 else 0
  }

  lemma TimesNext(steps: seq<Step>, i: nat, step: Step)
    requires i < |steps|
    ensures Times(steps[..i + 1], step) == Times(steps[..i], step) + if steps[i] == step then 1 else 0
  {
    assert steps[..i + 1][..i] == steps[..i];
  }

  /** The end of file needs every writer closed; a write is refused exactly when every reader is. */
  ghost predicate Explained(steps: seq<Step>, i: nat, o: Outcome, readers: nat, writers: nat)
    requires i < |steps|
  {
    && (o == Got(Eof) ==> writers <= Times(steps[..i], CloseWriter))
    && (steps[i].Write? && steps[i].data != [] ==>
          o.Put? && (o.write == Broken <==> readers <= Times(steps[..i], CloseReader)))
  }

  /** The steps so far, each with its outcome. */
  ghost predicate Ran(steps: seq<Step>, outcomes: seq<Outcome>, readers: nat, writers: nat) {
    && |outcomes| <= |steps|
    && (forall j :: 0 <= j < |outcomes| ==> Answers(steps[j], outcomes[j]))
    && (forall j :: 0 <= j < |outcomes| ==> Explained(steps, j, outcomes[j], readers, writers))
  }

  lemma RanNext(steps: seq<Step>, outcomes: seq<Outcome>, o: Outcome, readers: nat, writers: nat)
    requires Ran(steps, outcomes, readers, writers) && |outcomes| < |steps| && Answers(steps[|outcomes|], o)
    requires Explained(steps, |outcomes|, o, readers, writers)
    ensures Ran(steps, outcomes + [o], readers, writers)
    ensures Delivered(outcomes + [o]) == Delivered(outcomes) + if o.Got? && o.read.Data? then o.read.bytes else []
    ensures Accepted(outcomes + [o]) == Accepted(outcomes) + if o.Put? && o.write.Pushed? then o.piece else []
  {
    assert (outcomes + [o])[..|outcomes|] == outcomes;
  }

  class Pipe {
    const ring: Ring
    const bytewise: bool    // which of the two rings it is
    var readers: nat
    var writers: nat

    ghost predicate Valid()
      reads this, ring, ring.data
    {
      ring.Valid()
    }

    constructor (bytewise: bool)
      ensures Valid() && readers == writers == 1 && this.bytewise == bytewise
      ensures ring.written == ring.taken == [] && fresh(ring) && fresh(ring.data)
    {
      ring := new Ring();
      readers, writers := 1, 1;
      this.bytewise := bytewise;
    }

    /** One turn of the reader's loop, under the buffer lock: end of file exactly when every byte has been read. */
    method ReadTurn(max: nat) returns (r: ReadOutcome)
      requires Valid()
      modifies ring`readPos, ring`len, ring`taken
      ensures Valid() && ring.written == old(ring.written)
      ensures r.Data? ==> ring.taken == old(ring.taken) + r.bytes && |r.bytes| <= max && (max > 0 ==> r.bytes != [])
      ensures r.Data? ==> |r.bytes| == max || ring.taken == ring.written
      ensures !r.Data? ==> ring.taken == old(ring.taken)
      ensures r.Eof? <==> max > 0 && writers == 0 && old(ring.taken) == ring.written
      ensures r.WouldBlock? <==> max > 0 && writers > 0 && old(ring.taken) == ring.written
    {
      if max == 0 {
        return Data([]);
      }
      if ring.len > 0 {
        var out;
        if bytewise {
          out := ring.PopBytes(max);
        } else {
          out := ring.PopSlice(max);
        }
        return Data(out);
      }
      return if writers == 0 then Eof else WouldBlock;
    }

    /** One turn of the writer's loop. */
    method WriteTurn(rest: seq<byte>) returns (r: WriteOutcome)
      requires Valid() && rest != []
      modifies ring`writePos, ring`len, ring`written, ring.data
      ensures Valid() && ring.taken == old(ring.taken)
      ensures r == if readers == 0 then Broken else if old(ring.len) == PIPE_BUF_SIZE then Full
                   else Pushed(Least(|rest|, PIPE_BUF_SIZE - old(ring.len)))
      ensures ring.written == old(ring.written) + if r.Pushed? then rest[..r.n] else []
    {
      if readers == 0 {
        return Broken;
      }
      if ring.len == PIPE_BUF_SIZE {
        return Full;
      }
      var n;
      if bytewise {
        n := ring.PushBytes(rest);
      } else {
        n := ring.PushSlice(rest);
      }
      return Pushed(n);
    }

    /** One step of a run: an empty write is no turn at all. */
    method Perform(step: Step) returns (o: Outcome)
      requires Valid()
      modifies this, ring, ring.data
      ensures Valid() && Answers(step, o)
      ensures ring.taken == old(ring.taken) + if o.Got? && o.read.Data? then o.read.bytes else []
      ensures ring.written == old(ring.written) + if o.Put? && o.write.Pushed? then o.piece else []
      ensures o == Got(Eof) <==> step.Read? && step.max > 0 && old(writers) == 0 && old(ring.taken) == old(ring.written)
      ensures o == Got(WouldBlock) <==>
                step.Read? && step.max > 0 && old(writers) > 0 && old(ring.taken) == old(ring.written)
      ensures o.Got? && o.read.Data? ==> |o.read.bytes| == step.max || ring.taken == ring.written
      // a write to a pipe without readers is refused; otherwise as much as fits is taken
      ensures step.Write? && step.data != [] ==>
                && (o.write == Broken <==> old(readers) == 0)
                && (o.write == Full <==> old(readers) > 0 && |old(ring.Contents())| == PIPE_BUF_SIZE)
                && (o.write.Pushed? ==> o.piece == step.data || |ring.Contents()| == PIPE_BUF_SIZE)
      ensures readers == if step == CloseReader && old(readers) > 0 then old(readers) - 1 else old(readers)
      ensures writers == if step == CloseWriter && old(writers) > 0 then old(writers) - 1 else old(writers)
    {
      match step {
        case Write(data) =>
          if data == [] {
            return Put([], Pushed(0));
          }
          var w := WriteTurn(data);
          return Put(if w.Pushed? then data[..w.n] else [], w);
        case Read(max) =>
          var r := ReadTurn(max);
          return Got(r);
        case CloseReader =>
          readers := if readers > 0 then readers - 1 else 0;
          return Closed;
        case CloseWriter =>
          writers := if writers > 0 then writers - 1 else 0;
          return Closed;
      }
    }

    /**
     * Any run of turns and closings, with either ring: the bytes that readers got,
     * followed by those still buffered, are the bytes accepted from writers, in
     * order, and a reader that has seen the end of file has seen them all.
     */
    method Run(steps: seq<Step>) returns (outcomes: seq<Outcome>)
      requires Valid() && ring.written == ring.taken == []
      modifies this, ring, ring.data
      ensures Valid() && |outcomes| == |steps| && forall i :: 0 <= i < |steps| ==> Answers(steps[i], outcomes[i])
      ensures Delivered(outcomes) + ring.Contents() == Accepted(outcomes)
      ensures steps != [] && outcomes[|steps| - 1] == Got(Eof) ==> Delivered(outcomes) == Accepted(outcomes)
      // an end that is closed as often as it was opened stays closed: readers see the end, writers are refused
      ensures readers == Left(old(readers), Times(steps, CloseReader))
      ensures writers == Left(old(writers), Times(steps, CloseWriter))
      ensures forall i :: 0 <= i < |steps| ==> Explained(steps, i, outcomes[i], old(readers), old(writers))
    {
      outcomes := [];
      for i := 0 to |steps|
        invariant Valid() && |outcomes| == i && Ran(steps, outcomes, old(readers), old(writers))
        invariant ring.taken == Delivered(outcomes) && ring.written == Accepted(outcomes)
        invariant i > 0 && outcomes[i - 1] == Got(Eof) ==> ring.taken == ring.written
        invariant readers == Left(old(readers), Times(steps[..i], CloseReader))
        invariant writers == Left(old(writers), Times(steps[..i], CloseWriter))
      {
        var o := Perform(steps[i]);
        TimesNext(steps, i, CloseReader);
        TimesNext(steps, i, CloseWriter);
        RanNext(steps, outcomes, o, old(readers), old(writers));
        outcomes := outcomes + [o];
      }
      assert steps[..|steps|] == steps;
    }
  }
}
