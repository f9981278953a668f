/**
 * TCP receive reassembly: `process_segment` of kernel/src/net/tcp.rs and the
 * stream half of `SocketInode::read` of kernel/src/net/socket.rs.
 *
 * Sequence numbers are 32-bit and wrap (section 3.4 of RFC 9293). The peer's
 * byte stream is a function from positions to bytes; `pos` and `at` hold the
 * unwrapped positions that the wrapped numbers stand for.
 */
module TcpReceive {
  import opened Bytes
  import opened Sets
  import opened Wrappers

  const SEQ_MOD: nat := 0x1_0000_0000
  const HALF: nat := 0x8000_0000
  const TCP_MAX_RECV_BUF: nat := 524288

  type Stream = nat -> byte

  datatype TcpState =
    | Closed | Listen | SynSent | SynReceived | Established | FinWait1
    | FinWait2 | CloseWait | Closing | LastAck | TimeWait

  datatype Flags = Flags(fin: bool, syn: bool, rst: bool, ack: bool)

  /** An answer of the socket: always a bare ACK. */
  datatype Reply = Reply(seqNum: nat, ackNum: nat, window: nat)

  function WrapAdd(a: nat, b: nat): nat {
    (a + b) % SEQ_MOD
  }

  function WrapSub(a: nat, b: nat): nat {
    (a - b) % SEQ_MOD
  }

  /** The window advertised when `used` bytes wait in the receive buffer. */
  function RcvWnd(used: nat): (w: nat)
    ensures w <= 65535 && (used < TCP_MAX_RECV_BUF ==> used + w <= TCP_MAX_RECV_BUF)
    ensures w == 65535 || used + w == TCP_MAX_RECV_BUF || (w == 0 && TCP_MAX_RECV_BUF < used)
  {
    var room := if used < TCP_MAX_RECV_BUF then TCP_MAX_RECV_BUF - used else 0;
    if room < 65535 then room else 65535
  }

  /**
   * A bare ACK of everything before `next`, sent with the socket's own next number, that offers the
   * room beside `used` buffered bytes, at most 65535.
   */
  ghost predicate Acks(r: Option<Reply>, own: nat, next: nat, used: nat) {
    && r.Some? && r.value.seqNum == own && r.value.ackNum == next
    && r.value.window == if used + 65535 <= TCP_MAX_RECV_BUF then 65535
                         else if used < TCP_MAX_RECV_BUF then TCP_MAX_RECV_BUF - used else 0
  }

  /**
   * The window beside `used` buffered bytes is worth an update when `was` was the last one offered: the
   * buffer is empty, or the window has opened, or passed half its range, or grown by a quarter of it.
   */
  ghost predicate Reopens(was: nat, used: nat) {
    || used == 0
    || (was == 0 && used < TCP_MAX_RECV_BUF)
    || (was < 32768 && used + 32768 <= TCP_MAX_RECV_BUF)
    || (was + 16384 <= 65535 && used + was + 16384 <= TCP_MAX_RECV_BUF)
  }

  /** The `n` bytes of the stream from position `at`. */
  function Slice(s: Stream, at: nat, n: nat): (r: seq<byte>)
    ensures |r| == n
    ensures forall i :: 0 <= i < n ==> r[i] == s(at + i)
  {
    seq(n, i requires 0 <= i => s(at + i))
  }

  /** Positions less than 2^31 apart compare as their sequence numbers do. */
  lemma WrapCompare(base: nat, a: nat, b: nat)
    requires a < b + HALF && b <= a + HALF
    ensures WrapSub((base + a) % SEQ_MOD, (base + b) % SEQ_MOD) >= HALF <==> a < b
    ensures (base + a) % SEQ_MOD == (base + b) % SEQ_MOD <==> a == b
    ensures a < b ==> WrapSub((base + b) % SEQ_MOD, (base + a) % SEQ_MOD) == b - a
  {
    var x, y := (base + a) % SEQ_MOD, (base + b) % SEQ_MOD;
    assert a - b == x - y || a - b == x - y + SEQ_MOD || a - b == x - y - SEQ_MOD;
  }

  lemma WrapAdvance(base: nat, a: nat, n: nat)
    ensures WrapAdd((base + a) % SEQ_MOD, n) == (base + a + n) % SEQ_MOD
  {
  }

  lemma SliceJoin(s: Stream, at: nat, m: nat, n: nat)
    ensures Slice(s, at, m) + Slice(s, at + m, n) == Slice(s, at, m + n)
  {
  }

  lemma SliceDrop(s: Stream, at: nat, n: nat, k: nat)
    requires k <= n
    ensures Slice(s, at, n)[k..] == Slice(s, at + k, n - k)
    ensures Slice(s, at, n)[..k] == Slice(s, at, k)
  {
  }

  type Queue = map<nat, seq<byte>>

  /** The queue entry at `k` starts at `nxt` or starts before it and reaches past it. */
  predicate Reaches(q: Queue, k: nat, nxt: nat)
    requires k in q
  {
    || k == nxt
    || (WrapSub(k, nxt) >= HALF
        && WrapSub(WrapAdd(k, |q[k]|), nxt) < HALF && WrapAdd(k, |q[k]|) != nxt)
  }

  /** The queue entry at `k` ends at or before `nxt`. */
  predicate Stale(q: Queue, k: nat, nxt: nat)
    requires k in q
  {
    WrapSub(WrapAdd(k, |q[k]|), nxt) >= HALF || WrapAdd(k, |q[k]|) == nxt
  }

  /** Every entry of the queue holds bytes of the `length` stream bytes, and `at` says from which position. */
  ghost predicate Queued(s: Stream, length: nat, base: nat, q: Queue, at: map<nat, nat>) {
    forall k :: k in q ==>
      && k in at && k == (base + at[k]) % SEQ_MOD
      && q[k] == Slice(s, at[k], |q[k]|) && at[k] + |q[k]| <= length
  }

  /** No entry is so far from `pos` that its wrapped number misleads, even after `slack` more bytes. */
  predicate Near(q: Queue, at: map<nat, nat>, pos: nat, slack: nat) {
    forall k :: k in q ==> k in at && pos + slack <= at[k] + HALF && at[k] + |q[k]| < pos + HALF
  }

  lemma ReachesExact(s: Stream, length: nat, base: nat, q: Queue, at: map<nat, nat>, pos: nat, k: nat)
    requires Queued(s, length, base, q, at) && Near(q, at, pos, 0) && k in q
    ensures Reaches(q, k, (base + pos) % SEQ_MOD) <==> at[k] == pos || at[k] < pos < at[k] + |q[k]|
    ensures Stale(q, k, (base + pos) % SEQ_MOD) <==> at[k] + |q[k]| <= pos
    ensures at[k] <= pos ==> WrapSub((base + pos) % SEQ_MOD, k) == pos - at[k]
  {
    WrapAdvance(base, at[k], |q[k]|);
    WrapCompare(base, at[k], pos);
    WrapCompare(base, at[k] + |q[k]|, pos);
  }

  /** What a reaching entry adds is its part from `pos` on. */
  lemma ReachingChunk(s: Stream, length: nat, base: nat, q: Queue, at: map<nat, nat>, pos: nat, k: nat, nxt: nat)
    requires Queued(s, length, base, q, at) && Near(q, at, pos, 0) && nxt == (base + pos) % SEQ_MOD
    requires k in q && Reaches(q, k, nxt)
    ensures at[k] <= pos <= at[k] + |q[k]| <= length
    ensures (if k == nxt then 0 else WrapSub(nxt, k)) == pos - at[k]
    ensures q[k][pos - at[k]..] == Slice(s, pos, |q[k]| - (pos - at[k]))
  {
    ReachesExact(s, length, base, q, at, pos, k);
    SliceDrop(s, at[k], |q[k]|, pos - at[k]);
  }

  lemma StaleExact(s: Stream, length: nat, base: nat, q: Queue, at: map<nat, nat>, pos: nat)
    requires Queued(s, length, base, q, at) && Near(q, at, pos, 0)
    requires forall k :: k in q ==> !Reaches(q, k, (base + pos) % SEQ_MOD)
    ensures forall k :: k in q ==>
              if Stale(q, k, (base + pos) % SEQ_MOD) then at[k] + |q[k]| <= pos else pos < at[k]
  {
    forall k | k in q ensures if Stale(q, k, (base + pos) % SEQ_MOD) then at[k] + |q[k]| <= pos else pos < at[k] {
      ReachesExact(s, length, base, q, at, pos, k);
    }
  }

  /** Draining only removes entries whose bytes have all been accepted. */
  ghost predicate Drained(at: map<nat, nat>, before: Queue, after: Queue, pos0: nat, pos: nat) {
    && pos0 <= pos
    && (forall k :: k in after ==> k in before && after[k] == before[k])
    && (forall k :: k in before && k !in after ==> k in at && at[k] + |before[k]| <= pos)
  }

  lemma PruneDrains(s: Stream, length: nat, base: nat, q: Queue, at: map<nat, nat>, pos: nat, nxt: nat, stale: set<nat>)
    requires Queued(s, length, base, q, at) && Near(q, at, pos, 0) && nxt == (base + pos) % SEQ_MOD
    requires forall k :: k in q ==> !Reaches(q, k, nxt)
    requires forall k :: k in stale <==> k in q && Stale(q, k, nxt)
    ensures Queued(s, length, base, q - stale, at) && Drained(at, q, q - stale, pos, pos)
    ensures forall k :: k in q - stale ==> pos < at[k]
  {
    StaleExact(s, length, base, q, at, pos);
  }

  lemma QueuedMore(s: Stream, length: nat, base: nat, q: Queue, at: map<nat, nat>, k: nat, data: seq<byte>, p: nat)
    requires Queued(s, length, base, q, at) && k !in q && k == (base + p) % SEQ_MOD
    requires data == Slice(s, p, |data|) && p + |data| <= length
    ensures Queued(s, length, base, q[k := data], at[k := p]) && QueueBytes(q[k := data]) == QueueBytes(q) + |data|
  {
    assert q[k := data] - {k} == q;
    QueueBytesRemove(q[k := data], k);
  }

  /** Entries keep their positions, and those no longer queued have been accepted. */
  ghost predicate Kept(at0: map<nat, nat>, at: map<nat, nat>, before: Queue, after: Queue, pos: nat) {
    forall k :: k in before && k in at0 ==>
      k in at && at[k] == at0[k] && (if k in after then after[k] == before[k] else at[k] + |before[k]| <= pos)
  }

  lemma DrainedTrans(at: map<nat, nat>, a: Queue, b: Queue, c: Queue, pos0: nat, pos1: nat, pos2: nat)
    requires Drained(at, a, b, pos0, pos1) && Drained(at, b, c, pos1, pos2)
    ensures Drained(at, a, c, pos0, pos2)
  {
  }

  lemma DrainedNear(at: map<nat, nat>, before: Queue, after: Queue, pos0: nat, pos: nat, slack: nat)
    requires Drained(at, before, after, pos0, pos) && Near(before, at, pos0, slack) && pos <= pos0 + slack
    ensures Near(after, at, pos, 0)
  {
  }

  function QueueBytes(q: Queue): (n: nat)
    ensures q == map[] ==> n == 0
  {
    if q == map[] then 0 else
      var k := Least(q.Keys);
      |q[k]| + QueueBytes(q - {k})
  }

  lemma {:induction false} QueueBytesRemove(q: Queue, k: nat)
    requires k in q
    ensures QueueBytes(q) == |q[k]| + QueueBytes(q - {k})
    decreases |q|
  {
    var m := Least(q.Keys);
    if m != k {
      var rest := q - {m};
      assert rest.Keys == q.Keys - {m};
      QueueBytesRemove(rest, k);
      assert m in q - {k};
      assert forall x :: x in (q - {k}).Keys ==> x in q.Keys && m <= x;
      assert Least((q - {k}).Keys) == m;
      assert (q - {k}) - {m} == rest - {k};
    }
  }

  lemma {:induction false} QueueBytesSub(q: Queue, r: Queue)
    requires forall k :: k in r ==> k in q && r[k] == q[k]
    ensures QueueBytes(r) <= QueueBytes(q)
    decreases |q|
  {
    if k :| k in q && k !in r {
      QueueBytesRemove(q, k);
      assert (q - {k}).Keys == q.Keys - {k};
      QueueBytesSub(q - {k}, r);
    } else {
      assert q.Keys == r.Keys;
      assert q == r;
    }
  }

  datatype Outcome = Again | Full | Done

  datatype ReadResult = Data(bytes: seq<byte>) | Eof | Error(code: nat) | Sleeps

  /** The last bytes of a stream of `length` bytes arrive from position `q` on: in order, and there is room. */
  ghost predicate InOrder(q: nat, length: nat, pos: nat, buffered: nat) {
    q <= pos && buffered + length - pos <= TCP_MAX_RECV_BUF
  }

  datatype Event = Arrive(seqNum: nat, ackNum: nat, flags: Flags, payload: seq<byte>) | ReadUpTo(max: nat)

  /**
   * The arrival of the FIN that was taken: event `index`, at stream position `q`, with what had
   * been accepted by then.
   */
  datatype FinArrival = FinArrival(index: nat, q: nat, pos: nat, buffered: nat)

  /**
   * What becomes of the `n` bytes from position `q` when `used` bytes are buffered: those up to the next
   * position and past it are accepted if they fit, those ahead of it are queued if they fit.
   */
  ghost predicate Taken(seqNum: nat, q: nat, n: nat, used: nat, pos0: nat, queue0: Queue, pos: nat, queue: Queue) {
    Accepted(q, n, used, pos0, queue0, pos, queue) && Stored(seqNum, q, n, pos0, queue0, queue)
  }

  ghost predicate Accepted(q: nat, n: nat, used: nat, pos0: nat, queue0: Queue, pos: nat, queue: Queue) {
    && (q <= pos0 && 0 < n ==> if used + q + n <= TCP_MAX_RECV_BUF + pos0 then q + n <= pos else pos == pos0)
    && (q < pos0 && q + n <= pos0 ==> pos == pos0 && queue == queue0)
    && (pos0 < q ==> pos == pos0)
  }

  ghost predicate Stored(seqNum: nat, q: nat, n: nat, pos0: nat, queue0: Queue, queue: Queue) {
    && (pos0 < q && 0 < n && QueueBytes(queue0) + n <= TCP_MAX_RECV_BUF ==> seqNum in queue)
    && (QueueBytes(queue0) <= TCP_MAX_RECV_BUF ==> QueueBytes(queue) <= TCP_MAX_RECV_BUF)
  }

  /** Every queued entry starts past the next position, by less than 2^31. */
  ghost predicate AllAhead(q: Queue, at: map<nat, nat>, pos: nat) {
    forall k :: k in q ==> k in at && pos < at[k] && at[k] + |q[k]| < pos + HALF
  }

  /** The entry at `k` reaches the next position, but what is new in it does not fit beside `used` bytes. */
  ghost predicate Stuck(q: Queue, at: map<nat, nat>, pos: nat, used: nat, k: nat) {
    && k in q && k in at && at[k] <= pos < at[k] + |q[k]|
    && used + at[k] + |q[k]| > TCP_MAX_RECV_BUF + pos
  }

  ghost predicate SomeStuck(q: Queue, at: map<nat, nat>, pos: nat, used: nat) {
    exists k :: Stuck(q, at, pos, used, k)
  }

  class Socket {
    var state: TcpState
    var sndUna: nat
    var sndNxt: nat
    var rcvNxt: nat
    var rcvWnd: nat
    var recvBuf: seq<byte>
    var oooQueue: Queue
    var soError: nat
    var nonblocking: bool

    // The peer's stream and where the socket stands in it, without wrap-around;
    // the protocol never looks at these.
    ghost const stream: Stream
    ghost const length: nat         // stream bytes before the FIN
    ghost var log: seq<byte>        // bytes handed to the reader so far
    var base: nat                   // sequence number of stream position 0
    var pos: nat                    // stream bytes accepted so far
    var at: map<nat, nat>           // stream position of each queued entry

    /** Bytes read and bytes buffered are the first `pos` bytes of the stream, and `rcvNxt` is next. */
    ghost predicate Valid()
      reads this
    {
      && log + recvBuf == Slice(stream, 0, pos)
      && rcvNxt == (base + pos) % SEQ_MOD
      && |recvBuf| <= TCP_MAX_RECV_BUF
      && pos <= length && Queued(stream, length, base, oooQueue, at)
    }

    /** A new socket; the peer it will be connected to sends `length` bytes of `stream`. */
    constructor (nonblocking: bool, ghost stream: Stream, ghost length: nat)
      ensures state == Closed && this.stream == stream && this.length == length && this.nonblocking == nonblocking
      ensures sndUna == sndNxt == rcvNxt == 0 && rcvWnd == 65535 && soError == 0
      ensures recvBuf == log == [] && oooQueue == map[] && base == pos == 0
    {
      state := Closed;
      sndUna, sndNxt, rcvNxt, rcvWnd, soError := 0, 0, 0, 65535, 0;
      recvBuf, oooQueue := [], map[];
      this.nonblocking := nonblocking;
      this.stream, this.length := stream, length;
      base, pos, log, at := 0, 0, [], map[];
    }

    /** The child that a listener creates for a SYN with number `seqNum`. */
    constructor Passive(seqNum: nat, ghost stream: Stream, ghost length: nat)
      ensures Valid() && Ahead() && state == SynReceived && this.stream == stream && this.length == length
      ensures rcvNxt == base == (seqNum + 1) % SEQ_MOD && pos == 0 && sndUna == 1000 && sndNxt == 1001
      ensures recvBuf == [] && oooQueue == map[] && rcvWnd == 65535 && soError == 0 && !nonblocking
    {
      state := SynReceived;
      sndUna, sndNxt, rcvNxt, rcvWnd, soError := 1000, 1001, WrapAdd(seqNum, 1), 65535, 0;
      recvBuf, oooQueue := [], map[];
      nonblocking := false;
      this.stream, this.length := stream, length;
      base, pos, log, at := WrapAdd(seqNum, 1), 0, [], map[];
    }

    /** The start of a connection: the SYN has number 1000. */
    method Connect()
      modifies this`state, this`sndUna, this`sndNxt
      ensures state == SynSent && sndUna == 1000 && sndNxt == 1001
    {
      sndUna, sndNxt, state := 1000, 1001, SynSent;
    }

    /** Append the next `chunk` of the stream. */
    method Accept(chunk: seq<byte>)
      requires Valid() && chunk == Slice(stream, pos, |chunk|) && pos + |chunk| <= length
      requires |recvBuf| + |chunk| <= TCP_MAX_RECV_BUF
      modifies this`recvBuf, this`rcvNxt, this`pos
      ensures Valid() && pos == old(pos) + |chunk| && recvBuf == old(recvBuf) + chunk
    {
      SliceJoin(stream, 0, pos, |chunk|);
      WrapAdvance(base, pos, |chunk|);
      recvBuf := recvBuf + chunk;
      rcvNxt := WrapAdd(rcvNxt, |chunk|);
      pos := pos + |chunk|;
      assert log + recvBuf == (log + old(recvBuf)) + chunk;
    }

    /** The buffer is too full for an entry that is next. */
    ghost predicate Jammed()
      reads this
    {
      SomeStuck(oooQueue, at, pos, |recvBuf|)
    }

    /** One round of the drain loop on the least reaching entry `k`; false when the buffer is full. */
    method DrainOne(k: nat) returns (more: bool)
      requires Valid() && Near(oooQueue, at, pos, 0) && k in oooQueue && Reaches(oooQueue, k, rcvNxt)
      modifies this`recvBuf, this`rcvNxt, this`pos, this`oooQueue
      ensures Valid() && old(pos) <= pos && old(recvBuf) <= recvBuf
      ensures pos - old(pos) == |recvBuf| - |old(recvBuf)|
      ensures !more ==>
                && pos == old(pos) && oooQueue == old(oooQueue) && recvBuf == old(recvBuf)
                && Stuck(oooQueue, at, pos, |recvBuf|, k)
      ensures more ==> oooQueue == old(oooQueue) - {k} && at[k] + |old(oooQueue)[k]| == pos
    {
      ReachingChunk(stream, length, base, oooQueue, at, pos, k, rcvNxt);
      var peekLen := |oooQueue[k]|;
      var overlap := if k == rcvNxt then 0 else WrapSub(rcvNxt, k);
      var chunkLen := if overlap < peekLen then peekLen - overlap else 0;
      if 0 < chunkLen && |recvBuf| + chunkLen > TCP_MAX_RECV_BUF {
        return false;
      }
      var data := oooQueue[k];
      oooQueue := oooQueue - {k};
      if 0 < chunkLen {
        Accept(data[overlap..]);
      }
      return true;
    }

    /** Drop the entries that end at or before `rcvNxt`, once none reaches it. */
    method Prune()
      requires Valid() && Near(oooQueue, at, pos, 0)
      requires forall k :: k in oooQueue ==> !Reaches(oooQueue, k, rcvNxt)
      modifies this`oooQueue
      ensures Valid() && Drained(at, old(oooQueue), oooQueue, pos, pos)
      ensures forall k :: k in oooQueue ==> pos < at[k]
    {
      var nxt, queue := rcvNxt, oooQueue;
      var stale := set k | k in queue && Stale(queue, k, nxt);
      PruneDrains(stream, length, base, queue, at, pos, nxt, stale);
      oooQueue := queue - stale;
    }

    /** One iteration of the drain loop. */
    method DrainRound() returns (outcome: Outcome)
      requires Valid() && Near(oooQueue, at, pos, 0)
      modifies this`recvBuf, this`rcvNxt, this`pos, this`oooQueue
      ensures Valid() && old(recvBuf) <= recvBuf
      ensures pos - old(pos) == |recvBuf| - |old(recvBuf)|
      ensures Drained(at, old(oooQueue), oooQueue, old(pos), pos)
      ensures outcome == Again ==> |oooQueue| < |old(oooQueue)|
      ensures outcome == Done ==> forall k :: k in oooQueue ==> pos < at[k]
      ensures outcome == Full ==> Jammed()
    {
      var nxt, queue := rcvNxt, oooQueue;
      var matching := set k | k in queue && Reaches(queue, k, nxt);
      if matching == {} {
        assert forall k :: k in queue ==> k !in matching;
        Prune();
        return Done;
      }
      var k := Least(matching);
      var more := DrainOne(k);
      assert more ==> queue.Keys - {k} == oooQueue.Keys;
      return if more then Again else Full;
    }

    /** Move everything that has become consecutive from the queue to the buffer, then prune. */
    method Drain() returns (jammed: bool)
      requires Valid() && Near(oooQueue, at, pos, TCP_MAX_RECV_BUF - |recvBuf|)
      modifies this`recvBuf, this`rcvNxt, this`pos, this`oooQueue
      ensures Valid() && old(recvBuf) <= recvBuf
      ensures Drained(at, old(oooQueue), oooQueue, old(pos), pos)
      ensures pos - old(pos) == |recvBuf| - |old(recvBuf)|
      ensures if jammed then Jammed() else forall k :: k in oooQueue ==> pos < at[k]
    {
      var outcome := Again;
      while outcome == Again
        invariant Valid() && old(recvBuf) <= recvBuf
        invariant Drained(at, old(oooQueue), oooQueue, old(pos), pos)
        invariant pos - old(pos) == |recvBuf| - |old(recvBuf)|
        invariant outcome == Done ==> forall k :: k in oooQueue ==> pos < at[k]
        invariant outcome == Full ==> Jammed()
        decreases outcome == Again, |oooQueue|
      {
        DrainedNear(at, old(oooQueue), oooQueue, old(pos), pos, TCP_MAX_RECV_BUF - |old(recvBuf)|);
        ghost var queue1, pos1 := oooQueue, pos;
        outcome := DrainRound();
        DrainedTrans(at, old(oooQueue), queue1, oooQueue, old(pos), pos1, pos);
      }
      return outcome == Full;
    }

    /** The bare ACK that every accepted or rejected segment is answered with. */
    function Ack(): Reply
      reads this
    {
      Reply(sndNxt, rcvNxt, RcvWnd(|recvBuf|))
    }

    /** The queue can be compared with `rcvNxt` until the next segment has been processed. */
    predicate Comparable()
      reads this
    {
      Near(oooQueue, at, pos, if |recvBuf| <= TCP_MAX_RECV_BUF then TCP_MAX_RECV_BUF - |recvBuf| else 0)
    }

    /** Every queued entry starts past the next position, by less than 2^31. */
    ghost predicate Ahead()
      reads this
    {
      AllAhead(oooQueue, at, pos)
    }

    /** `data` holds the stream bytes from position `q`, and `seqNum` is `q` on the wire. */
    ghost predicate FromStream(seqNum: nat, data: seq<byte>, q: nat)
      reads this
    {
      && seqNum == (base + q) % SEQ_MOD && data == Slice(stream, q, |data|) && q + |data| <= length
      && pos <= q + HALF && q + |data| < pos + HALF
    }

    /** In-order data: take it if there is room, and drain what it makes consecutive. */
    method ReceiveInOrder(data: seq<byte>) returns (jammed: bool)
      requires Valid() && Comparable() && data == Slice(stream, pos, |data|) && pos + |data| <= length
      modifies this`recvBuf, this`rcvNxt, this`pos, this`oooQueue
      ensures Valid() && old(recvBuf) <= recvBuf
      ensures Drained(at, old(oooQueue), oooQueue, old(pos), pos)
      ensures |old(recvBuf)| + |data| <= TCP_MAX_RECV_BUF ==> old(pos) + |data| <= pos
      ensures |old(recvBuf)| + |data| > TCP_MAX_RECV_BUF ==>
                !jammed && pos == old(pos) && recvBuf == old(recvBuf) && oooQueue == old(oooQueue)
      ensures |old(recvBuf)| + |data| <= TCP_MAX_RECV_BUF ==>
                if jammed then Jammed() else forall k :: k in oooQueue ==> pos < at[k]
      ensures QueueBytes(oooQueue) <= QueueBytes(old(oooQueue))
    {
      if |recvBuf| + |data| > TCP_MAX_RECV_BUF {
        return false;
      }
      Accept(data);
      ghost var pos1 := pos;
      jammed := Drain();
      DrainedTrans(at, old(oooQueue), old(oooQueue), oooQueue, old(pos), pos1, pos);
      QueueBytesSub(old(oooQueue), oooQueue);
    }

    /** Data from the future: remember it under its sequence number, within the queue's budget. */
    method Enqueue(seqNum: nat, data: seq<byte>, q: nat)
      requires Valid() && FromStream(seqNum, data, q) && pos < q
      modifies this`oooQueue, this`at
      ensures Valid()
      ensures forall k :: k in old(oooQueue) ==> k in oooQueue && oooQueue[k] == old(oooQueue)[k] && at[k] == old(at)[k]
      ensures forall k :: k in oooQueue ==> k in old(oooQueue) || (k == seqNum && oooQueue[k] == data && at[k] == q)
      ensures QueueBytes(old(oooQueue)) + |data| <= TCP_MAX_RECV_BUF ==> seqNum in oooQueue
      ensures QueueBytes(old(oooQueue)) <= TCP_MAX_RECV_BUF ==> QueueBytes(oooQueue) <= TCP_MAX_RECV_BUF
    {
      if QueueBytes(oooQueue) + |data| <= TCP_MAX_RECV_BUF && seqNum !in oooQueue {
        QueuedMore(stream, length, base, oooQueue, at, seqNum, data, q);
        oooQueue := oooQueue[seqNum := data];
        at := at[seqNum := q];
      }
    }

    /** Data from the past: nothing, or its part past the next position. */
    method ReceiveOverlap(seqNum: nat, payload: seq<byte>, q: nat) returns (jammed: bool)
      requires Valid() && Comparable() && FromStream(seqNum, payload, q) && q < pos
      modifies this`recvBuf, this`rcvNxt, this`pos, this`oooQueue
      ensures Valid() && old(recvBuf) <= recvBuf
      ensures Drained(at, old(oooQueue), oooQueue, old(pos), pos)
      ensures if |old(recvBuf)| + q + |payload| - old(pos) <= TCP_MAX_RECV_BUF then q + |payload| <= pos
              else pos == old(pos)
      ensures if jammed then Jammed() else old(Ahead()) ==> Ahead()
      ensures q + |payload| <= old(pos) ==>
                pos == old(pos) && recvBuf == old(recvBuf) && oooQueue == old(oooQueue)
      ensures QueueBytes(oooQueue) <= QueueBytes(old(oooQueue))
    {
      WrapCompare(base, q, pos);
      var overlap := WrapSub(rcvNxt, seqNum);
      if |payload| <= overlap {
        return false;
      }
      SliceDrop(stream, q, |payload|, overlap);
      jammed := ReceiveInOrder(payload[overlap..]);
    }

    /** The payload of a segment in the Established state. */
    method ReceiveData(seqNum: nat, payload: seq<byte>, q: nat) returns (jammed: bool)
      requires Valid() && Comparable() && FromStream(seqNum, payload, q)
      modifies this`recvBuf, this`rcvNxt, this`pos, this`oooQueue, this`at
      ensures Valid() && old(recvBuf) <= recvBuf
      // queued bytes are only dropped once they have been accepted
      ensures old(pos) <= pos && Kept(old(at), at, old(oooQueue), oooQueue, pos)
      // every byte of a segment that reaches the next position is accepted, if it fits
      ensures q <= old(pos) ==>
                if |old(recvBuf)| + q + |payload| - old(pos) <= TCP_MAX_RECV_BUF then q + |payload| <= pos
                else pos == old(pos)
      // what is ahead of the next position is queued, if it fits
      ensures old(pos) < q ==> pos == old(pos) && recvBuf == old(recvBuf)
      ensures old(pos) < q && QueueBytes(old(oooQueue)) + |payload| <= TCP_MAX_RECV_BUF ==> seqNum in oooQueue
      // old data changes nothing
      ensures q + |payload| <= old(pos) && q < old(pos) ==>
                pos == old(pos) && recvBuf == old(recvBuf) && oooQueue == old(oooQueue)
      ensures QueueBytes(old(oooQueue)) <= TCP_MAX_RECV_BUF ==> QueueBytes(oooQueue) <= TCP_MAX_RECV_BUF
      // the queue stays ahead of the next position, unless an entry that is next does not fit the buffer
      ensures if jammed then Jammed() else old(Ahead()) ==> Ahead()
    {
      WrapCompare(base, q, pos);
      if WrapSub(seqNum, rcvNxt) >= HALF {
        jammed := ReceiveOverlap(seqNum, payload, q);
      } else if seqNum == rcvNxt {
        jammed := ReceiveInOrder(payload);
      } else {
        Enqueue(seqNum, payload, q);
        jammed := false;
      }
    }

    /** The payload, if there is any; a FIN behind it is in order when it leaves `pos` at `length`. */
    method TakePayload(seqNum: nat, payload: seq<byte>, q: nat)
      requires Valid() && Comparable() && FromStream(seqNum, payload, q)
      modifies this`recvBuf, this`rcvNxt, this`pos, this`oooQueue, this`at
      ensures Valid() && old(pos) <= pos && old(recvBuf) <= recvBuf
      ensures Kept(old(at), at, old(oooQueue), oooQueue, pos)
      ensures Taken(seqNum, q, |payload|, |old(recvBuf)|, old(pos), old(oooQueue), pos, oooQueue)
      ensures old(Ahead()) ==> AllAhead(oooQueue, at, pos) || SomeStuck(oooQueue, at, pos, |recvBuf|)
      ensures q + |payload| == length ==> (pos == length <==> InOrder(q, length, old(pos), |old(recvBuf)|))
    {
      if payload != [] {
        var _ := ReceiveData(seqNum, payload, q);
      }
    }

    /** The FIN, and the answer to it or to the payload before it. */
    method TakeFin(flags: Flags, payload: seq<byte>) returns (reply: Option<Reply>)
      requires Valid() && state == Established
      modifies this`state, this`rcvNxt, this`rcvWnd
      ensures rcvWnd == if reply.Some? then reply.value.window else old(rcvWnd)
      ensures if flags.fin then AfterFin() && state == CloseWait else Valid() && state == Established
      ensures if payload == [] && !flags.fin then reply == None
              else Acks(reply, sndNxt, (base + pos + if flags.fin then 1 else 0) % SEQ_MOD, |recvBuf|)
    {
      reply := if payload == [] then None else Some(Ack());
      if flags.fin {
        WrapAdvance(base, pos, 1);
        rcvNxt := WrapAdd(rcvNxt, 1);
        state := CloseWait;
        reply := Some(Ack());
      }
      if reply.Some? {
        rcvWnd := reply.value.window;
      }
    }

    /** Data, then FIN. */
    method TakeSegment(seqNum: nat, flags: Flags, payload: seq<byte>, q: nat) returns (reply: Option<Reply>)
      requires state == Established && Valid() && Comparable() && FromStream(seqNum, payload, q)
      modifies this`state, this`recvBuf, this`rcvNxt, this`rcvWnd, this`pos, this`oooQueue, this`at
      ensures rcvWnd == if reply.Some? then reply.value.window else old(rcvWnd)
      ensures old(pos) <= pos && old(recvBuf) <= recvBuf
      ensures Kept(old(at), at, old(oooQueue), oooQueue, pos)
      ensures Taken(seqNum, q, |payload|, |old(recvBuf)|, old(pos), old(oooQueue), pos, oooQueue)
      ensures old(Ahead()) ==> AllAhead(oooQueue, at, pos) || SomeStuck(oooQueue, at, pos, |recvBuf|)
      ensures if flags.fin then AfterFin() && state == CloseWait else Valid() && state == Established
      ensures if payload == [] && !flags.fin then reply == None
              else Acks(reply, sndNxt, (base + pos + if flags.fin then 1 else 0) % SEQ_MOD, |recvBuf|)
      ensures q + |payload| == length ==> (pos == length <==> InOrder(q, length, old(pos), |old(recvBuf)|))
    {
      TakePayload(seqNum, payload, q);
      reply := TakeFin(flags, payload);
    }

    /** The Established branch: data, then FIN. */
    method ProcessEstablished(seqNum: nat, ackNum: nat, flags: Flags, payload: seq<byte>, q: nat)
      returns (reply: Option<Reply>)
      requires state == Established && Valid() && Comparable() && FromStream(seqNum, payload, q)
      modifies this`state, this`soError, this`sndUna, this`rcvNxt, this`rcvWnd
      modifies this`recvBuf, this`pos, this`oooQueue, this`at
      ensures rcvWnd == if reply.Some? then reply.value.window else old(rcvWnd)
      ensures old(pos) <= pos && old(recvBuf) <= recvBuf
      ensures Kept(old(at), at, old(oooQueue), oooQueue, pos)
      ensures !flags.rst ==> Taken(seqNum, q, |payload|, |old(recvBuf)|, old(pos), old(oooQueue), pos, oooQueue)
      ensures old(Ahead()) ==> AllAhead(oooQueue, at, pos) || SomeStuck(oooQueue, at, pos, |recvBuf|)
      ensures flags.rst ==> Valid() && state == Closed && soError == 104 && pos == old(pos) && reply == None
      ensures sndUna == if flags.ack && !flags.rst then ackNum else old(sndUna)
      ensures !flags.rst ==> soError == old(soError)
      ensures !flags.rst && !flags.fin ==> Valid() && state == Established
      ensures !flags.rst && flags.fin ==> AfterFin() && state == CloseWait
      // data and a FIN are answered, with the number of the first byte that is still missing
      ensures !flags.rst ==>
                if payload == [] && !flags.fin then reply == None
                else Acks(reply, sndNxt, (base + pos + if flags.fin then 1 else 0) % SEQ_MOD, |recvBuf|)
      // a FIN ends the stream where it should exactly when its segment is in order and fits
      ensures !flags.rst && q + |payload| == length ==>
                (pos == length <==> InOrder(q, length, old(pos), |old(recvBuf)|))
    {
      if flags.rst {
        soError := 104;
        state := Closed;
        return None;
      }
      if flags.ack {
        sndUna := ackNum;
      }
      reply := TakeSegment(seqNum, flags, payload, q);
    }

    /** What a segment does in the states before and after data transfer. */
    twostate predicate OtherStep(seqNum: nat, ackNum: nat, flags: Flags, new reply: Option<Reply>)
      reads this
    {
      match old(state)
      case SynSent =>
        if flags.rst then state == Closed && soError == 111 && reply == None && NumbersKept() && sndUna == old(sndUna)
        else if flags.syn && flags.ack then
          && state == Established && soError == 0 && sndUna == ackNum && pos == 0
          && base == rcvNxt == (seqNum + 1) % SEQ_MOD && Acks(reply, sndNxt, rcvNxt, |recvBuf|)
          && (recvBuf == log == [] && oooQueue == map[] ==> Valid() && Ahead())
        else Nothing(reply)
      case SynReceived =>
        && state == (if flags.ack then Established else SynReceived) && soError == old(soError) && reply == None
        && sndUna == (if flags.ack then ackNum else old(sndUna)) && NumbersKept()
      case FinWait1 =>
        && state == (if flags.fin then TcpState.Closing else if flags.ack then FinWait2 else FinWait1)
        && sndUna == (if flags.ack then ackNum else old(sndUna)) && soError == old(soError)
        && FinAnswered(seqNum, flags, reply)
      case FinWait2 =>
        && state == (if flags.fin then Closed else FinWait2) && sndUna == old(sndUna) && soError == old(soError)
        && FinAnswered(seqNum, flags, reply)
      case _ => Nothing(reply)
    }

    /** After the socket's own FIN the peer's FIN is answered at its number; data are not. */
    twostate predicate FinAnswered(seqNum: nat, flags: Flags, new reply: Option<Reply>)
      reads this
    {
      && base == old(base) && pos == old(pos)
      && rcvNxt == (if flags.fin then (seqNum + 1) % SEQ_MOD else old(rcvNxt))
      && reply == if flags.fin then Some(Reply(sndNxt, rcvNxt, 65535)) else None
    }

    twostate predicate Nothing(new reply: Option<Reply>)
      reads this
    {
      && state == old(state) && sndUna == old(sndUna) && soError == old(soError) && reply == None && NumbersKept()
    }

    twostate predicate NumbersKept()
      reads this
    {
      rcvNxt == old(rcvNxt) && base == old(base) && pos == old(pos)
    }

    /** The states before and after data transfer: only numbers and states change. */
    method ProcessOther(seqNum: nat, ackNum: nat, flags: Flags) returns (reply: Option<Reply>)
      requires state != Established && seqNum < SEQ_MOD
      modifies this`state, this`soError, this`sndUna, this`rcvNxt, this`rcvWnd, this`base, this`pos
      ensures rcvWnd == if reply.Some? then reply.value.window else old(rcvWnd)
      ensures OtherStep(seqNum, ackNum, flags, reply)
    {
      reply := None;
      match state {
        case SynSent =>
          if flags.rst {
            soError := 111;
            state := Closed;
          } else if flags.syn && flags.ack {
            rcvNxt := WrapAdd(seqNum, 1);
            base, pos := rcvNxt, 0;
            sndUna := ackNum;
            soError := 0;
            state := Established;
            reply := Some(Ack());
          }
        case SynReceived =>
          if flags.ack {
            sndUna := ackNum;
            state := Established;
          }
        case FinWait1 =>
          if flags.ack {
            sndUna := ackNum;
            state := FinWait2;
          }
          if flags.fin {
            rcvNxt := WrapAdd(seqNum, 1);
            reply := Some(Reply(sndNxt, rcvNxt, 65535));
            state := TcpState.Closing;
          }
        case FinWait2 =>
          if flags.fin {
            rcvNxt := WrapAdd(seqNum, 1);
            reply := Some(Reply(sndNxt, rcvNxt, 65535));
            state := Closed;
          }
        case _ =>
      }
      if reply.Some? {
        rcvWnd := reply.value.window;
      }
    }

    /** `process_segment`. The bytes are those of the peer's stream; `q` is where they start. */
    method ProcessSegment(seqNum: nat, ackNum: nat, flags: Flags, payload: seq<byte>, q: nat)
      returns (reply: Option<Reply>)
      requires seqNum < SEQ_MOD
      requires state == Established ==> Valid() && Comparable() && FromStream(seqNum, payload, q)
      modifies this
      ensures log == old(log) && sndNxt == old(sndNxt)
      ensures rcvWnd == if reply.Some? then reply.value.window else old(rcvWnd)
      ensures old(state) == Established ==>
                && old(pos) <= pos && old(recvBuf) <= recvBuf
                && Kept(old(at), at, old(oooQueue), oooQueue, pos)
                && (!flags.rst ==>
                      Taken(seqNum, q, |payload|, |old(recvBuf)|, old(pos), old(oooQueue), pos, oooQueue))
                && (if flags.fin && !flags.rst then AfterFin() else Valid())
                && (!flags.rst && q + |payload| == length ==>
                      (pos == length <==> InOrder(q, length, old(pos), |old(recvBuf)|)))
      ensures old(state) == Established && old(Ahead()) ==>
                AllAhead(oooQueue, at, pos) || SomeStuck(oooQueue, at, pos, |recvBuf|)
      ensures old(state) == Established ==>
                state == if flags.rst then Closed else if flags.fin then CloseWait else Established
      ensures old(state) == Established ==>
                && base == old(base) && sndUna == (if flags.ack && !flags.rst then ackNum else old(sndUna))
                && soError == if flags.rst then 104 else old(soError)
      // data and a FIN are answered, with the number of the first byte that is still missing
      ensures old(state) == Established && !flags.rst ==>
                if payload == [] && !flags.fin then reply == None
                else Acks(reply, sndNxt, (base + pos + if flags.fin then 1 else 0) % SEQ_MOD, |recvBuf|)
      ensures old(state) == Established && flags.rst ==> reply == None
      ensures old(state) != Established ==>
                OtherStep(seqNum, ackNum, flags, reply) && recvBuf == old(recvBuf) && oooQueue == old(oooQueue)
                && at == old(at)
    {
      if state == Established {
        reply := ProcessEstablished(seqNum, ackNum, flags, payload, q);
      } else {
        reply := ProcessOther(seqNum, ackNum, flags);
      }
    }

    /** The stream half of `SocketInode::read`, up to the point where it would sleep. */
    method Read(max: nat) returns (r: ReadResult, update: Option<Reply>)
      requires Valid() || (state == CloseWait && AfterFin())
      modifies this`recvBuf, this`log, this`rcvWnd
      ensures old(Valid()) ==> Valid()
      ensures old(AfterFin()) ==> AfterFin()
      ensures r.Data? ==> log == old(log) + r.bytes && log + recvBuf == old(log) + old(recvBuf)
      ensures r.Data? ==> |r.bytes| == (if max < |old(recvBuf)| then max else |old(recvBuf)|) && old(recvBuf) != []
      ensures !r.Data? ==> log == old(log) && recvBuf == old(recvBuf) && update == None
      ensures r == Eof <==> state in {CloseWait, TimeWait} && recvBuf == [] && old(recvBuf) == []
      ensures r == Eof ==> log == Slice(stream, 0, pos)
      ensures r == Error(104) <==> state == Closed
      ensures r == Error(11) <==> nonblocking && old(recvBuf) == [] && state !in {Closed, CloseWait, TimeWait}
      ensures r == Sleeps <==> !nonblocking && old(recvBuf) == [] && state !in {Closed, CloseWait, TimeWait}
      ensures update.Some? ==> Acks(update, sndNxt, rcvNxt, |recvBuf|) && rcvWnd == update.value.window
      ensures update.None? ==> rcvWnd == old(rcvWnd)
      ensures update.Some? <==>
                r.Data? && r.bytes != [] && state == Established && Reopens(old(rcvWnd), |recvBuf|)
      // the reader never leaves the peer with a closed window once there is room again
      ensures r.Data? && r.bytes != [] && state == Established && old(rcvWnd) == 0 ==> update.Some? && 0 < rcvWnd
    {
      update := None;
      if state == Closed {
        return Error(104), None;
      }
      if recvBuf == [] {
        if state in {CloseWait, TimeWait} {
          assert log == log + recvBuf;
          return Eof, None;
        }
        return if nonblocking then Error(11) else Sleeps, None;
      }
      var n := if max < |recvBuf| then max else |recvBuf|;
      var bytes := recvBuf[..n];
      ghost var all := log + recvBuf;
      recvBuf := recvBuf[n..];
      log := log + bytes;
      assert log + recvBuf == all;
      if 0 < n {
        var newWnd := RcvWnd(|recvBuf|);
        var reopened := || recvBuf == []
                        || (rcvWnd < 32768 && newWnd >= 32768)
                        || (rcvWnd == 0 && newWnd > 0)
                        || newWnd - rcvWnd >= 16384;
        if reopened && state == Established {
          rcvWnd := newWnd;
          update := Some(Ack());
        }
      }
      return Data(bytes), update;
    }

    /** `Valid` after the FIN, which takes one sequence number of its own. */
    ghost predicate AfterFin()
      reads this
    {
      && log + recvBuf == Slice(stream, 0, pos)
      && rcvNxt == (base + pos + 1) % SEQ_MOD
      && |recvBuf| <= TCP_MAX_RECV_BUF && pos <= length
    }

    /** An event at stream position `q` is consistent with the peer's stream, and a FIN stands at its end. */
    ghost predicate Consistent(e: Event, q: nat)
      reads this
    {
      e.Arrive? ==>
        && e.seqNum == (base + q) % SEQ_MOD && q + |e.payload| <= length
        && e.payload == Slice(stream, q, |e.payload|) && (e.flags.fin ==> q + |e.payload| == length)
    }

    /** Less than 2^31 away from the next position, as are the queued entries. */
    predicate InReach(q: nat, n: nat)
      reads this
    {
      Comparable() && pos <= q + HALF && q + n < pos + HALF
    }

    /** Data arrive, or the FIN or a RST has been taken. */
    ghost predicate Running()
      reads this
    {
      if state == CloseWait then AfterFin() else state in {Established, Closed} && Valid()
    }

    /** One segment or one read. */
    method Handle(e: Event, q: nat) returns (r: Option<ReadResult>)
      requires Running() && Consistent(e, q)
      requires e.Arrive? && state == Established ==> InReach(q, |e.payload|)
      modifies this
      ensures Running() && old(pos) <= pos && old(log) <= log && base == old(base)
      ensures old(state) == CloseWait ==> state == CloseWait && pos == old(pos)
      ensures state == CloseWait && old(state) != CloseWait ==>
                && e.Arrive? && e.flags.fin && log == old(log)
                && (pos == length <==> InOrder(q, length, old(pos), |old(recvBuf)|))
      ensures e.Arrive? && old(state) == Established ==>
                state == if e.flags.rst then Closed else if e.flags.fin then CloseWait else Established
      ensures r == Some(Eof) <==> e.ReadUpTo? && old(state) == CloseWait && old(recvBuf) == []
      ensures old(state) == CloseWait && old(recvBuf) == [] ==> recvBuf == []
    {
      r := None;
      match e {
        case Arrive(seqNum, ackNum, flags, payload) =>
          var _ := ProcessSegment(seqNum, ackNum, flags, payload, q);
        case ReadUpTo(max) =>
          var result, _ := Read(max);
          r := Some(result);
      }
    }

    /**
     * Any run of segments of one stream, reordered, duplicated or overlapping,
     * with FIN and RST, and of reads, for as long as segments and queued entries
     * are in reach of the next position; with streams shorter than 2^31 they
     * always are. A reader that has seen the end of file has got the whole
     * stream exactly when the FIN was in order.
     */
    method Session(events: seq<Event>, qs: seq<nat>) returns (done: nat, eof: bool, ghost fin: Option<FinArrival>)
      requires Valid() && state == Established
      requires |qs| == |events| && forall i :: 0 <= i < |events| ==> Consistent(events[i], qs[i])
      modifies this
      ensures Running() && old(pos) <= pos && old(log) <= log && base == old(base)
      ensures log + recvBuf == Slice(stream, 0, pos)
      ensures rcvNxt == (base + pos + if state == CloseWait then 1 else 0) % SEQ_MOD
      ensures fin.Some? <==> state == CloseWait
      ensures fin.Some? ==> Ended(events, qs, fin.value)
      ensures eof ==> fin.Some? && (log == Slice(stream, 0, length) <==>
                                      InOrder(fin.value.q, length, fin.value.pos, fin.value.buffered))
      ensures done <= |events|
      ensures done < |events| ==>
                state == Established && events[done].Arrive? && !InReach(qs[done], |events[done].payload|)
      ensures length + TCP_MAX_RECV_BUF < HALF ==> done == |events|
    {
      done, eof, fin := 0, false, None;
      while done < |events|
        invariant Running() && base == old(base) && done <= |events| && old(pos) <= pos && old(log) <= log
        invariant (fin.Some? <==> state == CloseWait) && (fin.Some? ==> Ended(events, qs, fin.value))
        invariant eof ==> state == CloseWait && recvBuf == []
      {
        var e, q := events[done], qs[done];
        assert Consistent(e, q);
        if e.Arrive? && state == Established && !InReach(q, |e.payload|) {
          return;
        }
        ghost var arrival, was := FinArrival(done, q, pos, |recvBuf|), state;
        var r := Handle(e, q);
        eof := eof || r == Some(Eof);
        if state == CloseWait && was != CloseWait {
          fin := Some(arrival);
        }
        done := done + 1;
      }
      assert eof ==> log == log + recvBuf;
    }

    /** The FIN of that arrival has been taken; the stream ended there exactly if it was in order. */
    ghost predicate Ended(events: seq<Event>, qs: seq<nat>, f: FinArrival)
      reads this
    {
      && f.index < |events| == |qs| && events[f.index].Arrive? && events[f.index].flags.fin && f.q == qs[f.index]
      && f.pos <= pos && (pos == length <==> InOrder(f.q, length, f.pos, f.buffered))
    }
  }

  /** A FIN that overtakes the only byte of its stream: the reader sees the end of file and never gets the byte. */
  method EarlyFin() returns (s: Socket, eof: bool)
    ensures eof && s.log == [] && s.length == 1 && s.state == CloseWait && fresh(s)
  {
    s := new Socket.Passive(0, i => 7, 1);
    var _ := s.ProcessSegment(1, 1001, Flags(false, false, false, true), [], 0);
    var _ := s.Handle(Arrive(2, 1001, Flags(true, false, false, true), []), 1);
    var r := s.Handle(ReadUpTo(1), 0);
    eof := r == Some(Eof);
  }
}
