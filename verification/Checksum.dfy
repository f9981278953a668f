// The Internet checksum (RFC 1071) and IPv4 packets that carry it.
module Checksum {
  import opened Bytes
  import opened Wrappers

  const U32: nat := 0x1_0000_0000

  function Word16(hi: byte, lo: byte): nat {
    256 * hi + lo
  }

  /** The sum of the big-endian 16-bit words, an odd last byte padded with zero: the reference. */
  function WordSum(data: seq<byte>): nat {
    if data == [] then 0
    else if |data| == 1 then Word16(data[0], 0)
    else Word16(data[0], data[1]) + WordSum(data[2..])
  }

  /** The end-around carry in closed form: zero stays zero, all else is reduced modulo 65535 to 1..65535. */
  function Folded(sum: nat): (f: nat)
    ensures f <= 0xFFFF && (f == 0 <==> sum == 0)
  {
    if sum == 0 then 0 else (sum - 1) % 0xFFFF + 1
  }

  function ChecksumOf(data: seq<byte>): (c: nat)
    ensures c <= 0xFFFF
  {
    0xFFFF - Folded(WordSum(data))
  }

  lemma {:induction false} WordSumAppend(a: seq<byte>, b: seq<byte>)
    requires |a| % 2 == 0
    ensures WordSum(a + b) == WordSum(a) + WordSum(b)
  {
    if a == [] {
      assert a + b == b;
    } else {
      assert (a + b)[2..] == a[2..] + b;
      WordSumAppend(a[2..], b);
    }
  }

  /** Data of an IPv4 length cannot overflow the 32-bit accumulator. */
  lemma {:induction false} WordSumBound(data: seq<byte>)
    ensures WordSum(data) <= (|data| + 1) / 2 * 0xFFFF
    ensures |data| <= 131074 ==> WordSum(data) < U32
  {
    if |data| > 1 {
      WordSumBound(data[2..]);
    }
  }

  lemma FoldStep(sum: nat)
    requires sum >= 0x10000
    ensures Folded(sum % 0x10000 + sum / 0x10000) == Folded(sum) && sum % 0x10000 + sum / 0x10000 < sum
  {
    var k, r := sum / 0x10000, sum % 0x10000;
    assert sum - 1 == (r + k - 1) + k * 0xFFFF;
    FoldShift(r + k, k);
  }

  lemma {:induction false} FoldShift(a: nat, k: nat)
    requires a > 0
    ensures Folded(a + k * 0xFFFF) == Folded(a)
  {
    if k > 0 {
      FoldShift(a, k - 1);
      var b := a + (k - 1) * 0xFFFF;
      assert b + 0xFFFF == a + k * 0xFFFF;
      assert (b - 1 + 0xFFFF) % 0xFFFF == (b - 1) % 0xFFFF;
    }
  }

  /** The last loop of the checksum. */
  method FoldCarries(start: nat) returns (sum: nat)
    ensures sum == Folded(start)
  {
    sum := start;
    while sum / 0x10000 != 0
      invariant Folded(sum) == Folded(start)
      decreases sum
    {
      FoldStep(sum);
      sum := sum % 0x10000 + sum / 0x10000;
    }
    assert sum > 0 ==> (sum - 1) % 0xFFFF == sum - 1;
  }

  /** Sixteen words at once. */
  function Block32(d: seq<byte>): nat
    requires |d| == 32
  {
    Word16(d[0], d[1]) + Word16(d[2], d[3]) + Word16(d[4], d[5]) + Word16(d[6], d[7])
    + Word16(d[8], d[9]) + Word16(d[10], d[11]) + Word16(d[12], d[13]) + Word16(d[14], d[15])
    + Word16(d[16], d[17]) + Word16(d[18], d[19]) + Word16(d[20], d[21]) + Word16(d[22], d[23])
    + Word16(d[24], d[25]) + Word16(d[26], d[27]) + Word16(d[28], d[29]) + Word16(d[30], d[31])
  }

  lemma Quad(d: seq<byte>)
    requires |d| == 8
    ensures WordSum(d) == Word16(d[0], d[1]) + Word16(d[2], d[3]) + Word16(d[4], d[5]) + Word16(d[6], d[7])
  {
    var a, b, c := d[2..], d[2..][2..], d[2..][2..][2..];
    assert c[2..] == [] && WordSum(c) == Word16(c[0], c[1]) + WordSum(c[2..]);
    assert WordSum(b) == Word16(b[0], b[1]) + WordSum(c);
    assert WordSum(a) == Word16(a[0], a[1]) + WordSum(b);
    assert a[0] == d[2] && a[1] == d[3] && b[0] == d[4] && b[1] == d[5] && c[0] == d[6] && c[1] == d[7];
  }

  /** The unrolled loop body is the sum of its words. */
  lemma BlockIsSum(d: seq<byte>)
    requires |d| == 32
    ensures Block32(d) == WordSum(d)
  {
    var a, b, c, e := d[0..8], d[8..16], d[16..24], d[24..32];
    Quad(a);
    Quad(b);
    Quad(c);
    Quad(e);
    WordSumAppend(c, e);
    WordSumAppend(b, c + e);
    WordSumAppend(a, b + (c + e));
    assert d == a + (b + (c + e));
  }

  /** The unrolled loop: 32 bytes at a time into an unsigned 32-bit accumulator that wraps. */
  method SumBlocks(start: nat, data: seq<byte>) returns (sum: nat, i: nat)
    requires start < U32
    ensures i <= |data| && sum < U32
    ensures start + WordSum(data) < U32 ==> sum + WordSum(data[i..]) == start + WordSum(data)
  {
    i, sum := 0, start;
    assert data[0..] == data;
    ghost var exact := start;
    while i + 32 <= |data|
      invariant 0 <= i <= |data| && sum < U32 && exact + WordSum(data[i..]) == start + WordSum(data)
      invariant exact < U32 ==> sum == exact
    {
      var block := data[i..i + 32];
      BlockIsSum(block);
      WordSumAppend(block, data[i + 32..]);
      assert data[i..] == block + data[i + 32..];
      sum := (sum + Block32(block)) % U32;
      exact := exact + Block32(block);
      i := i + 32;
    }
  }

  /** The remaining pairs and the odd byte. */
  method SumRest(start: nat, data: seq<byte>, from: nat) returns (sum: nat)
    requires start < U32 && from <= |data|
    ensures sum < U32 && (start + WordSum(data[from..]) < U32 ==> sum == start + WordSum(data[from..]))
  {
    var i := from;
    sum := start;
    ghost var exact := start;
    while i + 1 < |data|
      invariant from <= i <= |data| && sum < U32 && exact + WordSum(data[i..]) == start + WordSum(data[from..])
      invariant exact < U32 ==> sum == exact
    {
      assert data[i..][2..] == data[i + 2..];
      sum := (sum + Word16(data[i], data[i + 1])) % U32;
      exact := exact + Word16(data[i], data[i + 1]);
      i := i + 2;
    }
    if i < |data| {
      assert data[i..] == [data[i]];
      sum := (sum + Word16(data[i], 0)) % U32;
    } else {
      assert data[i..] == [];
    }
  }

  method SumWords(start: nat, data: seq<byte>) returns (sum: nat)
    requires start < U32
    ensures sum < U32 && (start + WordSum(data) < U32 ==> sum == start + WordSum(data))
  {
    var part, i := SumBlocks(start, data);
    sum := SumRest(part, data, i);
  }

  /** `internet_checksum`: the unrolled sum is the word-by-word sum, whenever that fits 32 bits. */
  method InternetChecksum(data: seq<byte>) returns (c: nat)
    ensures c <= 0xFFFF && (WordSum(data) < U32 ==> c == ChecksumOf(data))
    ensures |data| <= 131074 ==> c == ChecksumOf(data)
  {
    WordSumBound(data);
    var sum := SumWords(0, data);
    var f := FoldCarries(sum);
    return 0xFFFF - f;
  }

  /** A 16-bit field set to `c`, high byte first. */
  function FillField(data: seq<byte>, k: nat, c: nat): (r: seq<byte>)
    requires k + 2 <= |data| && c <= 0xFFFF
    ensures |r| == |data|
  {
    data[..k] + [c / 256, c % 256] + data[k + 2..]
  }

  /** Filling a zero field at an even offset adds the value of the field. */
  lemma WordSumFill(data: seq<byte>, k: nat, c: nat)
    requires k % 2 == 0 && k + 2 <= |data| && data[k] == 0 && data[k + 1] == 0 && c <= 0xFFFF
    ensures WordSum(FillField(data, k, c)) == WordSum(data) + c
  {
    var field: seq<byte>, zero: seq<byte> := [c / 256, c % 256], [0, 0];
    assert data == data[..k] + (zero + data[k + 2..]);
    assert FillField(data, k, c) == data[..k] + (field + data[k + 2..]);
    WordSumAppend(data[..k], zero + data[k + 2..]);
    WordSumAppend(data[..k], field + data[k + 2..]);
    assert (zero + data[k + 2..])[2..] == data[k + 2..] && (field + data[k + 2..])[2..] == data[k + 2..];
  }

  lemma FoldFull(s: nat, c: nat)
    requires s + c > 0 && (c == 0xFFFF - Folded(s) || (c == 0xFFFF && Folded(s) == 0xFFFF))
    ensures Folded(s + c) == 0xFFFF
  {
    if s > 0 {
      var q, r := (s - 1) / 0xFFFF, (s - 1) % 0xFFFF;
      assert s - 1 == q * 0xFFFF + r && Folded(s) == r + 1;
      if c == 0xFFFF - Folded(s) {
        assert s + c == 0xFFFF + q * 0xFFFF;
        FoldShift(0xFFFF, q);
      } else {
        assert s + c == 0xFFFF + (q + 1) * 0xFFFF;
        FoldShift(0xFFFF, q + 1);
      }
    }
  }

  /** Data whose zero field has been filled with its checksum always verifies to zero. */
  lemma ChecksumVerifies(data: seq<byte>, k: nat)
    requires k % 2 == 0 && k + 2 <= |data| && data[k] == 0 && data[k + 1] == 0
    ensures ChecksumOf(FillField(data, k, ChecksumOf(data))) == 0
  {
    var c := ChecksumOf(data);
    WordSumFill(data, k, c);
    FoldFull(WordSum(data), c);
  }

  datatype Address = Address(a: byte, b: byte, c: byte, d: byte)

  /** The sum of the pseudo-header. */
  function PseudoSum(src: Address, dst: Address, protocol: byte, length: nat): nat {
    Word16(src.a, src.b) + Word16(src.c, src.d) + Word16(dst.a, dst.b) + Word16(dst.c, dst.d) + protocol + length
  }

  /** The pseudo-header of section 3.1 of RFC 9293: addresses, a zero, the protocol and the length. */
  function PseudoHeader(src: Address, dst: Address, protocol: byte, length: nat): (h: seq<byte>)
    requires length <= 0xFFFF
    ensures |h| == 12
  {
    [src.a, src.b, src.c, src.d, dst.a, dst.b, dst.c, dst.d, 0, protocol, length / 256, length % 256]
  }

  /** The sum is that of the pseudo-header's bytes. */
  lemma PseudoSumBytes(src: Address, dst: Address, protocol: byte, length: nat)
    requires length <= 0xFFFF
    ensures PseudoSum(src, dst, protocol, length) == WordSum(PseudoHeader(src, dst, protocol, length))
  {
    var h := PseudoHeader(src, dst, protocol, length);
    Quad(h[..8]);
    var rest := h[8..];
    assert rest[2..][2..] == [] && WordSum(rest[2..]) == Word16(rest[2], rest[3]);
    assert WordSum(rest) == Word16(rest[0], rest[1]) + WordSum(rest[2..]);
    assert h == h[..8] + rest;
    WordSumAppend(h[..8], rest);
  }

  /** The accumulator after the pseudo-header. */
  method PseudoStart(src: Address, dst: Address, protocol: byte, length: nat) returns (sum: nat)
    ensures sum < U32
    ensures length <= 0xFFFF ==> sum == PseudoSum(src, dst, protocol, length) <= 6 * 0xFFFF
  {
    var pseudo := PseudoSum(src, dst, protocol, length % U32);
    return pseudo % U32;
  }

  /** `compute_transport_checksum`: never zero, since zero means that there is no checksum. */
  method TransportChecksum(src: Address, dst: Address, protocol: byte, segment: seq<byte>) returns (c: nat)
    ensures 0 < c <= 0xFFFF
    ensures |segment| <= 0xFFFF ==>
              var f := Folded(WordSum(PseudoHeader(src, dst, protocol, |segment|) + segment));
              c == if f == 0xFFFF then 0xFFFF else 0xFFFF - f
  {
    WordSumBound(segment);
    if |segment| <= 0xFFFF {
      PseudoSumBytes(src, dst, protocol, |segment|);
      WordSumAppend(PseudoHeader(src, dst, protocol, |segment|), segment);
    }
    var start := PseudoStart(src, dst, protocol, |segment|);
    var sum := SumWords(start, segment);
    var f := FoldCarries(sum);
    c := 0xFFFF - f;
    if c == 0 {
      c := 0xFFFF;
    }
  }

  lemma FoldedSame(a: nat, b: nat)
    requires a == b
    ensures Folded(a) == Folded(b)
  {
  }

  /** A segment that carries its transport checksum sums to all ones with the pseudo-header. */
  lemma TransportVerifies(pseudo: seq<byte>, segment: seq<byte>, k: nat, c: nat)
    requires k % 2 == 0 && k + 2 <= |segment| && segment[k] == 0 && segment[k + 1] == 0 && |pseudo| % 2 == 0
    requires var f := Folded(WordSum(pseudo + segment)); c == if f == 0xFFFF then 0xFFFF else 0xFFFF - f
    ensures Folded(WordSum(pseudo + FillField(segment, k, c))) == 0xFFFF
  {
    var filled, sum := FillField(segment, k, c), WordSum(pseudo + segment);
    FoldFull(sum, c);
    FilledSum(pseudo, segment, k, c);
    FoldedSame(WordSum(pseudo + filled), sum + c);
  }

  lemma FilledSum(pseudo: seq<byte>, segment: seq<byte>, k: nat, c: nat)
    requires k % 2 == 0 && k + 2 <= |segment| && segment[k] == 0 && segment[k + 1] == 0 && |pseudo| % 2 == 0
    requires c <= 0xFFFF
    ensures WordSum(pseudo + FillField(segment, k, c)) == WordSum(pseudo + segment) + c
  {
    WordSumAppend(pseudo, segment);
    WordSumFill(segment, k, c);
    WordSumAppend(pseudo, FillField(segment, k, c));
  }

  const HEADER: nat := 20

  /** A header of twenty bytes with the checksum field `c`. */
  function HeaderBytes(total: nat, ident: nat, protocol: byte, c: nat, src: Address, dst: Address): (h: seq<byte>)
    requires total <= 0xFFFF && ident <= 0xFFFF && c <= 0xFFFF
    ensures |h| == HEADER
  {
    [0x45, 0, total / 256, total % 256, ident / 256, ident % 256, 0, 0, 64, protocol, c / 256, c % 256,
     src.a, src.b, src.c, src.d, dst.a, dst.b, dst.c, dst.d]
  }

  datatype Packet = Packet(identification: nat, ttl: byte, protocol: byte, src: Address, dst: Address,
                           payload: seq<byte>)

  /** `Ipv4Header::parse`, with the fields that callers use. */
  function Parse(data: seq<byte>): Option<Packet> {
    if |data| < HEADER || data[0] / 16 != 4 then None
    else
      var ihl := data[0] % 16 * 4;
      if ihl < HEADER || |data| < ihl then None
      else
        var total := Word16(data[2], data[3]);
        if total < ihl || |data| < total then None
        else
          Some(Packet(Word16(data[4], data[5]), data[8], data[9], Address(data[12], data[13], data[14], data[15]),
                      Address(data[16], data[17], data[18], data[19]), data[ihl..total]))
  }

  lemma BuiltParses(total: nat, ident: nat, protocol: byte, c: nat, src: Address, dst: Address, payload: seq<byte>)
    requires total == HEADER + |payload| && total <= 0xFFFF && ident <= 0xFFFF && c <= 0xFFFF
    ensures Parse(HeaderBytes(total, ident, protocol, c, src, dst) + payload)
            == Some(Packet(ident, 64, protocol, src, dst, payload))
  {
    var h := HeaderBytes(total, ident, protocol, c, src, dst);
    var data := h + payload;
    assert data[0] == 0x45 && data[2] == total / 256 && data[3] == total % 256;
    assert data[HEADER..total] == payload;
  }

  /** A header with options, and bytes behind the packet: the payload ends where the header says. */
  lemma ParseOptions(h: seq<byte>, options: seq<byte>, payload: seq<byte>, pad: seq<byte>, total: nat)
    requires |h| == HEADER && |options| % 4 == 0 && |options| <= 40 && h[0] == 0x45 + |options| / 4
    requires total == HEADER + |options| + |payload| <= 0xFFFF && h[2] == total / 256 && h[3] == total % 256
    ensures Parse(h + options + payload + pad) ==
            Some(Packet(h[4] as nat * 256 + h[5] as nat, h[8], h[9], Address(h[12], h[13], h[14], h[15]),
                        Address(h[16], h[17], h[18], h[19]), payload))
  {
    var data, ihl := h + options + payload + pad, HEADER + |options|;
    assert data[..HEADER] == h;
    assert forall i :: 0 <= i < HEADER ==> data[i] == h[i];
    assert data[0] % 16 * 4 == ihl && data[0] / 16 == 4;
    assert data[ihl..total] == payload;
  }

  /** Anything else is refused: too short, another version, or lengths that do not fit. */
  lemma ParseRefuses(data: seq<byte>)
    ensures Parse(data).None? <==>
              || |data| < 20 || data[0] < 0x45 || 0x4F < data[0]
              || |data| < data[0] % 16 * 4
              || data[2] as nat * 256 + data[3] as nat < data[0] % 16 * 4
              || |data| < data[2] as nat * 256 + data[3] as nat
  {
  }

  /** `build_ipv4_packet`: what is built parses back, and its header verifies. */
  method BuildIpv4Packet(buf: array<byte>, src: Address, dst: Address, protocol: byte, payload: seq<byte>, ident: nat)
    returns (n: Option<nat>)
    requires ident <= 0xFFFF
    modifies buf
    ensures n == if buf.Length < HEADER + |payload|
      || HEADER + |payload| > 65535 then None else Some(HEADER + |payload|)
    ensures n.None? ==> buf[..] == old(buf[..])
    ensures n.Some? ==>
              && Parse(buf[..n.value]) == Some(Packet(ident, 64, protocol, src, dst, payload))
              && ChecksumOf(buf[..HEADER]) == 0 && buf[n.value..] == old(buf[n.value..])
              && buf[..10] == [0x45, 0, n.value / 256, n.value % 256, ident / 256, ident % 256, 0, 0, 64, protocol]
              && buf[12..20] == [src.a, src.b, src.c, src.d, dst.a, dst.b, dst.c, dst.d]
              && buf[20..n.value] == payload
  {
    var total := HEADER + |payload|;
    if buf.Length < total || total > 65535 {
      return None;
    }
    var header, c := MakeHeader(total, ident, protocol, src, dst);
    BuiltParses(total, ident, protocol, c, src, dst, payload);
    StorePacket(buf, header, payload);
    assert buf[..10] == buf[..HEADER][..10] && buf[12..20] == buf[..HEADER][12..20];
    assert buf[20..total] == buf[..total][20..];
    return Some(total);
  }

  /** The header is built with a zero checksum, which is then filled in. */
  method MakeHeader(total: nat, ident: nat, protocol: byte, src: Address, dst: Address)
    returns (header: seq<byte>, c: nat)
    requires total <= 0xFFFF && ident <= 0xFFFF
    ensures c <= 0xFFFF && header == HeaderBytes(total, ident, protocol, c, src, dst) && ChecksumOf(header) == 0
  {
    var zero := HeaderBytes(total, ident, protocol, 0, src, dst);
    c := InternetChecksum(zero);
    header := HeaderBytes(total, ident, protocol, c, src, dst);
    ChecksumVerifies(zero, 10);
    assert header == FillField(zero, 10, c);
  }

  method StorePacket(buf: array<byte>, header: seq<byte>, payload: seq<byte>)
    requires |header| == HEADER && HEADER + |payload| <= buf.Length
    modifies buf
    ensures buf[..HEADER] == header && buf[..HEADER + |payload|] == header + payload
    ensures buf[HEADER + |payload|..] == old(buf[HEADER + |payload|..])
  {
    ghost var was := buf[..];
    PutBytes(buf, 0, header);
    PutBytes(buf, HEADER, payload);
    SpliceBelow(was, 0, header, payload);
    ghost var n := HEADER + |payload|;
    SpliceTail(was, 0, header + payload, n);
    assert buf[..n] == buf[..][0..n] && buf[..HEADER] == buf[..n][..HEADER];
  }
}
