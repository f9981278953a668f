// Writing runs of pages to a file, one write per run or one write per page.
module FileWrites {
  import opened Bytes

  const PAGE: nat := 4096

  function Min(a: int, b: int): int {
    if a < b then a else b
  }

  /** The byte at `i`; past the end a file reads as zeros. */
  function ByteAt(file: seq<byte>, i: nat): byte {
    if i < |file| then file[i] else 0
  }

  function Zeros(n: nat): seq<byte> {
    seq(n, i => 0)
  }

  /** `write_direct`: replace the bytes from `at` on, growing the file if needed. */
  function WriteAt(file: seq<byte>, at: nat, data: seq<byte>): (r: seq<byte>)
    ensures |r| == if data == [] || at + |data| <= |file| then |file| else at + |data|
    ensures forall i :: 0 <= i < |r| ==>
              r[i] == if at <= i < at + |data| then data[i - at] else ByteAt(file, i)
  {
    if data == [] then file
    else if at + |data| <= |file| then file[..at] + data + file[at + |data|..]
    else if at <= |file| then file[..at] + data
    else file + Zeros(at - |file|) + data
  }

  /** What is written of a page at `at`: nothing past the end of the file. */
  function Clipped(page: seq<byte>, at: nat, size: nat): seq<byte> {
    if at + |page| <= size then page else if at < size then page[..size - at] else []
  }

  /** One page at a time, the reference. */
  function Pagewise(file: seq<byte>, offs: seq<nat>, pages: seq<seq<byte>>, size: nat): seq<byte>
    requires |offs| == |pages|
  {
    if offs == [] then file
    else
      var last := |offs| - 1;
      WriteAt(Pagewise(file, offs[..last], pages[..last], size), offs[last], Clipped(pages[last], offs[last], size))
  }

  /** The pages of a run, one after the other. */
  function Concat(pages: seq<seq<byte>>): seq<byte> {
    if pages == [] then [] else Concat(pages[..|pages| - 1]) + pages[|pages| - 1]
  }

  /** One merged write of all pages at the start of the run. */
  function Merged(file: seq<byte>, start: nat, pages: seq<seq<byte>>, size: nat): seq<byte> {
    WriteAt(file, start, Clipped(Concat(pages), start, size))
  }

  ghost predicate WholePages(pages: seq<seq<byte>>) {
    forall j :: 0 <= j < |pages| ==> |pages[j]| == PAGE
  }

  /** Offsets as the flush collects them: multiples of the page size, rising, from `start` or later. */
  ghost predicate Rising(start: nat, offs: seq<nat>) {
    && start % PAGE == 0
    && (forall j :: 0 <= j < |offs| ==> start <= offs[j] && offs[j] % PAGE == 0)
    && (forall i, j :: 0 <= i < j < |offs| ==> offs[i] < offs[j])
  }

  function SlotOf(start: nat, j: nat): nat {
    start + j * PAGE
  }

  /** Every page whose slot in the merged write lies below the size is the page of that slot. */
  ghost predicate NoGap(start: nat, offs: seq<nat>, size: nat) {
    forall j :: 0 <= j < |offs| && SlotOf(start, j) < size ==> offs[j] == SlotOf(start, j)
  }

  ghost predicate MergeCorrect(start: nat, offs: seq<nat>, size: nat) {
    forall file: seq<byte>, pages: seq<seq<byte>> :: |pages| == |offs| && WholePages(pages) ==>
      Merged(file, start, pages, size) == Pagewise(file, offs, pages, size)
  }

  lemma {:induction false} RisingSlots(start: nat, offs: seq<nat>, j: nat)
    requires Rising(start, offs) && j < |offs|
    ensures SlotOf(start, j) <= offs[j]
  {
    if j > 0 {
      RisingSlots(start, offs, j - 1);
      assert offs[j - 1] < offs[j];
    }
  }

  lemma {:induction false} ConcatLength(pages: seq<seq<byte>>)
    requires WholePages(pages)
    ensures |Concat(pages)| == |pages| * PAGE
  {
    if pages == [] {
    } else {
      ConcatLength(pages[..|pages| - 1]);
    }
  }

  /** Cutting two adjacent pieces at the size. */
  lemma ClippedAppend(a: seq<byte>, b: seq<byte>, start: nat, size: nat)
    ensures Clipped(a + b, start, size) == Clipped(a, start, size) + Clipped(b, start + |a|, size)
  {
    if start + |a| + |b| <= size {
    } else if start + |a| < size {
      assert (a + b)[..size - start] == a + b[..size - start - |a|];
    } else if start < size {
      assert (a + b)[..size - start] == a[..size - start];
    }
  }

  /** The merged buffer, cut at the size, is the buffer without its last page followed by that page, cut. */
  lemma ClippedSnoc(pages: seq<seq<byte>>, start: nat, size: nat)
    requires WholePages(pages) && pages != []
    ensures var last := |pages| - 1;
            Clipped(Concat(pages), start, size)
            == Clipped(Concat(pages[..last]), start, size) + Clipped(pages[last], SlotOf(start, last), size)
  {
    var last := |pages| - 1;
    ConcatLength(pages[..last]);
    ClippedAppend(Concat(pages[..last]), pages[last], start, size);
  }

  /** Two writes of consecutive bytes are one write. */
  lemma WriteAppend(file: seq<byte>, at: nat, a: seq<byte>, b: seq<byte>)
    ensures WriteAt(WriteAt(file, at, a), at + |a|, b) == WriteAt(file, at, a + b)
  {
    if a == [] {
      assert a + b == b;
    }
  }

  /** A run without gaps: the merged write leaves the file as single-page writes would. */
  lemma {:induction false} MergedIsPagewise(file: seq<byte>, start: nat, offs: seq<nat>, pages: seq<seq<byte>>,
                                            size: nat)
    requires |pages| == |offs| && WholePages(pages)
    requires Rising(start, offs) && NoGap(start, offs, size)
    ensures Merged(file, start, pages, size) == Pagewise(file, offs, pages, size)
    decreases |offs|
  {
    if offs == [] {
    } else {
      var last := |offs| - 1;
      MergedIsPagewise(file, start, offs[..last], pages[..last], size);
      ClippedSnoc(pages, start, size);
      ConcatLength(pages[..last]);
      RisingSlots(start, offs, last);
      MergeOne(file, start, Concat(pages[..last]), pages[last], offs[last], last, size);
    }
  }

  /** The last page of a run, written behind the others or past the size. */
  lemma MergeOne(file: seq<byte>, start: nat, front: seq<byte>, page: seq<byte>, off: nat, last: nat, size: nat)
    requires |front| == last * PAGE && SlotOf(start, last) <= off
             && (SlotOf(start, last) < size ==> off == SlotOf(start, last))
    ensures WriteAt(file, start, Clipped(front, start, size) + Clipped(page, SlotOf(start, last), size))
            == WriteAt(WriteAt(file, start, Clipped(front, start, size)), off, Clipped(page, off, size))
  {
    var a, b := Clipped(front, start, size), Clipped(page, SlotOf(start, last), size);
    if SlotOf(start, last) < size {
      WriteAppend(file, start, a, b);
    } else {
      assert b == [] && a + b == a;
    }
  }

  /** Bytes that no written page covers keep their value. */
  lemma {:induction false} PagewiseZero(offs: seq<nat>, pages: seq<seq<byte>>, size: nat, i: nat)
    requires |pages| == |offs| && WholePages(pages)
    requires forall j :: 0 <= j < |offs| && offs[j] <= i < offs[j] + PAGE ==> pages[j][i - offs[j]] == 0
    ensures ByteAt(Pagewise([], offs, pages, size), i) == 0
    decreases |offs|
  {
    if offs == [] {
    } else {
      var last := |offs| - 1;
      PagewiseZero(offs[..last], pages[..last], size, i);
    }
  }

  lemma {:induction false} ConcatAt(pages: seq<seq<byte>>, j: nat, i: nat)
    requires WholePages(pages) && j < |pages| && i < PAGE
    ensures |Concat(pages)| == |pages| * PAGE && Concat(pages)[j * PAGE + i] == pages[j][i]
    decreases |pages|
  {
    ConcatLength(pages);
    ConcatLength(pages[..|pages| - 1]);
    if j < |pages| - 1 {
      ConcatAt(pages[..|pages| - 1], j, i);
    }
  }

  /** All pages zero but page `j`, which is all ones. */
  function Marker(n: nat, j: nat): (pages: seq<seq<byte>>)
    ensures |pages| == n && WholePages(pages)
    ensures forall i, x :: 0 <= i < n && 0 <= x < PAGE ==> pages[i][x] == if i == j then 1 else 0
  {
    seq(n, i => seq(PAGE, x => if i == j then 1 else 0))
  }

  /** A gap before a page inside the file: the merged write puts that page at the wrong offset. */
  lemma GapMisplaces(start: nat, offs: seq<nat>, size: nat, j: nat)
    requires Rising(start, offs) && j < |offs| && SlotOf(start, j) < size && offs[j] != SlotOf(start, j)
    ensures Merged([], start, Marker(|offs|, j), size) != Pagewise([], offs, Marker(|offs|, j), size)
  {
    var pages, at := Marker(|offs|, j), SlotOf(start, j);
    RisingSlots(start, offs, j);
    PagewiseZero(offs, pages, size, at);
    MergedPage([], start, pages, size, j, 0);
  }

  /** The merged write is right for all contents exactly when the run has no gap below the size. */
  lemma MergeExact(start: nat, offs: seq<nat>, size: nat)
    requires Rising(start, offs)
    ensures MergeCorrect(start, offs, size) <==> NoGap(start, offs, size)
  {
    if NoGap(start, offs, size) {
      forall file: seq<byte>, pages: seq<seq<byte>> | |pages| == |offs| && WholePages(pages)
        ensures Merged(file, start, pages, size) == Pagewise(file, offs, pages, size)
      {
        MergedIsPagewise(file, start, offs, pages, size);
      }
    } else {
      var j :| 0 <= j < |offs| && SlotOf(start, j) < size && offs[j] != SlotOf(start, j);
      GapMisplaces(start, offs, size, j);
    }
  }

  /** Page-by-page writes one list after the other. */
  lemma {:induction false} PagewiseAppend(file: seq<byte>, a: seq<nat>, p: seq<seq<byte>>, b: seq<nat>,
                                          q: seq<seq<byte>>, size: nat)
    requires |a| == |p| && |b| == |q|
    ensures Pagewise(file, a + b, p + q, size) == Pagewise(Pagewise(file, a, p, size), b, q, size)
    decreases |b|
  {
    if b == [] {
      assert a + b == a && p + q == p;
    } else {
      var last := |b| - 1;
      PagewiseAppend(file, a, p, b[..last], q[..last], size);
      assert (a + b)[..|a + b| - 1] == a + b[..last] && (p + q)[..|p + q| - 1] == p + q[..last];
    }
  }

  lemma MergedPage(file: seq<byte>, start: nat, pages: seq<seq<byte>>, size: nat, j: nat, i: nat)
    requires WholePages(pages) && j < |pages| && i < PAGE && SlotOf(start, j) + i < size
    ensures ByteAt(Merged(file, start, pages, size), SlotOf(start, j) + i) == pages[j][i]
  {
    ConcatAt(pages, j, i);
    assert SlotOf(start, j) + i - start == j * PAGE + i;
  }

  /** One merged run continues page-by-page writes. */
  lemma MergedAfter(file: seq<byte>, a: seq<nat>, p: seq<seq<byte>>, b: seq<nat>, q: seq<seq<byte>>, size: nat)
    requires |a| == |p| && |b| == |q| && b != [] && WholePages(q) && Rising(b[0], b) && NoGap(b[0], b, size)
    ensures Merged(Pagewise(file, a, p, size), b[0], q, size) == Pagewise(file, a + b, p + q, size)
  {
    MergedIsPagewise(Pagewise(file, a, p, size), b[0], b, q, size);
    PagewiseAppend(file, a, p, b, q, size);
  }
}
