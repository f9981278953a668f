// Unmapping an address range from the list of mapped regions.
module UnmapRange {
  import opened Regions
  import opened Wrappers

  /** The mapping of one address: the attributes and the file offset that belong to it. */
  datatype Mapping = Mapping(attributes: Attributes, offset: nat)

  /** The mapping of an address: that of the first region that covers it. */
  function Lookup(rs: seq<Region>, a: nat): Option<Mapping> {
    if rs == [] then None
    else if Covers(rs[0], a) then Some(Mapping(rs[0].attributes, rs[0].offset + (a - rs[0].start)))
    else Lookup(rs[1..], a)
  }

  /** The region reaches beyond the range on both sides. */
  predicate Straddles(r: Region, lo: nat, hi: nat) {
    r.start < lo && End(r) > hi
  }

  /** What is left of a region. */
  function Cut(r: Region, lo: nat, hi: nat): seq<Region> {
    if End(r) <= lo || r.start >= hi then [r]
    else
      (if r.start < lo then [r.(len := lo - r.start)] else [])
      + if End(r) > hi then [Region(hi, End(r) - hi, r.offset + (hi - r.start), r.attributes)] else []
  }

  /** The loop: every region is cut, until one straddles the range. */
  function Unmapped(rs: seq<Region>, lo: nat, hi: nat): seq<Region> {
    if rs == [] then []
    else if Straddles(rs[0], lo, hi) then Cut(rs[0], lo, hi) + rs[1..]
    else Cut(rs[0], lo, hi) + Unmapped(rs[1..], lo, hi)
  }

  ghost predicate Disjoint(rs: seq<Region>) {
    forall i, j, a :: 0 <= i < j < |rs| && Covers(rs[i], a) ==> !Covers(rs[j], a)
  }

  /** No region has an address of the range. */
  ghost predicate Clear(rs: seq<Region>, lo: nat, hi: nat) {
    forall i, a :: 0 <= i < |rs| && lo <= a < hi ==> !Covers(rs[i], a)
  }

  /** The regions that the loop does not look at are clear of the range. */
  ghost predicate BreakSafe(rs: seq<Region>, lo: nat, hi: nat) {
    rs == [] || if Straddles(rs[0], lo, hi) then Clear(rs[1..], lo, hi) else BreakSafe(rs[1..], lo, hi)
  }

  /** Exactly the range is unmapped: elsewhere mapping, file offset and protection stay. */
  ghost predicate Exact(rs: seq<Region>, lo: nat, hi: nat) {
    forall a: nat :: Lookup(Unmapped(rs, lo, hi), a) == if lo <= a < hi then None else Lookup(rs, a)
  }

  lemma {:induction false} LookupAppend(a: seq<Region>, b: seq<Region>, x: nat)
    ensures Lookup(a + b, x) == if Lookup(a, x).Some? then Lookup(a, x) else Lookup(b, x)
  {
    if a == [] {
      assert a + b == b;
    } else {
      assert (a + b)[1..] == a[1..] + b;
      LookupAppend(a[1..], b, x);
    }
  }

  lemma {:induction false} LookupClear(rs: seq<Region>, a: nat)
    ensures Lookup(rs, a) == None <==> forall i :: 0 <= i < |rs| ==> !Covers(rs[i], a)
  {
    if rs == [] {
    } else {
      LookupClear(rs[1..], a);
      assert forall i :: 0 < i < |rs| ==> rs[i] == rs[1..][i - 1];
    }
  }

  /** A cut region maps what it mapped, outside the range. */
  lemma CutLookup(r: Region, lo: nat, hi: nat, a: nat)
    requires lo < hi
    ensures Lookup(Cut(r, lo, hi), a) == if lo <= a < hi then None else Lookup([r], a)
  {
    var c := Cut(r, lo, hi);
    assert |c| <= 2;
    assert c != [] ==> Lookup(c[1..], a) == if |c| == 1 || !Covers(c[1], a) then None
                       else Some(Mapping(c[1].attributes, c[1].offset + (a - c[1].start)));
  }

  /** The result is right at one address when no region past the break covers it, or it lies outside the range. */
  lemma {:induction false} UnmappedLookup(rs: seq<Region>, lo: nat, hi: nat, a: nat)
    requires lo < hi && BreakSafe(rs, lo, hi)
    ensures Lookup(Unmapped(rs, lo, hi), a) == if lo <= a < hi then None else Lookup(rs, a)
  {
    if rs == [] {
    } else {
      var c := Cut(rs[0], lo, hi);
      CutLookup(rs[0], lo, hi, a);
      assert rs == [rs[0]] + rs[1..];
      LookupAppend([rs[0]], rs[1..], a);
      if Straddles(rs[0], lo, hi) {
        LookupAppend(c, rs[1..], a);
        LookupClear(rs[1..], a);
      } else {
        LookupAppend(c, Unmapped(rs[1..], lo, hi), a);
        UnmappedLookup(rs[1..], lo, hi, a);
      }
    }
  }

  /** If the break skips a region that covers an address of the range, that address stays mapped. */
  lemma {:induction false} BreakLeaves(rs: seq<Region>, lo: nat, hi: nat) returns (a: nat)
    requires lo < hi && !BreakSafe(rs, lo, hi)
    ensures lo <= a < hi && Lookup(Unmapped(rs, lo, hi), a).Some?
  {
    var c := Cut(rs[0], lo, hi);
    if Straddles(rs[0], lo, hi) {
      var i, x :| 0 <= i < |rs[1..]| && lo <= x < hi && Covers(rs[1..][i], x);
      a := x;
      LookupClear(rs[1..], a);
      LookupAppend(c, rs[1..], a);
    } else {
      a := BreakLeaves(rs[1..], lo, hi);
      LookupAppend(c, Unmapped(rs[1..], lo, hi), a);
    }
  }

  /** The early break loses nothing exactly when the regions behind it are clear of the range. */
  lemma UnmapExact(rs: seq<Region>, lo: nat, hi: nat)
    requires lo < hi
    ensures Exact(rs, lo, hi) <==> BreakSafe(rs, lo, hi)
  {
    if BreakSafe(rs, lo, hi) {
      forall a: nat ensures Lookup(Unmapped(rs, lo, hi), a) == if lo <= a < hi then None else Lookup(rs, a) {
        UnmappedLookup(rs, lo, hi, a);
      }
    } else {
      var a := BreakLeaves(rs, lo, hi);
    }
  }

  /** Disjoint regions are safe: nothing else can lie inside a region that straddles the range. */
  lemma {:induction false} DisjointSafe(rs: seq<Region>, lo: nat, hi: nat)
    requires lo < hi && Disjoint(rs)
    ensures BreakSafe(rs, lo, hi)
  {
    if rs == [] {
    } else {
      if Straddles(rs[0], lo, hi) {
        forall i, a | 0 <= i < |rs[1..]| && lo <= a < hi ensures !Covers(rs[1..][i], a) {
          assert Covers(rs[0], a) && rs[1..][i] == rs[i + 1];
        }
      } else {
        DisjointSafe(rs[1..], lo, hi);
      }
    }
  }

  /** Cutting never makes a region cover more. */
  lemma {:induction false} UnmappedWithin(rs: seq<Region>, lo: nat, hi: nat, i: nat) returns (k: nat)
    requires lo < hi && i < |Unmapped(rs, lo, hi)|
    ensures k < |rs| && forall a :: Covers(Unmapped(rs, lo, hi)[i], a) ==> Covers(rs[k], a)
  {
    var c := Cut(rs[0], lo, hi);
    if i < |c| {
      k := 0;
    } else if Straddles(rs[0], lo, hi) {
      k := i - |c| + 1;
    } else {
      k := UnmappedWithin(rs[1..], lo, hi, i - |c|);
      k := k + 1;
    }
  }

  lemma {:induction false} StaysDisjoint(rs: seq<Region>, lo: nat, hi: nat)
    requires lo < hi && Disjoint(rs)
    ensures Disjoint(Unmapped(rs, lo, hi))
  {
    if rs == [] {
    } else {
      var c, rest, u := Cut(rs[0], lo, hi), rs[1..], Unmapped(rs, lo, hi);
      StaysDisjoint(rest, lo, hi);
      var tail := if Straddles(rs[0], lo, hi) then rest else Unmapped(rest, lo, hi);
      assert u == c + tail;
      forall i, a | 0 <= i < |c| && Covers(c[i], a) ensures Covers(rs[0], a) {
      }
      forall j, a: nat | 0 <= j < |tail| && Covers(tail[j], a) ensures !Covers(rs[0], a) {
        TailWithin(rs, lo, hi, j, a);
      }
      DisjointAppend(c, tail);
    }
  }

  lemma DisjointAppend(xs: seq<Region>, ys: seq<Region>)
    requires Disjoint(xs) && Disjoint(ys)
    requires forall i, j, a :: 0 <= i < |xs| && 0 <= j < |ys| && Covers(xs[i], a) ==> !Covers(ys[j], a)
    ensures Disjoint(xs + ys)
  {
    var zs := xs + ys;
    forall i, j, a | 0 <= i < j < |zs| && Covers(zs[i], a) ensures !Covers(zs[j], a) {
      if i >= |xs| {
        assert zs[i] == ys[i - |xs|] && zs[j] == ys[j - |xs|];
      }
    }
  }

  lemma TailWithin(rs: seq<Region>, lo: nat, hi: nat, j: nat, a: nat)
    requires lo < hi && rs != []
    requires var tail := if Straddles(rs[0], lo, hi) then rs[1..] else Unmapped(rs[1..], lo, hi);
             j < |tail| && Covers(tail[j], a)
    ensures exists k :: 0 < k < |rs| && Covers(rs[k], a)
  {
    if Straddles(rs[0], lo, hi) {
      assert Covers(rs[j + 1], a);
    } else {
      var k := UnmappedWithin(rs[1..], lo, hi, j);
      assert Covers(rs[k + 1], a);
    }
  }

  lemma UnmappedStep(done: seq<Region>, rest: seq<Region>, lo: nat, hi: nat)
    requires rest != []
    ensures var c := Cut(rest[0], lo, hi);
            done + Unmapped(rest, lo, hi)
            == if Straddles(rest[0], lo, hi) then done + c + rest[1..] else done + c + Unmapped(rest[1..], lo, hi)
  {
  }

  class AddressSpace {
    var regions: seq<Region>

    /** `unmap_range`. */
    method UnmapRange(lo: nat, hi: nat)
      modifies this
      ensures regions == if lo < hi then Unmapped(old(regions), lo, hi) else old(regions)
      ensures Disjoint(old(regions)) ==>
                && Disjoint(regions)
                && forall a: nat :: Lookup(regions, a) == if lo <= a < hi then None else Lookup(old(regions), a)
    {
      if lo >= hi {
        return;
      }
      if Disjoint(regions) {
        DisjointSafe(regions, lo, hi);
        UnmapExact(regions, lo, hi);
        StaysDisjoint(regions, lo, hi);
      }
      CutLoop(lo, hi);
    }

    /** One turn of the loop: region `i` is replaced by what is left of it. */
    method CutOne(i: nat, lo: nat, hi: nat) returns (next: nat, stop: bool)
      requires lo < hi && i < |regions|
      modifies this
      ensures regions == old(regions)[..i] + Cut(old(regions)[i], lo, hi) + old(regions)[i + 1..]
      ensures stop == Straddles(old(regions)[i], lo, hi)
      ensures !stop ==> next == i + |Cut(old(regions)[i], lo, hi)|
    {
      var r := regions[i];
      next, stop := i, false;
      if End(r) <= lo || r.start >= hi {
        next := i + 1;
      } else if r.start >= lo && End(r) <= hi {
        regions := regions[..i] + regions[i + 1..];
      } else if r.start < lo && End(r) > hi {
        var right := Region(hi, End(r) - hi, r.offset + (hi - r.start), r.attributes);
        regions := regions[i := r.(len := lo - r.start)];
        regions := regions[..i + 1] + [right] + regions[i + 1..];
        stop := true;
      } else if r.start < lo {
        regions := regions[i := r.(len := lo - r.start)];
        next := i + 1;
      } else {
        regions := regions[i := r.(start := hi, len := End(r) - hi, offset := r.offset + (hi - r.start))];
        next := i + 1;
      }
    }

    method CutLoop(lo: nat, hi: nat)
      requires lo < hi
      modifies this
      ensures regions == Unmapped(old(regions), lo, hi)
    {
      var i := 0;
      while i < |regions|
        invariant 0 <= i <= |regions|
        invariant Unmapped(old(regions), lo, hi) == regions[..i] + Unmapped(regions[i..], lo, hi)
        decreases |regions| - i
      {
        UnmappedStep(regions[..i], regions[i..], lo, hi);
        ghost var before := regions;
        var next, stop := CutOne(i, lo, hi);
        assert before[i..][0] == before[i] && before[i..][1..] == before[i + 1..];
        if stop {
          return;
        }
        assert regions[..next] == before[..i] + Cut(before[i], lo, hi) && regions[next..] == before[i + 1..];
        i := next;
      }
      assert regions[..i] == regions && regions[i..] == [];
    }
  }
}
