// The mapped regions of an address space.
module Regions {
  import opened Wrappers

  /** What all addresses of a region have in common; the offset is that of its first address in the file. */
  datatype Attributes = Attributes(inode: Option<nat>, isShared: bool, prot: int, pathname: Option<string>,
                                   isStack: bool)

  datatype Region = Region(start: nat, len: nat, offset: nat, attributes: Attributes)

  function End(r: Region): nat {
    r.start + r.len
  }

  predicate Covers(r: Region, a: nat) {
    r.start <= a < End(r)
  }
}
