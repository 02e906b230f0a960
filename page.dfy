/**
 * The offset arithmetic of `allocPageAligned`: an outer allocation one page
 * larger than asked for, and the sub-slice of it that starts on a page
 * boundary. The address of the outer allocation is an abstract number.
 */
module PageAlign {

  predicate IsAligned(addr: nat, pageSize: nat)
    requires pageSize > 0
  {
    addr % pageSize == 0
  }

  /** `toNextPage`: how far to move forward from `addr` to the next page
   *  boundary; a whole page when `addr` is already on one. */
  function ToNextPage(addr: nat, pageSize: nat): (offset: nat)
    requires pageSize > 0
    ensures 1 <= offset <= pageSize
    ensures IsAligned(addr + offset, pageSize)
    ensures forall a: nat :: addr < a < addr + offset ==> !IsAligned(a, pageSize)
  {
    var offset := pageSize - addr % pageSize;
    NextBoundary(addr, pageSize);
    offset
  }

  /** Multiplying by a positive page size keeps the order of page numbers. */
  lemma MulMonotonic(m: int, q: int, pageSize: nat)
    requires pageSize > 0 && m <= q
    ensures m * pageSize <= q * pageSize
  {
  }

  /** No page boundary lies strictly inside page `q`. */
  lemma NoBoundaryInsidePage(q: nat, a: nat, pageSize: nat)
    requires pageSize > 0
    requires q * pageSize < a < (q + 1) * pageSize
    ensures a % pageSize != 0
  {
    var m := a / pageSize;
    if a % pageSize == 0 {
      assert a == m * pageSize;
      if m <= q {
        MulMonotonic(m, q, pageSize);
      } else {
        MulMonotonic(q + 1, m, pageSize);
      }
    }
  }

  /** Every multiple of the page size is a page boundary. */
  lemma MultipleIsAligned(m: nat, pageSize: nat)
    requires pageSize > 0
    ensures (m * pageSize) % pageSize == 0
  {
    var d, r := (m * pageSize) / pageSize, (m * pageSize) % pageSize;
    assert (m - d) * pageSize == r;
    if m - d >= 1 {
      MulMonotonic(1, m - d, pageSize);
    } else if m - d <= -1 {
      MulMonotonic(m - d, -1, pageSize);
    }
  }

  /** The boundary after `addr` is `pageSize - addr % pageSize` bytes on, and
   *  no boundary lies in between. */
  lemma NextBoundary(addr: nat, pageSize: nat)
    requires pageSize > 0
    ensures (addr + (pageSize - addr % pageSize)) % pageSize == 0
    ensures forall a: nat :: addr < a < addr + (pageSize - addr % pageSize) ==> !IsAligned(a, pageSize)
  {
    var q, r := addr / pageSize, addr % pageSize;
    var next := addr + (pageSize - r);
    assert addr == q * pageSize + r;
    assert next == (q + 1) * pageSize by {
      assert (q + 1) * pageSize == q * pageSize + pageSize;
    }
    MultipleIsAligned(q + 1, pageSize);
    forall a: nat | addr < a < next ensures !IsAligned(a, pageSize) {
      NoBoundaryInsidePage(q, a, pageSize);
    }
  }

  /** A sub-slice `outer[low:high]` of an outer slice of length `outerLen`
   *  whose element 0 is at address `addr`. */
  datatype Slice = Slice(addr: nat, outerLen: nat, low: nat, high: nat) {
    function Start(): nat { addr + low }
    function Len(): int { high - low }
  }

  /** `allocPageAligned(size)` for an outer allocation at `addr`. */
  function AllocPageAligned(addr: nat, pageSize: nat, size: nat): (inner: Slice)
    requires pageSize > 0
    ensures inner.addr == addr && inner.outerLen == size + pageSize
    ensures 0 < inner.low <= inner.high <= inner.outerLen
    ensures inner.Len() == size
    ensures IsAligned(inner.Start(), pageSize)
  {
    var toNextPage := ToNextPage(addr, pageSize);
    Slice(addr, size + pageSize, toNextPage, toNextPage + size)
  }
}
