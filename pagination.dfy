/**
 * The serial-number column of the user and role tables: the row at `index` (0-based, within the
 * current page) of page `pageNo` (1-based) with `pageSize` rows per page shows
 * `(pageNo - 1) * pageSize + index + 1`.
 */
module Pagination {
  /** On a proper page the serial numbers are exactly `(pageNo-1)*pageSize+1 ..= pageNo*pageSize`. */
  function SerialNo(pageNo: int, pageSize: int, index: int): (r: int)
    ensures pageNo >= 1 && pageSize >= 1 && 0 <= index < pageSize ==> (pageNo - 1) * pageSize < r <= pageNo * pageSize
  {
    (pageNo - 1) * pageSize + index + 1
  }

  lemma MulAtLeast(k: int, m: int)
    requires k >= 1 && m >= 1
    ensures k * m >= m
  {
  }

  /** A multiple of `m` strictly between `-m` and `m` is zero. */
  lemma SmallMultiple(k: int, m: int)
    ensures m >= 1 && -m < k * m < m ==> k == 0
  {
    if k >= 1 && m >= 1 {
      MulAtLeast(k, m);
    } else if k <= -1 && m >= 1 {
      MulAtLeast(-k, m);
      assert k * m == -((-k) * m);
    }
  }

  /** Two rows, on the same or on different pages of one page size, never share a serial number. */
  lemma {:induction false} SerialInjective(p1: int, i1: int, p2: int, i2: int, pageSize: int)
    requires pageSize >= 1 && p1 >= 1 && p2 >= 1
    requires 0 <= i1 < pageSize && 0 <= i2 < pageSize
    requires SerialNo(p1, pageSize, i1) == SerialNo(p2, pageSize, i2)
    ensures p1 == p2 && i1 == i2
  {
    assert (p1 - p2) * pageSize == i2 - i1;
    SmallMultiple(p1 - p2, pageSize);
  }
}
