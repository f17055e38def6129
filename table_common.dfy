/**
 * What the list tables share: the running row number of a paginated table and
 * the text of the single row shown for an empty list.
 */
module TableCommon {

  /** Text of the placeholder row of an empty table ("no data found"). */
  const NotFoundMessage: string := "Ma'lumot topilmadi"

  /** Number shown in the "No" column for the row at `idx` of page `page`. */
  function RowNumber(page: int, size: int, idx: int): int
  {
    (page - 1) * size + idx + 1
  }

  lemma {:induction false} MulMonotone(a: int, b: int, s: nat)
    requires a <= b
    ensures a * s <= b * s
    decreases b - a
  {
    if a < b {
      MulMonotone(a, b - 1, s);
    }
  }

  /** A page holding at most `size` rows numbers them inside `((page-1)*size, page*size]`. */
  lemma RowNumberWithinPage(page: int, size: int, idx: int)
    requires 0 <= idx < size
    ensures (page - 1) * size < RowNumber(page, size, idx) <= page * size
  {
    assert page * size == (page - 1) * size + size;
  }

  /** Two rows of full-size pages never show the same number unless they are the same row of the same page. */
  lemma PagesNeverShareNumbers(p: int, q: int, size: int, i: int, j: int)
    requires 0 <= i < size && 0 <= j < size
    requires RowNumber(p, size, i) == RowNumber(q, size, j)
    ensures p == q && i == j
  {
    RowNumberWithinPage(p, size, i);
    RowNumberWithinPage(q, size, j);
    if p < q {
      MulMonotone(p, q - 1, size);
    } else if q < p {
      MulMonotone(q, p - 1, size);
    }
  }
}
