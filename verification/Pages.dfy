/** Memory in whole pages. */
module Pages {
  import opened Arithmetic

  /** How many pages hold `n` bytes. */
  function PagesFor(n: nat, pageSize: nat): (pages: nat)
    requires pageSize > 0
    ensures n <= pages * pageSize < n + pageSize
  {
    var pages := (n + pageSize - 1) / pageSize;
    Divide(n + pageSize - 1, pageSize);
    pages
  }

  lemma PagesForMonotone(a: nat, b: nat, pageSize: nat)
    requires pageSize > 0 && a <= b
    ensures PagesFor(a, pageSize) <= PagesFor(b, pageSize)
    ensures PagesFor(a, pageSize) * pageSize <= PagesFor(b, pageSize) * pageSize
  {
    var p, q := PagesFor(a, pageSize), PagesFor(b, pageSize);
    if p > q {
      MulApart(q, p, pageSize);
    } else {
      MulMonotone(p, q, pageSize);
    }
  }
}
