/** Page arithmetic on fixed widths: u32 pages, u64 totals, 64-bit usize, i64 bind values. */
module Pagination {
  import opened Common

  const MAX_PER_PAGE: u32 := 200
  const DEFAULT_PER_PAGE: u32 := 50
  const U32_MAX: int := 0xffff_ffff
  const U64_MAX: int := 0xffff_ffff_ffff_ffff

  function ClampPerPage(requested: u32): (n: u32)
    ensures 1 <= requested <= 200 ==> n == requested
    ensures requested > 200 ==> n == 200
    ensures requested == 0 ==> n == 50
  {
    if requested == 0 then DEFAULT_PER_PAGE else if requested < MAX_PER_PAGE then requested else MAX_PER_PAGE
  }

  function ClampPage(requested: u32): (n: u32)
    ensures requested >= 1 ==> n == requested
    ensures requested == 0 ==> n == 1
  {
    if requested > 1 then requested else 1
  }

  function SaturatingMul(a: u64, b: u64): u64 {
    if a * b <= U64_MAX then a * b else U64_MAX
  }

  function Offset(page: u32, perPage: u32): u64 {
    SaturatingMul(ClampPage(page) - 1, perPage)
  }

  function TotalPages(total: u64, perPage: u32): u32 {
    var n := ClampPerPage(perPage);
    ((total + n - 1) / n) % 0x1_0000_0000
  }

  // A u64 cast to i64.
  function AsI64(v: u64): int {
    if v < 0x8000_0000_0000_0000 then v else v - 0x1_0000_0000_0000_0000
  }

  // The offset never saturates, and its cast to i64 is exact below two to the 63, so for every page
  // size the handlers allow.
  lemma OffsetExact(page: u32, perPage: u32)
    ensures Offset(page, perPage) == (ClampPage(page) - 1) * perPage
    ensures AsI64(Offset(page, perPage)) == Offset(page, perPage) <==>
            (ClampPage(page) - 1) * perPage < 0x8000_0000_0000_0000
    ensures perPage <= MAX_PER_PAGE ==> (ClampPage(page) - 1) * perPage < 0x8000_0000_0000_0000
  {
    var p := ClampPage(page) - 1;
    Product(p, perPage);
    hide ClampPage;
    OffsetBelow(page, perPage, p * perPage);
  }

  lemma Product(p: u32, q: u32)
    ensures 0 <= p * q <= U32_MAX * U32_MAX
    ensures q <= MAX_PER_PAGE ==> p * q <= U32_MAX * MAX_PER_PAGE
  {
    if q > 0 {
      Scale(p, U32_MAX, q);
      Scale(0, p, q);
    }
  }

  lemma OffsetBelow(page: u32, perPage: u32, product: int)
    requires 0 <= product == (ClampPage(page) - 1) * perPage <= U32_MAX * U32_MAX
    ensures Offset(page, perPage) == product
    ensures AsI64(Offset(page, perPage)) == product <==> product < 0x8000_0000_0000_0000
  {
    hide ClampPage;
  }

  lemma CeilingDivision(total: nat, n: nat)
    requires n >= 1
    ensures var q := (total + n - 1) / n;
            q * n >= total && (q > 0 ==> (q - 1) * n < total)
  {
    var q := (total + n - 1) / n;
    assert total + n - 1 == q * n + (total + n - 1) % n;
    assert (q - 1) * n == q * n - n;
  }

  lemma Scale(a: int, b: int, n: nat)
    requires n >= 1
    ensures a <= b <==> a * n <= b * n
  {
    assert (b - a) * n == b * n - a * n;
  }

  // The page count covers the rows exactly when it fits a u32, and then no smaller count does.
  lemma TotalPagesExact(total: u64, perPage: u32)
    ensures var (n, p) := (ClampPerPage(perPage), TotalPages(total, perPage));
            && (p * n >= total <==> total <= U32_MAX * n)
            && (total <= U32_MAX * n ==> (p > 0 ==> (p - 1) * n < total))
  {
    var n := ClampPerPage(perPage);
    var q := (total + n - 1) / n;
    assert q >= 0;
    hide ClampPerPage;
    CeilingDivision(total, n);
    Scale(U32_MAX, q - 1, n);
    Scale(q, U32_MAX, n);
    Scale(q % 0x1_0000_0000, U32_MAX, n);
    assert TotalPages(total, perPage) == q % 0x1_0000_0000;
    hide TotalPages;
    if q <= U32_MAX {
      assert q % 0x1_0000_0000 == q;
    }
  }
}
