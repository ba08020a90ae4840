/** The shared application records: list-query pagination metadata, computed in 32-bit integer
    arithmetic, and the request's tenant context. */
module Common {
  import opened Wrappers
  import opened Errors
  import opened Numerals

  const MinInt32: int := -0x8000_0000
  const MaxInt32: int := 0x7FFF_FFFF
  const TwoTo32: int := 0x1_0000_0000

  /** A C# int. */
  type Int32 = x: int | MinInt32 <= x <= MaxInt32

  /** The int a C# addition yields in an unchecked context: the true sum modulo 2^32, brought
      back into the range of int. */
  function Wrap32(x: int): (r: Int32)
    ensures (r - x) % TwoTo32 == 0
    ensures MinInt32 <= x <= MaxInt32 ==> r == x
  {
    (x - MinInt32) % TwoTo32 + MinInt32
  }

  /** C#'s integer division, which rounds toward zero: the quotient of the magnitudes, negated
      when the signs differ. On a natural and a positive divisor it is Dafny's division. */
  function TruncatedDivision(a: int, b: int): (q: int)
    requires b != 0
    ensures 0 <= a && 0 < b ==> q == a / b
    ensures a >= 0 && b < 0 ==> q == -(a / -b)
    ensures a < 0 && b > 0 ==> q == -((-a) / b)
    ensures a < 0 && b < 0 ==> q == (-a) / (-b)
  {
    if a >= 0 && b > 0 then a / b
    else if a >= 0 then -(a / -b)
    else if b > 0 then -((-a) / b)
    else (-a) / (-b)
  }

  /** The remainder C#'s division leaves takes the sign of the dividend and is smaller than the
      divisor in magnitude: the quotient is the true quotient rounded toward zero. */
  lemma RoundsTowardZero(a: int, b: int)
    requires b != 0
    ensures a >= 0 ==> 0 <= a - TruncatedDivision(a, b) * b
    ensures a <= 0 ==> a - TruncatedDivision(a, b) * b <= 0
    ensures b > 0 ==> -b < a - TruncatedDivision(a, b) * b < b
    ensures b < 0 ==> b < a - TruncatedDivision(a, b) * b < -b
  {
    var an: nat := if a < 0 then -a else a;
    var bn: nat := if b < 0 then -b else b;
    var m := an / bn;
    DivMod(an, bn);
    var q := TruncatedDivision(a, b);
    if a >= 0 && b > 0 {
      assert q * b == m * bn;
    } else if a >= 0 {
      assert q * b == m * bn;
    } else if b > 0 {
      assert q * b == -(m * bn);
    } else {
      assert q * b == -(m * bn);
    }
  }

  /** Dividing by 2 or more at least halves a natural. */
  lemma DivAtMostHalf(x: nat, y: nat)
    requires y >= 2
    ensures 2 * (x / y) <= x
  {
    var m := x / y;
    DivMod(x, y);
    MulMonotone(m, 2, y);
    assert m * 2 <= m * y;
  }

  /** The ceiling of x / y, by Euclidean division and remainder. */
  function CeilingDiv(x: nat, y: nat): nat
    requires y > 0
  {
    x / y + (if x % y == 0 then 0 else 1)
  }

  /** The ceiling is the fewest blocks of y that cover x, and never exceeds x. */
  lemma CeilingDivBounds(x: nat, y: nat)
    requires y > 0
    ensures x == 0 ==> CeilingDiv(x, y) == 0
    ensures x > 0 ==> (CeilingDiv(x, y) - 1) * y < x <= CeilingDiv(x, y) * y
    ensures CeilingDiv(x, y) <= x
  {
    var q, rem := x / y, x % y;
    DivMod(x, y);
    var c := CeilingDiv(x, y);
    MulMonotone(q, 1, y);
    if rem == 0 {
      assert c == q;
      assert (c - 1) * y == c * y - y;
    } else {
      assert c == q + 1;
      assert c * y == q * y + y;
    }
  }

  /** The familiar (x + y - 1) / y is the ceiling as long as the sum is computed exactly. */
  lemma SumFormIsCeiling(x: nat, y: nat)
    requires y > 0
    ensures (x + y - 1) / y == CeilingDiv(x, y)
  {
    var c := CeilingDiv(x, y);
    CeilingDivBounds(x, y);
    if x == 0 {
      assert (y - 1) / y == 0;
    } else {
      assert y * c == c * y;
      assert y * (c + 1) == c * y + y;
      DivLower(x + y - 1, y, c);
      DivUpper(x + y - 1, y, c + 1);
    }
  }

  /** A page p (from 0 on) comes before the last of CeilingDiv(x, y) pages exactly when the
      first p pages hold fewer than x items. */
  lemma BelowCeiling(p: nat, x: nat, y: nat)
    requires y > 0
    ensures p < CeilingDiv(x, y) <==> p * y < x
  {
    var c := CeilingDiv(x, y);
    CeilingDivBounds(x, y);
    if p < c {
      MulMonotone(y, p, c - 1);
      assert y * (c - 1) == (c - 1) * y && y * p == p * y;
    } else {
      MulMonotone(y, c, p);
      assert y * c == c * y && y * p == p * y;
    }
  }

  /** PaginationMetadata: the page requested, the page size and the total item count. */
  datatype PaginationMetadata = PaginationMetadata(PageNumber: Int32, PageSize: Int32, TotalCount: Int32) {

    /** TotalPages = (TotalCount + PageSize - 1) / PageSize, as C# evaluates it: the sum wraps
        around at 32 bits, a zero page size throws DivideByZeroException and int.MinValue / -1
        throws OverflowException. */
    function TotalPages(): (r: Result<Int32, Error>)
      ensures PageSize == 0 <==> r == Failure(DivideByZero)
      ensures r.Success? ==> r.value == TruncatedDivision(Wrap32(TotalCount + PageSize - 1), PageSize)
      ensures r == Failure(ArithmeticOverflow) <==> PageSize == -1 && Wrap32(TotalCount + PageSize - 1) == MinInt32
    {
      if PageSize == 0 then Failure(DivideByZero)
      else
        var n := Wrap32(TotalCount + PageSize - 1);
        if n == MinInt32 && PageSize == -1 then Failure(ArithmeticOverflow)
        else
          var q := TruncatedDivision(n, PageSize);
          assert MinInt32 <= q <= MaxInt32 by {
            QuotientInRange(n, PageSize);
          }
          Success(q)
    }

    /** There is a previous page exactly when the page number is above 1. */
    function HasPreviousPage(): (r: bool)
      ensures r <==> PageNumber > 1
      ensures PageNumber == 1 ==> !r
    {
      PageNumber > 1
    }

    /** There is a next page exactly when the page number is below TotalPages; the exceptions
        TotalPages throws propagate. */
    function HasNextPage(): (r: Result<bool, Error>)
      ensures TotalPages().Failure? <==> r.Failure?
      ensures r.Failure? ==> r.error == TotalPages().error
      ensures r.Success? ==> (r.value <==> PageNumber < TotalPages().value)
    {
      match TotalPages()
      case Failure(e) => Failure(e)
      case Success(t) => Success(PageNumber < t)
    }

    /** The number of pages the author evidently meant: the ceiling of TotalCount / PageSize,
        computed without an intermediate sum that can leave the range of int. */
    function CeilingPages(): (r: Int32)
      requires PageSize > 0 && TotalCount >= 0
      ensures TotalCount == 0 ==> r == 0
      ensures TotalCount > 0 ==> (r - 1) * PageSize < TotalCount <= r * PageSize
    {
      CeilingDivBounds(TotalCount, PageSize);
      CeilingDiv(TotalCount, PageSize)
    }

    /** The next-page test on the corrected page count: from page 1 on, there is a next page
        exactly when the pages up to this one hold fewer items than there are. */
    function NextPageExists(): (r: bool)
      requires PageSize > 0 && TotalCount >= 0
      ensures PageNumber >= 1 ==> (r <==> PageNumber * PageSize < TotalCount)
    {
      var r := PageNumber < CeilingPages();
      assert PageNumber >= 1 ==> (r <==> PageNumber * PageSize < TotalCount) by {
        if PageNumber >= 1 {
          BelowCeiling(PageNumber, TotalCount, PageSize);
        }
      }
      r
    }
  }

  /** |a / b| never exceeds |a|, so outside int.MinValue / -1 a quotient of ints is an int. */
  lemma QuotientInRange(n: Int32, d: Int32)
    requires d != 0 && !(n == MinInt32 && d == -1)
    ensures MinInt32 <= TruncatedDivision(n, d) <= MaxInt32
  {
    var an: nat := if n < 0 then -(n as int) else n;
    var ad: nat := if d < 0 then -(d as int) else d;
    if ad >= 2 {
      DivAtMostHalf(an, ad);
    } else {
      assert an / ad == an;
    }
  }

  /** As long as TotalCount + PageSize - 1 stays within int, TotalPages is the ceiling of
      TotalCount / PageSize: 0 for no items, and otherwise the fewest pages holding them all. */
  lemma TotalPagesIsCeiling(p: PaginationMetadata)
    requires p.PageSize > 0 && 0 <= p.TotalCount && p.TotalCount + p.PageSize - 1 <= MaxInt32
    ensures p.TotalPages() == Success(p.CeilingPages())
    ensures p.TotalCount == 0 ==> p.TotalPages() == Success(0)
    ensures p.TotalCount > 0 ==>
              (p.TotalPages().value - 1) * p.PageSize < p.TotalCount <= p.TotalPages().value * p.PageSize
  {
    var n := p.TotalCount + p.PageSize - 1;
    assert p.TotalPages() == Success(n / p.PageSize);
    SumFormIsCeiling(p.TotalCount, p.PageSize);
  }

  /** Under the same bound, and for page numbers from 1 on, there is a next page exactly when the
      pages up to this one hold fewer items than there are: the last page has no next one. */
  lemma NextPageWhenItemsRemain(p: PaginationMetadata)
    requires p.PageSize > 0 && 0 <= p.TotalCount && p.TotalCount + p.PageSize - 1 <= MaxInt32
    requires p.PageNumber >= 1
    ensures p.HasNextPage() == Success(p.PageNumber * p.PageSize < p.TotalCount)
    ensures p.TotalPages().Success? && p.PageNumber == p.TotalPages().value ==> p.HasNextPage() == Success(false)
  {
    TotalPagesIsCeiling(p);
    BelowCeiling(p.PageNumber, p.TotalCount, p.PageSize);
  }

  /** The overflow: with int.MaxValue items and two per page, the sum wraps to int.MinValue and
      TotalPages comes out as -1073741824 instead of 1073741824, so even page 1 has no next page,
      although the items fill 1073741824 pages. */
  lemma TotalPagesOverflows()
    ensures PaginationMetadata(1, 2, MaxInt32).TotalPages() == Success(-1073741824)
    ensures PaginationMetadata(1, 2, MaxInt32).CeilingPages() == 1073741824
    ensures PaginationMetadata(1, 2, MaxInt32).HasNextPage() == Success(false)
    ensures PaginationMetadata(1, 2, MaxInt32).NextPageExists()
  {
    assert Wrap32(MaxInt32 + 2 - 1) == MinInt32;
  }

  /** TenantContext: the tenant, user and roles of the current request. */
  datatype TenantContext = TenantContext(TenantId: string, UserId: string, Roles: seq<string>) {

    /** IsAuthenticated: a user id is present. */
    function IsAuthenticated(): (r: bool)
      ensures r <==> |UserId| > 0
      ensures UserId == "" ==> !r
    {
      UserId != ""
    }
  }
}
