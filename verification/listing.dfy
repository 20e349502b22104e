/** The request normalisation shared by the list endpoints of posts, pages
    and media: pagination, sort order and field, the `total_page` ceiling,
    and the parsing of numeric ids. */
module Listing {

  import opened Common
  import opened Strings

  // ----- Pagination -----

  /** `page, _ := strconv.Atoi(c.DefaultQuery("page", "1"))` followed by
      `if page < 1 { page = 1 }`: the parse error is dropped, so a value
      that does not parse reads as 0 and becomes 1, and an out-of-range one
      is clamped by `Atoi` first. Which of the two happens is decided by
      the order `Atoi` reads in; see `OverflowingPageClamped`. */
  function NormalisePage(param: Option<string>): (page: int)
    ensures 1 <= page <= MaxInt64
    ensures Atoi(param.GetOr("1")).value >= 1 ==> page == Atoi(param.GetOr("1")).value
    ensures Atoi(param.GetOr("1")).value < 1 ==> page == 1
  {
    var page := Atoi(param.GetOr("1")).value;
    if page < 1 then 1 else page
  }

  /** `page_size` the same way, with anything outside [1, 100] becoming 10. */
  function NormalisePageSize(param: Option<string>): (size: int)
    ensures 1 <= size <= 100
    ensures 1 <= Atoi(param.GetOr("10")).value <= 100 ==> size == Atoi(param.GetOr("10")).value
    ensures !(1 <= Atoi(param.GetOr("10")).value <= 100) ==> size == 10
  {
    var size := Atoi(param.GetOr("10")).value;
    if size < 1 || size > 100 then 10 else size
  }

  /** Well-formed values inside the accepted range are kept as given. */
  lemma PaginationKeepsValid(n: nat)
    ensures 1 <= n <= MaxInt64 ==> NormalisePage(Some(DecimalString(n))) == n
    ensures 1 <= n <= 100 ==> NormalisePageSize(Some(DecimalString(n))) == n
  {
    ParseRoundTrip(n);
  }

  /** Missing parameters give page 1 of size 10. */
  lemma PaginationMissing()
    ensures NormalisePage(None) == 1 && NormalisePageSize(None) == 10
  {
    ParseRoundTrip(1);
    ParseRoundTrip(10);
    assert DecimalString(1) == "1" && DecimalString(10) == "10";
  }

  /** A page of zero or below becomes 1; a size below 1 or above 100
      becomes 10. */
  lemma PaginationOutOfRange(n: nat)
    ensures NormalisePage(Some("-" + DecimalString(n))) == 1
    ensures NormalisePageSize(Some("-" + DecimalString(n))) == 10
    ensures n > 100 ==> NormalisePageSize(Some(DecimalString(n))) == 10
  {
    AtoiMeaning(n, "x");
  }

  /** A run of digits too large for 64 bits is clamped even when junk
      follows it, since `Atoi` stops at the overflow: the page becomes
      MaxInt64 and the size 10. With a run that fits, the junk makes the
      value unparsable: page 1. */
  lemma OverflowingPageClamped(n: nat, junk: string)
    requires |junk| > 0 && !IsDigit(junk[0])
    ensures n > MaxUint64 ==> NormalisePage(Some(DecimalString(n) + junk)) == MaxInt64
    ensures n <= MaxUint64 ==> NormalisePage(Some(DecimalString(n) + junk)) == 1
    ensures NormalisePageSize(Some(DecimalString(n) + junk)) == 10
  {
    OverflowBeforeJunk(n, junk);
  }

  /** A value that is not a number reads as 0: page 1, size 10. */
  lemma PaginationUnparsable(junk: string)
    requires junk == "" || (!IsDigit(junk[0]) && junk[0] != '-' && junk[0] != '+')
    ensures NormalisePage(Some(junk)) == 1 && NormalisePageSize(Some(junk)) == 10
  {
    if junk != "" {
      AtoiMeaning(0, junk);
    }
  }

  // ----- Offset -----

  const TwoTo64: int := 0x1_0000_0000_0000_0000

  /** Two's-complement wrap-around of a mathematical integer into int64. */
  function WrapInt64(x: int): (r: int)
    ensures MinInt64 <= r <= MaxInt64
    ensures (r - x) % TwoTo64 == 0
    ensures MinInt64 <= x <= MaxInt64 ==> r == x
  {
    (x - MinInt64) % TwoTo64 + MinInt64
  }

  /** `offset := (page - 1) * pageSize` evaluated in Go's int64, as written. */
  function OffsetAsWritten(page: int, size: int): (offset: int)
    requires 1 <= page <= MaxInt64 && 1 <= size <= 100
    ensures MinInt64 <= offset <= MaxInt64
    ensures (offset - (page - 1) * size) % TwoTo64 == 0
  {
    WrapInt64((page - 1) * size)
  }

  /** The offset as evidently intended: the number of rows on the pages
      before `page`. It is never negative, is a whole number of pages, and
      the requested page starts exactly there. */
  function Offset(page: int, size: int): (offset: int)
    requires 1 <= page && 1 <= size
    ensures offset >= 0
    ensures offset + size == page * size
  {
    assert (page - 1) * size + size == page * size;
    (page - 1) * size
  }

  /** Wherever the product fits in int64 the two offsets agree. */
  lemma OffsetAgreesInRange(page: int, size: int)
    requires 1 <= page <= MaxInt64 && 1 <= size <= 100
    requires (page - 1) * size <= MaxInt64
    ensures OffsetAsWritten(page, size) == Offset(page, size)
  {
  }

  /** `?page=1000000000000000000&page_size=10` parses and is kept, but the
      offset wraps to a negative number; so does every page clamped to
      MaxInt64 with a size of 10. */
  lemma {:induction false} OffsetWrapsNegative()
    ensures NormalisePage(Some(DecimalString(1_000_000_000_000_000_000))) == 1_000_000_000_000_000_000
    ensures NormalisePageSize(Some("10")) == 10
    ensures OffsetAsWritten(1_000_000_000_000_000_000, 10) == -8_446_744_073_709_551_626
    ensures OffsetAsWritten(MaxInt64, 10) < 0
  {
    PaginationKeepsValid(1_000_000_000_000_000_000);
    PaginationKeepsValid(10);
    assert DecimalString(10) == "10";
  }

  // ----- Sorting -----

  /** `strings.ToLower(c.DefaultQuery("sort_order", "desc"))`, with
      anything but "asc" and "desc" becoming "desc". */
  function SortOrder(param: Option<string>): (order: string)
    ensures order == "asc" || order == "desc"
    ensures order == "asc" <==> ToLower(param.GetOr("desc")) == "asc"
  {
    var o := ToLower(param.GetOr("desc"));
    if o != "asc" && o != "desc" then "desc" else o
  }

  /** Any capitalisation of "asc" selects ascending order. */
  lemma SortOrderIgnoresCase()
    ensures SortOrder(Some("ASC")) == "asc" && SortOrder(Some("Asc")) == "asc"
    ensures SortOrder(Some("DESC")) == "desc" && SortOrder(None) == "desc"
    ensures SortOrder(Some("up")) == "desc"
  {
    assert ToLower("ASC") == "asc";
    assert ToLower("Asc") == "asc";
    assert ToLower("up") == "up";
  }

  const PostSortFields: set<string> := {"title", "author", "created_at", "updated_at"}
  const PageSortFields: set<string> := {"title", "created_at", "updated_at"}
  const MediaSortFields: set<string> := {"url", "type", "created_at", "updated_at"}

  /** `c.DefaultQuery("sort_by", "created_at")` checked against the
      endpoint's whitelist: the ORDER BY field is always whitelisted, and it
      is the requested one exactly when that one is allowed. */
  function SortField(param: Option<string>, allowed: set<string>): (field: string)
    requires "created_at" in allowed
    ensures field in allowed
    ensures field == param.GetOr("created_at") <==> param.GetOr("created_at") in allowed
  {
    var f := param.GetOr("created_at");
    if f in allowed then f else "created_at"
  }

  /** Pages cannot be sorted by author, and no endpoint sorts by an unknown
      column. */
  lemma SortFieldWhitelists(col: string)
    requires col !in PostSortFields + PageSortFields + MediaSortFields
    ensures SortField(Some("author"), PageSortFields) == "created_at"
    ensures SortField(Some("author"), PostSortFields) == "author"
    ensures SortField(Some(col), PostSortFields) == "created_at"
    ensures SortField(Some(col), PageSortFields) == "created_at"
    ensures SortField(Some(col), MediaSortFields) == "created_at"
  {
  }

  // ----- Counting pages -----

  /** `(total + int64(pageSize) - 1) / int64(pageSize)`: with a non-negative
      count the truncating division is the ceiling of total / size. */
  function TotalPages(total: nat, size: int): (pages: nat)
    requires size >= 1
    ensures (pages - 1) * size < total <= pages * size
    ensures pages == 0 <==> total == 0
  {
    (total + size - 1) / size
  }

  /** Every row lands on a page that exists: row `i` (from 0) is on page
      `i / size + 1`, which is at most `TotalPages`. */
  lemma {:induction false} EveryRowOnAPage(total: nat, size: int, i: nat)
    requires size >= 1 && i < total
    ensures 1 <= i / size + 1 <= TotalPages(total, size)
  {
    var p := TotalPages(total, size);
    var q := i / size;
    assert q * size <= i;
  }

  // ----- Ids -----

  /** `strconv.ParseUint(c.Param("id"), 10, 64)`: the id of a request, or
      `None` when the handler must answer 400 before touching the database. */
  function ParseId(s: string): (id: Option<nat>)
    ensures id.Some? ==> |s| > 0 && AllDigits(s) && id.value == DecimalValue(s) && id.value <= MaxUint64
    ensures id.None? <==> |s| == 0 || !AllDigits(s) || DecimalValue(s) > MaxUint64
  {
    ParseUint(s)
  }

  /** Every id spelt in decimal is accepted; empty, signed, fractional and
      alphabetic ids are refused. */
  lemma ParseIdAcceptsExactlyDecimal(n: nat, s: string)
    requires |s| > 0 && !IsDigit(s[0])
    ensures n <= MaxUint64 ==> ParseId(DecimalString(n)) == Some(n)
    ensures ParseId("").None? && ParseId(s).None?
    ensures ParseId(DecimalString(n) + ".5").None?
  {
    ParseRoundTrip(n);
    var f := DecimalString(n) + ".5";
    assert f[|f| - 2] == '.';
  }
}
