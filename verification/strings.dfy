/** The Go standard-library string and number helpers the cache and the
    controllers rely on: `strings.HasPrefix`, `strings.Contains`,
    `strings.Join`, `strings.ToLower` (on ASCII), `strconv.Atoi` and
    `strconv.ParseUint(s, 10, 64)`. */
module Strings {

  import opened Common

  predicate HasPrefix(s: string, p: string) {
    |p| <= |s| && s[..|p|] == p
  }

  /** `p` occurs in `s` starting at index `i`. */
  predicate OccursAt(s: string, p: string, i: nat) {
    i + |p| <= |s| && s[i..i + |p|] == p
  }

  /** Go's `strings.Contains`: `p` is a substring of `s` (the empty string is
      a substring of every string). */
  predicate Contains(s: string, p: string) {
    exists i | 0 <= i <= |s| - |p| :: OccursAt(s, p, i)
  }

  lemma ContainsEmpty(s: string)
    ensures Contains(s, "")
  {
    assert OccursAt(s, "", 0);
  }

  lemma ContainsSelf(s: string)
    ensures Contains(s, s)
  {
    assert OccursAt(s, s, 0);
  }

  lemma PrefixContains(s: string, p: string)
    requires HasPrefix(s, p)
    ensures Contains(s, p)
  {
    assert OccursAt(s, p, 0);
  }

  /** An occurrence inside a part of a concatenation is an occurrence in the whole. */
  lemma ContainsInLeft(a: string, b: string, p: string)
    requires Contains(a, p)
    ensures Contains(a + b, p)
  {
    var i :| 0 <= i <= |a| - |p| && OccursAt(a, p, i);
    assert (a + b)[i..i + |p|] == a[i..i + |p|];
    assert OccursAt(a + b, p, i);
  }

  lemma ContainsInRight(a: string, b: string, p: string)
    requires Contains(b, p)
    ensures Contains(a + b, p)
  {
    var i :| 0 <= i <= |b| - |p| && OccursAt(b, p, i);
    assert (a + b)[|a| + i..|a| + i + |p|] == b[i..i + |p|];
    assert OccursAt(a + b, p, |a| + i);
  }

  /** Go's `strings.Join`. */
  function Join(parts: seq<string>, sep: string): string
  {
    if |parts| == 0 then ""
    else if |parts| == 1 then parts[0]
    else parts[0] + sep + Join(parts[1..], sep)
  }

  /** Number of occurrences of character `c` in `s`. */
  function Count(s: string, c: char): nat
  {
    if |s| == 0 then 0 else Count(s[..|s| - 1], c) + (if s[|s| - 1] == c then 1 else 0)
  }

  lemma {:induction false} CountConcat(a: string, b: string, c: char)
    ensures Count(a + b, c) == Count(a, c) + Count(b, c)
    decreases |b|
  {
    if |b| == 0 {
      assert a + b == a;
    } else {
      assert (a + b)[..|a + b| - 1] == a + b[..|b| - 1];
      CountConcat(a, b[..|b| - 1], c);
    }
  }

  /** A string none of whose characters is `c` has no occurrence of it. */
  lemma {:induction false} CountAbsent(s: string, c: char)
    requires forall i | 0 <= i < |s| :: s[i] != c
    ensures Count(s, c) == 0
    decreases |s|
  {
    if |s| > 0 {
      CountAbsent(s[..|s| - 1], c);
    }
  }

  /** Total number of occurrences of `c` over all parts. */
  function CountAll(parts: seq<string>, c: char): nat
  {
    if |parts| == 0 then 0 else Count(parts[0], c) + CountAll(parts[1..], c)
  }

  /** Joining with a separator free of `c` neither adds nor loses a `c`. */
  lemma {:induction false} CountJoin(parts: seq<string>, sep: string, c: char)
    requires Count(sep, c) == 0
    ensures Count(Join(parts, sep), c) == CountAll(parts, c)
    decreases |parts|
  {
    if |parts| == 0 {
    } else if |parts| == 1 {
      assert parts[1..] == [];
    } else {
      CountJoin(parts[1..], sep, c);
      CountConcat(parts[0], sep, c);
      CountConcat(parts[0] + sep, Join(parts[1..], sep), c);
    }
  }

  /** ASCII lower-casing, the part of `strings.ToLower` that decides whether
      a sort order is "asc" or "desc". */
  function LowerChar(c: char): char
  {
    if 'A' <= c <= 'Z' then (c as int + 32) as char else c
  }

  function ToLower(s: string): (r: string)
    ensures |r| == |s|
    ensures forall i :: 0 <= i < |s| ==> r[i] == LowerChar(s[i])
  {
    seq(|s|, i requires 0 <= i < |s| => LowerChar(s[i]))
  }

  predicate IsDigit(c: char) {
    '0' <= c <= '9'
  }

  predicate AllDigits(s: string) {
    forall i :: 0 <= i < |s| ==> IsDigit(s[i])
  }

  /** The value of a string of decimal digits, most significant first. */
  function DecimalValue(s: string): nat
    requires AllDigits(s)
  {
    if |s| == 0 then 0
    else DecimalValue(s[..|s| - 1]) * 10 + (s[|s| - 1] as int - '0' as int)
  }

  const MaxInt64: int := 0x7FFF_FFFF_FFFF_FFFF
  const MinInt64: int := -0x8000_0000_0000_0000
  const MaxUint64: int := 0xFFFF_FFFF_FFFF_FFFF

  function DigitValue(c: char): nat
    requires IsDigit(c)
  {
    c as int - '0' as int
  }

  /** How `strconv.ParseUint(s, 10, 64)` ends: with the value, with a syntax
      error, or with a range error carrying the largest uint64. */
  datatype Scan = Scanned(value: nat) | SyntaxError | RangeError

  /** The loop of `ParseUint` from position `i`, `n` being the value of the
      digits before it. A character that is not a digit is a syntax error;
      a digit that takes the value past 2^64-1 is a range error at once,
      whatever follows it. */
  function ScanFrom(s: string, i: nat, n: nat): Scan
    requires i <= |s|
    decreases |s| - i
  {
    if i == |s| then Scanned(n)
    else if !IsDigit(s[i]) then SyntaxError
    else if n * 10 + DigitValue(s[i]) > MaxUint64 then RangeError
    else ScanFrom(s, i + 1, n * 10 + DigitValue(s[i]))
  }

  /** `strconv.ParseUint(s, 10, 64)`: the empty string is a syntax error;
      otherwise the digits are read left to right. */
  function ScanUint(s: string): Scan
  {
    if |s| == 0 then SyntaxError else ScanFrom(s, 0, 0)
  }

  /** The length of the run of digits that starts `s`. */
  function DigitRun(s: string): (k: nat)
    ensures k <= |s| && AllDigits(s[..k])
    ensures k < |s| ==> !IsDigit(s[k])
    decreases |s|
  {
    if |s| == 0 || !IsDigit(s[0]) then 0
    else
      var k := 1 + DigitRun(s[1..]);
      assert forall i :: 1 <= i < k ==> s[..k][i] == s[1..][..k - 1][i - 1];
      k
  }

  /** Dropping trailing digits never increases the value. */
  lemma {:induction false} PrefixValueBelow(t: string, j: nat)
    requires AllDigits(t) && j <= |t|
    ensures AllDigits(t[..j]) && DecimalValue(t[..j]) <= DecimalValue(t)
    decreases |t| - j
  {
    if j < |t| {
      assert t[..|t| - 1][..j] == t[..j];
      PrefixValueBelow(t[..|t| - 1], j);
    } else {
      assert t[..j] == t;
    }
  }

  /** What the loop finds, stated without the loop: a range error exactly
      when the leading digits already exceed 2^64-1, otherwise a syntax error
      at the first non-digit, otherwise the value of the whole string. */
  lemma {:induction false} ScanFromMeaning(s: string, i: nat, n: nat)
    requires i <= |s| && AllDigits(s[..i]) && n == DecimalValue(s[..i]) <= MaxUint64
    ensures var k := DigitRun(s);
      ScanFrom(s, i, n) == (if DecimalValue(s[..k]) > MaxUint64 then RangeError
                            else if k < |s| then SyntaxError
                            else Scanned(DecimalValue(s)))
    decreases |s| - i
  {
    var k := DigitRun(s);
    assert forall j :: 0 <= j < i ==> s[..i][j] == s[j];
    assert i <= k;
    if i == |s| {
      assert s[..i] == s && s[..k] == s;
    } else if !IsDigit(s[i]) {
      assert k == i;
    } else {
      var n' := n * 10 + DigitValue(s[i]);
      assert s[..i + 1][..i] == s[..i];
      assert AllDigits(s[..i + 1]) by {
        assert forall j :: 0 <= j < i ==> s[..i + 1][j] == s[..i][j];
      }
      assert DecimalValue(s[..i + 1]) == n';
      assert i + 1 <= k;
      assert s[..k][..i + 1] == s[..i + 1];
      PrefixValueBelow(s[..k], i + 1);
      if n' <= MaxUint64 {
        ScanFromMeaning(s, i + 1, n');
      }
    }
  }

  /** `ParseUint` succeeds exactly on one or more digits whose value fits
      in 64 bits, and fails with a range error exactly when its leading
      digits overflow, even if a syntax error follows them. */
  lemma ScanUintMeaning(s: string)
    ensures ScanUint(s).Scanned? <==> |s| > 0 && AllDigits(s) && DecimalValue(s) <= MaxUint64
    ensures ScanUint(s).Scanned? ==> ScanUint(s).value == DecimalValue(s)
    ensures ScanUint(s).RangeError? <==> DecimalValue(s[..DigitRun(s)]) > MaxUint64
  {
    var k := DigitRun(s);
    if |s| > 0 {
      assert s[..0] == [];
      ScanFromMeaning(s, 0, 0);
    }
    if AllDigits(s) {
      assert k == |s|;
    }
    assert k == |s| ==> s[..k] == s;
  }

  /** `strconv.ParseUint(s, 10, 64)` with only its error being nil or not. */
  function ParseUint(s: string): (r: Option<nat>)
    ensures r.Some? <==> |s| > 0 && AllDigits(s) && DecimalValue(s) <= MaxUint64
    ensures r.Some? ==> r.value == DecimalValue(s)
  {
    ScanUintMeaning(s);
    match ScanUint(s)
    case Scanned(v) => Some(v)
    case _ => None
  }

  /** The pair returned by `strconv.Atoi`: the value and whether the error is nil. */
  datatype AtoiResult = AtoiResult(value: int, ok: bool)

  /** `strconv.Atoi` on a 64-bit platform, which is `ParseInt(s, 10, 0)`:
      an optional sign, then `ParseUint` on the rest. A syntax error gives
      0; a range error, or a value outside int64, gives the bound on the
      side of the sign; both report an error. */
  function Atoi(s: string): (r: AtoiResult)
    ensures r.ok ==> MinInt64 <= r.value <= MaxInt64
    ensures !r.ok ==> r.value in {0, MinInt64, MaxInt64}
  {
    var neg := |s| > 0 && s[0] == '-';
    var digits := if |s| > 0 && (s[0] == '-' || s[0] == '+') then s[1..] else s;
    match ScanUint(digits)
    case SyntaxError => AtoiResult(0, false)
    case RangeError => if neg then AtoiResult(MinInt64, false) else AtoiResult(MaxInt64, false)
    case Scanned(u) =>
      if !neg && u > MaxInt64 then AtoiResult(MaxInt64, false)
      else if neg && u > MaxInt64 + 1 then AtoiResult(MinInt64, false)
      else AtoiResult(if neg then 0 - u else u, true)
  }

  /** Signed or not, a spelt number is read as that number, clamped to
      int64; a string that starts with neither a sign nor a digit is a
      syntax error. */
  lemma AtoiMeaning(n: nat, junk: string)
    requires |junk| > 0 && !IsDigit(junk[0]) && junk[0] != '-' && junk[0] != '+'
    ensures Atoi(DecimalString(n)) == if n <= MaxInt64 then AtoiResult(n, true) else AtoiResult(MaxInt64, false)
    ensures Atoi("-" + DecimalString(n)) == if n <= MaxInt64 + 1 then AtoiResult(0 - n, true) else AtoiResult(MinInt64, false)
    ensures Atoi(junk) == AtoiResult(0, false)
  {
    DecimalRoundTrip(n);
    var d := DecimalString(n);
    assert ("-" + d)[1..] == d;
    ScanUintMeaning(d);
    assert DigitRun(d) == |d| && d[..|d|] == d;
    ScanUintMeaning(junk);
    assert junk[..0] == [];
  }

  /** The digits are read before the character that ends them: when they
      already exceed 2^64-1, `Atoi` reports the range error with the int64
      bound, even though the string is not a number; when they fit, the
      same string is a syntax error and reads as 0. */
  lemma {:induction false} OverflowBeforeJunk(n: nat, junk: string)
    requires |junk| > 0 && !IsDigit(junk[0])
    ensures n > MaxUint64 ==> Atoi(DecimalString(n) + junk) == AtoiResult(MaxInt64, false)
    ensures n <= MaxUint64 ==> Atoi(DecimalString(n) + junk) == AtoiResult(0, false)
  {
    var d := DecimalString(n);
    var s := d + junk;
    DecimalRoundTrip(n);
    assert s[..|d|] == d;
    assert forall i :: 0 <= i < |d| ==> s[i] == d[i];
    assert s[|d|] == junk[0];
    assert DigitRun(s) == |d|;
    ScanUintMeaning(s);
    assert !AllDigits(s);
  }

  /** The canonical decimal spelling of `n`, as `strconv.Itoa` writes it. */
  function DecimalString(n: nat): (s: string)
    ensures |s| > 0 && AllDigits(s)
  {
    var d := ['0' + (n % 10) as char];
    if n < 10 then d else DecimalString(n / 10) + d
  }

  /** Reading back a canonical spelling gives the number spelt. */
  lemma {:induction false} DecimalRoundTrip(n: nat)
    ensures DecimalValue(DecimalString(n)) == n
  {
    var s := DecimalString(n);
    if n >= 10 {
      assert s[..|s| - 1] == DecimalString(n / 10);
      DecimalRoundTrip(n / 10);
    }
  }

  /** `ParseUint` and `Atoi` accept every canonical spelling of a number in
      their range, signed or not, and return that number. */
  lemma ParseRoundTrip(n: nat)
    ensures n <= MaxUint64 ==> ParseUint(DecimalString(n)) == Some(n)
    ensures n <= MaxInt64 ==> Atoi(DecimalString(n)) == AtoiResult(n, true)
    ensures n <= MaxInt64 ==> Atoi("+" + DecimalString(n)) == AtoiResult(n, true)
    ensures n <= MaxInt64 + 1 ==> Atoi("-" + DecimalString(n)) == AtoiResult(0 - n, true)
  {
    DecimalRoundTrip(n);
    var s := DecimalString(n);
    assert ("+" + s)[1..] == s;
    assert ("-" + s)[1..] == s;
    ScanUintMeaning(s);
  }
}
