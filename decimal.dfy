/** Bytes, 64-bit integers and their decimal text: what the log format gets
    from Go's `fmt.Sprintf("%d", n)` and `strconv.Atoi`. */
module Decimal {
  import opened Wrappers

  /** A Go `byte`. Keys, values and log files are sequences of them. */
  type byte = b: int | 0 <= b < 256

  /** The range of Go's `int` on a 64-bit platform. */
  const MinInt64: int := -0x8000_0000_0000_0000
  const MaxInt64: int := 0x7fff_ffff_ffff_ffff
  type int64 = x: int | -0x8000_0000_0000_0000 <= x <= 0x7fff_ffff_ffff_ffff

  const COMMA: byte := 44  // ','
  const PLUS: byte := 43   // '+'
  const MINUS: byte := 45  // '-'
  const ZERO: byte := 48   // '0'

  predicate IsDigit(b: byte) {
    ZERO <= b <= ZERO + 9
  }

  predicate AllDigits(s: seq<byte>) {
    forall i :: 0 <= i < |s| ==> IsDigit(s[i])
  }

  /** The decimal digits of `n`, most significant first, without leading zeros. */
  function Digits(n: nat): (s: seq<byte>)
    ensures 1 <= |s| && AllDigits(s)
    ensures s[0] == ZERO ==> n == 0
  {
    if n < 10 then [ZERO + n] else Digits(n / 10) + [ZERO + n % 10]
  }

  /** `fmt.Sprintf("%d", n)`: an optional minus sign followed by the digits. */
  function FormatInt(n: int): (s: seq<byte>)
    ensures COMMA !in s
    ensures 1 <= |s|
  {
    if n < 0 then [MINUS] + Digits(-n) else Digits(n)
  }

  /** The number the decimal digits `s[lo..hi]` denote, or None if some
      byte of them is not a digit. */
  function DigitsValue(s: seq<byte>, lo: nat, hi: nat): (r: Option<nat>)
    requires lo <= hi <= |s|
    ensures r.Some? <==> forall i :: lo <= i < hi ==> IsDigit(s[i])
    decreases hi
  {
    if lo == hi then Some(0)
    else match DigitsValue(s, lo, hi - 1)
      case None => None
      case Some(v) => if IsDigit(s[hi - 1]) then Some(v * 10 + (s[hi - 1] - ZERO)) else None
  }

  /** `strconv.Atoi` on 64-bit Go, applied to the bytes `s[lo..hi]`: an
      optional `+` or `-` sign and at least one decimal digit, nothing else,
      and a value that fits in 64 bits. None stands for both its syntax
      error and its range error. */
  function Atoi(s: seq<byte>, lo: nat, hi: nat): (r: Option<int64>)
    requires lo <= hi <= |s|
    ensures r.Some? ==> lo < hi
    ensures r.Some? ==> var signed := s[lo] == PLUS || s[lo] == MINUS;
                        (signed ==> lo + 1 < hi)
                        && (forall i :: (if signed then lo + 1 else lo) <= i < hi ==> IsDigit(s[i]))
                        && (s[lo] == MINUS ==> r.value <= 0) && (s[lo] != MINUS ==> 0 <= r.value)
  {
    var start := if lo < hi && (s[lo] == PLUS || s[lo] == MINUS) then lo + 1 else lo;
    if start == hi then None
    else match DigitsValue(s, start, hi)
      case None => None
      case Some(v) =>
        var n := if s[lo] == MINUS then -(v as int) else v;
        if MinInt64 <= n <= MaxInt64 then Some(n) else None
  }

  /** Reading digits depends only on the bytes read. */
  lemma {:induction false} DigitsValueShift(s: seq<byte>, lo: nat, t: seq<byte>, i: nat, j: nat)
    requires lo + |t| <= |s| && s[lo..lo + |t|] == t
    requires i <= j <= |t|
    ensures DigitsValue(s, lo + i, lo + j) == DigitsValue(t, i, j)
    decreases j
  {
    if i < j {
      DigitsValueShift(s, lo, t, i, j - 1);
      assert s[lo + j - 1] == t[j - 1];
    }
  }

  /** `Atoi` on the bytes `s[lo..hi]` is `Atoi` on that slice: it depends
      only on the bytes it is given. */
  lemma AtoiShift(s: seq<byte>, lo: nat, t: seq<byte>)
    requires lo + |t| <= |s| && s[lo..lo + |t|] == t
    ensures Atoi(s, lo, lo + |t|) == Atoi(t, 0, |t|)
  {
    if 0 < |t| {
      assert s[lo] == t[0];
      var i := if t[0] == PLUS || t[0] == MINUS then 1 else 0;
      DigitsValueShift(s, lo, t, i, |t|);
    }
  }

  /** The digits of `n`, wherever they stand in `s`, read back as `n`. */
  lemma {:induction false} DigitsValueOfDigits(s: seq<byte>, lo: nat, n: nat)
    requires lo + |Digits(n)| <= |s| && s[lo..lo + |Digits(n)|] == Digits(n)
    ensures DigitsValue(s, lo, lo + |Digits(n)|) == Some(n)
  {
    var d := Digits(n);
    var hi := lo + |d|;
    if n >= 10 {
      var init := Digits(n / 10);
      assert d == init + [ZERO + n % 10];
      assert s[lo..hi - 1] == init by {
        assert s[lo..hi - 1] == s[lo..hi][..|init|];
      }
      DigitsValueOfDigits(s, lo, n / 10);
      assert s[hi - 1] == d[|d| - 1];
    } else {
      assert s[lo] == d[0];
    }
  }

  /** `Atoi` reads back every integer `FormatInt` writes: the numbers `Set`
      writes into a record header read back unchanged. */
  lemma AtoiFormatInt(n: int64)
    ensures Atoi(FormatInt(n), 0, |FormatInt(n)|) == Some(n)
  {
    var f := FormatInt(n);
    if n < 0 {
      var d := Digits(-(n as int));
      assert f[1..|f|] == d;
      DigitsValueOfDigits(f, 1, -(n as int));
    } else {
      var d := Digits(n);
      assert f[0..|f|] == d;
      assert d[0] != PLUS && d[0] != MINUS by {
        assert IsDigit(d[0]);
      }
      DigitsValueOfDigits(f, 0, n);
    }
  }
}
