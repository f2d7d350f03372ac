/** Decimal rendering and parsing of integers and the few string operations the
    host code relies on (`str(n)`, `int(s)`, `str.zfill`, `s.split("/")[-1]`,
    `str.lower`, string ordering). */
module Text {
  import opened Wrappers

  predicate IsDigit(c: char) { '0' <= c <= '9' }

  predicate AllDigits(s: string) { forall i :: 0 <= i < |s| ==> IsDigit(s[i]) }

  function DigitChar(d: nat): (c: char)
    requires d < 10
    ensures IsDigit(c) && c as int - '0' as int == d
  {
    (('0' as int) + d) as char
  }

  function DigitValue(c: char): nat
    requires IsDigit(c)
  {
    (c as int - '0' as int) as nat
  }

  /** `str(n)` for n >= 0. */
  function NatToString(n: nat): (s: string)
    ensures |s| >= 1 && AllDigits(s)
    ensures |s| > 1 ==> s[0] != '0'
  {
    if n < 10 then [DigitChar(n)] else NatToString(n / 10) + [DigitChar(n % 10)]
  }

  /** `str(n)` for any integer. */
  function IntToString(n: int): (s: string)
    ensures |s| >= 1
    ensures n < 0 <==> s[0] == '-'
  {
    if n < 0 then "-" + NatToString(-n) else NatToString(n)
  }

  /** Value of a non-empty run of decimal digits, most significant first. */
  function DigitsValue(s: string): nat
    requires AllDigits(s)
  {
    if s == [] then 0 else DigitsValue(s[..|s| - 1]) * 10 + DigitValue(s[|s| - 1])
  }

  /** Python's `int(s)` on an optional sign followed by ASCII decimal digits
      (None where it raises); surrounding whitespace, `_` separators and
      non-ASCII digits are not accepted here. */
  function ParseInt(s: string): Option<int>
  {
    if |s| >= 2 && (s[0] == '-' || s[0] == '+') && AllDigits(s[1..]) then
      var v: int := DigitsValue(s[1..]);
      Some(if s[0] == '-' then -v else v)
    else if |s| >= 1 && AllDigits(s) then Some(DigitsValue(s))
    else None
  }

  function Zeros(k: nat): (z: string)
    ensures |z| == k && AllDigits(z)
    ensures forall i :: 0 <= i < k ==> z[i] == '0'
  {
    if k == 0 then [] else Zeros(k - 1) + "0"
  }

  /** Python's `s.zfill(width)`: left-pad with zeros after an optional sign. */
  function ZFill(s: string, width: nat): (r: string)
    ensures |r| == if |s| >= width then |s| else width
  {
    if |s| >= width then s
    else if |s| > 0 && (s[0] == '-' || s[0] == '+') then [s[0]] + Zeros(width - |s|) + s[1..]
    else Zeros(width - |s|) + s
  }

  /** Python's `s.split(sep)[-1]`: the text after the last separator. */
  function LastSegment(s: string, sep: char): (r: string)
    ensures sep !in r
    ensures |r| <= |s| && r == s[|s| - |r|..]
  {
    if s == [] || s[|s| - 1] == sep then []
    else LastSegment(s[..|s| - 1], sep) + [s[|s| - 1]]
  }

  /** ASCII part of `str.lower()`. */
  function LowerChar(c: char): char
  {
    if 'A' <= c <= 'Z' then ((c as int) + 32) as char else c
  }

  function Lower(s: string): (r: string)
    ensures |r| == |s| && forall i :: 0 <= i < |s| ==> r[i] == LowerChar(s[i])
  {
    if s == [] then [] else [LowerChar(s[0])] + Lower(s[1..])
  }

  /** Python's `a < b` on strings: lexicographic by code point. */
  predicate StrLess(a: string, b: string)
  {
    if a == [] then b != []
    else if b == [] then false
    else if a[0] != b[0] then a[0] < b[0]
    else StrLess(a[1..], b[1..])
  }

  // ---------------------------------------------------------------- lemmas

  lemma {:induction false} DigitsOfNat(n: nat)
    ensures DigitsValue(NatToString(n)) == n
  {
    if n >= 10 {
      var s := NatToString(n);
      DigitsOfNat(n / 10);
      assert s[..|s| - 1] == NatToString(n / 10);
    }
  }

  lemma {:induction false} LeadingZerosIgnored(k: nat, s: string)
    requires AllDigits(s)
    ensures AllDigits(Zeros(k) + s) && DigitsValue(Zeros(k) + s) == DigitsValue(s)
  {
    if s == [] {
      assert Zeros(k) + s == Zeros(k);
      ZerosValue(k);
    } else {
      var t := s[..|s| - 1];
      LeadingZerosIgnored(k, t);
      assert (Zeros(k) + s)[..|Zeros(k) + s| - 1] == Zeros(k) + t;
    }
  }

  lemma {:induction false} ZerosValue(k: nat)
    ensures DigitsValue(Zeros(k)) == 0
  {
    if k > 0 {
      ZerosValue(k - 1);
      assert Zeros(k)[..k - 1] == Zeros(k - 1);
    }
  }

  /** Round trip: `int(str(n).zfill(w)) == n` for every integer n. */
  lemma ParseZFilledInt(n: int, width: nat)
    ensures ParseInt(ZFill(IntToString(n), width)) == Some(n)
  {
    if n < 0 {
      ParseZFilledNegative(n, width);
    } else {
      ParseZFilledNat(n, width);
    }
  }

  lemma {:induction false} ParseZFilledNegative(n: int, width: nat)
    requires n < 0
    ensures ParseInt(ZFill(IntToString(n), width)) == Some(n)
  {
    var d := NatToString(-n);
    DigitsOfNat(-n);
    ParseFilledDigits(IntToString(n), d, n, width);
  }

  /** A zero-filled minus sign and digits parse to the negated digits. */
  lemma {:induction false} ParseFilledDigits(s: string, d: string, n: int, width: nat)
    requires |d| >= 1 && AllDigits(d) && s == "-" + d && DigitsValue(d) == -n
    ensures ParseInt(ZFill(s, width)) == Some(n)
  {
    var body := ZFillBody(d, width);
    ParseSigned(ZFill(s, width), body);
  }

  /** Zero-filling a minus sign and digits pads the digits with zeros, which
      keeps their value. */
  lemma {:induction false} ZFillBody(d: string, width: nat) returns (body: string)
    requires |d| >= 1 && AllDigits(d)
    ensures ZFill("-" + d, width) == "-" + body
    ensures |body| >= 1 && AllDigits(body) && DigitsValue(body) == DigitsValue(d)
  {
    var s := "-" + d;
    if |s| >= width {
      body := d;
    } else {
      body := Zeros(width - |s|) + d;
      assert s[1..] == d;
      assert ZFill(s, width) == [s[0]] + Zeros(width - |s|) + s[1..];
      LeadingZerosIgnored(width - |s|, d);
    }
  }

  lemma ParseSigned(s: string, body: string)
    requires |body| >= 1 && AllDigits(body) && s == "-" + body
    ensures ParseInt(s) == Some(-(DigitsValue(body) as int))
  {
    assert s[1..] == body;
  }

  lemma ParseZFilledNat(n: nat, width: nat)
    ensures ParseInt(ZFill(IntToString(n), width)) == Some(n)
  {
    var s := NatToString(n);
    DigitsOfNat(n);
    var z := ZFill(s, width);
    if |s| < width {
      LeadingZerosIgnored(width - |s|, s);
      assert z == Zeros(width - |s|) + s;
    }
    assert AllDigits(z) && DigitsValue(z) == n;
    assert z[0] != '-' && z[0] != '+';
  }

  /** The last `/`-segment of `prefix + "/" + tail` is `tail` when `tail` has no `/`. */
  lemma {:induction false} LastSegmentOfSuffix(prefix: string, tail: string, sep: char)
    requires sep !in tail
    ensures LastSegment(prefix + [sep] + tail, sep) == tail
  {
    if tail != [] {
      var s := prefix + [sep] + tail;
      var t := tail[..|tail| - 1];
      assert s[..|s| - 1] == prefix + [sep] + t;
      LastSegmentOfSuffix(prefix, t, sep);
    }
  }
}
