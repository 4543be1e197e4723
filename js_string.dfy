/** The two pieces of JavaScript string behaviour the visibility evaluator relies
    on: `String(x)` for the scalar values of a form, and `String.prototype.includes`. */
module JsString {
  import opened FormTypes

  function DigitChar(d: nat): (c: char)
    requires d < 10
    ensures '0' <= c <= '9'
    ensures c as int - '0' as int == d
  {
    (d + '0' as int) as char
  }

  /** The decimal digits of a natural number, most significant first. */
  function NatToDecimal(n: nat): (r: string)
    ensures |r| >= 1
    ensures forall i :: 0 <= i < |r| ==> '0' <= r[i] <= '9'
    ensures r[0] == '0' ==> n == 0
    decreases n
  {
    if n < 10 then [DigitChar(n)] else NatToDecimal(n / 10) + [DigitChar(n % 10)]
  }

  /** `String(n)` for an integer n: an optional minus sign, then the digits. */
  function IntToDecimal(n: int): (r: string)
    ensures n < 0 <==> (|r| > 0 && r[0] == '-')
    ensures n < 0 ==> r[1..] == NatToDecimal(-n)
    ensures n >= 0 ==> r == NatToDecimal(n)
    ensures |r| >= 1 && forall i :: 0 < i < |r| ==> '0' <= r[i] <= '9'
  {
    if n < 0 then "-" + NatToDecimal(-n) else NatToDecimal(n)
  }

  /** The value of a string of decimal digits (the inverse of NatToDecimal). */
  function DecimalValue(s: string): int
    decreases |s|
  {
    if s == [] then 0
    else DecimalValue(s[..|s| - 1]) * 10 + (s[|s| - 1] as int - '0' as int)
  }

  /** Reading back an optionally signed decimal numeral. */
  function ParseInt(s: string): int
  {
    if |s| > 0 && s[0] == '-' then -DecimalValue(s[1..]) else DecimalValue(s)
  }

  lemma {:induction false} NatToDecimalRoundTrip(n: nat)
    ensures DecimalValue(NatToDecimal(n)) == n
    decreases n
  {
    if n >= 10 {
      NatToDecimalRoundTrip(n / 10);
      var r := NatToDecimal(n);
      assert r[..|r| - 1] == NatToDecimal(n / 10);
    }
  }

  /** `String(n)` loses nothing: the numeral reads back as n, so distinct
      integers have distinct textual forms. */
  lemma IntToDecimalRoundTrip(n: int)
    ensures ParseInt(IntToDecimal(n)) == n
  {
    if n < 0 {
      NatToDecimalRoundTrip(-n);
      assert ("-" + NatToDecimal(-n))[1..] == NatToDecimal(-n);
    } else {
      NatToDecimalRoundTrip(n);
    }
  }

  /** `String(x)` for a value read from the value map, where None is `undefined`. */
  function Display(v: Option<Val>): (r: string)
    ensures v.None? ==> r == "undefined"
    ensures v.Some? && v.value.Str? ==> r == v.value.s
    ensures v.Some? && v.value.Num? ==> ParseInt(r) == v.value.n
  {
    IntToDecimalRoundTrip(if v.Some? && v.value.Num? then v.value.n else 0);
    match v
    case None => "undefined"
    case Some(Str(s)) => s
    case Some(Num(n)) => IntToDecimal(n)
  }

  /** t occurs in s starting at index i. */
  ghost predicate OccursAt(s: string, t: string, i: nat)
  {
    i + |t| <= |s| && s[i..i + |t|] == t
  }

  /** `s.includes(t)`: t is a contiguous substring of s. */
  function Includes(s: string, t: string): (r: bool)
    ensures r ==> |t| <= |s|
    ensures t <= s ==> r
    ensures r && |t| == |s| ==> t == s
    decreases |s|
  {
    t <= s || (|s| > 0 && Includes(s[1..], t))
  }

  lemma TailSlice<T>(s: seq<T>, i: nat, j: nat)
    requires |s| > 0 && i <= j <= |s| - 1
    ensures s[1..][i..j] == s[i + 1..j + 1]
  {
  }

  /** Includes agrees with the positional definition of a substring. */
  lemma {:induction false} IncludesIff(s: string, t: string)
    ensures Includes(s, t) <==> exists i: nat :: OccursAt(s, t, i)
    decreases |s|
  {
    if Includes(s, t) {
      if t <= s {
        assert OccursAt(s, t, 0);
      } else {
        IncludesIff(s[1..], t);
        var i: nat :| OccursAt(s[1..], t, i);
        TailSlice(s, i, i + |t|);
        assert OccursAt(s, t, i + 1);
      }
    }
    if exists i: nat :: OccursAt(s, t, i) {
      var i: nat :| OccursAt(s, t, i);
      if i == 0 {
        assert t <= s;
      } else {
        TailSlice(s, i - 1, i - 1 + |t|);
        assert OccursAt(s[1..], t, i - 1);
        IncludesIff(s[1..], t);
      }
    }
  }
}
