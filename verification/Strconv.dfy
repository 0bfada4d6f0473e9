/** Decimal integers as strconv formats and parses them in base 10. */
module Strconv {
  import opened Base
  import opened JsonScanner
  import JsonGrammar

  function FormatUint(n: nat): (s: gostring)
    ensures s != []
    ensures forall i :: 0 <= i < |s| ==> IsDigit(s[i])
    ensures s[0] == ZERO ==> |s| == 1 && n == 0
  {
    if n < 10 then [0x30 + n] else FormatUint(n / 10) + [0x30 + n % 10]
  }

  function FormatInt(n: int): gostring {
    if n < 0 then [MINUS] + FormatUint(-n) else FormatUint(n)
  }

  predicate AllDigits(s: gostring) {
    s != [] && forall i :: 0 <= i < |s| ==> IsDigit(s[i])
  }

  function DigitValue(c: byte): (d: int)
    requires IsDigit(c)
    ensures 0 <= d < 10
  {
    var b: int := c;
    b - 0x30
  }

  function Value(s: gostring): nat
    requires forall i :: 0 <= i < |s| ==> IsDigit(s[i])
  {
    if s == [] then 0 else Value(s[..|s| - 1]) * 10 + DigitValue(s[|s| - 1])
  }

  /** strconv.ParseInt(s, 10, 64). */
  function ParseInt(s: gostring): (r: Option<int>)
    ensures r.Some? ==> MIN_INT64 <= r.value <= MAX_INT64
  {
    var signed := s != [] && (s[0] == MINUS || s[0] == PLUS);
    var digits := if signed then s[1..] else s;
    if !AllDigits(digits) then None
    else
      var magnitude: int := Value(digits);
      var n := if signed && s[0] == MINUS then -magnitude else magnitude;
      if MIN_INT64 <= n <= MAX_INT64 then Some(n) else None
  }

  /** strconv.ParseUint(s, 10, 64). */
  function ParseUint(s: gostring): Option<uint64> {
    if AllDigits(s) && Value(s) <= MAX_UINT64 then Some(Value(s)) else None
  }

  lemma {:induction false} ValueOfFormat(n: nat)
    ensures Value(FormatUint(n)) == n
  {
    if n >= 10 {
      ValueOfFormat(n / 10);
      assert FormatUint(n)[..|FormatUint(n)| - 1] == FormatUint(n / 10);
    }
  }

  /** Parsing undoes formatting on the whole 64-bit range. */
  lemma ParseOfFormat(n: int)
    requires MIN_INT64 <= n <= MAX_INT64
    ensures ParseInt(FormatInt(n)) == Some(n)
  {
    ValueOfFormat(if n < 0 then -n else n);
    if n < 0 { assert FormatInt(n)[1..] == FormatUint(-n); }
  }

  lemma ParseOfFormatUint(n: uint64)
    ensures ParseUint(FormatUint(n)) == Some(n)
  {
    ValueOfFormat(n);
  }

  /** What is formatted is an integer literal of the grammar. */
  lemma FormatIsLiteral(n: int)
    ensures JsonGrammar.IsIntegerLiteral(FormatInt(n))
  {
    if n < 0 {
      var s := FormatUint(-n);
      assert FormatInt(n) == [MINUS] + s;
      assert forall i :: 1 <= i < |FormatInt(n)| ==> FormatInt(n)[i] == s[i - 1];
    }
  }
}
