/** UTF-8 as Go's unicode/utf8 reads and writes it, section 3 of RFC 3629. */
module Utf8 {
  import opened Base

  const RUNE_ERROR: int := 0xFFFD

  /** A Unicode scalar value: a code point that is not a surrogate. */
  predicate IsScalar(r: int) {
    0 <= r < 0xD800 || 0xE000 <= r <= 0x10FFFF
  }

  /** Go's AppendRune: anything that is not a scalar value is written as U+FFFD. */
  function EncodeRune(r: int): (b: seq<byte>)
    ensures 1 <= |b| <= 4
  {
    if !IsScalar(r) then [0xEF, 0xBF, 0xBD]
    else if r < 0x80 then [r]
    else if r < 0x800 then [0xC0 + r / 64, 0x80 + r % 64]
    else if r < 0x10000 then [0xE0 + r / 4096, 0x80 + r / 64 % 64, 0x80 + r % 64]
    else [0xF0 + r / 262144, 0x80 + r / 4096 % 64, 0x80 + r / 64 % 64, 0x80 + r % 64]
  }

  datatype Decoded = Decoded(r: int, size: nat, valid: bool)

  predicate Continues(s: seq<byte>, pos: nat, lo: int, hi: int) {
    pos < |s| && lo <= s[pos] <= hi
  }

  /** The six payload bits of a continuation byte. */
  function Low6(s: seq<byte>, pos: nat): int
    requires pos < |s|
  {
    var b: int := s[pos];
    b - 0x80
  }

  /** Go's DecodeRune at a position: an invalid byte decodes as U+FFFD of size 1. */
  function DecodeRune(s: seq<byte>, pos: nat): (d: Decoded)
    requires pos < |s|
    ensures 1 <= d.size <= 4 && pos + d.size <= |s|
    ensures IsScalar(d.r)
    ensures !d.valid ==> d.r == RUNE_ERROR && d.size == 1
    ensures d.r < 0x80 ==> d.valid && s[pos] == d.r && d.size == 1
    ensures s[pos] < 0x80 ==> d == Decoded(s[pos], 1, true)
  {
    var b0: int := s[pos];
    var lo1 := if b0 == 0xE0 then 0xA0 else if b0 == 0xF0 then 0x90 else 0x80;
    var hi1 := if b0 == 0xED then 0x9F else if b0 == 0xF4 then 0x8F else 0xBF;
    if b0 < 0x80 then Decoded(b0, 1, true)
    else if !(0xC2 <= b0 <= 0xF4) || !Continues(s, pos + 1, lo1, hi1) then Decoded(RUNE_ERROR, 1, false)
    else if b0 < 0xE0 then Decoded((b0 - 0xC0) * 64 + Low6(s, pos + 1), 2, true)
    else if !Continues(s, pos + 2, 0x80, 0xBF) then Decoded(RUNE_ERROR, 1, false)
    else if b0 < 0xF0 then Decoded((b0 - 0xE0) * 4096 + Low6(s, pos + 1) * 64 + Low6(s, pos + 2), 3, true)
    else if !Continues(s, pos + 3, 0x80, 0xBF) then Decoded(RUNE_ERROR, 1, false)
    else Decoded((b0 - 0xF0) * 262144 + Low6(s, pos + 1) * 4096 + Low6(s, pos + 2) * 64 + Low6(s, pos + 3), 4, true)
  }

  /** utf8.Valid from a position on. */
  predicate ValidFrom(s: seq<byte>, pos: nat)
    decreases |s| - pos
  {
    pos >= |s| || (DecodeRune(s, pos).valid && ValidFrom(s, pos + DecodeRune(s, pos).size))
  }

  predicate Valid(s: seq<byte>) {
    ValidFrom(s, 0)
  }

  /** The runes of Go's `for _, r := range s`, from a position on. */
  function RunesFrom(s: seq<byte>, pos: nat): seq<int>
    decreases |s| - pos
  {
    if pos >= |s| then [] else [DecodeRune(s, pos).r] + RunesFrom(s, pos + DecodeRune(s, pos).size)
  }

  function Runes(s: seq<byte>): seq<int> {
    RunesFrom(s, 0)
  }

  function EncodeAll(rs: seq<int>): seq<byte> {
    if rs == [] then [] else EncodeRune(rs[0]) + EncodeAll(rs[1..])
  }

  predicate AllScalar(rs: seq<int>) {
    forall i :: 0 <= i < |rs| ==> IsScalar(rs[i])
  }

  /** Whether `b` stands in `s` at `pos`. */
  predicate At(s: seq<byte>, pos: nat, b: seq<byte>): (r: bool)
    ensures r ==> pos + |b| <= |s|
  {
    pos + |b| <= |s| && s[pos..pos + |b|] == b
  }

  lemma AtByte(s: seq<byte>, pos: nat, b: byte)
    ensures At(s, pos, [b]) <==> pos < |s| && s[pos] == b
  {
    if pos < |s| { assert s[pos..pos + 1] == [s[pos]]; }
  }

  lemma AtIndex(s: seq<byte>, pos: nat, b: seq<byte>)
    requires At(s, pos, b)
    ensures forall i :: 0 <= i < |b| ==> s[pos + i] == b[i]
  {
    forall i | 0 <= i < |b| ensures s[pos + i] == b[i] {
      assert s[pos..pos + |b|][i] == s[pos + i];
    }
  }

  lemma AtSplit(s: seq<byte>, pos: nat, a: seq<byte>, b: seq<byte>)
    ensures At(s, pos, a + b) <==> At(s, pos, a) && At(s, pos + |a|, b)
  {
    if pos + |a| + |b| <= |s| {
      assert s[pos..pos + |a + b|] == s[pos..pos + |a|] + s[pos + |a|..pos + |a| + |b|];
      assert (a + b)[..|a|] == a && (a + b)[|a|..] == b;
      if s[pos..pos + |a + b|] == a + b {
        assert s[pos..pos + |a|] == s[pos..pos + |a + b|][..|a|];
        assert s[pos + |a|..pos + |a| + |b|] == s[pos..pos + |a + b|][|a|..];
      }
    }
  }

  /** Decoding undoes encoding, whatever follows. */
  lemma DecodeOfEncode(s: seq<byte>, pos: nat, r: int)
    requires IsScalar(r) && At(s, pos, EncodeRune(r))
    ensures DecodeRune(s, pos) == Decoded(r, |EncodeRune(r)|, true)
  {
    AtIndex(s, pos, EncodeRune(r));
    if 0x80 <= r < 0x800 {
      SplitTwo(r);
    } else if 0x800 <= r < 0x10000 {
      SplitThree(r);
    } else if 0x10000 <= r {
      SplitFour(r);
    }
  }

  lemma SplitTwo(r: int)
    requires 0x80 <= r < 0x800
    ensures var a, b := 0xC0 + r / 64, 0x80 + r % 64;
            0xC2 <= a <= 0xDF && 0x80 <= b <= 0xBF && r == (a - 0xC0) * 64 + (b - 0x80)
  {}

  lemma SplitThree(r: int)
    requires 0x800 <= r < 0x10000 && IsScalar(r)
    ensures var a, b, c := 0xE0 + r / 4096, 0x80 + r / 64 % 64, 0x80 + r % 64;
            && 0xE0 <= a <= 0xEF && 0x80 <= b <= 0xBF && 0x80 <= c <= 0xBF
            && (a == 0xE0 ==> b >= 0xA0) && (a == 0xED ==> b <= 0x9F)
            && r == (a - 0xE0) * 4096 + (b - 0x80) * 64 + (c - 0x80)
  {
    Digits64(r);
  }

  lemma SplitFour(r: int)
    requires 0x10000 <= r <= 0x10FFFF
    ensures var a, b, c, d := 0xF0 + r / 262144, 0x80 + r / 4096 % 64, 0x80 + r / 64 % 64, 0x80 + r % 64;
            && 0xF0 <= a <= 0xF4 && 0x80 <= b <= 0xBF && 0x80 <= c <= 0xBF && 0x80 <= d <= 0xBF
            && (a == 0xF0 ==> b >= 0x90) && (a == 0xF4 ==> b <= 0x8F)
            && r == (a - 0xF0) * 262144 + (b - 0x80) * 4096 + (c - 0x80) * 64 + (d - 0x80)
  {
    Digits64(r);
    Digits64(r / 64);
  }

  lemma Digits64(r: int)
    ensures r == r / 4096 * 4096 + r / 64 % 64 * 64 + r % 64
    ensures r / 4096 == r / 64 / 64 && r / 262144 == r / 64 / 4096
  {}

  /** Encoding undoes decoding of a valid rune. */
  lemma EncodeOfDecode(s: seq<byte>, pos: nat)
    requires pos < |s| && DecodeRune(s, pos).valid
    ensures At(s, pos, EncodeRune(DecodeRune(s, pos).r))
    ensures |EncodeRune(DecodeRune(s, pos).r)| == DecodeRune(s, pos).size
  {
    var d := DecodeRune(s, pos);
    if d.size == 1 {
      assert s[pos..pos + 1] == [s[pos]];
    } else if d.size == 2 {
      assert s[pos..pos + 2] == [s[pos], s[pos + 1]];
      EncodeTwo(s[pos], s[pos + 1]);
    } else if d.size == 3 {
      assert s[pos..pos + 3] == [s[pos], s[pos + 1], s[pos + 2]];
      EncodeThree(s[pos], s[pos + 1], s[pos + 2]);
    } else {
      assert s[pos..pos + 4] == [s[pos], s[pos + 1], s[pos + 2], s[pos + 3]];
      EncodeFour(s[pos], s[pos + 1], s[pos + 2], s[pos + 3]);
    }
  }

  lemma EncodeTwo(a: int, b: int)
    requires 0xC2 <= a <= 0xDF && 0x80 <= b <= 0xBF
    ensures EncodeRune((a - 0xC0) * 64 + (b - 0x80)) == [a, b]
  {
    SixBits(a - 0xC0, b - 0x80);
  }

  lemma EncodeThree(a: int, b: int, c: int)
    requires 0xE0 <= a <= 0xEF && 0x80 <= b <= 0xBF && 0x80 <= c <= 0xBF
    requires (a == 0xE0 ==> b >= 0xA0) && (a == 0xED ==> b <= 0x9F)
    ensures EncodeRune((a - 0xE0) * 4096 + (b - 0x80) * 64 + (c - 0x80)) == [a, b, c]
  {
    ThreeGroups(a - 0xE0, b - 0x80, c - 0x80);
  }

  lemma EncodeFour(a: int, b: int, c: int, d: int)
    requires 0xF0 <= a <= 0xF4 && 0x80 <= b <= 0xBF && 0x80 <= c <= 0xBF && 0x80 <= d <= 0xBF
    requires (a == 0xF0 ==> b >= 0x90) && (a == 0xF4 ==> b <= 0x8F)
    ensures EncodeRune((a - 0xF0) * 262144 + (b - 0x80) * 4096 + (c - 0x80) * 64 + (d - 0x80)) == [a, b, c, d]
  {
    FourGroups(a - 0xF0, b - 0x80, c - 0x80, d - 0x80);
  }

  lemma SixBits(q: int, x: int)
    requires 0 <= x < 64
    ensures (q * 64 + x) / 64 == q && (q * 64 + x) % 64 == x
  {}

  lemma ThreeGroups(h: int, x: int, y: int)
    requires 0 <= x < 64 && 0 <= y < 64
    ensures var r := h * 4096 + x * 64 + y; r / 4096 == h && r / 64 % 64 == x && r % 64 == y
  {
    SixBits(h * 64 + x, y);
    SixBits(h, x);
  }

  lemma FourGroups(h: int, x: int, y: int, z: int)
    requires 0 <= x < 64 && 0 <= y < 64 && 0 <= z < 64
    ensures var r := h * 262144 + x * 4096 + y * 64 + z;
            r / 262144 == h && r / 4096 % 64 == x && r / 64 % 64 == y && r % 64 == z
  {
    SixBits((h * 64 + x) * 64 + y, z);
    ThreeGroups(h, x, y);
  }

  lemma {:induction false} EncodeAllOfRunes(s: seq<byte>, pos: nat)
    requires ValidFrom(s, pos) && pos <= |s|
    ensures EncodeAll(RunesFrom(s, pos)) == s[pos..]
    decreases |s| - pos
  {
    hide DecodeRune, EncodeRune;
    if pos < |s| {
      var d := DecodeRune(s, pos);
      EncodeOfDecode(s, pos);
      EncodeAllOfRunes(s, pos + d.size);
    }
  }

  lemma {:induction false} RunesAreScalar(s: seq<byte>, pos: nat)
    ensures AllScalar(RunesFrom(s, pos))
    decreases |s| - pos
  {
    if pos < |s| { RunesAreScalar(s, pos + DecodeRune(s, pos).size); }
  }

  lemma SplitTail(s: seq<byte>, pos: nat, a: seq<byte>, b: seq<byte>)
    requires pos <= |s| && s[pos..] == a + b
    ensures At(s, pos, a) && s[pos + |a|..] == b
  {
    assert |s| == pos + |a| + |b|;
    assert s[pos..pos + |a|] == s[pos..][..|a|];
    assert s[pos + |a|..] == s[pos..][|a|..];
  }

  lemma {:induction false} RunesOfEncodeAll(s: seq<byte>, pos: nat, rs: seq<int>)
    requires AllScalar(rs) && pos <= |s| && s[pos..] == EncodeAll(rs)
    ensures RunesFrom(s, pos) == rs && ValidFrom(s, pos)
    decreases |rs|
  {
    hide DecodeRune, EncodeRune, At, RunesFrom, ValidFrom;
    if rs == [] {
      RunesStep(s, pos);
    } else {
      var e := EncodeRune(rs[0]);
      SplitTail(s, pos, e, EncodeAll(rs[1..]));
      DecodeOfEncode(s, pos, rs[0]);
      RunesOfEncodeAll(s, pos + |e|, rs[1..]);
      RunesStep(s, pos);
    }
  }

  lemma RunesStep(s: seq<byte>, pos: nat)
    requires pos <= |s|
    ensures RunesFrom(s, pos) == if pos == |s| then [] else [DecodeRune(s, pos).r] + RunesFrom(s, pos + DecodeRune(s, pos).size)
    ensures ValidFrom(s, pos) <==> pos == |s| || (DecodeRune(s, pos).valid && ValidFrom(s, pos + DecodeRune(s, pos).size))
  {
  }

  /** The string with every invalid byte replaced by U+FFFD. */
  function Sanitized(s: seq<byte>): seq<byte> {
    EncodeAll(Runes(s))
  }

  lemma SanitizedIsValid(s: seq<byte>)
    ensures Valid(Sanitized(s)) && Runes(Sanitized(s)) == Runes(s)
  {
    RunesAreScalar(s, 0);
    RunesOfEncodeAll(Sanitized(s), 0, Runes(s));
  }

  /** Sanitizing is the identity on exactly the valid strings. */
  lemma SanitizedIdentity(s: seq<byte>)
    ensures Sanitized(s) == s <==> Valid(s)
  {
    if Valid(s) { EncodeAllOfRunes(s, 0); }
    SanitizedIsValid(s);
  }

  lemma {:induction false} EncodeAllAppend(a: seq<int>, b: seq<int>)
    ensures EncodeAll(a + b) == EncodeAll(a) + EncodeAll(b)
  {
    if a == [] {
      assert a + b == b;
    } else {
      assert (a + b)[1..] == a[1..] + b;
      EncodeAllAppend(a[1..], b);
    }
  }

  lemma ValidConcat(a: seq<byte>, b: seq<byte>)
    requires Valid(a) && Valid(b)
    ensures Valid(a + b)
  {
    EncodeAllOfRunes(a, 0);
    EncodeAllOfRunes(b, 0);
    RunesAreScalar(a, 0);
    RunesAreScalar(b, 0);
    EncodeAllAppend(Runes(a), Runes(b));
    RunesOfEncodeAll(a + b, 0, Runes(a) + Runes(b));
  }

  lemma EncodeRuneIsValid(r: int)
    requires IsScalar(r)
    ensures Valid(EncodeRune(r))
  {
    assert EncodeAll([r]) == EncodeRune(r);
    RunesOfEncodeAll(EncodeRune(r), 0, [r]);
  }

  lemma {:induction false} AsciiIsValid(s: seq<byte>, pos: nat)
    requires forall i :: pos <= i < |s| ==> s[i] < 0x80
    ensures ValidFrom(s, pos)
    decreases |s| - pos
  {
    if pos < |s| { AsciiIsValid(s, pos + 1); }
  }

  /** unicode.IsSpace. */
  predicate IsSpace(r: int) {
    || 0x09 <= r <= 0x0D || r == 0x20 || r == 0x85 || r == 0xA0 || r == 0x1680
    || 0x2000 <= r <= 0x200A || r == 0x2028 || r == 0x2029 || r == 0x202F || r == 0x205F || r == 0x3000
  }

  /** strings.TrimSpace(s) == "". */
  predicate IsBlank(s: seq<byte>) {
    var rs := Runes(s);
    forall i :: 0 <= i < |rs| ==> IsSpace(rs[i])
  }
}
