/** Writing JSON strings and server frames (internal/protocol/serialize.go). The escaper is modelled twice:
    as the code is written, and with the single-unit branch its comment promises. */
module JsonWriter {
  import opened Base
  import opened JsonScanner
  import opened JsonGrammar
  import Utf8

  function HexChar(n: int): (c: byte)
    requires 0 <= n < 16
    ensures HexDigit(c) == n && c < 0x80
  {
    if n < 10 then 0x30 + n else 0x61 + n - 10
  }

  /** The four lower-case digits of a 16-bit unit. */
  function HexDigits(unit: int): (h: gostring)
    requires 0 <= unit < 0x10000
    ensures IsHex4(h) && Hex4(h) == unit
  {
    hide HexChar, HexDigit;
    FourNibbles(unit);
    [HexChar(unit / 4096), HexChar(unit / 256 % 16), HexChar(unit / 16 % 16), HexChar(unit % 16)]
  }

  lemma FourNibbles(unit: int)
    requires 0 <= unit < 0x10000
    ensures 0 <= unit / 4096 < 16
    ensures ((unit / 4096 * 16 + unit / 256 % 16) * 16 + unit / 16 % 16) * 16 + unit % 16 == unit
  {
    assert unit / 256 == unit / 16 / 16 && unit / 4096 == unit / 256 / 16;
  }

  function HexUnit(unit: int): gostring
    requires 0 <= unit < 0x10000
  {
    [BACKSLASH, LOWER_U] + HexDigits(unit)
  }

  /** The letter of a named escape, or nothing. */
  function NamedEscape(c: int): Option<byte> {
    if c == QUOTE as int || c == BACKSLASH as int then Some(c)
    else if c == 0x08 then Some(0x62)
    else if c == 0x0C then Some(LOWER_F)
    else if c == 0x0A then Some(LOWER_N)
    else if c == 0x0D then Some(0x72)
    else if c == 0x09 then Some(LOWER_T)
    else None
  }

  /** & ' + < > ` and DEL */
  predicate IsSensitive(c: int) {
    c == 0x26 || c == 0x27 || c == 0x2B || c == 0x3C || c == 0x3E || c == 0x60 || c == 0x7F
  }

  function AsciiUnit(c: int): gostring
    requires 0 <= c < 0x80
  {
    if NamedEscape(c).Some? then [BACKSLASH, NamedEscape(c).value]
    else if IsSensitive(c) || c < 0x20 then HexUnit(c)
    else [c]
  }

  /** utf16.EncodeRune: twice U+FFFD for a rune that needs no pair. */
  function EncodeUtf16(r: int): (p: (int, int))
    ensures 0 <= p.0 < 0x10000 && 0 <= p.1 < 0x10000
  {
    if 0x10000 <= r <= 0x10FFFF then (0xD800 + (r - 0x10000) / 0x400, 0xDC00 + (r - 0x10000) % 0x400)
    else (Utf8.RUNE_ERROR, Utf8.RUNE_ERROR)
  }

  /** The escaper's two variants: `AsWritten` is the code, whose single-unit branch is never taken;
      `AsDocumented` writes a character of the basic plane as its one unit. */
  datatype Variant = AsWritten | AsDocumented

  function RuneText(v: Variant, r: int): gostring
    requires Utf8.IsScalar(r)
  {
    if r < 0x80 then AsciiUnit(r)
    else if r == 0x2028 || r == 0x2029 || (v.AsDocumented? && r < 0x10000) then HexUnit(r)
    else HexUnit(EncodeUtf16(r).0) + HexUnit(EncodeUtf16(r).1)
  }

  /** A rune that the code as written does not bring back. */
  predicate Mangled(v: Variant, r: int) {
    v.AsWritten? && 0x80 <= r < 0x10000 && r != 0x2028 && r != 0x2029
  }

  /** What reading back gives for one rune. */
  function ReadBack(v: Variant, r: int): (rs: seq<int>)
    ensures |rs| == if Mangled(v, r) then 2 else 1
  {
    if Mangled(v, r) then [Utf8.RUNE_ERROR, Utf8.RUNE_ERROR] else [r]
  }

  function ReadBackAll(v: Variant, rs: seq<int>): seq<int> {
    if rs == [] then [] else ReadBack(v, rs[0]) + ReadBackAll(v, rs[1..])
  }

  function RunesText(v: Variant, rs: seq<int>): gostring
    requires Utf8.AllScalar(rs)
  {
    if rs == [] then [] else RuneText(v, rs[0]) + RunesText(v, rs[1..])
  }

  /** The literal written for a string. Invalid bytes read as U+FFFD, as ranging over a string does. */
  function Quoted(v: Variant, s: gostring): gostring {
    Utf8.RunesAreScalar(s, 0);
    [QUOTE] + RunesText(v, Utf8.Runes(s)) + [QUOTE]
  }

  // The literal in the terms of the grammar.

  ghost function PiecesOf(v: Variant, r: int): seq<Piece>
    requires Utf8.IsScalar(r)
  {
    if r < 0x80 then
      if NamedEscape(r).Some? then [Short(NamedEscape(r).value)]
      else if IsSensitive(r) || r < 0x20 then [Unit(HexDigits(r))]
      else [Plain(r)]
    else if Mangled(v, r) then [Unit(HexDigits(Utf8.RUNE_ERROR)), Unit(HexDigits(Utf8.RUNE_ERROR))]
    else if r < 0x10000 then [Unit(HexDigits(r))]
    else [Pair(HexDigits(EncodeUtf16(r).0), HexDigits(EncodeUtf16(r).1))]
  }

  ghost function AllPieces(v: Variant, rs: seq<int>): seq<Piece>
    requires Utf8.AllScalar(rs)
  {
    if rs == [] then [] else PiecesOf(v, rs[0]) + AllPieces(v, rs[1..])
  }

  lemma SurrogatesCombine(r: int)
    requires 0x10000 <= r <= 0x10FFFF
    ensures var p := EncodeUtf16(r);
            0xD800 <= p.0 < 0xDC00 && 0xDC00 <= p.1 < 0xE000 && CombineSurrogates(p.0, p.1) == r
  {
  }

  lemma OnePieceIsRight(v: Variant, r: int)
    requires Utf8.IsScalar(r) && !Mangled(v, r)
    ensures |PiecesOf(v, r)| == 1
    ensures var p := PiecesOf(v, r)[0]; WellFormedPiece(p) && PieceBytes(p) == RuneText(v, r) && PieceRune(p) == r
  {
    hide HexDigits, HexDigit, Utf8.EncodeRune, Hex4, IsHex4;
    if 0x10000 <= r { SurrogatesCombine(r); }
    if 0x20 <= r < 0x80 { PlainAscii(r); }
  }

  lemma MangledPiecesAreRight(v: Variant, r: int)
    requires Utf8.IsScalar(r) && Mangled(v, r)
    ensures var p := Unit(HexDigits(Utf8.RUNE_ERROR));
            && PiecesOf(v, r) == [p, p] && WellFormedPiece(p) && PieceRune(p) == Utf8.RUNE_ERROR
            && RuneText(v, r) == PieceBytes(p) + PieceBytes(p)
  {
    hide HexDigits, HexDigit, Utf8.EncodeRune, Hex4, IsHex4;
  }

  lemma StringCons(p: Piece, rest: seq<Piece>)
    requires WellFormedPiece(p) && WellFormedPieces(rest)
    ensures WellFormedPieces([p] + rest)
    ensures StringBytes([p] + rest) == PieceBytes(p) + StringBytes(rest)
    ensures StringValue([p] + rest) == Utf8.EncodeRune(PieceRune(p)) + StringValue(rest)
  {
    hide WellFormedPiece, PieceBytes, PieceRune, Utf8.EncodeRune;
    assert ([p] + rest)[1..] == rest;
  }

  lemma EncodeSmall(r: int)
    ensures Utf8.EncodeAll([r]) == Utf8.EncodeRune(r) && Utf8.EncodeAll([r, r]) == Utf8.EncodeRune(r) + Utf8.EncodeRune(r)
  {
    hide Utf8.EncodeRune;
    assert [r][1..] == [] && [r, r][1..] == [r];
  }

  lemma PiecesAreRight(v: Variant, r: int, rest: seq<Piece>)
    requires Utf8.IsScalar(r) && WellFormedPieces(rest)
    ensures WellFormedPieces(PiecesOf(v, r) + rest)
    ensures StringBytes(PiecesOf(v, r) + rest) == RuneText(v, r) + StringBytes(rest)
    ensures StringValue(PiecesOf(v, r) + rest) == Utf8.EncodeAll(ReadBack(v, r)) + StringValue(rest)
  {
    hide Utf8.EncodeAll, Utf8.EncodeRune, PieceBytes, PieceRune, WellFormedPiece, WellFormedPieces, StringBytes, StringValue;
    if Mangled(v, r) {
      MangledPiecesAreRight(v, r);
      EncodeSmall(Utf8.RUNE_ERROR);
      var p := Unit(HexDigits(Utf8.RUNE_ERROR));
      StringCons(p, rest);
      StringCons(p, [p] + rest);
      assert [p, p] + rest == [p] + ([p] + rest);
      hide PiecesOf, RuneText;
    } else {
      OnePieceIsRight(v, r);
      EncodeSmall(r);
      hide PiecesOf, RuneText;
      assert PiecesOf(v, r) == [PiecesOf(v, r)[0]];
      StringCons(PiecesOf(v, r)[0], rest);
    }
  }

  lemma PlainAscii(r: int)
    requires 0 <= r < 0x80
    ensures Utf8.EncodeRune(r) == [r]
  {
  }

  lemma {:induction false} AllPiecesAreRight(v: Variant, rs: seq<int>)
    requires Utf8.AllScalar(rs)
    ensures WellFormedPieces(AllPieces(v, rs))
    ensures StringBytes(AllPieces(v, rs)) == RunesText(v, rs) + [QUOTE]
    ensures StringValue(AllPieces(v, rs)) == Utf8.EncodeAll(ReadBackAll(v, rs))
    decreases |rs|
  {
    hide PiecesOf, RuneText, ReadBack, Utf8.EncodeRune;
    if rs != [] {
      AllPiecesAreRight(v, rs[1..]);
      PiecesAreRight(v, rs[0], AllPieces(v, rs[1..]));
      Utf8.EncodeAllAppend(ReadBack(v, rs[0]), ReadBackAll(v, rs[1..]));
    }
  }

  /** The string that reading the written literal gives. */
  function Reread(v: Variant, s: gostring): gostring {
    Utf8.EncodeAll(ReadBackAll(v, Utf8.Runes(s)))
  }

  /** The literal of a string as a syntax tree. */
  ghost function LiteralOf(v: Variant, s: gostring): (ps: seq<Piece>)
    ensures WellFormedPieces(ps) && StringValue(ps) == Reread(v, s)
    ensures [QUOTE] + StringBytes(ps) == Quoted(v, s)
  {
    Utf8.RunesAreScalar(s, 0);
    AllPiecesAreRight(v, Utf8.Runes(s));
    AllPieces(v, Utf8.Runes(s))
  }

  /** The scanner reads the written literal back, wherever it stands. */
  lemma WrittenIsReadBack(v: Variant, s: gostring, frame: gostring, pos: nat)
    requires Utf8.At(frame, pos, Quoted(v, s))
    ensures pos + 1 <= |frame| && ParseChars(frame, pos + 1) == Got(Reread(v, s), pos + |Quoted(v, s)|)
  {
    hide Utf8.At, Quoted, Reread;
    var ps := LiteralOf(v, s);
    Utf8.AtSplit(frame, pos, [QUOTE], StringBytes(ps));
    StringAccepted(frame, pos + 1, ps);
  }

  lemma {:induction false} ReadBackLength(v: Variant, rs: seq<int>)
    ensures |ReadBackAll(v, rs)| >= |rs|
    ensures |ReadBackAll(v, rs)| == |rs| <==> forall i :: 0 <= i < |rs| ==> !Mangled(v, rs[i])
    ensures |ReadBackAll(v, rs)| == |rs| ==> ReadBackAll(v, rs) == rs
    ensures Utf8.AllScalar(rs) ==> Utf8.AllScalar(ReadBackAll(v, rs))
    decreases |rs|
  {
    if rs != [] {
      ReadBackLength(v, rs[1..]);
      assert rs == [rs[0]] + rs[1..];
      assert forall i :: 1 <= i < |rs| ==> rs[i] == rs[1..][i - 1];
    }
  }

  /** The round trip is the identity exactly on valid UTF-8 without a mangled rune. */
  lemma RoundTripIff(v: Variant, s: gostring)
    ensures Reread(v, s) == s <==>
            Utf8.Valid(s) && forall i :: 0 <= i < |Utf8.Runes(s)| ==> !Mangled(v, Utf8.Runes(s)[i])
  {
    var rs := Utf8.Runes(s);
    ReadBackLength(v, rs);
    Utf8.RunesAreScalar(s, 0);
    Utf8.SanitizedIdentity(s);
    Utf8.RunesOfEncodeAll(Reread(v, s), 0, ReadBackAll(v, rs));
  }

  /** With the documented branch, the round trip is the identity on all valid UTF-8. */
  lemma DocumentedRoundTrip(s: gostring)
    ensures Reread(AsDocumented, s) == s <==> Utf8.Valid(s)
  {
    RoundTripIff(AsDocumented, s);
  }

  /** The code as written breaks on a single character: U+00E9 comes back as two U+FFFD. */
  lemma WrittenMangles()
    ensures var s := Utf8.EncodeRune(0xE9);
            Utf8.Valid(s) && Reread(AsWritten, s) == Utf8.EncodeRune(Utf8.RUNE_ERROR) + Utf8.EncodeRune(Utf8.RUNE_ERROR) != s
  {
    var s := Utf8.EncodeRune(0xE9);
    assert Utf8.EncodeAll([0xE9]) == s;
    Utf8.RunesOfEncodeAll(s, 0, [0xE9]);
    var e := [Utf8.RUNE_ERROR, Utf8.RUNE_ERROR];
    assert ReadBackAll(AsWritten, [0xE9]) == e;
    assert e[1..] == [Utf8.RUNE_ERROR];
    assert Utf8.EncodeAll(e[1..]) == Utf8.EncodeRune(Utf8.RUNE_ERROR);
  }

  /** Only printable ASCII is written. */
  lemma {:induction false} WritesAscii(v: Variant, rs: seq<int>)
    requires Utf8.AllScalar(rs)
    ensures forall i :: 0 <= i < |RunesText(v, rs)| ==> 0x20 <= RunesText(v, rs)[i] < 0x7F
    decreases |rs|
  {
    if rs != [] {
      WritesAscii(v, rs[1..]);
      RuneIsAscii(v, rs[0]);
      hide RuneText;
    }
  }

  lemma HexIsPrintable(unit: int)
    requires 0 <= unit < 0x10000
    ensures |HexUnit(unit)| == 6
    ensures forall i :: 0 <= i < 6 ==> 0x20 <= HexUnit(unit)[i] < 0x7F
  {
    HexIsAscii(HexDigits(unit));
  }

  lemma RuneIsAscii(v: Variant, r: int)
    requires Utf8.IsScalar(r)
    ensures forall i :: 0 <= i < |RuneText(v, r)| ==> 0x20 <= RuneText(v, r)[i] < 0x7F
  {
    hide HexUnit;
    forall unit | 0 <= unit < 0x10000 ensures |HexUnit(unit)| == 6 && forall i :: 0 <= i < 6 ==> 0x20 <= HexUnit(unit)[i] < 0x7F {
      HexIsPrintable(unit);
    }
  }

  // The writers.

  class Builder {
    var text: gostring

    constructor ()
      ensures text == []
    {
      text := [];
    }

    method Write(s: gostring)
      modifies this
      ensures text == old(text) + s
    {
      text := text + s;
    }

    method WriteHexUnit(unit: int)
      requires 0 <= unit < 0x10000
      modifies this
      ensures text == old(text) + HexUnit(unit)
    {
      text := text + [BACKSLASH, LOWER_U];
      text := text + [HexChar(unit / 4096)];
      text := text + [HexChar(unit / 256 % 16)];
      text := text + [HexChar(unit / 16 % 16)];
      text := text + [HexChar(unit % 16)];
    }

    method WriteAsciiUnit(c: int)
      requires 0 <= c < 0x80
      modifies this
      ensures text == old(text) + AsciiUnit(c)
    {
      if NamedEscape(c).Some? {
        text := text + [BACKSLASH, NamedEscape(c).value];
      } else if IsSensitive(c) {
        WriteHexUnit(c);
      } else {
        if c < 0x20 {
          WriteHexUnit(c);
          return;
        }
        text := text + [c];
      }
    }

    /** One rune, as the code stands: `lo` is never -1. */
    method WriteRune(r: int)
      requires Utf8.IsScalar(r)
      modifies this
      ensures text == old(text) + RuneText(AsWritten, r)
    {
      hide AsciiUnit, HexUnit;
      if r < 0x80 {
        WriteAsciiUnit(r);
        return;
      }
      if r == 0x2028 || r == 0x2029 {
        WriteHexUnit(r);
        return;
      }
      var (hi, lo) := EncodeUtf16(r);
      if lo == -1 {
        assert false;
      } else {
        WriteHexUnit(hi);
        WriteHexUnit(lo);
      }
    }

    method WriteJsonString(s: gostring)
      modifies this
      ensures text == old(text) + Quoted(AsWritten, s)
    {
      hide RuneText, Utf8.DecodeRune, RunesText, Utf8.RunesFrom;
      Utf8.RunesAreScalar(s, 0);
      RunesTextEmpty(AsWritten);
      var pos: nat := 0;
      ghost var start, done: seq<int> := text + [QUOTE], [];
      text := text + [QUOTE];
      while pos < |s|
        invariant pos <= |s|
        invariant Utf8.AllScalar(done) && Utf8.Runes(s) == done + Utf8.RunesFrom(s, pos)
        invariant text == start + RunesText(AsWritten, done)
        decreases |s| - pos
      {
        var d := Utf8.DecodeRune(s, pos);
        WriteRune(d.r);
        RunesTextStep(AsWritten, done, d.r);
        RunesShift(s, pos, done);
        done := done + [d.r];
        pos := pos + d.size;
      }
      RunesEnd(s, done);
      text := text + [QUOTE];
    }
  }

  lemma RunesTextEmpty(v: Variant)
    ensures RunesText(v, []) == []
  {
  }

  lemma RunesShift(s: gostring, pos: nat, done: seq<int>)
    requires pos < |s|
    ensures done + Utf8.RunesFrom(s, pos) == done + [Utf8.DecodeRune(s, pos).r] + Utf8.RunesFrom(s, pos + Utf8.DecodeRune(s, pos).size)
  {
  }

  lemma RunesEnd(s: gostring, done: seq<int>)
    ensures done + Utf8.RunesFrom(s, |s|) == done
  {
  }

  lemma {:induction false} RunesTextStep(v: Variant, rs: seq<int>, r: int)
    requires Utf8.AllScalar(rs) && Utf8.IsScalar(r)
    ensures RunesText(v, rs + [r]) == RunesText(v, rs) + RuneText(v, r)
    decreases |rs|
  {
    hide RuneText;
    if rs == [] {
      assert RunesText(v, [r]) == RuneText(v, r) + RunesText(v, [r][1..]);
    } else {
      assert (rs + [r])[1..] == rs[1..] + [r];
      RunesTextStep(v, rs[1..], r);
    }
  }
}
