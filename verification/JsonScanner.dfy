/** The strict JSON scanner (internal/protocol/jsonscan.go): a tree, what parsing means as functions of the
    text and a position, and the class that does it by moving a position. */
module JsonScanner {
  import opened Base
  import Utf8

  datatype Node =
    | Object(members: seq<Member>)
    | Array(items: seq<Node>)
    | Str(str: gostring)
    | Number(raw: gostring)
    | Bool(boolean: bool)
    | Null

  /** Document order and repeated keys are kept. */
  datatype Member = Member(key: gostring, val: Node)

  const QUOTE: byte := 0x22
  const BACKSLASH: byte := 0x5C
  const COMMA: byte := 0x2C
  const COLON: byte := 0x3A
  const OPEN_BRACE: byte := 0x7B
  const CLOSE_BRACE: byte := 0x7D
  const OPEN_BRACKET: byte := 0x5B
  const CLOSE_BRACKET: byte := 0x5D
  const MINUS: byte := 0x2D
  const PLUS: byte := 0x2B
  const DOT: byte := 0x2E
  const ZERO: byte := 0x30
  const NINE: byte := 0x39
  const LOWER_E: byte := 0x65
  const UPPER_E: byte := 0x45
  const LOWER_T: byte := 0x74
  const LOWER_F: byte := 0x66
  const LOWER_N: byte := 0x6E
  const LOWER_U: byte := 0x75

  const TRUE: gostring := [0x74, 0x72, 0x75, 0x65]
  const FALSE: gostring := [0x66, 0x61, 0x6C, 0x73, 0x65]
  const NULL: gostring := [0x6E, 0x75, 0x6C, 0x6C]

  /** Get: the first member of that name; nothing for a missing name or a node that is no object. */
  function Get(n: Node, key: gostring): (r: Option<Node>)
    ensures r.Some? ==> n.Object? && Member(key, r.value) in n.members
    ensures r.None? && n.Object? ==> forall i :: 0 <= i < |n.members| ==> n.members[i].key != key
  {
    if n.Object? then Find(n.members, key) else None
  }

  function Find(members: seq<Member>, key: gostring): (r: Option<Node>)
    ensures r.Some? ==> Member(key, r.value) in members
    ensures r.None? ==> forall i :: 0 <= i < |members| ==> members[i].key != key
  {
    if members == [] then None
    else if members[0].key == key then Some(members[0].val)
    else Find(members[1..], key)
  }

  /** Every name is a known one and none is repeated. */
  ghost predicate UniqueKnown(members: seq<Member>, known: seq<gostring>) {
    && (forall i :: 0 <= i < |members| ==> members[i].key in known)
    && (forall i, j :: 0 <= i < j < |members| ==> members[i].key != members[j].key)
  }

  // What parsing means.

  datatype Parse<+T> = Fail | Got(value: T, next: nat)

  predicate IsWs(c: byte) {
    c == 0x20 || c == 0x09 || c == 0x0A || c == 0x0D
  }

  predicate IsDigit(c: byte) {
    ZERO <= c <= NINE
  }

  function SkipWs(s: gostring, pos: nat): (next: nat)
    requires pos <= |s|
    ensures pos <= next <= |s|
    ensures forall i :: pos <= i < next ==> IsWs(s[i])
    ensures next < |s| ==> !IsWs(s[next])
    decreases |s| - pos
  {
    if pos < |s| && IsWs(s[pos]) then SkipWs(s, pos + 1) else pos
  }

  function SkipDigits(s: gostring, pos: nat): (next: nat)
    requires pos <= |s|
    ensures pos <= next <= |s|
    ensures forall i :: pos <= i < next ==> IsDigit(s[i])
    ensures next < |s| ==> !IsDigit(s[next])
    decreases |s| - pos
  {
    if pos < |s| && IsDigit(s[pos]) then SkipDigits(s, pos + 1) else pos
  }

  /** A byte that must not follow an integer literal. */
  predicate SpoilsNumber(c: byte) {
    c == DOT || c == LOWER_E || c == UPPER_E || IsDigit(c) || c == MINUS || c == PLUS
  }

  function ParseNumber(s: gostring, start: nat): (r: Parse<Node>)
    requires start < |s|
    ensures r.Got? ==> start < r.next <= |s| && r.value == Number(s[start..r.next])
  {
    var first := if s[start] == MINUS then start + 1 else start;
    if first >= |s| || !IsDigit(s[first]) then Fail
    else
      var end := if s[first] == ZERO then first + 1 else SkipDigits(s, first);
      if end < |s| && SpoilsNumber(s[end]) then Fail else Got(Number(s[start..end]), end)
  }

  function ParseLiteral(s: gostring, pos: nat, literal: gostring, value: Node): (r: Parse<Node>)
    requires pos <= |s| && literal != []
    ensures r.Got? ==> pos < r.next <= |s| && r.value == value
  {
    if Utf8.At(s, pos, literal) then Got(value, pos + |literal|) else Fail
  }

  function HexDigit(c: byte): (v: int)
    ensures -1 <= v < 16
  {
    if ZERO <= c <= NINE then c as int - 0x30
    else if 0x61 <= c <= 0x66 then c as int - 0x61 + 10
    else if 0x41 <= c <= 0x46 then c as int - 0x41 + 10
    else -1
  }

  predicate IsHex4(h: gostring) {
    |h| == 4 && HexDigit(h[0]) >= 0 && HexDigit(h[1]) >= 0 && HexDigit(h[2]) >= 0 && HexDigit(h[3]) >= 0
  }

  function Hex4(h: gostring): (v: int)
    requires IsHex4(h)
    ensures 0 <= v < 0x10000
  {
    ((HexDigit(h[0]) * 16 + HexDigit(h[1])) * 16 + HexDigit(h[2])) * 16 + HexDigit(h[3])
  }

  /** The value of `n` hexadecimal digits from a position on. */
  ghost function HexFold(s: gostring, pos: nat, n: nat): int
    requires pos + n <= |s|
  {
    if n == 0 then 0 else HexFold(s, pos, n - 1) * 16 + HexDigit(s[pos + n - 1])
  }

  lemma Hex4IsFold(s: gostring, pos: nat)
    requires pos + 4 <= |s|
    ensures IsHex4(s[pos..pos + 4]) <==> forall j :: pos <= j < pos + 4 ==> HexDigit(s[j]) >= 0
    ensures IsHex4(s[pos..pos + 4]) ==> HexFold(s, pos, 4) == Hex4(s[pos..pos + 4])
  {
    hide HexDigit;
    var h := s[pos..pos + 4];
    assert h[0] == s[pos] && h[1] == s[pos + 1] && h[2] == s[pos + 2] && h[3] == s[pos + 3];
    assert HexFold(s, pos, 1) == HexDigit(h[0]);
    assert HexFold(s, pos, 2) == HexDigit(h[0]) * 16 + HexDigit(h[1]);
    assert HexFold(s, pos, 3) == (HexDigit(h[0]) * 16 + HexDigit(h[1])) * 16 + HexDigit(h[2]);
    assert HexFold(s, pos, 4) == ((HexDigit(h[0]) * 16 + HexDigit(h[1])) * 16 + HexDigit(h[2])) * 16 + HexDigit(h[3]);
  }

  /** From the `u` of an escape on. */
  function ParseHex4(s: gostring, pos: nat): (r: Parse<int>)
    ensures r.Got? ==> r.next == pos + 5 <= |s| && 0 <= r.value < 0x10000
  {
    if pos + 5 <= |s| && s[pos] == LOWER_U && IsHex4(s[pos + 1..pos + 5]) then Got(Hex4(s[pos + 1..pos + 5]), pos + 5)
    else Fail
  }

  predicate IsSurrogate(v: int) {
    0xD800 <= v < 0xE000
  }

  /** utf16.DecodeRune: U+FFFD for anything but a high and a low surrogate. */
  function CombineSurrogates(hi: int, lo: int): (r: int) {
    if 0xD800 <= hi < 0xDC00 && 0xDC00 <= lo < 0xE000 then (hi - 0xD800) * 0x400 + (lo - 0xDC00) + 0x10000
    else Utf8.RUNE_ERROR
  }

  function ParseUnicodeEscape(s: gostring, pos: nat): (r: Parse<int>)
    requires pos < |s|
    ensures r.Got? ==> pos < r.next <= |s| && Utf8.IsScalar(r.value)
  {
    var hi := ParseHex4(s, pos);
    if hi.Fail? || !IsSurrogate(hi.value) then hi
    else if hi.next + 1 >= |s| || s[hi.next] != BACKSLASH || s[hi.next + 1] != LOWER_U then Fail
    else
      var lo := ParseHex4(s, hi.next + 1);
      if lo.Fail? || CombineSurrogates(hi.value, lo.value) == Utf8.RUNE_ERROR then Fail
      else Got(CombineSurrogates(hi.value, lo.value), lo.next)
  }

  /** The character a one-letter escape stands for, or -1. */
  function ShortEscape(c: byte): int {
    if c == QUOTE || c == BACKSLASH || c == 0x2F then c as int
    else if c == 0x62 then 0x08
    else if c == LOWER_F then 0x0C
    else if c == LOWER_N then 0x0A
    else if c == 0x72 then 0x0D
    else if c == LOWER_T then 0x09
    else -1
  }

  /** One character of a string: its rune and the position after it. */
  function ParseChar(s: gostring, pos: nat): (r: Parse<int>)
    requires pos < |s|
    ensures r.Got? ==> pos < r.next <= |s| && Utf8.IsScalar(r.value)
  {
    if s[pos] == QUOTE || s[pos] < 0x20 then Fail
    else if s[pos] != BACKSLASH then
      var d := Utf8.DecodeRune(s, pos);
      Got(d.r, pos + d.size)
    else if pos + 1 >= |s| then Fail
    else if s[pos + 1] == LOWER_U then ParseUnicodeEscape(s, pos + 1)
    else if ShortEscape(s[pos + 1]) >= 0 then Got(ShortEscape(s[pos + 1]), pos + 2)
    else Fail
  }

  /** The rest of a string, after its opening quote. */
  function ParseChars(s: gostring, pos: nat): (r: Parse<gostring>)
    requires pos <= |s|
    ensures r.Got? ==> pos < r.next <= |s|
    decreases |s| - pos
  {
    if pos == |s| then Fail
    else if s[pos] == QUOTE then Got([], pos + 1)
    else
      var c := ParseChar(s, pos);
      if c.Fail? then Fail
      else
        var rest := ParseChars(s, c.next);
        if rest.Fail? then Fail else Got(Utf8.EncodeRune(c.value) + rest.value, rest.next)
  }

  function ParseValue(s: gostring, pos: nat, depth: int, maxDepth: int): (r: Parse<Node>)
    requires pos <= |s|
    ensures r.Got? ==> pos < r.next <= |s|
    decreases |s| - pos, 2
  {
    if pos == |s| then Fail
    else
      var c := s[pos];
      if c == OPEN_BRACE then ParseObject(s, pos, depth, maxDepth)
      else if c == OPEN_BRACKET then ParseArray(s, pos, depth, maxDepth)
      else if c == QUOTE then
        var str := ParseChars(s, pos + 1);
        if str.Fail? then Fail else Got(Str(str.value), str.next)
      else if c == LOWER_T then ParseLiteral(s, pos, TRUE, Bool(true))
      else if c == LOWER_F then ParseLiteral(s, pos, FALSE, Bool(false))
      else if c == LOWER_N then ParseLiteral(s, pos, NULL, Null)
      else if c == MINUS || IsDigit(c) then ParseNumber(s, pos)
      else Fail
  }

  function ParseObject(s: gostring, pos: nat, depth: int, maxDepth: int): (r: Parse<Node>)
    requires pos < |s|
    ensures r.Got? ==> pos < r.next <= |s|
    decreases |s| - pos, 1
  {
    if depth > maxDepth then Fail
    else
      var p := SkipWs(s, pos + 1);
      if p < |s| && s[p] == CLOSE_BRACE then Got(Object([]), p + 1)
      else
        var members := ParseMembers(s, p, depth, maxDepth);
        if members.Fail? then Fail else Got(Object(members.value), members.next)
  }

  /** A member's key, its colon, and the whitespace around them. */
  function ParseKey(s: gostring, pos: nat): (r: Parse<gostring>)
    requires pos <= |s|
    ensures r.Got? ==> pos < r.next <= |s|
  {
    var p := SkipWs(s, pos);
    if p == |s| || s[p] != QUOTE then Fail
    else
      var key := ParseChars(s, p + 1);
      if key.Fail? then Fail
      else
        var q := SkipWs(s, key.next);
        if q == |s| || s[q] != COLON then Fail else Got(key.value, SkipWs(s, q + 1))
  }

  /** One member up to the comma or brace that ends it. */
  function ParseMember(s: gostring, pos: nat, depth: int, maxDepth: int): (r: Parse<Member>)
    requires pos <= |s|
    ensures r.Got? ==> pos < r.next <= |s|
    decreases |s| - pos, 0
  {
    var key := ParseKey(s, pos);
    if key.Fail? then Fail
    else
      var val := ParseValue(s, key.next, depth + 1, maxDepth);
      if val.Fail? then Fail else Got(Member(key.value, val.value), SkipWs(s, val.next))
  }

  function ParseMembers(s: gostring, pos: nat, depth: int, maxDepth: int): (r: Parse<seq<Member>>)
    requires pos <= |s|
    ensures r.Got? ==> pos < r.next <= |s|
    decreases |s| - pos, 1
  {
    var member := ParseMember(s, pos, depth, maxDepth);
    if member.Fail? || member.next == |s| then Fail
    else if s[member.next] == CLOSE_BRACE then Got([member.value], member.next + 1)
    else if s[member.next] != COMMA then Fail
    else
      var rest := ParseMembers(s, member.next + 1, depth, maxDepth);
      if rest.Fail? then Fail else Got([member.value] + rest.value, rest.next)
  }

  function ParseArray(s: gostring, pos: nat, depth: int, maxDepth: int): (r: Parse<Node>)
    requires pos < |s|
    ensures r.Got? ==> pos < r.next <= |s|
    decreases |s| - pos, 1
  {
    if depth > maxDepth then Fail
    else
      var p := SkipWs(s, pos + 1);
      if p < |s| && s[p] == CLOSE_BRACKET then Got(Array([]), p + 1)
      else
        var items := ParseItems(s, p, depth, maxDepth);
        if items.Fail? then Fail else Got(Array(items.value), items.next)
  }

  /** One array element with the whitespace around it. */
  function ParseItem(s: gostring, pos: nat, depth: int, maxDepth: int): (r: Parse<Node>)
    requires pos <= |s|
    ensures r.Got? ==> pos < r.next <= |s|
    decreases |s| - pos, 3
  {
    var val := ParseValue(s, SkipWs(s, pos), depth + 1, maxDepth);
    if val.Fail? then Fail else Got(val.value, SkipWs(s, val.next))
  }

  function ParseItems(s: gostring, pos: nat, depth: int, maxDepth: int): (r: Parse<seq<Node>>)
    requires pos <= |s|
    ensures r.Got? ==> pos < r.next <= |s|
    decreases |s| - pos, 4
  {
    var item := ParseItem(s, pos, depth, maxDepth);
    if item.Fail? || item.next == |s| then Fail
    else if s[item.next] == CLOSE_BRACKET then Got([item.value], item.next + 1)
    else if s[item.next] != COMMA then Fail
    else
      var rest := ParseItems(s, item.next + 1, depth, maxDepth);
      if rest.Fail? then Fail else Got([item.value] + rest.value, rest.next)
  }

  /** Decode as a function: valid UTF-8, one value, nothing but whitespace around it. */
  function DecodeText(frame: gostring, maxDepth: int): Option<Node> {
    if !Utf8.Valid(frame) then None
    else
      var root := ParseValue(frame, SkipWs(frame, 0), 1, maxDepth);
      if root.Got? && SkipWs(frame, root.next) == |frame| then Some(root.value) else None
  }

  // The scanner itself.

  method Decode(frame: gostring, maxDepth: int) returns (root: Option<Node>)
    ensures root == DecodeText(frame, maxDepth)
  {
    if !Utf8.Valid(frame) {
      return None;
    }
    var p := new Scanner(frame, maxDepth);
    p.SkipWhitespace();
    if p.pos >= |frame| {
      return None;
    }
    root := p.ScanValue(1);
    if root.None? {
      return;
    }
    p.SkipWhitespace();
    if p.pos < |frame| {
      root := None;
    }
  }

  class Scanner {
    const data: gostring
    const maxDepth: int
    var pos: nat

    constructor (data: gostring, maxDepth: int)
      ensures this.data == data && this.maxDepth == maxDepth && pos == 0
    {
      this.data := data;
      this.maxDepth := maxDepth;
      pos := 0;
    }

    /** The answer and the new position are those of the parse. */
    ghost predicate Follows<T>(r: Option<T>, parse: Parse<T>)
      reads this
    {
      && pos <= |data|
      && match parse
         case Fail => r.None?
         case Got(value, next) => r == Some(value) && pos == next
    }

    method SkipWhitespace()
      requires pos <= |data|
      modifies this
      ensures pos == SkipWs(data, old(pos))
    {
      while pos < |data| && IsWs(data[pos])
        invariant pos <= |data| && SkipWs(data, pos) == SkipWs(data, old(pos))
      {
        pos := pos + 1;
      }
    }

    method ScanValue(depth: int) returns (r: Option<Node>)
      requires pos <= |data|
      modifies this
      ensures Follows(r, ParseValue(data, old(pos), depth, maxDepth))
      decreases |data| - pos, 2
    {
      if pos == |data| {
        return None;
      }
      var c := data[pos];
      if c == OPEN_BRACE {
        r := ScanObject(depth);
      } else if c == OPEN_BRACKET {
        r := ScanArray(depth);
      } else if c == QUOTE {
        var str := ScanString();
        r := if str.Some? then Some(Str(str.value)) else None;
      } else if c == LOWER_T {
        r := ExpectLiteral(TRUE, Bool(true));
      } else if c == LOWER_F {
        r := ExpectLiteral(FALSE, Bool(false));
      } else if c == LOWER_N {
        r := ExpectLiteral(NULL, Null);
      } else if c == MINUS || IsDigit(c) {
        r := ScanNumber();
      } else {
        r := None;
      }
    }

    method ExpectLiteral(literal: gostring, value: Node) returns (r: Option<Node>)
      requires pos <= |data| && literal != []
      modifies this
      ensures Follows(r, ParseLiteral(data, old(pos), literal, value))
    {
      for i := 0 to |literal|
        invariant pos == old(pos) + i <= |data|
        invariant data[old(pos)..pos] == literal[..i]
      {
        if pos == |data| || data[pos] != literal[i] {
          if old(pos) + |literal| <= |data| {
            assert data[old(pos)..old(pos) + |literal|][i] == data[pos];
          }
          return None;
        }
        pos := pos + 1;
        assert data[old(pos)..pos] == data[old(pos)..pos - 1] + [data[pos - 1]];
      }
      r := Some(value);
    }

    method ScanNumber() returns (r: Option<Node>)
      requires pos < |data|
      modifies this
      ensures Follows(r, ParseNumber(data, old(pos)))
    {
      var start := pos;
      if data[pos] == MINUS {
        pos := pos + 1;
        if pos == |data| {
          return None;
        }
      }
      if data[pos] == ZERO {
        pos := pos + 1;
      } else if IsDigit(data[pos]) {
        ghost var first := pos;
        while pos < |data| && IsDigit(data[pos])
          invariant first <= pos <= |data| && SkipDigits(data, pos) == SkipDigits(data, first)
        {
          pos := pos + 1;
        }
      } else {
        return None;
      }
      if pos < |data| && SpoilsNumber(data[pos]) {
        return None;
      }
      r := Some(Number(data[start..pos]));
    }

    method ScanHex4() returns (r: Option<int>)
      requires pos <= |data|
      modifies this
      ensures Follows(r, ParseHex4(data, old(pos)))
    {
      hide HexDigit, IsHex4, Hex4;
      if pos == |data| || data[pos] != LOWER_U {
        return None;
      }
      pos := pos + 1;
      var value := 0;
      ghost var h: nat := pos;
      if h + 4 <= |data| { Hex4IsFold(data, h); }
      for i := 0 to 4
        invariant pos == h + i <= |data|
        invariant forall j :: h <= j < pos ==> HexDigit(data[j]) >= 0
        invariant value == HexFold(data, h, i)
      {
        if pos == |data| {
          return None;
        }
        var digit := HexDigit(data[pos]);
        if digit < 0 {
          return None;
        }
        value := value * 16 + digit;
        pos := pos + 1;
      }
      r := Some(value);
    }

    method ScanUnicodeEscape() returns (r: Option<int>)
      requires pos < |data|
      modifies this
      ensures Follows(r, ParseUnicodeEscape(data, old(pos)))
    {
      r := ScanHex4();
      if r.None? || !IsSurrogate(r.value) {
        return;
      }
      if pos + 1 >= |data| || data[pos] != BACKSLASH || data[pos + 1] != LOWER_U {
        return None;
      }
      pos := pos + 1;
      var lo := ScanHex4();
      if lo.None? {
        return None;
      }
      var combined := CombineSurrogates(r.value, lo.value);
      r := if combined == Utf8.RUNE_ERROR then None else Some(combined);
    }

    method ScanString() returns (r: Option<gostring>)
      requires pos < |data|
      modifies this
      ensures Follows(r, ParseChars(data, old(pos) + 1))
    {
      pos := pos + 1;
      var out: gostring := [];
      ghost var whole := ParseChars(data, pos);
      PrefixedNothing(whole);
      while true
        invariant pos <= |data|
        invariant whole == Prefixed(out, ParseChars(data, pos))
        decreases |data| - pos
      {
        if pos == |data| {
          return None;
        }
        var c := data[pos];
        if c == QUOTE {
          pos := pos + 1;
          assert out + [] == out;
          return Some(out);
        }
        var rune := ScanChar();
        if rune.None? {
          return None;
        }
        PrefixedMore(out, Utf8.EncodeRune(rune.value), ParseChars(data, pos));
        out := out + Utf8.EncodeRune(rune.value);
      }
    }

    method ScanChar() returns (r: Option<int>)
      requires pos < |data| && data[pos] != QUOTE
      modifies this
      ensures Follows(r, ParseChar(data, old(pos)))
    {
      var c := data[pos];
      if c < 0x20 {
        return None;
      } else if c == BACKSLASH {
        pos := pos + 1;
        if pos == |data| {
          return None;
        }
        var esc := data[pos];
        if esc == LOWER_U {
          r := ScanUnicodeEscape();
        } else if ShortEscape(esc) >= 0 {
          pos := pos + 1;
          r := Some(ShortEscape(esc));
        } else {
          r := None;
        }
      } else {
        var d := Utf8.DecodeRune(data, pos);
        pos := pos + d.size;
        r := Some(d.r);
      }
    }

    method ScanObject(depth: int) returns (r: Option<Node>)
      requires pos < |data|
      modifies this
      ensures Follows(r, ParseObject(data, old(pos), depth, maxDepth))
      decreases |data| - pos, 1
    {
      hide ParseMember, SkipWs;
      if depth > maxDepth {
        return None;
      }
      pos := pos + 1;
      SkipWhitespace();
      if pos < |data| && data[pos] == CLOSE_BRACE {
        pos := pos + 1;
        return Some(Object([]));
      }
      var members: seq<Member> := [];
      ghost var whole := ParseMembers(data, pos, depth, maxDepth);
      PrefixedNothing(whole);
      while true
        invariant old(pos) < pos <= |data|
        invariant whole == Prefixed(members, ParseMembers(data, pos, depth, maxDepth))
        decreases |data| - pos
      {
        var member := ScanMember(depth);
        if member.None? {
          return None;
        }
        ghost var read := members;
        members := members + [member.value];
        if pos == |data| {
          return None;
        }
        if data[pos] == COMMA {
          pos := pos + 1;
          PrefixedMore(read, [member.value], ParseMembers(data, pos, depth, maxDepth));
        } else if data[pos] == CLOSE_BRACE {
          pos := pos + 1;
          return Some(Object(members));
        } else {
          return None;
        }
      }
    }

    method ScanMember(depth: int) returns (r: Option<Member>)
      requires pos <= |data|
      modifies this
      ensures Follows(r, ParseMember(data, old(pos), depth, maxDepth))
      decreases |data| - pos, 0
    {
      hide ParseKey, ParseValue;
      var key := ScanKey();
      if key.None? {
        return None;
      }
      var value := ScanValue(depth + 1);
      if value.None? {
        return None;
      }
      SkipWhitespace();
      r := Some(Member(key.value, value.value));
    }

    method ScanKey() returns (key: Option<gostring>)
      requires pos <= |data|
      modifies this
      ensures Follows(key, ParseKey(data, old(pos)))
    {
      hide ParseChars, SkipWs;
      SkipWhitespace();
      if pos == |data| || data[pos] != QUOTE {
        return None;
      }
      key := ScanString();
      if key.None? {
        return;
      }
      SkipWhitespace();
      if pos == |data| || data[pos] != COLON {
        return None;
      }
      pos := pos + 1;
      SkipWhitespace();
    }

    method ScanArray(depth: int) returns (r: Option<Node>)
      requires pos < |data|
      modifies this
      ensures Follows(r, ParseArray(data, old(pos), depth, maxDepth))
      decreases |data| - pos, 1
    {
      hide ParseItem, SkipWs;
      if depth > maxDepth {
        return None;
      }
      pos := pos + 1;
      SkipWhitespace();
      if pos < |data| && data[pos] == CLOSE_BRACKET {
        pos := pos + 1;
        return Some(Array([]));
      }
      var items: seq<Node> := [];
      ghost var whole := ParseItems(data, pos, depth, maxDepth);
      PrefixedNothing(whole);
      while true
        invariant old(pos) < pos <= |data|
        invariant whole == Prefixed(items, ParseItems(data, pos, depth, maxDepth))
        decreases |data| - pos
      {
        var item := ScanItem(depth);
        if item.None? {
          return None;
        }
        ghost var read := items;
        items := items + [item.value];
        if pos == |data| {
          return None;
        }
        if data[pos] == COMMA {
          pos := pos + 1;
          PrefixedMore(read, [item.value], ParseItems(data, pos, depth, maxDepth));
        } else if data[pos] == CLOSE_BRACKET {
          pos := pos + 1;
          return Some(Array(items));
        } else {
          return None;
        }
      }
    }

    method ScanItem(depth: int) returns (r: Option<Node>)
      requires pos <= |data|
      modifies this
      ensures Follows(r, ParseItem(data, old(pos), depth, maxDepth))
      decreases |data| - pos, 3
    {
      SkipWhitespace();
      r := ScanValue(depth + 1);
      if r.None? {
        return;
      }
      SkipWhitespace();
    }
  }

  /** A parse of the rest, with what was already read put before it. */
  function Prefixed<T>(read: seq<T>, rest: Parse<seq<T>>): Parse<seq<T>> {
    if rest.Fail? then Fail else Got(read + rest.value, rest.next)
  }

  lemma PrefixedNothing<T>(rest: Parse<seq<T>>)
    ensures Prefixed([], rest) == rest
  {
    if rest.Got? { assert [] + rest.value == rest.value; }
  }

  lemma PrefixedMore<T>(read: seq<T>, more: seq<T>, rest: Parse<seq<T>>)
    ensures Prefixed(read, Prefixed(more, rest)) == Prefixed(read + more, rest)
  {
    if rest.Got? { assert read + (more + rest.value) == read + more + rest.value; }
  }
}
