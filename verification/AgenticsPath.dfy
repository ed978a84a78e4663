/**
 * Which paths the Agent Vault gate covers (agenticsAccess.ts), against the spellings Astro's router accepts.
 * Percent-decoding is the URI functions' of ECMA-262, over UTF-8; a path is a sequence of Unicode scalar values.
 */
module AgenticsPath {
  import opened Ordering

  // ── Percent-decoding ──────────────────────────────────────────────────────

  function HexValue(c: char): (v: Option<nat>)
    ensures v.Some? ==> v.value < 16 && c != '%' && c != '?' && c != '#'
  {
    if '0' <= c <= '9' then Some((c - '0') as int)
    else if 'a' <= c <= 'f' then Some((c - 'a') as int + 10)
    else if 'A' <= c <= 'F' then Some((c - 'A') as int + 10)
    else None
  }

  /** The octet spelled %XX at `i`. */
  function Octet(s: string, i: nat): (b: Option<nat>)
    ensures b.Some? ==>
      i + 2 < |s| && b.value < 256 && s[i] == '%' && HexValue(s[i + 1]).Some? && HexValue(s[i + 2]).Some?
  {
    if i + 2 < |s| && s[i] == '%' && HexValue(s[i + 1]).Some? && HexValue(s[i + 2]).Some? then
      Some(16 * HexValue(s[i + 1]).value + HexValue(s[i + 2]).value)
    else None
  }

  /** The six bits of a UTF-8 continuation octet at `i`. */
  function Continuation(s: string, i: nat): (v: Option<nat>)
    ensures v.Some? ==> i + 2 < |s| && v.value < 64 && Octet(s, i).Some?
  {
    match Octet(s, i)
    case Some(b) => if 0x80 <= b < 0xC0 then Some(b - 0x80) else None
    case None => None
  }

  /** A code point of UTF-8 in `width` / 3 octets: not overlong, not a surrogate, not past the last one. */
  predicate Encodable(v: int, width: nat) {
    match width
    case 6 => 0x80 <= v
    case 9 => 0x800 <= v && !(0xD800 <= v < 0xE000)
    case 12 => 0x10000 <= v < 0x110000
    case _ => false
  }

  datatype Piece = Piece(width: nat, c: char)

  function MultiByte(s: string, b: nat): (p: Option<Piece>)
    requires Octet(s, 0) == Some(b)
    ensures p.Some? ==> p.value.width in {6, 9, 12} && p.value.width <= |s|
  {
    var c1, c2, c3 := Continuation(s, 3), Continuation(s, 6), Continuation(s, 9);
    if 0xC0 <= b < 0xE0 && c1.Some? then
      var v := (b - 0xC0) * 0x40 + c1.value;
      if Encodable(v, 6) then Some(Piece(6, v as char)) else None
    else if 0xE0 <= b < 0xF0 && c1.Some? && c2.Some? then
      var v := ((b - 0xE0) * 0x40 + c1.value) * 0x40 + c2.value;
      if Encodable(v, 9) then Some(Piece(9, v as char)) else None
    else if 0xF0 <= b < 0xF8 && c1.Some? && c2.Some? && c3.Some? then
      var v := (((b - 0xF0) * 0x40 + c1.value) * 0x40 + c2.value) * 0x40 + c3.value;
      if Encodable(v, 12) then Some(Piece(12, v as char)) else None
    else None
  }

  /** The first character `s` spells, and how much of `s` spells it; None where decoding throws. */
  function FirstPiece(s: string): (p: Option<Piece>)
    requires s != ""
    ensures p.Some? ==> 1 <= p.value.width <= |s|
    ensures p.Some? && p.value.width == 1 ==> s[0] != '%' && p.value.c == s[0]
    ensures p.Some? && p.value.width != 1 ==> p.value.width in {3, 6, 9, 12} && s[0] == '%'
  {
    if s[0] != '%' then Some(Piece(1, s[0]))
    else match Octet(s, 0)
      case None => None
      case Some(b) => if b < 0x80 then Some(Piece(3, b as char)) else MultiByte(s, b)
  }

  /** What the first piece leaves in the decoded text. */
  function Emitted(s: string, keep: set<char>): string
    requires s != "" && FirstPiece(s).Some?
  {
    if FirstPiece(s).value.c in keep then s[..FirstPiece(s).value.width] else [FirstPiece(s).value.c]
  }

  /** decodeURIComponent (nothing kept), or decodeURI (an escaped reserved character keeps its spelling). */
  function Decode(s: string, keep: set<char>): Option<string>
    decreases |s|
  {
    if s == "" then Some("")
    else match FirstPiece(s)
      case None => None
      case Some(p) =>
        match Decode(s[p.width..], keep)
        case None => None
        case Some(t) => Some(Emitted(s, keep) + t)
  }

  /** What decodeURI leaves escaped. */
  const RESERVED: set<char> := {';', '/', '?', ':', '@', '&', '=', '+', '$', ',', '#'}

  lemma OctetIsLocal(s: string, t: string, i: nat, w: nat)
    requires w <= |s| && s[..w] <= t && i + 2 < w
    ensures Octet(t, i) == Octet(s, i) && Continuation(t, i) == Continuation(s, i)
  {
  }

  /** The first piece depends on nothing after it. */
  lemma PieceIsLocal(s: string, t: string)
    requires s != "" && FirstPiece(s).Some? && s[..FirstPiece(s).value.width] <= t
    ensures t != "" && FirstPiece(t) == FirstPiece(s)
  {
    var w := FirstPiece(s).value.width;
    assert t[0] == s[..w][0] == s[0];
    if w > 1 {
      OctetIsLocal(s, t, 0, w);
      if w > 3 { OctetIsLocal(s, t, 3, w); }
      if w > 6 { OctetIsLocal(s, t, 6, w); }
      if w > 9 { OctetIsLocal(s, t, 9, w); }
      hide Octet, Continuation;
    }
  }

  /** A piece of more than one character is octets only, so it hides no '?' and no '#'. */
  lemma PieceHidesNoCut(s: string, i: nat)
    requires s != "" && FirstPiece(s).Some? && 1 < FirstPiece(s).value.width && i < FirstPiece(s).value.width
    ensures s[i] != '?' && s[i] != '#'
  {
    var w := FirstPiece(s).value.width;
    assert Octet(s, 0).Some?;
    assert w > 3 ==> Octet(s, 3).Some?;
    assert w > 6 ==> Octet(s, 6).Some?;
    assert w > 9 ==> Octet(s, 9).Some?;
    hide *;
  }

  /** The first piece of `s` put before `u` decodes to what it leaves, then what `u` decodes to. */
  lemma PieceInFront(s: string, u: string, keep: set<char>)
    requires s != "" && FirstPiece(s).Some?
    ensures Decode(s[..FirstPiece(s).value.width] + u, keep) ==
      match Decode(u, keep) { case None => None case Some(y) => Some(Emitted(s, keep) + y) }
  {
    var w := FirstPiece(s).value.width;
    var t := s[..w] + u;
    PieceIsLocal(s, t);
    hide FirstPiece;
    assert t[w..] == u && t[..w] == s[..w];
  }

  lemma {:induction false} DecodeOfConcat(a: string, b: string, keep: set<char>)
    requires Decode(a, keep).Some?
    ensures Decode(a + b, keep) ==
      match Decode(b, keep) { case None => None case Some(y) => Some(Decode(a, keep).value + y) }
    decreases |a|
  {
    hide FirstPiece, Emitted;
    if a == "" {
      assert a + b == b && Decode(a, keep).value == "";
      if Decode(b, keep).Some? { assert "" + Decode(b, keep).value == Decode(b, keep).value; }
    } else {
      var w := FirstPiece(a).value.width;
      PieceInFront(a, a[w..] + b, keep);
      DecodeOfConcat(a[w..], b, keep);
      var first, t := Emitted(a, keep), Decode(a[w..], keep).value;
      assert Decode(a, keep).value == first + t;
      hide Decode;
      assert a[..w] + (a[w..] + b) == a + b;
      if Decode(b, keep).Some? { assert first + (t + Decode(b, keep).value) == (first + t) + Decode(b, keep).value; }
    }
  }

  /** Whether decoding throws does not depend on what is kept. */
  lemma {:induction false} KeepingNeverThrows(s: string, keep: set<char>)
    ensures Decode(s, keep).Some? <==> Decode(s, {}).Some?
    decreases |s|
  {
    hide FirstPiece;
    if s != "" && FirstPiece(s).Some? { KeepingNeverThrows(s[FirstPiece(s).value.width..], keep); }
  }

  lemma {:induction false} NothingToDecode(s: string, keep: set<char>)
    requires '%' !in s
    ensures Decode(s, keep) == Some(s)
  {
    if s != "" {
      NothingToDecode(s[1..], keep);
      assert s == [s[0]] + s[1..] == s[..1] + s[1..];
    }
  }

  /** Decoding shortens a text, unless there was nothing to decode in it. */
  lemma {:induction false} DecodeShortens(s: string)
    requires Decode(s, {}).Some?
    ensures |Decode(s, {}).value| <= |s|
    ensures Decode(s, {}).value == s <==> '%' !in s
    ensures |Decode(s, {}).value| == |s| ==> '%' !in s
    decreases |s|
  {
    hide FirstPiece;
    if s != "" {
      var p := FirstPiece(s).value;
      DecodeShortens(s[p.width..]);
      if p.width == 1 { assert s == [s[0]] + s[1..]; }
    }
  }

  /** Where the decoded text starts with `pre`, the spelling splits there, and nothing in the first part is kept. */
  lemma {:induction false} SplitSpelling(s: string, keep: set<char>, pre: string, rest: string)
    returns (s1: string, s2: string)
    requires Decode(s, keep) == Some(pre + rest) && '%' !in pre
    ensures s == s1 + s2 && Decode(s1, {}) == Some(pre) && Decode(s2, keep) == Some(rest)
    decreases |s|
  {
    if pre == "" {
      s1, s2 := "", s;
      assert pre + rest == rest;
    } else {
      assert s != "";
      assert (pre + rest)[0] == pre[0] != '%' && (pre + rest)[1..] == pre[1..] + rest;
      hide *;
      DecodedFirst(s, keep);
      var w := FirstPiece(s).value.width;
      var u1;
      u1, s2 := SplitSpelling(s[w..], keep, pre[1..], rest);
      s1 := s[..w] + u1;
      FirstPieceInFront(s, u1);
      JoinedSpelling(s, w, u1, s2);
      assert [pre[0]] + pre[1..] == pre;
    }
  }

  lemma FirstPieceInFront(s: string, u: string)
    requires s != "" && FirstPiece(s).Some? && Decode(u, {}).Some?
    ensures Decode(s[..FirstPiece(s).value.width] + u, {}) == Some([FirstPiece(s).value.c] + Decode(u, {}).value)
  {
    hide FirstPiece, Decode;
    PieceInFront(s, u, {});
  }

  lemma JoinedSpelling(s: string, w: nat, u1: string, s2: string)
    requires w <= |s| && s[w..] == u1 + s2
    ensures s == (s[..w] + u1) + s2
  {
  }

  /** A decoded text that does not start with '%' starts with the character of the first piece. */
  lemma DecodedFirst(s: string, keep: set<char>)
    requires s != "" && Decode(s, keep).Some? && Decode(s, keep).value != "" && Decode(s, keep).value[0] != '%'
    ensures FirstPiece(s).Some? && FirstPiece(s).value.c == Decode(s, keep).value[0]
    ensures Decode(s[FirstPiece(s).value.width..], keep) == Some(Decode(s, keep).value[1..])
  {
  }

  // ── What escapes stand for ────────────────────────────────────────────────

  /** The hexadecimal digit of a value, in small or capital letters. */
  function HexDigit(v: nat, capital: bool): char
    requires v < 16
  {
    if capital then "0123456789ABCDEF"[v] else "0123456789abcdef"[v]
  }

  function Escaped(octet: nat, capital: bool): (r: string)
    requires octet < 256
    ensures |r| == 3 && r[0] == '%'
  {
    ['%', HexDigit(octet / 16, capital), HexDigit(octet % 16, capital)]
  }

  /** The UTF-8 octets of a character, each escaped: RFC 3629, section 3. */
  function Spelled(c: char, capital: bool): string {
    var n := c as int;
    if n < 0x80 then Escaped(n, capital)
    else if n < 0x800 then Escaped(0xC0 + n / 0x40, capital) + Escaped(0x80 + n % 0x40, capital)
    else if n < 0x10000 then
      Escaped(0xE0 + n / 0x1000, capital) + Escaped(0x80 + n / 0x40 % 0x40, capital)
      + Escaped(0x80 + n % 0x40, capital)
    else
      Escaped(0xF0 + n / 0x40000, capital) + Escaped(0x80 + n / 0x1000 % 0x40, capital)
      + Escaped(0x80 + n / 0x40 % 0x40, capital) + Escaped(0x80 + n % 0x40, capital)
  }

  lemma HexDigitReadsBack(v: nat, capital: bool)
    requires v < 16
    ensures HexValue(HexDigit(v, capital)) == Some(v)
  {
  }

  lemma EscapedReadsBack(s: string, i: nat, octet: nat, capital: bool)
    requires octet < 256 && i + 3 <= |s| && s[i..i + 3] == Escaped(octet, capital)
    ensures Octet(s, i) == Some(octet)
    ensures Continuation(s, i) == if 0x80 <= octet < 0xC0 then Some(octet - 0x80) else None
  {
    HexDigitReadsBack(octet / 16, capital);
    HexDigitReadsBack(octet % 16, capital);
    hide HexValue, HexDigit;
    assert s[i] == s[i..i + 3][0] && s[i + 1] == s[i..i + 3][1] && s[i + 2] == s[i..i + 3][2];
  }

  /** Every escaped character is read back, whatever follows it. */
  lemma {:induction false} SpelledReadsBack(c: char, capital: bool, rest: string)
    ensures Spelled(c, capital) != ""
    ensures FirstPiece(Spelled(c, capital) + rest) == Some(Piece(|Spelled(c, capital)|, c))
  {
    var n, s := c as int, Spelled(c, capital) + rest;
    if n < 0x80 {
      assert s[0..3] == Escaped(n, capital);
      EscapedReadsBack(s, 0, n, capital);
    } else if n < 0x800 {
      TwoOctets(c, capital, rest);
    } else if n < 0x10000 {
      ThreeOctets(c, capital, rest);
    } else {
      FourOctets(c, capital, rest);
    }
  }

  lemma TwoOctets(c: char, capital: bool, rest: string)
    requires 0x80 <= c as int < 0x800
    ensures FirstPiece(Spelled(c, capital) + rest) == Some(Piece(6, c)) && |Spelled(c, capital)| == 6
  {
    var n, s := c as int, Spelled(c, capital) + rest;
    assert s[0..3] == Escaped(0xC0 + n / 0x40, capital) && s[3..6] == Escaped(0x80 + n % 0x40, capital);
    EscapedReadsBack(s, 0, 0xC0 + n / 0x40, capital);
    EscapedReadsBack(s, 3, 0x80 + n % 0x40, capital);
    assert s[0] == s[0..3][0] == '%';
    hide Octet, Continuation, Spelled, Escaped;
  }

  lemma ThreeSixes(n: nat) returns (a: nat, b: nat, d: nat)
    requires n < 0x10000
    ensures a == n / 0x1000 && b == n / 0x40 % 0x40 && d == n % 0x40
    ensures a < 0x10 && b < 0x40 && d < 0x40 && (a * 0x40 + b) * 0x40 + d == n
  {
    a, b, d := n / 0x1000, n / 0x40 % 0x40, n % 0x40;
    assert n / 0x1000 == n / 0x40 / 0x40;
  }

  lemma FourSixes(n: nat) returns (a: nat, b: nat, d: nat, e: nat)
    requires n < 0x110000
    ensures a == n / 0x40000 && b == n / 0x1000 % 0x40 && d == n / 0x40 % 0x40 && e == n % 0x40
    ensures a < 8 && b < 0x40 && d < 0x40 && e < 0x40 && ((a * 0x40 + b) * 0x40 + d) * 0x40 + e == n
  {
    a, b, d, e := n / 0x40000, n / 0x1000 % 0x40, n / 0x40 % 0x40, n % 0x40;
    assert n / 0x1000 == n / 0x40 / 0x40 && n / 0x40000 == n / 0x1000 / 0x40;
  }

  lemma Slices(x: string, y: string, z: string, rest: string)
    requires |x| == |y| == |z| == 3
    ensures var s := x + y + z + rest; s[0..3] == x && s[3..6] == y && s[6..9] == z
  {
  }

  /** Three escaped octets, by their payloads. */
  lemma ReadThree(a: nat, b: nat, d: nat, capital: bool, rest: string)
    requires a < 0x10 && b < 0x40 && d < 0x40
    requires var v := (a * 0x40 + b) * 0x40 + d; 0x800 <= v && !(0xD800 <= v < 0xE000)
    ensures var x := Escaped(0xE0 + a, capital) + Escaped(0x80 + b, capital) + Escaped(0x80 + d, capital);
      |x| == 9 && FirstPiece(x + rest) == Some(Piece(9, ((a * 0x40 + b) * 0x40 + d) as char))
  {
    hide Octet, Continuation, MultiByte, FirstPiece, Escaped;
    var x, y, z := Escaped(0xE0 + a, capital), Escaped(0x80 + b, capital), Escaped(0x80 + d, capital);
    var s := x + y + z + rest;
    Slices(x, y, z, rest);
    EscapedReadsBack(s, 0, 0xE0 + a, capital);
    EscapedReadsBack(s, 3, 0x80 + b, capital);
    EscapedReadsBack(s, 6, 0x80 + d, capital);
    assert s[0] == s[0..3][0] == '%';
    MultiByteIs(s, 0xE0 + a);
    FirstPieceIs(s, 0xE0 + a);
  }

  lemma ThreeOctets(c: char, capital: bool, rest: string)
    requires 0x800 <= c as int < 0x10000
    ensures FirstPiece(Spelled(c, capital) + rest) == Some(Piece(9, c)) && |Spelled(c, capital)| == 9
  {
    hide Escaped, FirstPiece;
    var a, b, d := ThreeSixes(c as int);
    assert Spelled(c, capital) ==
      Escaped(0xE0 + a, capital) + Escaped(0x80 + b, capital) + Escaped(0x80 + d, capital);
    hide Spelled;
    ReadThree(a, b, d, capital, rest);
  }

  /** Four escaped octets, by their payloads. */
  lemma ReadFour(a: nat, b: nat, d: nat, e: nat, capital: bool, rest: string)
    requires a < 8 && b < 0x40 && d < 0x40 && e < 0x40
    requires var v := ((a * 0x40 + b) * 0x40 + d) * 0x40 + e; 0x10000 <= v < 0x110000
    ensures var x := Escaped(0xF0 + a, capital) + Escaped(0x80 + b, capital) + Escaped(0x80 + d, capital)
        + Escaped(0x80 + e, capital);
      |x| == 12 && FirstPiece(x + rest) == Some(Piece(12, (((a * 0x40 + b) * 0x40 + d) * 0x40 + e) as char))
  {
    hide Octet, Continuation, MultiByte, FirstPiece, Escaped;
    var x, y, z := Escaped(0xF0 + a, capital), Escaped(0x80 + b, capital), Escaped(0x80 + d, capital);
    var w := Escaped(0x80 + e, capital);
    var s := x + y + z + w + rest;
    assert s == x + y + z + (w + rest);
    Slices(x, y, z, w + rest);
    assert s[9..12] == w;
    EscapedReadsBack(s, 0, 0xF0 + a, capital);
    EscapedReadsBack(s, 3, 0x80 + b, capital);
    EscapedReadsBack(s, 6, 0x80 + d, capital);
    EscapedReadsBack(s, 9, 0x80 + e, capital);
    assert s[0] == s[0..3][0] == '%';
    MultiByteIs(s, 0xF0 + a);
    FirstPieceIs(s, 0xF0 + a);
  }

  lemma FourOctets(c: char, capital: bool, rest: string)
    requires 0x10000 <= c as int
    ensures FirstPiece(Spelled(c, capital) + rest) == Some(Piece(12, c)) && |Spelled(c, capital)| == 12
  {
    hide Escaped, FirstPiece;
    var a, b, d, e := FourSixes(c as int);
    assert Spelled(c, capital) == Escaped(0xF0 + a, capital) + Escaped(0x80 + b, capital)
      + Escaped(0x80 + d, capital) + Escaped(0x80 + e, capital);
    hide Spelled;
    ReadFour(a, b, d, e, capital, rest);
  }

  lemma FirstPieceIs(s: string, b: nat)
    requires s != "" && s[0] == '%' && Octet(s, 0) == Some(b) && b >= 0x80
    ensures FirstPiece(s) == MultiByte(s, b)
  {
  }

  /** The number more than one octet spells, and when it is a character of that width. */
  lemma MultiByteIs(s: string, b: nat)
    requires Octet(s, 0) == Some(b)
    ensures var c1, c2, c3 := Continuation(s, 3), Continuation(s, 6), Continuation(s, 9);
      && (0xE0 <= b < 0xF0 && c1.Some? && c2.Some? ==>
        var v := ((b - 0xE0) * 0x40 + c1.value) * 0x40 + c2.value;
        MultiByte(s, b) == if 0x800 <= v && !(0xD800 <= v < 0xE000) then Some(Piece(9, v as char)) else None)
      && (0xF0 <= b < 0xF8 && c1.Some? && c2.Some? && c3.Some? ==>
        var v := (((b - 0xF0) * 0x40 + c1.value) * 0x40 + c2.value) * 0x40 + c3.value;
        MultiByte(s, b) == if 0x10000 <= v < 0x110000 then Some(Piece(12, v as char)) else None)
  {
    hide Octet, Continuation;
  }

  /** A text with every character escaped. */
  function SpelledOut(s: string, capital: bool): string {
    if s == "" then "" else Spelled(s[0], capital) + SpelledOut(s[1..], capital)
  }

  /** Decoding reads back any text that was escaped, in small letters or capitals. */
  lemma {:induction false} EscapesAreReadBack(s: string, capital: bool)
    ensures Decode(SpelledOut(s, capital), {}) == Some(s)
  {
    if s != "" {
      var rest := SpelledOut(s[1..], capital);
      SpelledReadsBack(s[0], capital, rest);
      EscapesAreReadBack(s[1..], capital);
      hide FirstPiece, Spelled;
      var t, w := Spelled(s[0], capital) + rest, |Spelled(s[0], capital)|;
      assert t[w..] == rest && [s[0]] + s[1..] == s;
    }
  }

  /** decodeURI leaves an escaped character as it is exactly when it is one of ; / ? : @ & = + $ , # . */
  lemma {:induction false} DecodeUriKeepsExactly(c: char, capital: bool)
    ensures Decode(Spelled(c, capital), RESERVED) ==
      Some(if c in ";/?:@&=+$,#" then Spelled(c, capital) else [c])
  {
    var t := Spelled(c, capital);
    SpelledReadsBack(c, capital, "");
    assert t + "" == t;
    assert c in RESERVED <==> c in ";/?:@&=+$,#";
    hide FirstPiece, Spelled;
    assert t[|t|..] == "" && Decode("", RESERVED) == Some("");
    assert t[..|t|] == t && t + "" == t && [c] + "" == [c];
  }

  lemma HexDigitOf(c: char)
    requires HexValue(c).Some?
    ensures LowerOf(c) == HexDigit(HexValue(c).value, false)
  {
  }

  lemma OctetIsEscape(s: string, i: nat)
    requires Octet(s, i).Some?
    ensures i + 3 <= |s| && Lowered(s[i..i + 3]) == Escaped(Octet(s, i).value, false)
  {
    HexDigitOf(s[i + 1]);
    HexDigitOf(s[i + 2]);
    var x, y := HexValue(s[i + 1]).value, HexValue(s[i + 2]).value;
    hide HexValue, HexDigit;
    assert Octet(s, i) == Some(16 * x + y);
    Nibbles(x, y);
    var t := s[i..i + 3];
    assert t == ['%', s[i + 1], s[i + 2]];
    hide Octet;
    assert Lowered(t) == ['%', HexDigit(x, false), HexDigit(y, false)];
  }

  lemma Nibbles(x: nat, y: nat)
    requires x < 16 && y < 16
    ensures (16 * x + y) / 16 == x && (16 * x + y) % 16 == y && 16 * x + y < 256
  {
  }

  lemma SpelledOfTwo(a: nat, b: nat)
    requires a < 0x20 && b < 0x40 && 0x80 <= a * 0x40 + b
    ensures Spelled((a * 0x40 + b) as char, false) == Escaped(0xC0 + a, false) + Escaped(0x80 + b, false)
  {
    hide Escaped;
    var n := a * 0x40 + b;
    assert n / 0x40 == a && n % 0x40 == b;
  }

  lemma SpelledOfThree(a: nat, b: nat, d: nat)
    requires a < 0x10 && b < 0x40 && d < 0x40
    requires var v := (a * 0x40 + b) * 0x40 + d; 0x800 <= v && !(0xD800 <= v < 0xE000)
    ensures Spelled(((a * 0x40 + b) * 0x40 + d) as char, false) ==
      Escaped(0xE0 + a, false) + Escaped(0x80 + b, false) + Escaped(0x80 + d, false)
  {
    hide Escaped;
    var n := (a * 0x40 + b) * 0x40 + d;
    assert n / 0x40 == a * 0x40 + b && n % 0x40 == d && n / 0x1000 == n / 0x40 / 0x40;
  }

  lemma SpelledOfFour(a: nat, b: nat, d: nat, e: nat)
    requires a < 8 && b < 0x40 && d < 0x40 && e < 0x40
    requires var v := ((a * 0x40 + b) * 0x40 + d) * 0x40 + e; 0x10000 <= v < 0x110000
    ensures Spelled((((a * 0x40 + b) * 0x40 + d) * 0x40 + e) as char, false) ==
      Escaped(0xF0 + a, false) + Escaped(0x80 + b, false) + Escaped(0x80 + d, false) + Escaped(0x80 + e, false)
  {
    hide Escaped;
    var n := ((a * 0x40 + b) * 0x40 + d) * 0x40 + e;
    assert n / 0x40 == (a * 0x40 + b) * 0x40 + d && n % 0x40 == e;
    assert n / 0x1000 == n / 0x40 / 0x40 == a * 0x40 + b && n / 0x40000 == n / 0x1000 / 0x40;
  }

  /** A continuation octet at `i` is an escape of its six bits. */
  lemma ContinuationIsEscape(s: string, i: nat)
    requires Continuation(s, i).Some?
    ensures i + 3 <= |s| && Lowered(s[i..i + 3]) == Escaped(0x80 + Continuation(s, i).value, false)
  {
    OctetIsEscape(s, i);
    hide Octet, Escaped;
  }

  lemma LoweredPieces(s: string, w: nat)
    requires w <= |s|
    ensures w == 6 ==> Lowered(s[..w]) == Lowered(s[0..3]) + Lowered(s[3..6])
    ensures w == 9 ==> Lowered(s[..w]) == Lowered(s[0..3]) + Lowered(s[3..6]) + Lowered(s[6..9])
    ensures w == 12 ==>
      Lowered(s[..w]) == Lowered(s[0..3]) + Lowered(s[3..6]) + Lowered(s[6..9]) + Lowered(s[9..12])
  {
  }

  lemma MultiByteCases(s: string, b: nat)
    requires Octet(s, 0) == Some(b) && MultiByte(s, b).Some?
    ensures var p := MultiByte(s, b).value;
      var c1, c2, c3 := Continuation(s, 3), Continuation(s, 6), Continuation(s, 9);
      && p.width in {6, 9, 12} && c1.Some? && (p.width > 6 ==> c2.Some?) && (p.width > 9 ==> c3.Some?)
      && (p.width == 6 ==> 0xC0 <= b < 0xE0 && 0x80 <= p.c as int == (b - 0xC0) * 0x40 + c1.value)
      && (p.width == 9 ==>
        0xE0 <= b < 0xF0 && 0x800 <= p.c as int == ((b - 0xE0) * 0x40 + c1.value) * 0x40 + c2.value)
      && (p.width == 12 ==>
        && 0xF0 <= b < 0xF8
        && 0x10000 <= p.c as int == (((b - 0xF0) * 0x40 + c1.value) * 0x40 + c2.value) * 0x40 + c3.value)
  {
    hide Octet, Continuation;
  }

  lemma MultiByteIsSpelled(s: string, b: nat)
    requires Octet(s, 0) == Some(b) && b >= 0x80 && MultiByte(s, b).Some?
    ensures Lowered(s[..MultiByte(s, b).value.width]) == Spelled(MultiByte(s, b).value.c, false)
  {
    hide *;
    MultiByteCases(s, b);
    var p := MultiByte(s, b).value;
    OctetIsEscape(s, 0);
    LoweredPieces(s, p.width);
    ContinuationIsEscape(s, 3);
    if p.width == 6 {
      SpelledOfTwo(b - 0xC0, Continuation(s, 3).value);
    } else if p.width == 9 {
      ContinuationIsEscape(s, 6);
      SpelledOfThree(b - 0xE0, Continuation(s, 3).value, Continuation(s, 6).value);
    } else {
      ContinuationIsEscape(s, 6);
      ContinuationIsEscape(s, 9);
      SpelledOfFour(b - 0xF0, Continuation(s, 3).value, Continuation(s, 6).value, Continuation(s, 9).value);
    }
  }

  /** And nothing else is read: a piece that decodes is a plain character, or spells its character in UTF-8. */
  lemma {:induction false} OnlySpellingsAreRead(s: string)
    requires s != "" && FirstPiece(s).Some?
    ensures var p := FirstPiece(s).value;
      if s[0] != '%' then p == Piece(1, s[0]) else Lowered(s[..p.width]) == Spelled(p.c, false)
  {
    if s[0] == '%' {
      var b := Octet(s, 0).value;
      OctetIsEscape(s, 0);
      hide Octet, Escaped;
      if b >= 0x80 { MultiByteIsSpelled(s, b); } else { assert s[..3] == s[0..3]; }
    }
  }

  // ── Normalization ─────────────────────────────────────────────────────────

  /** Everything before the first '?' or '#'. */
  function PathOnly(s: string): string {
    if s == "" || s[0] == '?' || s[0] == '#' then "" else [s[0]] + PathOnly(s[1..])
  }

  /** The decode loop, with `rounds` left. */
  function Rounds(rounds: nat, p: string): string {
    if rounds == 0 then p
    else match Decode(p, {})
      case None => p
      case Some(d) => if d == p then p else Rounds(rounds - 1, d)
  }

  function SlashOf(c: char): char { if c == '\\' then '/' else c }

  function Slashed(s: string): string { seq(|s|, i requires 0 <= i < |s| => SlashOf(s[i])) }

  function Collapsed(s: string): string {
    if s == "" then ""
    else if |s| > 1 && s[0] == '/' && s[1] == '/' then Collapsed(s[1..])
    else [s[0]] + Collapsed(s[1..])
  }

  function Trimmed(s: string): string {
    if s != "" && s[|s| - 1] == '/' then Trimmed(s[..|s| - 1]) else s
  }

  function Tidied(s: string): string { Trimmed(Lowered(Collapsed(Slashed(s)))) }

  function Normalized(pathname: string): string { Tidied(PathOnly(Rounds(3, PathOnly(pathname)))) }

  method NormalizeAgenticsPath(pathname: string) returns (normal: string)
    ensures normal == Normalized(pathname)
  {
    hide Decode;
    var p := PathOnly(pathname);
    var i := 0;
    while i < 3
      invariant 0 <= i <= 3 && Rounds(3 - i, p) == Rounds(3, PathOnly(pathname))
    {
      var decoded := Decode(p, {});
      if decoded.None? || decoded.value == p {
        assert Rounds(3 - i, p) == p;
        break;
      }
      p := decoded.value;
      i := i + 1;
    }
    assert p == Rounds(3, PathOnly(pathname));
    normal := Tidied(PathOnly(p));
  }

  const DOOR := "/dashboard/agentics"
  const VAULT_PREFIXES := [DOOR, "/api/agentics"]
  const PETRO_TINS_PREFIXES := ["/petro-tins", "/dashboard/petro-tins", "/api/petro-tins"]

  predicate Under(p: string, prefix: string) { p == prefix || prefix + "/" <= p }

  predicate UnderAny(p: string, prefixes: seq<string>) { exists prefix | prefix in prefixes :: Under(p, prefix) }

  predicate IsDoorPath(pathname: string) { Normalized(pathname) == DOOR }

  predicate IsVaultPath(pathname: string) {
    var p := Normalized(pathname);
    p != DOOR && UnderAny(p, VAULT_PREFIXES)
  }

  predicate IsPetroTinsPath(pathname: string) { UnderAny(Normalized(pathname), PETRO_TINS_PREFIXES) }

  /** The door's letter, the Vault and PetroTins share no path. */
  lemma ThreeKindsOfPath(pathname: string)
    ensures !(IsDoorPath(pathname) && IsVaultPath(pathname))
    ensures !(IsPetroTinsPath(pathname) && (IsVaultPath(pathname) || IsDoorPath(pathname)))
  {
    hide Normalized;
    var p := Normalized(pathname);
    if Under(p, "/petro-tins") { assert p[1] == 'p'; }
    if Under(p, "/dashboard/petro-tins") { assert p[1] == 'd' && p[11] == 'p'; }
    if Under(p, "/api/petro-tins") { assert p[1] == 'a' && p[5] == 'p'; }
    if Under(p, DOOR) { assert p[1] == 'd' && p[11] == 'a'; }
    if Under(p, "/api/agentics") { assert p[1] == 'a' && p[5] == 'a'; }
  }

  lemma UnderEach(p: string, prefixes: seq<string>)
    ensures |prefixes| == 2 ==> (UnderAny(p, prefixes) <==> Under(p, prefixes[0]) || Under(p, prefixes[1]))
    ensures |prefixes| == 3 ==>
      (UnderAny(p, prefixes) <==> Under(p, prefixes[0]) || Under(p, prefixes[1]) || Under(p, prefixes[2]))
  {
    hide Under;
    if |prefixes| > 2 { assert prefixes[2] in prefixes; }
    if |prefixes| > 1 { assert prefixes[0] in prefixes && prefixes[1] in prefixes; }
  }

  /** Which normal forms are the door, the Vault's and PetroTins'. */
  lemma KindsOfPathExactly(pathname: string)
    ensures var n := Normalized(pathname);
      && (IsDoorPath(pathname) <==> n == "/dashboard/agentics")
      && (IsVaultPath(pathname) <==>
        "/dashboard/agentics/" <= n || n == "/api/agentics" || "/api/agentics/" <= n)
      && (IsPetroTinsPath(pathname) <==>
        || n == "/petro-tins" || "/petro-tins/" <= n
        || n == "/dashboard/petro-tins" || "/dashboard/petro-tins/" <= n
        || n == "/api/petro-tins" || "/api/petro-tins/" <= n)
  {
    hide Normalized;
    UnderEach(Normalized(pathname), VAULT_PREFIXES);
    UnderEach(Normalized(pathname), PETRO_TINS_PREFIXES);
    hide UnderAny;
    var n := Normalized(pathname);
    assert VAULT_PREFIXES[0] == DOOR && VAULT_PREFIXES[1] == "/api/agentics";
    assert IsVaultPath(pathname) <==> n != DOOR && (Under(n, DOOR) || Under(n, "/api/agentics"));
    assert DOOR + "/" <= n ==> |n| > |DOOR|;
    assert n == "/api/agentics" ==> n[1] != DOOR[1];
    assert "/api/agentics/" <= n ==> n[1] == "/api/agentics/"[1] != DOOR[1];
    assert DOOR + "/" == "/dashboard/agentics/" && "/api/agentics" + "/" == "/api/agentics/";
    assert "/petro-tins" + "/" == "/petro-tins/" && "/dashboard/petro-tins" + "/" == "/dashboard/petro-tins/";
    assert "/api/petro-tins" + "/" == "/api/petro-tins/";
  }

  // ── Every spelling Astro routes ───────────────────────────────────────────

  /** Something other than slashes and backslashes. */
  predicate HasText(s: string) { exists i :: 0 <= i < |s| && s[i] != '/' && s[i] != '\\' }

  /** What the gate sees of a spelling: fully decoded, up to the first '?' or '#'. */
  function FullyDecoded(spelling: string): string { PathOnly(Rounds(3, PathOnly(spelling))) }

  predicate NoCut(s: string) { forall i :: 0 <= i < |s| ==> s[i] != '?' && s[i] != '#' }

  lemma {:induction false} PathOnlyOfConcat(a: string, b: string)
    requires NoCut(a)
    ensures PathOnly(a + b) == a + PathOnly(b)
  {
    if a == "" {
      assert a + b == b;
    } else {
      assert (a + b)[0] == a[0] && (a + b)[1..] == a[1..] + b;
      PathOnlyOfConcat(a[1..], b);
      assert [a[0]] + (a[1..] + PathOnly(b)) == a + PathOnly(b);
    }
  }

  lemma {:induction false} PathOnlyCuts(s: string)
    ensures PathOnly(s) <= s && NoCut(PathOnly(s))
    ensures NoCut(s) ==> PathOnly(s) == s
  {
    if s != "" { PathOnlyCuts(s[1..]); }
  }

  /** A cut that decoding does not show was never in the spelling. */
  lemma {:induction false} DecodedCutsShow(s: string)
    requires Decode(s, {}).Some? && NoCut(Decode(s, {}).value)
    ensures NoCut(s)
    decreases |s|
  {
    if s != "" {
      var p, d := FirstPiece(s).value, Decode(s, {}).value;
      var t := Decode(s[p.width..], {}).value;
      assert d == [p.c] + t;
      hide FirstPiece, Decode;
      assert d[0] == p.c;
      forall i | 0 <= i < |t| ensures t[i] != '?' && t[i] != '#' { assert d[i + 1] == t[i]; }
      DecodedCutsShow(s[p.width..]);
      forall i | 0 <= i < |s| ensures s[i] != '?' && s[i] != '#' {
        if i >= p.width { assert s[i] == s[p.width..][i - p.width]; }
        else if p.width > 1 { PieceHidesNoCut(s, i); }
      }
    }
  }

  /** Cutting a path that decodes leaves a path that decodes: no piece is cut in two. */
  lemma {:induction false} CutStillDecodes(s: string)
    requires Decode(s, {}).Some?
    ensures Decode(PathOnly(s), {}).Some?
    decreases |s|
  {
    if s != "" && s[0] != '?' && s[0] != '#' {
      var w := FirstPiece(s).value.width;
      assert Decode(s[w..], {}).Some?;
      hide Decode, FirstPiece;
      forall i | 0 <= i < |s[..w]| ensures s[..w][i] != '?' && s[..w][i] != '#' {
        if w > 1 { PieceHidesNoCut(s, i); }
      }
      assert s == s[..w] + s[w..];
      PathOnlyOfConcat(s[..w], s[w..]);
      CutStillDecodes(s[w..]);
      FirstPieceInFront(s, PathOnly(s[w..]));
    }
  }

  /** Decoded text in front stays as it is through every round. */
  lemma {:induction false} RoundsBehind(rounds: nat, pre: string, y: string)
    requires '%' !in pre
    ensures Rounds(rounds, pre + y) == pre + Rounds(rounds, y)
  {
    hide Decode;
    if rounds > 0 {
      NothingToDecode(pre, {});
      DecodeOfConcat(pre, y, {});
      if Decode(y, {}).Some? {
        var d := Decode(y, {}).value;
        assert pre + d == pre + y <==> d == y by { assert (pre + d)[|pre|..] == d && (pre + y)[|pre|..] == y; }
        if d != y { RoundsBehind(rounds - 1, pre, d); }
      }
    }
  }

  /** Once a round changes nothing, neither do the others. */
  lemma RoundsFromFixpoint(rounds: nat, p: string)
    requires rounds > 0 && Decode(p, {}).Some?
    ensures Rounds(rounds, p) == Rounds(rounds - 1, Decode(p, {}).value)
  {
  }

  lemma RoundsOfSpelling(s1: string, pre: string, y: string)
    requires Decode(s1, {}) == Some(pre) && '%' !in pre && Decode(y, {}).Some?
    ensures Rounds(3, s1 + y) == pre + Rounds(3, y)
  {
    hide Decode, Rounds;
    DecodeOfConcat(s1, y, {});
    RoundsFromFixpoint(3, s1 + y);
    RoundsFromFixpoint(3, y);
    RoundsBehind(2, pre, Decode(y, {}).value);
  }

  /** Where Astro's one round of decoding gives `pre` first, the gate sees `pre` and the rest fully decoded. */
  lemma SeenOfSpelling(pathname: string, pre: string, rest: string) returns (spelling: string)
    requires Decode(pathname, RESERVED) == Some(pre + rest) && '%' !in pre && NoCut(pre)
    ensures |spelling| <= |pathname| && pathname[|pathname| - |spelling|..] == spelling
    ensures Decode(spelling, RESERVED) == Some(rest)
    ensures FullyDecoded(pathname) == pre + FullyDecoded(spelling)
  {
    hide Decode, Rounds, PathOnly;
    var s1;
    s1, spelling := SplitSpelling(pathname, RESERVED, pre, rest);
    KeepingNeverThrows(spelling, RESERVED);
    CutStillDecodes(spelling);
    DecodedCutsShow(s1);
    PathOnlyOfConcat(s1, spelling);
    RoundsOfSpelling(s1, pre, PathOnly(spelling));
    PathOnlyOfConcat(pre, Rounds(3, PathOnly(spelling)));
  }

  // ── Tidying under a prefix ────────────────────────────────────────────────

  /** No two slashes in a row. */
  predicate Spaced(s: string) { forall i :: 0 <= i < |s| - 1 ==> !(s[i] == '/' && s[i + 1] == '/') }

  /** A path as the gate writes it: tidied already, from a slash to something that is not one. */
  predicate TidyPath(s: string) {
    && s != "" && s[0] == '/' && s[|s| - 1] != '/' && Spaced(s)
    && forall i :: 0 <= i < |s| ==> s[i] != '\\' && LowerOf(s[i]) == s[i]
  }

  lemma {:induction false} CollapsedOfConcat(a: string, b: string)
    requires a == "" || a[|a| - 1] != '/'
    ensures Collapsed(a + b) == Collapsed(a) + Collapsed(b)
  {
    if a == "" {
      assert a + b == b;
    } else {
      assert (a + b)[0] == a[0] && (a + b)[1..] == a[1..] + b;
      if |a| > 1 { assert (a + b)[1] == a[1]; }
      CollapsedOfConcat(a[1..], b);
      assert [a[0]] + (Collapsed(a[1..]) + Collapsed(b)) == ([a[0]] + Collapsed(a[1..])) + Collapsed(b);
    }
  }

  lemma {:induction false} CollapsedOfSpaced(s: string)
    requires Spaced(s)
    ensures Collapsed(s) == s
  {
    if s != "" {
      CollapsedOfSpaced(s[1..]);
      if |s| > 1 { assert !(s[0] == '/' && s[0 + 1] == '/'); }
    }
  }

  /** A slash before `r` collapses with the slashes `r` begins with, down to the first other character. */
  lemma {:induction false} CollapsedAfterSlash(r: string) returns (c: string)
    requires forall i :: 0 <= i < |r| ==> r[i] != '\\'
    ensures Collapsed("/" + r) == "/" + c && (c != "" <==> HasText(r)) && (c != "" ==> c[0] != '/')
  {
    var s := "/" + r;
    assert s[0] == '/' && s[1..] == r;
    if r != "" && r[0] == '/' {
      assert s[1] == '/' && r == "/" + r[1..];
      c := CollapsedAfterSlash(r[1..]);
      if HasText(r[1..]) {
        var i :| 0 <= i < |r[1..]| && r[1..][i] != '/' && r[1..][i] != '\\';
        assert r[i + 1] != '/';
      }
      if HasText(r) {
        var i :| 0 <= i < |r| && r[i] != '/' && r[i] != '\\';
        assert r[1..][i - 1] != '/' && r[1..][i - 1] != '\\';
      }
    } else {
      c := Collapsed(r);
      if r != "" { assert r[0] != '/' && c[0] == r[0]; }
    }
  }

  /** Trimming stops at a character that is not a slash. */
  lemma {:induction false} TrimmedBehind(a: string, b: string) returns (c: string)
    requires b != "" && b[0] != '/'
    ensures Trimmed(a + b) == a + c && c != "" && c <= b
  {
    if b[|b| - 1] == '/' {
      assert (a + b)[|a + b| - 1] == '/' && (a + b)[..|a + b| - 1] == a + b[..|b| - 1];
      assert b[..|b| - 1][0] == b[0];
      c := TrimmedBehind(a, b[..|b| - 1]);
    } else {
      c := b;
      assert (a + b)[|a + b| - 1] == b[|b| - 1];
    }
  }

  lemma CollapsedBehind(lead: string, body: string, tail: string)
    requires lead == "" || lead == "/"
    requires TidyPath(body)
    ensures Collapsed(lead + body + tail) == body + Collapsed(tail)
  {
    CollapsedOfSpaced(body);
    CollapsedOfConcat(body, tail);
    var s := lead + body + tail;
    if lead == "" {
      assert s == body + tail;
    } else {
      assert s[0] == '/' && s[1] == body[0] && s[1..] == body + tail;
    }
  }

  lemma SlashedBehind(lead: string, body: string, r: string)
    requires lead == "" || lead == "/"
    requires TidyPath(body)
    ensures Slashed(lead + body) == lead + body
    ensures Slashed(lead + body + "/" + r) == lead + body + ("/" + Slashed(r))
    ensures HasText(Slashed(r)) <==> HasText(r)
  {
    var s := lead + body + "/" + r;
    forall i | 0 <= i < |s| ensures Slashed(s)[i] == (lead + body + ("/" + Slashed(r)))[i] { }
    forall i | 0 <= i < |r| ensures SlashOf(r[i]) == Slashed(r)[i] { }
    if HasText(r) {
      var i :| 0 <= i < |r| && r[i] != '/' && r[i] != '\\';
      assert Slashed(r)[i] == r[i];
    }
  }

  lemma LoweredBehind(body: string, c: string)
    requires TidyPath(body)
    ensures Lowered(body) == body && Lowered(body + "/" + c) == body + "/" + Lowered(c)
    ensures c != "" && c[0] != '/' ==> Lowered(c)[0] != '/'
  {
  }

  /** Under a tidy path, tidying leaves the path alone exactly where nothing but slashes follows it. */
  lemma TidiedUnder(lead: string, body: string, r: string) returns (c: string)
    requires lead == "" || lead == "/"
    requires TidyPath(body)
    ensures Tidied(lead + body + "/" + r) == if HasText(r) then body + "/" + c else body
    ensures HasText(r) ==> c != ""
  {
    SlashedBehind(lead, body, r);
    assert forall i :: 0 <= i < |Slashed(r)| ==> Slashed(r)[i] != '\\';
    hide *;
    CollapsedBehind(lead, body, "/" + Slashed(r));
    var d := CollapsedAfterSlash(Slashed(r));
    assert body + ("/" + d) == body + "/" + d;
    LoweredBehind(body, d);
    c := TrimmedUnder(body, Lowered(d));
    assert Lowered(d) != "" <==> d != "" by { LoweredLength(d); }
    TidiedIs(lead + body + "/" + r);
  }

  lemma LoweredLength(s: string)
    ensures |Lowered(s)| == |s|
  {
  }

  lemma TidiedIs(s: string)
    ensures Tidied(s) == Trimmed(Lowered(Collapsed(Slashed(s))))
  {
  }

  lemma TrimmedUnder(body: string, d: string) returns (c: string)
    requires TidyPath(body) && (d != "" ==> d[0] != '/')
    ensures Trimmed(body + "/" + d) == if d != "" then body + "/" + c else body
    ensures d != "" ==> c != ""
  {
    c := "";
    if d != "" {
      c := TrimmedBehind(body + "/", d);
    } else {
      var s := body + "/" + d;
      assert s[|s| - 1] == '/' && s[..|s| - 1] == body;
    }
  }

  /** A tidy path is left alone, and so is the slash too many in front of it dropped. */
  lemma TidiedExact(lead: string, body: string)
    requires lead == "" || lead == "/"
    requires TidyPath(body)
    ensures Tidied(lead + body) == body
  {
    SlashedBehind(lead, body, "");
    assert lead + body + "" == lead + body;
    CollapsedBehind(lead, body, "");
    LoweredBehind(body, "");
    assert body + "" == body;
  }

  // ── What the gate covers ──────────────────────────────────────────────────

  lemma PrefixesAreTidy()
    ensures TidyPath(DOOR) && TidyPath("/api/agentics") && '%' !in "/api/agentics" && NoCut("/api/agentics")
  {
  }

  /**
   * A path Astro routes below /dashboard/agentics/, with or without a slash too many in front, is a Vault path
   * exactly when what follows, fully decoded, keeps a character that is no slash before any '?' or '#'; and it
   * passes as the door exactly when it does not.
   */
  lemma {:induction false} VaultPagesAreGated(pathname: string, lead: string, rest: string) returns (spelling: string)
    requires lead == "" || lead == "/"
    requires Decode(pathname, RESERVED) == Some(lead + DOOR + "/" + rest)
    ensures |spelling| <= |pathname| && pathname[|pathname| - |spelling|..] == spelling
    ensures Decode(spelling, RESERVED) == Some(rest)
    ensures IsVaultPath(pathname) <==> HasText(FullyDecoded(spelling))
    ensures IsDoorPath(pathname) <==> !HasText(FullyDecoded(spelling))
  {
    hide Decode, Rounds, PathOnly, FullyDecoded, HasText, Tidied, TidyPath;
    PrefixesAreTidy();
    var pre := lead + DOOR + "/";
    assert '%' !in pre && NoCut(pre);
    spelling := SeenOfSpelling(pathname, pre, rest);
    var c := TidiedUnder(lead, DOOR, FullyDecoded(spelling));
    NormalizedIs(pathname);
    if HasText(FullyDecoded(spelling)) {
      var n := Normalized(pathname);
      assert n == DOOR + "/" + c && |n| > |DOOR|;
      assert VAULT_PREFIXES[0] == DOOR && Under(n, DOOR);
    }
  }

  lemma NormalizedIs(pathname: string)
    ensures Normalized(pathname) == Tidied(FullyDecoded(pathname))
  {
  }

  /** A path Astro routes to a tidy path or below is normalized to it or below, however it is spelled. */
  lemma {:induction false} RoutedIsUnder(pathname: string, lead: string, body: string, tail: string)
    requires lead == "" || lead == "/"
    requires tail == "" || tail[0] == '/'
    requires TidyPath(body) && '%' !in body && NoCut(body)
    requires Decode(pathname, RESERVED) == Some(lead + body + tail)
    ensures Normalized(pathname) == body || body + "/" <= Normalized(pathname)
  {
    hide Decode, Rounds, PathOnly, FullyDecoded, Tidied, TidyPath;
    NormalizedIs(pathname);
    if tail == "" {
      assert lead + body + tail == (lead + body) + "";
      var spelling := SeenOfSpelling(pathname, lead + body, "");
      EmptySpelling(spelling);
      assert (lead + body) + "" == lead + body;
      TidiedExact(lead, body);
    } else {
      var pre := lead + body + "/";
      assert lead + body + tail == pre + tail[1..];
      var spelling := SeenOfSpelling(pathname, pre, tail[1..]);
      var c := TidiedUnder(lead, body, FullyDecoded(spelling));
    }
  }

  /** An /api/agentics path Astro routes, in any spelling, is a Vault path whatever follows. */
  lemma {:induction false} VaultApiIsGated(pathname: string, lead: string, tail: string)
    requires lead == "" || lead == "/"
    requires tail == "" || tail[0] == '/'
    requires Decode(pathname, RESERVED) == Some(lead + "/api/agentics" + tail)
    ensures IsVaultPath(pathname)
  {
    PrefixesAreTidy();
    KindsOfPathExactly(pathname);
    hide *;
    assert "/api/agentics" + "/" == "/api/agentics/";
    RoutedIsUnder(pathname, lead, "/api/agentics", tail);
  }

  /** Every path Astro routes to PetroTins or below, in any spelling, is a PetroTins path. */
  lemma {:induction false} PetroTinsIsGated(pathname: string, lead: string, body: string, tail: string)
    requires lead == "" || lead == "/"
    requires tail == "" || tail[0] == '/'
    requires body in {"/petro-tins", "/dashboard/petro-tins", "/api/petro-tins"}
    requires Decode(pathname, RESERVED) == Some(lead + body + tail)
    ensures IsPetroTinsPath(pathname)
  {
    PetroTinsPrefixesAreTidy(body);
    KindsOfPathExactly(pathname);
    hide *;
    assert "/petro-tins" + "/" == "/petro-tins/" && "/dashboard/petro-tins" + "/" == "/dashboard/petro-tins/";
    assert "/api/petro-tins" + "/" == "/api/petro-tins/";
    RoutedIsUnder(pathname, lead, body, tail);
  }

  lemma PetroTinsPrefixesAreTidy(body: string)
    requires body in {"/petro-tins", "/dashboard/petro-tins", "/api/petro-tins"}
    ensures TidyPath(body) && '%' !in body && NoCut(body)
  {
    if body == "/petro-tins" {
    } else if body == "/dashboard/petro-tins" {
      LongPrefixIsTidy();
    } else {
      ApiPrefixIsTidy();
    }
  }

  lemma LongPrefixIsTidy()
    ensures var body := "/dashboard/petro-tins"; TidyPath(body) && '%' !in body && NoCut(body)
  {
  }

  lemma ApiPrefixIsTidy()
    ensures var body := "/api/petro-tins"; TidyPath(body) && '%' !in body && NoCut(body)
  {
  }

  lemma EmptySpelling(spelling: string)
    requires Decode(spelling, RESERVED) == Some("")
    ensures FullyDecoded(spelling) == ""
  {
  }

  /** The exact door path is the door in every spelling Astro routes to it. */
  lemma {:induction false} DoorIsTheDoor(pathname: string, lead: string)
    requires lead == "" || lead == "/"
    requires Decode(pathname, RESERVED) == Some(lead + DOOR)
    ensures IsDoorPath(pathname)
  {
    hide Decode, Rounds, PathOnly, FullyDecoded, Tidied, TidyPath;
    PrefixesAreTidy();
    assert (lead + DOOR) + "" == lead + DOOR;
    var spelling := SeenOfSpelling(pathname, lead + DOOR, "");
    EmptySpelling(spelling);
    NormalizedIs(pathname);
    TidiedExact(lead, DOOR);
  }

  /**
   * Every spelling Astro routes to a Vault page whose address begins with a plain name is a Vault path, whatever
   * follows the name.
   */
  lemma {:induction false} EverySpellingOfAVaultPageIsGated(pathname: string, lead: string, name: string, tail: string)
    requires lead == "" || lead == "/"
    requires '%' !in name && NoCut(name) && HasText(name)
    requires Decode(pathname, RESERVED) == Some(lead + DOOR + "/" + name + tail)
    ensures IsVaultPath(pathname) && !IsDoorPath(pathname)
  {
    hide Decode, Rounds, PathOnly, FullyDecoded, Tidied, TidyPath;
    PrefixesAreTidy();
    var pre := lead + DOOR + "/" + name;
    var spelling := SeenOfSpelling(pathname, pre, tail);
    var r := name + FullyDecoded(spelling);
    TextInFront(name, FullyDecoded(spelling));
    assert pre + FullyDecoded(spelling) == lead + DOOR + "/" + r;
    var c := TidiedUnder(lead, DOOR, r);
    NormalizedIs(pathname);
    var n := Normalized(pathname);
    assert n == DOOR + "/" + c && |n| > |DOOR|;
    assert VAULT_PREFIXES[0] == DOOR && Under(n, DOOR);
  }

  lemma TextInFront(a: string, b: string)
    requires HasText(a)
    ensures HasText(a + b)
  {
    var i :| 0 <= i < |a| && a[i] != '/' && a[i] != '\\';
    assert (a + b)[i] == a[i];
  }

  lemma RoundsOfPlain(rounds: nat, p: string)
    requires Decode(p, {}) == Some(p)
    ensures Rounds(rounds, p) == p
  {
  }

  /**
   * "No spelling of a Vault path can pass as the door" would not hold of a page right below /dashboard/agentics/ whose
   * name begins with an escaped '?' or '#': Astro keeps the escape, and the gate takes the path for the door. There
   * is no such page today: the dynamic routes there are reports/[id] and tins/[id], both behind a plain name, so this
   * spelling routes nowhere.
   */
  lemma {:induction false} EscapedCutPassesAsTheDoor()
    ensures Decode(DOOR + "/" + "%3Fx", RESERVED) == Some(DOOR + "/" + "%3Fx")
    ensures IsDoorPath(DOOR + "/" + "%3Fx") && !IsVaultPath(DOOR + "/" + "%3Fx")
  {
    hide Decode, Rounds, PathOnly, Tidied, TidyPath;
    var pre, page := DOOR + "/", "%3Fx";
    NothingToDecode(pre, RESERVED);
    EscapedQuestionMark();
    DecodeOfConcat(pre, page, RESERVED);
    RoundsBehind(3, pre, page);
    RoundsFromFixpoint(3, page);
    NothingToDecode("?x", {});
    RoundsOfPlain(2, "?x");
    PathOnlyOfConcat(pre, "?x");
    assert PathOnly("?x") == "" by { NothingBeforeTheCut("?x"); }
    PathOnlyCuts(pre + page);
    PrefixesAreTidy();
    assert pre + "" == "" + DOOR + "/" + "";
    var c := TidiedUnder("", DOOR, "");
    NormalizedIs(pre + page);
  }

  lemma NothingBeforeTheCut(s: string)
    requires s != "" && (s[0] == '?' || s[0] == '#')
    ensures PathOnly(s) == ""
  {
  }

  lemma EscapedQuestionMark()
    ensures Decode("%3Fx", RESERVED) == Some("%3Fx") && Decode("%3Fx", {}) == Some("?x")
  {
    var s := "%3Fx";
    assert s[0] == '%' && s[1] == '3' && s[2] == 'F';
    assert Octet(s, 0) == Some(0x3F);
    assert FirstPiece(s) == Some(Piece(3, '?'));
    assert s[3..] == "x" && s[..3] == "%3F";
    NothingToDecode("x", RESERVED);
    NothingToDecode("x", {});
    assert "%3F" + "x" == s && ['?'] + "x" == "?x";
  }

  // ── Normalizing twice ─────────────────────────────────────────────────────

  lemma {:induction false} CollapsedShape(s: string)
    ensures |Collapsed(s)| <= |s| && Spaced(Collapsed(s))
    ensures s != "" ==> Collapsed(s) != "" && Collapsed(s)[0] == s[0]
    ensures forall c | c in Collapsed(s) :: c in s
  {
    if s != "" {
      CollapsedShape(s[1..]);
      if |s| > 1 && s[0] == '/' && s[1] == '/' {
        assert Collapsed(s) == Collapsed(s[1..]);
      } else {
        var t := Collapsed(s[1..]);
        assert Collapsed(s) == [s[0]] + t;
        forall i | 0 <= i < |Collapsed(s)| - 1 ensures !(Collapsed(s)[i] == '/' && Collapsed(s)[i + 1] == '/') {
          if i > 0 { assert !(t[i - 1] == '/' && t[i - 1 + 1] == '/'); }
        }
      }
    }
  }

  lemma {:induction false} TrimmedShape(s: string)
    ensures Trimmed(s) <= s && (Trimmed(s) != "" ==> Trimmed(s)[|Trimmed(s)| - 1] != '/')
  {
    if s != "" && s[|s| - 1] == '/' { TrimmedShape(s[..|s| - 1]); }
  }

  /** What a tidied path looks like; tidying it again changes nothing. */
  predicate Tidy(s: string) {
    && Spaced(s) && (s != "" ==> s[|s| - 1] != '/')
    && forall i :: 0 <= i < |s| ==> s[i] != '\\' && LowerOf(s[i]) == s[i]
  }

  lemma TidiedIsTidy(s: string)
    ensures Tidy(Tidied(s)) && |Tidied(s)| <= |s| && (NoCut(s) ==> NoCut(Tidied(s)))
  {
    var a := Slashed(s);
    var b := Collapsed(a);
    var c := Lowered(b);
    CollapsedShape(a);
    TrimmedShape(c);
    hide Collapsed, Trimmed;
    forall i | 0 <= i < |c| ensures c[i] != '\\' && LowerOf(c[i]) == c[i] && (NoCut(s) ==> c[i] != '?' && c[i] != '#') {
      assert c[i] == LowerOf(b[i]) && b[i] in b;
      assert b[i] in a;
      var j :| 0 <= j < |a| && a[j] == b[i];
      assert a[j] == SlashOf(s[j]);
    }
    forall i | 0 <= i < |c| - 1 ensures !(c[i] == '/' && c[i + 1] == '/') {
      assert !(b[i] == '/' && b[i + 1] == '/');
    }
  }

  lemma TidyStays(s: string)
    requires Tidy(s)
    ensures Tidied(s) == s
  {
    assert Slashed(s) == s;
    CollapsedOfSpaced(s);
    assert Lowered(s) == s;
  }

  /** A path without escapes, cuts, capitals, backslashes or slashes too many is its own normal form. */
  lemma {:induction false} PlainPathIsNormal(p: string)
    requires forall i | 0 <= i < |p| :: p[i] !in {'%', '?', '#', '\\'} && !('A' <= p[i] <= 'Z')
    requires forall i | 0 <= i < |p| - 1 :: !(p[i] == '/' && p[i + 1] == '/')
    requires p != "" ==> p[|p| - 1] != '/'
    ensures Normalized(p) == p
  {
    PathOnlyCuts(p);
    NothingToDecode(p, {});
    assert Rounds(3, p) == p by { hide Decode; }
    assert Tidy(p);
    hide Decode, Rounds, Tidied, Tidy, PathOnly;
    TidyStays(p);
  }

  /** Rounds never lengthen a path, and shorten it as soon as one of them changes it. */
  lemma {:induction false} RoundsShorten(rounds: nat, p: string)
    ensures |Rounds(rounds, p)| <= |p|
    ensures rounds > 0 && Decode(p, {}).Some? && Decode(p, {}).value != p ==> |Rounds(rounds, p)| < |p|
  {
    hide Decode;
    if rounds > 0 && Decode(p, {}).Some? && Decode(p, {}).value != p {
      DecodeShortens(p);
      RoundsShorten(rounds - 1, Decode(p, {}).value);
    }
  }

  /** Normalizing is idempotent on a path exactly when its normal form has nothing left to decode, or cannot be. */
  lemma {:induction false} NormalizingTwice(pathname: string)
    ensures var n := Normalized(pathname);
      Normalized(n) == n <==> Decode(n, {}).None? || Decode(n, {}) == Some(n)
  {
    hide Decode, Rounds, PathOnly, Tidied, Tidy, NoCut;
    var n := Normalized(pathname);
    PathOnlyCuts(Rounds(3, PathOnly(pathname)));
    TidiedIsTidy(PathOnly(Rounds(3, PathOnly(pathname))));
    PathOnlyCuts(n);
    assert PathOnly(n) == n;
    RoundsShorten(3, n);
    PathOnlyCuts(Rounds(3, n));
    TidiedIsTidy(PathOnly(Rounds(3, n)));
    if Decode(n, {}).None? || Decode(n, {}) == Some(n) {
      assert Rounds(3, n) == n by { RoundsEnd(3, n); }
      TidyStays(n);
    }
  }

  lemma RoundsEnd(rounds: nat, p: string)
    requires Decode(p, {}).None? || Decode(p, {}) == Some(p)
    ensures Rounds(rounds, p) == p
  {
  }

  /** So it is whenever the decode loop ended with nothing left to decode. */
  lemma {:induction false} FixpointIsNormal(pathname: string)
    requires var q := Rounds(3, PathOnly(pathname)); Decode(q, {}) == Some(q)
    ensures Normalized(Normalized(pathname)) == Normalized(pathname)
  {
    hide Decode, Rounds, PathOnly, Tidied;
    var q := Rounds(3, PathOnly(pathname));
    DecodeShortens(q);
    PathOnlyCuts(q);
    TidiedAddsNoEscape(PathOnly(q));
    NormalizingTwice(pathname);
    NothingToDecode(Normalized(pathname), {});
  }

  lemma TidiedAddsNoEscape(s: string)
    requires '%' !in s
    ensures '%' !in Tidied(s)
  {
    hide Collapsed, Trimmed;
    var a := Slashed(s);
    CollapsedShape(a);
    assert '%' !in a && '%' !in Collapsed(a);
    var c := Lowered(Collapsed(a));
    forall i | 0 <= i < |c| ensures c[i] != '%' { assert Collapsed(a)[i] != '%'; }
    TrimmedShape(c);
  }

  /** A fourth layer of escapes is left in the normal form, so normalizing it again gives another path. */
  lemma {:induction false} FourLayersAreNotIdempotent()
    ensures Normalized("/%25252541") == "/%41" && Normalized("/%41") == "/a"
  {
    hide Decode, Rounds, PathOnly, Tidied, NoCut;
    assert "/%25252541" == "/%" + ['2', '5'] + "252541" && "/%252541" == "/" + ['%'] + "252541";
    assert "/%252541" == "/%" + ['2', '5'] + "2541" && "/%2541" == "/" + ['%'] + "2541";
    assert "/%2541" == "/%" + ['2', '5'] + "41" && "/%41" == "/" + ['%'] + "41";
    assert "/%41" == "/%" + ['4', '1'] + "" && "/A" == "/" + ['A'] + "";
    Unescape('2', '5', '%', "252541");
    Unescape('2', '5', '%', "2541");
    Unescape('2', '5', '%', "41");
    Unescape('4', '1', 'A', "");
    NothingToDecode("/A", {});
    PathOnlyOfPlain("/%25252541");
    PathOnlyOfPlain("/%41");
    PathOnlyOfPlain("/A");
    RoundsFromFixpoint(3, "/%25252541");
    RoundsFromFixpoint(2, "/%252541");
    RoundsFromFixpoint(1, "/%2541");
    NoRounds("/%41");
    RoundsFromFixpoint(3, "/%41");
    RoundsEnd(2, "/A");
    TidyStays("/%41");
    TidiedLetter();
  }

  lemma NoRounds(p: string)
    ensures Rounds(0, p) == p
  {
  }

  lemma PathOnlyOfPlain(s: string)
    requires NoCut(s)
    ensures PathOnly(s) == s
  {
  }

  /** One ASCII character escaped after the first slash of a path, and no escape after it. */
  lemma Unescape(h: char, l: char, c: char, rest: string)
    requires HexValue(h).Some? && HexValue(l).Some? && c as int == 16 * HexValue(h).value + HexValue(l).value < 0x80
    requires '%' !in rest
    ensures Decode("/%" + [h, l] + rest, {}) == Some("/" + [c] + rest)
  {
    EscapeDecodes(h, l, c, rest);
    NothingToDecode("/", {});
    DecodeOfConcat("/", "%" + [h, l] + rest, {});
    hide *;
    assert "/" + ("%" + [h, l] + rest) == "/%" + [h, l] + rest;
    assert "/" + ([c] + rest) == "/" + [c] + rest;
  }

  lemma EscapeDecodes(h: char, l: char, c: char, rest: string)
    requires HexValue(h).Some? && HexValue(l).Some? && c as int == 16 * HexValue(h).value + HexValue(l).value < 0x80
    requires '%' !in rest
    ensures Decode("%" + [h, l] + rest, {}) == Some([c] + rest)
  {
    var t := "%" + [h, l] + rest;
    NothingToDecode(rest, {});
    assert t[0] == '%' && t[1] == h && t[2] == l && t[3..] == rest;
    assert Octet(t, 0) == Some(c as int);
    assert FirstPiece(t) == Some(Piece(3, c));
    hide FirstPiece;
  }

  lemma TidiedLetter()
    ensures Tidied("/A") == "/a"
  {
  }
}
