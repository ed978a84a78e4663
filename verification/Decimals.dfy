/** The exact decimal arithmetic of addressHistory.ts: parse, add and print scaled integers. */
module Decimals {
  import opened Ordering

  // ── Digits ────────────────────────────────────────────────────────────────

  predicate IsDigit(c: char) { '0' <= c <= '9' }

  predicate AllDigits(s: string) { forall c | c in s :: IsDigit(c) }

  function DigitChar(d: nat): char
    requires d < 10
  {
    ('0' as int + d) as char
  }

  /** BigInt(s) of a string of digits. */
  function NatOf(s: string): nat
    requires AllDigits(s)
  {
    if s == "" then 0
    else
      assert s[|s| - 1] in s;
      10 * NatOf(s[..|s| - 1]) + DigitValue(s[|s| - 1])
  }

  function DigitValue(c: char): (d: nat)
    requires IsDigit(c)
    ensures d < 10 && DigitChar(d) == c
  {
    c as int - '0' as int
  }

  lemma {:induction false} LastDigit(front: string, c: char)
    requires AllDigits(front) && IsDigit(c)
    ensures AllDigits(front + [c]) && NatOf(front + [c]) == 10 * NatOf(front) + DigitValue(c)
    ensures NatOf(front + [c]) / 10 == NatOf(front) && NatOf(front + [c]) % 10 == DigitValue(c)
  {
  }

  /** n.toString(). */
  function TextOf(n: nat): (s: string)
    ensures s != "" && AllDigits(s)
  {
    (if n < 10 then "" else TextOf(n / 10)) + [DigitChar(n % 10)]
  }

  function Zeros(k: nat): (s: string)
    ensures |s| == k && forall c | c in s :: c == '0'
  {
    if k == 0 then "" else "0" + Zeros(k - 1)
  }

  function PadStart(s: string, w: nat): string { if |s| >= w then s else Zeros(w - |s|) + s }

  function Power10(k: nat): (p: nat)
    ensures p > 0
  {
    if k == 0 then 1 else 10 * Power10(k - 1)
  }

  lemma {:induction false} TextOfReads(n: nat)
    ensures NatOf(TextOf(n)) == n
  {
    if n >= 10 { TextOfReads(n / 10); }
    assert TextOf(n)[..|TextOf(n)| - 1] == if n < 10 then "" else TextOf(n / 10);
  }

  lemma {:induction false} LeadingZerosRead(k: nat, s: string)
    requires AllDigits(s)
    ensures AllDigits(Zeros(k) + s) && NatOf(Zeros(k) + s) == NatOf(s)
  {
    if s != "" {
      LeadingZerosRead(k, s[..|s| - 1]);
      assert (Zeros(k) + s)[..|Zeros(k) + s| - 1] == Zeros(k) + s[..|s| - 1];
    } else if k > 0 {
      LeadingZerosRead(k - 1, "");
      ZerosEnd(k);
      assert Zeros(k) + s == Zeros(k) && Zeros(k - 1) + "" == Zeros(k - 1);
    }
  }

  lemma {:induction false} ZerosEnd(k: nat)
    requires k > 0
    ensures Zeros(k)[..k - 1] == Zeros(k - 1) && Zeros(k)[k - 1] == '0'
  {
    if k > 1 { ZerosEnd(k - 1); }
  }

  // ── Scaled integers ───────────────────────────────────────────────────────

  /** A non-negative decimal as digits and a scale: 12.50 is units 1250 at scale 2. */
  datatype Scaled = Scaled(units: nat, scale: nat)

  const ZERO := Scaled(0, 0)

  /** The number a scaled integer denotes. */
  function Value(x: Scaled): real { x.units as real / Power10(x.scale) as real }

  function Max(a: nat, b: nat): nat { if a > b then a else b }

  function AddScaled(a: Scaled, b: Scaled): Scaled {
    var scale := Max(a.scale, b.scale);
    Scaled(a.units * Power10(scale - a.scale) + b.units * Power10(scale - b.scale), scale)
  }

  lemma {:induction false} Power10Adds(j: nat, k: nat)
    ensures Power10(j + k) == Power10(j) * Power10(k)
  {
    if j > 0 { Power10Adds(j - 1, k); }
  }

  lemma {:induction false} ScaledUpValue(units: nat, scale: nat, up: nat)
    ensures Value(Scaled(units * Power10(up), scale + up)) == Value(Scaled(units, scale))
  {
    Power10Adds(scale, up);
    hide Power10;
    IntegerProduct(units, Power10(up));
    IntegerProduct(Power10(scale), Power10(up));
    FractionCancels(units as real, Power10(scale) as real, Power10(up) as real);
  }

  lemma IntegerProduct(a: nat, b: nat)
    ensures (a * b) as real == a as real * b as real
  {
  }

  lemma FractionCancels(a: real, b: real, c: real)
    requires b != 0.0 && c != 0.0
    ensures b * c != 0.0 && (a * c) / (b * c) == a / b
  {
  }

  /** Adding scaled integers is adding the numbers they denote. */
  lemma {:induction false} AddIsExact(a: Scaled, b: Scaled)
    ensures Value(AddScaled(a, b)) == Value(a) + Value(b)
  {
    var scale := Max(a.scale, b.scale);
    ScaledUpValue(a.units, a.scale, scale - a.scale);
    ScaledUpValue(b.units, b.scale, scale - b.scale);
    FractionsAdd(a.units * Power10(scale - a.scale), b.units * Power10(scale - b.scale), Power10(scale));
  }

  lemma FractionsAdd(a: nat, b: nat, p: nat)
    requires p > 0
    ensures (a + b) as real / p as real == a as real / p as real + b as real / p as real
  {
  }

  // ── Printing ──────────────────────────────────────────────────────────────

  /** s.replace(/0+$/, ''). */
  function StripZeros(s: string): string {
    if s != "" && s[|s| - 1] == '0' then StripZeros(s[..|s| - 1]) else s
  }

  function FormatScaled(x: Scaled): string {
    if x.scale == 0 then TextOf(x.units) else PointInto(PadStart(TextOf(x.units), x.scale + 1), x.scale)
  }

  /** The digits with the point before the last `scale` of them and without the zeros that end the fraction. */
  function PointInto(digits: string, scale: nat): string
    requires |digits| >= scale
  {
    var whole := digits[..|digits| - scale];
    var fraction := StripZeros(digits[|digits| - scale..]);
    if fraction != "" then whole + "." + fraction else whole
  }

  // ── Reading ───────────────────────────────────────────────────────────────

  /** The white space and line ends that trim() removes. */
  predicate IsSpace(c: char) {
    c in {'\t', '\n', '\U{000B}', '\U{000C}', '\r', ' ', '\U{00A0}', '\U{1680}', '\U{2028}', '\U{2029}', '\U{202F}',
      '\U{205F}', '\U{3000}', '\U{FEFF}'} || '\U{2000}' <= c <= '\U{200A}'
  }

  function TrimStart(s: string): string { if s != "" && IsSpace(s[0]) then TrimStart(s[1..]) else s }

  function TrimEnd(s: string): string { if s != "" && IsSpace(s[|s| - 1]) then TrimEnd(s[..|s| - 1]) else s }

  function Trim(s: string): string { TrimEnd(TrimStart(s)) }

  /** Trimming takes the white space off both ends, and no more. */
  lemma {:induction false} TrimTakesTheEnds(s: string)
    ensures exists i, j | 0 <= i <= j <= |s| && Trim(s) == s[i..j] ::
      && (i < j ==> !IsSpace(s[i]) && !IsSpace(s[j - 1]))
      && forall k | 0 <= k < |s| && !(i <= k < j) :: IsSpace(s[k])
  {
    hide IsSpace;
    var i := TrimmedStart(s);
    var n := TrimmedEnd(s[i..]);
    assert s[i..][..n] == s[i..i + n];
  }

  lemma {:induction false} TrimmedStart(s: string) returns (i: nat)
    ensures i <= |s| && TrimStart(s) == s[i..]
    ensures (i < |s| ==> !IsSpace(s[i])) && forall k | 0 <= k < i :: IsSpace(s[k])
  {
    hide IsSpace;
    i := 0;
    if s != "" && IsSpace(s[0]) {
      i := TrimmedStart(s[1..]);
      i := i + 1;
    }
  }

  lemma {:induction false} TrimmedEnd(s: string) returns (n: nat)
    ensures n <= |s| && TrimEnd(s) == s[..n]
    ensures (n > 0 ==> !IsSpace(s[n - 1])) && forall k | n <= k < |s| :: IsSpace(s[k])
  {
    hide IsSpace;
    n := |s|;
    if s != "" && IsSpace(s[|s| - 1]) { n := TrimmedEnd(s[..|s| - 1]); }
  }

  /** How many digits `s` begins with. */
  function DigitRun(s: string): (n: nat)
    ensures n <= |s| && AllDigits(s[..n]) && (n < |s| ==> !IsDigit(s[n]))
  {
    if s != "" && IsDigit(s[0]) then
      var n := DigitRun(s[1..]);
      assert s[..n + 1] == [s[0]] + s[1..][..n];
      n + 1
    else 0
  }

  /** /^(\d+)(?:\.(\d+))?$/ on the trimmed text: the digits before and after the point. */
  function Groups(s: string): (g: Option<(string, string)>)
    ensures g.Some? ==> AllDigits(g.value.0) && AllDigits(g.value.1)
  {
    var n := DigitRun(s);
    if n == 0 then None
    else if n == |s| then Some((s[..n], ""))
    else if s[n] == '.' && |s| > n + 1 && AllDigits(s[n + 1..]) then Some((s[..n], s[n + 1..]))
    else None
  }

  function ParseDecimal(s: string): Option<Scaled> {
    var g := Groups(Trim(s));
    if g.None? then None else Some(Scaled(NatOf(g.value.0 + g.value.1), |g.value.1|))
  }

  function Pointed(whole: string, frac: string): string { if frac == "" then whole else whole + "." + frac }

  lemma {:induction false} DigitRunStops(digits: string, rest: string)
    requires AllDigits(digits) && (rest == "" || !IsDigit(rest[0]))
    ensures DigitRun(digits + rest) == |digits|
  {
    if digits == "" {
      assert digits + rest == rest;
    } else {
      assert digits[0] in digits && (digits + rest)[1..] == digits[1..] + rest;
      DigitRunStops(digits[1..], rest);
    }
  }

  lemma {:induction false} GroupsMatch(whole: string, frac: string)
    requires whole != "" && AllDigits(whole) && AllDigits(frac)
    ensures Groups(Pointed(whole, frac)) == Some((whole, frac))
  {
    var s, rest := Pointed(whole, frac), if frac == "" then "" else "." + frac;
    assert s == whole + rest;
    DigitRunStops(whole, rest);
    assert s[..|whole|] == whole;
    assert frac != "" ==> s[|whole| + 1..] == frac;
  }

  /** The accepted texts are exactly digits, or digits, a point and digits, once trimmed. */
  lemma {:induction false} ParseAcceptsExactly(s: string)
    ensures ParseDecimal(s).Some? <==> exists whole, frac ::
      && whole != "" && AllDigits(whole) && AllDigits(frac) && Trim(s) == Pointed(whole, frac)
  {
    var t := Trim(s);
    var g := Groups(t);
    if g.Some? {
      assert t == Pointed(g.value.0, g.value.1);
    }
    forall whole, frac | whole != "" && AllDigits(whole) && AllDigits(frac) && t == Pointed(whole, frac)
      ensures g.Some?
    {
      GroupsMatch(whole, frac);
    }
  }

  // ── The normal form ───────────────────────────────────────────────────────

  predicate Normal(x: Scaled) { x.scale == 0 || x.units % 10 != 0 }

  function Normalize(x: Scaled): (n: Scaled)
    ensures Normal(n)
    decreases x.scale
  {
    if Normal(x) then x else Normalize(Scaled(x.units / 10, x.scale - 1))
  }

  lemma {:induction false} NormalizeKeepsValue(x: Scaled)
    ensures Value(Normalize(x)) == Value(x)
    decreases x.scale
  {
    if !Normal(x) {
      NormalizeKeepsValue(Scaled(x.units / 10, x.scale - 1));
      ScaledUpValue(x.units / 10, x.scale - 1, 1);
      assert Power10(1) == 10 && x.units / 10 * 10 == x.units;
    }
  }

  lemma CrossMultiply(a: nat, b: nat, p: nat, q: nat)
    requires p > 0 && q > 0 && a as real / p as real == b as real / q as real
    ensures a * q == b * p
  {
  }

  lemma CancelFactor(a: nat, b: nat, c: nat)
    requires c > 0 && a * c == b * c
    ensures a == b
  {
  }

  /** A number has one normal form. */
  lemma {:induction false} NormalFormIsUnique(x: Scaled, y: Scaled)
    requires Normal(x) && Normal(y) && Value(x) == Value(y) && x.scale >= y.scale
    ensures x == y
  {
    CrossMultiply(x.units, y.units, Power10(x.scale), Power10(y.scale));
    var k := x.scale - y.scale;
    Power10Adds(k, y.scale);
    var shifted := y.units * Power10(k);
    assert x.units * Power10(y.scale) == shifted * Power10(y.scale);
    CancelFactor(x.units, shifted, Power10(y.scale));
    EndsInZero(y.units, k);
  }

  lemma EndsInZero(a: nat, k: nat)
    ensures k > 0 ==> (a * Power10(k)) % 10 == 0
  {
    if k > 0 {
      var tens := a * Power10(k - 1);
      assert a * Power10(k) == 10 * tens;
    }
  }

  lemma {:induction false} SameValueSameNormalForm(x: Scaled, y: Scaled)
    ensures Value(x) == Value(y) <==> Normalize(x) == Normalize(y)
  {
    NormalizeKeepsValue(x);
    NormalizeKeepsValue(y);
    if Value(x) == Value(y) {
      if Normalize(x).scale >= Normalize(y).scale {
        NormalFormIsUnique(Normalize(x), Normalize(y));
      } else {
        NormalFormIsUnique(Normalize(y), Normalize(x));
      }
    }
  }

  // ── Printing is canonical ─────────────────────────────────────────────────

  lemma {:induction false} StripIsNormalize(whole: string, frac: string)
    requires AllDigits(whole) && AllDigits(frac)
    ensures AllDigits(StripZeros(frac))
    ensures Normalize(Scaled(NatOf(whole + frac), |frac|)) ==
      Scaled(NatOf(whole + StripZeros(frac)), |StripZeros(frac)|)
    decreases |frac|
  {
    if frac != "" {
      var front, c := frac[..|frac| - 1], frac[|frac| - 1];
      assert c in frac && whole + frac == (whole + front) + [c];
      LastDigit(whole + front, c);
      StripIsNormalize(whole, front);
    }
  }

  lemma {:induction false} PaddedDigits(units: nat, w: nat)
    ensures var digits := PadStart(TextOf(units), w); |digits| >= w && AllDigits(digits) && NatOf(digits) == units
  {
    hide NatOf, TextOf, Zeros;
    TextOfReads(units);
    if |TextOf(units)| < w { LeadingZerosRead(w - |TextOf(units)|, TextOf(units)); }
  }

  /** The digits before and after the point of a printed value. */
  lemma {:induction false} FormatParts(x: Scaled) returns (whole: string, frac: string)
    ensures whole != "" && AllDigits(whole) && AllDigits(frac)
    ensures FormatScaled(x) == Pointed(whole, frac)
    ensures Scaled(NatOf(whole + frac), |frac|) == Normalize(x)
  {
    hide TextOf, PadStart, StripZeros, Normalize;
    PaddedDigits(x.units, x.scale + 1);
    var digits := if x.scale == 0 then TextOf(x.units) else PadStart(TextOf(x.units), x.scale + 1);
    TextOfReads(x.units);
    whole := digits[..|digits| - x.scale];
    var full := digits[|digits| - x.scale..];
    assert whole + full == digits;
    StripIsNormalize(whole, full);
    frac := StripZeros(full);
    if x.scale == 0 { StripNothing(full); }
  }

  lemma StripNothing(s: string)
    requires s == ""
    ensures StripZeros(s) == ""
  {
  }

  lemma {:induction false} TrimKeepsDigits(whole: string, frac: string)
    requires whole != "" && AllDigits(whole) && AllDigits(frac)
    ensures Trim(Pointed(whole, frac)) == Pointed(whole, frac)
  {
    var s := Pointed(whole, frac);
    assert s[0] == whole[0] && whole[0] in whole;
    if frac == "" {
      assert s[|s| - 1] == whole[|whole| - 1] && whole[|whole| - 1] in whole;
    } else {
      assert s[|s| - 1] == frac[|frac| - 1] && frac[|frac| - 1] in frac;
    }
  }

  /** What is printed reads back as the normal form of the value. */
  lemma {:induction false} ParseOfFormat(x: Scaled)
    ensures ParseDecimal(FormatScaled(x)) == Some(Normalize(x))
  {
    var whole, frac := FormatParts(x);
    TrimKeepsDigits(whole, frac);
    GroupsMatch(whole, frac);
  }

  lemma {:induction false} FormatOfNormalForm(x: Scaled)
    ensures FormatScaled(Normalize(x)) == FormatScaled(x)
    decreases x.scale
  {
    hide FormatScaled;
    if !Normal(x) {
      var y := Scaled(x.units / 10, x.scale - 1);
      FormatOfNormalForm(y);
      DropOneZero(x.units / 10, x.scale - 1);
      assert x == Scaled(10 * (x.units / 10), x.scale - 1 + 1);
    }
  }

  lemma {:induction false} PaddedTimesTen(units: nat, w: nat)
    requires w > 0
    ensures PadStart(TextOf(10 * units), w + 1) == PadStart(TextOf(units), w) + "0"
  {
    if units == 0 {
      assert TextOf(0) == "0";
      ZerosEnd(w);
      hide TextOf;
      assert Zeros(w) == Zeros(w - 1) + "0";
    } else {
      assert 10 * units / 10 == units && 10 * units % 10 == 0;
      assert TextOf(10 * units) == TextOf(units) + "0";
      hide TextOf, Zeros;
    }
  }

  lemma {:induction false} DropOneZero(units: nat, scale: nat)
    ensures FormatScaled(Scaled(10 * units, scale + 1)) == FormatScaled(Scaled(units, scale))
  {
    hide TextOf, PointInto;
    PaddedTimesTen(units, scale + 1);
    DropZeroDigit(PadStart(TextOf(units), scale + 1), scale);
  }

  lemma {:induction false} DropZeroDigit(digits: string, scale: nat)
    requires |digits| > scale
    ensures PointInto(digits + "0", scale + 1) == PointInto(digits, scale)
    ensures PointInto(digits, 0) == digits
  {
    var long := digits + "0";
    var full := long[|long| - (scale + 1)..];
    assert long[..|long| - (scale + 1)] == digits[..|digits| - scale];
    assert full[|full| - 1] == '0' && full[..|full| - 1] == digits[|digits| - scale..];
    assert digits[..|digits|] == digits && digits[|digits|..] == "";
  }

  /** formatScaled is a canonical printer: equal texts are exactly equal numbers. */
  lemma {:induction false} FormatIsCanonical(x: Scaled, y: Scaled)
    ensures FormatScaled(x) == FormatScaled(y) <==> Value(x) == Value(y)
  {
    ParseOfFormat(x);
    ParseOfFormat(y);
    FormatOfNormalForm(x);
    FormatOfNormalForm(y);
    SameValueSameNormalForm(x, y);
  }

  /** Reading back what was printed gives the number, and print after parse is idempotent on every accepted text. */
  lemma {:induction false} RoundTrip(s: string)
    requires ParseDecimal(s).Some?
    ensures var t := FormatScaled(ParseDecimal(s).value);
      && ParseDecimal(t).Some? && Value(ParseDecimal(t).value) == Value(ParseDecimal(s).value)
      && FormatScaled(ParseDecimal(t).value) == t
  {
    var x := ParseDecimal(s).value;
    ParseOfFormat(x);
    NormalizeKeepsValue(x);
    FormatOfNormalForm(x);
  }
}
