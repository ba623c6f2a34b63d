/**
 * Colour parsing for the closed-shape fill: `hexToRgba` turns a CSS hex
 * colour into red, green and blue channels plus an alpha.
 */
module Color {

  /** The characters `parseInt(_, 16)` reads as digits. */
  predicate IsHexDigit(c: char) {
    '0' <= c <= '9' || 'a' <= c <= 'f' || 'A' <= c <= 'F'
  }

  predicate IsHexDigits(s: string) {
    forall i :: 0 <= i < |s| ==> IsHexDigit(s[i])
  }

  function DigitValue(c: char): (v: nat)
    requires IsHexDigit(c)
    ensures v < 16
  {
    if '0' <= c <= '9' then c as int - '0' as int
    else if 'a' <= c <= 'f' then c as int - 'a' as int + 10
    else c as int - 'A' as int + 10
  }

  /** Position of the first '#' in `s`, or `|s|` when there is none. */
  function FirstHash(s: string): (i: nat)
    ensures i <= |s| && '#' !in s[..i] && (i < |s| ==> s[i] == '#')
  {
    if s == [] || s[0] == '#' then 0
    else
      var j := FirstHash(s[1..]);
      assert s[..j + 1] == [s[0]] + s[1..][..j];
      j + 1
  }

  /** `s.replace('#', '')`: a string pattern removes only the first '#'. */
  function StripHash(s: string): (r: string)
    ensures '#' !in s ==> r == s
    ensures '#' in s ==> |r| == |s| - 1
  {
    var i := FirstHash(s);
    if i == |s| then s else s[..i] + s[i + 1..]
  }

  /** The character removed is the first '#', and the others keep their order. */
  lemma StripHashRemovesFirstHash(s: string)
    requires '#' in s
    ensures exists i :: 0 <= i < |s| && s[i] == '#' && '#' !in s[..i] && StripHash(s) == s[..i] + s[i + 1..]
  {
    var i := FirstHash(s);
    assert s[..|s|] == s;
    assert s[i] == '#' && '#' !in s[..i] && StripHash(s) == s[..i] + s[i + 1..];
  }

  /** A colour written `#digits` reads as its digits, whatever they are. */
  lemma StripLeadingHash(d: string)
    ensures StripHash("#" + d) == d
  {
    assert ("#" + d)[1..] == d;
  }

  /**
   * Hex strings longer than this would make `parseInt` return a value above
   * 2^53, which a double no longer holds exactly.
   */
  const MAX_EXACT_DIGITS := 13

  /** A colour whose digits (after the first '#' is dropped) `parseInt` reads exactly. */
  type HexColor = s: string | IsHexDigits(StripHash(s)) && |StripHash(s)| <= MAX_EXACT_DIGITS
    witness "#000000"

  /** `split('').map((char) => char + char).join('')`: every character written twice. */
  function DoubleEach(s: string): (r: string)
    ensures |r| == 2 * |s|
    ensures forall i :: 0 <= i < |r| ==> r[i] == s[i / 2]
  {
    if s == [] then []
    else
      var rest := DoubleEach(s[1..]);
      var r := [s[0], s[0]] + rest;
      assert forall i :: 2 <= i < |r| ==> r[i] == rest[i - 2] && (i - 2) / 2 == i / 2 - 1;
      r
  }

  /** The 3-digit shorthand doubles every digit; any other length is kept. */
  function Expand(digits: string): (r: string)
    requires IsHexDigits(digits)
    ensures IsHexDigits(r)
    ensures |digits| == 3 ==> |r| == 6 && forall i :: 0 <= i < 6 ==> r[i] == digits[i / 2]
    ensures |digits| != 3 ==> r == digits
  {
    if |digits| == 3 then DoubleEach(digits) else digits
  }

  function Pow16(n: nat): (p: nat)
    ensures p >= 1
  {
    if n == 0 then 1 else 16 * Pow16(n - 1)
  }

  /** The number a string of hex digits denotes, most significant digit first. */
  function HexValue(s: string): (v: nat)
    requires IsHexDigits(s)
    ensures v < Pow16(|s|)
  {
    if s == [] then 0
    else HexValue(s[..|s| - 1]) * 16 + DigitValue(s[|s| - 1])
  }

  /** ECMAScript ToInt32, which `>>` and `&` apply to their operands. */
  function Int32(v: int): int {
    var m := v % 0x1_0000_0000;
    if m >= 0x8000_0000 then m - 0x1_0000_0000 else m
  }

  /** Bits 8k..8k+7 of the 32-bit value, as `(x >> 8k) & 255` computes them. */
  function ByteOf(x: int, k: nat): int
    requires k < 4
  {
    var shift := if k == 0 then 1 else if k == 1 then 0x100 else if k == 2 then 0x1_0000 else 0x100_0000;
    (Int32(x) / shift) % 256
  }

  datatype Rgba = Rgba(r: int, g: int, b: int, alpha: real)

  /**
   * `hexToRgba(hex, alpha)`: drop the first '#', expand a 3-digit shorthand,
   * read the digits in base 16 and take bytes 2, 1 and 0 of the value.
   */
  function HexToRgba(hex: HexColor, alpha: real): (c: Rgba)
    ensures 0 <= c.r <= 255 && 0 <= c.g <= 255 && 0 <= c.b <= 255 && c.alpha == alpha
    ensures var v := HexValue(Expand(StripHash(hex)));
      c.r == (v / 0x1_0000) % 256 && c.g == (v / 0x100) % 256 && c.b == v % 256
  {
    var v := HexValue(Expand(StripHash(hex)));
    ByteOfNat(v, 2);
    ByteOfNat(v, 1);
    ByteOfNat(v, 0);
    Rgba(ByteOf(v, 2), ByteOf(v, 1), ByteOf(v, 0), alpha)
  }

  lemma MulSign(k: int, d: int)
    requires d > 0
    decreases if k < 0 then -k else k
    ensures k >= 1 ==> k * d >= d
    ensures k <= -1 ==> k * d <= -d
  {
    if k > 1 {
      MulSign(k - 1, d);
      assert k * d == (k - 1) * d + d;
    } else if k < -1 {
      MulSign(k + 1, d);
      assert k * d == (k + 1) * d - d;
    }
  }

  /** Euclidean division is determined by its quotient-remainder equation. */
  lemma DivUnique(n: int, d: int, q: int, r: int)
    requires d > 0 && 0 <= r < d && n == q * d + r
    ensures n / d == q && n % d == r
  {
    var k := q - n / d;
    assert k * d == n % d - r;
    MulSign(k, d);
  }

  /** Subtracting a multiple of 2^32 before the shift does not change the byte. */
  lemma ByteOfNat(v: nat, k: nat)
    requires k < 4
    ensures ByteOf(v, k) == (v / (if k == 0 then 1 else if k == 1 then 0x100 else if k == 2 then 0x1_0000 else 0x100_0000)) % 256
  {
    var shift := if k == 0 then 1 else if k == 1 then 0x100 else if k == 2 then 0x1_0000 else 0x100_0000;
    var t := 0x1_0000_0000 / shift;
    assert t * shift == 0x1_0000_0000;
    var c := if v % 0x1_0000_0000 >= 0x8000_0000 then -(v / 0x1_0000_0000) - 1 else -(v / 0x1_0000_0000);
    assert Int32(v) == v + c * 0x1_0000_0000;
    var q, r := v / shift, v % shift;
    assert v == q * shift + r;
    assert Int32(v) == (q + c * t) * shift + r;
    DivUnique(Int32(v), shift, q + c * t, r);
    assert t % 256 == 0;
    var qq, rr := q / 256, q % 256;
    assert q + c * t == (qq + c * (t / 256)) * 256 + rr;
    DivUnique(q + c * t, 256, qq + c * (t / 256), rr);
  }

  /** In a 6-digit colour each channel is the byte spelled by its two digits. */
  lemma {:induction false} SixDigitChannels(hex: HexColor, alpha: real)
    requires |StripHash(hex)| == 6
    ensures var d := StripHash(hex); var c := HexToRgba(hex, alpha);
      c.r == 16 * DigitValue(d[0]) + DigitValue(d[1]) &&
      c.g == 16 * DigitValue(d[2]) + DigitValue(d[3]) &&
      c.b == 16 * DigitValue(d[4]) + DigitValue(d[5])
  {
    var d := StripHash(hex);
    SixDigitValue(d);
  }

  lemma SixDigitValue(d: string)
    requires IsHexDigits(d) && |d| == 6
    ensures var v := HexValue(d);
      (v / 0x1_0000) % 256 == 16 * DigitValue(d[0]) + DigitValue(d[1]) &&
      (v / 0x100) % 256 == 16 * DigitValue(d[2]) + DigitValue(d[3]) &&
      v % 256 == 16 * DigitValue(d[4]) + DigitValue(d[5])
  {
    var r := 16 * DigitValue(d[0]) + DigitValue(d[1]);
    var g := 16 * DigitValue(d[2]) + DigitValue(d[3]);
    var b := 16 * DigitValue(d[4]) + DigitValue(d[5]);
    assert d[..5][..4][..3][..2][..1][..0] == [];
    assert HexValue(d[..1]) == DigitValue(d[0]);
    assert HexValue(d[..2]) == r by { assert d[..2][..1] == d[..1]; }
    assert HexValue(d[..3]) == r * 16 + DigitValue(d[2]) by { assert d[..3][..2] == d[..2]; }
    assert HexValue(d[..4]) == r * 256 + g by { assert d[..4][..3] == d[..3]; }
    assert HexValue(d[..5]) == r * 4096 + g * 16 + DigitValue(d[4]) by { assert d[..5][..4] == d[..4]; }
    assert HexValue(d) == r * 0x1_0000 + g * 256 + b by { assert d[..5] == d[..|d| - 1]; }
    var v := HexValue(d);
    DivUnique(v, 0x1_0000, r, g * 256 + b);
    DivUnique(r, 256, 0, r);
    DivUnique(v, 0x100, r * 256 + g, b);
    DivUnique(r * 256 + g, 256, r, g);
    DivUnique(v, 256, r * 256 + g, b);
  }

  /** In the 3-digit shorthand each channel is its digit times 0x11. */
  lemma {:induction false} ShortChannels(hex: HexColor, alpha: real)
    requires |StripHash(hex)| == 3
    ensures var d := StripHash(hex); var c := HexToRgba(hex, alpha);
      c.r == 17 * DigitValue(d[0]) && c.g == 17 * DigitValue(d[1]) && c.b == 17 * DigitValue(d[2])
  {
    var d := StripHash(hex);
    SixDigitValue(Expand(d));
  }

  /** `#abc` and `#aabbcc` give the same colour: the shorthand is its doubled form. */
  lemma {:induction false} ShortFormEqualsLongForm(short: HexColor, long: HexColor, alpha: real)
    requires |StripHash(short)| == 3 && |StripHash(long)| == 6
    requires var s, l := StripHash(short), StripHash(long);
      l == [s[0], s[0], s[1], s[1], s[2], s[2]]
    ensures HexToRgba(short, alpha) == HexToRgba(long, alpha)
  {
    var s, l := StripHash(short), StripHash(long);
    assert Expand(s) == l by {
      forall i | 0 <= i < 6 ensures Expand(s)[i] == l[i] {
        assert l[i] == s[i / 2];
      }
    }
  }
}
