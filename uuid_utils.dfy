/**
 * `generateUUID`: walk the version-4 template
 * `xxxxxxxx-xxxx-4xxx-yxxx-xxxxxxxxxxxx` (section 4.4 of RFC 4122) and replace
 * each `x` by a random hex digit and the `y` by a digit whose top two bits are
 * `10` (the variant of section 4.1.1 of RFC 4122). The clock and
 * `Math.random` are abstracted into the nibbles the replacement callback
 * draws, one per placeholder, left to right.
 */
module UuidUtils {

  type Nibble = n: int | 0 <= n < 16

  const Template := "xxxxxxxx-xxxx-4xxx-yxxx-xxxxxxxxxxxx"

  /** One nibble per placeholder of the template. */
  const NibbleCount := 31

  predicate IsHexDigit(c: char) { '0' <= c <= '9' || 'a' <= c <= 'f' }

  /** `n.toString(16)` for a value below 16. */
  function HexDigit(n: Nibble): (c: char)
    ensures IsHexDigit(c) && HexValue(c) == n
  {
    if n < 10 then ('0' as int + n) as char else ('a' as int + n - 10) as char
  }

  function HexValue(c: char): Nibble
    requires IsHexDigit(c)
  {
    if c <= '9' then c as int - '0' as int else c as int - 'a' as int + 10
  }

  /** `r & 0x3 | 0x8`: keep the two low bits, set the top two to `10`. */
  function VariantNibble(r: Nibble): (v: Nibble)
    ensures 8 <= v <= 11 && v % 4 == r % 4
  {
    (((r as bv8) & 0x3) | 0x8) as int
  }

  predicate IsPlaceholder(c: char) { c == 'x' || c == 'y' }

  /** The replacement callback for placeholder `c` given the drawn nibble `r`. */
  function Replacement(c: char, r: Nibble): (d: char)
    requires IsPlaceholder(c)
    ensures IsHexDigit(d)
    ensures c == 'x' ==> HexValue(d) == r
    ensures c == 'y' ==> 8 <= HexValue(d) <= 11 && HexValue(d) % 4 == r % 4
  {
    if c == 'x' then HexDigit(r) else HexDigit(VariantNibble(r))
  }

  /** The nibble count drawn before position `i` of the template. */
  function DrawnBefore(i: nat): (k: nat)
    requires i <= 36
    ensures k <= i && k <= NibbleCount
  {
    if i <= 8 then i
    else if i <= 13 then i - 1
    else if i <= 15 then 12
    else if i <= 18 then i - 3
    else if i <= 23 then i - 4
    else i - 5
  }

  function TemplateChar(i: int): char
  {
    if i == 8 || i == 13 || i == 18 || i == 23 then '-'
    else if i == 14 then '4'
    else if i == 19 then 'y'
    else 'x'
  }

  lemma TemplateAt(i: int)
    requires 0 <= i < 36
    ensures |Template| == 36 && Template[i] == TemplateChar(i)
  {
  }

  /**
   * The template walk: each placeholder is replaced by the callback applied
   * to the next nibble, every other character is copied.
   */
  method GenerateUuid(nibbles: seq<Nibble>) returns (uuid: string)
    requires |nibbles| == NibbleCount
    ensures uuid == Layout(nibbles)
  {
    uuid := "";
    var i, k := 0, 0;
    while i < |Template|
      invariant 0 <= i <= |Template| == 36
      invariant k == DrawnBefore(i)
      invariant uuid == Layout(nibbles)[..i]
    {
      TemplateAt(i);
      LayoutAt(nibbles, i);
      var c := Template[i];
      if c == 'x' || c == 'y' {
        var r := nibbles[k];
        uuid := uuid + [Replacement(c, r)];
        k := k + 1;
      } else {
        uuid := uuid + [c];
      }
      i := i + 1;
    }
  }

  // ---------------------------------------------------------------- the layout

  /** Each nibble as a lower-case hex digit. */
  function Hex(ns: seq<Nibble>): (r: string)
    ensures |r| == |ns|
  {
    seq(|ns|, i requires 0 <= i < |ns| => HexDigit(ns[i]))
  }

  /** The uuid as groups: 8 digits, 4, '4' and 3, the variant digit and 3, then 12. */
  function Layout(nibbles: seq<Nibble>): (u: string)
    requires |nibbles| == NibbleCount
    ensures |u| == 36
  {
    Hex(nibbles[..8]) + "-" + Hex(nibbles[8..12]) + "-4" + Hex(nibbles[12..15]) + "-" +
    [HexDigit(VariantNibble(nibbles[15]))] + Hex(nibbles[16..19]) + "-" + Hex(nibbles[19..])
  }

  /** Position `i` of the layout is what the template walk writes there. */
  lemma LayoutAt(nibbles: seq<Nibble>, i: int)
    requires |nibbles| == NibbleCount && 0 <= i < 36
    ensures Layout(nibbles)[i] ==
      if IsPlaceholder(TemplateChar(i)) then Replacement(TemplateChar(i), nibbles[DrawnBefore(i)])
      else TemplateChar(i)
  {
    var u := Layout(nibbles);
    if i < 8 {
      assert u[i] == Hex(nibbles[..8])[i];
    } else if i == 8 {
    } else if i < 13 {
      assert u[i] == Hex(nibbles[8..12])[i - 9];
    } else if i < 15 {
    } else if i < 18 {
      assert u[i] == Hex(nibbles[12..15])[i - 15];
    } else if i < 20 {
    } else if i < 23 {
      assert u[i] == Hex(nibbles[16..19])[i - 20];
    } else if i == 23 {
    } else {
      assert u[i] == Hex(nibbles[19..])[i - 24];
    }
  }

  // ---------------------------------------------------------------- properties of the result

  predicate IsDigitPosition(i: int)
  {
    0 <= i < 36 && i != 8 && i != 13 && i != 14 && i != 18 && i != 23
  }

  /**
   * The shape of every generated id: 36 characters, dashes at 8, 13, 18 and 23,
   * the version digit '4' at 14, the variant digit '8', '9', 'a' or 'b' at 19,
   * and a lower-case hex digit everywhere else.
   */
  lemma {:induction false} LayoutShape(nibbles: seq<Nibble>)
    requires |nibbles| == NibbleCount
    ensures var u := Layout(nibbles);
      |u| == 36 &&
      u[8] == '-' && u[13] == '-' && u[18] == '-' && u[23] == '-' &&
      u[14] == '4' &&
      (u[19] == '8' || u[19] == '9' || u[19] == 'a' || u[19] == 'b') &&
      forall i | IsDigitPosition(i) :: IsHexDigit(u[i])
  {
    var u := Layout(nibbles);
    LayoutAt(nibbles, 8);
    LayoutAt(nibbles, 13);
    LayoutAt(nibbles, 14);
    LayoutAt(nibbles, 18);
    LayoutAt(nibbles, 19);
    LayoutAt(nibbles, 23);
    forall i | IsDigitPosition(i) ensures IsHexDigit(u[i]) {
      LayoutAt(nibbles, i);
    }
  }

  /** The nibbles read back from the digit positions of a uuid, left to right. */
  function Unfill(uuid: string): (ns: seq<Nibble>)
    requires |uuid| == 36 && forall i | IsDigitPosition(i) :: IsHexDigit(uuid[i])
    ensures |ns| == NibbleCount
  {
    seq(8, i requires 0 <= i < 8 => DigitAt(uuid, i)) +
    seq(4, i requires 0 <= i < 4 => DigitAt(uuid, 9 + i)) +
    seq(3, i requires 0 <= i < 3 => DigitAt(uuid, 15 + i)) +
    seq(4, i requires 0 <= i < 4 => DigitAt(uuid, 19 + i)) +
    seq(12, i requires 0 <= i < 12 => DigitAt(uuid, 24 + i))
  }

  function DigitAt(uuid: string, p: int): Nibble
    requires |uuid| == 36 && forall i | IsDigitPosition(i) :: IsHexDigit(uuid[i])
    requires IsDigitPosition(p)
  {
    HexValue(uuid[p])
  }

  /**
   * The digits of the id are the supplied nibbles in the order they were
   * drawn, except that the variant digit keeps only its two low bits.
   */
  lemma {:induction false} LayoutRoundTrip(nibbles: seq<Nibble>)
    requires |nibbles| == NibbleCount
    ensures |Layout(nibbles)| == 36 && forall i | IsDigitPosition(i) :: IsHexDigit(Layout(nibbles)[i])
    ensures Unfill(Layout(nibbles)) == nibbles[15 := VariantNibble(nibbles[15])]
  {
    LayoutShape(nibbles);
    var u := Layout(nibbles);
    var d := Unfill(u);
    forall k | 0 <= k < NibbleCount ensures d[k] == nibbles[15 := VariantNibble(nibbles[15])][k] {
      if k < 8 {
        LayoutAt(nibbles, k);
        assert d[k] == HexValue(u[k]);
      } else if k < 12 {
        LayoutAt(nibbles, k + 1);
        assert d[k] == HexValue(u[k + 1]);
      } else if k < 15 {
        LayoutAt(nibbles, k + 3);
        assert d[k] == HexValue(u[k + 3]);
      } else if k < 19 {
        LayoutAt(nibbles, k + 4);
        assert d[k] == HexValue(u[k + 4]);
      } else {
        LayoutAt(nibbles, k + 5);
        assert d[k] == HexValue(u[k + 5]);
      }
    }
  }
}
