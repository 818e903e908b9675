/** Identifiers of users: 128-bit UUIDs and their canonical text form. */
module Ids {

  const UUID_COUNT: int := 0x1_0000_0000_0000_0000_0000_0000_0000_0000

  /** A UUID, as the 128-bit number formed by its most and least significant halves. */
  newtype Uuid = x: int | 0 <= x < UUID_COUNT

  /** The lower-case hexadecimal digit for 0 .. 15. */
  function HexDigit(d: int): (c: char)
    requires 0 <= d < 16
    ensures DigitValue(c) == d
  {
    if d < 10 then ('0' as int + d) as char else ('a' as int + d - 10) as char
  }

  /** The value of a hexadecimal digit, upper or lower case. */
  function DigitValue(c: char): int
  {
    if '0' <= c <= '9' then c as int - '0' as int
    else if 'a' <= c <= 'f' then c as int - 'a' as int + 10
    else if 'A' <= c <= 'F' then c as int - 'A' as int + 10
    else 0
  }

  function Pow16(n: nat): (p: nat)
    ensures p > 0
  {
    if n == 0 then 1 else 16 * Pow16(n - 1)
  }

  /** The number a string of hexadecimal digits denotes, most significant first. */
  function HexValue(s: string): int
  {
    if s == [] then 0 else HexValue(s[..|s| - 1]) * 16 + DigitValue(s[|s| - 1])
  }

  /** The lowest `width` hexadecimal digits of `v`, most significant first, zero-padded. */
  function Hex(v: nat, width: nat): (s: string)
    ensures |s| == width
  {
    if width == 0 then "" else Hex(v / 16, width - 1) + [HexDigit(v % 16)]
  }

  /** `UUID.toString()`: 32 lower-case hexadecimal digits grouped 8-4-4-4-12 by dashes. */
  function UuidText(id: Uuid): (s: string)
    ensures |s| == 36
    ensures s[8] == '-' && s[13] == '-' && s[18] == '-' && s[23] == '-'
  {
    var h := Hex(id as nat, 32);
    h[..8] + "-" + h[8..12] + "-" + h[12..16] + "-" + h[16..20] + "-" + h[20..]
  }

  /** The digits of a canonical UUID text with its four dashes removed. */
  function UuidDigits(s: string): string
    requires |s| == 36
  {
    s[..8] + s[9..13] + s[14..18] + s[19..23] + s[24..]
  }

  /** `UUID.fromString` on the canonical form: the number its hexadecimal digits denote. */
  function ParseUuid(s: string): int
    requires |s| == 36
  {
    HexValue(UuidDigits(s))
  }

  /** The remainder is the unique one: a value written as `m * a + r` with `0 <= r < m` leaves `r`. */
  lemma ModOfSum(v: int, m: int, a: int, r: int)
    requires m > 0 && 0 <= r < m && v == m * a + r
    ensures v % m == r
  {
    var q, t := v / m, v % m;
    assert m * (a - q) == t - r;
    // a quotient other than q would put t - r at least m away from 0
    if a - q >= 1 {
      assert false;
    } else if a - q <= -1 {
      assert false;
    }
  }

  lemma DivModStep(v: nat, p: nat)
    requires p > 0
    ensures ((v / 16) % p) * 16 + v % 16 == v % (16 * p)
  {
    var q, r := v / 16, v % 16;
    var a, b := q / p, q % p;
    assert v == 16 * q + r;
    assert q == p * a + b;
    assert v == (16 * p) * a + (16 * b + r);
    ModOfSum(v, 16 * p, a, 16 * b + r);
  }

  /** Reading back the digits `Hex` writes gives the value modulo the digit range. */
  lemma {:induction false} HexRoundTrip(v: nat, width: nat)
    ensures HexValue(Hex(v, width)) == v % Pow16(width)
  {
    if width > 0 {
      var s := Hex(v, width);
      assert s[..|s| - 1] == Hex(v / 16, width - 1);
      HexRoundTrip(v / 16, width - 1);
      DivModStep(v, Pow16(width - 1));
    }
  }

  /** Removing the dashes from the canonical text leaves the 32 digits. */
  lemma UuidTextDigits(id: Uuid)
    ensures UuidDigits(UuidText(id)) == Hex(id as nat, 32)
  {
    var h := Hex(id as nat, 32);
    var t := UuidText(id);
    assert t[..8] == h[..8] && t[9..13] == h[8..12] && t[14..18] == h[12..16];
    assert t[19..23] == h[16..20] && t[24..] == h[20..];
    assert h == h[..8] + h[8..12] + h[12..16] + h[16..20] + h[20..];
  }

  /** 32 hexadecimal digits span the whole identifier space. */
  lemma DigitRangeIsIdSpace()
    ensures Pow16(32) == UUID_COUNT
  {
    assert Pow16(4) == 0x1_0000;
    assert Pow16(8) == 0x1_0000_0000;
    assert Pow16(12) == 0x1_0000_0000_0000;
    assert Pow16(16) == 0x1_0000_0000_0000_0000;
    assert Pow16(20) == 0x1_0000_0000_0000_0000_0000;
    assert Pow16(24) == 0x1_0000_0000_0000_0000_0000_0000;
    assert Pow16(28) == 0x1_0000_0000_0000_0000_0000_0000_0000;
  }

  /** Parsing the canonical text of a UUID gives that UUID back. */
  lemma ParseUuidText(id: Uuid)
    ensures ParseUuid(UuidText(id)) == id as int
  {
    UuidTextDigits(id);
    HexRoundTrip(id as nat, 32);
    DigitRangeIsIdSpace();
    ModOfSum(id as int, Pow16(32), 0, id as int);
  }

  /** Distinct UUIDs have distinct texts. */
  lemma UuidTextInjective(a: Uuid, b: Uuid)
    ensures UuidText(a) == UuidText(b) ==> a == b
  {
    ParseUuidText(a);
    ParseUuidText(b);
  }

  /** Pigeonhole: fewer than `n` used identifiers leave one of 0 .. n-1 free. */
  lemma {:induction false} FreeIdBelow(used: set<Uuid>, n: nat)
    requires n <= UUID_COUNT
    requires |used| < n
    ensures exists id: Uuid :: id as int < n && id !in used
  {
    var top := (n - 1) as Uuid;
    if top !in used {
      assert top as int < n && top !in used;
    } else {
      var rest := used - {top};
      assert |rest| == |used| - 1;
      FreeIdBelow(rest, n - 1);
      var id: Uuid :| id as int < n - 1 && id !in rest;
      assert id as int < n && id !in used;
    }
  }

  /** While the identifier space is not exhausted a fresh identifier exists. */
  lemma FreshIdExists(used: set<Uuid>)
    requires |used| < UUID_COUNT
    ensures exists id: Uuid :: id !in used
  {
    FreeIdBelow(used, UUID_COUNT);
  }
}
