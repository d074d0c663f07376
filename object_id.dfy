/**
 * Document ids: twelve bytes, compared as a 96-bit number, which the dashboard sends to the
 * browser as `_id.toString()`, 24 lower-case hexadecimal digits.
 */
module ObjectId {

  const IdWidth: nat := 24

  /** 16^24 = 2^96: one more than the largest twelve-byte id. */
  const IdBound: nat := 0x1_0000_0000_0000_0000_0000_0000

  type Id = n: nat | n < IdBound

  function Pow16(k: nat): (p: nat)
    ensures p > 0
  {
    if k == 0 then 1 else 16 * Pow16(k - 1)
  }

  predicate IsHexDigit(c: char) {
    '0' <= c <= '9' || 'a' <= c <= 'f'
  }

  function HexChar(d: nat): (c: char)
    requires d < 16
    ensures IsHexDigit(c)
  {
    "0123456789abcdef"[d]
  }

  function HexValue(c: char): (d: nat)
    requires IsHexDigit(c)
    ensures d < 16
  {
    if c <= '9' then c as int - '0' as int else c as int - 'a' as int + 10
  }

  /** The last `width` hexadecimal digits of `n`, most significant first, zero-padded. */
  function HexDigits(n: nat, width: nat): (s: string)
    ensures |s| == width
    ensures forall i :: 0 <= i < |s| ==> IsHexDigit(s[i])
  {
    if width == 0 then [] else HexDigits(n / 16, width - 1) + [HexChar(n % 16)]
  }

  function ParseHex(s: string): nat
    requires forall i :: 0 <= i < |s| ==> IsHexDigit(s[i])
  {
    if s == [] then 0 else ParseHex(s[..|s| - 1]) * 16 + HexValue(s[|s| - 1])
  }

  /** `_id.toString()`. */
  function ToHex(id: Id): (s: string)
    ensures |s| == IdWidth
    ensures forall i :: 0 <= i < |s| ==> IsHexDigit(s[i])
  {
    HexDigits(id, IdWidth)
  }

  lemma {:induction false} ParseHexDigits(n: nat, width: nat)
    requires n < Pow16(width)
    ensures ParseHex(HexDigits(n, width)) == n
  {
    if width > 0 {
      var s := HexDigits(n, width);
      assert s[..|s| - 1] == HexDigits(n / 16, width - 1);
      assert HexValue(HexChar(n % 16)) == n % 16 by {
        assert "0123456789abcdef"[n % 16] == HexChar(n % 16);
      }
      ParseHexDigits(n / 16, width - 1);
    }
  }

  lemma {:induction false} Pow16Add(a: nat, b: nat)
    ensures Pow16(a + b) == Pow16(a) * Pow16(b)
  {
    if a > 0 {
      Pow16Add(a - 1, b);
    }
  }

  lemma IdBoundIsPow16()
    ensures Pow16(IdWidth) == IdBound
  {
    assert Pow16(3) == 0x1000;
    Pow16Add(3, 3);
    Pow16Add(6, 6);
    Pow16Add(12, 12);
  }

  /** The hexadecimal text of an id gives the id back. */
  lemma ParseToHex(id: Id)
    ensures ParseHex(ToHex(id)) == id
  {
    IdBoundIsPow16();
    ParseHexDigits(id, IdWidth);
  }

  /** Distinct ids are sent as distinct strings. */
  lemma ToHexInjective(a: Id, b: Id)
    requires ToHex(a) == ToHex(b)
    ensures a == b
  {
    ParseToHex(a);
    ParseToHex(b);
  }
}
