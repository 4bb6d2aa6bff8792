/**
 The identifier of an account is a UUID: sixteen bytes. The repository keys
 its table by the textual form of the UUID, the canonical 36-character form
 of RFC 4122 (section 3): five groups of lower-case hexadecimal digits of
 8, 4, 4, 4 and 12 digits, separated by hyphens.

 `Parse` reads that canonical form back. It is the partner of `ToString`:
 the round trip `Parse(ToString(u)) == Some(u)` is what shows that distinct
 UUIDs give distinct storage keys.
 */
module Uuid {

  import opened Wrappers

  newtype Byte = x: int | 0 <= x < 256

  /** A UUID is exactly sixteen bytes. */
  type Uuid = b: seq<Byte> | |b| == 16
    witness [0, 0, 0, 0, 0, 0, 0, 0, 0, 0, 0, 0, 0, 0, 0, 0]

  /** The all-zero UUID, the value of an identifier nobody assigned. */
  const Nil: Uuid := [0, 0, 0, 0, 0, 0, 0, 0, 0, 0, 0, 0, 0, 0, 0, 0]

  /** The lower-case hexadecimal digit of a nibble. */
  function HexDigit(n: int): (c: char)
    requires 0 <= n < 16
    ensures HexValue(c) == Some(n)
  {
    if n < 10 then ('0' as int + n) as char else ('a' as int + n - 10) as char
  }

  /** The value of a hexadecimal digit of either case, or None for any other character. */
  function HexValue(c: char): (r: Option<int>)
    ensures r.Some? ==> 0 <= r.value < 16
  {
    if '0' <= c <= '9' then Some(c as int - '0' as int)
    else if 'a' <= c <= 'f' then Some(c as int - 'a' as int + 10)
    else if 'A' <= c <= 'F' then Some(c as int - 'A' as int + 10)
    else None
  }

  /** Two hexadecimal digits per byte, high nibble first. */
  function Hex(bs: seq<Byte>): (s: string)
    ensures |s| == 2 * |bs|
  {
    if bs == [] then []
    else [HexDigit(bs[0] as int / 16), HexDigit(bs[0] as int % 16)] + Hex(bs[1..])
  }

  /** Reads pairs of hexadecimal digits back into bytes. */
  function Unhex(s: string): (r: Option<seq<Byte>>)
    ensures r.Some? ==> 2 * |r.value| == |s|
  {
    if s == [] then Some([])
    else if |s| == 1 then None
    else match (HexValue(s[0]), HexValue(s[1]), Unhex(s[2..]))
      case (Some(hi), Some(lo), Some(rest)) => Some([(hi * 16 + lo) as Byte] + rest)
      case _ => None
  }

  /** The canonical textual form `xxxxxxxx-xxxx-xxxx-xxxx-xxxxxxxxxxxx`. */
  function ToString(u: Uuid): (s: string)
    ensures |s| == 36
  {
    Hex(u[..4]) + "-" + Hex(u[4..6]) + "-" + Hex(u[6..8]) + "-" + Hex(u[8..10]) + "-" + Hex(u[10..])
  }

  /** Reads the canonical textual form; None for any string not of that form. */
  function Parse(s: string): (r: Option<Uuid>)
    ensures r.Some? ==> |s| == 36
  {
    if |s| != 36 || s[8] != '-' || s[13] != '-' || s[18] != '-' || s[23] != '-' then None
    else match (Unhex(s[..8]), Unhex(s[9..13]), Unhex(s[14..18]), Unhex(s[19..23]), Unhex(s[24..]))
      case (Some(a), Some(b), Some(c), Some(d), Some(e)) => Some(a + b + c + d + e)
      case _ => None
  }

  /** Hexadecimal encoding of a byte string is undone by `Unhex`. */
  lemma {:induction false} UnhexHex(bs: seq<Byte>)
    ensures Unhex(Hex(bs)) == Some(bs)
  {
    if bs != [] {
      var s := Hex(bs);
      var hi, lo := bs[0] as int / 16, bs[0] as int % 16;
      assert HexValue(s[0]) == Some(hi) && HexValue(s[1]) == Some(lo);
      assert s[2..] == Hex(bs[1..]);
      UnhexHex(bs[1..]);
      assert (hi * 16 + lo) as Byte == bs[0];
      assert [bs[0]] + bs[1..] == bs;
    }
  }

  /** The five groups of a UUID: 4, 2, 2, 2 and 6 bytes. */
  lemma UuidGroups(u: Uuid)
    ensures u == u[..4] + u[4..6] + u[6..8] + u[8..10] + u[10..]
  {
    assert u == u[..10] + u[10..];
    assert u[..10] == u[..8] + u[8..10];
    assert u[..8] == u[..6] + u[6..8];
    assert u[..6] == u[..4] + u[4..6];
  }

  /** Where each group's digits and each hyphen sit in the canonical form. */
  lemma ToStringGroups(u: Uuid)
    ensures var s := ToString(u);
      && s[8] == '-' && s[13] == '-' && s[18] == '-' && s[23] == '-'
      && s[..8] == Hex(u[..4])
      && s[9..13] == Hex(u[4..6])
      && s[14..18] == Hex(u[6..8])
      && s[19..23] == Hex(u[8..10])
      && s[24..] == Hex(u[10..])
  {
  }

  /** Every UUID is read back from its canonical form. */
  lemma {:induction false} ParseToString(u: Uuid)
    ensures Parse(ToString(u)) == Some(u)
  {
    ToStringGroups(u);
    UnhexHex(u[..4]);
    UnhexHex(u[4..6]);
    UnhexHex(u[6..8]);
    UnhexHex(u[8..10]);
    UnhexHex(u[10..]);
    UuidGroups(u);
  }

  /** Distinct UUIDs have distinct textual forms, so they are distinct storage keys. */
  lemma ToStringInjective(u: Uuid, v: Uuid)
    ensures ToString(u) == ToString(v) <==> u == v
  {
    ParseToString(u);
    ParseToString(v);
  }
}
