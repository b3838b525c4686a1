/** Content digests and their lower-case hexadecimal form. */
module Digests {
  import opened Wrappers

  type Byte = b: int | 0 <= b < 256

  type Bytes = seq<Byte>

  type Digest = Bytes

  const DIGEST_BYTES := 32

  const HEX_DIGITS := "0123456789abcdef"

  function HexByte(b: Byte): string {
    [HEX_DIGITS[b / 16], HEX_DIGITS[b % 16]]
  }

  /** `{b:02x}` for every byte. */
  function Hex(d: Digest): string {
    if d == [] then "" else HexByte(d[0]) + Hex(d[1..])
  }

  /** `char::to_digit(16)`: both letter cases are read. */
  function ToDigit(c: char): (r: Option<nat>)
    ensures r.Some? ==> r.value < 16
  {
    if '0' <= c <= '9' then Some(c as int - '0' as int)
    else if 'a' <= c <= 'f' then Some(c as int - 'a' as int + 10)
    else if 'A' <= c <= 'F' then Some(c as int - 'A' as int + 10)
    else None
  }

  /** Reads exactly 64 hexadecimal digits into 32 bytes. */
  method ParseHex32(s: string) returns (r: Option<Digest>)
    ensures r.Some? ==> |r.value| == DIGEST_BYTES && |s| == 2 * DIGEST_BYTES
    ensures r.Some? ==> forall i :: 0 <= i < DIGEST_BYTES ==>
                                 ToDigit(s[2 * i]).Some? && ToDigit(s[2 * i + 1]).Some?
                                 && r.value[i] == 16 * ToDigit(s[2 * i]).value + ToDigit(s[2 * i + 1]).value
    ensures r.None? ==> |s| != 2 * DIGEST_BYTES || exists i :: 0 <= i < |s| && ToDigit(s[i]).None?
    ensures forall d: Digest :: |d| == DIGEST_BYTES && s == Hex(d) ==> r == Some(d)
  {
    if |s| != 2 * DIGEST_BYTES {
      HexAllLengths();
      return None;
    }
    var out := new Byte[DIGEST_BYTES](_ => 0);
    for i := 0 to DIGEST_BYTES
      invariant forall k :: 0 <= k < i ==>
                  ToDigit(s[2 * k]).Some? && ToDigit(s[2 * k + 1]).Some?
                  && out[k] == 16 * ToDigit(s[2 * k]).value + ToDigit(s[2 * k + 1]).value
    {
      var hi, lo := ToDigit(s[2 * i]), ToDigit(s[2 * i + 1]);
      if hi.None? || lo.None? {
        NotHex(s, if hi.None? then 2 * i else 2 * i + 1);
        return None;
      }
      out[i] := 16 * hi.value + lo.value;
    }
    r := Some(out[..]);
    forall d: Digest | |d| == DIGEST_BYTES && s == Hex(d)
      ensures r == Some(d)
    {
      forall i | 0 <= i < DIGEST_BYTES
        ensures d[i] == out[i]
      {
        HexAt(d, i);
      }
      assert out[..] == d;
    }
  }

  lemma HexDigitRead(n: nat)
    requires n < 16
    ensures ToDigit(HEX_DIGITS[n]) == Some(n)
  {
  }

  lemma {:induction false} HexAt(d: Digest, i: nat)
    requires i < |d|
    ensures |Hex(d)| == 2 * |d|
    ensures ToDigit(Hex(d)[2 * i]) == Some(d[i] / 16) && ToDigit(Hex(d)[2 * i + 1]) == Some(d[i] % 16)
  {
    HexDigitRead(d[0] / 16);
    HexDigitRead(d[0] % 16);
    if |d| > 1 {
      HexAt(d[1..], if i > 0 then i - 1 else 0);
      assert i > 0 ==> Hex(d)[2 * i] == Hex(d[1..])[2 * (i - 1)] && Hex(d)[2 * i + 1] == Hex(d[1..])[2 * (i - 1) + 1];
    }
  }

  lemma HexAllLengths()
    ensures forall d: Digest :: |Hex(d)| == 2 * |d|
  {
    forall d: Digest
      ensures |Hex(d)| == 2 * |d|
    {
      if d != [] {
        HexAt(d, 0);
      }
    }
  }

  lemma HexReads(d: Digest, i: nat)
    requires i < |Hex(d)|
    ensures ToDigit(Hex(d)[i]).Some?
  {
    HexAllLengths();
    HexAt(d, i / 2);
    assert i == 2 * (i / 2) || i == 2 * (i / 2) + 1;
  }

  lemma NotHex(s: string, i: nat)
    requires i < |s| && ToDigit(s[i]).None?
    ensures forall d: Digest :: s != Hex(d)
  {
    forall d: Digest
      ensures s != Hex(d)
    {
      if s == Hex(d) {
        HexReads(d, i);
        assert false;
      }
    }
  }

  /** Different digests print differently. */
  lemma HexInjective(a: Digest, b: Digest)
    requires Hex(a) == Hex(b)
    ensures a == b
  {
    HexAllLengths();
    forall i | 0 <= i < |a|
      ensures a[i] == b[i]
    {
      HexAt(a, i);
      HexAt(b, i);
    }
  }
}
