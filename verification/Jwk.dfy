/**
 Integers of a public key in a JSON Web Key: written by core/license_remote.py as minimal big-endian
 bytes in unpadded URL-safe base64 (sections 2 and 6.3.1 of RFC 7518), read back by core/sso_config.py.
 */
module Jwk {
  import opened Common
  import opened Base64

  /** `n.bit_length()`. */
  function BitLength(n: nat): nat { if n == 0 then 0 else 1 + BitLength(n / 2) }

  /** `n.to_bytes(length, "big")`, for a length that is enough. */
  function ToBytes(n: nat, length: nat): (b: seq<Byte>)
    ensures |b| == length
  {
    if length == 0 then [] else ToBytes(n / 256, length - 1) + [n % 256]
  }

  /** `int.from_bytes(b, "big")`. */
  function FromBytes(b: seq<Byte>): nat {
    if b == [] then 0 else FromBytes(b[..|b| - 1]) * 256 + b[|b| - 1]
  }

  function ByteLength(n: nat): nat { (BitLength(n) + 7) / 8 }

  function Write(n: nat): string { UrlEncode(ToBytes(n, ByteLength(n))) }

  function Read(s: string): Option<nat> {
    var b := UrlDecode(s);
    if b.Some? then Some(FromBytes(b.value)) else None
  }

  lemma BitLengthShift(n: nat)
    ensures BitLength(n / 256) == if BitLength(n) < 8 then 0 else BitLength(n) - 8
  {
    var n1 := n / 2;
    var n2 := n1 / 2;
    var n3 := n2 / 2;
    var n4 := n3 / 2;
    var n5 := n4 / 2;
    var n6 := n5 / 2;
    var n7 := n6 / 2;
    assert n7 / 2 == n / 256;
    assert BitLength(n1) == if BitLength(n) < 1 then 0 else BitLength(n) - 1;
    assert BitLength(n2) == if BitLength(n) < 2 then 0 else BitLength(n) - 2;
    assert BitLength(n3) == if BitLength(n) < 3 then 0 else BitLength(n) - 3;
    assert BitLength(n4) == if BitLength(n) < 4 then 0 else BitLength(n) - 4;
    assert BitLength(n5) == if BitLength(n) < 5 then 0 else BitLength(n) - 5;
    assert BitLength(n6) == if BitLength(n) < 6 then 0 else BitLength(n) - 6;
    assert BitLength(n7) == if BitLength(n) < 7 then 0 else BitLength(n) - 7;
  }

  lemma {:induction false} FromToBytes(n: nat, length: nat)
    requires BitLength(n) <= 8 * length
    ensures FromBytes(ToBytes(n, length)) == n
  {
    if length == 0 {
      assert n == 0;
    } else {
      BitLengthShift(n);
      FromToBytes(n / 256, length - 1);
      var b := ToBytes(n, length);
      assert b[..|b| - 1] == ToBytes(n / 256, length - 1);
    }
  }

  lemma {:induction false} NoLeadingZero(n: nat)
    requires n > 0
    ensures ByteLength(n) > 0 && ToBytes(n, ByteLength(n))[0] != 0
  {
    BitLengthShift(n);
    assert n == 1 || BitLength(n) >= 1;
    if n / 256 == 0 {
      assert BitLength(n) <= 8 by {
        assert BitLength(n / 256) == 0;
        if BitLength(n) >= 8 { }
      }
      assert ByteLength(n) == 1;
      assert ToBytes(n / 256, 0) == [];
    } else {
      NoLeadingZero(n / 256);
      assert BitLength(n / 256) > 0;
      assert ByteLength(n) == ByteLength(n / 256) + 1;
    }
  }

  /** A key integer of any size is read back as it was written, from the fewest bytes that hold it. */
  lemma {:induction false} IntegerRoundTrip(n: nat)
    ensures Read(Write(n)) == Some(n)
    ensures n > 0 ==> ByteLength(n) > 0 && ToBytes(n, ByteLength(n))[0] != 0
  {
    hide UrlEncode, UrlDecode, BitLength;
    var b := ToBytes(n, ByteLength(n));
    UrlRoundTrip(b);
    FromToBytes(n, ByteLength(n));
    if n > 0 {
      NoLeadingZero(n);
    }
  }

  /** Different integers have different texts. */
  lemma {:induction false} WriteIsInjective(m: nat, n: nat)
    requires Write(m) == Write(n)
    ensures m == n
  {
    IntegerRoundTrip(m);
    IntegerRoundTrip(n);
  }

  /** Zero, and no other integer, is written as the empty text, where section 2 of RFC 7518 asks for "AA". */
  lemma {:induction false} ZeroIsEmpty(n: nat)
    ensures Write(n) == "" <==> n == 0
  {
    IntegerRoundTrip(n);
    IntegerRoundTrip(0);
    assert ToBytes(0, 0) == [];
    assert Translate(Encode([]), ToUrl) == [];
  }
}
