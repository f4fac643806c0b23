/**
 Base64 as Python's `base64` module writes and reads it: the standard and the URL-safe alphabet of
 sections 4 and 5 of RFC 4648, padding, and the lenient decoder, which skips characters outside the
 alphabet and stops at complete padding.
 */
module Base64 {
  import opened Common

  type Byte = b: int | 0 <= b < 256

  const PAD := '='

  function Symbol(v: nat): (c: char)
    requires v < 64
    ensures c != PAD && c != '-' && c != '_' && c < '\U{80}'
  {
    if v < 26 then ('A' as int + v) as char
    else if v < 52 then ('a' as int + v - 26) as char
    else if v < 62 then ('0' as int + v - 52) as char
    else if v == 62 then '+' else '/'
  }

  function Value(c: char): (v: Option<nat>)
    ensures v.Some? ==> v.value < 64
  {
    if 'A' <= c <= 'Z' then Some(c as int - 'A' as int)
    else if 'a' <= c <= 'z' then Some(c as int - 'a' as int + 26)
    else if '0' <= c <= '9' then Some(c as int - '0' as int + 52)
    else if c == '+' then Some(62)
    else if c == '/' then Some(63)
    else None
  }

  lemma SymbolValue(v: nat)
    requires v < 64
    ensures Value(Symbol(v)) == Some(v)
  {
  }

  lemma ValueSymbol(c: char)
    requires Value(c).Some?
    ensures Symbol(Value(c).value) == c
  {
  }

  /** The data characters of an encoding, without padding. */
  function Core(b: seq<Byte>): string {
    if b == [] then []
    else if |b| == 1 then [Symbol(b[0] / 4), Symbol(b[0] % 4 * 16)]
    else if |b| == 2 then [Symbol(b[0] / 4), Symbol(b[0] % 4 * 16 + b[1] / 16), Symbol(b[1] % 16 * 4)]
    else
      [Symbol(b[0] / 4), Symbol(b[0] % 4 * 16 + b[1] / 16), Symbol(b[1] % 16 * 4 + b[2] / 64), Symbol(b[2] % 64)]
      + Core(b[3..])
  }

  function Pads(n: nat): string { seq(n, _ => PAD) }

  /** `base64.b64encode(b)`. */
  function Encode(b: seq<Byte>): string { Core(b) + Pads((3 - |b| % 3) % 3) }

  /** What a decoder has left over after `quad` characters of a group of four. */
  predicate LeftOver(quad: nat, left: nat) {
    (quad == 0 && left == 0) || (quad == 1 && left < 64) || (quad == 2 && left < 16) || (quad == 3 && left < 4)
  }

  /** The decoder's loop, from any point of it. */
  function Scan(s: string, quad: nat, left: nat, pads: nat): Option<seq<Byte>>
    requires LeftOver(quad, left)
  {
    if s == [] then if quad == 0 then Some([]) else None
    else if s[0] == PAD then
      if quad >= 2 && quad + pads + 1 >= 4 then Some([])
      else Scan(s[1..], quad, left, if quad >= 2 then pads + 1 else pads)
    else if Value(s[0]).None? then Scan(s[1..], quad, left, pads)
    else
      var v := Value(s[0]).value;
      if quad == 0 then Scan(s[1..], 1, v, 0)
      else if quad == 1 then Prepend(left * 4 + v / 16, Scan(s[1..], 2, v % 16, 0))
      else if quad == 2 then Prepend(left * 16 + v / 4, Scan(s[1..], 3, v % 4, 0))
      else Prepend(left * 64 + v, Scan(s[1..], 0, 0, 0))
  }

  function Prepend(b: Byte, rest: Option<seq<Byte>>): Option<seq<Byte>> {
    if rest.Some? then Some([b] + rest.value) else None
  }

  /** `base64.b64decode` of ASCII text; `None` where it raises binascii.Error. */
  function Decode(s: string): Option<seq<Byte>> { Scan(s, 0, 0, 0) }

  predicate Ascii(s: string) { forall i :: 0 <= i < |s| ==> s[i] < '\U{80}' }

  /** `base64.b64decode(s)` of any text: one that is not ASCII raises ValueError. */
  function DecodeText(s: string): Option<seq<Byte>> { if Ascii(s) then Decode(s) else None }

  lemma ScanSymbol(v: nat, rest: string, quad: nat, left: nat)
    requires v < 64 && LeftOver(quad, left)
    ensures Scan([Symbol(v)] + rest, quad, left, 0)
         == if quad == 0 then Scan(rest, 1, v, 0)
            else if quad == 1 then Prepend(left * 4 + v / 16, Scan(rest, 2, v % 16, 0))
            else if quad == 2 then Prepend(left * 16 + v / 4, Scan(rest, 3, v % 4, 0))
            else Prepend(left * 64 + v, Scan(rest, 0, 0, 0))
  {
    SymbolValue(v);
    assert ([Symbol(v)] + rest)[1..] == rest;
  }

  /** A full group of four symbols decodes to three bytes. */
  lemma ScanFour(v0: nat, v1: nat, v2: nat, v3: nat, rest: string)
    requires v0 < 64 && v1 < 64 && v2 < 64 && v3 < 64
    ensures Decode([Symbol(v0), Symbol(v1), Symbol(v2), Symbol(v3)] + rest)
         == Prepend(v0 * 4 + v1 / 16, Prepend(v1 % 16 * 16 + v2 / 4, Prepend(v2 % 4 * 64 + v3, Decode(rest))))
  {
    var s3 := [Symbol(v3)] + rest;
    var s2 := [Symbol(v2)] + s3;
    var s1 := [Symbol(v1)] + s2;
    assert [Symbol(v0), Symbol(v1), Symbol(v2), Symbol(v3)] + rest == [Symbol(v0)] + s1;
    ScanSymbol(v0, s1, 0, 0);
    ScanSymbol(v1, s2, 1, v0);
    ScanSymbol(v2, s3, 2, v1 % 16);
    ScanSymbol(v3, rest, 3, v2 % 4);
  }

  /** Three symbols and a pad decode to two bytes, two symbols and two pads to one. */
  lemma ScanThree(v0: nat, v1: nat, v2: nat)
    requires v0 < 64 && v1 < 64 && v2 < 64
    ensures Decode([Symbol(v0), Symbol(v1), Symbol(v2), PAD]) == Some([v0 * 4 + v1 / 16, v1 % 16 * 16 + v2 / 4])
  {
    var s2 := [Symbol(v2)] + [PAD];
    var s1 := [Symbol(v1)] + s2;
    assert [Symbol(v0), Symbol(v1), Symbol(v2), PAD] == [Symbol(v0)] + s1;
    ScanSymbol(v0, s1, 0, 0);
    ScanSymbol(v1, s2, 1, v0);
    ScanSymbol(v2, [PAD], 2, v1 % 16);
    assert Scan([PAD], 3, v2 % 4, 0) == Some([]);
    var b0: Byte, b1: Byte := v0 * 4 + v1 / 16, v1 % 16 * 16 + v2 / 4;
    assert [b0] + ([b1] + []) == [b0, b1];
  }

  lemma ScanTwo(v0: nat, v1: nat)
    requires v0 < 64 && v1 < 64
    ensures Decode([Symbol(v0), Symbol(v1), PAD, PAD]) == Some([v0 * 4 + v1 / 16])
  {
    var s1 := [Symbol(v1)] + [PAD, PAD];
    assert [Symbol(v0), Symbol(v1), PAD, PAD] == [Symbol(v0)] + s1;
    ScanSymbol(v0, s1, 0, 0);
    ScanSymbol(v1, [PAD, PAD], 1, v0);
    assert [PAD, PAD][1..] == [PAD];
    assert Scan([PAD], 2, v1 % 16, 1) == Some([]);
    assert Scan([PAD, PAD], 2, v1 % 16, 0) == Some([]);
    var b0: Byte := v0 * 4 + v1 / 16;
    assert [b0] + [] == [b0];
  }

  lemma EncodeGroup(b: seq<Byte>)
    requires |b| > 2
    ensures Encode(b) == [Symbol(b[0] / 4), Symbol(b[0] % 4 * 16 + b[1] / 16), Symbol(b[1] % 16 * 4 + b[2] / 64),
            Symbol(b[2] % 64)]
                       + Encode(b[3..])
  {
  }

  lemma Arithmetic(b0: Byte, b1: Byte, b2: Byte)
    ensures b0 / 4 * 4 + (b0 % 4 * 16 + b1 / 16) / 16 == b0
    ensures (b0 % 4 * 16 + b1 / 16) % 16 * 16 + (b1 % 16 * 4 + b2 / 64) / 4 == b1
    ensures (b1 % 16 * 4 + b2 / 64) % 4 * 64 + b2 % 64 == b2
  {
    assert (b0 % 4 * 16 + b1 / 16) / 16 == b0 % 4 && (b0 % 4 * 16 + b1 / 16) % 16 == b1 / 16;
    assert (b1 % 16 * 4 + b2 / 64) / 4 == b1 % 16 && (b1 % 16 * 4 + b2 / 64) % 4 == b2 / 64;
  }

  lemma OneByte(b0: Byte)
    ensures Decode(Encode([b0])) == Some([b0])
  {
    Arithmetic(b0, 0, 0);
    ScanTwo(b0 / 4, b0 % 4 * 16);
    assert Encode([b0]) == [Symbol(b0 / 4), Symbol(b0 % 4 * 16), PAD, PAD];
  }

  lemma TwoBytes(b0: Byte, b1: Byte)
    ensures Decode(Encode([b0, b1])) == Some([b0, b1])
  {
    Arithmetic(b0, b1, 0);
    ScanThree(b0 / 4, b0 % 4 * 16 + b1 / 16, b1 % 16 * 4);
    assert Encode([b0, b1]) == [Symbol(b0 / 4), Symbol(b0 % 4 * 16 + b1 / 16), Symbol(b1 % 16 * 4), PAD];
  }

  lemma ThreeBytes(b: seq<Byte>)
    requires |b| > 2 && Decode(Encode(b[3..])) == Some(b[3..])
    ensures Decode(Encode(b)) == Some(b)
  {
    Arithmetic(b[0], b[1], b[2]);
    EncodeGroup(b);
    ScanFour(b[0] / 4, b[0] % 4 * 16 + b[1] / 16, b[1] % 16 * 4 + b[2] / 64, b[2] % 64, Encode(b[3..]));
    assert b == [b[0]] + ([b[1]] + ([b[2]] + b[3..]));
  }

  /** Bytes survive encoding and decoding (section 4 of RFC 4648). */
  lemma {:induction false} DecodeEncode(b: seq<Byte>)
    ensures Decode(Encode(b)) == Some(b)
    decreases |b|
  {
    if |b| == 1 {
      OneByte(b[0]);
      assert b == [b[0]];
    } else if |b| == 2 {
      TwoBytes(b[0], b[1]);
      assert b == [b[0], b[1]];
    } else if |b| > 2 {
      DecodeEncode(b[3..]);
      ThreeBytes(b);
    }
  }

  // ----- The URL-safe alphabet, without padding -----

  function ToUrl(c: char): char { if c == '+' then '-' else if c == '/' then '_' else c }

  function FromUrl(c: char): char { if c == '-' then '+' else if c == '_' then '/' else c }

  function Translate(s: string, f: char -> char): (r: string)
    ensures |r| == |s| && forall i :: 0 <= i < |s| ==> r[i] == f(s[i])
  {
    seq(|s|, i requires 0 <= i < |s| => f(s[i]))
  }

  /** `s.rstrip("=")`. */
  function StripPads(s: string): string {
    if s != [] && s[|s| - 1] == PAD then StripPads(s[..|s| - 1]) else s
  }

  /** `base64.urlsafe_b64encode(b).decode().rstrip("=")`. */
  function UrlEncode(b: seq<Byte>): string { StripPads(Translate(Encode(b), ToUrl)) }

  /** `base64.urlsafe_b64decode(s + "=" * (-len(s) % 4))`. */
  function UrlDecode(s: string): Option<seq<Byte>> { DecodeText(Translate(s + Pads((-|s|) % 4), FromUrl)) }

  lemma {:induction false} CoreLength(b: seq<Byte>, groups: nat, over: nat)
    requires |b| == 3 * groups + over && over < 3
    ensures |Core(b)| == 4 * groups + if over == 0 then 0 else over + 1
    decreases groups
  {
    if groups > 0 {
      CoreLength(b[3..], groups - 1, over);
    }
  }

  lemma PaddingLength(b: seq<Byte>)
    ensures (-|Core(b)|) % 4 == (3 - |b| % 3) % 3
  {
    CoreLength(b, |b| / 3, |b| % 3);
    PaddingArithmetic(|b| / 3, |b| % 3);
  }

  lemma PaddingArithmetic(groups: nat, over: nat)
    requires over < 3
    ensures (-(4 * groups + if over == 0 then 0 else over + 1)) % 4 == (3 - over) % 3
  {
  }

  lemma {:induction false} CoreSymbols(b: seq<Byte>)
    ensures forall i :: 0 <= i < |Core(b)| ==> Core(b)[i] != PAD && Core(b)[i] != '-' && Core(b)[i] != '_'
    decreases |b|
  {
    if |b| > 2 {
      CoreSymbols(b[3..]);
    }
  }

  lemma {:induction false} CoreIsAscii(b: seq<Byte>)
    ensures Ascii(Core(b))
    decreases |b|
  {
    if |b| > 2 {
      CoreIsAscii(b[3..]);
    }
  }

  lemma EncodeIsAscii(b: seq<Byte>)
    ensures Ascii(Encode(b))
  {
    CoreIsAscii(b);
  }

  lemma DecodeTextEncode(b: seq<Byte>)
    ensures DecodeText(Encode(b)) == Some(b)
  {
    EncodeIsAscii(b);
    DecodeEncode(b);
  }

  lemma {:induction false} StripPadsOf(s: string, n: nat)
    requires s == [] || s[|s| - 1] != PAD
    ensures StripPads(s + Pads(n)) == s
    decreases n
  {
    if n == 0 {
      assert s + Pads(n) == s;
    } else {
      assert (s + Pads(n))[..|s| + n - 1] == s + Pads(n - 1);
      StripPadsOf(s, n - 1);
    }
  }

  /** Bytes survive unpadded URL-safe encoding and decoding with the padding put back (section 5 of
      RFC 4648, appendix C of RFC 7515). */
  lemma {:induction false} UrlRoundTrip(b: seq<Byte>)
    ensures UrlDecode(UrlEncode(b)) == Some(b)
  {
    var core, n := Core(b), (3 - |b| % 3) % 3;
    PaddingLength(b);
    CoreSymbols(b);
    UrlOfCore(core, n);
    assert UrlEncode(b) == Translate(core, ToUrl);
    DecodeTextEncode(b);
    UrlDecodeIs(UrlEncode(b), Encode(b));
  }

  lemma UrlDecodeIs(url: string, plain: string)
    requires Translate(url + Pads((-|url|) % 4), FromUrl) == plain
    ensures UrlDecode(url) == DecodeText(plain)
  {
  }

  lemma UrlOfCore(core: string, n: nat)
    requires (-|core|) % 4 == n
    requires forall i :: 0 <= i < |core| ==> core[i] != PAD && core[i] != '-' && core[i] != '_'
    ensures StripPads(Translate(core + Pads(n), ToUrl)) == Translate(core, ToUrl)
    ensures Translate(Translate(core, ToUrl) + Pads((-|core|) % 4), FromUrl) == core + Pads(n)
  {
    var url := Translate(core, ToUrl);
    assert Translate(core + Pads(n), ToUrl) == url + Pads(n);
    StripPadsOf(url, n);
  }

  /** The texts that `Encode` writes: groups of four symbols, the last one possibly padded, with no stray bits. */
  predicate CanonicalText(s: string) {
    s == []
    || (|s| == 4 && IsSymbol(s[0]) && IsSymbol(s[1]) && s[2] == PAD && s[3] == PAD && SymbolBits(s[1]) % 16 == 0)
    || (|s| == 4 && IsSymbol(s[0]) && IsSymbol(s[1]) && IsSymbol(s[2]) && s[3] == PAD && SymbolBits(s[2]) % 4 == 0)
    || (|s| >= 4 && IsSymbol(s[0]) && IsSymbol(s[1]) && IsSymbol(s[2]) && IsSymbol(s[3]) && CanonicalText(s[4..]))
  }

  predicate IsSymbol(c: char) { Value(c).Some? }

  function SymbolBits(c: char): nat
    requires IsSymbol(c)
  {
    Value(c).value
  }

  lemma {:induction false} EncodeIsCanonical(b: seq<Byte>)
    ensures CanonicalText(Encode(b))
    decreases |b|
  {
    if |b| == 1 {
      SymbolValue(b[0] / 4);
      SymbolValue(b[0] % 4 * 16);
      assert Encode(b) == [Symbol(b[0] / 4), Symbol(b[0] % 4 * 16), PAD, PAD];
    } else if |b| == 2 {
      SymbolValue(b[0] / 4);
      SymbolValue(b[0] % 4 * 16 + b[1] / 16);
      SymbolValue(b[1] % 16 * 4);
      assert Encode(b) == [Symbol(b[0] / 4), Symbol(b[0] % 4 * 16 + b[1] / 16), Symbol(b[1] % 16 * 4), PAD];
    } else if |b| > 2 {
      EncodeIsCanonical(b[3..]);
      EncodeGroup(b);
      SymbolValue(b[0] / 4);
      SymbolValue(b[0] % 4 * 16 + b[1] / 16);
      SymbolValue(b[1] % 16 * 4 + b[2] / 64);
      SymbolValue(b[2] % 64);
      assert Encode(b)[4..] == Encode(b[3..]);
    }
  }

  lemma FourToThree(v0: nat, v1: nat, v2: nat, v3: nat)
    requires v0 < 64 && v1 < 64 && v2 < 64 && v3 < 64
    ensures var b0, b1, b2 := v0 * 4 + v1 / 16, v1 % 16 * 16 + v2 / 4, v2 % 4 * 64 + v3;
            && b0 / 4 == v0 && b0 % 4 * 16 + b1 / 16 == v1
            && b1 % 16 * 4 + b2 / 64 == v2 && b2 % 64 == v3
            && b0 % 4 * 16 == v1 / 16 * 16 && b1 % 16 * 4 == v2 / 4 * 4
  {
  }

  /** Decoding and encoding a canonical text. */
  lemma {:induction false} EncodeDecode(s: string)
    requires CanonicalText(s)
    ensures Decode(s).Some? && Encode(Decode(s).value) == s
    decreases |s|
  {
    if s != [] {
      if s[2] == PAD {
        PaddedGroup(s);
      } else if s[3] == PAD {
        PaddedGroup(s);
      } else {
        EncodeDecode(s[4..]);
        FullGroup(s);
      }
    }
  }

  lemma PaddedGroup(s: string)
    requires |s| == 4 && IsSymbol(s[0]) && IsSymbol(s[1]) && s[3] == PAD
    requires if s[2] == PAD then SymbolBits(s[1]) % 16 == 0 else IsSymbol(s[2]) && SymbolBits(s[2]) % 4 == 0
    ensures Decode(s).Some? && Encode(Decode(s).value) == s
  {
    var v0, v1 := SymbolBits(s[0]), SymbolBits(s[1]);
    ValueSymbol(s[0]);
    ValueSymbol(s[1]);
    if s[2] == PAD {
      ScanTwo(v0, v1);
      FourToThree(v0, v1, 0, 0);
      assert s == [Symbol(v0), Symbol(v1), PAD, PAD];
    } else {
      var v2 := SymbolBits(s[2]);
      ValueSymbol(s[2]);
      ScanThree(v0, v1, v2);
      FourToThree(v0, v1, v2, 0);
      assert s == [Symbol(v0), Symbol(v1), Symbol(v2), PAD];
    }
  }

  lemma {:induction false} CanonicalIsAscii(s: string)
    requires CanonicalText(s)
    ensures Ascii(s)
    decreases |s|
  {
    if |s| > 4 {
      CanonicalIsAscii(s[4..]);
      assert forall i :: 4 <= i < |s| ==> s[i] == s[4..][i - 4];
    }
  }

  lemma FullGroup(s: string)
    requires |s| >= 4 && IsSymbol(s[0]) && IsSymbol(s[1]) && IsSymbol(s[2]) && IsSymbol(s[3])
    requires Decode(s[4..]).Some? && Encode(Decode(s[4..]).value) == s[4..]
    ensures Decode(s).Some? && Encode(Decode(s).value) == s
  {
    var v0, v1, v2, v3 := SymbolBits(s[0]), SymbolBits(s[1]), SymbolBits(s[2]), SymbolBits(s[3]);
    ValueSymbol(s[0]);
    ValueSymbol(s[1]);
    ValueSymbol(s[2]);
    ValueSymbol(s[3]);
    assert s == [Symbol(v0), Symbol(v1), Symbol(v2), Symbol(v3)] + s[4..];
    ScanFour(v0, v1, v2, v3, s[4..]);
    FourToThree(v0, v1, v2, v3);
    var rest := Decode(s[4..]).value;
    var b0: Byte, b1: Byte, b2: Byte := v0 * 4 + v1 / 16, v1 % 16 * 16 + v2 / 4, v2 % 4 * 64 + v3;
    var b := [b0] + ([b1] + ([b2] + rest));
    assert Decode(s) == Some(b);
    assert b[0] == b0 && b[1] == b1 && b[2] == b2 && b[3..] == rest;
    EncodeGroup(b);
  }
}
