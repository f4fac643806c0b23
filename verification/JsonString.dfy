/**
 String literals as `json.dumps` writes them: ASCII only, escaped by section 7 of RFC 8259,
 characters beyond the basic plane as surrogate pairs; and a reader for them.
 */
module JsonString {
  import opened Common

  function HexChar(d: nat): (c: char)
    requires d < 16
    ensures ' ' <= c <= '~' && c != '\"' && c != '\\'
  {
    if d < 10 then ('0' as int + d) as char else ('a' as int + d - 10) as char
  }

  function HexValue(c: char): (v: Option<nat>)
    ensures v.Some? ==> v.value < 16
  {
    if '0' <= c <= '9' then Some(c as int - '0' as int)
    else if 'a' <= c <= 'f' then Some(c as int - 'a' as int + 10)
    else if 'A' <= c <= 'F' then Some(c as int - 'A' as int + 10)
    else None
  }

  /** The escape `\uXXXX` of a code unit. */
  function Unit(n: nat): string
    requires n < 0x10000
  {
    ['\\', 'u', HexChar(n / 4096), HexChar(n / 256 % 16), HexChar(n / 16 % 16), HexChar(n % 16)]
  }

  /** The letter of a two-character escape. */
  function Short(c: char): Option<char> {
    if c == '\"' then Some('\"')
    else if c == '\\' then Some('\\')
    else if c == '\n' then Some('n')
    else if c == '\r' then Some('r')
    else if c == '\t' then Some('t')
    else if c == '\U{08}' then Some('b')
    else if c == '\U{0C}' then Some('f')
    else None
  }

  function Escape(c: char): (s: string)
    ensures s != [] && s[0] != '\"'
  {
    if Short(c).Some? then ['\\', Short(c).value]
    else if ' ' <= c <= '~' then [c]
    else
      var n := c as int;
      if n < 0x10000 then Unit(n)
      else Unit(0xd800 + (n - 0x10000) / 1024) + Unit(0xdc00 + (n - 0x10000) % 1024)
  }

  function Body(s: string): string { if s == [] then [] else Escape(s[0]) + Body(s[1..]) }

  /** `json.dumps(s)`. */
  function Quote(s: string): string { ['\"'] + Body(s) + ['\"'] }

  // ----- Reading -----

  /** The code unit of `\uXXXX` at the start of a text. */
  function ReadUnit(s: string): (u: Option<nat>)
    ensures u.Some? ==> u.value < 0x10000 && |s| >= 6
  {
    if |s| < 6 || s[0] != '\\' || s[1] != 'u' then None
    else
      var a, b, c, d := HexValue(s[2]), HexValue(s[3]), HexValue(s[4]), HexValue(s[5]);
      if a.Some? && b.Some? && c.Some? && d.Some?
      then Some(a.value * 4096 + b.value * 256 + c.value * 16 + d.value)
      else None
  }

  function LongForm(letter: char): Option<char> {
    if letter == '\"' then Some('\"')
    else if letter == '\\' then Some('\\')
    else if letter == '/' then Some('/')
    else if letter == 'n' then Some('\n')
    else if letter == 'r' then Some('\r')
    else if letter == 't' then Some('\t')
    else if letter == 'b' then Some('\U{08}')
    else if letter == 'f' then Some('\U{0C}')
    else None
  }

  /** One character of a literal, and the rest of the text. */
  function ReadChar(s: string): (r: Option<(char, string)>)
    ensures r.Some? ==> |r.value.1| < |s|
  {
    if s == [] || s[0] < ' ' then None
    else if s[0] != '\\' then Some((s[0], s[1..]))
    else if |s| >= 2 && LongForm(s[1]).Some? then Some((LongForm(s[1]).value, s[2..]))
    else
      match ReadUnit(s)
      case None => None
      case Some(u) =>
        if u < 0xd800 || u >= 0xe000 then Some((u as char, s[6..]))
        else
          match ReadUnit(s[6..])
          case None => None
          case Some(low) =>
            if u < 0xdc00 && 0xdc00 <= low < 0xe000
            then Some(((0x10000 + (u - 0xd800) * 1024 + (low - 0xdc00)) as char, s[12..]))
            else None
  }

  /** The characters up to the closing quote, and what follows it. */
  function ReadBody(s: string): (r: Option<(string, string)>)
    ensures r.Some? ==> |r.value.1| < |s|
    decreases |s|
  {
    if s == [] then None
    else if s[0] == '\"' then Some(([], s[1..]))
    else
      match ReadChar(s)
      case None => None
      case Some((c, rest)) =>
        var r := ReadBody(rest);
        if r.Some? then Some(([c] + r.value.0, r.value.1)) else None
  }

  function ReadString(s: string): (r: Option<(string, string)>)
    ensures r.Some? ==> |r.value.1| < |s|
  {
    if s == [] || s[0] != '\"' then None else ReadBody(s[1..])
  }

  // ----- Round trip -----

  lemma HexRoundTrip(d: nat)
    requires d < 16
    ensures HexValue(HexChar(d)) == Some(d)
  {
  }

  lemma UnitRoundTrip(n: nat, rest: string)
    requires n < 0x10000
    ensures ReadUnit(Unit(n) + rest) == Some(n) && (Unit(n) + rest)[6..] == rest
    ensures LongForm((Unit(n) + rest)[1]).None? && (Unit(n) + rest)[0] == '\\'
  {
    HexRoundTrip(n / 4096);
    HexRoundTrip(n / 256 % 16);
    HexRoundTrip(n / 16 % 16);
    HexRoundTrip(n % 16);
    assert n == n / 4096 * 4096 + n / 256 % 16 * 256 + n / 16 % 16 * 16 + n % 16 by {
      assert n / 16 / 16 == n / 256 && n / 256 / 16 == n / 4096;
    }
  }

  lemma PairArithmetic(n: nat)
    requires 0x10000 <= n < 0x110000
    ensures var m := n - 0x10000; 0x10000 + m / 1024 * 1024 + m % 1024 == n && m / 1024 < 1024
  {
  }

  lemma CharRoundTrip(c: char, rest: string)
    ensures ReadChar(Escape(c) + rest) == Some((c, rest))
  {
    var s, n := Escape(c) + rest, c as int;
    if Short(c).Some? {
      assert s[2..] == rest;
    } else if ' ' <= c <= '~' {
      assert s[1..] == rest;
    } else if n < 0x10000 {
      UnitRoundTrip(n, rest);
    } else {
      var high, low := 0xd800 + (n - 0x10000) / 1024, 0xdc00 + (n - 0x10000) % 1024;
      PairArithmetic(n);
      assert s == Unit(high) + (Unit(low) + rest);
      UnitRoundTrip(high, Unit(low) + rest);
      UnitRoundTrip(low, rest);
      assert s[12..] == s[6..][6..];
    }
  }

  lemma {:induction false} BodyRoundTrip(s: string, rest: string)
    ensures ReadBody(Body(s) + ['\"'] + rest) == Some((s, rest))
    decreases |s|
  {
    var tail := ['\"'] + rest;
    assert Body(s) + ['\"'] + rest == Body(s) + tail;
    if s == [] {
      assert Body(s) + tail == tail;
      assert tail[1..] == rest;
    } else {
      var more := Body(s[1..]) + ['\"'] + rest;
      assert Body(s) + tail == Escape(s[0]) + more;
      CharRoundTrip(s[0], more);
      BodyRoundTrip(s[1..], rest);
      assert s == [s[0]] + s[1..];
    }
  }

  /** Every string is read back from its literal, whatever follows. */
  lemma {:induction false} StringRoundTrip(s: string, rest: string)
    ensures ReadString(Quote(s) + rest) == Some((s, rest))
  {
    assert (Quote(s) + rest)[1..] == Body(s) + ['\"'] + rest;
    BodyRoundTrip(s, rest);
  }

  /** A literal is printable ASCII. */
  lemma {:induction false} QuoteIsAscii(s: string)
    ensures forall i :: 0 <= i < |Quote(s)| ==> ' ' <= Quote(s)[i] <= '~'
  {
    BodyIsAscii(s);
  }

  lemma {:induction false} BodyIsAscii(s: string)
    ensures forall i :: 0 <= i < |Body(s)| ==> ' ' <= Body(s)[i] <= '~'
  {
    if s != [] {
      BodyIsAscii(s[1..]);
    }
  }
}
