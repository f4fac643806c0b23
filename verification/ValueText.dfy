/**
 The two texts in which the source writes nested values: `json.dumps`, and the HCL of the Terraform
 exporter (core/terraform_export.py). Both are read back by one tokenising reader, which takes blanks,
 commas, colons and equal signs for mere separators.
 */
module ValueText {
  import opened Common
  import opened Text
  import opened Decimal
  import opened JsonString
  import opened PyValue

  /** A style, with `str(v)` for the values that are written through it. */
  datatype Style = Json(show: Show) | Hcl(show: Show)

  // ----- Printing -----

  predicate IdentStart(c: char) { IsLetter(c) || c == '_' }

  predicate IdentChar(c: char) { IdentStart(c) || IsDigit(c) }

  predicate Identifier(s: string) { s != [] && IdentStart(s[0]) && forall i :: 0 <= i < |s| ==> IdentChar(s[i]) }

  /** `_hcl_key`. */
  function HclKey(key: string): string {
    var text := Strip(key);
    if text != [] && Identifier(text) then text else Quote(text)
  }

  function KeyText(style: Style, key: string): string { if style.Json? then Quote(key) else HclKey(key) }

  function Pad(indent: nat): string { seq(2 * indent, _ => ' ') }

  /** What stands before an item, after an item of a list, between a key and its value, and before the
      closing bracket. */
  function Lead(style: Style, first: bool, indent: nat): string {
    if style.Hcl? then "\n" + Pad(indent + 1) else if first then "" else ", "
  }

  function Trail(style: Style): string { if style.Hcl? then "," else "" }

  function Between(style: Style): string { if style.Hcl? then " = " else ": " }

  function Closing(style: Style, indent: nat): string { if style.Hcl? then "\n" + Pad(indent) else "" }

  /** The texts of the floats that are not finite. */
  function SpecialText(style: Style, d: Double): string
    requires !d.Finite?
  {
    if style.Json? then if d.NotANumber? then "NaN" else if d.negative then "-Infinity" else "Infinity"
    else if d.NotANumber? then "nan" else if d.negative then "-inf" else "inf"
  }

  /** Values with brackets of their own; `json.dumps` writes tuples as lists. */
  predicate Bracketed(style: Style, v: Value) { v.List? || (v.Tuple? && style.Json?) || v.Dict? }

  /** `_hcl_value(v, indent)`, or `json.dumps(v, default=str)`. */
  function Print(style: Style, v: Value, indent: nat): string
    decreases v, Count(v) + 1
  {
    match v
    case Null => "null"
    case Bool(b) => if b then "true" else "false"
    case Int(i) => IntText(i)
    case Float(d) => if d.Finite? then d.repr else SpecialText(style, d)
    case Str(s) => Quote(s)
    case List(xs) => if xs == [] then "[]" else "[" + Items(style, v, 0, indent) + "]"
    case Tuple(xs) =>
      if style.Hcl? then Quote(style.show(v)) else if xs == [] then "[]" else "[" + Items(style, v, 0, indent) + "]"
    case Dict(es) => if es == [] then "{}" else "{" + Entries(style, v, 0, indent) + "}"
    case _ => Quote(style.show(v))
  }

  /** The items from the `k`-th on, with the layout around them. */
  function Items(style: Style, v: Value, k: nat, indent: nat): string
    requires (v.List? || v.Tuple?) && k <= |v.items|
    decreases v, |v.items| - k
  {
    if k == |v.items| then Closing(style, indent)
    else
      Lead(style, k == 0, indent) + Print(style, v.items[k], indent + 1) + Trail(style) + Items(style, v, k + 1, indent)
  }

  function Entries(style: Style, v: Value, k: nat, indent: nat): string
    requires v.Dict? && k <= |v.entries|
    decreases v, |v.entries| - k
  {
    if k == |v.entries| then Closing(style, indent)
    else
      Lead(style, k == 0, indent) + KeyText(style, v.entries[k].0) + Between(style)
      + Print(style, v.entries[k].1, indent + 1) + Entries(style, v, k + 1, indent)
  }

  /** `json.dumps(v, default=str)`. */
  function Dumps(show: Show, v: Value): string { Print(Json(show), v, 0) }

  // ----- Reading -----

  predicate Separator(c: char) { c == ' ' || c == '\n' || c == ',' || c == ':' || c == '=' }

  function Skip(s: string): (r: string)
    ensures |r| <= |s| && (r == [] || !Separator(r[0]))
  {
    if s != [] && Separator(s[0]) then Skip(s[1..]) else s
  }

  /** The longest run of number characters at the start, and the rest. */
  function TakeNumber(s: string): (r: (string, string))
    ensures s == r.0 + r.1 && (forall i :: 0 <= i < |r.0| ==> NumberChar(r.0[i])) && (r.1 == [] || !NumberChar(r.1[0]))
  {
    if s != [] && NumberChar(s[0]) then
      var (d, rest) := TakeNumber(s[1..]);
      ([s[0]] + d, rest)
    else ([], s)
  }

  function TakeIdent(s: string): (r: (string, string))
    ensures s == r.0 + r.1 && (forall i :: 0 <= i < |r.0| ==> IdentChar(r.0[i])) && (r.1 == [] || !IdentChar(r.1[0]))
  {
    if s != [] && IdentChar(s[0]) then
      var (d, rest) := TakeIdent(s[1..]);
      ([s[0]] + d, rest)
    else ([], s)
  }

  predicate IntLiteral(s: string) { s != [] && (AllDigits(s) || (s[0] == '-' && |s| > 1 && AllDigits(s[1..]))) }

  function LiteralInt(s: string): int
    requires IntLiteral(s)
  {
    if AllDigits(s) then DigitsValue(s) else 0 - DigitsValue(s[1..])
  }

  function ReadNumber(s: string): (r: Option<(Value, string)>)
    ensures r.Some? ==> |r.value.1| < |s|
  {
    var (run, rest) := TakeNumber(s);
    if IntLiteral(run) then Some((Int(LiteralInt(run)), rest))
    else if FloatLiteral(run) then Some((Float(Finite(run)), rest))
    else None
  }

  function ReadKey(s: string): (r: Option<(string, string)>)
    ensures r.Some? ==> |r.value.1| < |s|
  {
    if s == [] then None
    else if s[0] == '\"' then ReadString(s)
    else if IdentStart(s[0]) then Some(TakeIdent(s))
    else None
  }

  function ReadWord(s: string, word: string, v: Value): (r: Option<(Value, string)>)
    requires word != []
    ensures r.Some? ==> |r.value.1| < |s|
  {
    if word <= s then Some((v, s[|word|..])) else None
  }

  /** A scalar at the start of a text, and what follows it. */
  function ReadScalar(s: string): (r: Option<(Value, string)>)
    ensures r.Some? ==> |r.value.1| < |s|
  {
    if s == [] then None
    else if s[0] == '\"' then
      var t := ReadString(s);
      if t.Some? then Some((Str(t.value.0), t.value.1)) else None
    else if s[0] == 'n' then
      if |s| > 1 && s[1] == 'u' then ReadWord(s, "null", Null) else ReadWord(s, "nan", Float(NotANumber))
    else if s[0] == 't' then ReadWord(s, "true", Bool(true))
    else if s[0] == 'f' then ReadWord(s, "false", Bool(false))
    else if s[0] == 'N' then ReadWord(s, "NaN", Float(NotANumber))
    else if s[0] == 'i' then ReadWord(s, "inf", Float(Infinity(false)))
    else if s[0] == 'I' then ReadWord(s, "Infinity", Float(Infinity(false)))
    else if s[0] == '-' && |s| > 1 && s[1] == 'i' then ReadWord(s, "-inf", Float(Infinity(true)))
    else if s[0] == '-' && |s| > 1 && s[1] == 'I' then ReadWord(s, "-Infinity", Float(Infinity(true)))
    else ReadNumber(s)
  }

  /** A value at the start of a text, and what follows it. */
  function Read(s: string): (r: Option<(Value, string)>)
    ensures r.Some? ==> |r.value.1| < |s|
    decreases |s|, 0
  {
    if s != [] && s[0] == '[' then
      var t := ReadItems(s[1..]);
      if t.Some? then Some((List(t.value.0), t.value.1)) else None
    else if s != [] && s[0] == '{' then
      var t := ReadEntries(s[1..]);
      if t.Some? then Some((Dict(t.value.0), t.value.1)) else None
    else ReadScalar(s)
  }

  function ReadItems(s: string): (r: Option<(seq<Value>, string)>)
    ensures r.Some? ==> |r.value.1| < |s|
    decreases |s|, 1
  {
    var t := Skip(s);
    if t == [] then None
    else if t[0] == ']' then Some(([], t[1..]))
    else
      match Read(t)
      case None => None
      case Some((v, rest)) =>
        var more := ReadItems(rest);
        if more.Some? then Some(([v] + more.value.0, more.value.1)) else None
  }

  function ReadEntries(s: string): (r: Option<(seq<(string, Value)>, string)>)
    ensures r.Some? ==> |r.value.1| < |s|
    decreases |s|, 1
  {
    var t := Skip(s);
    if t == [] then None
    else if t[0] == '}' then Some(([], t[1..]))
    else
      match ReadKey(t)
      case None => None
      case Some((key, afterKey)) =>
        match Read(Skip(afterKey))
        case None => None
        case Some((v, rest)) =>
          var more := ReadEntries(rest);
          if more.Some? then Some(([(key, v)] + more.value.0, more.value.1)) else None
  }

  /** The value of a whole text. */
  function Parse(s: string): Option<Value> {
    var r := Read(s);
    if r.Some? && r.value.1 == [] then Some(r.value.0) else None
  }

  // ----- Round trip -----

  function KeySeen(style: Style, key: string): string { if style.Hcl? then Strip(key) else key }

  /** What the text of a value stands for: HCL strips the keys and writes tuples through `str`, JSON turns
      tuples into lists, and both write values of other types through `str`. */
  function Seen(style: Style, v: Value): Value {
    match v
    case List(xs) => List(seq(|xs|, i requires 0 <= i < |xs| => Seen(style, xs[i])))
    case Tuple(xs) =>
      if style.Hcl? then Str(style.show(v)) else List(seq(|xs|, i requires 0 <= i < |xs| => Seen(style, xs[i])))
    case Dict(es) => Dict(seq(|es|, i requires 0 <= i < |es| => (KeySeen(style, es[i].0), Seen(style, es[i].1))))
    case Bytes(_) => Str(style.show(v))
    case Other(_, _) => Str(style.show(v))
    case _ => v
  }

  /** The values that survive: no bytes, tuples or objects of other types, and in HCL no blanks around keys. */
  predicate Printable(style: Style, v: Value) {
    match v
    case Bytes(_) => false
    case Tuple(_) => false
    case Other(_, _) => false
    case List(xs) => forall i :: 0 <= i < |xs| ==> Printable(style, xs[i])
    case Dict(es) => forall i :: 0 <= i < |es| ==> KeySeen(style, es[i].0) == es[i].0 && Printable(style, es[i].1)
    case _ => true
  }

  predicate Separators(s: string) { forall i :: 0 <= i < |s| ==> Separator(s[i]) }

  lemma {:induction false} SkipSeparators(a: string, b: string)
    requires Separators(a) && (b == [] || !Separator(b[0]))
    ensures Skip(a + b) == b
    decreases |a|
  {
    if a == [] {
      assert a + b == b;
    } else {
      assert (a + b)[1..] == a[1..] + b;
      SkipSeparators(a[1..], b);
    }
  }

  lemma LayoutIsSeparators(style: Style, first: bool, indent: nat)
    ensures Separators(Lead(style, first, indent)) && Separators(Trail(style))
    ensures Separators(Between(style)) && Separators(Closing(style, indent))
  {
  }

  /** A token does not start with a separator or a closing bracket. */
  predicate Opens(s: string) { s != [] && !Separator(s[0]) && s[0] != ']' && s[0] != '}' }

  lemma PrintOpens(style: Style, v: Value, indent: nat)
    ensures Opens(Print(style, v, indent))
  {
    if v.Int? && v.number >= 0 {
      assert IsDigit(Digits(v.number)[0]);
    }
  }

  lemma KeyOpens(style: Style, key: string)
    ensures Opens(KeyText(style, key))
  {
  }

  lemma {:induction false} TakeNumberOf(d: string, rest: string)
    requires (forall i :: 0 <= i < |d| ==> NumberChar(d[i])) && (rest == [] || !NumberChar(rest[0]))
    ensures TakeNumber(d + rest) == (d, rest)
    decreases |d|
  {
    if d == [] {
      assert d + rest == rest;
    } else {
      assert (d + rest)[1..] == d[1..] + rest;
      TakeNumberOf(d[1..], rest);
      assert d == [d[0]] + d[1..];
    }
  }

  lemma {:induction false} TakeIdentOf(d: string, rest: string)
    requires (forall i :: 0 <= i < |d| ==> IdentChar(d[i])) && (rest == [] || !IdentChar(rest[0]))
    ensures TakeIdent(d + rest) == (d, rest)
    decreases |d|
  {
    if d == [] {
      assert d + rest == rest;
    } else {
      assert (d + rest)[1..] == d[1..] + rest;
      TakeIdentOf(d[1..], rest);
      assert d == [d[0]] + d[1..];
    }
  }

  /** A number text that starts with a digit, or with a minus and a digit, is read as a number. */
  lemma ReadsNumber(d: string, rest: string)
    requires d != [] && (IsDigit(d[0]) || (d[0] == '-' && |d| > 1 && IsDigit(d[1])))
    requires (forall i :: 0 <= i < |d| ==> NumberChar(d[i])) && (rest == [] || !NumberChar(rest[0]))
    ensures ReadScalar(d + rest)
         == if IntLiteral(d) then Some((Int(LiteralInt(d)), rest))
            else if FloatLiteral(d) then Some((Float(Finite(d)), rest)) else None
  {
    var s := d + rest;
    TakeNumberOf(d, rest);
    assert s[0] == d[0] && (|d| > 1 ==> s[1] == d[1]);
    assert ReadScalar(s) == ReadNumber(s);
  }

  lemma IntegerText(i: int)
    ensures var s := IntText(i);
            && IntLiteral(s) && LiteralInt(s) == i && (IsDigit(s[0]) || (s[0] == '-' && |s| > 1 && IsDigit(s[1])))
            && forall k :: 0 <= k < |s| ==> NumberChar(s[k])
  {
    var n: nat := if i < 0 then -i else i;
    var d := Digits(n);
    DigitsRoundTrip(n);
    if i < 0 {
      assert IntText(i)[1..] == d && !IsDigit(IntText(i)[0]);
    }
  }

  lemma NumberRoundTrip(v: Value, rest: string)
    requires v.Int? || (v.Float? && v.double.Finite?)
    requires rest == [] || !NumberChar(rest[0])
    ensures ReadScalar((if v.Int? then IntText(v.number) else v.double.repr) + rest) == Some((v, rest))
  {
    if v.Int? {
      IntegerText(v.number);
      ReadsNumber(IntText(v.number), rest);
    } else {
      var d := v.double.repr;
      FloatIsNotInt(d);
      ReadsNumber(d, rest);
    }
  }

  lemma FloatIsNotInt(d: string)
    requires FloatLiteral(d)
    ensures !IntLiteral(d)
  {
    var i :| 0 <= i < |d| && (d[i] == '.' || d[i] == 'e');
    assert i > 0 ==> d[1..][i - 1] == d[i];
  }

  lemma KeyRoundTrip(style: Style, key: string, rest: string)
    requires rest != [] && !IdentChar(rest[0])
    ensures ReadKey(KeyText(style, key) + rest) == Some((KeySeen(style, key), rest))
  {
    var seen := KeySeen(style, key);
    if style.Hcl? && Identifier(seen) {
      TakeIdentOf(seen, rest);
    } else {
      StringRoundTrip(seen, rest);
    }
  }

  lemma WordRoundTrip(style: Style, v: Value, indent: nat, rest: string)
    requires v.Null? || v.Bool? || (v.Float? && !v.double.Finite?)
    ensures ReadScalar(Print(style, v, indent) + rest) == Some((v, rest))
  {
    var w := Print(style, v, indent);
    assert w <= w + rest && (w + rest)[|w|..] == rest && (w + rest)[0] == w[0] && (w + rest)[1] == w[1];
  }

  lemma QuotedRoundTrip(text: string, rest: string)
    ensures ReadScalar(Quote(text) + rest) == Some((Str(text), rest))
  {
    StringRoundTrip(text, rest);
  }

  lemma ScalarRoundTrip(style: Style, v: Value, indent: nat, rest: string)
    requires !Bracketed(style, v)
    requires rest == [] || !NumberChar(rest[0])
    ensures ReadScalar(Print(style, v, indent) + rest) == Some((Seen(style, v), rest))
  {
    hide ReadScalar, Quote, NumberChar;
    match v {
      case Int(i) => NumberRoundTrip(v, rest);
      case Float(d) =>
        if d.Finite? {
          NumberRoundTrip(v, rest);
        } else {
          WordRoundTrip(style, v, indent, rest);
        }
      case Str(s) => QuotedRoundTrip(s, rest);
      case Null => WordRoundTrip(style, v, indent, rest);
      case Bool(_) => WordRoundTrip(style, v, indent, rest);
      case _ => QuotedRoundTrip(style.show(v), rest);
    }
  }

  lemma ScalarHasNoBracket(style: Style, v: Value, indent: nat)
    requires !Bracketed(style, v)
    ensures var s := Print(style, v, indent); s != [] && s[0] != '[' && s[0] != '{'
  {
    if v.Int? {
      IntegerText(v.number);
    }
  }

  lemma ReadsScalar(s: string)
    requires s != [] && s[0] != '[' && s[0] != '{'
    ensures Read(s) == ReadScalar(s)
  {
  }

  function SeenItems(style: Style, v: Value): (r: seq<Value>)
    requires v.List? || v.Tuple?
    ensures |r| == |v.items| && forall i :: 0 <= i < |r| ==> r[i] == Seen(style, v.items[i])
  {
    seq(|v.items|, i requires 0 <= i < |v.items| => Seen(style, v.items[i]))
  }

  function SeenEntries(style: Style, v: Value): (r: seq<(string, Value)>)
    requires v.Dict?
    ensures |r| == |v.entries|
    ensures forall i :: 0 <= i < |r| ==> r[i] == (KeySeen(style, v.entries[i].0), Seen(style, v.entries[i].1))
  {
    seq(|v.entries|, i requires 0 <= i < |v.entries| => (KeySeen(style, v.entries[i].0), Seen(style, v.entries[i].1)))
  }

  lemma SeenBrackets(style: Style, v: Value)
    requires Bracketed(style, v)
    ensures v.Dict? ==> Seen(style, v) == Dict(SeenEntries(style, v))
    ensures !v.Dict? ==> Seen(style, v) == List(SeenItems(style, v))
  {
  }

  /** Every value is read back as what its text stands for, at any indent and whatever follows. */
  lemma {:induction false} PrintRoundTrip(style: Style, v: Value, indent: nat, rest: string)
    requires rest == [] || !NumberChar(rest[0])
    ensures Read(Print(style, v, indent) + rest) == Some((Seen(style, v), rest))
    decreases v, Count(v) + 1
  {
    hide Read, ReadItems, ReadEntries, Skip, ReadScalar, Seen;
    if !Bracketed(style, v) {
      ScalarRoundTrip(style, v, indent, rest);
      ScalarHasNoBracket(style, v, indent);
      ReadsScalar(Print(style, v, indent) + rest);
    } else if v.Dict? {
      SeenBrackets(style, v);
      if v.entries == [] {
        EmptyRoundTrip(rest);
      } else {
        EntriesRoundTrip(style, v, 0, indent, rest);
        DictBrackets(style, v, indent, rest);
      }
    } else {
      SeenBrackets(style, v);
      if v.items == [] {
        EmptyRoundTrip(rest);
      } else {
        ItemsRoundTrip(style, v, 0, indent, rest);
        ListBrackets(style, v, indent, rest);
      }
    }
  }

  lemma EmptyRoundTrip(rest: string)
    ensures Read("[]" + rest) == Some((List([]), rest))
    ensures Read("{}" + rest) == Some((Dict([]), rest))
  {
    var s, t := [']'] + rest, ['}'] + rest;
    assert s[1..] == rest && t[1..] == rest;
    assert Skip(s) == s && Skip(t) == t;
    assert ("[]" + rest)[1..] == s && ("{}" + rest)[1..] == t;
    assert ReadItems(s) == Some(([], rest));
    assert ReadEntries(t) == Some(([], rest));
  }

  lemma ListBrackets(style: Style, v: Value, indent: nat, rest: string)
    requires Bracketed(style, v) && !v.Dict? && v.items != []
    requires ReadItems(Items(style, v, 0, indent) + ("]" + rest)) == Some((SeenItems(style, v)[0..], rest))
    ensures Read(Print(style, v, indent) + rest) == Some((List(SeenItems(style, v)), rest))
  {
    hide Read, ReadItems, ReadEntries, Skip, Lead, Trail, Closing, SeenItems;
    var inside := Items(style, v, 0, indent) + ("]" + rest);
    assert Print(style, v, indent) + rest == "[" + inside;
    ReadsList(inside);
    assert SeenItems(style, v)[0..] == SeenItems(style, v);
  }

  lemma DictBrackets(style: Style, v: Value, indent: nat, rest: string)
    requires v.Dict? && v.entries != []
    requires ReadEntries(Entries(style, v, 0, indent) + ("}" + rest)) == Some((SeenEntries(style, v)[0..], rest))
    ensures Read(Print(style, v, indent) + rest) == Some((Dict(SeenEntries(style, v)), rest))
  {
    hide Read, ReadItems, ReadEntries, Skip, Lead, Closing, Between, KeyText, SeenEntries;
    var inside := Entries(style, v, 0, indent) + ("}" + rest);
    assert Print(style, v, indent) + rest == "{" + inside;
    ReadsDict(inside);
    assert SeenEntries(style, v)[0..] == SeenEntries(style, v);
  }

  lemma ReadsList(inside: string)
    ensures Read("[" + inside)
            == var t := ReadItems(inside); if t.Some? then Some((List(t.value.0), t.value.1)) else None
  {
    assert ("[" + inside)[1..] == inside;
  }

  lemma ReadsDict(inside: string)
    ensures Read("{" + inside)
            == var t := ReadEntries(inside); if t.Some? then Some((Dict(t.value.0), t.value.1)) else None
  {
    assert ("{" + inside)[1..] == inside;
  }

  lemma ClosingRoundTrip(style: Style, indent: nat, bracket: char, rest: string)
    requires bracket == ']' || bracket == '}'
    ensures Skip(Closing(style, indent) + ([bracket] + rest)) == [bracket] + rest && ([bracket] + rest)[1..] == rest
  {
    LayoutIsSeparators(style, true, indent);
    SkipSeparators(Closing(style, indent), [bracket] + rest);
  }

  /** What follows an item or an entry starts with a separator or a bracket, so a number ends there. */
  lemma ItemTailStops(style: Style, v: Value, k: nat, indent: nat, rest: string)
    requires (v.List? || v.Tuple?) && 0 < k <= |v.items|
    ensures var tail := Trail(style) + (Items(style, v, k, indent) + ("]" + rest)); tail != [] && !NumberChar(tail[0])
  {
  }

  lemma EntryTailStops(style: Style, v: Value, k: nat, indent: nat, rest: string)
    requires v.Dict? && 0 < k <= |v.entries|
    ensures var tail := Entries(style, v, k, indent) + ("}" + rest); tail != [] && !NumberChar(tail[0])
  {
    assert k < |v.entries| ==> Lead(style, false, indent) != [] && !NumberChar(Lead(style, false, indent)[0]);
  }

  /** The reader takes one item off, whatever separators stand around it. */
  lemma ReadItemsStep(before: string, text: string, after: string, more: string, x: Value, xs: seq<Value>, rest: string)
    requires Separators(before) && Separators(after) && Opens(text)
    requires Read(text + (after + more)) == Some((x, after + more))
    requires ReadItems(more) == Some((xs, rest))
    ensures ReadItems(before + (text + (after + more))) == Some(([x] + xs, rest))
  {
    SkipSeparators(before, text + (after + more));
    ReadItemsSkips(after, more);
  }

  lemma ReadEntriesStep(before: string, keyText: string, between: string, text: string, more: string,
                        key: string, x: Value, es: seq<(string, Value)>, rest: string)
    requires Separators(before) && Separators(between) && Opens(keyText) && Opens(text)
    requires ReadKey(keyText + (between + (text + more))) == Some((key, between + (text + more)))
    requires Read(text + more) == Some((x, more))
    requires ReadEntries(more) == Some((es, rest))
    ensures ReadEntries(before + (keyText + (between + (text + more)))) == Some(([(key, x)] + es, rest))
  {
    SkipSeparators(before, keyText + (between + (text + more)));
    SkipSeparators(between, text + more);
  }

  lemma ItemsEnd(style: Style, v: Value, indent: nat, rest: string)
    requires v.List? || v.Tuple?
    ensures ReadItems(Items(style, v, |v.items|, indent) + ("]" + rest)) == Some(([], rest))
  {
    ClosingRoundTrip(style, indent, ']', rest);
    assert [']'] + rest == "]" + rest;
    assert ReadItems(Closing(style, indent) + ("]" + rest)) == Some(([], rest));
  }

  /** The same on the text of all items from one on. */
  lemma ItemsStep(before: string, text: string, after: string, later: string, all: string,
                  x: Value, xs: seq<Value>, rest: string)
    requires all == before + text + after + later
    requires Separators(before) && Separators(after) && Opens(text)
    requires Read(text + (after + (later + ("]" + rest)))) == Some((x, after + (later + ("]" + rest))))
    requires ReadItems(later + ("]" + rest)) == Some((xs, rest))
    ensures ReadItems(all + ("]" + rest)) == Some(([x] + xs, rest))
  {
    hide Read, ReadItems, Skip;
    Regroup(before, text, after, later, "]" + rest);
    ReadItemsStep(before, text, after, later + ("]" + rest), x, xs, rest);
  }

  lemma EntriesStep(before: string, keyText: string, between: string, text: string, later: string, all: string,
                    key: string, x: Value, es: seq<(string, Value)>, rest: string)
    requires all == before + keyText + between + text + later
    requires Separators(before) && Separators(between) && Opens(keyText) && Opens(text)
    requires var more := later + ("}" + rest);
             && ReadKey(keyText + (between + (text + more))) == Some((key, between + (text + more)))
             && Read(text + more) == Some((x, more))
             && ReadEntries(more) == Some((es, rest))
    ensures ReadEntries(all + ("}" + rest)) == Some(([(key, x)] + es, rest))
  {
    hide Read, ReadEntries, Skip, ReadKey;
    var more := later + ("}" + rest);
    RegroupFive(before, keyText, between, text, later, "}" + rest);
    ReadEntriesStep(before, keyText, between, text, more, key, x, es, rest);
  }

  lemma RegroupFive(a: string, b: string, c: string, d: string, e: string, f: string)
    ensures a + b + c + d + e + f == a + (b + (c + (d + (e + f))))
  {
  }

  lemma Regroup(a: string, b: string, c: string, d: string, e: string)
    ensures a + b + c + d + e == a + (b + (c + (d + e)))
  {
  }

  lemma {:induction false} ItemsRoundTrip(style: Style, v: Value, k: nat, indent: nat, rest: string)
    requires (v.List? || v.Tuple?) && k <= |v.items|
    ensures ReadItems(Items(style, v, k, indent) + ("]" + rest)) == Some((SeenItems(style, v)[k..], rest))
    decreases v, |v.items| - k
  {
    hide Read, ReadItems, ReadEntries, Skip, Seen;
    if k == |v.items| {
      ItemsEnd(style, v, indent, rest);
      assert SeenItems(style, v)[k..] == [];
    } else {
      ItemTailStops(style, v, k + 1, indent, rest);
      PrintRoundTrip(style, v.items[k], indent + 1, Trail(style) + (Items(style, v, k + 1, indent) + ("]" + rest)));
      ItemsRoundTrip(style, v, k + 1, indent, rest);
      ItemStep(style, v, k, indent, SeenItems(style, v), rest);
    }
  }

  lemma ItemStep(style: Style, v: Value, k: nat, indent: nat, xs: seq<Value>, rest: string)
    requires (v.List? || v.Tuple?) && k < |v.items| == |xs|
    requires var more := Items(style, v, k + 1, indent) + ("]" + rest);
             && Read(Print(style, v.items[k], indent + 1) + (Trail(style) + more)) == Some((xs[k], Trail(style) + more))
             && ReadItems(more) == Some((xs[k + 1..], rest))
    ensures ReadItems(Items(style, v, k, indent) + ("]" + rest)) == Some((xs[k..], rest))
  {
    hide Read, ReadItems, ReadEntries, Skip, Lead, Trail, Closing;
    LayoutIsSeparators(style, k == 0, indent);
    PrintOpens(style, v.items[k], indent + 1);
    ItemsStep(Lead(style, k == 0, indent), Print(style, v.items[k], indent + 1), Trail(style),
              Items(style, v, k + 1, indent), Items(style, v, k, indent), xs[k], xs[k + 1..], rest);
    assert xs[k..] == [xs[k]] + xs[k + 1..];
  }

  lemma {:induction false} SkipIsIdempotent(a: string, b: string)
    requires Separators(a)
    ensures Skip(a + b) == Skip(b)
    decreases |a|
  {
    if a == [] {
      assert a + b == b;
    } else {
      assert (a + b)[1..] == a[1..] + b;
      SkipIsIdempotent(a[1..], b);
    }
  }

  lemma ReadItemsSkips(a: string, b: string)
    requires Separators(a)
    ensures ReadItems(a + b) == ReadItems(b)
  {
    SkipIsIdempotent(a, b);
  }

  lemma EntriesEnd(style: Style, v: Value, indent: nat, rest: string)
    requires v.Dict?
    ensures ReadEntries(Entries(style, v, |v.entries|, indent) + ("}" + rest)) == Some(([], rest))
  {
    ClosingRoundTrip(style, indent, '}', rest);
    assert ['}'] + rest == "}" + rest;
    assert ReadEntries(Closing(style, indent) + ("}" + rest)) == Some(([], rest));
  }

  lemma {:induction false} EntriesRoundTrip(style: Style, v: Value, k: nat, indent: nat, rest: string)
    requires v.Dict? && k <= |v.entries|
    ensures ReadEntries(Entries(style, v, k, indent) + ("}" + rest)) == Some((SeenEntries(style, v)[k..], rest))
    decreases v, |v.entries| - k
  {
    hide Read, ReadItems, ReadEntries, Skip, Seen, KeySeen, NumberChar, KeyText;
    if k == |v.entries| {
      EntriesEnd(style, v, indent, rest);
      assert SeenEntries(style, v)[k..] == [];
    } else {
      EntryTailStops(style, v, k + 1, indent, rest);
      PrintRoundTrip(style, v.entries[k].1, indent + 1, Entries(style, v, k + 1, indent) + ("}" + rest));
      EntriesRoundTrip(style, v, k + 1, indent, rest);
      EntryStep(style, v, k, indent, SeenEntries(style, v), rest);
    }
  }

  /** The text of the `k`-th key, which is read back whatever value text follows. */
  lemma EntryKey(style: Style, v: Value, k: nat, indent: nat, tail: string) returns (keyText: string)
    requires v.Dict? && k < |v.entries|
    ensures Entries(style, v, k, indent)
         == Lead(style, k == 0, indent) + keyText + Between(style)
            + Print(style, v.entries[k].1, indent + 1) + Entries(style, v, k + 1, indent)
    ensures Opens(keyText)
    ensures ReadKey(keyText + (Between(style) + tail)) == Some((KeySeen(style, v.entries[k].0), Between(style) + tail))
  {
    keyText := KeyText(style, v.entries[k].0);
    KeyOpens(style, v.entries[k].0);
    KeyRoundTrip(style, v.entries[k].0, Between(style) + tail);
  }

  lemma EntryStep(style: Style, v: Value, k: nat, indent: nat, es: seq<(string, Value)>, rest: string)
    requires v.Dict? && k < |v.entries| == |es| && es[k].0 == KeySeen(style, v.entries[k].0)
    requires var more := Entries(style, v, k + 1, indent) + ("}" + rest);
             && Read(Print(style, v.entries[k].1, indent + 1) + more) == Some((es[k].1, more))
             && ReadEntries(more) == Some((es[k + 1..], rest))
    ensures ReadEntries(Entries(style, v, k, indent) + ("}" + rest)) == Some((es[k..], rest))
  {
    hide Read, ReadItems, ReadEntries, Skip, Lead, Between, Closing, KeyText, KeySeen;
    var text, later := Print(style, v.entries[k].1, indent + 1), Entries(style, v, k + 1, indent);
    var keyText := EntryKey(style, v, k, indent, text + (later + ("}" + rest)));
    LayoutIsSeparators(style, k == 0, indent);
    PrintOpens(style, v.entries[k].1, indent + 1);
    EntriesStep(Lead(style, k == 0, indent), keyText, Between(style), text, later,
                Entries(style, v, k, indent), es[k].0, es[k].1, es[k + 1..], rest);
    assert es[k] == (es[k].0, es[k].1);
    assert es[k..] == [es[k]] + es[k + 1..];
  }

  /** The main theorem: parsing the text of any value gives what the text stands for. */
  lemma {:induction false} ParsePrint(style: Style, v: Value, indent: nat)
    ensures Parse(Print(style, v, indent)) == Some(Seen(style, v))
  {
    PrintRoundTrip(style, v, indent, []);
    assert Print(style, v, indent) + [] == Print(style, v, indent);
  }

  lemma {:induction false} SeenIff(style: Style, v: Value)
    ensures Seen(style, v) == v <==> Printable(style, v)
  {
    match v {
      case List(xs) =>
        forall i | 0 <= i < |xs| ensures Seen(style, xs[i]) == xs[i] <==> Printable(style, xs[i]) {
          SeenIff(style, xs[i]);
        }
        ItemsSame(style, v);
      case Dict(es) =>
        forall i | 0 <= i < |es| ensures Seen(style, es[i].1) == es[i].1 <==> Printable(style, es[i].1) {
          SeenIff(style, es[i].1);
        }
        EntriesSame(style, v);
      case _ =>
    }
  }

  lemma ItemsSame(style: Style, v: Value)
    requires v.List? && forall i :: 0 <= i < |v.items| ==>
            (Seen(style, v.items[i]) == v.items[i] <==> Printable(style, v.items[i]))
    ensures Seen(style, v) == v <==> Printable(style, v)
  {
    SeenBrackets(style, v);
    var seen := SeenItems(style, v);
    hide Seen;
    if Printable(style, v) {
      assert seen == v.items;
    } else {
      var i :| 0 <= i < |v.items| && !Printable(style, v.items[i]);
      assert seen[i] != v.items[i];
    }
  }

  lemma EntriesSame(style: Style, v: Value)
    requires v.Dict?
    requires forall i :: 0 <= i < |v.entries| ==>
               (Seen(style, v.entries[i].1) == v.entries[i].1 <==> Printable(style, v.entries[i].1))
    ensures Seen(style, v) == v <==> Printable(style, v)
  {
    SeenBrackets(style, v);
    var seen := SeenEntries(style, v);
    hide Seen, KeySeen;
    if Printable(style, v) {
      forall i | 0 <= i < |seen| ensures seen[i] == v.entries[i] {
        assert v.entries[i] == (v.entries[i].0, v.entries[i].1);
      }
      assert seen == v.entries;
    } else {
      var i :| 0 <= i < |v.entries| &&
        !(KeySeen(style, v.entries[i].0) == v.entries[i].0 && Printable(style, v.entries[i].1));
      assert seen[i] != v.entries[i];
    }
  }

  /** The exact condition of the round trip: nothing in the value is written through `str`, and in HCL no
      key has blanks around it. */
  lemma {:induction false} RoundTripIff(style: Style, v: Value, indent: nat)
    ensures Parse(Print(style, v, indent)) == Some(v) <==> Printable(style, v)
  {
    ParsePrint(style, v, indent);
    SeenIff(style, v);
  }

  /** So no text stands for two values that survive. */
  lemma {:induction false} PrintIsInjective(style: Style, v: Value, i: nat, w: Value, j: nat)
    requires Printable(style, v) && Printable(style, w)
    requires Print(style, v, i) == Print(style, w, j)
    ensures v == w
  {
    RoundTripIff(style, v, i);
    RoundTripIff(style, w, j);
  }

  lemma KeyTextOfSeen(style: Style, key: string)
    ensures KeyText(style, KeySeen(style, key)) == KeyText(style, key)
  {
    if Strip(key) != [] {
      NothingToStrip(Strip(key));
    }
  }

  /** A value is written as what its text stands for is written. */
  lemma {:induction false} PrintOfSeen(style: Style, v: Value, indent: nat)
    ensures Print(style, Seen(style, v), indent) == Print(style, v, indent)
    decreases v, Count(v) + 1
  {
    if Bracketed(style, v) {
      SeenBrackets(style, v);
      if v.Dict? {
        EntriesOfSeen(style, v, 0, indent);
      } else {
        ItemsOfSeen(style, v, 0, indent);
      }
    }
  }

  lemma {:induction false} ItemsOfSeen(style: Style, v: Value, k: nat, indent: nat)
    requires (v.List? || v.Tuple?) && k <= |v.items|
    ensures Items(style, List(SeenItems(style, v)), k, indent) == Items(style, v, k, indent)
    decreases v, |v.items| - k
  {
    hide Print, Lead, Trail, Closing, Seen;
    if k < |v.items| {
      PrintOfSeen(style, v.items[k], indent + 1);
      ItemsOfSeen(style, v, k + 1, indent);
    }
  }

  lemma {:induction false} EntriesOfSeen(style: Style, v: Value, k: nat, indent: nat)
    requires v.Dict? && k <= |v.entries|
    ensures Entries(style, Dict(SeenEntries(style, v)), k, indent) == Entries(style, v, k, indent)
    decreases v, |v.entries| - k
  {
    hide Print, Lead, Between, Closing, Seen;
    if k < |v.entries| {
      KeyTextOfSeen(style, v.entries[k].0);
      PrintOfSeen(style, v.entries[k].1, indent + 1);
      EntriesOfSeen(style, v, k + 1, indent);
      hide KeyText, KeySeen;
    }
  }

  /** Two values have one text exactly when they stand for the same: in HCL, when they agree once all keys
      are stripped and everything else is replaced by its `str`. */
  lemma {:induction false} PrintsAlikeIff(style: Style, v: Value, w: Value, indent: nat)
    ensures Print(style, v, indent) == Print(style, w, indent) <==> Seen(style, v) == Seen(style, w)
  {
    ParsePrint(style, v, indent);
    ParsePrint(style, w, indent);
    PrintOfSeen(style, v, indent);
    PrintOfSeen(style, w, indent);
  }

  /** What `json.loads` returns survives `json.dumps`. */
  lemma {:induction false} JsonIsPrintable(show: Show, v: Value)
    ensures IsJson(v) <==> Printable(Json(show), v)
  {
    match v {
      case List(xs) =>
        forall i | 0 <= i < |xs| ensures IsJson(xs[i]) <==> Printable(Json(show), xs[i]) {
          JsonIsPrintable(show, xs[i]);
        }
      case Dict(es) =>
        forall i | 0 <= i < |es| ensures IsJson(es[i].1) <==> Printable(Json(show), es[i].1) {
          JsonIsPrintable(show, es[i].1);
        }
      case _ =>
    }
  }
}
