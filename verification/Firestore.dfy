/**
 The Firestore typed-value converters (core/gcp_firestore_emulator.py): Python values to documents
 in which every value is a dict with one type tag, and back.
 */
module Firestore {
  import opened Common
  import opened Base64
  import opened Decimal
  import opened PyValue

  /** The type tags, in the order in which `_from_typed` looks for them. */
  datatype Tag = StringTag | IntegerTag | DoubleTag | BooleanTag | NullTag | TimestampTag | BytesTag | ArrayTag | MapTag
               | GeoPointTag | ReferenceTag

  const ORDER := [StringTag, IntegerTag, DoubleTag, BooleanTag, NullTag, TimestampTag, BytesTag, ArrayTag, MapTag,
                  GeoPointTag, ReferenceTag]

  function Key(t: Tag): string {
    match t
    case StringTag => "stringValue"
    case IntegerTag => "integerValue"
    case DoubleTag => "doubleValue"
    case BooleanTag => "booleanValue"
    case NullTag => "nullValue"
    case TimestampTag => "timestampValue"
    case BytesTag => "bytesValue"
    case ArrayTag => "arrayValue"
    case MapTag => "mapValue"
    case GeoPointTag => "geoPointValue"
    case ReferenceTag => "referenceValue"
  }

  const VALUES := "values"
  const FIELDS := "fields"

  function Tagged(t: Tag, v: Value): Value { Dict([(Key(t), v)]) }

  // ----- Python to typed -----

  /** `_to_typed(v)`; what is none of its types is written through `str`. */
  function ToTyped(show: Show, v: Value): Value {
    match v
    case Null => Tagged(NullTag, Null)
    case Bool(b) => Tagged(BooleanTag, v)
    case Int(i) => Tagged(IntegerTag, Str(IntText(i)))
    case Float(x) => Tagged(DoubleTag, v)
    case Str(s) => Tagged(StringTag, v)
    case Bytes(b) => Tagged(BytesTag, Str(Encode(b)))
    case List(xs) =>
      Tagged(ArrayTag, Dict([(VALUES, List(seq(|xs|, i requires 0 <= i < |xs| => ToTyped(show, xs[i]))))]))
    case Dict(es) =>
      Tagged(MapTag, Dict([(FIELDS, Dict(seq(|es|, i requires 0 <= i < |es| => (es[i].0, ToTyped(show, es[i].1)))))]))
    case Tuple(_) => Tagged(StringTag, Str(show(v)))
    case Other(_, iso) => if iso.Some? then Tagged(TimestampTag, Str(iso.value)) else Tagged(StringTag, Str(show(v)))
  }

  // ----- Typed to Python -----

  /** The first tag of `tags` that a dict has, and its value. */
  function FindTag(es: seq<(string, Value)>, tags: seq<Tag>): (r: Option<(Tag, Value)>)
    ensures r.Some? ==> exists i :: 0 <= i < |es| && es[i] == (Key(r.value.0), r.value.1)
  {
    if tags == [] then None
    else if Lookup(es, Key(tags[0])).Some? then Some((tags[0], Lookup(es, Key(tags[0])).value))
    else FindTag(es, tags[1..])
  }

  /** Python's conversions of finite floats, and of integers and texts to floats; nothing where they raise. */
  datatype Conversions = Conversions(truncate: Literal -> int, ofInt: int -> Option<Double>,
    ofText: string -> Option<Double>)

  /** `int(v)`, with 0 for a type or value error; an infinity raises another error. */
  function AsInt(py: Conversions, v: Value): Result<Value> {
    match v
    case Str(s) => Ok(Int(if ReadInt(s).Some? then ReadInt(s).value else 0))
    case Int(i) => Ok(v)
    case Bool(b) => Ok(Int(if b then 1 else 0))
    case Float(x) =>
      if x.Infinity? then Raised else Ok(Int(if x.Finite? then py.truncate(x.repr) else 0))
    case _ => Ok(Int(0))
  }

  function OptionalFloat(x: Option<Double>): Result<Value> { if x.Some? then Ok(Float(x.value)) else Raised }

  /** `float(v)`. */
  function AsFloat(py: Conversions, v: Value): Result<Value> {
    match v
    case Float(x) => Ok(v)
    case Int(i) => OptionalFloat(py.ofInt(i))
    case Bool(b) => OptionalFloat(py.ofInt(if b then 1 else 0))
    case Str(s) => OptionalFloat(py.ofText(s))
    case _ => Raised
  }

  /** `base64.b64decode(v)`, with no bytes where it raises. */
  function AsBytes(v: Value): seq<Byte> {
    match v
    case Str(s) => if DecodeText(s).Some? then DecodeText(s).value else []
    case Bytes(b) =>
      var s := seq(|b|, i requires 0 <= i < |b| => b[i] as char);
      if Decode(s).Some? then Decode(s).value else []
    case _ => []
  }

  function FromTyped(py: Conversions, v: Value): Result<Value>
    decreases v, 1
  {
    if !v.Dict? then Ok(v)
    else
      match FindTag(v.entries, ORDER)
      case None => Ok(Null)
      case Some((t, x)) =>
        assert exists i :: 0 <= i < |v.entries| && v.entries[i] == (Key(t), x);
        assert x < v;
        FromTag(py, t, x)
  }

  function FromTag(py: Conversions, t: Tag, x: Value): Result<Value>
    decreases x, 2
  {
    match t
    case StringTag => Ok(x)
    case IntegerTag => AsInt(py, x)
    case DoubleTag => AsFloat(py, x)
    case BooleanTag => Ok(Bool(Truthy(x)))
    case NullTag => Ok(Null)
    case TimestampTag => Ok(x)
    case BytesTag => Ok(Bytes(AsBytes(x)))
    case ArrayTag =>
      if !x.Dict? then Raised
      else
        var values := Lookup(x.entries, VALUES);
        if values.None? || !Truthy(values.value) then Ok(List([]))
        else if !values.value.List? then Raised
        else
          assert values.value < x;
          var xs := values.value.items;
          var rs := Gather(seq(|xs|, i requires 0 <= i < |xs| => FromTyped(py, xs[i])));
          if rs.Ok? then Ok(List(rs.value)) else Raised
    case MapTag =>
      if !x.Dict? then Raised
      else
        var fields := Lookup(x.entries, FIELDS);
        if fields.None? || !Truthy(fields.value) then Ok(Dict([]))
        else if !fields.value.Dict? then Raised
        else
          assert fields.value < x;
          var es := fields.value.entries;
          var rs := Gather(seq(|es|, i requires 0 <= i < |es| => FromTyped(py, es[i].1)));
          if rs.Ok? then Ok(Dict(Zip(es, rs.value))) else Raised
    case GeoPointTag => Ok(x)
    case ReferenceTag => Ok(x)
  }

  // ----- Round trips -----

  lemma KeyIsInjective(s: Tag, t: Tag)
    requires Key(s) == Key(t)
    ensures s == t
  {
    assert |Key(s)| == |Key(t)| && Key(s)[0] == Key(t)[0];
  }

  lemma {:induction false} FindOnly(t: Tag, v: Value, tags: seq<Tag>)
    requires t in tags
    ensures FindTag([(Key(t), v)], tags) == Some((t, v))
  {
    var es := [(Key(t), v)];
    assert es[1..] == [];
    if tags[0] != t {
      if Key(tags[0]) == Key(t) {
        KeyIsInjective(tags[0], t);
      }
      assert tags == [tags[0]] + tags[1..];
      FindOnly(t, v, tags[1..]);
    }
  }

  lemma FromTagged(py: Conversions, t: Tag, v: Value)
    ensures FromTyped(py, Tagged(t, v)) == FromTag(py, t, v)
  {
    assert ORDER[0] == StringTag && ORDER[1] == IntegerTag && ORDER[2] == DoubleTag && ORDER[3] == BooleanTag
        && ORDER[4] == NullTag && ORDER[5] == TimestampTag && ORDER[6] == BytesTag && ORDER[7] == ArrayTag
        && ORDER[8] == MapTag && ORDER[9] == GeoPointTag && ORDER[10] == ReferenceTag;
    assert t in ORDER;
    FindOnly(t, v, ORDER);
  }

  lemma FromArray(py: Conversions, xs: seq<Value>)
    ensures FromTag(py, ArrayTag, Dict([(VALUES, List(xs))]))
         == var rs := Gather(seq(|xs|, i requires 0 <= i < |xs| => FromTyped(py, xs[i])));
            if rs.Ok? then Ok(List(rs.value)) else Raised
  {
    assert Lookup([(VALUES, List(xs))], VALUES) == Some(List(xs));
    if xs == [] {
      GatherIs(seq(|xs|, i requires 0 <= i < |xs| => FromTyped(py, xs[i])), []);
    }
  }

  lemma FromMap(py: Conversions, es: seq<(string, Value)>)
    ensures FromTag(py, MapTag, Dict([(FIELDS, Dict(es))]))
         == var rs := Gather(seq(|es|, i requires 0 <= i < |es| => FromTyped(py, es[i].1)));
            if rs.Ok? then Ok(Dict(Zip(es, rs.value))) else Raised
  {
    assert Lookup([(FIELDS, Dict(es))], FIELDS) == Some(Dict(es));
    if es == [] {
      GatherIs(seq(|es|, i requires 0 <= i < |es| => FromTyped(py, es[i].1)), []);
      assert Zip(es, []) == [];
    }
  }

  /** What comes back: tuples and objects of other types as texts, everything else as it was. */
  function Landed(show: Show, v: Value): Value {
    match v
    case List(xs) => List(seq(|xs|, i requires 0 <= i < |xs| => Landed(show, xs[i])))
    case Dict(es) => Dict(seq(|es|, i requires 0 <= i < |es| => (es[i].0, Landed(show, es[i].1))))
    case Tuple(_) => Str(show(v))
    case Other(_, iso) => if iso.Some? then Str(iso.value) else Str(show(v))
    case _ => v
  }

  /** Every value comes back, at any nesting, whatever the keys of its maps are called. */
  lemma {:induction false} FromToTyped(py: Conversions, show: Show, v: Value)
    ensures FromTyped(py, ToTyped(show, v)) == Ok(Landed(show, v))
  {
    hide Encode, DecodeText, IntText, ReadInt, FindTag, Lookup;
    match v {
      case Null => FromTagged(py, NullTag, Null);
      case Bool(b) => FromTagged(py, BooleanTag, v);
      case Int(i) =>
        FromTagged(py, IntegerTag, Str(IntText(i)));
        IntRoundTrip(i);
      case Float(x) => FromTagged(py, DoubleTag, v);
      case Str(s) => FromTagged(py, StringTag, v);
      case Bytes(b) =>
        FromTagged(py, BytesTag, Str(Encode(b)));
        DecodeTextEncode(b);
      case List(xs) =>
        forall i | 0 <= i < |xs| ensures FromTyped(py, ToTyped(show, xs[i])) == Ok(Landed(show, xs[i])) {
          FromToTyped(py, show, xs[i]);
        }
        FromTypedList(py, show, xs);
      case Dict(es) =>
        forall i | 0 <= i < |es| ensures FromTyped(py, ToTyped(show, es[i].1)) == Ok(Landed(show, es[i].1)) {
          FromToTyped(py, show, es[i].1);
        }
        FromTypedDict(py, show, es);
      case Tuple(_) => FromTagged(py, StringTag, Str(show(v)));
      case Other(_, iso) =>
        if iso.Some? {
          FromTagged(py, TimestampTag, Str(iso.value));
        } else {
          FromTagged(py, StringTag, Str(show(v)));
        }
    }
  }

  lemma FromTypedList(py: Conversions, show: Show, xs: seq<Value>)
    requires forall i :: 0 <= i < |xs| ==> FromTyped(py, ToTyped(show, xs[i])) == Ok(Landed(show, xs[i]))
    ensures FromTyped(py, ToTyped(show, List(xs))) == Ok(Landed(show, List(xs)))
  {
    var ys := seq(|xs|, i requires 0 <= i < |xs| => ToTyped(show, xs[i]));
    var rs := seq(|ys|, i requires 0 <= i < |ys| => FromTyped(py, ys[i]));
    var vs := seq(|xs|, i requires 0 <= i < |xs| => Landed(show, xs[i]));
    assert ToTyped(show, List(xs)) == Tagged(ArrayTag, Dict([(VALUES, List(ys))]));
    FromTagged(py, ArrayTag, Dict([(VALUES, List(ys))]));
    FromArray(py, ys);
    GatherIs(rs, vs);
    assert Landed(show, List(xs)) == List(vs);
  }

  lemma FromTypedDict(py: Conversions, show: Show, es: seq<(string, Value)>)
    requires forall i :: 0 <= i < |es| ==> FromTyped(py, ToTyped(show, es[i].1)) == Ok(Landed(show, es[i].1))
    ensures FromTyped(py, ToTyped(show, Dict(es))) == Ok(Landed(show, Dict(es)))
  {
    var ds := seq(|es|, i requires 0 <= i < |es| => (es[i].0, ToTyped(show, es[i].1)));
    var vs := seq(|es|, i requires 0 <= i < |es| => Landed(show, es[i].1));
    var rs := seq(|ds|, i requires 0 <= i < |ds| => FromTyped(py, ds[i].1));
    assert ToTyped(show, Dict(es)) == Tagged(MapTag, Dict([(FIELDS, Dict(ds))]));
    FromTagged(py, MapTag, Dict([(FIELDS, Dict(ds))]));
    FromMap(py, ds);
    GatherIs(rs, vs);
    LandedDict(show, es, Zip(ds, vs));
  }

  lemma LandedDict(show: Show, es: seq<(string, Value)>, fs: seq<(string, Value)>)
    requires |fs| == |es| && forall i :: 0 <= i < |es| ==> fs[i] == (es[i].0, Landed(show, es[i].1))
    ensures Landed(show, Dict(es)) == Dict(fs)
  {
    assert Landed(show, Dict(es)).entries == fs;
  }

  /** No tuples and no objects of other types at any depth. */
  predicate Plain(v: Value) {
    match v
    case Tuple(_) => false
    case Other(_, _) => false
    case List(xs) => forall i :: 0 <= i < |xs| ==> Plain(xs[i])
    case Dict(es) => forall i :: 0 <= i < |es| ==> Plain(es[i].1)
    case _ => true
  }

  lemma {:induction false} LandedIff(show: Show, v: Value)
    ensures Landed(show, v) == v <==> Plain(v)
  {
    match v {
      case List(xs) =>
        forall i | 0 <= i < |xs| ensures Landed(show, xs[i]) == xs[i] <==> Plain(xs[i]) { LandedIff(show, xs[i]); }
        LandedItems(show, xs);
      case Dict(es) =>
        forall i | 0 <= i < |es| ensures Landed(show, es[i].1) == es[i].1 <==> Plain(es[i].1) {
          LandedIff(show, es[i].1);
        }
        LandedEntries(show, es);
      case _ =>
    }
  }

  lemma LandedItems(show: Show, xs: seq<Value>)
    requires forall i :: 0 <= i < |xs| ==> (Landed(show, xs[i]) == xs[i] <==> Plain(xs[i]))
    ensures Landed(show, List(xs)) == List(xs) <==> Plain(List(xs))
  {
    var ys := seq(|xs|, i requires 0 <= i < |xs| => Landed(show, xs[i]));
    assert Landed(show, List(xs)) == List(ys);
    if Plain(List(xs)) {
      assert ys == xs;
    } else {
      var i :| 0 <= i < |xs| && !Plain(xs[i]);
      assert ys[i] != xs[i];
    }
  }

  lemma LandedEntries(show: Show, es: seq<(string, Value)>)
    requires forall i :: 0 <= i < |es| ==> (Landed(show, es[i].1) == es[i].1 <==> Plain(es[i].1))
    ensures Landed(show, Dict(es)) == Dict(es) <==> Plain(Dict(es))
  {
    var fs := seq(|es|, i requires 0 <= i < |es| => (es[i].0, Landed(show, es[i].1)));
    LandedDict(show, es, fs);
    if Plain(Dict(es)) {
      forall i | 0 <= i < |es| ensures fs[i] == es[i] {
        assert es[i] == (es[i].0, es[i].1);
      }
      assert fs == es;
    } else {
      var i :| 0 <= i < |es| && !Plain(es[i].1);
      assert fs[i] != es[i];
    }
  }

  /** The exact condition of the round trip. */
  lemma {:induction false} FromToTypedIff(py: Conversions, show: Show, v: Value)
    ensures FromTyped(py, ToTyped(show, v)) == Ok(v) <==> Plain(v)
  {
    FromToTyped(py, show, v);
    LandedIff(show, v);
  }

  lemma GatherIs<T>(rs: seq<Result<T>>, vs: seq<T>)
    requires |rs| == |vs| && forall i :: 0 <= i < |rs| ==> rs[i] == Ok(vs[i])
    ensures Gather(rs) == Ok(vs)
  {
    assert Gather(rs).Ok? && Gather(rs).value == vs;
  }

  /** The documents that `ToTyped` writes: one tag per dict, canonical texts, no timestamp, geo-point or reference. */
  predicate CanonicalDoc(d: Value)
    decreases d
  {
    && d.Dict? && |d.entries| == 1
    && exists t | t in ORDER :: d.entries[0].0 == Key(t) && CanonicalFor(t, d.entries[0].1)
  }

  predicate CanonicalFor(t: Tag, x: Value)
    decreases x
  {
    match t
    case NullTag => x == Null
    case BooleanTag => x.Bool?
    case IntegerTag => x.Str? && CanonicalInt(x.text)
    case DoubleTag => x.Float?
    case StringTag => x.Str?
    case BytesTag => x.Str? && CanonicalText(x.text)
    case ArrayTag =>
      && x.Dict? && |x.entries| == 1 && x.entries[0].0 == VALUES && x.entries[0].1.List?
      && var xs := x.entries[0].1.items; forall i :: 0 <= i < |xs| ==> CanonicalDoc(xs[i])
    case MapTag =>
      && x.Dict? && |x.entries| == 1 && x.entries[0].0 == FIELDS && x.entries[0].1.Dict?
      && var es := x.entries[0].1.entries; forall i :: 0 <= i < |es| ==> CanonicalDoc(es[i].1)
    case _ => false
  }

  lemma TaggedIsCanonical(t: Tag, x: Value)
    ensures CanonicalDoc(Tagged(t, x)) <==> CanonicalFor(t, x)
  {
    assert ORDER[0] == StringTag && ORDER[1] == IntegerTag && ORDER[2] == DoubleTag && ORDER[3] == BooleanTag
        && ORDER[4] == NullTag && ORDER[6] == BytesTag && ORDER[7] == ArrayTag && ORDER[8] == MapTag;
    hide CanonicalFor;
    if CanonicalDoc(Tagged(t, x)) {
      var u :| u in ORDER && Key(t) == Key(u) && CanonicalFor(u, x);
      KeyIsInjective(t, u);
    }
    TagInOrder(t);
  }

  lemma TagInOrder(t: Tag)
    ensures t in ORDER
  {
    assert ORDER[0] == StringTag && ORDER[1] == IntegerTag && ORDER[2] == DoubleTag && ORDER[3] == BooleanTag
        && ORDER[4] == NullTag && ORDER[5] == TimestampTag && ORDER[6] == BytesTag && ORDER[7] == ArrayTag
        && ORDER[8] == MapTag && ORDER[9] == GeoPointTag && ORDER[10] == ReferenceTag;
  }

  /** No datetime at any depth outside tuples. */
  predicate NoTimes(v: Value) {
    match v
    case Other(_, iso) => iso.None?
    case List(xs) => forall i :: 0 <= i < |xs| ==> NoTimes(xs[i])
    case Dict(es) => forall i :: 0 <= i < |es| ==> NoTimes(es[i].1)
    case _ => true
  }

  /** What is written is canonical exactly when it holds no timestamp. */
  lemma {:induction false} ToTypedIsCanonicalIff(show: Show, v: Value)
    ensures CanonicalDoc(ToTyped(show, v)) <==> NoTimes(v)
  {
    match v {
      case Null => TaggedIsCanonical(NullTag, Null);
      case Bool(b) => TaggedIsCanonical(BooleanTag, v);
      case Int(i) =>
        IntRoundTrip(i);
        TaggedIsCanonical(IntegerTag, Str(IntText(i)));
      case Float(x) => TaggedIsCanonical(DoubleTag, v);
      case Str(s) => TaggedIsCanonical(StringTag, v);
      case Bytes(b) =>
        EncodeIsCanonical(b);
        TaggedIsCanonical(BytesTag, Str(Encode(b)));
      case List(xs) =>
        forall i | 0 <= i < |xs| ensures CanonicalDoc(ToTyped(show, xs[i])) <==> NoTimes(xs[i]) {
          ToTypedIsCanonicalIff(show, xs[i]);
        }
        ListIsCanonicalIff(show, xs);
      case Dict(es) =>
        forall i | 0 <= i < |es| ensures CanonicalDoc(ToTyped(show, es[i].1)) <==> NoTimes(es[i].1) {
          ToTypedIsCanonicalIff(show, es[i].1);
        }
        DictIsCanonicalIff(show, es);
      case Tuple(_) => TaggedIsCanonical(StringTag, Str(show(v)));
      case Other(_, iso) =>
        TaggedIsCanonical(if iso.Some? then TimestampTag else StringTag, ToTyped(show, v).entries[0].1);
    }
  }

  lemma ListIsCanonicalIff(show: Show, xs: seq<Value>)
    requires forall i :: 0 <= i < |xs| ==> (CanonicalDoc(ToTyped(show, xs[i])) <==> NoTimes(xs[i]))
    ensures CanonicalDoc(ToTyped(show, List(xs))) <==> NoTimes(List(xs))
  {
    var ys := seq(|xs|, i requires 0 <= i < |xs| => ToTyped(show, xs[i]));
    var x := Dict([(VALUES, List(ys))]);
    assert ToTyped(show, List(xs)) == Tagged(ArrayTag, x);
    TaggedIsCanonical(ArrayTag, x);
    ArrayIsCanonical(ys);
    hide *;
    assert forall i :: 0 <= i < |xs| ==> ys[i] == ToTyped(show, xs[i]);
    NoTimesItems(xs);
  }

  lemma ArrayIsCanonical(ys: seq<Value>)
    ensures CanonicalFor(ArrayTag, Dict([(VALUES, List(ys))])) <==> forall i :: 0 <= i < |ys| ==> CanonicalDoc(ys[i])
  {
    hide CanonicalDoc;
  }

  lemma NoTimesItems(xs: seq<Value>)
    ensures NoTimes(List(xs)) <==> forall i :: 0 <= i < |xs| ==> NoTimes(xs[i])
  {
  }

  lemma DictIsCanonicalIff(show: Show, es: seq<(string, Value)>)
    requires forall i :: 0 <= i < |es| ==> (CanonicalDoc(ToTyped(show, es[i].1)) <==> NoTimes(es[i].1))
    ensures CanonicalDoc(ToTyped(show, Dict(es))) <==> NoTimes(Dict(es))
  {
    var ds := seq(|es|, i requires 0 <= i < |es| => (es[i].0, ToTyped(show, es[i].1)));
    var x := Dict([(FIELDS, Dict(ds))]);
    assert ToTyped(show, Dict(es)) == Tagged(MapTag, x);
    TaggedIsCanonical(MapTag, x);
    MapIsCanonical(ds);
    hide *;
    assert forall i :: 0 <= i < |es| ==> ds[i].1 == ToTyped(show, es[i].1);
    NoTimesEntries(es);
  }

  lemma MapIsCanonical(ds: seq<(string, Value)>)
    ensures CanonicalFor(MapTag, Dict([(FIELDS, Dict(ds))])) <==> forall i :: 0 <= i < |ds| ==> CanonicalDoc(ds[i].1)
  {
    hide CanonicalDoc;
  }

  lemma NoTimesEntries(es: seq<(string, Value)>)
    ensures NoTimes(Dict(es)) <==> forall i :: 0 <= i < |es| ==> NoTimes(es[i].1)
  {
  }

  /** The value comes back from what is read. */
  predicate ReadsBack(py: Conversions, show: Show, d: Value) {
    FromTyped(py, d).Ok? && ToTyped(show, FromTyped(py, d).value) == d
  }

  /** The reverse round trip: the canonical documents, and no others, are the typed forms of the values
      they are read as. */
  lemma {:induction false} ToFromTypedIff(py: Conversions, show: Show, d: Value)
    ensures ReadsBack(py, show, d) <==> CanonicalDoc(d)
  {
    if CanonicalDoc(d) {
      ToFromTyped(py, show, d);
    }
    if ReadsBack(py, show, d) {
      var v := FromTyped(py, d).value;
      FromToTypedIff(py, show, v);
      PlainHasNoTimes(v);
      ToTypedIsCanonicalIff(show, v);
    }
  }

  lemma {:induction false} PlainHasNoTimes(v: Value)
    ensures Plain(v) ==> NoTimes(v)
  {
    match v {
      case List(xs) => forall i | 0 <= i < |xs| ensures Plain(xs[i]) ==> NoTimes(xs[i]) { PlainHasNoTimes(xs[i]); }
      case Dict(es) =>
        forall i | 0 <= i < |es| ensures Plain(es[i].1) ==> NoTimes(es[i].1) { PlainHasNoTimes(es[i].1); }
      case _ =>
    }
  }

  lemma {:induction false} ToFromTyped(py: Conversions, show: Show, d: Value)
    requires CanonicalDoc(d)
    ensures ReadsBack(py, show, d)
    decreases d, 1
  {
    var t :| t in ORDER && d.entries[0].0 == Key(t) && CanonicalFor(t, d.entries[0].1);
    var x := d.entries[0].1;
    assert d.entries == [(Key(t), x)];
    FromTagged(py, t, x);
    ToFromTag(py, show, t, x);
  }

  lemma {:induction false} ToFromTag(py: Conversions, show: Show, t: Tag, x: Value)
    requires CanonicalFor(t, x)
    ensures FromTag(py, t, x).Ok? && ToTyped(show, FromTag(py, t, x).value) == Tagged(t, x)
    decreases x, 2
  {
    match t {
      case IntegerTag => CanonicalIntRoundTrip(x.text);
      case BytesTag =>
        CanonicalIsAscii(x.text);
        EncodeDecode(x.text);
      case ArrayTag =>
        var xs := x.entries[0].1.items;
        assert x == Dict([(VALUES, List(xs))]);
        forall i | 0 <= i < |xs| ensures ReadsBack(py, show, xs[i]) {
          assert xs[i] < List(xs);
          ToFromTyped(py, show, xs[i]);
        }
        ToFromList(py, show, xs);
      case MapTag =>
        var es := x.entries[0].1.entries;
        assert x == Dict([(FIELDS, Dict(es))]);
        forall i | 0 <= i < |es| ensures ReadsBack(py, show, es[i].1) {
          assert es[i].1 < Dict(es);
          ToFromTyped(py, show, es[i].1);
        }
        ToFromDict(py, show, es);
      case _ =>
    }
  }

  lemma ToFromList(py: Conversions, show: Show, xs: seq<Value>)
    requires forall i :: 0 <= i < |xs| ==> ReadsBack(py, show, xs[i])
    ensures var x := Dict([(VALUES, List(xs))]);
            var r := FromTag(py, ArrayTag, x);
            r.Ok? && ToTyped(show, r.value) == Tagged(ArrayTag, x)
  {
    FromArray(py, xs);
    var vs := seq(|xs|, i requires 0 <= i < |xs| => FromTyped(py, xs[i]).value);
    GatherIs(seq(|xs|, i requires 0 <= i < |xs| => FromTyped(py, xs[i])), vs);
    assert xs == seq(|vs|, i requires 0 <= i < |vs| => ToTyped(show, vs[i]));
  }

  lemma ToFromDict(py: Conversions, show: Show, es: seq<(string, Value)>)
    requires forall i :: 0 <= i < |es| ==> ReadsBack(py, show, es[i].1)
    ensures var x := Dict([(FIELDS, Dict(es))]);
            var r := FromTag(py, MapTag, x);
            r.Ok? && ToTyped(show, r.value) == Tagged(MapTag, x)
  {
    FromMap(py, es);
    var vs := seq(|es|, i requires 0 <= i < |es| => FromTyped(py, es[i].1).value);
    GatherIs(seq(|es|, i requires 0 <= i < |es| => FromTyped(py, es[i].1)), vs);
    var ds := Zip(es, vs);
    assert es == seq(|ds|, i requires 0 <= i < |ds| => (ds[i].0, ToTyped(show, ds[i].1)));
  }
}
