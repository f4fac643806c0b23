/**
 The encoding of persisted state (core/cloudlearn_platform.py): bytes become tagged dicts, tuples
 become lists, and decoding turns tagged dicts back into bytes.
 */
module StateCodec {
  import opened Common
  import opened Base64
  import opened PyValue

  const TYPE_KEY := "__cloudlearn_type__"
  const BYTES := Str("bytes")
  const DATA_KEY := "base64"

  function EncodeState(v: Value): Value {
    match v
    case Bytes(b) => Dict([(TYPE_KEY, BYTES), (DATA_KEY, Str(Base64.Encode(b)))])
    case Dict(es) => Dict(seq(|es|, i requires 0 <= i < |es| => (es[i].0, EncodeState(es[i].1))))
    case List(xs) => List(seq(|xs|, i requires 0 <= i < |xs| => EncodeState(xs[i])))
    case Tuple(xs) => List(seq(|xs|, i requires 0 <= i < |xs| => EncodeState(xs[i])))
    case _ => v
  }

  /** The test that `_decode_state_value` makes on a dict. */
  predicate TaggedAsBytes(es: seq<(string, Value)>) {
    Lookup(es, TYPE_KEY) == Some(BYTES) && Lookup(es, DATA_KEY).Some?
  }

  function DecodeData(v: Value): Result<Value> {
    match v
    case Str(s) => if DecodeText(s).Some? then Ok(Bytes(DecodeText(s).value)) else Raised
    case Bytes(b) =>
      var s := seq(|b|, i requires 0 <= i < |b| => b[i] as char);
      if Decode(s).Some? then Ok(Bytes(Decode(s).value)) else Raised
    case _ => Raised
  }

  function DecodeState(v: Value): Result<Value> {
    match v
    case Dict(es) =>
      if TaggedAsBytes(es) then DecodeData(Lookup(es, DATA_KEY).value)
      else
        var rs := Gather(seq(|es|, i requires 0 <= i < |es| => DecodeState(es[i].1)));
        if rs.Ok? then Ok(Dict(Zip(es, rs.value))) else Raised
    case List(xs) =>
      var rs := Gather(seq(|xs|, i requires 0 <= i < |xs| => DecodeState(xs[i])));
      if rs.Ok? then Ok(List(rs.value)) else Raised
    case _ => Ok(v)
  }

  /** The value with every tuple turned into a list. */
  function AsLists(v: Value): Value {
    match v
    case Dict(es) => Dict(seq(|es|, i requires 0 <= i < |es| => (es[i].0, AsLists(es[i].1))))
    case List(xs) => List(seq(|xs|, i requires 0 <= i < |xs| => AsLists(xs[i])))
    case Tuple(xs) => List(seq(|xs|, i requires 0 <= i < |xs| => AsLists(xs[i])))
    case _ => v
  }

  /** No dict of the value, at any depth, carries both the bytes tag and a data key of its own. */
  predicate Untagged(v: Value) {
    match v
    case Dict(es) => !TaggedAsBytes(es) && forall i :: 0 <= i < |es| ==> Untagged(es[i].1)
    case List(xs) => forall i :: 0 <= i < |xs| ==> Untagged(xs[i])
    case Tuple(xs) => forall i :: 0 <= i < |xs| ==> Untagged(xs[i])
    case _ => true
  }

  lemma GatherIff<T>(rs: seq<Result<T>>, vs: seq<T>)
    requires |rs| == |vs|
    ensures Gather(rs) == Ok(vs) <==> forall i :: 0 <= i < |rs| ==> rs[i] == Ok(vs[i])
  {
    if forall i :: 0 <= i < |rs| ==> rs[i] == Ok(vs[i]) {
      assert Gather(rs).value == vs;
    }
  }

  lemma {:induction false} EncodedLookup(es: seq<(string, Value)>, fs: seq<(string, Value)>, key: string)
    requires |fs| == |es| && forall i :: 0 <= i < |es| ==> fs[i] == (es[i].0, EncodeState(es[i].1))
    ensures Lookup(fs, key) == if Lookup(es, key).Some? then Some(EncodeState(Lookup(es, key).value)) else None
    decreases |es|
  {
    if es != [] {
      EncodedLookup(es[1..], fs[1..], key);
    }
  }

  /** Encoding adds no tag to a dict and removes none. */
  lemma {:induction false} EncodingKeepsTags(es: seq<(string, Value)>, fs: seq<(string, Value)>)
    requires |fs| == |es| && forall i :: 0 <= i < |es| ==> fs[i] == (es[i].0, EncodeState(es[i].1))
    ensures TaggedAsBytes(fs) <==> TaggedAsBytes(es)
  {
    EncodedLookup(es, fs, TYPE_KEY);
    EncodedLookup(es, fs, DATA_KEY);
    if Lookup(es, TYPE_KEY).Some? {
      EncodingKeepsTexts(Lookup(es, TYPE_KEY).value, BYTES.text);
    }
    hide Lookup, EncodeState;
  }

  lemma EncodingKeepsTexts(v: Value, text: string)
    ensures EncodeState(v) == Str(text) <==> v == Str(text)
  {
  }

  lemma KeysDiffer()
    ensures TYPE_KEY != DATA_KEY
  {
    assert |TYPE_KEY| != |DATA_KEY|;
  }

  lemma BytesRoundTrip(b: seq<Byte>)
    ensures DecodeState(EncodeState(Bytes(b))) == Ok(Bytes(b))
  {
    KeysDiffer();
    var es := [(TYPE_KEY, BYTES), (DATA_KEY, Str(Base64.Encode(b)))];
    assert es[1..] == [(DATA_KEY, Str(Base64.Encode(b)))];
    assert Lookup(es, TYPE_KEY) == Some(BYTES);
    assert Lookup(es, DATA_KEY) == Lookup(es[1..], DATA_KEY) == Some(Str(Base64.Encode(b)));
    DecodeTextEncode(b);
  }

  lemma TaggedDecodesToBytes(fs: seq<(string, Value)>)
    requires TaggedAsBytes(fs)
    ensures DecodeState(Dict(fs)).Ok? ==> DecodeState(Dict(fs)).value.Bytes?
  {
    hide Lookup, Base64.Decode, DecodeText;
    assert DecodeState(Dict(fs)) == DecodeData(Lookup(fs, DATA_KEY).value);
  }

  lemma DictRoundTrip(es: seq<(string, Value)>)
    requires forall i :: 0 <= i < |es| ==>
               (DecodeState(EncodeState(es[i].1)) == Ok(AsLists(es[i].1)) <==> Untagged(es[i].1))
    ensures DecodeState(EncodeState(Dict(es))) == Ok(AsLists(Dict(es))) <==> Untagged(Dict(es))
  {
    hide *;
    var fs := seq(|es|, i requires 0 <= i < |es| => (es[i].0, EncodeState(es[i].1)));
    EncodingKeepsTags(es, fs);
    EncodedDict(es, fs);
    UntaggedDict(es);
    if TaggedAsBytes(es) {
      TaggedDecodesToBytes(fs);
    } else {
      PlainDictRoundTrip(es, fs);
    }
  }

  lemma EncodedDict(es: seq<(string, Value)>, fs: seq<(string, Value)>)
    requires |fs| == |es| && forall i :: 0 <= i < |es| ==> fs[i] == (es[i].0, EncodeState(es[i].1))
    ensures EncodeState(Dict(es)) == Dict(fs) && AsLists(Dict(es)).Dict?
  {
    assert EncodeState(Dict(es)).entries == fs;
  }

  lemma AsListsZip(es: seq<(string, Value)>, fs: seq<(string, Value)>, vs: seq<Value>)
    requires |fs| == |es| == |vs| && forall i :: 0 <= i < |es| ==> fs[i].0 == es[i].0 && vs[i] == AsLists(es[i].1)
    ensures AsLists(Dict(es)) == Dict(Zip(fs, vs))
  {
    var zipped := Zip(fs, vs);
    assert forall i :: 0 <= i < |es| ==> zipped[i] == (es[i].0, AsLists(es[i].1));
    assert AsLists(Dict(es)).entries == zipped;
  }

  lemma PlainDictRoundTrip(es: seq<(string, Value)>, fs: seq<(string, Value)>)
    requires !TaggedAsBytes(es) && !TaggedAsBytes(fs)
    requires |fs| == |es| && forall i :: 0 <= i < |es| ==> fs[i] == (es[i].0, EncodeState(es[i].1))
    requires forall i :: 0 <= i < |es| ==>
               (DecodeState(EncodeState(es[i].1)) == Ok(AsLists(es[i].1)) <==> Untagged(es[i].1))
    ensures DecodeState(Dict(fs)) == Ok(AsLists(Dict(es))) <==> Untagged(Dict(es))
  {
    hide *;
    var vs := seq(|es|, i requires 0 <= i < |es| => AsLists(es[i].1));
    AsListsZip(es, fs, vs);
    UntaggedDict(es);
    DecodePlainDict(fs, vs);
    assert forall i :: 0 <= i < |fs| ==> (DecodeState(fs[i].1) == Ok(vs[i]) <==> Untagged(es[i].1));
  }

  lemma UntaggedDict(es: seq<(string, Value)>)
    ensures Untagged(Dict(es)) <==> !TaggedAsBytes(es) && forall i :: 0 <= i < |es| ==> Untagged(es[i].1)
  {
    hide TaggedAsBytes;
  }

  /** An untagged dict decodes to given values exactly when each of its values does. */
  lemma DecodePlainDict(fs: seq<(string, Value)>, vs: seq<Value>)
    requires !TaggedAsBytes(fs) && |vs| == |fs|
    ensures DecodeState(Dict(fs)) == Ok(Dict(Zip(fs, vs))) <==>
            forall i :: 0 <= i < |fs| ==> DecodeState(fs[i].1) == Ok(vs[i])
  {
    var rs := seq(|fs|, i requires 0 <= i < |fs| => DecodeState(fs[i].1));
    GatherIff(rs, vs);
    assert DecodeState(Dict(fs)) == if Gather(rs).Ok? then Ok(Dict(Zip(fs, Gather(rs).value))) else Raised;
    if Gather(rs).Ok? {
      ZipIsInjective(fs, Gather(rs).value, vs);
    }
    assert forall i :: 0 <= i < |fs| ==> rs[i] == DecodeState(fs[i].1);
  }

  lemma ZipIsInjective(es: seq<(string, Value)>, a: seq<Value>, b: seq<Value>)
    requires |a| == |b| == |es|
    ensures Zip(es, a) == Zip(es, b) <==> a == b
  {
    if Zip(es, a) == Zip(es, b) {
      forall i | 0 <= i < |a| ensures a[i] == b[i] {
        assert Zip(es, a)[i] == Zip(es, b)[i];
      }
    }
  }

  lemma ItemsRoundTrip(xs: seq<Value>, v: Value)
    requires v == List(xs) || v == Tuple(xs)
    requires forall i :: 0 <= i < |xs| ==> (DecodeState(EncodeState(xs[i])) == Ok(AsLists(xs[i])) <==> Untagged(xs[i]))
    ensures DecodeState(EncodeState(v)) == Ok(AsLists(v)) <==> Untagged(v)
  {
    var ys := seq(|xs|, i requires 0 <= i < |xs| => EncodeState(xs[i]));
    var rs := seq(|ys|, i requires 0 <= i < |ys| => DecodeState(ys[i]));
    var vs := seq(|xs|, i requires 0 <= i < |xs| => AsLists(xs[i]));
    GatherIff(rs, vs);
    assert EncodeState(v) == List(ys);
    assert AsLists(v) == List(vs);
    assert DecodeState(List(ys)) == if Gather(rs).Ok? then Ok(List(Gather(rs).value)) else Raised;
    assert forall i :: 0 <= i < |rs| ==> (rs[i] == Ok(vs[i]) <==> Untagged(xs[i]));
  }

  /** Persisted state comes back as it was, tuples turned into lists, exactly when none of its dicts
      looks like encoded bytes. */
  lemma {:induction false} RoundTripIff(v: Value)
    ensures DecodeState(EncodeState(v)) == Ok(AsLists(v)) <==> Untagged(v)
  {
    match v {
      case Bytes(b) => BytesRoundTrip(b);
      case Dict(es) =>
        forall i | 0 <= i < |es|
          ensures DecodeState(EncodeState(es[i].1)) == Ok(AsLists(es[i].1)) <==> Untagged(es[i].1)
        {
          RoundTripIff(es[i].1);
        }
        DictRoundTrip(es);
      case List(xs) =>
        forall i | 0 <= i < |xs| ensures DecodeState(EncodeState(xs[i])) == Ok(AsLists(xs[i])) <==> Untagged(xs[i]) {
          RoundTripIff(xs[i]);
        }
        ItemsRoundTrip(xs, v);
      case Tuple(xs) =>
        forall i | 0 <= i < |xs| ensures DecodeState(EncodeState(xs[i])) == Ok(AsLists(xs[i])) <==> Untagged(xs[i]) {
          RoundTripIff(xs[i]);
        }
        ItemsRoundTrip(xs, v);
      case _ =>
    }
  }

  /** No object of another type at any depth. */
  predicate NoOthers(v: Value) {
    match v
    case Other(_, _) => false
    case List(xs) => forall i :: 0 <= i < |xs| ==> NoOthers(xs[i])
    case Tuple(xs) => forall i :: 0 <= i < |xs| ==> NoOthers(xs[i])
    case Dict(es) => forall i :: 0 <= i < |es| ==> NoOthers(es[i].1)
    case _ => true
  }

  /** Bytes and tuples are gone after encoding: what is left is a JSON value exactly when there is no
      object of another type. */
  lemma {:induction false} EncodedIsJsonIff(v: Value)
    ensures IsJson(EncodeState(v)) <==> NoOthers(v)
  {
    match v {
      case Dict(es) =>
        forall i | 0 <= i < |es| ensures IsJson(EncodeState(es[i].1)) <==> NoOthers(es[i].1) {
          EncodedIsJsonIff(es[i].1);
        }
        var fs := seq(|es|, i requires 0 <= i < |es| => (es[i].0, EncodeState(es[i].1)));
        assert EncodeState(v) == Dict(fs) && forall i :: 0 <= i < |es| ==> fs[i].1 == EncodeState(es[i].1);
      case List(xs) =>
        forall i | 0 <= i < |xs| ensures IsJson(EncodeState(xs[i])) <==> NoOthers(xs[i]) { EncodedIsJsonIff(xs[i]); }
        EncodedItemsJson(xs);
      case Tuple(xs) =>
        forall i | 0 <= i < |xs| ensures IsJson(EncodeState(xs[i])) <==> NoOthers(xs[i]) { EncodedIsJsonIff(xs[i]); }
        EncodedItemsJson(xs);
      case _ =>
    }
  }

  lemma EncodedItemsJson(xs: seq<Value>)
    requires forall i :: 0 <= i < |xs| ==> (IsJson(EncodeState(xs[i])) <==> NoOthers(xs[i]))
    ensures IsJson(EncodeState(List(xs))) <==> NoOthers(List(xs))
    ensures IsJson(EncodeState(Tuple(xs))) <==> NoOthers(Tuple(xs))
  {
    var ys := seq(|xs|, i requires 0 <= i < |xs| => EncodeState(xs[i]));
    assert EncodeState(List(xs)) == EncodeState(Tuple(xs)) == List(ys);
    assert forall i :: 0 <= i < |xs| ==> ys[i] == EncodeState(xs[i]);
  }
}
