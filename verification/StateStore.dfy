/**
 How the persisted state is written to its row and read back (core/cloudlearn_platform.py): encoded,
 dumped as JSON with sorted keys, signed; then verified, parsed and decoded. Signing and verifying are
 parameters.
 */
module StateStore {
  import opened Common
  import opened PyValue
  import opened StateCodec
  import opened ValueText

  type Entries = seq<(string, Value)>

  // ----- Sorting keys -----

  /** Texts are ordered by their first differing character. */
  predicate Leq(a: string, b: string) {
    a == [] || (b != [] && (a[0] < b[0] || (a[0] == b[0] && Leq(a[1..], b[1..]))))
  }

  lemma {:induction false} LeqIsTotal(a: string, b: string)
    ensures Leq(a, b) || Leq(b, a)
    decreases |a|
  {
    if a != [] && b != [] && a[0] == b[0] {
      LeqIsTotal(a[1..], b[1..]);
    }
  }

  lemma {:induction false} LeqIsTransitive(a: string, b: string, c: string)
    requires Leq(a, b) && Leq(b, c)
    ensures Leq(a, c)
    decreases |a|
  {
    if a != [] && a[0] == b[0] == c[0] {
      LeqIsTransitive(a[1..], b[1..], c[1..]);
    }
  }

  /** Two different texts are never each before the other. */
  lemma {:induction false} LeqIsAntisymmetric(a: string, b: string)
    requires Leq(a, b) && Leq(b, a)
    ensures a == b
    decreases |a|
  {
    if a != [] {
      LeqIsAntisymmetric(a[1..], b[1..]);
      assert a == [a[0]] + a[1..] && b == [b[0]] + b[1..];
    }
  }

  function InsertEntry(e: (string, Value), es: Entries): Entries {
    if es == [] then [e] else if Leq(e.0, es[0].0) then [e] + es else [es[0]] + InsertEntry(e, es[1..])
  }

  function SortEntries(es: Entries): Entries { if es == [] then [] else InsertEntry(es[0], SortEntries(es[1..])) }

  /** The value with the entries of every dict in the order of their keys: what `sort_keys` prints. */
  function Sorted(v: Value): Value {
    match v
    case Dict(es) => Dict(SortEntries(seq(|es|, i requires 0 <= i < |es| => (es[i].0, Sorted(es[i].1)))))
    case List(xs) => List(seq(|xs|, i requires 0 <= i < |xs| => Sorted(xs[i])))
    case Tuple(xs) => Tuple(seq(|xs|, i requires 0 <= i < |xs| => Sorted(xs[i])))
    case _ => v
  }

  function MapValues(f: Value -> Value, es: Entries): (r: Entries)
    ensures |r| == |es|
  {
    seq(|es|, i requires 0 <= i < |es| => (es[i].0, f(es[i].1)))
  }

  lemma SortedDict(es: Entries)
    ensures Sorted(Dict(es)) == Dict(SortEntries(MapValues(Sorted, es)))
  {
    assert MapValues(Sorted, es) == seq(|es|, i requires 0 <= i < |es| => (es[i].0, Sorted(es[i].1)));
  }

  // ----- Sorting puts keys in order -----

  predicate InOrder(es: Entries) { forall i, j :: 0 <= i < j < |es| ==> Leq(es[i].0, es[j].0) }

  /** The keys of every dict, at any depth, are in order. */
  predicate DeepInOrder(v: Value) {
    match v
    case Dict(es) => InOrder(es) && forall i :: 0 <= i < |es| ==> DeepInOrder(es[i].1)
    case List(xs) => forall i :: 0 <= i < |xs| ==> DeepInOrder(xs[i])
    case Tuple(xs) => forall i :: 0 <= i < |xs| ==> DeepInOrder(xs[i])
    case _ => true
  }

  lemma {:induction false} InsertKeepsOrder(e: (string, Value), es: Entries)
    requires InOrder(es)
    ensures InOrder(InsertEntry(e, es))
    ensures forall i :: 0 <= i < |InsertEntry(e, es)| ==> InsertEntry(e, es)[i] == e || InsertEntry(e, es)[i] in es
    decreases |es|
  {
    var r := InsertEntry(e, es);
    if es == [] {
    } else if Leq(e.0, es[0].0) {
      assert r[0] == e && forall i :: 0 <= i < |es| ==> r[i + 1] == es[i];
      forall j | 0 <= j < |es| ensures Leq(e.0, es[j].0) {
        if j > 0 {
          LeqIsTransitive(e.0, es[0].0, es[j].0);
        }
      }
    } else {
      var rest := InsertEntry(e, es[1..]);
      InsertKeepsOrder(e, es[1..]);
      LeqIsTotal(e.0, es[0].0);
      assert r == [es[0]] + rest;
      forall j | 0 <= j < |rest| ensures Leq(es[0].0, rest[j].0) {
        if rest[j] != e {
          var k :| 0 <= k < |es[1..]| && es[1..][k] == rest[j];
          assert es[k + 1] == rest[j];
        }
      }
      forall i, j | 0 <= i < j < |r| ensures Leq(r[i].0, r[j].0) {
        assert i > 0 ==> r[i] == rest[i - 1];
        assert r[j] == rest[j - 1];
      }
    }
  }

  lemma {:induction false} SortOrders(es: Entries)
    ensures InOrder(SortEntries(es))
    decreases |es|
  {
    if es != [] {
      SortOrders(es[1..]);
      InsertKeepsOrder(es[0], SortEntries(es[1..]));
    }
  }

  /** The keys are in order at every depth. */
  lemma {:induction false} SortedIsInOrder(v: Value)
    ensures DeepInOrder(Sorted(v))
  {
    match v {
      case Dict(es) =>
        var gs := MapValues(Sorted, es);
        forall i | 0 <= i < |es| ensures DeepInOrder(gs[i].1) { SortedIsInOrder(es[i].1); }
        SortedDict(es);
        SortOrders(gs);
        SortKeepsAll(gs, DeepInOrder);
      case List(xs) => forall i | 0 <= i < |xs| ensures DeepInOrder(Sorted(xs[i])) { SortedIsInOrder(xs[i]); }
      case Tuple(xs) => forall i | 0 <= i < |xs| ensures DeepInOrder(Sorted(xs[i])) { SortedIsInOrder(xs[i]); }
      case _ =>
    }
  }

  // ----- Sorting reorders and does nothing else -----

  lemma {:induction false} InsertMapped(f: Value -> Value, e: (string, Value), es: Entries)
    ensures InsertEntry((e.0, f(e.1)), MapValues(f, es)) == MapValues(f, InsertEntry(e, es))
    decreases |es|
  {
    if es != [] {
      InsertMapped(f, e, es[1..]);
      assert MapValues(f, es)[1..] == MapValues(f, es[1..]);
    }
  }

  /** The order depends on the keys only. */
  lemma {:induction false} SortMapped(f: Value -> Value, es: Entries)
    ensures SortEntries(MapValues(f, es)) == MapValues(f, SortEntries(es))
    decreases |es|
  {
    if es != [] {
      SortMapped(f, es[1..]);
      assert MapValues(f, es)[1..] == MapValues(f, es[1..]);
      InsertMapped(f, es[0], SortEntries(es[1..]));
    }
  }

  lemma {:induction false} InsertContents(e: (string, Value), es: Entries)
    ensures multiset(InsertEntry(e, es)) == multiset(es) + multiset{e}
    decreases |es|
  {
    if es != [] && !Leq(e.0, es[0].0) {
      InsertContents(e, es[1..]);
      assert es == [es[0]] + es[1..];
    }
  }

  lemma {:induction false} SortContents(es: Entries)
    ensures multiset(SortEntries(es)) == multiset(es) && |SortEntries(es)| == |es|
    decreases |es|
  {
    if es != [] {
      SortContents(es[1..]);
      InsertContents(es[0], SortEntries(es[1..]));
      assert es == [es[0]] + es[1..];
    }
    assert |multiset(SortEntries(es))| == |multiset(es)|;
  }

  predicate HasKey(es: Entries, key: string) { exists i :: 0 <= i < |es| && es[i].0 == key }

  lemma {:induction false} InsertUnique(e: (string, Value), es: Entries)
    requires UniqueKeys(es) && !HasKey(es, e.0)
    ensures UniqueKeys(InsertEntry(e, es))
    ensures forall key :: HasKey(InsertEntry(e, es), key) <==> key == e.0 || HasKey(es, key)
    decreases |es|
  {
    var r := InsertEntry(e, es);
    if es == [] || Leq(e.0, es[0].0) {
      assert r == [e] + es;
      ConsKeys(e, es);
    } else {
      var rest := es[1..];
      assert es == [es[0]] + rest;
      ConsKeys(es[0], rest);
      assert !HasKey(rest, es[0].0);
      InsertUnique(e, rest);
      assert es[0].0 != e.0;
      ConsKeys(es[0], InsertEntry(e, rest));
    }
  }

  lemma ConsKeys(e: (string, Value), es: Entries)
    ensures forall key :: HasKey([e] + es, key) <==> key == e.0 || HasKey(es, key)
    ensures UniqueKeys([e] + es) <==> UniqueKeys(es) && !HasKey(es, e.0)
  {
    var r := [e] + es;
    forall key ensures HasKey(r, key) <==> key == e.0 || HasKey(es, key) {
      assert r[0].0 == e.0;
      assert forall i :: 0 <= i < |es| ==> r[i + 1] == es[i];
      if i :| 0 <= i < |es| && es[i].0 == key {
        assert r[i + 1].0 == key;
      }
    }
    if UniqueKeys(r) {
      forall i, j | 0 <= i < j < |es| ensures es[i].0 != es[j].0 { assert r[i + 1].0 != r[j + 1].0; }
      forall i | 0 <= i < |es| ensures es[i].0 != e.0 { assert r[0].0 != r[i + 1].0; }
    }
  }

  lemma {:induction false} SortUnique(es: Entries)
    requires UniqueKeys(es)
    ensures UniqueKeys(SortEntries(es))
    ensures forall key :: HasKey(SortEntries(es), key) <==> HasKey(es, key)
    decreases |es|
  {
    if es != [] {
      assert es == [es[0]] + es[1..];
      ConsKeys(es[0], es[1..]);
      SortUnique(es[1..]);
      InsertUnique(es[0], SortEntries(es[1..]));
    }
  }

  lemma {:induction false} InsertLookup(e: (string, Value), es: Entries, key: string)
    requires !HasKey(es, e.0)
    ensures Lookup(InsertEntry(e, es), key) == if e.0 == key then Some(e.1) else Lookup(es, key)
    decreases |es|
  {
    if es == [] || Leq(e.0, es[0].0) {
      assert InsertEntry(e, es)[1..] == es;
    } else {
      assert es[0].0 != e.0 && es == [es[0]] + es[1..];
      ConsKeys(es[0], es[1..]);
      InsertLookup(e, es[1..], key);
      assert InsertEntry(e, es)[1..] == InsertEntry(e, es[1..]);
    }
  }

  /** A sorted dict answers every lookup as before. */
  lemma {:induction false} SortKeepsLookup(es: Entries, key: string)
    requires UniqueKeys(es)
    ensures Lookup(SortEntries(es), key) == Lookup(es, key)
    decreases |es|
  {
    if es != [] {
      assert es == [es[0]] + es[1..];
      ConsKeys(es[0], es[1..]);
      SortUnique(es[1..]);
      SortKeepsLookup(es[1..], key);
      InsertLookup(es[0], SortEntries(es[1..]), key);
    }
  }

  // ----- Sorting and the codec -----

  lemma TagIsSorted(a: Value, b: Value)
    ensures SortEntries([(TYPE_KEY, a), (DATA_KEY, b)]) == [(TYPE_KEY, a), (DATA_KEY, b)]
  {
    var es := [(TYPE_KEY, a), (DATA_KEY, b)];
    assert TYPE_KEY[0] == '_' && DATA_KEY[0] == 'b';
    assert Leq(TYPE_KEY, DATA_KEY);
    assert es[1..] == [(DATA_KEY, b)] && es[1..][1..] == [];
    assert SortEntries(es[1..]) == [(DATA_KEY, b)];
  }

  lemma SortedBytes(b: seq<Base64.Byte>)
    ensures Sorted(EncodeState(Bytes(b))) == EncodeState(Bytes(b))
  {
    var x, y := BYTES, Str(Base64.Encode(b));
    hide Base64.Encode;
    var es := [(TYPE_KEY, x), (DATA_KEY, y)];
    assert EncodeState(Bytes(b)) == Dict(es);
    SortedDict(es);
    assert MapValues(Sorted, es) == es;
    TagIsSorted(x, y);
  }

  lemma MappedDict(es: Entries)
    ensures EncodeState(Dict(es)) == Dict(MapValues(EncodeState, es)) &&
            AsLists(Dict(es)) == Dict(MapValues(AsLists, es))
  {
    assert MapValues(EncodeState, es) == seq(|es|, i requires 0 <= i < |es| => (es[i].0, EncodeState(es[i].1)));
    assert MapValues(AsLists, es) == seq(|es|, i requires 0 <= i < |es| => (es[i].0, AsLists(es[i].1)));
  }

  lemma SortedEncodedEntries(es: Entries)
    requires forall i :: 0 <= i < |es| ==> Sorted(EncodeState(es[i].1)) == EncodeState(Sorted(es[i].1))
    ensures Sorted(EncodeState(Dict(es))) == EncodeState(Sorted(Dict(es)))
  {
    DictCommutes(EncodeState, es);
    SortedDict(es);
    SortedDict(MapValues(EncodeState, es));
    MappedDict(es);
    MappedDict(SortEntries(MapValues(Sorted, es)));
    hide EncodeState, Sorted, SortEntries, MapValues;
  }

  lemma SortedAsListsDict(es: Entries)
    requires forall i :: 0 <= i < |es| ==> Sorted(AsLists(es[i].1)) == AsLists(Sorted(es[i].1))
    ensures Sorted(AsLists(Dict(es))) == AsLists(Sorted(Dict(es)))
  {
    DictCommutes(AsLists, es);
    SortedDict(es);
    SortedDict(MapValues(AsLists, es));
    MappedDict(es);
    MappedDict(SortEntries(MapValues(Sorted, es)));
    hide AsLists, Sorted, SortEntries, MapValues;
  }

  lemma SortedEncodedItems(xs: seq<Value>)
    requires forall i :: 0 <= i < |xs| ==> Sorted(EncodeState(xs[i])) == EncodeState(Sorted(xs[i]))
    ensures Sorted(EncodeState(List(xs))) == EncodeState(Sorted(List(xs)))
    ensures Sorted(EncodeState(Tuple(xs))) == EncodeState(Sorted(Tuple(xs)))
  {
  }

  lemma SortedAsListsItems(xs: seq<Value>)
    requires forall i :: 0 <= i < |xs| ==> Sorted(AsLists(xs[i])) == AsLists(Sorted(xs[i]))
    ensures Sorted(AsLists(List(xs))) == AsLists(Sorted(List(xs)))
    ensures Sorted(AsLists(Tuple(xs))) == AsLists(Sorted(Tuple(xs)))
  {
  }

  /** Sorting the encoded value is encoding the sorted one. */
  lemma {:induction false} SortedEncoded(v: Value)
    ensures Sorted(EncodeState(v)) == EncodeState(Sorted(v))
  {
    match v {
      case Bytes(b) => SortedBytes(b);
      case Dict(es) =>
        forall i | 0 <= i < |es| ensures Sorted(EncodeState(es[i].1)) == EncodeState(Sorted(es[i].1)) {
          SortedEncoded(es[i].1);
        }
        SortedEncodedEntries(es);
      case List(xs) =>
        forall i | 0 <= i < |xs| ensures Sorted(EncodeState(xs[i])) == EncodeState(Sorted(xs[i])) {
          SortedEncoded(xs[i]);
        }
        SortedEncodedItems(xs);
      case Tuple(xs) =>
        forall i | 0 <= i < |xs| ensures Sorted(EncodeState(xs[i])) == EncodeState(Sorted(xs[i])) {
          SortedEncoded(xs[i]);
        }
        SortedEncodedItems(xs);
      case _ =>
    }
  }

  lemma DictCommutes(f: Value -> Value, es: Entries)
    requires forall i :: 0 <= i < |es| ==> Sorted(f(es[i].1)) == f(Sorted(es[i].1))
    ensures SortEntries(MapValues(Sorted, MapValues(f, es))) == MapValues(f, SortEntries(MapValues(Sorted, es)))
  {
    assert MapValues(Sorted, MapValues(f, es)) == MapValues(f, MapValues(Sorted, es));
    SortMapped(f, MapValues(Sorted, es));
  }

  lemma {:induction false} SortedAsLists(v: Value)
    ensures Sorted(AsLists(v)) == AsLists(Sorted(v))
  {
    match v {
      case Dict(es) =>
        forall i | 0 <= i < |es| ensures Sorted(AsLists(es[i].1)) == AsLists(Sorted(es[i].1)) {
          SortedAsLists(es[i].1);
        }
        SortedAsListsDict(es);
      case List(xs) =>
        forall i | 0 <= i < |xs| ensures Sorted(AsLists(xs[i])) == AsLists(Sorted(xs[i])) { SortedAsLists(xs[i]); }
        SortedAsListsItems(xs);
      case Tuple(xs) =>
        forall i | 0 <= i < |xs| ensures Sorted(AsLists(xs[i])) == AsLists(Sorted(xs[i])) { SortedAsLists(xs[i]); }
        SortedAsListsItems(xs);
      case _ =>
    }
  }

  lemma SortMember(es: Entries, e: (string, Value))
    ensures e in SortEntries(es) <==> e in es
  {
    SortContents(es);
    hide SortEntries;
    assert e in SortEntries(es) <==> e in multiset(SortEntries(es));
    assert e in es <==> e in multiset(es);
  }

  /** A property of every entry survives sorting. */
  lemma SortKeepsAll(es: Entries, p: Value -> bool)
    ensures (forall i :: 0 <= i < |SortEntries(es)| ==> p(SortEntries(es)[i].1)) <==>
            forall i :: 0 <= i < |es| ==> p(es[i].1)
  {
    var sorted := SortEntries(es);
    hide SortEntries;
    if forall i :: 0 <= i < |es| ==> p(es[i].1) {
      forall i | 0 <= i < |sorted| ensures p(sorted[i].1) {
        SortMember(es, sorted[i]);
        var j :| 0 <= j < |es| && es[j] == sorted[i];
      }
    }
    if forall i :: 0 <= i < |sorted| ==> p(sorted[i].1) {
      forall j | 0 <= j < |es| ensures p(es[j].1) {
        SortMember(es, es[j]);
        var i :| 0 <= i < |sorted| && sorted[i] == es[j];
      }
    }
  }

  lemma {:induction false} SortedWellFormed(v: Value)
    requires WellFormed(v)
    ensures WellFormed(Sorted(v))
  {
    match v {
      case Dict(es) =>
        var gs := MapValues(Sorted, es);
        forall i | 0 <= i < |es| ensures WellFormed(gs[i].1) { SortedWellFormed(es[i].1); }
        assert UniqueKeys(gs);
        SortedDict(es);
        SortUnique(gs);
        SortKeepsAll(gs, WellFormed);
      case List(xs) => forall i | 0 <= i < |xs| ensures WellFormed(Sorted(xs[i])) { SortedWellFormed(xs[i]); }
      case Tuple(xs) => forall i | 0 <= i < |xs| ensures WellFormed(Sorted(xs[i])) { SortedWellFormed(xs[i]); }
      case _ =>
    }
  }

  lemma {:induction false} EncodedWellFormed(v: Value)
    requires WellFormed(v)
    ensures WellFormed(EncodeState(v))
  {
    match v {
      case Bytes(b) => KeysDiffer();
      case Dict(es) => forall i | 0 <= i < |es| ensures WellFormed(EncodeState(es[i].1)) { EncodedWellFormed(es[i].1); }
      case List(xs) => forall i | 0 <= i < |xs| ensures WellFormed(EncodeState(xs[i])) { EncodedWellFormed(xs[i]); }
      case Tuple(xs) => forall i | 0 <= i < |xs| ensures WellFormed(EncodeState(xs[i])) { EncodedWellFormed(xs[i]); }
      case _ =>
    }
  }

  lemma {:induction false} SortedNoOthers(v: Value)
    ensures NoOthers(v) ==> NoOthers(Sorted(v))
  {
    match v {
      case Dict(es) =>
        var gs := MapValues(Sorted, es);
        forall i | 0 <= i < |es| ensures NoOthers(es[i].1) ==> NoOthers(gs[i].1) { SortedNoOthers(es[i].1); }
        SortedDict(es);
        SortKeepsAll(gs, NoOthers);
      case List(xs) =>
        forall i | 0 <= i < |xs| ensures NoOthers(xs[i]) ==> NoOthers(Sorted(xs[i])) { SortedNoOthers(xs[i]); }
      case Tuple(xs) =>
        forall i | 0 <= i < |xs| ensures NoOthers(xs[i]) ==> NoOthers(Sorted(xs[i])) { SortedNoOthers(xs[i]); }
      case _ =>
    }
  }

  lemma {:induction false} MappedLookup(es: Entries, key: string)
    ensures Lookup(MapValues(Sorted, es), key)
            == if Lookup(es, key).Some? then Some(Sorted(Lookup(es, key).value)) else None
    decreases |es|
  {
    if es != [] {
      MappedLookup(es[1..], key);
      assert MapValues(Sorted, es)[1..] == MapValues(Sorted, es[1..]);
    }
  }

  lemma SortedKeepsTexts(v: Value, text: string)
    ensures Sorted(v) == Str(text) <==> v == Str(text)
  {
  }

  /** Sorting neither makes nor breaks a bytes tag. */
  lemma SortedTags(es: Entries)
    requires UniqueKeys(es)
    ensures TaggedAsBytes(SortEntries(MapValues(Sorted, es))) <==> TaggedAsBytes(es)
  {
    var gs := MapValues(Sorted, es);
    assert UniqueKeys(gs);
    SortKeepsLookup(gs, TYPE_KEY);
    SortKeepsLookup(gs, DATA_KEY);
    MappedLookup(es, TYPE_KEY);
    MappedLookup(es, DATA_KEY);
    if Lookup(es, TYPE_KEY).Some? {
      SortedKeepsTexts(Lookup(es, TYPE_KEY).value, BYTES.text);
    }
    hide Lookup, SortEntries, Sorted, MapValues;
  }

  lemma SortedUntaggedDict(es: Entries)
    requires UniqueKeys(es) && forall i :: 0 <= i < |es| ==> (Untagged(Sorted(es[i].1)) <==> Untagged(es[i].1))
    ensures Untagged(Sorted(Dict(es))) <==> Untagged(Dict(es))
  {
    var gs := MapValues(Sorted, es);
    SortedDict(es);
    SortedTags(es);
    SortKeepsAll(gs, Untagged);
    UntaggedDict(SortEntries(gs));
    UntaggedDict(es);
    assert forall i :: 0 <= i < |es| ==> gs[i].1 == Sorted(es[i].1);
    hide *;
  }

  lemma SortedUntaggedItems(xs: seq<Value>)
    requires forall i :: 0 <= i < |xs| ==> (Untagged(Sorted(xs[i])) <==> Untagged(xs[i]))
    ensures Untagged(Sorted(List(xs))) <==> Untagged(List(xs))
    ensures Untagged(Sorted(Tuple(xs))) <==> Untagged(Tuple(xs))
  {
    var ys := seq(|xs|, i requires 0 <= i < |xs| => Sorted(xs[i]));
    assert Sorted(List(xs)) == List(ys) && Sorted(Tuple(xs)) == Tuple(ys);
    hide Sorted, TaggedAsBytes;
    assert forall i :: 0 <= i < |xs| ==> (Untagged(ys[i]) <==> Untagged(xs[i]));
  }

  lemma {:induction false} SortedUntagged(v: Value)
    requires WellFormed(v)
    ensures Untagged(Sorted(v)) <==> Untagged(v)
  {
    hide TaggedAsBytes;
    match v {
      case Dict(es) =>
        forall i | 0 <= i < |es| ensures Untagged(Sorted(es[i].1)) <==> Untagged(es[i].1) { SortedUntagged(es[i].1); }
        SortedUntaggedDict(es);
      case List(xs) =>
        forall i | 0 <= i < |xs| ensures Untagged(Sorted(xs[i])) <==> Untagged(xs[i]) { SortedUntagged(xs[i]); }
        SortedUntaggedItems(xs);
      case Tuple(xs) =>
        forall i | 0 <= i < |xs| ensures Untagged(Sorted(xs[i])) <==> Untagged(xs[i]) { SortedUntagged(xs[i]); }
        SortedUntaggedItems(xs);
      case _ =>
    }
  }

  // ----- The row -----

  datatype Loaded = NoState | Raises | State(value: Value)

  type Sign = string -> string

  type Verify = (string, string) -> bool

  /** `json.loads`, or nothing where it raises. */
  type Loads = string -> Option<Value>

  /** The text of the row; nothing that is written through `str` is left in it. */
  function TextOf(state: Value): string { Dumps(_ => "", Sorted(EncodeState(state))) }

  /** What reading gives for a stored text and signature; an empty signature is not checked. */
  function LoadedFrom(loads: Loads, verify: Verify, text: Option<string>, signature: string): Loaded {
    if text.None? then NoState
    else
      var payload := loads(text.value);
      if payload.None? || !payload.value.Dict? then NoState
      else if signature != "" && !verify(text.value, signature) then NoState
      else
        var state := DecodeState(payload.value);
        if state.Ok? then State(state.value) else Raises
  }

  class Store {
    var stateJson: Option<string>
    var stateHmac: string
    const loads: Loads
    const sign: Sign
    const verify: Verify

    constructor (loads: Loads, sign: Sign, verify: Verify)
      ensures stateJson == None && stateHmac == ""
      ensures this.loads == loads && this.sign == sign && this.verify == verify
    {
      stateJson, stateHmac := None, "";
      this.loads, this.sign, this.verify := loads, sign, verify;
    }

    /** `ok` is false where `json.dumps` raises. */
    method WriteState(state: Value) returns (ok: bool)
      modifies this
      ensures ok == NoOthers(state)
      ensures ok ==> stateJson == Some(TextOf(state)) && stateHmac == sign(TextOf(state))
      ensures !ok ==> stateJson == old(stateJson) && stateHmac == old(stateHmac)
    {
      var encoded := EncodeState(state);
      EncodedIsJsonIff(state);
      if !IsJson(encoded) {
        return false;
      }
      var text := Dumps(_ => "", Sorted(encoded));
      assert text == TextOf(state);
      stateJson := Some(text);
      stateHmac := sign(text);
      ok := true;
    }

    method ReadState() returns (r: Loaded)
      ensures r == LoadedFrom(loads, verify, stateJson, stateHmac)
    {
      if stateJson.None? {
        return NoState;
      }
      var payload := loads(stateJson.value);
      if payload.None? || !payload.value.Dict? {
        return NoState;
      }
      if stateHmac != "" && !verify(stateJson.value, stateHmac) {
        return NoState;
      }
      var state := DecodeState(payload.value);
      r := if state.Ok? then State(state.value) else Raises;
    }
  }

  /** The reader undoes `json.dumps` on JSON values. */
  ghost predicate UndoesDumps(loads: Loads) {
    forall show: Show, v: Value :: IsJson(v) && WellFormed(v) ==> loads(Dumps(show, v)) == Some(v)
  }

  /** There are such readers. */
  lemma ParseUndoesDumps()
    ensures UndoesDumps(Parse)
  {
    forall show: Show, v: Value | IsJson(v) && WellFormed(v) ensures Parse(Dumps(show, v)) == Some(v) {
      JsonIsPrintable(show, v);
      ValueText.RoundTripIff(Json(show), v, 0);
    }
  }

  lemma TextReads(loads: Loads, state: Value)
    requires UndoesDumps(loads) && WellFormed(state) && NoOthers(state)
    ensures loads(TextOf(state)) == Some(EncodeState(Sorted(state)))
  {
    hide EncodeState, Sorted, Print, IsJson, NoOthers, WellFormed;
    SortedEncoded(state);
    SortedNoOthers(state);
    SortedWellFormed(state);
    EncodedIsJsonIff(Sorted(state));
    EncodedWellFormed(Sorted(state));
    var show: Show := _ => "";
    assert TextOf(state) == Dumps(show, EncodeState(Sorted(state)));
  }

  /** The main theorem: what is written is read back, with its keys in order and tuples turned into
      lists, exactly when none of its dicts looks like encoded bytes. */
  lemma {:induction false} WrittenIsReadIff(loads: Loads, sign: Sign, verify: Verify, state: Value)
    requires UndoesDumps(loads) && WellFormed(state) && NoOthers(state) && state.Dict?
    requires verify(TextOf(state), sign(TextOf(state)))
    ensures LoadedFrom(loads, verify, Some(TextOf(state)), sign(TextOf(state))) == State(Sorted(AsLists(state)))
            <==> Untagged(state)
    ensures DeepInOrder(Sorted(AsLists(state)))
  {
    assert EncodeState(Sorted(state)).Dict?;
    hide EncodeState, DecodeState, AsLists, Untagged, Sorted, TextOf, NoOthers, WellFormed, UndoesDumps, DeepInOrder;
    TextReads(loads, state);
    StateCodec.RoundTripIff(Sorted(state));
    SortedUntagged(state);
    SortedAsLists(state);
    SortedIsInOrder(AsLists(state));
  }
}
