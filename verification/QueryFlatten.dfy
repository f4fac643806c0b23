/**
 Flattening a JSON body into the flat parameters of the legacy SQS query protocol
 (core/elasticmq_proxy.py): one parameter per scalar, named by its dotted, 1-based path.
 `show` stands for Python's `str` of a scalar.
 */
module QueryFlatten {
  import opened Common
  import opened Decimal
  import opened PyValue

  predicate Container(v: Value) { v.Dict? || v.List? }

  // ----- The children of a container, by segment -----

  function Segment(v: Value, i: nat): string
    requires i < Count(v)
  {
    if v.Dict? then v.entries[i].0 else Digits(i + 1)
  }

  function Child(v: Value, i: nat): (c: Value)
    requires i < Count(v)
    ensures c < v
  {
    if v.Dict? then v.entries[i].1 else v.items[i]
  }

  // ----- The scalar leaves of a tree -----

  type Path = seq<string>

  /** The scalar leaves of the first `n` children, in order, each with its path. */
  function LeavesBelow(v: Value, n: nat): seq<(Path, Value)>
    requires n <= Count(v)
    decreases v, n
  {
    if n == 0 then []
    else LeavesBelow(v, n - 1) + LeavesOfChild(Segment(v, n - 1), Child(v, n - 1))
  }

  function LeavesOfChild(segment: string, c: Value): seq<(Path, Value)>
    decreases c, Count(c) + 1
  {
    if Container(c) then Under(segment, LeavesBelow(c, Count(c))) else [([segment], c)]
  }

  function Leaves(v: Value): seq<(Path, Value)> { LeavesBelow(v, Count(v)) }

  function Under(segment: string, leaves: seq<(Path, Value)>): seq<(Path, Value)> {
    seq(|leaves|, i requires 0 <= i < |leaves| => ([segment] + leaves[i].0, leaves[i].1))
  }

  // ----- Dotted names -----

  function Dot(prefix: string, segment: string): string { if prefix != "" then prefix + "." + segment else segment }

  /** The name of a path below a prefix. */
  function Name(prefix: string, path: Path): string
    decreases |path|
  {
    if path == [] then prefix else Name(Dot(prefix, path[0]), path[1..])
  }

  function Params(show: Value -> string, prefix: string, leaves: seq<(Path, Value)>): seq<(string, string)> {
    seq(|leaves|, i requires 0 <= i < |leaves| => (Name(prefix, leaves[i].0), show(leaves[i].1)))
  }

  /** The dict left by assigning the parameters in order. */
  function Assigned(params: seq<(string, string)>): map<string, string> {
    if params == [] then map[] else Assigned(params[..|params| - 1])[params[|params| - 1].0 := params[|params| - 1].1]
  }

  // ----- The flattener -----

  method Flatten(show: Value -> string, v: Value, prefix: string) returns (out: map<string, string>)
    ensures Container(v) ==> out == Assigned(Params(show, prefix, Leaves(v)))
    ensures !Container(v) ==> out == if prefix != "" then map[prefix := show(v)] else map[]
    decreases v
  {
    out := map[];
    if Container(v) {
      for i := 0 to Count(v)
        invariant out == Assigned(Params(show, prefix, LeavesBelow(v, i)))
      {
        var key, c := Dot(prefix, Segment(v, i)), Child(v, i);
        NextChild(show, v, prefix, i);
        if Container(c) {
          var sub := Flatten(show, c, key);
          out := out + sub;
        } else {
          out := out[key := show(c)];
        }
      }
    } else if prefix != "" {
      out := out[prefix := show(v)];
    }
  }

  /** What one more child adds to the dict. */
  lemma NextChild(show: Value -> string, v: Value, prefix: string, i: nat)
    requires i < Count(v)
    ensures var key, c, before := Dot(prefix, Segment(v, i)), Child(v, i),
            Assigned(Params(show, prefix, LeavesBelow(v, i)));
            Assigned(Params(show, prefix, LeavesBelow(v, i + 1)))
            == if Container(c) then before + Assigned(Params(show, key, Leaves(c))) else before[key := show(c)]
  {
    var key, c := Dot(prefix, Segment(v, i)), Child(v, i);
    var before, leaves := Params(show, prefix, LeavesBelow(v, i)), LeavesOfChild(Segment(v, i), c);
    assert LeavesBelow(v, i + 1) == LeavesBelow(v, i) + leaves;
    ParamsConcat(show, prefix, LeavesBelow(v, i), leaves);
    if Container(c) {
      AssignedConcat(before, Params(show, prefix, leaves));
      ParamsUnder(show, prefix, Segment(v, i), Leaves(c));
    } else {
      OneLeaf(show, prefix, Segment(v, i), c);
      assert (before + [(key, show(c))])[..|before|] == before;
    }
  }

  lemma OneLeaf(show: Value -> string, prefix: string, segment: string, c: Value)
    ensures Params(show, prefix, [([segment], c)]) == [(Dot(prefix, segment), show(c))]
  {
    assert [segment][1..] == [];
    assert Name(prefix, [segment]) == Name(Dot(prefix, segment), []);
  }

  lemma ParamsConcat(show: Value -> string, prefix: string, a: seq<(Path, Value)>, b: seq<(Path, Value)>)
    ensures Params(show, prefix, a + b) == Params(show, prefix, a) + Params(show, prefix, b)
  {
  }

  lemma ParamsUnder(show: Value -> string, prefix: string, segment: string, leaves: seq<(Path, Value)>)
    ensures Params(show, prefix, Under(segment, leaves)) == Params(show, Dot(prefix, segment), leaves)
  {
    forall i | 0 <= i < |leaves|
      ensures Name(prefix, [segment] + leaves[i].0) == Name(Dot(prefix, segment), leaves[i].0)
    {
      assert ([segment] + leaves[i].0)[1..] == leaves[i].0;
    }
  }

  lemma {:induction false} AssignedConcat(a: seq<(string, string)>, b: seq<(string, string)>)
    ensures Assigned(a + b) == Assigned(a) + Assigned(b)
    decreases |b|
  {
    if b == [] {
      assert a + b == a;
    } else {
      var front := b[..|b| - 1];
      assert (a + b)[..|a + b| - 1] == a + front;
      AssignedConcat(a, front);
    }
  }

  // ----- No leaf overwrites another -----

  predicate Dotless(s: string) { s != "" && forall i :: 0 <= i < |s| ==> s[i] != '.' }

  /** Every dict key, at any depth, is non-empty and free of dots; keys of one dict differ, as Python's do. */
  predicate Clean(v: Value)
    decreases v
  {
    (v.Dict? ==> UniqueKeys(v.entries) && forall i :: 0 <= i < |v.entries| ==> Dotless(v.entries[i].0))
    && forall i :: 0 <= i < Count(v) ==> Clean(Child(v, i))
  }

  predicate DotlessPath(path: Path) { path != [] && forall i :: 0 <= i < |path| ==> Dotless(path[i]) }

  lemma DigitsAreDotless(n: nat)
    ensures Dotless(Digits(n))
  {
    var s := Digits(n);
    forall i | 0 <= i < |s| ensures s[i] != '.' { assert Text.IsDigit(s[i]); }
  }

  lemma SegmentIsDotless(v: Value, i: nat)
    requires Clean(v) && i < Count(v)
    ensures Dotless(Segment(v, i))
  {
    DigitsAreDotless(i + 1);
  }

  lemma SegmentsDiffer(v: Value, i: nat, j: nat)
    requires Clean(v) && i < j < Count(v)
    ensures Segment(v, i) != Segment(v, j)
  {
    if !v.Dict? && Digits(i + 1) == Digits(j + 1) {
      DigitsInjective(i + 1, j + 1);
    }
  }

  /** A leaf below the first `n` children lies below one of them, and its path starts with its segment. */
  lemma {:induction false} LeafStart(v: Value, n: nat, k: nat) returns (i: nat)
    requires Clean(v) && n <= Count(v) && k < |LeavesBelow(v, n)|
    ensures i < n && LeavesBelow(v, n)[k].0 != [] && LeavesBelow(v, n)[k].0[0] == Segment(v, i)
    decreases n
  {
    if k < |LeavesBelow(v, n - 1)| {
      i := LeafStart(v, n - 1, k);
    } else {
      i := n - 1;
    }
  }

  lemma {:induction false} PathsAreDotless(v: Value, n: nat)
    requires Clean(v) && n <= Count(v)
    ensures forall k :: 0 <= k < |LeavesBelow(v, n)| ==> DotlessPath(LeavesBelow(v, n)[k].0)
    decreases v, n
  {
    if n > 0 {
      PathsAreDotless(v, n - 1);
      var segment, c := Segment(v, n - 1), Child(v, n - 1);
      SegmentIsDotless(v, n - 1);
      var leaves := LeavesOfChild(segment, c);
      if Container(c) {
        PathsAreDotless(c, Count(c));
        UnderDotless(segment, Leaves(c));
      }
      assert forall k :: 0 <= k < |leaves| ==> DotlessPath(leaves[k].0);
    }
  }

  lemma UnderDotless(segment: string, leaves: seq<(Path, Value)>)
    requires Dotless(segment) && forall k :: 0 <= k < |leaves| ==> DotlessPath(leaves[k].0)
    ensures forall k :: 0 <= k < |leaves| ==> DotlessPath(Under(segment, leaves)[k].0)
  {
    forall k | 0 <= k < |leaves| ensures DotlessPath([segment] + leaves[k].0) {
      assert DotlessPath(leaves[k].0);
    }
  }

  predicate Distinct(leaves: seq<(Path, Value)>) {
    forall j, k :: 0 <= j < k < |leaves| ==> leaves[j].0 != leaves[k].0
  }

  lemma UnderDistinct(segment: string, leaves: seq<(Path, Value)>)
    requires Distinct(leaves)
    ensures Distinct(Under(segment, leaves))
  {
    forall j, k | 0 <= j < k < |leaves| ensures [segment] + leaves[j].0 != [segment] + leaves[k].0 {
      assert ([segment] + leaves[j].0)[1..] == leaves[j].0 && ([segment] + leaves[k].0)[1..] == leaves[k].0;
    }
  }

  /** Different leaves have different paths. */
  lemma {:induction false} PathsDiffer(v: Value, n: nat)
    requires Clean(v) && n <= Count(v)
    ensures Distinct(LeavesBelow(v, n))
    decreases v, n
  {
    if n > 0 {
      var before := LeavesBelow(v, n - 1);
      var segment, c := Segment(v, n - 1), Child(v, n - 1);
      var after := LeavesOfChild(segment, c);
      PathsDiffer(v, n - 1);
      if Container(c) {
        PathsDiffer(c, Count(c));
        UnderDistinct(segment, Leaves(c));
      }
      forall j, k | 0 <= j < |before| && 0 <= k < |after| ensures before[j].0 != after[k].0 {
        var i := LeafStart(v, n - 1, j);
        SegmentsDiffer(v, i, n - 1);
        assert after[k].0[0] == segment;
      }
    }
  }

  /** A path joined with dots. */
  function Join(path: Path): string
    requires path != []
  {
    if |path| == 1 then path[0] else path[0] + "." + Join(path[1..])
  }

  lemma {:induction false} NameIsJoin(prefix: string, path: Path)
    requires DotlessPath(path)
    ensures Name(prefix, path) == Dot(prefix, Join(path))
    decreases |path|
  {
    if |path| > 1 {
      NameIsJoin(Dot(prefix, path[0]), path[1..]);
      if prefix != "" {
        assert prefix + "." + path[0] + "." + Join(path[1..]) == prefix + "." + (path[0] + "." + Join(path[1..]));
      }
    }
  }

  /** A joined path ends its first segment at its first dot, so it can be taken apart again. */
  lemma {:induction false} JoinIsInjective(p: Path, q: Path)
    requires DotlessPath(p) && DotlessPath(q) && Join(p) == Join(q)
    ensures p == q
    decreases |p|
  {
    var s := Join(p);
    FirstSegment(p);
    FirstSegment(q);
    assert forall k :: 0 <= k < |p[0]| ==> s[k] == p[0][k] && s[k] != '.';
    assert forall k :: 0 <= k < |q[0]| ==> s[k] == q[0][k] && s[k] != '.';
    assert |p[0]| == |q[0]|;
    assert p[0] == s[..|p[0]|] == q[0];
    if |p| > 1 && |q| > 1 {
      assert Join(p[1..]) == s[|p[0]| + 1..] == Join(q[1..]);
      JoinIsInjective(p[1..], q[1..]);
      assert p == [p[0]] + p[1..] && q == [q[0]] + q[1..];
    }
  }

  lemma FirstSegment(p: Path)
    requires DotlessPath(p)
    ensures var s := Join(p);
            && |p[0]| <= |s| && s[..|p[0]|] == p[0]
            && (|p| == 1 <==> |s| == |p[0]|)
            && (|p| > 1 ==> s[|p[0]|] == '.' && s[|p[0]| + 1..] == Join(p[1..]))
  {
    if |p| > 1 {
      var s := Join(p);
      assert s == (p[0] + ".") + Join(p[1..]);
      assert s[|p[0]| + 1..] == Join(p[1..]);
    }
  }

  /** The names of the parameters are the keys of the dict. */
  lemma {:induction false} AssignedKeys(params: seq<(string, string)>, key: string)
    ensures key in Assigned(params) <==> exists i :: 0 <= i < |params| && params[i].0 == key
  {
    if params != [] {
      var front := params[..|params| - 1];
      AssignedKeys(front, key);
      if i :| 0 <= i < |params| && params[i].0 == key {
        if i < |front| {
          assert front[i].0 == key;
        }
      }
      if i :| 0 <= i < |front| && front[i].0 == key {
        assert params[i].0 == key;
      }
      assert params[|params| - 1].0 in Assigned(params);
    }
  }

  lemma {:induction false} AssignedDistinct(params: seq<(string, string)>)
    requires forall i, j :: 0 <= i < j < |params| ==> params[i].0 != params[j].0
    ensures |Assigned(params)| == |params|
    ensures forall i :: 0 <= i < |params| ==>
            params[i].0 in Assigned(params) && Assigned(params)[params[i].0] == params[i].1
  {
    if params != [] {
      var front, last := params[..|params| - 1], params[|params| - 1];
      AssignedDistinct(front);
      AssignedKeys(front, last.0);
      assert Assigned(params).Keys == Assigned(front).Keys + {last.0};
      forall i | 0 <= i < |params|
        ensures params[i].0 in Assigned(params) && Assigned(params)[params[i].0] == params[i].1
      {
        assert i < |front| ==> front[i] == params[i] && params[i].0 != last.0;
      }
    }
  }

  /** The main theorem: the flat parameters of a clean tree are exactly one per scalar leaf, named by
      the dotted path of the leaf and holding its text. */
  lemma {:induction false} OneParameterPerLeaf(show: Value -> string, v: Value)
    requires Clean(v)
    ensures var leaves, out := Leaves(v), Assigned(Params(show, "", Leaves(v)));
            && |out| == |leaves|
            && (forall k :: 0 <= k < |leaves| ==>
                  leaves[k].0 != [] && Join(leaves[k].0) in out && out[Join(leaves[k].0)] == show(leaves[k].1))
            && (forall key :: key in out ==>
              exists k :: 0 <= k < |leaves| && leaves[k].0 != [] && key == Join(leaves[k].0))
  {
    var leaves, params := Leaves(v), Params(show, "", Leaves(v));
    PathsAreDotless(v, Count(v));
    forall k | 0 <= k < |leaves| ensures params[k].0 == Join(leaves[k].0) {
      NameIsJoin("", leaves[k].0);
    }
    PathsDiffer(v, Count(v));
    forall i, j | 0 <= i < j < |params| ensures params[i].0 != params[j].0 {
      if Join(leaves[i].0) == Join(leaves[j].0) {
        JoinIsInjective(leaves[i].0, leaves[j].0);
      }
    }
    AssignedDistinct(params);
    forall key | key in Assigned(params)
      ensures exists k :: 0 <= k < |leaves| && leaves[k].0 != [] && key == Join(leaves[k].0)
    {
      AssignedKeys(params, key);
      var k :| 0 <= k < |params| && params[k].0 == key;
      assert DotlessPath(leaves[k].0);
    }
  }

  // ----- The condition on keys is needed -----

  lemma LeavesOfOne(key: string, c: Value)
    ensures Leaves(Dict([(key, c)])) == LeavesOfChild(key, c)
  {
    hide LeavesOfChild;
    var v := Dict([(key, c)]);
    assert LeavesBelow(v, 1) == LeavesBelow(v, 0) + LeavesOfChild(key, c);
  }

  lemma LeavesOfTwo(k: string, c: Value, l: string, d: Value)
    ensures Leaves(Dict([(k, c), (l, d)])) == LeavesOfChild(k, c) + LeavesOfChild(l, d)
  {
    hide LeavesOfChild;
    var v := Dict([(k, c), (l, d)]);
    assert LeavesBelow(v, 1) == LeavesBelow(v, 0) + LeavesOfChild(k, c);
    assert LeavesBelow(v, 2) == LeavesBelow(v, 1) + LeavesOfChild(l, d);
  }

  lemma NameOfTwo(prefix: string, p: string, q: string)
    ensures Name(prefix, [p]) == Dot(prefix, p) && Name(prefix, [p, q]) == Dot(Dot(prefix, p), q)
  {
    assert [p][1..] == [] && [p, q][1..] == [q] && [q][1..] == [];
    assert Name(Dot(prefix, p), [q]) == Name(Dot(Dot(prefix, p), q), []);
  }

  /** Of two leaves with one name the second one stays. */
  lemma SecondStays(show: Show, prefix: string, leaves: seq<(Path, Value)>)
    requires |leaves| == 2 && Name(prefix, leaves[0].0) == Name(prefix, leaves[1].0)
    ensures Assigned(Params(show, prefix, leaves)) == map[Name(prefix, leaves[1].0) := show(leaves[1].1)]
  {
    var params := Params(show, prefix, leaves);
    assert params[..1][..0] == [] && params[..1] == [params[0]];
    assert Assigned(params[..1]) == map[params[0].0 := params[0].1];
  }

  /** A key with a dot in it, next to a dict under the part before the dot, loses a leaf: below any prefix, and
      at the top if something stands before the dot. */
  lemma {:induction false} DottedKeyCollides(show: Show, prefix: string, a: string, b: string, x: Value, y: Value)
    requires !Container(x) && !Container(y) && (prefix != "" || a != "")
    ensures var v := Dict([(a + "." + b, x), (a, Dict([(b, y)]))]);
            && |Leaves(v)| == 2
            && Assigned(Params(show, prefix, Leaves(v))) == map[Dot(prefix, a + "." + b) := show(y)]
  {
    var dotted, inner := a + "." + b, Dict([(b, y)]);
    LeavesOfOne(b, y);
    LeavesOfTwo(dotted, x, a, inner);
    assert [a] + [b] == [a, b];
    assert Under(a, [([b], y)]) == [([a, b], y)];
    var leaves := Leaves(Dict([(dotted, x), (a, inner)]));
    assert leaves == [([dotted], x), ([a, b], y)];
    NameOfTwo(prefix, dotted, b);
    NameOfTwo(prefix, a, b);
    assert prefix != "" ==> prefix + "." + (a + "." + b) == (prefix + "." + a) + "." + b;
    SecondStays(show, prefix, leaves);
  }

  /** An empty key at the top adds nothing to the names below it. */
  lemma {:induction false} EmptyKeyCollides(show: Show, a: string, x: Value, y: Value)
    requires !Container(x) && !Container(y)
    ensures var v := Dict([("", Dict([(a, x)])), (a, y)]);
            |Leaves(v)| == 2 && Assigned(Params(show, "", Leaves(v))) == map[a := show(y)]
  {
    var inner := Dict([(a, x)]);
    LeavesOfOne(a, x);
    LeavesOfTwo("", inner, a, y);
    assert [""] + [a] == ["", a];
    assert Under("", [([a], x)]) == [(["", a], x)];
    var leaves := Leaves(Dict([("", inner), (a, y)]));
    assert leaves == [(["", a], x), ([a], y)];
    NameOfTwo("", "", a);
    NameOfTwo("", a, a);
    SecondStays(show, "", leaves);
  }

  /** The key occurs in the tree. */
  predicate HasKey(v: Value, key: string) {
    v.Dict? && exists i :: 0 <= i < |v.entries| && (v.entries[i].0 == key || HasKey(v.entries[i].1, key))
  }

  lemma Nested(show: Show, p: string, c: Value)
    requires c.Dict? && p != ""
    ensures Leaves(Dict([(p, c)])) == Under(p, Leaves(c))
    ensures Params(show, "", Leaves(Dict([(p, c)]))) == Params(show, p, Leaves(c))
  {
    LeavesOfOne(p, c);
    var leaves, under := Leaves(c), Under(p, Leaves(c));
    forall i | 0 <= i < |leaves| ensures Name("", under[i].0) == Name(p, leaves[i].0) {
      assert under[i].0[1..] == leaves[i].0;
    }
  }

  /** So the condition of `OneParameterPerLeaf` excludes no key without need: every key that is empty or
      has a dot in it occurs in a tree that loses a leaf. */
  lemma {:induction false} BadKeyLosesALeaf(show: Show, key: string, x: Value, y: Value) returns (v: Value)
    requires !Dotless(key) && !Container(x) && !Container(y)
    ensures HasKey(v, key) && |Assigned(Params(show, "", Leaves(v)))| < |Leaves(v)|
  {
    if key == "" {
      v := Dict([("", Dict([("a", x)])), ("a", y)]);
      EmptyKeyCollides(show, "a", x, y);
      assert v.entries[0].0 == key;
    } else {
      var i :| 0 <= i < |key| && key[i] == '.';
      var a, b := key[..i], key[i + 1..];
      assert key == a + "." + b;
      var inner := Dict([(a + "." + b, x), (a, Dict([(b, y)]))]);
      v := Dict([("p", inner)]);
      DottedKeyCollides(show, "p", a, b, x, y);
      Nested(show, "p", inner);
      assert inner.entries[0].0 == key && HasKey(inner, key);
      assert v.entries[0].1 == inner;
    }
  }
}
