/**
 How the Terraform exporter names resources (core/terraform_export.py). Every supported node gets a
 type and a name; the name is a slug, with the first free suffix when the slug is taken.
 The table of resource types and the attributes of a resource are parameters.
 */
module TerraformNames {
  import opened Common
  import opened Text
  import opened Decimal
  import opened ValueText

  // ----- Slugs -----

  predicate WordChar(c: char) { IsDigit(c) || IsLetter(c) || c == '_' }

  function SkipOthers(s: string): (r: string)
    ensures |r| <= |s|
  {
    if s != [] && !WordChar(s[0]) then SkipOthers(s[1..]) else s
  }

  /** Every run of other characters becomes one underscore. */
  function Underscored(s: string): string
    decreases |s|
  {
    if s == [] then []
    else if WordChar(s[0]) then [s[0]] + Underscored(s[1..])
    else ['_'] + Underscored(SkipOthers(s[1..]))
  }

  /** Every run of underscores becomes one. */
  function Squeezed(s: string): string {
    if |s| >= 2 && s[0] == '_' && s[1] == '_' then Squeezed(s[1..])
    else if s == [] then []
    else [s[0]] + Squeezed(s[1..])
  }

  function TrimLeft(s: string): string { if s != [] && s[0] == '_' then TrimLeft(s[1..]) else s }

  function TrimRight(s: string): string { if s != [] && s[|s| - 1] == '_' then TrimRight(s[..|s| - 1]) else s }

  const FALLBACK := "resource"
  const MAX_SLUG := 63

  /** `_slug(value)`. */
  function Slug(value: string): string {
    var text := Squeezed(Underscored(ToLower(OrDefault(Strip(value), FALLBACK))));
    Finished(TrimRight(TrimLeft(text)))
  }

  function Finished(trimmed: string): string {
    var word := if trimmed == [] then FALLBACK else trimmed;
    var named := if IsDigit(word[0]) then "r_" + word else word;
    if |named| > MAX_SLUG then named[..MAX_SLUG] else named
  }

  predicate LowerWord(s: string) { forall i :: 0 <= i < |s| ==> IsDigit(s[i]) || 'a' <= s[i] <= 'z' || s[i] == '_' }

  predicate NoDoubles(s: string) { forall i, j :: 0 <= i < |s| && j == i + 1 < |s| ==> s[i] != '_' || s[j] != '_' }

  /** A lower-case identifier that starts with a letter, has no doubled underscore and is not too long. */
  predicate Clean(s: string) {
    s != [] && |s| <= MAX_SLUG && 'a' <= s[0] <= 'z' && LowerWord(s) && NoDoubles(s)
  }

  predicate NoUpper(s: string) { forall i :: 0 <= i < |s| ==> !('A' <= s[i] <= 'Z') }

  lemma {:induction false} SkipKeepsLower(s: string)
    requires NoUpper(s)
    ensures NoUpper(SkipOthers(s))
  {
    if s != [] && !WordChar(s[0]) {
      SkipKeepsLower(s[1..]);
    }
  }

  lemma {:induction false} UnderscoredIsWord(s: string)
    requires NoUpper(s)
    ensures LowerWord(Underscored(s))
    decreases |s|
  {
    if s != [] {
      SkipKeepsLower(s[1..]);
      UnderscoredIsWord(if WordChar(s[0]) then s[1..] else SkipOthers(s[1..]));
    }
  }

  lemma {:induction false} SqueezedHasNoDoubles(s: string)
    requires LowerWord(s)
    ensures LowerWord(Squeezed(s)) && NoDoubles(Squeezed(s))
    ensures s != [] ==> Squeezed(s) != [] && Squeezed(s)[0] == s[0]
  {
    if s != [] {
      SqueezedHasNoDoubles(s[1..]);
    }
  }

  lemma TailHasNoDoubles(s: string)
    requires NoDoubles(s) && s != []
    ensures NoDoubles(s[1..])
  {
    var t := s[1..];
    forall i, j | 0 <= i < |t| && j == i + 1 < |t| ensures t[i] != '_' || t[j] != '_' {
      assert t[i] == s[i + 1] && t[j] == s[j + 1];
    }
  }

  lemma {:induction false} TrimLeftTrims(s: string)
    requires LowerWord(s) && NoDoubles(s)
    ensures LowerWord(TrimLeft(s)) && NoDoubles(TrimLeft(s)) && (TrimLeft(s) == [] || TrimLeft(s)[0] != '_')
  {
    if s != [] && s[0] == '_' {
      TailHasNoDoubles(s);
      TrimLeftTrims(s[1..]);
    }
  }

  lemma {:induction false} TrimRightTrims(s: string)
    requires LowerWord(s) && NoDoubles(s)
    ensures TrimRight(s) <= s && (TrimRight(s) == [] || TrimRight(s)[|TrimRight(s)| - 1] != '_')
    ensures LowerWord(TrimRight(s)) && NoDoubles(TrimRight(s))
  {
    if s != [] && s[|s| - 1] == '_' {
      TrimRightTrims(s[..|s| - 1]);
    }
  }

  /** Whatever the value, its slug is a clean name. */
  lemma {:induction false} SlugIsClean(value: string)
    ensures Clean(Slug(value))
  {
    var lower := ToLower(OrDefault(Strip(value), FALLBACK));
    UnderscoredIsWord(lower);
    SqueezedHasNoDoubles(Underscored(lower));
    var text := Squeezed(Underscored(lower));
    TrimLeftTrims(text);
    TrimRightTrims(TrimLeft(text));
    hide Squeezed, Underscored, ToLower, Strip;
    var trimmed := TrimRight(TrimLeft(text));
    assert trimmed != [] ==> trimmed[0] == TrimLeft(text)[0];
    FinishedIsClean(trimmed);
  }

  lemma FinishedIsClean(trimmed: string)
    requires LowerWord(trimmed) && NoDoubles(trimmed) && (trimmed == [] || trimmed[0] != '_')
    ensures Clean(Finished(trimmed))
  {
    var word := if trimmed == [] then FALLBACK else trimmed;
    assert LowerWord(word) && NoDoubles(word) && word[0] != '_';
    var named := if IsDigit(word[0]) then "r_" + word else word;
    if IsDigit(word[0]) {
      forall i, j | 0 <= i < |named| && j == i + 1 < |named| ensures named[i] != '_' || named[j] != '_' {
        if i >= 2 {
          assert named[i] == word[i - 2] && named[j] == word[j - 2];
        }
      }
    }
    assert LowerWord(named) && NoDoubles(named);
  }

  lemma {:induction false} CleanStays(s: string)
    requires LowerWord(s) && NoDoubles(s)
    ensures Underscored(s) == s && Squeezed(s) == s
  {
    if s != [] {
      TailHasNoDoubles(s);
      CleanStays(s[1..]);
      assert s == [s[0]] + s[1..];
    }
  }

  /** The slugs that stay as they are: the clean names that do not end in an underscore. */
  lemma {:induction false} SlugFixedIff(value: string)
    ensures Slug(value) == value <==> Clean(value) && value[|value| - 1] != '_'
  {
    SlugIsClean(value);
    if Clean(value) {
      CleanSlug(value);
      FinishedKeeps(value);
    }
  }

  lemma CleanSlug(value: string)
    requires Clean(value)
    ensures Slug(value) == Finished(TrimRight(value))
  {
    NothingToStrip(value);
    assert ToLower(value) == value;
    hide ToLower, Strip, Squeezed, Underscored, Finished;
    CleanStays(value);
    assert TrimLeft(value) == value;
  }

  lemma FinishedKeeps(value: string)
    requires Clean(value)
    ensures Finished(TrimRight(value)) == value <==> value[|value| - 1] != '_'
  {
    TrimRightTrims(value);
    var trimmed := TrimRight(value);
    if value[|value| - 1] != '_' {
      assert trimmed == value;
    } else if trimmed != [] {
      assert trimmed[0] == value[0];
      assert Finished(trimmed) == trimmed;
    }
  }

  // ----- Suffixes -----

  /** The names tried in turn: the seed, `seed_2`, `seed_3`, and so on. */
  function Candidate(seed: string, k: nat): string { if k <= 1 then seed else seed + ("_" + Digits(k)) }

  lemma CandidatesDiffer(seed: string, j: nat, k: nat)
    requires 1 <= j < k
    ensures Candidate(seed, j) != Candidate(seed, k)
  {
    var tail := "_" + Digits(k);
    assert Candidate(seed, k)[|seed|..] == tail;
    if j > 1 && Candidate(seed, j) == Candidate(seed, k) {
      assert Candidate(seed, j)[|seed|..] == "_" + Digits(j);
      assert ("_" + Digits(j))[1..] == Digits(j) && tail[1..] == Digits(k);
      DigitsInjective(j, k);
    }
  }

  type Name = (string, string)

  /** The first `k` candidates all are in use. */
  predicate TakenUpTo(used: set<Name>, tfType: string, seed: string, k: nat) {
    forall j :: 1 <= j <= k ==> (tfType, Candidate(seed, j)) in used
  }

  function Tried(tfType: string, seed: string, k: nat): (tried: set<Name>)
    ensures forall j :: 1 <= j <= k ==> (tfType, Candidate(seed, j)) in tried
    ensures forall name :: name in tried ==> exists j :: 1 <= j <= k && name == (tfType, Candidate(seed, j))
  {
    if k == 0 then {} else Tried(tfType, seed, k - 1) + {(tfType, Candidate(seed, k))}
  }

  lemma {:induction false} TriedSize(tfType: string, seed: string, k: nat)
    ensures |Tried(tfType, seed, k)| == k
  {
    if k > 0 {
      TriedSize(tfType, seed, k - 1);
      forall j | 1 <= j < k ensures Candidate(seed, j) != Candidate(seed, k) {
        CandidatesDiffer(seed, j, k);
      }
    }
  }

  /** The pigeonhole argument: no more candidates can be in use than there are names in use. */
  lemma {:induction false} TakenFit(used: set<Name>, tfType: string, seed: string, k: nat)
    requires TakenUpTo(used, tfType, seed, k)
    ensures k <= |used|
  {
    TriedSize(tfType, seed, k);
    var tried := Tried(tfType, seed, k);
    assert used == tried + (used - tried);
  }

  /** `k` is the suffix number at which the naming loop stops. */
  predicate FirstFree(used: set<Name>, tfType: string, seed: string, k: nat) {
    k >= 1 && TakenUpTo(used, tfType, seed, k - 1) && (tfType, Candidate(seed, k)) !in used
  }

  function Search(used: set<Name>, tfType: string, seed: string, k: nat): (free: nat)
    requires k >= 1 && TakenUpTo(used, tfType, seed, k - 1)
    ensures FirstFree(used, tfType, seed, free)
    decreases |used| + 1 - k
  {
    TakenFit(used, tfType, seed, k - 1);
    if (tfType, Candidate(seed, k)) !in used then k
    else
      TakenFit(used, tfType, seed, k);
      Search(used, tfType, seed, k + 1)
  }

  /** There is one such number, and it is at most one more than the number of names in use. */
  lemma {:induction false} FirstFreeIsUnique(used: set<Name>, tfType: string, seed: string, j: nat, k: nat)
    requires FirstFree(used, tfType, seed, j) && FirstFree(used, tfType, seed, k)
    ensures j == k && k <= |used| + 1
  {
    TakenFit(used, tfType, seed, k - 1);
    assert j < k ==> (tfType, Candidate(seed, j)) in used;
    assert k < j ==> (tfType, Candidate(seed, k)) in used;
  }

  // ----- The export loop -----

  /** A node of the space; absent fields are empty texts. */
  datatype Node = NotADict | Node(provider: string, service: string, kind: string, resourceId: string, name: string)

  datatype Unsupported = Unsupported(provider: string, service: string, kind: string, resourceId: string, name: string)

  /** The type table, and the provider of the space. */
  datatype Config = Config(types: (string, string, string) -> Option<string>, activeProvider: string)

  function Provider(c: Config, n: Node): string
    requires n.Node?
  {
    ToLower(OrDefault(Strip(n.provider), c.activeProvider))
  }

  function TypeOf(c: Config, n: Node): Option<string> {
    if n.NotADict? then None
    else c.types(ToLower(Strip(Provider(c, n))), ToLower(Strip(n.service)), ToLower(Strip(n.kind)))
  }

  function Seed(c: Config, n: Node): string
    requires TypeOf(c, n).Some?
  {
    Slug(OrDefault(n.name, OrDefault(n.resourceId, OrDefault(Strip(n.kind), TypeOf(c, n).value))))
  }

  /** The name of a node when the names in `used` are taken. */
  function NameIn(c: Config, used: set<Name>, n: Node): (name: Name)
    requires TypeOf(c, n).Some?
    ensures name !in used
  {
    var tfType, seed := TypeOf(c, n).value, Seed(c, n);
    (tfType, Candidate(seed, Search(used, tfType, seed, 1)))
  }

  function Used(c: Config, nodes: seq<Node>): set<Name> {
    if nodes == [] then {}
    else
      var before, n := Used(c, nodes[..|nodes| - 1]), nodes[|nodes| - 1];
      if TypeOf(c, n).None? then before else before + {NameIn(c, before, n)}
  }

  /** The name that node `i` gets: it depends on the nodes before it only. */
  function NameAt(c: Config, nodes: seq<Node>, i: nat): Name
    requires i < |nodes| && TypeOf(c, nodes[i]).Some?
  {
    NameIn(c, Used(c, nodes[..i]), nodes[i])
  }

  function Rejected(c: Config, nodes: seq<Node>): seq<Unsupported> {
    if nodes == [] then []
    else
      var before, n := Rejected(c, nodes[..|nodes| - 1]), nodes[|nodes| - 1];
      if n.NotADict? || TypeOf(c, n).Some? then before
      else before + [Unsupported(Provider(c, n), Strip(n.service), Strip(n.kind), Strip(n.resourceId), Strip(n.name))]
  }

  function DictCount(nodes: seq<Node>): nat {
    if nodes == [] then 0 else DictCount(nodes[..|nodes| - 1]) + if nodes[|nodes| - 1].Node? then 1 else 0
  }

  /** The naming loop. */
  method FreeName(used: set<Name>, tfType: string, seed: string) returns (name: string)
    ensures name == Candidate(seed, Search(used, tfType, seed, 1))
    ensures (tfType, name) !in used
  {
    name := seed;
    var suffix := 1;
    while (tfType, name) in used
      invariant suffix >= 1 && name == Candidate(seed, suffix) && TakenUpTo(used, tfType, seed, suffix - 1)
      decreases |used| + 1 - suffix
    {
      TakenFit(used, tfType, seed, suffix);
      suffix := suffix + 1;
      name := seed + ("_" + Digits(suffix));
    }
    FirstFreeIsUnique(used, tfType, seed, suffix, Search(used, tfType, seed, 1));
  }

  /** The first `n` nodes each have their own attributes under their own name. */
  ghost predicate Stored<A>(c: Config, nodes: seq<Node>, attrs: (Node, string) -> A, n: nat, resources: map<Name, A>)
    requires n <= |nodes|
  {
    forall i: nat | i < n && TypeOf(c, nodes[i]).Some? ::
      && NameAt(c, nodes, i) in resources
      && resources[NameAt(c, nodes, i)] == attrs(nodes[i], TypeOf(c, nodes[i]).value)
  }

  method Export<A>(c: Config, nodes: seq<Node>, attrs: (Node, string) -> A)
    returns (resources: map<Name, A>, unsupported: seq<Unsupported>)
    ensures resources.Keys == Used(c, nodes)
    ensures Stored(c, nodes, attrs, |nodes|, resources)
    ensures unsupported == Rejected(c, nodes)
    ensures |resources| + |unsupported| == DictCount(nodes)
  {
    hide Slug, Search, Candidate, Provider;
    resources, unsupported := map[], [];
    var used: set<Name> := {};
    assert nodes[..0] == [] && Used(c, []) == {} && Stored(c, nodes, attrs, 0, resources);
    hide Stored, Used;
    for i := 0 to |nodes|
      invariant used == resources.Keys == Used(c, nodes[..i])
      invariant Stored(c, nodes, attrs, i, resources)
      invariant unsupported == Rejected(c, nodes[..i])
    {
      var node := nodes[i];
      assert nodes[..i + 1][..i] == nodes[..i];
      Step(c, nodes, attrs, i, resources);
      if node.NotADict? {
        continue;
      }
      var tfType := TypeOf(c, node);
      if tfType.None? {
        unsupported := unsupported
          + [Unsupported(Provider(c, node), Strip(node.service), Strip(node.kind), Strip(node.resourceId),
            Strip(node.name))];
        continue;
      }
      var name := FreeName(used, tfType.value, Seed(c, node));
      assert (tfType.value, name) == NameAt(c, nodes, i);
      used := used + {(tfType.value, name)};
      resources := resources[(tfType.value, name) := attrs(node, tfType.value)];
    }
    assert nodes[..|nodes|] == nodes;
    CountsAddUp(c, nodes);
    assert |resources| == |resources.Keys|;
  }

  /** What the loop body does to the names and to the resources. */
  lemma Step<A>(c: Config, nodes: seq<Node>, attrs: (Node, string) -> A, i: nat, resources: map<Name, A>)
    requires i < |nodes| && resources.Keys == Used(c, nodes[..i]) && Stored(c, nodes, attrs, i, resources)
    ensures TypeOf(c, nodes[i]).None? ==>
              && Used(c, nodes[..i + 1]) == Used(c, nodes[..i])
              && Stored(c, nodes, attrs, i + 1, resources)
    ensures TypeOf(c, nodes[i]).Some? ==>
              && Used(c, nodes[..i + 1]) == Used(c, nodes[..i]) + {NameAt(c, nodes, i)}
              && var stored := attrs(nodes[i], TypeOf(c, nodes[i]).value);
                 Stored(c, nodes, attrs, i + 1, resources[NameAt(c, nodes, i) := stored])
  {
    hide NameIn, TypeOf;
    assert nodes[..i + 1][..i] == nodes[..i];
  }

  // ----- What the exported names are -----

  lemma {:induction false} EarlierNamesAreUsed(c: Config, nodes: seq<Node>, i: nat, n: nat)
    requires i < n <= |nodes| && TypeOf(c, nodes[i]).Some?
    ensures NameAt(c, nodes, i) in Used(c, nodes[..n])
  {
    hide NameIn, TypeOf;
    assert nodes[..n][..n - 1] == nodes[..n - 1];
    if i < n - 1 {
      EarlierNamesAreUsed(c, nodes, i, n - 1);
    }
  }

  /** No two nodes share a type and a name, so no resource is overwritten. */
  lemma {:induction false} NamesAreDistinct(c: Config, nodes: seq<Node>, i: nat, j: nat)
    requires i < j < |nodes| && TypeOf(c, nodes[i]).Some? && TypeOf(c, nodes[j]).Some?
    ensures NameAt(c, nodes, i) != NameAt(c, nodes, j)
  {
    EarlierNamesAreUsed(c, nodes, i, j);
  }

  /** Every dict node is counted exactly once, as a resource or as unsupported. */
  lemma {:induction false} CountsAddUp(c: Config, nodes: seq<Node>)
    ensures |Used(c, nodes)| + |Rejected(c, nodes)| == DictCount(nodes)
  {
    if nodes != [] {
      CountsAddUp(c, nodes[..|nodes| - 1]);
    }
  }

  /** The summary's `resource_count`, the length of the list, agrees exactly when all nodes are dicts. */
  lemma {:induction false} ResourceCountIff(nodes: seq<Node>)
    ensures DictCount(nodes) <= |nodes|
    ensures DictCount(nodes) == |nodes| <==> forall i :: 0 <= i < |nodes| ==> nodes[i].Node?
  {
    if nodes != [] {
      var front := nodes[..|nodes| - 1];
      ResourceCountIff(front);
      assert forall i :: 0 <= i < |front| ==> front[i] == nodes[i];
    }
  }

  /** Every exported name is an identifier, and the HCL writer prints it bare. */
  lemma {:induction false} NamesAreIdentifiers(c: Config, nodes: seq<Node>, i: nat)
    requires i < |nodes| && TypeOf(c, nodes[i]).Some?
    ensures Identifier(NameAt(c, nodes, i).1) && HclKey(NameAt(c, nodes, i).1) == NameAt(c, nodes, i).1
  {
    var name := NameAt(c, nodes, i).1;
    SlugIsClean(OrDefault(nodes[i].name,
                          OrDefault(nodes[i].resourceId, OrDefault(Strip(nodes[i].kind), TypeOf(c, nodes[i]).value))));
    NothingToStrip(name);
  }

  /** The name is the plain slug unless an earlier node of the same type got that very name. */
  lemma {:induction false} PlainNameIff(c: Config, nodes: seq<Node>, i: nat)
    requires i < |nodes| && TypeOf(c, nodes[i]).Some?
    ensures NameAt(c, nodes, i).1 == Seed(c, nodes[i]) <==>
            forall j: nat | j < i && TypeOf(c, nodes[j]).Some? ::
              NameAt(c, nodes, j) != (TypeOf(c, nodes[i]).value, Seed(c, nodes[i]))
  {
    var seed, tfType := Seed(c, nodes[i]), TypeOf(c, nodes[i]).value;
    UsedIsEarlier(c, nodes, i, (tfType, seed));
    var k := Search(Used(c, nodes[..i]), tfType, seed, 1);
    if k > 1 {
      CandidatesDiffer(seed, 1, k);
      assert (tfType, Candidate(seed, 1)) in Used(c, nodes[..i]);
    }
  }

  lemma {:induction false} UsedIsEarlier(c: Config, nodes: seq<Node>, n: nat, name: Name)
    requires n <= |nodes|
    ensures name in Used(c, nodes[..n]) <==>
            exists j: nat :: j < n && TypeOf(c, nodes[j]).Some? && NameAt(c, nodes, j) == name
  {
    hide NameIn, TypeOf;
    if n > 0 {
      var last := nodes[n - 1];
      assert nodes[..n][..n - 1] == nodes[..n - 1] && nodes[..n][n - 1] == last;
      UsedIsEarlier(c, nodes, n - 1, name);
      if TypeOf(c, last).Some? {
        assert Used(c, nodes[..n]) == Used(c, nodes[..n - 1]) + {NameAt(c, nodes, n - 1)};
      } else {
        assert Used(c, nodes[..n]) == Used(c, nodes[..n - 1]);
      }
    }
  }
}
