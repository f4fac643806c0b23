/**
 The space-scoped dictionary proxy (core/app_context.py). Every access is sent to a space of
 the requesting (tenant, provider) pair: the active space if it is one, else the first space
 of the pair, else a new one.
 */
module SpaceProxy {
  import opened Common
  import opened Text

  datatype Node = Leaf(text: string) | Dict(entries: map<string, Node>)

  type Contents = map<string, Node>

  /** The service states of a space, by service key. */
  type Services = map<string, Contents>

  datatype Space = Space(tenant: string, provider: string, services: Services)

  /** An entry of the spaces dict, in insertion order; `space` is `None` for an empty or non-dict value. */
  datatype Entry = Entry(id: string, space: Option<Space>)

  /** The stored spaces, the active id, and the service states used when there is no active space. */
  datatype Store = Store(spaces: seq<Entry>, active: string, legacy: Services)

  /** One proxy object: its service key, the default contents and the nested dict it exposes, if any. */
  datatype Proxy = Proxy(service: string, defaults: Contents, nested: Option<string>)

  datatype Request = Request(tenantHeader: string, activeTenant: string, provider: string)

  datatype Pair = Pair(tenant: string, provider: string)

  datatype Op = Get(key: string) | Put(key: string, node: Node) | Remove(key: string) | Clear

  datatype Answer = Found(node: Node) | Missing | Done | TypeError

  /** One access, with the id a new space would get. */
  datatype Event = Event(request: Request, proxy: Proxy, op: Op, newId: string)

  const DEFAULT_TENANT := "default"
  const AWS := "aws"

  function Normal(provider: string): string { Strip(ToLower(OrDefault(provider, AWS))) }

  function PairOf(r: Request): Pair {
    Pair(OrDefault(Strip(r.tenantHeader), OrDefault(r.activeTenant, DEFAULT_TENANT)), Normal(r.provider))
  }

  function SpacePair(s: Space): Pair { Pair(OrDefault(s.tenant, DEFAULT_TENANT), Normal(s.provider)) }

  predicate Belongs(e: Entry, pair: Pair) { e.space.Some? && SpacePair(e.space.value) == pair }

  // ----- Finding the space -----

  function IndexOf(spaces: seq<Entry>, id: string): (r: Option<nat>)
    ensures r.Some? ==> r.value < |spaces| && spaces[r.value].id == id
    ensures r.Some? ==> forall j :: 0 <= j < r.value ==> spaces[j].id != id
    ensures r.None? ==> forall j :: 0 <= j < |spaces| ==> spaces[j].id != id
  {
    if spaces == [] then None
    else if spaces[0].id == id then Some(0)
    else
      var r := IndexOf(spaces[1..], id);
      if r.Some? then Some(r.value + 1) else None
  }

  function FirstOf(spaces: seq<Entry>, pair: Pair): (r: Option<nat>)
    ensures r.Some? ==> r.value < |spaces| && Belongs(spaces[r.value], pair)
    ensures r.Some? ==> forall j :: 0 <= j < r.value ==> !Belongs(spaces[j], pair)
    ensures r.None? ==> forall j :: 0 <= j < |spaces| ==> !Belongs(spaces[j], pair)
  {
    if spaces == [] then None
    else if Belongs(spaces[0], pair) then Some(0)
    else
      var r := FirstOf(spaces[1..], pair);
      if r.Some? then Some(r.value + 1) else None
  }

  /** The position of the active space, if the active id names a real one. */
  function ActiveIndex(s: Store): (r: Option<nat>)
    ensures r.Some? ==> r.value < |s.spaces| && s.spaces[r.value].space.Some?
  {
    if s.active == "" then None
    else
      var i := IndexOf(s.spaces, s.active);
      if i.Some? && s.spaces[i.value].space.Some? then i else None
  }

  /** The space that serves a pair already, if any. */
  function Home(s: Store, pair: Pair): (r: Option<nat>)
    requires ActiveIndex(s).Some?
    ensures r.Some? ==> r.value < |s.spaces| && Belongs(s.spaces[r.value], pair)
    ensures r.None? ==> forall j :: 0 <= j < |s.spaces| ==> !Belongs(s.spaces[j], pair)
  {
    var a := ActiveIndex(s).value;
    if Belongs(s.spaces[a], pair) then Some(a) else FirstOf(s.spaces, pair)
  }

  /** `spaces[id] = space` on a dict that keeps insertion order: the entries after, and the entry's position. */
  function SetEntry(spaces: seq<Entry>, e: Entry): (seq<Entry>, nat) {
    var i := IndexOf(spaces, e.id);
    if i.Some? then (spaces[i.value := e], i.value) else (spaces + [e], |spaces|)
  }

  function NewSpace(pair: Pair): Space { Space(pair.tenant, pair.provider, map[]) }

  // ----- Acting on the service states of one space -----

  function ServiceKey(proxy: Proxy, pair: Pair): string {
    if pair.provider == AWS then proxy.service else pair.provider + "_" + proxy.service
  }

  function Perform(op: Op, d: Contents): (Contents, Answer) {
    match op
    case Get(k) => (d, if k in d then Found(d[k]) else Missing)
    case Put(k, v) => (d[k := v], Done)
    case Remove(k) => if k in d then (d - {k}, Done) else (d, Missing)
    case Clear => (map[], Done)
  }

  /** One access within the service states of a space: the default contents are put in place first. */
  function Act(services: Services, key: string, proxy: Proxy, op: Op): (Services, Answer) {
    var state := if key in services then services[key] else proxy.defaults;
    match proxy.nested
    case None =>
      var (d, a) := Perform(op, state);
      (services[key := d], a)
    case Some(n) =>
      var inner := if n in state then state[n] else Dict(map[]);
      if inner.Leaf? then (services[key := state], TypeError)
      else
        var (d, a) := Perform(op, inner.entries);
        (services[key := state[n := Dict(d)]], a)
  }

  // ----- One access to the store -----

  /** The store with a space for the pair of the request, and its position. */
  function Placed(s: Store, pair: Pair, newId: string): (r: (Store, nat))
    requires ActiveIndex(s).Some?
    ensures r.1 < |r.0.spaces| && r.0.spaces[r.1].space.Some?
  {
    var home := Home(s, pair);
    if home.Some? then (s, home.value)
    else
      var (spaces, i) := SetEntry(s.spaces, Entry(newId, Some(NewSpace(pair))));
      (s.(spaces := spaces), i)
  }

  function Step(s: Store, e: Event): (Store, Answer) {
    var pair := PairOf(e.request);
    if ActiveIndex(s).None? then
      var (legacy, a) := Act(s.legacy, e.proxy.service, e.proxy, e.op);
      (s.(legacy := legacy), a)
    else
      var (placed, i) := Placed(s, pair, e.newId);
      var space := placed.spaces[i].space.value;
      var (services, a) := Act(space.services, ServiceKey(e.proxy, pair), e.proxy, e.op);
      (placed.(spaces := placed.spaces[i := placed.spaces[i].(space := Some(space.(services := services)))]), a)
  }

  class SpaceStore {
    var spaces: seq<Entry>
    var active: string
    var legacy: Services

    function Abs(): Store
      reads this
    {
      Store(spaces, active, legacy)
    }

    /** The first space of the pair, created at the end when there is none. */
    method PivotToMatchingSpace(pair: Pair, newId: string) returns (i: nat)
      requires ActiveIndex(Abs()).Some? && !Belongs(spaces[ActiveIndex(Abs()).value], pair)
      modifies this`spaces
      ensures (Abs(), i) == Placed(old(Abs()), pair, newId)
    {
      i := 0;
      while i < |spaces|
        invariant i <= |spaces| && forall j :: 0 <= j < i ==> !Belongs(spaces[j], pair)
      {
        if spaces[i].space.Some? && SpacePair(spaces[i].space.value) == pair {
          return;
        }
        i := i + 1;
      }
      var (extended, at) := SetEntry(spaces, Entry(newId, Some(NewSpace(pair))));
      spaces, i := extended, at;
    }

    method Access(e: Event) returns (a: Answer)
      modifies this
      ensures (Abs(), a) == Step(old(Abs()), e)
    {
      var pair := PairOf(e.request);
      var at := ActiveIndex(Abs());
      if at.None? {
        var (l, answer) := Act(legacy, e.proxy.service, e.proxy, e.op);
        legacy := l;
        return answer;
      }
      var i := at.value;
      if SpacePair(spaces[i].space.value) != pair {
        i := PivotToMatchingSpace(pair, e.newId);
      }
      var space := spaces[i].space.value;
      var (services, answer) := Act(space.services, ServiceKey(e.proxy, pair), e.proxy, e.op);
      spaces := spaces[i := spaces[i].(space := Some(space.(services := services)))];
      a := answer;
    }
  }

  // ----- Isolation -----

  /** The request names a provider: one that is not blank. */
  predicate Named(r: Request) { Normal(r.provider) != "" }

  predicate Fresh(s: Store, id: string) { forall i :: 0 <= i < |s.spaces| ==> s.spaces[i].id != id }

  /** What a pair sees: the service states of its space, or nothing yet. */
  function View(s: Store, pair: Pair): Services
    requires ActiveIndex(s).Some?
  {
    var home := Home(s, pair);
    if home.Some? then s.spaces[home.value].space.value.services else map[]
  }

  lemma {:induction false} StripTwice(s: string)
    requires s == [] || (!IsSpace(s[0]) && !IsSpace(s[|s| - 1]))
    ensures Strip(s) == s
  {
  }

  lemma {:induction false} StripLeftSuffix(s: string)
    ensures |StripLeft(s)| <= |s| && StripLeft(s) == s[|s| - |StripLeft(s)|..]
  {
    if s != [] && IsSpace(s[0]) {
      StripLeftSuffix(s[1..]);
      assert s[1..][|s| - 1 - |StripLeft(s[1..])|..] == s[|s| - |StripLeft(s[1..])|..];
    }
  }

  /** A new space belongs to the pair it was made for exactly when the provider is not blank. */
  lemma {:induction false} NewSpaceBelongs(r: Request)
    ensures SpacePair(NewSpace(PairOf(r))) == PairOf(r) <==> Named(r)
  {
    var low := ToLower(OrDefault(r.provider, AWS));
    var p := Normal(r.provider);
    StripLeftSuffix(low);
    assert forall i :: 0 <= i < |low| ==> LowerChar(low[i]) == low[i];
    assert forall i :: 0 <= i < |p| ==> LowerChar(p[i]) == p[i];
    assert ToLower(p) == p;
    StripTwice(p);
    assert DEFAULT_TENANT != "";
  }

  /** The entries have the same id and, if they hold a space, the same tenant and provider. */
  predicate SameOwner(a: Entry, b: Entry) {
    && a.id == b.id && (a.space.Some? <==> b.space.Some?)
    && (a.space.Some? ==> a.space.value.tenant == b.space.value.tenant)
    && (a.space.Some? ==> a.space.value.provider == b.space.value.provider)
  }

  lemma SameOwnerBelongs(a: seq<Entry>, b: seq<Entry>, pair: Pair)
    requires |a| <= |b| && forall i :: 0 <= i < |a| ==> SameOwner(a[i], b[i])
    ensures forall i :: 0 <= i < |a| ==> (Belongs(a[i], pair) <==> Belongs(b[i], pair))
  {
    hide Normal;
  }

  /** The heart of the claim, for one access: the active space stays, no space of another pair
      changes, at most one space is added and only when the pair had none, and it is the pair's. */
  lemma {:induction false} StepFrame(s: Store, e: Event)
    requires ActiveIndex(s).Some? && Named(e.request) && Fresh(s, e.newId)
    ensures var s', pair := Step(s, e).0, PairOf(e.request);
            && s'.active == s.active && s'.legacy == s.legacy && ActiveIndex(s') == ActiveIndex(s)
            && |s.spaces| <= |s'.spaces| <= |s.spaces| + 1
            && (|s'.spaces| == |s.spaces| + 1 <==> Home(s, pair).None?)
            && (forall i :: 0 <= i < |s.spaces| ==>
                  SameOwner(s.spaces[i], s'.spaces[i]) && (Belongs(s.spaces[i], pair) || s'.spaces[i] == s.spaces[i]))
            && (forall i :: |s.spaces| <= i < |s'.spaces| ==> s'.spaces[i].id == e.newId && Belongs(s'.spaces[i], pair))
  {
    var pair := PairOf(e.request);
    NewSpaceBelongs(e.request);
    PlacedFrame(s, pair, e.newId);
    StepIsChange(s, e);
    hide Step, Placed, PairOf;
    var (placed, i) := Placed(s, pair, e.newId);
    ChangeFrame(s, placed, Step(s, e).0, i, pair);
  }

  lemma StepIsChange(s: Store, e: Event)
    requires ActiveIndex(s).Some?
    ensures var (placed, i) := Placed(s, PairOf(e.request), e.newId); StepChange(placed, Step(s, e).0, i)
  {
    hide Act, ServiceKey, Placed, PairOf;
  }

  lemma ChangeFrame(s: Store, placed: Store, s': Store, i: nat, pair: Pair)
    requires ActiveIndex(s).Some? && StepChange(placed, s', i) && placed.active == s.active && placed.legacy == s.legacy
    requires i < |placed.spaces| && Belongs(placed.spaces[i], pair)
    requires |s.spaces| <= |placed.spaces| && placed.spaces[..|s.spaces|] == s.spaces
    ensures ActiveIndex(s') == ActiveIndex(s) && Belongs(s'.spaces[i], pair)
    ensures forall j :: 0 <= j < |s.spaces| ==>
              SameOwner(s.spaces[j], s'.spaces[j]) && (Belongs(s.spaces[j], pair) || s'.spaces[j] == s.spaces[j])
  {
    SameOwnerBelongs(placed.spaces, s'.spaces, pair);
    hide Belongs;
    assert forall j :: 0 <= j < |s.spaces| ==> s.spaces[j] == placed.spaces[j];
    ActiveStays(s, s');
  }

  /** Only the services of entry `i` differ. */
  predicate StepChange(s: Store, s': Store, i: nat) {
    && s'.active == s.active && s'.legacy == s.legacy && |s'.spaces| == |s.spaces|
    && forall j :: 0 <= j < |s.spaces| ==>
      SameOwner(s.spaces[j], s'.spaces[j]) && (j != i ==> s'.spaces[j] == s.spaces[j])
  }

  lemma PlacedFrame(s: Store, pair: Pair, newId: string)
    requires ActiveIndex(s).Some? && Fresh(s, newId) && SpacePair(NewSpace(pair)) == pair
    ensures var (p, i) := Placed(s, pair, newId);
            && p.active == s.active && p.legacy == s.legacy
            && (Home(s, pair).Some? ==> p == s)
            && (Home(s, pair).None? ==>
                  p.spaces == s.spaces + [Entry(newId, Some(NewSpace(pair)))] && i == |s.spaces|)
            && Belongs(p.spaces[i], pair)
  {
    hide SpacePair;
    assert IndexOf(s.spaces, newId).None?;
  }

  /** The active index depends only on ids and on which entries are real spaces. */
  lemma ActiveStays(s: Store, s': Store)
    requires ActiveIndex(s).Some? && s'.active == s.active && |s.spaces| <= |s'.spaces|
    requires forall i :: 0 <= i < |s.spaces| ==>
               s'.spaces[i].id == s.spaces[i].id && (s.spaces[i].space.Some? <==> s'.spaces[i].space.Some?)
    ensures ActiveIndex(s') == ActiveIndex(s)
  {
    var i, j := IndexOf(s.spaces, s.active).value, IndexOf(s'.spaces, s.active);
    assert s'.spaces[i].id == s.active;
  }

  /** An access leaves what every other pair sees alone. */
  lemma {:induction false} StepHidesFromOthers(s: Store, e: Event, pair: Pair)
    requires ActiveIndex(s).Some? && Named(e.request) && Fresh(s, e.newId) && PairOf(e.request) != pair
    ensures ActiveIndex(Step(s, e).0).Some? && View(Step(s, e).0, pair) == View(s, pair)
  {
    StepFrame(s, e);
    var s' := Step(s, e).0;
    SameOwnerBelongs(s.spaces, s'.spaces, pair);
    hide Step, SameOwner, Placed;
    assert forall i :: |s.spaces| <= i < |s'.spaces| ==> !Belongs(s'.spaces[i], pair);
    HomeStays(s, s', pair);
  }

  lemma HomeStays(s: Store, s': Store, pair: Pair)
    requires ActiveIndex(s).Some? && ActiveIndex(s') == ActiveIndex(s) && |s.spaces| <= |s'.spaces|
    requires forall i :: 0 <= i < |s.spaces| ==> (Belongs(s.spaces[i], pair) <==> Belongs(s'.spaces[i], pair))
    requires Home(s, pair).Some? || forall i :: |s.spaces| <= i < |s'.spaces| ==> !Belongs(s'.spaces[i], pair)
    ensures Home(s', pair) == Home(s, pair)
  {
    hide Belongs, IndexOf, FirstOf;
    var a := ActiveIndex(s).value;
    if !Belongs(s.spaces[a], pair) {
      var f, f' := FirstOf(s.spaces, pair), FirstOf(s'.spaces, pair);
      if f.Some? {
        assert Belongs(s'.spaces[f.value], pair);
      }
    }
  }

  /** An access by the pair itself acts on its view as on a private dictionary. */
  lemma {:induction false} StepActsOnView(s: Store, e: Event)
    requires ActiveIndex(s).Some? && Named(e.request) && Fresh(s, e.newId)
    ensures var (s', a) := Step(s, e);
            && ActiveIndex(s').Some?
            && (View(s', PairOf(e.request)), a)
               == Act(View(s, PairOf(e.request)), ServiceKey(e.proxy, PairOf(e.request)), e.proxy, e.op)
  {
    StepFrame(s, e);
    var pair := PairOf(e.request);
    var s' := Step(s, e).0;
    SameOwnerBelongs(s.spaces, s'.spaces, pair);
    if Home(s, pair).Some? {
      HomeStays(s, s', pair);
    } else {
      assert IndexOf(s.spaces, e.newId).None?;
      var n := |s.spaces|;
      assert Placed(s, pair, e.newId).1 == n;
      assert Home(s', pair) == Some(n) by {
        assert Belongs(s'.spaces[n], pair);
        assert forall j :: 0 <= j < n ==> !Belongs(s'.spaces[j], pair);
        assert !Belongs(s.spaces[ActiveIndex(s).value], pair);
      }
    }
  }

  // ----- Runs -----

  function Run(s: Store, events: seq<Event>): Store
    decreases |events|
  {
    if events == [] then s else Run(Step(s, events[0]).0, events[1..])
  }

  /** Every request names a provider and every id offered for a new space is unused when it is offered. */
  predicate Orderly(s: Store, events: seq<Event>)
    decreases |events|
  {
    events == []
    || (Named(events[0].request) && Fresh(s, events[0].newId) && Orderly(Step(s, events[0]).0, events[1..]))
  }

  /** The same accesses by one pair on a dictionary of its own. */
  function PrivateRun(v: Services, events: seq<Event>, pair: Pair): Services
    decreases |events|
  {
    if events == [] then v
    else
      var e := events[0];
      var v' := if PairOf(e.request) == pair then Act(v, ServiceKey(e.proxy, pair), e.proxy, e.op).0 else v;
      PrivateRun(v', events[1..], pair)
  }

  /** The answers a pair gets in a run. */
  function Answers(s: Store, events: seq<Event>, pair: Pair): seq<Answer>
    decreases |events|
  {
    if events == [] then []
    else (if PairOf(events[0].request) == pair then [Step(s, events[0]).1] else [])
         + Answers(Step(s, events[0]).0, events[1..], pair)
  }

  function PrivateAnswers(v: Services, events: seq<Event>, pair: Pair): seq<Answer>
    decreases |events|
  {
    if events == [] then []
    else
      var e := events[0];
      if PairOf(e.request) != pair then PrivateAnswers(v, events[1..], pair)
      else
        var (v', a) := Act(v, ServiceKey(e.proxy, pair), e.proxy, e.op);
        [a] + PrivateAnswers(v', events[1..], pair)
  }

  /** The main theorem, noninterference over every interleaving: each pair sees, and is answered,
      exactly as if it alone used a private dictionary. */
  lemma {:induction false} PairsAreIsolated(s: Store, events: seq<Event>, pair: Pair)
    requires ActiveIndex(s).Some? && Orderly(s, events)
    ensures ActiveIndex(Run(s, events)).Some?
    ensures View(Run(s, events), pair) == PrivateRun(View(s, pair), events, pair)
    ensures Answers(s, events, pair) == PrivateAnswers(View(s, pair), events, pair)
    decreases |events|
  {
    if events != [] {
      var e := events[0];
      StepActsOnView(s, e);
      if PairOf(e.request) != pair {
        StepHidesFromOthers(s, e, pair);
      }
      PairsAreIsolated(Step(s, e).0, events[1..], pair);
    }
  }

  /** The content of one key as a proxy shows it. */
  function Cell(v: Services, service: string, nested: Option<string>, key: string): Option<Node> {
    if service !in v then None
    else
      match nested
      case None => if key in v[service] then Some(v[service][key]) else None
      case Some(n) =>
        if n in v[service] && v[service][n].Dict? && key in v[service][n].entries
        then Some(v[service][n].entries[key]) else None
  }

  /** An access that does not write the key of the proxy: it is for another service, or for another
      nested dict of the service, or it reads, or it writes another key. */
  predicate Spares(e: Event, proxy: Proxy, key: string) {
    || e.proxy.service != proxy.service
    || (e.proxy.nested.Some? && proxy.nested.Some? && e.proxy.nested != proxy.nested)
    || (e.proxy.nested == proxy.nested
        && (e.op.Get? || (e.op.Put? && e.op.key != key) || (e.op.Remove? && e.op.key != key)))
  }

  lemma ActKeepsCell(v: Services, e: Event, pair: Pair, proxy: Proxy, key: string)
    requires Spares(e, proxy, key)
    requires Cell(v, ServiceKey(proxy, pair), proxy.nested, key).Some?
    ensures Cell(Act(v, ServiceKey(e.proxy, pair), e.proxy, e.op).0, ServiceKey(proxy, pair), proxy.nested, key)
         == Cell(v, ServiceKey(proxy, pair), proxy.nested, key)
  {
    if e.proxy.service != proxy.service {
      KeysDiffer(e.proxy, proxy, pair);
    }
  }

  lemma {:induction false} PrivateRunKeepsCell(v: Services, events: seq<Event>, pair: Pair, proxy: Proxy, key: string)
    requires forall e :: e in events && PairOf(e.request) == pair ==> Spares(e, proxy, key)
    requires Cell(v, ServiceKey(proxy, pair), proxy.nested, key).Some?
    ensures Cell(PrivateRun(v, events, pair), ServiceKey(proxy, pair), proxy.nested, key)
         == Cell(v, ServiceKey(proxy, pair), proxy.nested, key)
    decreases |events|
  {
    if events != [] {
      var e, rest := events[0], events[1..];
      assert events == [e] + rest;
      assert e in events && forall d :: d in rest ==> d in events;
      var v' := if PairOf(e.request) == pair then Act(v, ServiceKey(e.proxy, pair), e.proxy, e.op).0 else v;
      if PairOf(e.request) == pair {
        ActKeepsCell(v, e, pair, proxy, key);
      }
      PrivateRunKeepsCell(v', rest, pair, proxy, key);
    }
  }

  lemma KeysDiffer(a: Proxy, b: Proxy, pair: Pair)
    requires a.service != b.service
    ensures ServiceKey(a, pair) != ServiceKey(b, pair)
  {
    var n := |pair.provider + "_"|;
    assert (pair.provider + "_" + a.service)[n..] == a.service;
    assert (pair.provider + "_" + b.service)[n..] == b.service;
  }

  lemma PutThenCell(v: Services, service: string, proxy: Proxy, op: Op)
    requires op.Put? && Act(v, service, proxy, op).1 == Done
    ensures Cell(Act(v, service, proxy, op).0, service, proxy.nested, op.key) == Some(op.node)
  {
  }

  lemma CellIsRead(v: Services, service: string, proxy: Proxy, key: string)
    requires Cell(v, service, proxy.nested, key).Some?
    ensures Act(v, service, proxy, Get(key)).1 == Found(Cell(v, service, proxy.nested, key).value)
  {
  }

  /** Read your writes: whatever other pairs do in between, a pair reads back what it last put
      under a key, as long as it has not itself written that key since. */
  lemma {:induction false} ReadsOwnWrite(s: Store, write: Event, between: seq<Event>, read: Event)
    requires ActiveIndex(s).Some? && Orderly(s, [write] + (between + [read]))
    requires PairOf(write.request) == PairOf(read.request) && write.proxy == read.proxy
    requires write.op.Put? && read.op == Get(write.op.key) && Step(s, write).1 == Done
    requires forall e :: e in between && PairOf(e.request) == PairOf(write.request) ==>
            Spares(e, write.proxy, write.op.key)
    ensures Step(Run(Step(s, write).0, between), read).1 == Found(write.op.node)
  {
    var pair, s1 := PairOf(write.request), Step(s, write).0;
    var service := ServiceKey(write.proxy, pair);
    assert ([write] + (between + [read]))[1..] == between + [read];
    OrderlySplits(s1, between, [read]);
    StepActsOnView(s, write);
    PutThenCell(View(s, pair), service, write.proxy, write.op);
    PairsAreIsolated(s1, between, pair);
    PrivateRunKeepsCell(View(s1, pair), between, pair, write.proxy, write.op.key);
    var s2 := Run(s1, between);
    StepActsOnView(s2, read);
    CellIsRead(View(s2, pair), service, read.proxy, read.op.key);
  }

  lemma {:induction false} OrderlySplits(s: Store, a: seq<Event>, b: seq<Event>)
    requires Orderly(s, a + b)
    ensures Orderly(s, a) && Orderly(Run(s, a), b)
    decreases |a|
  {
    if a == [] {
      assert a + b == b;
    } else {
      assert (a + b)[0] == a[0] && (a + b)[1..] == a[1..] + b;
      OrderlySplits(Step(s, a[0]).0, a[1..], b);
    }
  }

  function Owned(spaces: seq<Entry>, pair: Pair): nat {
    if spaces == [] then 0
    else (if Belongs(spaces[|spaces| - 1], pair) then 1 else 0) + Owned(spaces[..|spaces| - 1], pair)
  }

  lemma {:induction false} OwnedSame(a: seq<Entry>, b: seq<Entry>, pair: Pair)
    requires |a| == |b| && forall i :: 0 <= i < |a| ==> (Belongs(a[i], pair) <==> Belongs(b[i], pair))
    ensures Owned(a, pair) == Owned(b, pair)
  {
    if a != [] {
      OwnedSame(a[..|a| - 1], b[..|b| - 1], pair);
    }
  }

  lemma {:induction false} OwnedNone(a: seq<Entry>, pair: Pair)
    requires forall i :: 0 <= i < |a| ==> !Belongs(a[i], pair)
    ensures Owned(a, pair) == 0
  {
    if a != [] {
      OwnedNone(a[..|a| - 1], pair);
    }
  }

  lemma StepOwned(s: Store, e: Event, pair: Pair)
    requires ActiveIndex(s).Some? && Named(e.request) && Fresh(s, e.newId)
    ensures var n, n' := Owned(s.spaces, pair), Owned(Step(s, e).0.spaces, pair);
            n' == n || (n == 0 && n' == 1 && PairOf(e.request) == pair)
  {
    StepFrame(s, e);
    var s' := Step(s, e).0;
    var n := |s.spaces|;
    OwnedSame(s.spaces, s'.spaces[..n], pair);
    if |s'.spaces| == n {
      assert s'.spaces[..n] == s'.spaces;
    } else {
      assert s'.spaces[..|s'.spaces| - 1] == s'.spaces[..n];
      if PairOf(e.request) == pair {
        OwnedNone(s.spaces, pair);
      }
    }
  }

  /** A run creates at most one space per pair: none for a pair that has one. */
  lemma {:induction false} AtMostOneSpaceCreated(s: Store, events: seq<Event>, pair: Pair)
    requires ActiveIndex(s).Some? && Orderly(s, events)
    ensures var n, n' := Owned(s.spaces, pair), Owned(Run(s, events).spaces, pair);
            if n > 0 then n' == n else n' <= 1
    decreases |events|
  {
    if events != [] {
      StepFrame(s, events[0]);
      StepOwned(s, events[0], pair);
      AtMostOneSpaceCreated(Step(s, events[0]).0, events[1..], pair);
    }
  }

  lemma BlankMeansAws()
    ensures Normal("") == AWS
  {
    assert ToLower(AWS) == AWS;
    StripTwice(AWS);
  }

  /** Why the provider must not be blank: its new space counts as an "aws" space, so the pair still
      has no space after the access, and the next one starts from nothing again. */
  lemma {:induction false} BlankProviderKeepsNothing(s: Store, e: Event)
    requires ActiveIndex(s).Some? && !Named(e.request) && Fresh(s, e.newId)
    requires forall i :: 0 <= i < |s.spaces| && s.spaces[i].space.Some? ==>
            SpacePair(s.spaces[i].space.value).provider != ""
    ensures var s' := Step(s, e).0;
            && |s'.spaces| == |s.spaces| + 1
            && SpacePair(s'.spaces[|s.spaces|].space.value).provider == AWS
            && ActiveIndex(s').Some? && View(s', PairOf(e.request)) == map[]
  {
    var pair := PairOf(e.request);
    BlankMeansAws();
    assert Home(s, pair).None?;
    assert IndexOf(s.spaces, e.newId).None?;
    var s', n := Step(s, e).0, |s.spaces|;
    assert s'.spaces[n].space.value.provider == "";
    assert forall i :: 0 <= i < n ==> s'.spaces[i] == s.spaces[i];
    ActiveStays(s, s');
    assert Home(s', pair).None? by {
      assert forall i :: 0 <= i <= n ==> !Belongs(s'.spaces[i], pair);
    }
  }
}
