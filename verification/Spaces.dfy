/**
 The space lifecycle of the simulation kernel (core/cloudlearn_platform.py): creating, switching to,
 pausing, resuming, archiving and deleting spaces. The dict of spaces keeps its insertion order and is a
 sequence here. An absent text of a request is empty.
 */
module Spaces {
  import opened Common
  import opened Text
  import opened Decimal

  // ----- State -----

  datatype Status = Running | Paused | Archived

  datatype Counts = Counts(runtime: int, ec2: int, lambda: int, rds: int, sqs: int, dynamodb: int)

  datatype Space = Space(
    id: string, name: string, provider: string, region: string, status: Status,
    seed: string, owner: string, account: string, runtimeId: string, lxdProject: string,
    maxInstances: int, maxMemoryMb: int, maxDiskMb: int,
    memoryMb: int, diskMb: int, runtimeMb: int, costNotes: string, counts: Counts, tags: seq<(string, string)>,
    createdAt: string, updatedAt: string, lastSelectedAt: Option<string>)

  datatype Settings = Settings(maxSpaces: int, defaultProvider: string, defaultRegion: string, maxMemoryMb: int,
    maxDiskMb: int)

  datatype State = State(spaces: seq<Space>, active: string, settings: Settings)

  /** What a creation is asked for; an absent text is empty and an absent number zero. */
  datatype Spec = Spec(
    provider: string, name: string, region: string, spaceId: string, seed: string, owner: string, account: string,
    maxInstances: int, maxMemoryMb: int, maxDiskMb: int, runtimeMb: int, costNotes: string,
    counts: Counts, tags: seq<(string, string)>)

  /** The values that a creation draws: a unique id, a random seed and the time. */
  datatype Drawn = Drawn(uuid: string, seed: string, now: string)

  datatype Error = LimitReached | MemoryExceeded | DiskExceeded | NoSuchSpace

  datatype Outcome = Done | Failed(error: Error)

  /** The old hard-coded limit of 6 is replaced whenever the state is looked at. */
  function Migrated(s: Settings): Settings { if s.maxSpaces == 6 then s.(maxSpaces := 100) else s }

  /** The position of a space. */
  function IndexOf(spaces: seq<Space>, id: string): (r: Option<nat>)
    ensures r.Some? ==> r.value < |spaces| && spaces[r.value].id == id
    ensures r.Some? ==> forall i :: 0 <= i < r.value ==> spaces[i].id != id
    ensures r.None? ==> forall i :: 0 <= i < |spaces| ==> spaces[i].id != id
  {
    if spaces == [] then None
    else if spaces[0].id == id then Some(0)
    else
      var r := IndexOf(spaces[1..], id);
      if r.None? then None else Some(r.value + 1)
  }

  function ActiveSpace(s: State): Option<Space> {
    var i := IndexOf(s.spaces, s.active);
    if s.active == "" || i.None? then None else Some(s.spaces[i.value])
  }

  // ----- Estimates -----

  function MemoryMb(provider: string, c: Counts): int {
    (if provider == "aws" then 180 else if provider == "gcp" then 170 else 175) + 110 + 75
    + c.runtime * 70 + c.ec2 * 140 + c.lambda * 35 + c.rds * 220 + c.sqs * 35 + c.dynamodb * 95
  }

  function DiskMb(provider: string, c: Counts): int {
    (if provider == "aws" then 35 else if provider == "gcp" then 32 else 34)
    + c.runtime * 20 + c.ec2 * 120 + c.lambda * 20 + c.rds * 260 + c.sqs * 5 + c.dynamodb * 40
  }

  // ----- Operations -----

  /** Python's `a or b` on numbers. */
  function OrNumber(a: int, b: int): int { if a != 0 then a else b }

  function SpaceId(spec: Spec, uuid: string): (id: string)
    ensures id != ""
  {
    if spec.spaceId != "" then spec.spaceId else "space-" + uuid
  }

  function ProviderOf(s: State, spec: Spec): string { ToLower(OrDefault(spec.provider, s.settings.defaultProvider)) }

  function NewSpace(s: State, spec: Spec, d: Drawn): Space {
    var provider, id := ProviderOf(s, spec), SpaceId(spec, d.uuid);
    var memory, disk := MemoryMb(provider, spec.counts), DiskMb(provider, spec.counts);
    Space(
      id,
      Strip(OrDefault(spec.name, provider + ("-space-" + Digits(|s.spaces| + 1)))),
      provider,
      OrDefault(Strip(OrDefault(spec.region, s.settings.defaultRegion)), "us-east-1"),
      Running,
      OrDefault(spec.seed, d.seed), OrDefault(spec.owner, "local-user"), OrDefault(spec.account, "local-account"),
      "cloudsim-" + id, "cl-" + id,
      OrNumber(spec.maxInstances, 10), OrNumber(spec.maxMemoryMb, memory * 2), OrNumber(spec.maxDiskMb, disk * 2),
      memory, disk, OrNumber(spec.runtimeMb, spec.counts.runtime * 70),
      OrDefault(spec.costNotes, "Local resource estimate; not billing cost."), spec.counts, spec.tags,
      d.now, d.now, None)
  }

  /** Writing into a dict: an existing key keeps its place. */
  function Put(spaces: seq<Space>, space: Space): seq<Space> {
    var i := IndexOf(spaces, space.id);
    if i.Some? then spaces[i.value := space] else spaces + [space]
  }

  datatype Op =
    | Create(spec: Spec, drawn: Drawn)
    | Switch(id: string, now: string)
    | SetStatus(id: string, status: Status, now: string)
    | Delete(id: string)

  function Refusal(s: State, op: Op): Option<Error> {
    match op
    case Create(spec, d) =>
      var space := NewSpace(s, spec, d);
      if |s.spaces| >= Migrated(s.settings).maxSpaces then Some(LimitReached)
      else if space.memoryMb > s.settings.maxMemoryMb then Some(MemoryExceeded)
      else if space.diskMb > s.settings.maxDiskMb then Some(DiskExceeded)
      else None
    case _ => if IndexOf(s.spaces, op.id).None? then Some(NoSuchSpace) else None
  }

  function Without(spaces: seq<Space>, i: nat): seq<Space>
    requires i < |spaces|
  {
    spaces[..i] + spaces[i + 1..]
  }

  /** What an operation that is not refused leaves behind. */
  function Effect(s: State, op: Op): State
    requires Refusal(s, op).None?
  {
    match op
    case Create(spec, d) =>
      var space := NewSpace(s, spec, d);
      State(Put(s.spaces, space), if s.active == "" then space.id else s.active, s.settings)
    case Switch(id, now) =>
      var i := IndexOf(s.spaces, id).value;
      s.(active := id, spaces := s.spaces[i := s.spaces[i].(lastSelectedAt := Some(now))])
    case SetStatus(id, status, now) =>
      var i := IndexOf(s.spaces, id).value;
      s.(spaces := s.spaces[i := s.spaces[i].(status := status, updatedAt := now)])
    case Delete(id) =>
      var rest := Without(s.spaces, IndexOf(s.spaces, id).value);
      s.(spaces := rest, active := if s.active != id then s.active else if rest == [] then "" else rest[0].id)
  }

  function Step(s: State, op: Op): State {
    var migrated := s.(settings := Migrated(s.settings));
    if Refusal(migrated, op).Some? then migrated else Effect(migrated, op)
  }

  class Kernel {
    var spaces: seq<Space>
    var active: string
    var settings: Settings

    constructor (settings: Settings)
      ensures Now() == State([], "", settings)
    {
      spaces, active := [], "";
      this.settings := settings;
    }

    function Now(): State
      reads this
    {
      State(spaces, active, settings)
    }

    method SpacesState()
      modifies this`settings
      ensures settings == Migrated(old(settings))
    {
      if settings.maxSpaces == 6 {
        settings := settings.(maxSpaces := 100);
      }
    }

    method CreateSpace(spec: Spec, d: Drawn) returns (r: Outcome)
      modifies this
      ensures Now() == Step(old(Now()), Create(spec, d))
      ensures r.Failed? <==> Refusal(old(Now()), Create(spec, d)).Some?
      ensures r.Failed? ==> Some(r.error) == Refusal(old(Now()), Create(spec, d))
    {
      SpacesState();
      if |spaces| >= settings.maxSpaces {
        return Failed(LimitReached);
      }
      var space := NewSpace(Now(), spec, d);
      if space.memoryMb > settings.maxMemoryMb {
        return Failed(MemoryExceeded);
      }
      if space.diskMb > settings.maxDiskMb {
        return Failed(DiskExceeded);
      }
      spaces := Put(spaces, space);
      if active == "" {
        active := space.id;
      }
      r := Done;
    }

    method SwitchSpace(id: string, now: string) returns (r: Outcome)
      modifies this
      ensures Now() == Step(old(Now()), Switch(id, now))
      ensures r == if IndexOf(old(spaces), id).None? then Failed(NoSuchSpace) else Done
    {
      SpacesState();
      var i := IndexOf(spaces, id);
      if i.None? {
        return Failed(NoSuchSpace);
      }
      active := id;
      spaces := spaces[i.value := spaces[i.value].(lastSelectedAt := Some(now))];
      r := Done;
    }

    /** `pause_space`, `resume_space` and `archive_space`. */
    method ChangeStatus(id: string, status: Status, now: string) returns (r: Outcome)
      modifies this
      ensures Now() == Step(old(Now()), SetStatus(id, status, now))
      ensures r == if IndexOf(old(spaces), id).None? then Failed(NoSuchSpace) else Done
    {
      SpacesState();
      var i := IndexOf(spaces, id);
      if i.None? {
        return Failed(NoSuchSpace);
      }
      spaces := spaces[i.value := spaces[i.value].(status := status, updatedAt := now)];
      r := Done;
    }

    method DeleteSpace(id: string) returns (r: Outcome)
      modifies this
      ensures Now() == Step(old(Now()), Delete(id))
      ensures r == if IndexOf(old(spaces), id).None? then Failed(NoSuchSpace) else Done
    {
      SpacesState();
      var i := IndexOf(spaces, id);
      if i.None? {
        return Failed(NoSuchSpace);
      }
      spaces := Without(spaces, i.value);
      if active == id {
        active := if spaces == [] then "" else spaces[0].id;
      }
      r := Done;
    }
  }

  // ----- What every run keeps -----

  function Run(s: State, ops: seq<Op>): State {
    if ops == [] then s else Step(Run(s, ops[..|ops| - 1]), ops[|ops| - 1])
  }

  predicate UniqueIds(spaces: seq<Space>) {
    && (forall i, j :: 0 <= i < j < |spaces| ==> spaces[i].id != spaces[j].id)
    && (forall i :: 0 <= i < |spaces| ==> spaces[i].id != "")
  }

  predicate NamesOne(spaces: seq<Space>, id: string) { exists i :: 0 <= i < |spaces| && spaces[i].id == id }

  /** The active id is empty exactly when there are no spaces, and otherwise names one. */
  predicate ActiveNamesOne(s: State) {
    (s.active == "" <==> s.spaces == []) && (s.active != "" ==> NamesOne(s.spaces, s.active))
  }

  predicate Fits(space: Space, settings: Settings) {
    space.memoryMb <= settings.maxMemoryMb && space.diskMb <= settings.maxDiskMb
  }

  function Limit(settings: Settings): nat {
    if Migrated(settings).maxSpaces < 0 then 0 else Migrated(settings).maxSpaces
  }

  predicate WithinBudget(s: State) {
    |s.spaces| <= Limit(s.settings) && forall i :: 0 <= i < |s.spaces| ==> Fits(s.spaces[i], s.settings)
  }

  predicate Sound(s: State) { UniqueIds(s.spaces) && ActiveNamesOne(s) && WithinBudget(s) }

  /** Writing a space of an id that is there, or adding one of a new id. */
  lemma PutKeeps(spaces: seq<Space>, space: Space, settings: Settings)
    requires UniqueIds(spaces) && space.id != "" && Fits(space, settings)
    requires forall i :: 0 <= i < |spaces| ==> Fits(spaces[i], settings)
    ensures UniqueIds(Put(spaces, space)) && NamesOne(Put(spaces, space), space.id) && Put(spaces, space) != []
    ensures forall i :: 0 <= i < |Put(spaces, space)| ==> Fits(Put(spaces, space)[i], settings)
    ensures forall id :: NamesOne(spaces, id) ==> NamesOne(Put(spaces, space), id)
    ensures |spaces| <= |Put(spaces, space)| <= |spaces| + 1
    ensures IndexOf(spaces, space.id).Some? ==> |Put(spaces, space)| == |spaces|
  {
    hide Fits, IndexOf;
    var put := Put(spaces, space);
    assert forall i :: 0 <= i < |spaces| ==> put[i].id == spaces[i].id;
    assert put[if IndexOf(spaces, space.id).Some? then IndexOf(spaces, space.id).value else |spaces|].id == space.id;
    forall id | NamesOne(spaces, id) ensures NamesOne(put, id) {
      var i :| 0 <= i < |spaces| && spaces[i].id == id;
      assert put[i].id == id;
    }
  }

  lemma CreateKeeps(s: State, spec: Spec, d: Drawn)
    requires Sound(s) && Refusal(s, Create(spec, d)).None?
    ensures Sound(Effect(s, Create(spec, d)))
  {
    hide MemoryMb, DiskMb, ToLower, Strip, Digits, UniqueIds, NamesOne, IndexOf, Put;
    PutKeeps(s.spaces, NewSpace(s, spec, d), s.settings);
  }

  lemma WithoutUnique(spaces: seq<Space>, k: nat)
    requires UniqueIds(spaces) && k < |spaces|
    ensures UniqueIds(Without(spaces, k))
    ensures forall id :: id != spaces[k].id && NamesOne(spaces, id) ==> NamesOne(Without(spaces, k), id)
  {
    var rest := Without(spaces, k);
    assert forall j :: 0 <= j < |rest| ==> rest[j] == spaces[if j < k then j else j + 1];
    hide Without;
    forall id | id != spaces[k].id && NamesOne(spaces, id) ensures NamesOne(rest, id) {
      var j :| 0 <= j < |spaces| && spaces[j].id == id;
      assert rest[if j < k then j else j - 1].id == id;
    }
  }

  lemma WithoutFits(spaces: seq<Space>, k: nat, settings: Settings)
    requires k < |spaces| && forall i :: 0 <= i < |spaces| ==> Fits(spaces[i], settings)
    ensures forall i :: 0 <= i < |Without(spaces, k)| ==> Fits(Without(spaces, k)[i], settings)
  {
    hide Fits;
    var rest := Without(spaces, k);
    assert forall j :: 0 <= j < |rest| ==> rest[j] == spaces[if j < k then j else j + 1];
  }

  lemma DeleteKeeps(s: State, id: string)
    requires Sound(s) && IndexOf(s.spaces, id).Some?
    ensures Sound(Effect(s, Delete(id)))
  {
    var k := IndexOf(s.spaces, id).value;
    assert |Without(s.spaces, k)| == |s.spaces| - 1;
    hide IndexOf, Fits, Limit, Without;
    WithoutUnique(s.spaces, k);
    WithoutFits(s.spaces, k, s.settings);
  }

  /** Writing a space back with other details. */
  lemma RewriteKeeps(s: State, space: Space, active: string)
    requires Sound(s) && space.id != "" && IndexOf(s.spaces, space.id).Some? && Fits(space, s.settings)
    requires active == s.active || active == space.id
    ensures Sound(State(Put(s.spaces, space), active, s.settings))
  {
    hide IndexOf, Fits, Limit, UniqueIds, NamesOne, Put;
    PutKeeps(s.spaces, space, s.settings);
  }

  lemma {:induction false} StepKeeps(s: State, op: Op)
    requires Sound(s)
    ensures Sound(Step(s, op))
  {
    var m := s.(settings := Migrated(s.settings));
    assert Sound(m);
    if Refusal(m, op).None? {
      hide Sound, MemoryMb, DiskMb, ToLower, Strip, Digits;
      match op
      case Create(spec, d) => CreateKeeps(m, spec, d);
      case Delete(id) => DeleteKeeps(m, id);
      case Switch(id, now) =>
        SoundSpace(m, IndexOf(m.spaces, id).value);
        RewriteKeeps(m, m.spaces[IndexOf(m.spaces, id).value].(lastSelectedAt := Some(now)), id);
      case SetStatus(id, status, now) =>
        SoundSpace(m, IndexOf(m.spaces, id).value);
        RewriteKeeps(m, m.spaces[IndexOf(m.spaces, id).value].(status := status, updatedAt := now), m.active);
    }
  }

  lemma SoundSpace(s: State, i: nat)
    requires Sound(s) && i < |s.spaces|
    ensures s.spaces[i].id != "" && Fits(s.spaces[i], s.settings)
  {
  }

  /** The main invariant: it holds after every run of operations on a new kernel. */
  lemma {:induction false} RunsAreSound(settings: Settings, ops: seq<Op>)
    ensures Sound(Run(State([], "", settings), ops))
  {
    if ops != [] {
      RunsAreSound(settings, ops[..|ops| - 1]);
      StepKeeps(Run(State([], "", settings), ops[..|ops| - 1]), ops[|ops| - 1]);
    }
  }

  /** So the active space is found whenever there are spaces. */
  lemma {:induction false} ActiveIsFound(settings: Settings, ops: seq<Op>)
    ensures var s := Run(State([], "", settings), ops);
            && (ActiveSpace(s).None? <==> s.spaces == [])
            && (ActiveSpace(s).Some? ==> ActiveSpace(s).value in s.spaces && ActiveSpace(s).value.id == s.active)
  {
    RunsAreSound(settings, ops);
  }

  /** An operation that can move the active id away from `id`: a switch elsewhere, or deleting `id`. */
  predicate Leaves(op: Op, id: string) { (op.Switch? && op.id != id) || (op.Delete? && op.id == id) }

  /** Once active, a space stays active and present until it is deleted or another one is switched to,
      whatever is created, paused or deleted beside it. */
  lemma {:induction false} ActiveStays(s: State, ops: seq<Op>)
    requires Sound(s) && s.spaces != []
    requires forall i :: 0 <= i < |ops| ==> !Leaves(ops[i], s.active)
    ensures Run(s, ops).active == s.active && Sound(Run(s, ops)) && Run(s, ops).spaces != []
  {
    if ops != [] {
      var front, op := ops[..|ops| - 1], ops[|ops| - 1];
      ActiveStays(s, front);
      StepKeeps(Run(s, front), op);
    }
  }

  /** The spaces other than `id`, in order. */
  function Others(spaces: seq<Space>, id: string): seq<Space> {
    if spaces == [] then []
    else Others(spaces[..|spaces| - 1], id) + if spaces[|spaces| - 1].id == id then [] else [spaces[|spaces| - 1]]
  }

  /** The space an operation is about. */
  function Target(op: Op): string { if op.Create? then SpaceId(op.spec, op.drawn.uuid) else op.id }

  lemma {:induction false} OthersOfConcat(a: seq<Space>, b: seq<Space>, id: string)
    ensures Others(a + b, id) == Others(a, id) + Others(b, id)
  {
    if b == [] {
      assert a + b == a;
    } else {
      OthersOfConcat(a, b[..|b| - 1], id);
      assert (a + b)[..|a + b| - 1] == a + b[..|b| - 1];
    }
  }

  lemma OthersOfThree(a: seq<Space>, middle: seq<Space>, b: seq<Space>, id: string)
    requires |middle| <= 1 && (middle != [] ==> middle[0].id == id)
    ensures Others(a + middle + b, id) == Others(a, id) + Others(b, id)
  {
    assert Others(middle, id) == [];
    hide Others;
    OthersOfConcat(a, middle, id);
    OthersOfConcat(a + middle, b, id);
  }

  lemma OthersOfUpdate(spaces: seq<Space>, i: nat, replaced: seq<Space>, id: string)
    requires i < |spaces| && spaces[i].id == id
    requires |replaced| <= 1 && (replaced != [] ==> replaced[0].id == id)
    ensures Others(spaces[..i] + replaced + spaces[i + 1..], id) == Others(spaces, id)
  {
    hide Others;
    OthersOfThree(spaces[..i], replaced, spaces[i + 1..], id);
    OthersOfThree(spaces[..i], [spaces[i]], spaces[i + 1..], id);
    assert spaces == spaces[..i] + [spaces[i]] + spaces[i + 1..];
  }

  lemma PutLeavesOthers(spaces: seq<Space>, space: Space)
    ensures Others(Put(spaces, space), space.id) == Others(spaces, space.id)
  {
    assert Others([space], space.id) == [];
    hide Others, IndexOf;
    var i := IndexOf(spaces, space.id);
    if i.None? {
      OthersOfConcat(spaces, [space], space.id);
    } else {
      OthersOfUpdate(spaces, i.value, [space], space.id);
      assert Put(spaces, space) == spaces[..i.value] + [space] + spaces[i.value + 1..];
    }
  }

  lemma DeleteLeavesOthers(spaces: seq<Space>, i: nat)
    requires i < |spaces|
    ensures Others(Without(spaces, i), spaces[i].id) == Others(spaces, spaces[i].id)
  {
    hide Others;
    OthersOfUpdate(spaces, i, [], spaces[i].id);
    assert Without(spaces, i) == spaces[..i] + [] + spaces[i + 1..];
  }

  /** No operation touches a space other than its target, nor their order. */
  lemma {:induction false} StepLeavesOthers(s: State, op: Op)
    ensures Others(Step(s, op).spaces, Target(op)) == Others(s.spaces, Target(op))
  {
    hide Others, Strip, ToLower, Digits, MemoryMb, DiskMb;
    var m, id := s.(settings := Migrated(s.settings)), Target(op);
    if Refusal(m, op).None? {
      match op
      case Create(spec, d) => PutLeavesOthers(s.spaces, NewSpace(m, spec, d));
      case Delete(_) => DeleteLeavesOthers(s.spaces, IndexOf(s.spaces, id).value);
      case Switch(_, now) =>
        PutLeavesOthers(s.spaces, s.spaces[IndexOf(s.spaces, id).value].(lastSelectedAt := Some(now)));
      case SetStatus(_, status, now) =>
        PutLeavesOthers(s.spaces, s.spaces[IndexOf(s.spaces, id).value].(status := status, updatedAt := now));
    }
  }

  lemma PutThenWithout(spaces: seq<Space>, space: Space)
    ensures var i := IndexOf(Put(spaces, space), space.id);
            i.Some? && (Without(Put(spaces, space), i.value) == spaces <==> IndexOf(spaces, space.id).None?)
  {
    var put := Put(spaces, space);
    var i, k := IndexOf(put, space.id), IndexOf(spaces, space.id);
    assert put[if k.Some? then k.value else |spaces|] == space;
    if k.None? {
      assert i == Some(|spaces|);
      assert Without(put, |spaces|) == spaces;
    } else {
      assert |Without(put, i.value)| == |spaces| - 1;
    }
  }

  /** Creating a space and deleting it again restores the spaces and the active id exactly when the id
      was not in use; a given id that is in use silently replaces that space. */
  lemma {:induction false} CreateThenDeleteIff(s: State, spec: Spec, d: Drawn)
    requires Sound(s) && Refusal(s.(settings := Migrated(s.settings)), Create(spec, d)).None?
    ensures var id := SpaceId(spec, d.uuid);
            var after := Step(Step(s, Create(spec, d)), Delete(id));
            after.spaces == s.spaces && after.active == s.active <==> IndexOf(s.spaces, id).None?
  {
    hide Strip, ToLower, Digits, MemoryMb, DiskMb, WithinBudget;
    var m, id := s.(settings := Migrated(s.settings)), SpaceId(spec, d.uuid);
    var space := NewSpace(m, spec, d);
    assert space.id == id;
    PutThenWithout(s.spaces, space);
    if IndexOf(s.spaces, id).None? && s.active != "" {
      assert s.active != id;
    }
  }

  // ----- Budgets -----

  const ZERO := Counts(0, 0, 0, 0, 0, 0)

  predicate Honest(c: Counts) {
    c.runtime >= 0 && c.ec2 >= 0 && c.lambda >= 0 && c.rds >= 0 && c.sqs >= 0 && c.dynamodb >= 0
  }

  predicate Accepts(s: State, spec: Spec, c: Counts, d: Drawn) { Refusal(s, Create(spec.(counts := c), d)).None? }

  predicate BelowLimit(s: State) { |s.spaces| < Migrated(s.settings).maxSpaces }

  /** With counts that are not negative, a creation is accepted for some of them exactly when the limit is not
      reached and the base cost of the provider is within both budgets. */
  lemma {:induction false} HonestCountsIff(s: State, spec: Spec, d: Drawn)
    ensures (exists c :: Honest(c) && Accepts(s, spec, c, d)) <==>
            && BelowLimit(s)
            && MemoryMb(ProviderOf(s, spec), ZERO) <= s.settings.maxMemoryMb
            && DiskMb(ProviderOf(s, spec), ZERO) <= s.settings.maxDiskMb
  {
    hide ToLower, Strip, Digits;
    var provider := ProviderOf(s, spec);
    forall c | Honest(c)
      ensures MemoryMb(provider, c) >= MemoryMb(provider, ZERO) && DiskMb(provider, c) >= DiskMb(provider, ZERO)
    {
    }
    if BelowLimit(s) && MemoryMb(provider, ZERO) <= s.settings.maxMemoryMb &&
      DiskMb(provider, ZERO) <= s.settings.maxDiskMb {
      assert Honest(ZERO) && Accepts(s, spec, ZERO, d);
    }
  }

  /** Negative counts are not refused: with them some creation is accepted under any budgets, exactly as
      long as the limit is not reached. */
  lemma {:induction false} NegativeCountsPassBudgetsIff(s: State, spec: Spec, d: Drawn)
    ensures (exists c :: Accepts(s, spec, c, d)) <==> BelowLimit(s)
  {
    hide ToLower, Strip, Digits;
    var provider := ProviderOf(s, spec);
    var budget := if s.settings.maxMemoryMb < s.settings.maxDiskMb
      then s.settings.maxMemoryMb else s.settings.maxDiskMb;
    var n := if budget >= 0 then 0 else budget;
    var c := Counts(0, n - 4, 0, 0, 0, 0);
    assert MemoryMb(provider, c) <= budget && DiskMb(provider, c) <= budget;
    if BelowLimit(s) {
      assert Accepts(s, spec, c, d);
    }
  }
}
