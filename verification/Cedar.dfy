/**
 The AWS IAM to Cedar compiler and the per-space policy store (core/cedar_engine.py). A policy text is
 modelled by the policy it parses to; Cedar's decision is: some permit applies and no forbid does.
 */
module Cedar {
  import opened Common
  import opened Text

  // ----- Policies and their evaluation -----

  datatype Request = Request(principal: string, action: string, resource: string)

  /** `permit` or `forbid`; without a resource the policy covers every resource. */
  datatype Policy = Policy(permit: bool, principal: string, action: string, resource: Option<string>)

  predicate Applies(p: Policy, q: Request) {
    p.principal == q.principal && p.action == q.action && (p.resource.None? || p.resource.value == q.resource)
  }

  /** Some permit, or some forbid, applies. */
  predicate Hit(ps: seq<Policy>, permit: bool, q: Request) {
    exists i :: 0 <= i < |ps| && ps[i].permit == permit && Applies(ps[i], q)
  }

  predicate Decides(ps: seq<Policy>, q: Request) { Hit(ps, true, q) && !Hit(ps, false, q) }

  /** What Cedar makes of a set and a request: a decision, or an error. */
  datatype Ruling = Decision(allow: bool) | Error

  /** `evaluate` allows without an engine, without policies, and when the engine raises. */
  predicate Allowed(installed: bool, ps: seq<Policy>, ruling: Ruling) {
    !installed || ps == [] || ruling.Error? || ruling.allow
  }

  /** Cedar's decision. */
  function Ruled(ps: seq<Policy>, q: Request): Ruling { Decision(Decides(ps, q)) }

  class Engine {
    const installed: bool
    var policies: map<string, seq<Policy>>

    constructor (installed: bool)
      ensures this.installed == installed && policies == map[]
    {
      this.installed := installed;
      policies := map[];
    }

    function PoliciesOf(space: string): seq<Policy>
      reads this
    {
      if space in policies then policies[space] else []
    }

    method SetPolicies(space: string, ps: seq<Policy>)
      modifies this
      ensures policies == old(policies)[space := ps]
    {
      policies := policies[space := ps];
    }

    method AddPolicy(space: string, ps: seq<Policy>)
      modifies this
      ensures PoliciesOf(space) == old(PoliciesOf(space)) + ps
      ensures forall other :: other != space ==> PoliciesOf(other) == old(PoliciesOf(other))
    {
      var current := PoliciesOf(space);
      policies := policies[space := current + ps];
    }

    method ClearPolicies(space: string)
      modifies this
      ensures policies == old(policies) - {space}
    {
      policies := policies - {space};
    }

    /** The engine looks for a permit and a forbid in one pass over the set; `raises` says that it fails instead. */
    method Evaluate(space: string, q: Request, raises: bool) returns (allowed: bool)
      ensures allowed == Allowed(installed, PoliciesOf(space), if raises then Error else Ruled(PoliciesOf(space), q))
    {
      if !installed {
        return true;
      }
      var ps := PoliciesOf(space);
      if ps == [] || raises {
        return true;
      }
      var permitted, forbidden := false, false;
      for i := 0 to |ps|
        invariant permitted == Hit(ps[..i], true, q) && forbidden == Hit(ps[..i], false, q)
      {
        HitStep(ps[..i], ps[i], true, q);
        HitStep(ps[..i], ps[i], false, q);
        assert ps[..i + 1] == ps[..i] + [ps[i]];
        if Applies(ps[i], q) {
          permitted, forbidden := permitted || ps[i].permit, forbidden || !ps[i].permit;
        }
      }
      assert ps[..|ps|] == ps;
      allowed := permitted && !forbidden;
    }
  }

  lemma HitConcat(a: seq<Policy>, b: seq<Policy>, permit: bool, q: Request)
    ensures Hit(a + b, permit, q) <==> Hit(a, permit, q) || Hit(b, permit, q)
  {
    if Hit(a, permit, q) {
      var i :| 0 <= i < |a| && a[i].permit == permit && Applies(a[i], q);
      assert (a + b)[i] == a[i];
    }
    if Hit(b, permit, q) {
      var i :| 0 <= i < |b| && b[i].permit == permit && Applies(b[i], q);
      assert (a + b)[|a| + i] == b[i];
    }
  }

  lemma HitStep(a: seq<Policy>, p: Policy, permit: bool, q: Request)
    ensures Hit(a + [p], permit, q) <==> Hit(a, permit, q) || (p.permit == permit && Applies(p, q))
  {
    HitConcat(a, [p], permit, q);
    assert p.permit == permit && Applies(p, q) ==> [p][0].permit == permit && Applies([p][0], q);
  }

  // ----- Documents -----

  datatype OneOrMany<T> = One(item: T) | Many(items: seq<T>)

  /** A missing list is empty, and so is an empty text. */
  function Texts(x: OneOrMany<string>): seq<string> {
    match x
    case One(s) => if s == "" then [] else [s]
    case Many(xs) => xs
  }

  datatype Statement = Statement(effect: Option<string>, actions: OneOrMany<string>, resources: OneOrMany<string>)

  datatype Document = Document(statements: OneOrMany<Statement>)

  function Statements(d: Document): seq<Statement> {
    if d.statements.One? then [d.statements.item] else d.statements.items
  }

  /** A statement as the compiler reads it: whether it permits, and its lists. */
  datatype Clause = Clause(permit: bool, actions: seq<string>, resources: seq<string>)

  /** A statement without an effect denies. */
  function Read(st: Statement): Clause {
    var effect := ToLower(if st.effect.Some? then st.effect.value else "Deny");
    Clause(effect == "allow", Texts(st.actions), Texts(st.resources))
  }

  function Clauses(d: Document): seq<Clause> {
    var sts := Statements(d);
    seq(|sts|, i requires 0 <= i < |sts| => Read(sts[i]))
  }

  // ----- The compiler -----

  function ResourceClause(res: string): Option<string> { if res == "*" then None else Some(res) }

  function ForAction(permit: bool, principal: string, action: string, resources: seq<string>): seq<Policy> {
    if resources == [] then []
    else
      ForAction(permit, principal, action, resources[..|resources| - 1])
      + [Policy(permit, principal, action, ResourceClause(resources[|resources| - 1]))]
  }

  function ForActions(permit: bool, principal: string, actions: seq<string>, resources: seq<string>): seq<Policy> {
    if actions == [] then []
    else
      ForActions(permit, principal, actions[..|actions| - 1], resources)
      + ForAction(permit, principal, actions[|actions| - 1], resources)
  }

  function ForClauses(principal: string, cs: seq<Clause>): seq<Policy> {
    if cs == [] then []
    else
      var c := cs[|cs| - 1];
      ForClauses(principal, cs[..|cs| - 1]) + ForActions(c.permit, principal, c.actions, c.resources)
  }

  function Compiled(d: Document, principal: string): seq<Policy> { ForClauses(principal, Clauses(d)) }

  lemma ForActionStep(permit: bool, principal: string, action: string, resources: seq<string>, k: nat)
    requires k < |resources|
    ensures ForAction(permit, principal, action, resources[..k + 1])
         == ForAction(permit, principal, action, resources[..k])
           + [Policy(permit, principal, action, ResourceClause(resources[k]))]
  {
    assert resources[..k + 1][..k] == resources[..k];
  }

  lemma ForActionsStep(permit: bool, principal: string, actions: seq<string>, resources: seq<string>, j: nat)
    requires j < |actions|
    ensures ForActions(permit, principal, actions[..j + 1], resources)
         == ForActions(permit, principal, actions[..j], resources) + ForAction(permit, principal, actions[j], resources)
  {
    hide ForAction;
    assert actions[..j + 1][..j] == actions[..j];
  }

  method CompileClause(c: Clause, principal: string) returns (out: seq<Policy>)
    ensures out == ForActions(c.permit, principal, c.actions, c.resources)
  {
    out := [];
    for j := 0 to |c.actions|
      invariant out == ForActions(c.permit, principal, c.actions[..j], c.resources)
    {
      var policies := CompileAction(c.permit, principal, c.actions[j], c.resources);
      ForActionsStep(c.permit, principal, c.actions, c.resources, j);
      out := out + policies;
    }
    assert c.actions[..|c.actions|] == c.actions;
  }

  method CompileAction(permit: bool, principal: string, action: string,
      resources: seq<string>) returns (out: seq<Policy>)
    ensures out == ForAction(permit, principal, action, resources)
  {
    out := [];
    for k := 0 to |resources|
      invariant out == ForAction(permit, principal, action, resources[..k])
    {
      ForActionStep(permit, principal, action, resources, k);
      out := out + [Policy(permit, principal, action, ResourceClause(resources[k]))];
    }
    assert resources[..|resources|] == resources;
  }

  method Compile(d: Document, principal: string) returns (out: seq<Policy>)
    ensures out == Compiled(d, principal)
  {
    out := [];
    var sts := Statements(d);
    ghost var cs := Clauses(d);
    hide Read;
    for i := 0 to |sts|
      invariant out == ForClauses(principal, cs[..i])
    {
      var policies := CompileClause(Read(sts[i]), principal);
      assert cs[..i + 1][..i] == cs[..i] && cs[i] == Read(sts[i]);
      out := out + policies;
    }
    assert cs[..|sts|] == cs;
  }

  // ----- What the statements mean -----

  /** Matching with `*` and `?`. */
  predicate Glob(pattern: string, text: string)
    decreases |pattern| + |text|
  {
    if pattern == [] then text == []
    else if pattern[0] == '*' then Glob(pattern[1..], text) || (text != [] && Glob(pattern, text[1..]))
    else text != [] && (pattern[0] == '?' || pattern[0] == text[0]) && Glob(pattern[1..], text[1..])
  }

  predicate AnyGlob(patterns: seq<string>, text: string) { exists i :: 0 <= i < |patterns| && Glob(patterns[i], text) }

  predicate Matches(c: Clause, q: Request) { AnyGlob(c.actions, q.action) && AnyGlob(c.resources, q.resource) }

  /** A document attached to a principal. */
  datatype Attachment = Attachment(principal: string, doc: Document)

  predicate Says(cs: seq<Clause>, allow: bool, q: Request) {
    exists i :: 0 <= i < |cs| && cs[i].permit == allow && Matches(cs[i], q)
  }

  predicate SaysFor(a: Attachment, allow: bool, q: Request) {
    a.principal == q.principal && Says(Clauses(a.doc), allow, q)
  }

  predicate AnySays(attached: seq<Attachment>, allow: bool, q: Request) {
    exists i :: 0 <= i < |attached| && SaysFor(attached[i], allow, q)
  }

  /** An explicit deny wins; otherwise an explicit allow is needed. */
  predicate StatementsAllow(attached: seq<Attachment>, q: Request) {
    AnySays(attached, true, q) && !AnySays(attached, false, q)
  }

  /** The policies of a space to which the compiled documents were added one after the other. */
  function AllPolicies(attached: seq<Attachment>): seq<Policy> {
    if attached == [] then []
    else
      var a := attached[|attached| - 1];
      AllPolicies(attached[..|attached| - 1]) + Compiled(a.doc, a.principal)
  }

  // ----- Where the two agree -----

  predicate Plain(pattern: string) { forall i :: 0 <= i < |pattern| ==> pattern[i] != '*' && pattern[i] != '?' }

  predicate PlainClause(c: Clause) {
    && (forall i :: 0 <= i < |c.actions| ==> Plain(c.actions[i]))
    && (forall i :: 0 <= i < |c.resources| ==> c.resources[i] == "*" || Plain(c.resources[i]))
  }

  predicate PlainClauses(cs: seq<Clause>) { forall i :: 0 <= i < |cs| ==> PlainClause(cs[i]) }

  /** The only wildcard is the resource `*`. */
  predicate PlainDocument(a: Attachment) { PlainClauses(Clauses(a.doc)) }

  lemma {:induction false} PlainGlob(pattern: string, text: string)
    requires Plain(pattern)
    ensures Glob(pattern, text) <==> pattern == text
    decreases |pattern|
  {
    if pattern != [] && text != [] {
      PlainGlob(pattern[1..], text[1..]);
      assert pattern == [pattern[0]] + pattern[1..] && text == [text[0]] + text[1..];
    }
  }

  lemma {:induction false} StarMatchesAll(text: string)
    ensures Glob("*", text)
  {
    if text != [] {
      StarMatchesAll(text[1..]);
    }
  }

  lemma ClauseIsGlob(res: string, text: string)
    requires res == "*" || Plain(res)
    ensures Glob(res, text) <==> ResourceClause(res).None? || res == text
  {
    if res == "*" {
      StarMatchesAll(text);
    } else {
      PlainGlob(res, text);
    }
  }

  /** Adding one pattern to a list. */
  lemma AnyGlobStep(patterns: seq<string>, text: string)
    requires patterns != []
    ensures AnyGlob(patterns, text) <==>
            AnyGlob(patterns[..|patterns| - 1], text) || Glob(patterns[|patterns| - 1], text)
  {
    var front := patterns[..|patterns| - 1];
    if AnyGlob(front, text) {
      var i :| 0 <= i < |front| && Glob(front[i], text);
      assert Glob(patterns[i], text);
    }
    if AnyGlob(patterns, text) && !Glob(patterns[|patterns| - 1], text) {
      var i :| 0 <= i < |patterns| && Glob(patterns[i], text);
      assert Glob(front[i], text);
    }
  }

  lemma {:induction false} ForActionHits(permit: bool, principal: string, action: string, resources: seq<string>,
      p: bool, q: Request)
    requires forall i :: 0 <= i < |resources| ==> resources[i] == "*" || Plain(resources[i])
    ensures Hit(ForAction(permit, principal, action, resources), p, q) <==>
            p == permit && principal == q.principal && action == q.action && AnyGlob(resources, q.resource)
  {
    if resources != [] {
      var front, res := resources[..|resources| - 1], resources[|resources| - 1];
      ForActionHits(permit, principal, action, front, p, q);
      HitStep(ForAction(permit, principal, action, front),
        Policy(permit, principal, action, ResourceClause(res)), p, q);
      AnyGlobStep(resources, q.resource);
      ClauseIsGlob(res, q.resource);
    }
  }

  lemma {:induction false} ForActionsHits(permit: bool, principal: string, actions: seq<string>, resources: seq<string>,
      p: bool, q: Request)
    requires forall i :: 0 <= i < |resources| ==> resources[i] == "*" || Plain(resources[i])
    requires forall i :: 0 <= i < |actions| ==> Plain(actions[i])
    ensures Hit(ForActions(permit, principal, actions, resources), p, q) <==>
            p == permit && principal == q.principal && AnyGlob(actions, q.action) && AnyGlob(resources, q.resource)
  {
    if actions != [] {
      var front, action := actions[..|actions| - 1], actions[|actions| - 1];
      ForActionsHits(permit, principal, front, resources, p, q);
      ForActionHits(permit, principal, action, resources, p, q);
      HitConcat(ForActions(permit, principal, front, resources), ForAction(permit, principal, action, resources), p, q);
      AnyGlobStep(actions, q.action);
      PlainGlob(action, q.action);
    }
  }

  lemma {:induction false} ForClausesHits(principal: string, cs: seq<Clause>, p: bool, q: Request)
    requires PlainClauses(cs)
    ensures Hit(ForClauses(principal, cs), p, q) <==> principal == q.principal && Says(cs, p, q)
  {
    if cs != [] {
      var front, c := cs[..|cs| - 1], cs[|cs| - 1];
      assert PlainClause(c);
      ForClausesHits(principal, front, p, q);
      ForActionsHits(c.permit, principal, c.actions, c.resources, p, q);
      HitConcat(ForClauses(principal, front), ForActions(c.permit, principal, c.actions, c.resources), p, q);
      SaysStep(front, c, p, q);
      hide Hit, Says, ForActions, Matches;
      assert cs == front + [c];
    }
  }

  lemma SaysStep(front: seq<Clause>, c: Clause, allow: bool, q: Request)
    ensures Says(front + [c], allow, q) <==> Says(front, allow, q) || (c.permit == allow && Matches(c, q))
  {
    hide Matches;
    var all := front + [c];
    if i :| 0 <= i < |front| && front[i].permit == allow && Matches(front[i], q) {
      assert all[i].permit == allow && Matches(all[i], q);
    }
    assert all[|front|] == c;
  }

  /** A permit of the compiled set applies exactly when an allow statement matches for its principal, and
      a forbid exactly when a deny statement does. */
  lemma {:induction false} PoliciesHit(attached: seq<Attachment>, p: bool, q: Request)
    requires forall i :: 0 <= i < |attached| ==> PlainDocument(attached[i])
    ensures Hit(AllPolicies(attached), p, q) <==> AnySays(attached, p, q)
  {
    if attached != [] {
      var front, a := attached[..|attached| - 1], attached[|attached| - 1];
      assert attached == front + [a] && PlainDocument(a);
      assert AllPolicies(attached) == AllPolicies(front) + ForClauses(a.principal, Clauses(a.doc));
      assert SaysFor(a, p, q) <==> a.principal == q.principal && Says(Clauses(a.doc), p, q);
      PlainClausesOf(a);
      hide *;
      PoliciesHit(front, p, q);
      ForClausesHits(a.principal, Clauses(a.doc), p, q);
      HitConcat(AllPolicies(front), ForClauses(a.principal, Clauses(a.doc)), p, q);
      AnySaysStep(front, a, p, q);
    }
  }

  lemma PlainClausesOf(a: Attachment)
    ensures PlainDocument(a) <==> PlainClauses(Clauses(a.doc))
  {
  }

  lemma AnySaysStep(front: seq<Attachment>, a: Attachment, allow: bool, q: Request)
    ensures AnySays(front + [a], allow, q) <==> AnySays(front, allow, q) || SaysFor(a, allow, q)
  {
    hide SaysFor;
    var all := front + [a];
    if i :| 0 <= i < |front| && SaysFor(front[i], allow, q) {
      assert SaysFor(all[i], allow, q);
    }
    assert all[|front|] == a;
  }

  /** The main theorem: with no wildcard but the resource `*`, the store decides every request as the
      attached statements do, exactly when at least one policy came out of them. Otherwise it allows
      what no statement allows. */
  lemma {:induction false} DecidesAsStatementsIff(attached: seq<Attachment>, q: Request)
    requires forall i :: 0 <= i < |attached| ==> PlainDocument(attached[i])
    ensures (Allowed(true, AllPolicies(attached), Ruled(AllPolicies(attached), q)) <==> StatementsAllow(attached, q))
            <==> AllPolicies(attached) != []
  {
    PoliciesHit(attached, true, q);
    PoliciesHit(attached, false, q);
  }

  /** The statement names no action, or no resource. */
  predicate Idle(c: Clause) { c.actions == [] || c.resources == [] }

  predicate Silent(cs: seq<Clause>) { forall i :: 0 <= i < |cs| ==> Idle(cs[i]) }

  predicate SilentDocument(a: Attachment) { Silent(Clauses(a.doc)) }

  /** An engine that fails allows: there the store decides as the statements exactly when they allow. */
  lemma {:induction false} ErrorAllowsIff(attached: seq<Attachment>, q: Request)
    requires forall i :: 0 <= i < |attached| ==> PlainDocument(attached[i])
    ensures (Allowed(true, AllPolicies(attached), Error) <==> StatementsAllow(attached, q)) <==>
            Hit(AllPolicies(attached), true, q) && !Hit(AllPolicies(attached), false, q)
  {
    PoliciesHit(attached, true, q);
    PoliciesHit(attached, false, q);
  }

  /** Nothing comes out exactly when every statement of every document lacks actions or resources. */
  lemma {:induction false} NoPoliciesIff(attached: seq<Attachment>)
    ensures AllPolicies(attached) == [] <==> forall i :: 0 <= i < |attached| ==> SilentDocument(attached[i])
  {
    hide ForClauses, Silent, Clauses;
    if attached != [] {
      var front, a := attached[..|attached| - 1], attached[|attached| - 1];
      NoPoliciesIff(front);
      NoneForClauses(a.principal, Clauses(a.doc));
      assert |AllPolicies(attached)| == |AllPolicies(front)| + |Compiled(a.doc, a.principal)|;
      assert attached == front + [a];
    }
  }

  lemma SilentStep(front: seq<Clause>, c: Clause)
    ensures Silent(front + [c]) <==> Silent(front) && Idle(c)
  {
    hide Idle;
    var cs := front + [c];
    assert forall i :: 0 <= i < |front| ==> front[i] == cs[i];
    assert cs[|front|] == c;
  }

  lemma {:induction false} NoneForClauses(principal: string, cs: seq<Clause>)
    ensures |ForClauses(principal, cs)| == 0 <==> Silent(cs)
  {
    if cs != [] {
      var front, c := cs[..|cs| - 1], cs[|cs| - 1];
      NoneForClauses(principal, front);
      NoneForActions(c.permit, principal, c.actions, c.resources);
      hide ForActions, Silent;
      SilentStep(front, c);
      assert cs == front + [c];
    }
  }

  lemma {:induction false} NoneForActions(permit: bool, principal: string, actions: seq<string>, resources: seq<string>)
    ensures |ForActions(permit, principal, actions, resources)| == 0 <==> actions == [] || resources == []
  {
    if actions != [] {
      NoneForActions(permit, principal, actions[..|actions| - 1], resources);
      assert |ForAction(permit, principal, actions[|actions| - 1], resources)| == 0 <==> resources == [];
    }
  }

  // ----- Where they differ: other wildcards are taken literally -----

  /** A text without wildcards that the pattern matches. */
  function Instance(pattern: string): string {
    if pattern == [] then []
    else if pattern[0] == '*' then Instance(pattern[1..])
    else [if pattern[0] == '?' then 'x' else pattern[0]] + Instance(pattern[1..])
  }

  lemma {:induction false} InstanceMatches(pattern: string)
    ensures Glob(pattern, Instance(pattern)) && Plain(Instance(pattern))
  {
    if pattern != [] {
      InstanceMatches(pattern[1..]);
      if pattern[0] != '*' {
        assert Instance(pattern)[1..] == Instance(pattern[1..]);
      }
    }
  }

  function OneAllow(action: string, resource: string): Document {
    Document(One(Statement(Some("Allow"), One(action), One(resource))))
  }

  /** One allow statement with one action and one resource is decided as AWS reads it, on every request,
      exactly when its action has no wildcard and its resource has none or is `*`. So the action `*` and
      a resource such as `bucket/` followed by `*` are not granted. */
  lemma {:induction false} OneStatementExact(principal: string, action: string, resource: string)
    requires action != "" && resource != ""
    ensures (forall q: Request | q.principal == principal ::
               Decides(Compiled(OneAllow(action, resource), principal), q) <==>
                 Glob(action, q.action) && Glob(resource, q.resource))
            <==> Plain(action) && (resource == "*" || Plain(resource))
  {
    forall q: Request | q.principal == principal
      ensures Decides(Compiled(OneAllow(action, resource), principal), q) <==>
              action == q.action && (resource == "*" || resource == q.resource)
    {
      OneAllowCompiles(principal, action, resource);
      HitStep([], Policy(true, principal, action, ResourceClause(resource)), true, q);
    }
    InstanceMatches(action);
    InstanceMatches(resource);
    var example := Request(principal, Instance(action), Instance(resource));
    assert example.principal == principal;
    forall q: Request | q.principal == principal && Plain(action) && (resource == "*" || Plain(resource))
      ensures Glob(action, q.action) && Glob(resource, q.resource) <==>
              action == q.action && (resource == "*" || resource == q.resource)
    {
      PlainGlob(action, q.action);
      ClauseIsGlob(resource, q.resource);
    }
  }

  lemma OneAllowCompiles(principal: string, action: string, resource: string)
    requires action != "" && resource != ""
    ensures Compiled(OneAllow(action, resource), principal)
            == [Policy(true, principal, action, ResourceClause(resource))]
  {
    var d := OneAllow(action, resource);
    var actions, resources := [action], [resource];
    assert Read(d.statements.item) == Clause(true, actions, resources) by {
      assert ToLower("Allow") == "allow";
    }
    var cs := [Clause(true, actions, resources)];
    assert Clauses(d) == cs;
    assert cs[..|cs| - 1] == [] && actions[..|actions| - 1] == [] && resources[..|resources| - 1] == [];
    assert ForAction(true, principal, action, resources) == [Policy(true, principal, action, ResourceClause(resource))];
    assert ForActions(true, principal, actions, resources) == ForAction(true, principal, action, resources);
    assert ForClauses(principal, cs) == ForActions(true, principal, actions, resources);
  }
}
