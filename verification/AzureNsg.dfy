/**
 The Azure NSG compiler (core/azure_nsg_enforce.py): security rules, sorted by priority,
 become one chain that both the INPUT and the OUTPUT hook jump to.
 */
module AzureNsg {
  import opened Common
  import opened Text
  import opened Iptables

  /** The properties of a security rule; a member that is missing takes its default. */
  datatype NsgRule = NsgRule(priority: Option<int>, direction: Option<string>, access: Option<string>,
                             protocol: Option<string>, source: Option<string>, destination: Option<string>,
                             destinationPorts: Option<string>)

  const DEFAULT_PRIORITY := 65000

  function Or(text: Option<string>, default: string): string { if text.Some? then text.value else default }

  function Priority(r: NsgRule): int { if r.priority.Some? then r.priority.value else DEFAULT_PRIORITY }

  predicate Wildcard(text: string) { text == "*" || text == "" || text == "any" }

  predicate Inbound(r: NsgRule) { ToLower(Or(r.direction, "")) == "inbound" }

  predicate Outbound(r: NsgRule) { ToLower(Or(r.direction, "")) == "outbound" }

  function Protocol(r: NsgRule): Option<Proto> {
    var proto := ToLower(Or(r.protocol, "*"));
    if proto == "tcp" then Some(Tcp)
    else if proto == "udp" then Some(Udp)
    else if proto == "icmp" then Some(Icmp)
    else None
  }

  predicate HasPorts(r: NsgRule) {
    (Protocol(r) == Some(Tcp) || Protocol(r) == Some(Udp)) && !Wildcard(Or(r.destinationPorts, "*"))
  }

  function PortRange(r: NsgRule): string { ReplaceChar(Or(r.destinationPorts, "*"), '-', ':') }

  predicate ChecksSource(r: NsgRule) { Inbound(r) && !Wildcard(Or(r.source, "*")) }

  predicate ChecksDestination(r: NsgRule) { Outbound(r) && !Wildcard(Or(r.destination, "*")) }

  function ActionOf(r: NsgRule): Target { if ToUpper(Or(r.access, "")) == "ALLOW" then Accept else Drop }

  // ----- What a rule means, read off the translation -----

  /** The packet is one the rule speaks about: the direction only selects which address is looked at. */
  predicate Applies(net: Net, r: NsgRule, p: Packet) {
    && (Protocol(r).Some? ==> p.proto == Protocol(r).value)
    && (ChecksSource(r) ==> net.inRange(Or(r.source, "*"), p.src))
    && (ChecksDestination(r) ==> net.inRange(Or(r.destination, "*"), p.dst))
    && (HasPorts(r) ==> net.inPorts(PortRange(r), p.dport))
  }

  /** iptables takes the texts of the rule. */
  predicate Sound(net: Net, r: NsgRule) {
    && (ChecksSource(r) ==> net.okRange(Or(r.source, "*")))
    && (ChecksDestination(r) ==> net.okRange(Or(r.destination, "*")))
    && (HasPorts(r) ==> net.okPorts(PortRange(r)))
  }

  predicate Precedes(rules: seq<NsgRule>, i: nat, j: nat)
    requires i < |rules| && j < |rules|
  {
    Priority(rules[i]) < Priority(rules[j]) || (Priority(rules[i]) == Priority(rules[j]) && i < j)
  }

  /** Under `set -e` a rule reaches the chain when it and every rule before it are sound. */
  predicate Installed(net: Net, rules: seq<NsgRule>, i: nat)
    requires i < |rules|
  {
    forall j: nat :: j < |rules| && (j == i || Precedes(rules, j, i)) ==> Sound(net, rules[j])
  }

  /** Rule `i` is the first of the installed rules that apply, by priority and then by position. */
  predicate Winner(net: Net, rules: seq<NsgRule>, p: Packet, i: nat)
    requires i < |rules|
  {
    && Installed(net, rules, i) && Applies(net, rules[i], p)
    && forall j: nat :: j < |rules| && j != i && Installed(net, rules, j) && Applies(net, rules[j], p) ==>
      Precedes(rules, i, j)
  }

  // ----- Python's stable sort, on positions -----

  predicate Positions(rules: seq<NsgRule>, order: seq<nat>) {
    forall k :: 0 <= k < |order| ==> order[k] < |rules|
  }

  function InsertByPriority(rules: seq<NsgRule>, x: nat, order: seq<nat>): (r: seq<nat>)
    requires x < |rules| && Positions(rules, order)
    ensures Positions(rules, r) && forall i :: i in r <==> i == x || i in order
  {
    if order == [] then [x]
    else
      assert order == [order[0]] + order[1..];
      if Priority(rules[order[0]]) <= Priority(rules[x])
      then [order[0]] + InsertByPriority(rules, x, order[1..])
      else [x] + order
  }

  function Order(rules: seq<NsgRule>, n: nat): (r: seq<nat>)
    requires n <= |rules|
    ensures Positions(rules, r) && forall i: nat :: i in r <==> i < n
  {
    if n == 0 then [] else InsertByPriority(rules, n - 1, Order(rules, n - 1))
  }

  predicate InOrder(rules: seq<NsgRule>, order: seq<nat>) {
    && Positions(rules, order)
    && forall a, b :: 0 <= a < b < |order| ==> Precedes(rules, order[a], order[b])
  }

  lemma {:induction false} InsertKeepsOrder(rules: seq<NsgRule>, x: nat, order: seq<nat>)
    requires x < |rules| && InOrder(rules, order)
    requires forall k :: 0 <= k < |order| ==> order[k] < x
    ensures InOrder(rules, InsertByPriority(rules, x, order))
    decreases |order|
  {
    if order != [] {
      var r := InsertByPriority(rules, x, order);
      if Priority(rules[order[0]]) <= Priority(rules[x]) {
        var rest := order[1..];
        forall a, b | 0 <= a < b < |rest| ensures Precedes(rules, rest[a], rest[b]) {
          assert Precedes(rules, order[a + 1], order[b + 1]);
        }
        InsertKeepsOrder(rules, x, rest);
        forall b | 0 < b < |r| ensures Precedes(rules, r[0], r[b]) {
          assert r[b] in InsertByPriority(rules, x, rest);
          if r[b] != x {
            var k :| 0 <= k < |rest| && rest[k] == r[b];
            assert Precedes(rules, order[0], order[k + 1]);
          } else {
            assert order[0] in order;
          }
        }
      } else {
        forall b | 0 < b < |r| ensures Precedes(rules, r[0], r[b]) {
          assert r[b] == order[b - 1];
          assert b > 1 ==> Precedes(rules, order[0], order[b - 1]);
        }
      }
    }
  }

  /** The sort is a permutation of the positions, by priority and stable. */
  lemma {:induction false} OrderSorts(rules: seq<NsgRule>, n: nat)
    requires n <= |rules|
    ensures InOrder(rules, Order(rules, n)) && forall i: nat :: i in Order(rules, n) <==> i < n
  {
    if n > 0 {
      OrderSorts(rules, n - 1);
      var shorter := Order(rules, n - 1);
      forall k | 0 <= k < |shorter| ensures shorter[k] < n - 1 { assert shorter[k] in shorter; }
      InsertKeepsOrder(rules, n - 1, shorter);
    }
  }

  // ----- The compiler -----

  function Condition(r: NsgRule): Match {
    ANY.(proto := Protocol(r),
         src := if ChecksSource(r) then Some(Or(r.source, "*")) else None,
         dst := if ChecksDestination(r) then Some(Or(r.destination, "*")) else None,
         dport := if HasPorts(r) then Some(PortRange(r)) else None)
  }

  function LineOf(r: NsgRule): Command { Append(CL_NSG, Rule(Condition(r), ActionOf(r))) }

  const HOOK := Rule(ANY, Jump(CL_NSG))

  function EnsureJump(hook: Chain): Command { OrElse(Check(hook, HOOK), Insert(hook, HOOK)) }

  function Preamble(): seq<Command> {
    [Command.OrElse(NewChain(CL_NSG), Flush(CL_NSG)), EnsureJump(INPUT), EnsureJump(OUTPUT)]
  }

  function RuleLines(rules: seq<NsgRule>, order: seq<nat>): seq<Command>
    requires Positions(rules, order)
  {
    seq(|order|, k requires 0 <= k < |order| => LineOf(rules[order[k]]))
  }

  function Script(rules: seq<NsgRule>): seq<Command> { Preamble() + RuleLines(rules, Order(rules, |rules|)) }

  /** The commands after `#!/bin/sh` and `set -e`. */
  method BuildScript(rules: seq<NsgRule>) returns (lines: seq<Command>)
    ensures lines == Script(rules)
  {
    lines := Preamble();
    var sorted := Order(rules, |rules|);
    for k := 0 to |sorted|
      invariant lines == Preamble() + RuleLines(rules, sorted)[..k]
    {
      assert sorted[k] in sorted;
      var rule := rules[sorted[k]];
      var cond := ANY.(proto := Protocol(rule));
      if !Wildcard(Or(rule.source, "*")) && Inbound(rule) {
        cond := cond.(src := Some(Or(rule.source, "*")));
      }
      if !Wildcard(Or(rule.destination, "*")) && Outbound(rule) {
        cond := cond.(dst := Some(Or(rule.destination, "*")));
      }
      if HasPorts(rule) {
        cond := cond.(dport := Some(PortRange(rule)));
      }
      assert cond == Condition(rule);
      lines := lines + [Append(CL_NSG, Rule(cond, ActionOf(rule)))];
    }
  }

  // ----- The chain after a run -----

  predicate HasHooks(t: Tables) { INPUT in t && OUTPUT in t }

  function Jumping(rules: seq<Rule>): seq<Rule> { if HOOK in rules then rules else [HOOK] + rules }

  function Prepared(t: Tables): Tables
    requires HasHooks(t)
  {
    t[CL_NSG := []][INPUT := Jumping(t[INPUT])][OUTPUT := Jumping(t[OUTPUT])]
  }

  lemma RunPreamble(net: Net, rest: seq<Command>, t: Tables)
    requires HasHooks(t)
    ensures RunStrict(net, Preamble() + rest, t) == RunStrict(net, rest, Prepared(t))
  {
    var s := Preamble() + rest;
    var t1 := t[CL_NSG := []];
    assert Exec(net, NewChain(CL_NSG), t) == if CL_NSG in t then (t, false) else (t1, true);
    assert Exec(net, Flush(CL_NSG), t) == if CL_NSG in t then (t1, true) else (t, false);
    assert Exec(net, s[0], t) == (t1, true);
    EnsureHook(net, INPUT, HOOK, t1);
    var t2 := t1[INPUT := Jumping(t[INPUT])];
    assert t1 == t1[INPUT := t1[INPUT]];
    EnsureHook(net, OUTPUT, HOOK, t2);
    assert t2 == t2[OUTPUT := t2[OUTPUT]];
    assert s[1..][1..][1..] == rest;
    assert RunStrict(net, s, t) == RunStrict(net, s[1..], t1);
    assert RunStrict(net, s[1..], t1) == RunStrict(net, s[1..][1..], t2);
  }

  /** The rule that decides: the first of `order` that applies, unless an unsound one comes before it. */
  function Decide(net: Net, rules: seq<NsgRule>, order: seq<nat>, p: Packet): (d: Option<nat>)
    requires Positions(rules, order)
    ensures d.Some? ==> d.value in order && d.value < |rules|
  {
    if order == [] then None
    else
      assert order == [order[0]] + order[1..];
      if !Sound(net, rules[order[0]]) then None
      else if Applies(net, rules[order[0]], p) then Some(order[0])
      else Decide(net, rules, order[1..], p)
  }

  function Verdict(r: NsgRule): Outcome { if ActionOf(r) == Accept then Accepted else Dropped }

  lemma ConditionMeansRule(net: Net, r: NsgRule, p: Packet)
    ensures Hits(net, Condition(r), p) <==> Applies(net, r, p)
    ensures WellFormed(net, Condition(r)) <==> Sound(net, r)
  {
  }

  /** Appending the lines after rules that do not hit leaves a chain that walks as `Decide` says. */
  lemma {:induction false} LinesDecide(net: Net, rules: seq<NsgRule>, order: seq<nat>, t: Tables, w: Tables, p: Packet,
      depth: nat)
    requires Positions(rules, order)
    requires CL_NSG in t && NoJumps(t[CL_NSG]) && !AnyHits(net, t[CL_NSG], p)
    ensures var after := RunStrict(net, RuleLines(rules, order), t);
            && after.Keys == t.Keys
            && (forall ch :: ch in t && ch != CL_NSG ==> after[ch] == t[ch])
            && var d := Decide(net, rules, order, p);
               Walk(net, w, after[CL_NSG], p, depth) == if d.Some? then Verdict(rules[d.value]) else Continue
    decreases |order|
  {
    var chain := t[CL_NSG];
    if order == [] {
      WalkConcat(net, w, chain, [], p, depth);
      assert chain + [] == chain;
    } else {
      assert order[0] in order;
      var r, lines, rest := rules[order[0]], RuleLines(rules, order), order[1..];
      assert lines[0] == LineOf(r);
      assert forall k :: 0 <= k < |rest| ==> rest[k] == order[k + 1];
      assert lines[1..] == RuleLines(rules, rest);
      ConditionMeansRule(net, r, p);
      var rule := Rule(Condition(r), ActionOf(r));
      if !Sound(net, r) {
        WalkConcat(net, w, chain, [], p, depth);
        assert chain + [] == chain;
        assert Exec(net, lines[0], t) == (t, false);
      } else {
        var t1 := t[CL_NSG := chain + [rule]];
        assert Exec(net, lines[0], t) == (t1, true);
        if Applies(net, r, p) {
          HitStays(net, RuleLines(rules, rest), t1, chain, rule, w, p, depth);
        } else {
          LinesDecide(net, rules, rest, t1, w, p, depth);
        }
      }
    }
  }

  /** Once a rule hits, later lines of the script no longer matter for the packet. */
  lemma {:induction false} HitStays(net: Net, lines: seq<Command>, t: Tables, quiet: seq<Rule>, hit: Rule,
                                    w: Tables, p: Packet, depth: nat)
    requires forall c :: c in lines ==> c.Append? && c.chain == CL_NSG
    requires NoJumps(quiet) && !AnyHits(net, quiet, p) && Hits(net, hit.cond, p) &&
            (hit.target == Accept || hit.target == Drop)
    requires CL_NSG in t && quiet + [hit] <= t[CL_NSG]
    ensures var after := RunStrict(net, lines, t);
            && after.Keys == t.Keys
            && (forall ch :: ch in t && ch != CL_NSG ==> after[ch] == t[ch])
            && Walk(net, w, after[CL_NSG], p, depth) == if hit.target == Accept then Accepted else Dropped
    decreases |lines|
  {
    if lines == [] || !Exec(net, lines[0], t).1 {
      assert lines != [] ==> lines[0] in lines;
      var rest := t[CL_NSG][|quiet| + 1..];
      assert t[CL_NSG] == quiet + ([hit] + rest);
      WalkConcat(net, w, quiet, [hit] + rest, p, depth);
    } else {
      assert lines[0] in lines;
      forall c | c in lines[1..] ensures c.Append? && c.chain == CL_NSG { assert c in lines; }
      HitStays(net, lines[1..], Exec(net, lines[0], t).0, quiet, hit, w, p, depth);
    }
  }

  predicate InstalledWithin(net: Net, rules: seq<NsgRule>, order: seq<nat>, i: nat)
    requires Positions(rules, order) && i < |rules|
  {
    i in order && forall j: nat :: j < |rules| && j in order && (j == i || Precedes(rules, j, i)) ==>
      Sound(net, rules[j])
  }

  lemma {:induction false} DecideFindsFirst(net: Net, rules: seq<NsgRule>, order: seq<nat>, p: Packet)
    requires InOrder(rules, order)
    ensures match Decide(net, rules, order, p)
            case None =>
              forall i: nat :: i < |rules| && InstalledWithin(net, rules, order, i) ==> !Applies(net, rules[i], p)
            case Some(i) =>
              && i < |rules| && InstalledWithin(net, rules, order, i) && Applies(net, rules[i], p)
              && forall j: nat :: j < |rules| && j != i && InstalledWithin(net, rules, order, j) ==>
                   Applies(net, rules[j], p) ==> Precedes(rules, i, j)
    decreases |order|
  {
    if order != [] {
      var h, rest := order[0], order[1..];
      assert order == [h] + rest;
      assert forall a :: 0 <= a < |rest| ==> rest[a] == order[a + 1];
      forall i | i in rest ensures Precedes(rules, h, i) {
        var k :| 0 <= k < |rest| && rest[k] == i;
        assert Precedes(rules, order[0], order[k + 1]);
      }
      if Sound(net, rules[h]) && !Applies(net, rules[h], p) {
        DecideFindsFirst(net, rules, rest, p);
        forall i: nat | i < |rules| && i != h
          ensures InstalledWithin(net, rules, order, i) <==> InstalledWithin(net, rules, rest, i)
        { }
      }
    }
  }

  /** The main theorem: after the script, the chain gives a packet the action of the winner,
      and falls through when no installed rule applies. */
  lemma {:induction false} ChainFollowsPriority(net: Net, rules: seq<NsgRule>, t: Tables, w: Tables, p: Packet,
      depth: nat)
    requires HasHooks(t)
    ensures var after := RunStrict(net, Script(rules), t);
            && CL_NSG in after
            && (forall i: nat :: i < |rules| && Winner(net, rules, p, i)
                  ==> Walk(net, w, after[CL_NSG], p, depth) == Verdict(rules[i]))
            && ((forall i: nat :: i < |rules| && Installed(net, rules, i) ==> !Applies(net, rules[i], p))
                  ==> Walk(net, w, after[CL_NSG], p, depth) == Continue)
  {
    var order := Order(rules, |rules|);
    OrderSorts(rules, |rules|);
    RunPreamble(net, RuleLines(rules, order), t);
    LinesDecide(net, rules, order, Prepared(t), w, p, depth);
    DecideFindsFirst(net, rules, order, p);
    forall i: nat | i < |rules| ensures Installed(net, rules, i) <==> InstalledWithin(net, rules, order, i) { }
  }

  /** A packet that some installed rule applies to has exactly one winner. */
  lemma {:induction false} WinnerExists(net: Net, rules: seq<NsgRule>, p: Packet, i: nat)
    requires i < |rules| && Installed(net, rules, i) && Applies(net, rules[i], p)
    ensures exists w: nat :: w < |rules| && Winner(net, rules, p, w)
  {
    var order := Order(rules, |rules|);
    OrderSorts(rules, |rules|);
    DecideFindsFirst(net, rules, order, p);
    forall j: nat | j < |rules| ensures Installed(net, rules, j) <==> InstalledWithin(net, rules, order, j) { }
    var d := Decide(net, rules, order, p);
    assert InstalledWithin(net, rules, order, i);
    assert Winner(net, rules, p, d.value);
  }

  /** Sound rules are all installed, so then the winner is the applying rule with the smallest
      priority number, the earliest among equals. */
  lemma {:induction false} SoundRulesAreInstalled(net: Net, rules: seq<NsgRule>)
    ensures (forall i: nat :: i < |rules| ==> Installed(net, rules, i)) <==> (forall r :: r in rules ==> Sound(net, r))
  {
    if forall i: nat :: i < |rules| ==> Installed(net, rules, i) {
      forall r | r in rules ensures Sound(net, r) {
        var i: nat :| i < |rules| && rules[i] == r;
        assert Installed(net, rules, i);
      }
    }
  }

  lemma {:induction false} LinesFrame(net: Net, rules: seq<NsgRule>, order: seq<nat>, t: Tables)
    requires Positions(rules, order)
    requires CL_NSG in t
    ensures var after := RunStrict(net, RuleLines(rules, order), t);
            after.Keys == t.Keys && forall ch :: ch in t && ch != CL_NSG ==> after[ch] == t[ch]
    decreases |order|
  {
    if order != [] {
      assert order[0] in order;
      var lines, rest := RuleLines(rules, order), order[1..];
      assert forall k :: 0 <= k < |rest| ==> rest[k] == order[k + 1];
      assert lines[1..] == RuleLines(rules, rest);
      LinesFrame(net, rules, rest, Exec(net, lines[0], t).0);
    }
  }

  // ----- Direction -----

  /** A hook without a jump to the chain gets one in front of its rules: the chain decides first, for incoming
      and outgoing packets alike, and the hook's own rules decide what it leaves open. */
  lemma {:induction false} HookConsultsChain(net: Net, rules: seq<NsgRule>, hook: Chain, t: Tables, p: Packet,
      depth: nat)
    requires HasHooks(t) && depth > 0 && (hook == INPUT || hook == OUTPUT) && HOOK !in t[hook]
    ensures var after := RunStrict(net, Script(rules), t);
            && HasHooks(after) && CL_NSG in after
            && var verdict := Walk(net, after, after[CL_NSG], p, depth - 1);
               Walk(net, after, after[hook], p, depth)
               == if verdict != Continue then verdict else Walk(net, after, t[hook], p, depth)
  {
    var order := Order(rules, |rules|);
    RunPreamble(net, RuleLines(rules, order), t);
    LinesFrame(net, rules, order, Prepared(t));
    var after := RunStrict(net, Script(rules), t);
    hide RunStrict, Script, Order, RuleLines;
    assert after[hook] == [HOOK] + t[hook] && ([HOOK] + t[hook])[1..] == t[hook];
    assert Hits(net, HOOK.cond, p);
  }

  /** So a rule's direction never keeps it off the other hook: a sound inbound deny rule drops an outgoing
      packet exactly when it applies to it, and an outbound one an incoming packet. What the rule leaves
      open, the hook's own rules decide. */
  lemma {:induction false} DirectionIsNotEnforced(net: Net, r: NsgRule, hook: Chain, t: Tables, p: Packet, depth: nat)
    requires HasHooks(t) && depth > 0 && Sound(net, r) && ActionOf(r) == Drop
    requires (Inbound(r) && hook == OUTPUT) || (Outbound(r) && hook == INPUT)
    requires HOOK !in t[hook]
    ensures var after := RunStrict(net, Script([r]), t);
            hook in after && Walk(net, after, after[hook], p, depth)
            == if Applies(net, r, p) then Dropped else Walk(net, after, t[hook], p, depth)
  {
    var rules := [r];
    HookConsultsChain(net, rules, hook, t, p, depth);
    ChainFollowsPriority(net, rules, t, RunStrict(net, Script(rules), t), p, depth - 1);
    hide RunStrict, Script, Walk, Applies, Sound, Inbound, Outbound;
    assert Installed(net, rules, 0);
    if Applies(net, r, p) {
      assert Winner(net, rules, p, 0);
    }
  }

  /** A rule with wildcards for address, protocol and port applies to every packet, of either direction. */
  lemma {:induction false} WildcardAppliesToAll(net: Net, r: NsgRule)
    ensures (forall net', p :: Applies(net', r, p)) <==>
            Protocol(r).None? && !ChecksSource(r) && !ChecksDestination(r) && !HasPorts(r)
  {
    hide HasPorts, ChecksSource, ChecksDestination, PortRange;
    var never := Net(_ => true, (_, _) => false, _ => true, (_, _) => false);
    var p := Packet(0, 0, OtherProto, 0, false, false, false);
    if Protocol(r).None? && (ChecksSource(r) || ChecksDestination(r) || HasPorts(r)) {
      assert !Applies(never, r, p);
    }
    if Protocol(r).Some? {
      assert Protocol(r).value != OtherProto;
      assert !Applies(net, r, p);
    }
  }

  // ----- Reprogramming and clearing -----

  /** Programming after any older programming, complete or cut short, equals programming once. */
  lemma {:induction false} ReprogrammingForgets(net: Net, older: seq<NsgRule>, rules: seq<NsgRule>, t: Tables)
    requires HasHooks(t)
    ensures RunStrict(net, Script(rules), RunStrict(net, Script(older), t)) == RunStrict(net, Script(rules), t)
  {
    var lines := RuleLines(older, Order(older, |older|));
    RunPreamble(net, lines, t);
    LinesFrame(net, older, Order(older, |older|), Prepared(t));
    var t1 := RunStrict(net, Script(older), t);
    PreparedAgain(t, t1);
    RunPreamble(net, RuleLines(rules, Order(rules, |rules|)), t1);
    RunPreamble(net, RuleLines(rules, Order(rules, |rules|)), t);
  }

  lemma PreparedAgain(t: Tables, t1: Tables)
    requires HasHooks(t) && t1.Keys == Prepared(t).Keys && forall ch :: ch in t1 && ch != CL_NSG ==>
            t1[ch] == Prepared(t)[ch]
    ensures Prepared(t1) == Prepared(t)
  {
    assert HOOK in Jumping(t[INPUT]) && HOOK in Jumping(t[OUTPUT]);
    forall ch | ch in t1 ensures Prepared(t1)[ch] == Prepared(t)[ch] { }
  }

  /** `clear_script`. */
  function ClearScript(): seq<Command> {
    [OrTrue(Delete(INPUT, HOOK)), OrTrue(Delete(OUTPUT, HOOK)), OrTrue(Flush(CL_NSG)), OrTrue(RemoveChain(CL_NSG))]
  }

  /** The tables after the first three commands. */
  function Unhooked(t: Tables): Tables
    requires HasHooks(t)
  {
    var t2 := t[INPUT := RemoveFirst(t[INPUT], HOOK)][OUTPUT := RemoveFirst(t[OUTPUT], HOOK)];
    if CL_NSG in t then t2[CL_NSG := []] else t2
  }

  lemma DeleteHook(net: Net, hook: Chain, t: Tables)
    requires hook in t
    ensures Exec(net, OrTrue(Delete(hook, HOOK)), t).0 == t[hook := RemoveFirst(t[hook], HOOK)]
  {
    RemoveAbsent(t[hook], HOOK);
    assert t == t[hook := t[hook]];
    assert Exec(net, Delete(hook, HOOK), t).0 == t[hook := RemoveFirst(t[hook], HOOK)];
  }

  /** Clearing removes the chain exactly when no jump to it is left, and otherwise leaves it empty. */
  lemma {:induction false} ClearRemovesChainIff(net: Net, t: Tables)
    requires HasHooks(t)
    ensures Run(net, ClearScript(), t)
         == if CL_NSG in t && !Referenced(Unhooked(t), CL_NSG) then Unhooked(t) - {CL_NSG} else Unhooked(t)
  {
    var s := ClearScript();
    DeleteHook(net, INPUT, t);
    var t1 := t[INPUT := RemoveFirst(t[INPUT], HOOK)];
    DeleteHook(net, OUTPUT, t1);
    var t2 := t1[OUTPUT := RemoveFirst(t1[OUTPUT], HOOK)];
    hide Referenced, RemoveFirst;
    assert Exec(net, Flush(CL_NSG), t2).0 == Unhooked(t);
    assert Exec(net, s[2], t2).0 == Unhooked(t);
    var t4 := Exec(net, RemoveChain(CL_NSG), Unhooked(t)).0;
    assert Exec(net, s[3], Unhooked(t)).0 == t4;
    assert s[1..][1..][1..][1..] == [];
    assert Run(net, s[1..][1..][1..], Unhooked(t)) == t4;
    assert Run(net, s[1..][1..], t2) == t4;
    assert Run(net, s[1..], t1) == t4;
  }

  /** Clearing undoes programming: with no jump of others to the chain, the tables are what they were,
      without the chain. */
  lemma {:induction false} ClearUndoesScript(net: Net, rules: seq<NsgRule>, t: Tables)
    requires HasHooks(t) && forall ch :: ch in t && ch != CL_NSG ==> forall r :: r in t[ch] ==> r.target != Jump(CL_NSG)
    ensures Run(net, ClearScript(), RunStrict(net, Script(rules), t)) == t - {CL_NSG}
  {
    var order := Order(rules, |rules|);
    RunPreamble(net, RuleLines(rules, order), t);
    LinesFrame(net, rules, order, Prepared(t));
    var t1 := RunStrict(net, Script(rules), t);
    hide RunStrict, Script, RuleLines, Order;
    assert HOOK !in t[INPUT] && HOOK !in t[OUTPUT];
    assert ([HOOK] + t[INPUT])[1..] == t[INPUT] && ([HOOK] + t[OUTPUT])[1..] == t[OUTPUT];
    assert RemoveFirst(t1[INPUT], HOOK) == t[INPUT] && RemoveFirst(t1[OUTPUT], HOOK) == t[OUTPUT];
    assert Unhooked(t1) == t[CL_NSG := []];
    assert !Referenced(Unhooked(t1), CL_NSG);
    ClearRemovesChainIff(net, t1);
  }
}
