/**
 The part of the Linux packet filter that the two firewall compilers program:
 chains of rules, the iptables commands that change them, and the first-match walk
 a packet takes through them.

 Address ranges and port ranges stay the texts that the compilers copy into a
 command. A `Net` says what the kernel makes of such a text, and nothing is assumed
 about it, so every theorem holds for any reading of the texts.
 */
module Iptables {
  import opened Common

  /** The built-in hooks, the chains of the two compilers, and any others. */
  datatype Chain = INPUT | OUTPUT | CL_FW | CL_FW_EGRESS | CL_NSG | Other(name: string)

  datatype Proto = Tcp | Udp | Icmp | OtherProto

  datatype Packet = Packet(src: nat, dst: nat, proto: Proto, dport: nat,
                           inLoopback: bool, outLoopback: bool, established: bool)

  /** The kernel's reading of texts: which are well formed and what they contain. */
  datatype Net = Net(okRange: string -> bool, inRange: (string, nat) -> bool,
                     okPorts: string -> bool, inPorts: (string, nat) -> bool)

  /** The conditions of a rule: `-i lo`, `-o lo`, `--state ESTABLISHED,RELATED`, `-s`,
      `-d`, `-p` and `--dport`. */
  datatype Match = Match(inLoopback: bool, outLoopback: bool, established: bool,
                         src: Option<string>, dst: Option<string>,
                         proto: Option<Proto>, dport: Option<string>)

  const ANY := Match(false, false, false, None, None, None, None)

  datatype Target = Accept | Drop | Return | Jump(chain: Chain)

  datatype Rule = Rule(cond: Match, target: Target)

  type Tables = map<Chain, seq<Rule>>

  predicate Hits(net: Net, m: Match, p: Packet) {
    && (m.inLoopback ==> p.inLoopback)
    && (m.outLoopback ==> p.outLoopback)
    && (m.established ==> p.established)
    && (m.src.Some? ==> net.inRange(m.src.value, p.src))
    && (m.dst.Some? ==> net.inRange(m.dst.value, p.dst))
    && (m.proto.Some? ==> p.proto == m.proto.value)
    && (m.dport.Some? ==> net.inPorts(m.dport.value, p.dport))
  }

  /** The texts of a rule are ones that iptables takes. */
  predicate WellFormed(net: Net, m: Match) {
    && (m.src.Some? ==> net.okRange(m.src.value))
    && (m.dst.Some? ==> net.okRange(m.dst.value))
    && (m.dport.Some? ==> net.okPorts(m.dport.value))
  }

  // ----- Walking a packet through the chains -----

  datatype Outcome = Accepted | Dropped | Continue

  /** `depth` bounds the jumps still allowed, as the kernel's jump stack does. */
  function Walk(net: Net, t: Tables, rules: seq<Rule>, p: Packet, depth: nat): Outcome
    decreases depth, |rules|
  {
    if rules == [] then Continue
    else if !Hits(net, rules[0].cond, p) then Walk(net, t, rules[1..], p, depth)
    else
      match rules[0].target
      case Accept => Accepted
      case Drop => Dropped
      case Return => Continue
      case Jump(c) =>
        var o := if c in t && depth > 0 then Walk(net, t, t[c], p, depth - 1) else Continue;
        if o == Continue then Walk(net, t, rules[1..], p, depth) else o
  }

  /** The verdict of a built-in chain whose policy is ACCEPT. */
  predicate Passes(net: Net, t: Tables, hook: Chain, p: Packet, depth: nat)
    requires hook in t
  {
    Walk(net, t, t[hook], p, depth) != Dropped
  }

  // ----- Commands -----

  datatype Command =
    | NewChain(chain: Chain)
    | Flush(chain: Chain)
    | RemoveChain(chain: Chain)
    | Append(chain: Chain, rule: Rule)
    | Insert(chain: Chain, rule: Rule)
    | Check(chain: Chain, rule: Rule)
    | Delete(chain: Chain, rule: Rule)
    | OrElse(first: Command, second: Command)
    | OrTrue(first: Command)

  predicate Takes(net: Net, t: Tables, r: Rule) {
    WellFormed(net, r.cond) && (r.target.Jump? ==> r.target.chain in t)
  }

  predicate Referenced(t: Tables, chain: Chain) {
    exists c | c in t :: exists r | r in t[c] :: r.target == Jump(chain)
  }

  function RemoveFirst(rules: seq<Rule>, r: Rule): seq<Rule> {
    if rules == [] then []
    else if rules[0] == r then rules[1..]
    else [rules[0]] + RemoveFirst(rules[1..], r)
  }

  /** The tables after a command, and whether its exit status is success. */
  function Exec(net: Net, c: Command, t: Tables): (Tables, bool) {
    match c
    case NewChain(ch) => if ch in t then (t, false) else (t[ch := []], true)
    case Flush(ch) => if ch in t then (t[ch := []], true) else (t, false)
    case RemoveChain(ch) =>
      if ch in t && t[ch] == [] && !Referenced(t, ch) then (t - {ch}, true) else (t, false)
    case Append(ch, r) => if ch in t && Takes(net, t, r) then (t[ch := t[ch] + [r]], true) else (t, false)
    case Insert(ch, r) => if ch in t && Takes(net, t, r) then (t[ch := [r] + t[ch]], true) else (t, false)
    case Check(ch, r) => (t, ch in t && r in t[ch])
    case Delete(ch, r) => if ch in t && r in t[ch] then (t[ch := RemoveFirst(t[ch], r)], true) else (t, false)
    case OrElse(a, b) =>
      var (t1, ok) := Exec(net, a, t);
      if ok then (t1, true) else Exec(net, b, t1)
    case OrTrue(a) => (Exec(net, a, t).0, true)
  }

  /** A script whose commands are joined with `;`: a failing command is passed over. */
  function Run(net: Net, script: seq<Command>, t: Tables): Tables {
    if script == [] then t else Run(net, script[1..], Exec(net, script[0], t).0)
  }

  /** A script under `set -e`: the first failing command ends it. */
  function RunStrict(net: Net, script: seq<Command>, t: Tables): Tables {
    if script == [] then t
    else
      var (t1, ok) := Exec(net, script[0], t);
      if ok then RunStrict(net, script[1..], t1) else t1
  }

  lemma {:induction false} RunConcat(net: Net, a: seq<Command>, b: seq<Command>, t: Tables)
    ensures Run(net, a + b, t) == Run(net, b, Run(net, a, t))
    decreases |a|
  {
    if a == [] {
      assert a + b == b;
    } else {
      assert (a + b)[1..] == a[1..] + b;
      RunConcat(net, a[1..], b, Exec(net, a[0], t).0);
    }
  }

  /** The rules that a list of append commands adds to one chain: those iptables takes, in order. */
  function ChainRules(net: Net, chain: Chain, lines: seq<Command>): seq<Rule> {
    if lines == [] then []
    else
      var rest := ChainRules(net, chain, lines[1..]);
      if lines[0].Append? && lines[0].chain == chain && WellFormed(net, lines[0].rule.cond)
      then [lines[0].rule] + rest
      else rest
  }

  predicate PlainLine(c: Command) { c.Append? && !c.rule.target.Jump? }

  lemma {:induction false} RunAppends(net: Net, lines: seq<Command>, t: Tables)
    requires forall c :: c in lines ==> PlainLine(c) && c.chain in t
    ensures Run(net, lines, t) == map ch | ch in t :: t[ch] + ChainRules(net, ch, lines)
    decreases |lines|
  {
    if lines == [] {
      forall ch | ch in t ensures t[ch] == t[ch] + ChainRules(net, ch, lines) { }
      assert t == map ch | ch in t :: t[ch] + ChainRules(net, ch, lines);
    } else {
      var c, rest := lines[0], lines[1..];
      assert PlainLine(c) && c.chain in t;
      var t1 := Exec(net, c, t).0;
      assert t1 == if WellFormed(net, c.rule.cond) then t[c.chain := t[c.chain] + [c.rule]] else t;
      forall d | d in rest ensures PlainLine(d) && d.chain in t1 { assert d in lines; }
      RunAppends(net, rest, t1);
      forall ch | ch in t
        ensures t1[ch] + ChainRules(net, ch, rest) == t[ch] + ChainRules(net, ch, lines)
      {
        if ch == c.chain && WellFormed(net, c.rule.cond) {
          assert t1[ch] + ChainRules(net, ch, rest) == t[ch] + ([c.rule] + ChainRules(net, ch, rest));
        }
      }
    }
  }

  lemma {:induction false} ChainRulesMember(net: Net, chain: Chain, lines: seq<Command>, r: Rule)
    ensures r in ChainRules(net, chain, lines) <==> Append(chain, r) in lines && WellFormed(net, r.cond)
    decreases |lines|
  {
    if lines != [] {
      assert lines == [lines[0]] + lines[1..];
      ChainRulesMember(net, chain, lines[1..], r);
    }
  }

  lemma {:induction false} ChainRulesConcat(net: Net, chain: Chain, a: seq<Command>, b: seq<Command>)
    ensures ChainRules(net, chain, a + b) == ChainRules(net, chain, a) + ChainRules(net, chain, b)
    decreases |a|
  {
    if a == [] {
      assert a + b == b;
    } else {
      assert (a + b)[1..] == a[1..] + b;
      ChainRulesConcat(net, chain, a[1..], b);
    }
  }

  /** `iptables -C hook -j chain || iptables -I hook -j chain` makes sure that the hook holds the jump. */
  lemma EnsureHook(net: Net, hook: Chain, jump: Rule, t: Tables)
    requires hook in t && Takes(net, t, jump)
    ensures Exec(net, OrElse(Check(hook, jump), Insert(hook, jump)), t)
         == (if jump in t[hook] then t else t[hook := [jump] + t[hook]], true)
  {
    assert Exec(net, Check(hook, jump), t) == (t, jump in t[hook]);
    assert Exec(net, Insert(hook, jump), t) == (t[hook := [jump] + t[hook]], true);
  }

  lemma {:induction false} RemoveAbsent(rules: seq<Rule>, r: Rule)
    ensures r !in rules ==> RemoveFirst(rules, r) == rules
  {
    if rules != [] {
      assert rules == [rules[0]] + rules[1..];
      RemoveAbsent(rules[1..], r);
    }
  }

  // ----- First-match evaluation of a chain without jumps -----

  predicate NoJumps(rules: seq<Rule>) { forall r :: r in rules ==> !r.target.Jump? }

  predicate AnyHits(net: Net, rules: seq<Rule>, p: Packet) {
    exists r :: r in rules && Hits(net, r.cond, p)
  }

  lemma {:induction false} WalkConcat(net: Net, t: Tables, a: seq<Rule>, b: seq<Rule>, p: Packet, depth: nat)
    requires NoJumps(a)
    ensures Walk(net, t, a + b, p, depth)
         == if AnyHits(net, a, p) then Walk(net, t, a, p, depth) else Walk(net, t, b, p, depth)
    decreases |a|
  {
    if a == [] {
      assert a + b == b;
    } else {
      assert (a + b)[1..] == a[1..] + b;
      assert a == [a[0]] + a[1..];
      WalkConcat(net, t, a[1..], b, p, depth);
    }
  }

  /** When all rules have one target, a walk takes it as soon as any rule hits. */
  lemma {:induction false} WalkUniform(net: Net, t: Tables, rules: seq<Rule>, target: Target, p: Packet, depth: nat)
    requires forall r :: r in rules ==> r.target == target
    requires !target.Jump?
    ensures Walk(net, t, rules, p, depth)
         == if !AnyHits(net, rules, p) then Continue
            else match target case Accept => Accepted case Drop => Dropped case _ => Continue
    decreases |rules|
  {
    if rules != [] {
      assert rules == [rules[0]] + rules[1..];
      WalkUniform(net, t, rules[1..], target, p, depth);
    }
  }
}
