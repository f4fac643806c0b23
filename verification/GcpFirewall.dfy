/**
 The GCP firewall compiler (core/gcp_vpc_enforce.py): rules with allowed and denied
 entries become an iptables script for the chains CL_FW and CL_FW_EGRESS.
 */
module GcpFirewall {
  import opened Common
  import opened Text
  import opened Iptables

  /** A JSON member that should be a list of texts: absent, some other value, or a list. */
  datatype Texts = Absent | Scalar(text: string) | Listed(items: seq<string>)

  datatype FwEntry = NotAnEntry | Entry(ipProtocol: string, protocol: string, ports: Texts)

  datatype FwRule =
    | NotARule
    | FwRule(disabled: bool, direction: string, sourceRanges: Texts, destinationRanges: Texts,
             allowed: seq<FwEntry>, denied: seq<FwEntry>)

  datatype Direction = Ingress | Egress

  const EVERYWHERE := "0.0.0.0/0"

  function ChainOf(dir: Direction): Chain { if dir.Ingress? then CL_FW else CL_FW_EGRESS }

  function HookOf(dir: Direction): Chain { if dir.Ingress? then INPUT else OUTPUT }

  // ----- Reading a rule -----

  /** A port text as iptables wants it, or nothing for a blank one. */
  function PortText(p: string): seq<string> {
    var q := ReplaceChar(Strip(p), '-', ':');
    if q != "" then [q] else []
  }

  function PortItems(ports: Texts): seq<string> {
    match ports case Absent => [] case Scalar(p) => [p] case Listed(ps) => ps
  }

  function PortTexts(ports: Texts): seq<string> { FlatMap(PortText, PortItems(ports)) }

  /** Anything but a non-empty list of ranges stands for the whole address space. */
  function Ranges(ranges: Texts): seq<string> {
    if ranges.Listed? && ranges.items != [] then ranges.items else [EVERYWHERE]
  }

  function RuleRanges(r: FwRule, dir: Direction): seq<string>
    requires r.FwRule?
  {
    Ranges(if dir.Ingress? then r.sourceRanges else r.destinationRanges)
  }

  function RuleDirection(r: FwRule): Option<Direction>
    requires r.FwRule?
  {
    var d := ToUpper(OrDefault(r.direction, "INGRESS"));
    if d == "EGRESS" then Some(Egress) else if d == "INGRESS" then Some(Ingress) else None
  }

  function ProtocolText(e: FwEntry): string
    requires e.Entry?
  {
    ToLower(OrDefault(e.ipProtocol, OrDefault(e.protocol, "all")))
  }

  datatype Kind = Transport(proto: Proto) | Ping | Anything

  function KindOf(e: FwEntry): Kind
    requires e.Entry?
  {
    var proto := ProtocolText(e);
    if proto == "tcp" then Transport(Tcp)
    else if proto == "udp" then Transport(Udp)
    else if proto == "icmp" || proto == "1" then Ping
    else Anything
  }

  function RuleEntries(r: FwRule, deny: bool): seq<FwEntry>
    requires r.FwRule?
  {
    if deny then r.denied else r.allowed
  }

  function Action(deny: bool): Target { if deny then Drop else Return }

  // ----- What an entry means, read off the translation -----

  predicate PortCovers(net: Net, ports: seq<string>, p: Packet) {
    ports == [] || exists q | q in ports :: net.okPorts(q) && net.inPorts(q, p.dport)
  }

  /** A transport entry asks for its protocol and one of its ports; ping for ICMP; anything else for nothing. */
  predicate ProtocolCovers(net: Net, e: FwEntry, p: Packet)
    requires e.Entry?
  {
    match KindOf(e)
    case Transport(proto) => p.proto == proto && PortCovers(net, PortTexts(e.ports), p)
    case Ping => p.proto == Icmp
    case Anything => true
  }

  predicate RangeCovers(net: Net, ranges: seq<string>, address: nat) {
    exists a | a in ranges :: net.okRange(a) && net.inRange(a, address)
  }

  predicate EntryMatches(net: Net, r: FwRule, e: FwEntry, dir: Direction, p: Packet)
    requires r.FwRule?
  {
    && e.Entry?
    && RangeCovers(net, RuleRanges(r, dir), if dir.Ingress? then p.src else p.dst)
    && ProtocolCovers(net, e, p)
  }

  /** Rule `r` is enabled, has direction `dir`, and one of its allowed (or denied) entries matches. */
  predicate RuleMatches(net: Net, r: FwRule, deny: bool, dir: Direction, p: Packet) {
    && r.FwRule? && !r.disabled && RuleDirection(r) == Some(dir)
    && exists e | e in RuleEntries(r, deny) :: EntryMatches(net, r, e, dir, p)
  }

  predicate SomeMatch(net: Net, rules: seq<FwRule>, deny: bool, dir: Direction, p: Packet) {
    exists r | r in rules :: RuleMatches(net, r, deny, dir, p)
  }

  // ----- The lines of a rule list -----

  function Line(dir: Direction, deny: bool, address: string, proto: Option<Proto>, port: Option<string>): Command {
    var src := if dir.Ingress? then Some(address) else None;
    var dst := if dir.Ingress? then None else Some(address);
    Append(ChainOf(dir), Rule(Match(false, false, false, src, dst, proto, port), Action(deny)))
  }

  function PortLine(dir: Direction, deny: bool, address: string, proto: Proto): string -> seq<Command> {
    port => [Line(dir, deny, address, Some(proto), Some(port))]
  }

  function AddressLines(dir: Direction, deny: bool, e: FwEntry): string -> seq<Command>
    requires e.Entry?
  {
    var ports := PortTexts(e.ports);
    address =>
      match KindOf(e)
      case Transport(proto) =>
        if ports != [] then FlatMap(PortLine(dir, deny, address, proto), ports)
        else [Line(dir, deny, address, Some(proto), None)]
      case Ping => [Line(dir, deny, address, Some(Icmp), None)]
      case Anything => [Line(dir, deny, address, None, None)]
  }

  function EntryLines(dir: Direction, deny: bool, ranges: seq<string>): FwEntry -> seq<Command> {
    (e: FwEntry) => if e.Entry? then FlatMap(AddressLines(dir, deny, e), ranges) else []
  }

  function RuleLinesOf(deny: bool): FwRule -> seq<Command> {
    (r: FwRule) =>
      if !r.FwRule? || r.disabled then []
      else match RuleDirection(r)
           case None => []
           case Some(dir) => FlatMap(EntryLines(dir, deny, RuleRanges(r, dir)), RuleEntries(r, deny))
  }

  function Lines(rules: seq<FwRule>, deny: bool): seq<Command> { FlatMap(RuleLinesOf(deny), rules) }

  /** Keeps the first of equal lines and those not in `seen`. */
  function Dedup(lines: seq<Command>, seen: set<Command>): seq<Command> {
    if lines == [] then []
    else if lines[0] in seen then Dedup(lines[1..], seen)
    else [lines[0]] + Dedup(lines[1..], seen + {lines[0]})
  }

  /** The lines of the rules, allowed ones first, without repetitions. */
  function Body(rules: seq<FwRule>): seq<Command> { Dedup(Lines(rules, false) + Lines(rules, true), {}) }

  function Hook(dir: Direction): Rule { Rule(ANY, Jump(ChainOf(dir))) }

  function LoopbackRule(dir: Direction): Rule {
    Rule(ANY.(inLoopback := dir.Ingress?, outLoopback := dir.Egress?), Return)
  }

  const ESTABLISHED_RULE := Rule(ANY.(established := true), Return)

  function Prepare(dir: Direction): seq<Command> {
    [ OrTrue(NewChain(ChainOf(dir))),
      Flush(ChainOf(dir)),
      OrElse(Check(HookOf(dir), Hook(dir)), Insert(HookOf(dir), Hook(dir))) ]
  }

  function Preamble(dir: Direction): seq<Command> {
    Prepare(dir) + [Append(ChainOf(dir), LoopbackRule(dir)), Append(ChainOf(dir), ESTABLISHED_RULE)]
  }

  function Script(rules: seq<FwRule>): seq<Command> {
    Preamble(Ingress) + Preamble(Egress) + Body(rules)
  }

  function Clear(dir: Direction): seq<Command> {
    [OrTrue(Delete(HookOf(dir), Hook(dir))), OrTrue(Flush(ChainOf(dir)))]
  }

  function ClearScript(): seq<Command> { Clear(Ingress) + Clear(Egress) }

  // ----- The compiler -----

  method NormPorts(ports: Texts) returns (out: seq<string>)
    ensures out == PortTexts(ports)
  {
    out := [];
    var items := PortItems(ports);
    for i := 0 to |items|
      invariant out == FlatMap(PortText, items[..i])
    {
      var p := ReplaceChar(Strip(items[i]), '-', ':');
      if p != "" {
        out := out + [p];
      }
      FlatMapStep(PortText, items, i);
    }
    assert items[..|items|] == items;
  }

  method EmitPorts(dir: Direction, deny: bool, address: string, proto: Proto, ports: seq<string>)
    returns (bucket: seq<Command>)
    ensures bucket == FlatMap(PortLine(dir, deny, address, proto), ports)
  {
    bucket := [];
    ghost var byPort := PortLine(dir, deny, address, proto);
    for j := 0 to |ports|
      invariant bucket == FlatMap(byPort, ports[..j])
    {
      bucket := bucket + [Line(dir, deny, address, Some(proto), Some(ports[j]))];
      FlatMapStep(byPort, ports, j);
    }
    assert ports[..|ports|] == ports;
  }

  /** The lines of one entry, over all its ranges and ports. */
  method EmitEntry(dir: Direction, deny: bool, ranges: seq<string>, e: FwEntry) returns (bucket: seq<Command>)
    ensures bucket == EntryLines(dir, deny, ranges)(e)
  {
    bucket := [];
    if e.NotAnEntry? {
      return;
    }
    var kind := KindOf(e);
    var ports := NormPorts(e.ports);
    ghost var byAddress := AddressLines(dir, deny, e);
    for i := 0 to |ranges|
      invariant bucket == FlatMap(byAddress, ranges[..i])
    {
      if kind.Transport? && ports != [] {
        var lines := EmitPorts(dir, deny, ranges[i], kind.proto, ports);
        bucket := bucket + lines;
      } else if kind.Transport? {
        bucket := bucket + [Line(dir, deny, ranges[i], Some(kind.proto), None)];
      } else if kind.Ping? {
        bucket := bucket + [Line(dir, deny, ranges[i], Some(Icmp), None)];
      } else {
        bucket := bucket + [Line(dir, deny, ranges[i], None, None)];
      }
      FlatMapStep(byAddress, ranges, i);
    }
    assert ranges[..|ranges|] == ranges;
  }

  method EmitEntries(dir: Direction, deny: bool, r: FwRule) returns (bucket: seq<Command>)
    requires r.FwRule?
    ensures bucket == FlatMap(EntryLines(dir, deny, RuleRanges(r, dir)), RuleEntries(r, deny))
  {
    bucket := [];
    var entries, ranges := RuleEntries(r, deny), RuleRanges(r, dir);
    ghost var byEntry := EntryLines(dir, deny, ranges);
    for i := 0 to |entries|
      invariant bucket == FlatMap(byEntry, entries[..i])
    {
      var lines := EmitEntry(dir, deny, ranges, entries[i]);
      bucket := bucket + lines;
      FlatMapStep(byEntry, entries, i);
    }
    assert entries[..|entries|] == entries;
  }

  method RuleLines(rules: seq<FwRule>) returns (allowLines: seq<Command>, denyLines: seq<Command>)
    ensures allowLines == Lines(rules, false) && denyLines == Lines(rules, true)
  {
    allowLines, denyLines := [], [];
    for i := 0 to |rules|
      invariant allowLines == Lines(rules[..i], false) && denyLines == Lines(rules[..i], true)
    {
      var rule := rules[i];
      FlatMapStep(RuleLinesOf(false), rules, i);
      FlatMapStep(RuleLinesOf(true), rules, i);
      if rule.NotARule? || rule.disabled {
        continue;
      }
      var direction := RuleDirection(rule);
      if direction.Some? {
        var allow := EmitEntries(direction.value, false, rule);
        var deny := EmitEntries(direction.value, true, rule);
        allowLines, denyLines := allowLines + allow, denyLines + deny;
      }
    }
    assert rules[..|rules|] == rules;
  }

  /** The loop that skips the lines already seen. */
  method EmitOnce(head: seq<Command>, all: seq<Command>) returns (lines: seq<Command>)
    ensures lines == head + Dedup(all, {})
  {
    lines := head;
    var seen: set<Command> := {};
    ghost var goal := head + Dedup(all, {});
    assert all[0..] == all;
    for i := 0 to |all|
      invariant lines + Dedup(all[i..], seen) == goal
    {
      ghost var rest, c := all[i..], all[i];
      assert rest[0] == c && rest[1..] == all[i + 1..];
      if all[i] !in seen {
        ghost var kept := Dedup(rest[1..], seen + {c});
        assert lines + ([c] + kept) == (lines + [c]) + kept;
        seen := seen + {all[i]};
        lines := lines + [all[i]];
      }
    }
    assert all[|all|..] == [];
  }

  method BuildScript(rules: seq<FwRule>) returns (lines: seq<Command>)
    ensures lines == Script(rules)
  {
    var allowLines, denyLines := RuleLines(rules);
    lines := EmitOnce(Preamble(Ingress) + Preamble(Egress), allowLines + denyLines);
  }

  // ----- The tables after a run -----

  /** What the compiled chain holds. */
  function Compiled(net: Net, rules: seq<FwRule>, dir: Direction): seq<Rule> {
    [LoopbackRule(dir), ESTABLISHED_RULE]
    + ChainRules(net, ChainOf(dir), Body(rules))
  }

  function Hooked(rules: seq<Rule>, dir: Direction): seq<Rule> {
    if Hook(dir) in rules then rules else [Hook(dir)] + rules
  }

  predicate HasHooks(t: Tables) { INPUT in t && OUTPUT in t }

  /** `t` with new contents for the chain and the hook of one direction. */
  function Reset(t: Tables, dir: Direction, chain: seq<Rule>, hook: seq<Rule>): Tables {
    t[ChainOf(dir) := chain][HookOf(dir) := hook]
  }

  /** The tables that programming `rules` should lead to. */
  function Programmed(net: Net, rules: seq<FwRule>, t: Tables): Tables
    requires HasHooks(t)
  {
    Reset(Reset(t, Ingress, Compiled(net, rules, Ingress), Hooked(t[INPUT], Ingress)),
          Egress, Compiled(net, rules, Egress), Hooked(t[OUTPUT], Egress))
  }

  /** `Programmed` chain by chain. */
  lemma ProgrammedChains(net: Net, rules: seq<FwRule>, t: Tables, dir: Direction)
    requires HasHooks(t)
    ensures var after := Programmed(net, rules, t);
            && after.Keys == t.Keys + {CL_FW, CL_FW_EGRESS}
            && after[ChainOf(dir)] == Compiled(net, rules, dir)
            && after[HookOf(dir)] == Hooked(t[HookOf(dir)], dir)
  {
  }

  lemma RunPrepare(net: Net, dir: Direction, t: Tables)
    requires HasHooks(t)
    ensures Run(net, Prepare(dir), t) == Reset(t, dir, [], Hooked(t[HookOf(dir)], dir))
  {
    var s, ch, hook := Prepare(dir), ChainOf(dir), HookOf(dir);
    assert Exec(net, NewChain(ch), t).0 == if ch in t then t else t[ch := []];
    var t1 := Exec(net, s[0], t).0;
    var t2 := Exec(net, s[1], t1).0;
    assert t2 == t1[ch := []] == t[ch := []];
    EnsureHook(net, hook, Hook(dir), t2);
    var t3 := Exec(net, s[2], t2).0;
    assert t3 == t2[hook := Hooked(t[hook], dir)];
    assert s[1..][1..][1..] == [];
    assert Run(net, s[1..][1..], t2) == t3;
    assert Run(net, s[1..], t1) == t3;
  }

  lemma RunPreamble(net: Net, dir: Direction, t: Tables)
    requires HasHooks(t)
    ensures Run(net, Preamble(dir), t)
         == Reset(t, dir, [LoopbackRule(dir), ESTABLISHED_RULE], Hooked(t[HookOf(dir)], dir))
  {
    var lines := [Append(ChainOf(dir), LoopbackRule(dir)), Append(ChainOf(dir), ESTABLISHED_RULE)];
    RunConcat(net, Prepare(dir), lines, t);
    RunPrepare(net, dir, t);
    var t1 := Run(net, Prepare(dir), t);
    RunAppends(net, lines, t1);
    assert lines[1..][1..] == [];
    assert ChainRules(net, ChainOf(dir), lines[1..]) == [ESTABLISHED_RULE];
    assert ChainRules(net, ChainOf(dir), lines) == [LoopbackRule(dir), ESTABLISHED_RULE];
    forall ch | ch in t1 && ch != ChainOf(dir) ensures t1[ch] + ChainRules(net, ch, lines) == t1[ch] {
      assert ChainRules(net, ch, lines[1..]) == [];
      assert ChainRules(net, ch, lines) == [];
    }
    var goal := Reset(t, dir, [LoopbackRule(dir), ESTABLISHED_RULE], Hooked(t[HookOf(dir)], dir));
    forall ch | ch in t1 ensures t1[ch] + ChainRules(net, ch, lines) == goal[ch] { }
    assert Run(net, lines, t1) == goal;
  }

  lemma {:induction false} DedupMember(lines: seq<Command>, seen: set<Command>, c: Command)
    ensures c in Dedup(lines, seen) <==> c in lines && c !in seen
    decreases |lines|
  {
    if lines != [] {
      assert lines == [lines[0]] + lines[1..];
      DedupMember(lines[1..], if lines[0] in seen then seen else seen + {lines[0]}, c);
    }
  }

  lemma AddressLinesMember(dir: Direction, deny: bool, e: FwEntry, address: string, c: Command)
    requires e.Entry?
    ensures c in AddressLines(dir, deny, e)(address) <==>
            match KindOf(e)
            case Transport(proto) =>
              if PortTexts(e.ports) != []
              then exists q | q in PortTexts(e.ports) :: c == Line(dir, deny, address, Some(proto), Some(q))
              else c == Line(dir, deny, address, Some(proto), None)
            case Ping => c == Line(dir, deny, address, Some(Icmp), None)
            case Anything => c == Line(dir, deny, address, None, None)
  {
    hide KindOf, PortTexts, Line;
    if KindOf(e).Transport? {
      FlatMapMember(PortLine(dir, deny, address, KindOf(e).proto), PortTexts(e.ports), c);
    }
  }

  predicate LineOrigin(rules: seq<FwRule>, deny: bool, c: Command, r: FwRule, e: FwEntry, a: string) {
    && r in rules && r.FwRule? && !r.disabled && RuleDirection(r).Some?
    && e in RuleEntries(r, deny) && e.Entry?
    && a in RuleRanges(r, RuleDirection(r).value)
    && c in AddressLines(RuleDirection(r).value, deny, e)(a)
  }

  lemma EntryLinesMember(r: FwRule, deny: bool, dir: Direction, c: Command)
    requires r.FwRule?
    ensures c in FlatMap(EntryLines(dir, deny, RuleRanges(r, dir)), RuleEntries(r, deny)) <==>
            exists e, a :: e in RuleEntries(r, deny) && e.Entry? && a in RuleRanges(r, dir) &&
              c in AddressLines(dir, deny, e)(a)
  {
    var byEntry, entries, ranges := EntryLines(dir, deny, RuleRanges(r, dir)), RuleEntries(r, deny), RuleRanges(r, dir);
    FlatMapMember(byEntry, entries, c);
    forall e | e in entries && e.Entry?
      ensures c in byEntry(e) <==> exists a :: a in ranges && c in AddressLines(dir, deny, e)(a)
    {
      FlatMapMember(AddressLines(dir, deny, e), ranges, c);
    }
  }

  /** Every line of a rule list comes from an entry of an enabled rule of some direction, at one of its ranges. */
  lemma {:induction false} LinesMember(rules: seq<FwRule>, deny: bool, c: Command)
    ensures c in Lines(rules, deny) <==> exists r, e, a :: LineOrigin(rules, deny, c, r, e, a)
  {
    FlatMapMember(RuleLinesOf(deny), rules, c);
    if c in Lines(rules, deny) {
      var i :| 0 <= i < |rules| && c in RuleLinesOf(deny)(rules[i]);
      var r := rules[i];
      EntryLinesMember(r, deny, RuleDirection(r).value, c);
      var e, a :| e in RuleEntries(r, deny) && e.Entry? && a in RuleRanges(r, RuleDirection(r).value)
               && c in AddressLines(RuleDirection(r).value, deny, e)(a);
      assert LineOrigin(rules, deny, c, r, e, a);
    }
    if r, e, a :| LineOrigin(rules, deny, c, r, e, a) {
      EntryLinesMember(r, deny, RuleDirection(r).value, c);
      assert c in RuleLinesOf(deny)(r);
    }
  }

  lemma LinesArePlain(rules: seq<FwRule>, deny: bool)
    ensures forall c :: c in Lines(rules, deny) ==>
              PlainLine(c) && c.chain in {CL_FW, CL_FW_EGRESS} && c.rule.target == Action(deny)
  {
    forall c | c in Lines(rules, deny)
      ensures PlainLine(c) && c.chain in {CL_FW, CL_FW_EGRESS} && c.rule.target == Action(deny)
    {
      LinesMember(rules, deny, c);
      var r, e, a :| LineOrigin(rules, deny, c, r, e, a);
      AddressLinesMember(RuleDirection(r).value, deny, e, a, c);
    }
  }

  lemma BodyIsPlain(rules: seq<FwRule>)
    ensures forall c :: c in Body(rules) ==> PlainLine(c) && c.chain in {CL_FW, CL_FW_EGRESS}
  {
    LinesArePlain(rules, false);
    LinesArePlain(rules, true);
    forall c | c in Body(rules) ensures PlainLine(c) && c.chain in {CL_FW, CL_FW_EGRESS} {
      DedupMember(Lines(rules, false) + Lines(rules, true), {}, c);
    }
  }

  lemma NoLinesElsewhere(net: Net, rules: seq<FwRule>, ch: Chain)
    requires ch !in {CL_FW, CL_FW_EGRESS}
    ensures ChainRules(net, ch, Body(rules)) == []
  {
    BodyIsPlain(rules);
    var kept := ChainRules(net, ch, Body(rules));
    if kept != [] {
      ChainRulesMember(net, ch, Body(rules), kept[0]);
    }
  }

  lemma RunBody(net: Net, rules: seq<FwRule>, t: Tables)
    requires CL_FW in t && CL_FW_EGRESS in t
    ensures Run(net, Body(rules), t)
         == t[CL_FW := t[CL_FW] + ChainRules(net, CL_FW, Body(rules))]
             [CL_FW_EGRESS := t[CL_FW_EGRESS] + ChainRules(net, CL_FW_EGRESS, Body(rules))]
  {
    BodyIsPlain(rules);
    var lines := Body(rules);
    RunAppends(net, lines, t);
    var goal := t[CL_FW := t[CL_FW] + ChainRules(net, CL_FW, lines)]
                 [CL_FW_EGRESS := t[CL_FW_EGRESS] + ChainRules(net, CL_FW_EGRESS, lines)];
    forall ch | ch in t ensures t[ch] + ChainRules(net, ch, lines) == goal[ch] {
      if ch !in {CL_FW, CL_FW_EGRESS} {
        NoLinesElsewhere(net, rules, ch);
      }
    }
  }

  /** Running the script leads exactly to `Programmed`, from any tables. */
  lemma {:induction false} ScriptPrograms(net: Net, rules: seq<FwRule>, t: Tables)
    requires HasHooks(t)
    ensures Run(net, Script(rules), t) == Programmed(net, rules, t)
  {
    RunConcat(net, Preamble(Ingress) + Preamble(Egress), Body(rules), t);
    RunConcat(net, Preamble(Ingress), Preamble(Egress), t);
    RunPreamble(net, Ingress, t);
    var t1 := Run(net, Preamble(Ingress), t);
    RunPreamble(net, Egress, t1);
    hide Run, Preamble, Body, ChainRules;
    RunBody(net, rules, Run(net, Preamble(Egress), t1));
  }

  // ----- What the compiled chain decides -----

  predicate LineHits(net: Net, chain: Chain, c: Command, p: Packet) {
    c.Append? && c.chain == chain && WellFormed(net, c.rule.cond) && Hits(net, c.rule.cond, p)
  }

  /** Dropping repeated lines never changes a first-match walk. */
  lemma {:induction false} DedupKeepsWalk(net: Net, t: Tables, chain: Chain, lines: seq<Command>, seen: set<Command>,
                                          p: Packet, depth: nat)
    requires forall c :: c in lines ==> PlainLine(c)
    requires forall c :: c in seen ==> !LineHits(net, chain, c, p)
    ensures Walk(net, t, ChainRules(net, chain, Dedup(lines, seen)), p, depth)
         == Walk(net, t, ChainRules(net, chain, lines), p, depth)
    decreases |lines|
  {
    if lines != [] {
      var c, rest := lines[0], lines[1..];
      assert PlainLine(c);
      forall d | d in rest ensures PlainLine(d) { assert d in lines; }
      if c in seen {
        assert !LineHits(net, chain, c, p);
        DedupKeepsWalk(net, t, chain, rest, seen, p, depth);
        assert ChainRules(net, chain, lines) == ChainRules(net, chain, rest)
            || ChainRules(net, chain, lines) == [c.rule] + ChainRules(net, chain, rest);
      } else {
        var kept := Dedup(rest, seen + {c});
        assert ([c] + kept)[1..] == kept;
        if !LineHits(net, chain, c, p) {
          DedupKeepsWalk(net, t, chain, rest, seen + {c}, p, depth);
        }
      }
    }
  }

  /** A line of an entry that hits a packet is for its direction, and the entry covers the packet. */
  lemma LineMeaning(net: Net, dir: Direction, deny: bool, e: FwEntry, a: string, c: Command, p: Packet)
    requires e.Entry? && c in AddressLines(dir, deny, e)(a) && c.Append?
    requires WellFormed(net, c.rule.cond) && Hits(net, c.rule.cond, p)
    ensures c.chain == ChainOf(dir) && ProtocolCovers(net, e, p)
    ensures net.okRange(a) && net.inRange(a, if dir.Ingress? then p.src else p.dst)
  {
    AddressLinesMember(dir, deny, e, a, c);
    hide AddressLines, KindOf, PortTexts;
  }

  lemma HitComesFromMatch(net: Net, rules: seq<FwRule>, deny: bool, dir: Direction, p: Packet, hit: Rule)
    requires hit in ChainRules(net, ChainOf(dir), Lines(rules, deny)) && Hits(net, hit.cond, p)
    ensures SomeMatch(net, rules, deny, dir, p)
  {
    var c := Append(ChainOf(dir), hit);
    ChainRulesMember(net, ChainOf(dir), Lines(rules, deny), hit);
    LinesMember(rules, deny, c);
    var r, e, a :| LineOrigin(rules, deny, c, r, e, a);
    LineMeaning(net, RuleDirection(r).value, deny, e, a, c, p);
    hide RuleDirection, RuleRanges, ChainRules, Lines, AddressLines, ProtocolCovers, Hits, WellFormed;
    assert RuleDirection(r).value == dir;
    assert EntryMatches(net, r, e, dir, p);
    assert RuleMatches(net, r, deny, dir, p);
  }

  lemma MatchGivesHit(net: Net, rules: seq<FwRule>, deny: bool, dir: Direction, p: Packet)
    requires SomeMatch(net, rules, deny, dir, p)
    ensures AnyHits(net, ChainRules(net, ChainOf(dir), Lines(rules, deny)), p)
  {
    var r :| r in rules && RuleMatches(net, r, deny, dir, p);
    var e :| e in RuleEntries(r, deny) && EntryMatches(net, r, e, dir, p);
    var a :| a in RuleRanges(r, dir) && net.okRange(a) && net.inRange(a, if dir.Ingress? then p.src else p.dst);
    var c := HittingLine(net, dir, deny, e, a, p);
    assert LineOrigin(rules, deny, c, r, e, a);
    LinesMember(rules, deny, c);
    ChainRulesMember(net, ChainOf(dir), Lines(rules, deny), c.rule);
  }

  /** A bucket holds a hitting line of a direction exactly when one of its entries matches the packet. */
  lemma {:induction false} BucketHits(net: Net, rules: seq<FwRule>, deny: bool, dir: Direction, p: Packet)
    ensures AnyHits(net, ChainRules(net, ChainOf(dir), Lines(rules, deny)), p) <==> SomeMatch(net, rules, deny, dir, p)
  {
    var kept := ChainRules(net, ChainOf(dir), Lines(rules, deny));
    if hit :| hit in kept && Hits(net, hit.cond, p) {
      HitComesFromMatch(net, rules, deny, dir, p, hit);
    }
    if SomeMatch(net, rules, deny, dir, p) {
      MatchGivesHit(net, rules, deny, dir, p);
    }
  }

  lemma HittingLine(net: Net, dir: Direction, deny: bool, e: FwEntry, a: string, p: Packet) returns (c: Command)
    requires e.Entry? && ProtocolCovers(net, e, p)
    requires net.okRange(a) && net.inRange(a, if dir.Ingress? then p.src else p.dst)
    ensures c in AddressLines(dir, deny, e)(a) && LineHits(net, ChainOf(dir), c, p)
  {
    var ports := PortTexts(e.ports);
    match KindOf(e) {
      case Transport(proto) =>
        if ports != [] {
          var q :| q in ports && net.okPorts(q) && net.inPorts(q, p.dport);
          c := Line(dir, deny, a, Some(proto), Some(q));
        } else {
          c := Line(dir, deny, a, Some(proto), None);
        }
      case Ping => c := Line(dir, deny, a, Some(Icmp), None);
      case Anything => c := Line(dir, deny, a, None, None);
    }
    AddressLinesMember(dir, deny, e, a, c);
  }

  /** Loopback and established traffic of the chain's own direction. */
  predicate Exempt(dir: Direction, p: Packet) {
    p.established || (if dir.Ingress? then p.inLoopback else p.outLoopback)
  }

  predicate Denied(net: Net, rules: seq<FwRule>, dir: Direction, p: Packet) {
    && !Exempt(dir, p)
    && SomeMatch(net, rules, true, dir, p)
    && !SomeMatch(net, rules, false, dir, p)
  }

  /** The compiled chain drops a packet exactly when the rules deny it, and otherwise
      returns to the base policy: it never accepts by itself. */
  lemma {:induction false} ChainMeansRules(net: Net, rules: seq<FwRule>, dir: Direction, t: Tables, p: Packet,
      depth: nat)
    ensures Walk(net, t, Compiled(net, rules, dir), p, depth)
         == if Denied(net, rules, dir, p) then Dropped else Continue
  {
    var chain := ChainOf(dir);
    var allow, deny := Lines(rules, false), Lines(rules, true);
    LinesArePlain(rules, false);
    LinesArePlain(rules, true);
    var body := ChainRules(net, chain, Body(rules));
    var head := [LoopbackRule(dir), ESTABLISHED_RULE];
    WalkConcat(net, t, head, body, p, depth);
    WalkUniform(net, t, head, Return, p, depth);
    assert AnyHits(net, head, p) <==> Exempt(dir, p) by {
      assert LoopbackRule(dir) in head && ESTABLISHED_RULE in head;
    }
    DedupKeepsWalk(net, t, chain, allow + deny, {}, p, depth);
    ChainRulesConcat(net, chain, allow, deny);
    var a, d := ChainRules(net, chain, allow), ChainRules(net, chain, deny);
    forall r | r in a ensures r.target == Return { ChainRulesMember(net, chain, allow, r); }
    forall r | r in d ensures r.target == Drop { ChainRulesMember(net, chain, deny, r); }
    WalkConcat(net, t, a, d, p, depth);
    WalkUniform(net, t, a, Return, p, depth);
    WalkUniform(net, t, d, Drop, p, depth);
    BucketHits(net, rules, false, dir, p);
    BucketHits(net, rules, true, dir, p);
  }

  /** A hook that starts with the jump consults the chain and then the rest. */
  lemma WalkHook(net: Net, dir: Direction, t: Tables, rest: seq<Rule>, p: Packet, depth: nat)
    requires ChainOf(dir) in t && depth > 0
    ensures Walk(net, t, [Hook(dir)] + rest, p, depth)
         == var o := Walk(net, t, t[ChainOf(dir)], p, depth - 1);
            if o == Continue then Walk(net, t, rest, p, depth) else o
  {
    assert ([Hook(dir)] + rest)[1..] == rest;
    assert Hits(net, Hook(dir).cond, p);
  }

  /** The main theorem: run the script on an appliance with empty hooks, or with the
      hook already installed; a packet of a direction is then stopped exactly when the rules deny it. */
  lemma {:induction false} ProgramMeansRules(net: Net, rules: seq<FwRule>, dir: Direction, t: Tables, p: Packet,
      depth: nat)
    requires HasHooks(t) && depth > 0
    requires t[HookOf(dir)] == [] || t[HookOf(dir)] == [Hook(dir)]
    ensures var after := Run(net, Script(rules), t);
            HasHooks(after) && (Passes(net, after, HookOf(dir), p, depth) <==> !Denied(net, rules, dir, p))
  {
    ScriptPrograms(net, rules, t);
    var after := Programmed(net, rules, t);
    ProgrammedChains(net, rules, t, dir);
    ChainMeansRules(net, rules, dir, after, p, depth - 1);
    WalkHook(net, dir, after, [], p, depth);
    assert after[HookOf(dir)] == [Hook(dir)] + [];
    assert Walk(net, after, [], p, depth) == Continue;
  }

  /** With other rules in the hook, the chain is consulted before all of them. */
  lemma {:induction false} NewHookComesFirst(net: Net, rules: seq<FwRule>, dir: Direction, t: Tables, p: Packet,
      depth: nat)
    requires HasHooks(t) && depth > 0
    requires Hook(dir) !in t[HookOf(dir)]
    ensures var after := Run(net, Script(rules), t);
            HasHooks(after) &&
            Walk(net, after, after[HookOf(dir)], p, depth)
            == if Denied(net, rules, dir, p) then Dropped else Walk(net, after, t[HookOf(dir)], p, depth)
  {
    ScriptPrograms(net, rules, t);
    var after := Programmed(net, rules, t);
    ProgrammedChains(net, rules, t, dir);
    ChainMeansRules(net, rules, dir, after, p, depth - 1);
    WalkHook(net, dir, after, t[HookOf(dir)], p, depth);
  }

  // ----- Reprogramming and clearing -----

  function Jumps(t: Tables, dir: Direction): nat
    requires HookOf(dir) in t
  {
    multiset(t[HookOf(dir)])[Hook(dir)]
  }

  /** A run leaves each chain holding exactly the compiled rules, whatever it held, and one jump
      in the hook if there was at most one. */
  lemma {:induction false} ScriptInstalls(net: Net, rules: seq<FwRule>, t: Tables, dir: Direction)
    requires HasHooks(t) && Jumps(t, dir) <= 1
    ensures var after := Run(net, Script(rules), t);
            && after.Keys == t.Keys + {CL_FW, CL_FW_EGRESS}
            && after[ChainOf(dir)] == Compiled(net, rules, dir)
            && Jumps(after, dir) == 1
  {
    ScriptPrograms(net, rules, t);
    ProgrammedChains(net, rules, t, dir);
    var was := t[HookOf(dir)];
    if Hook(dir) in was {
      assert Hook(dir) in multiset(was);
    } else {
      assert Hook(dir) !in multiset(was);
      assert multiset([Hook(dir)] + was) == multiset{Hook(dir)} + multiset(was);
    }
  }

  /** No other chain is touched. */
  lemma {:induction false} ScriptFrame(net: Net, rules: seq<FwRule>, t: Tables, ch: Chain)
    requires HasHooks(t) && ch in t && ch !in {CL_FW, CL_FW_EGRESS, INPUT, OUTPUT}
    ensures var after := Run(net, Script(rules), t); ch in after && after[ch] == t[ch]
  {
    ScriptPrograms(net, rules, t);
  }

  /** Programming again, with the same rules or after older ones, leads to the same tables as programming once. */
  lemma {:induction false} ReprogrammingForgets(net: Net, older: seq<FwRule>, rules: seq<FwRule>, t: Tables)
    requires HasHooks(t)
    ensures Run(net, Script(rules), Run(net, Script(older), t)) == Run(net, Script(rules), t)
  {
    ScriptPrograms(net, rules, t);
    ScriptPrograms(net, older, t);
    var t1 := Programmed(net, older, t);
    ScriptPrograms(net, rules, t1);
    ProgrammedChains(net, older, t, Ingress);
    ProgrammedChains(net, older, t, Egress);
    assert Hooked(t1[INPUT], Ingress) == Hooked(t[INPUT], Ingress);
    assert Hooked(t1[OUTPUT], Egress) == Hooked(t[OUTPUT], Egress);
    var ci, ce := Compiled(net, rules, Ingress), Compiled(net, rules, Egress);
    ResetTwice(t, Compiled(net, older, Ingress), ci, Hooked(t[INPUT], Ingress),
               Compiled(net, older, Egress), ce, Hooked(t[OUTPUT], Egress));
  }

  lemma ResetTwice(t: Tables, ci: seq<Rule>, ci': seq<Rule>, hi: seq<Rule>, ce: seq<Rule>, ce': seq<Rule>,
      he: seq<Rule>)
    ensures var once := Reset(Reset(t, Ingress, ci, hi), Egress, ce, he);
            Reset(Reset(once, Ingress, ci', hi), Egress, ce', he) == Reset(Reset(t, Ingress, ci', hi), Egress, ce', he)
  {
  }

  lemma ExecUnhook(net: Net, dir: Direction, t: Tables)
    requires HookOf(dir) in t
    ensures Exec(net, OrTrue(Delete(HookOf(dir), Hook(dir))), t).0
         == t[HookOf(dir) := RemoveFirst(t[HookOf(dir)], Hook(dir))]
  {
    RemoveAbsent(t[HookOf(dir)], Hook(dir));
    assert t == t[HookOf(dir) := t[HookOf(dir)]];
    assert Exec(net, Delete(HookOf(dir), Hook(dir)), t).0 == t[HookOf(dir) := RemoveFirst(t[HookOf(dir)], Hook(dir))];
  }

  lemma RunClear(net: Net, dir: Direction, t: Tables)
    requires HookOf(dir) in t && ChainOf(dir) in t
    ensures Run(net, Clear(dir), t) == Reset(t, dir, [], RemoveFirst(t[HookOf(dir)], Hook(dir)))
  {
    ExecUnhook(net, dir, t);
    var t1 := t[HookOf(dir) := RemoveFirst(t[HookOf(dir)], Hook(dir))];
    assert Exec(net, Flush(ChainOf(dir)), t1).0 == t1[ChainOf(dir) := []];
    var second := [OrTrue(Flush(ChainOf(dir)))];
    assert Clear(dir)[1..] == second;
    assert second[1..] == [];
    assert Run(net, second, t1) == t1[ChainOf(dir) := []];
  }

  lemma RemoveAddedHook(rules: seq<Rule>, dir: Direction)
    ensures RemoveFirst(Hooked(rules, dir), Hook(dir)) == RemoveFirst(rules, Hook(dir))
  {
    RemoveAbsent(rules, Hook(dir));
    if Hook(dir) !in rules {
      assert ([Hook(dir)] + rules)[1..] == rules;
    }
  }

  /** Clearing after programming: both chains are empty and the hooks hold what they held before,
      less the jump. */
  lemma {:induction false} ClearRestores(net: Net, rules: seq<FwRule>, t: Tables, dir: Direction)
    requires HasHooks(t)
    ensures var cleared := Run(net, ClearScript(), Run(net, Script(rules), t));
            && cleared.Keys == t.Keys + {CL_FW, CL_FW_EGRESS}
            && cleared[ChainOf(dir)] == []
            && cleared[HookOf(dir)] == RemoveFirst(t[HookOf(dir)], Hook(dir))
  {
    ScriptPrograms(net, rules, t);
    ProgrammedChains(net, rules, t, Ingress);
    ProgrammedChains(net, rules, t, Egress);
    var t1 := Programmed(net, rules, t);
    RunConcat(net, Clear(Ingress), Clear(Egress), t1);
    RunClear(net, Ingress, t1);
    RunClear(net, Egress, Run(net, Clear(Ingress), t1));
    RemoveAddedHook(t[HookOf(dir)], dir);
  }

  /** Where the hooks had no rules of others, every packet passes after `ClearScript`. */
  lemma {:induction false} ClearAcceptsAll(net: Net, rules: seq<FwRule>, t: Tables, dir: Direction, p: Packet,
      depth: nat)
    requires HasHooks(t)
    requires t[HookOf(dir)] == [] || t[HookOf(dir)] == [Hook(dir)]
    ensures var cleared := Run(net, ClearScript(), Run(net, Script(rules), t));
            HasHooks(cleared) && Passes(net, cleared, HookOf(dir), p, depth)
  {
    ClearRestores(net, rules, t, dir);
    assert RemoveFirst(t[HookOf(dir)], Hook(dir)) == [];
  }

  // ----- Where the translation departs from the rule's own words -----

  /** A packet that is neither TCP, UDP nor ICMP is matched by exactly the entries whose protocol is none of
      tcp, udp, icmp and 1, whatever that protocol is and whatever their ports. */
  lemma {:induction false} ForeignPacketIff(net: Net, r: FwRule, e: FwEntry, dir: Direction, p: Packet)
    requires r.FwRule? && e.Entry? && p.proto == OtherProto
    ensures EntryMatches(net, r, e, dir, p) <==>
            && ProtocolText(e) !in {"tcp", "udp", "icmp", "1"}
            && RangeCovers(net, RuleRanges(r, dir), if dir.Ingress? then p.src else p.dst)
  {
    hide ProtocolText, RangeCovers, RuleRanges, PortCovers, PortTexts;
    match KindOf(e) {
      case Transport(proto) => assert p.proto != proto;
      case Ping =>
      case Anything =>
    }
  }

  /** An entry matches every packet of its ranges, in every net, exactly when its protocol is none of those. */
  lemma {:induction false} UnknownProtocolMatchesAll(r: FwRule, e: FwEntry, dir: Direction)
    requires r.FwRule? && e.Entry?
    ensures (forall net: Net, p: Packet | RangeCovers(net, RuleRanges(r, dir), if dir.Ingress? then p.src else p.dst) ::
               EntryMatches(net, r, e, dir, p))
            <==> ProtocolText(e) !in {"tcp", "udp", "icmp", "1"}
  {
    var net := Net(_ => true, (_, _) => true, _ => true, (_, _) => true);
    var p := Packet(0, 0, OtherProto, 0, false, false, false);
    var ranges := RuleRanges(r, dir);
    RangesNotEmpty(if dir.Ingress? then r.sourceRanges else r.destinationRanges);
    assert ranges[0] in ranges;
    assert RangeCovers(net, ranges, if dir.Ingress? then p.src else p.dst);
    ForeignPacketIff(net, r, e, dir, p);
    assert ProtocolText(e) !in {"tcp", "udp", "icmp", "1"} <==> KindOf(e).Anything?;
    hide ProtocolText, KindOf, RangeCovers, RuleRanges;
    if ProtocolText(e) !in {"tcp", "udp", "icmp", "1"} {
      forall net: Net, p: Packet | RangeCovers(net, ranges, if dir.Ingress? then p.src else p.dst)
        ensures EntryMatches(net, r, e, dir, p)
      {
      }
    }
  }

  lemma RangesNotEmpty(ranges: Texts)
    ensures Ranges(ranges) != []
  {
  }

  /** Ranges stand for the whole address space exactly when they are no list, an empty one, or the list of
      just that: a single range given without a list is not looked at. */
  lemma {:induction false} RangesAreEverywhereIff(ranges: Texts)
    ensures (forall net: Net, a :: RangeCovers(net, Ranges(ranges), a) <==>
            net.okRange(EVERYWHERE) && net.inRange(EVERYWHERE, a))
            <==> !ranges.Listed? || forall i :: 0 <= i < |ranges.items| ==> ranges.items[i] == EVERYWHERE
  {
    var texts := Ranges(ranges);
    RangesNotEmpty(ranges);
    if i :| 0 <= i < |texts| && texts[i] != EVERYWHERE {
      var odd := texts[i];
      var net := Net(t => t == odd, (_, _) => true, _ => true, (_, _) => true);
      assert odd in texts && net.okRange(odd) && net.inRange(odd, 0);
      assert RangeCovers(net, texts, 0) && !net.okRange(EVERYWHERE);
    } else {
      assert texts[0] == EVERYWHERE && texts[0] in texts;
      forall net: Net, a ensures RangeCovers(net, texts, a) <==> net.okRange(EVERYWHERE) && net.inRange(EVERYWHERE, a) {
        assert EVERYWHERE in texts;
      }
    }
  }
}
