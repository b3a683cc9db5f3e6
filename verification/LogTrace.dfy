/** What the kernel logs for a packet, and whose name it carries. */
module LogTrace {
  import opened Common
  import opened Address
  import opened Policy
  import opened Packets
  import opened FlowPrefix
  import opened RulesetIR
  import opened Compile
  import opened NftRules
  import opened Expand
  import opened Kernel
  import opened Apply
  import opened Install
  import opened EndToEnd
  import opened DropTags

  datatype LogEntry = LogEntry(group: u16, prefix: string)

  // ----- what one rule logs -----

  /** The log statements a rule reaches, in order. */
  function Logs(es: seq<Expr>, run: Run, p: Packet, sets: KernelSets): seq<LogEntry> {
    if es == [] then [] else
      (if run.Running? && es[0].Log? then [LogEntry(es[0].group, es[0].prefix)] else [])
      + Logs(es[1..], Step(es[0], run, p, sets), p, sets)
  }

  lemma {:induction false} LogsAppend(a: seq<Expr>, b: seq<Expr>, run: Run, p: Packet, sets: KernelSets)
    ensures Logs(a + b, run, p, sets) == Logs(a, run, p, sets) + Logs(b, Exec(a, run, p, sets), p, sets)
  {
    hide Step;
    if a == [] {
      assert a + b == b;
    } else {
      assert (a + b)[1..] == a[1..] + b;
      LogsAppend(a[1..], b, Step(a[0], run, p, sets), p, sets);
    }
  }

  /** Only matches: no log statement and no verdict. */
  predicate Plain(es: seq<Expr>) {
    forall i | 0 <= i < |es| :: !es[i].Log? && !es[i].Immediate?
  }

  lemma {:induction false} PlainIsSilent(es: seq<Expr>, run: Run, p: Packet, sets: KernelSets)
    requires Plain(es)
    ensures Logs(es, run, p, sets) == []
    ensures !run.Decided? ==> !Exec(es, run, p, sets).Decided?
  {
    if es == [] {
    } else {
      PlainIsSilent(es[1..], Step(es[0], run, p, sets), p, sets);
    }
  }

  lemma PlainBlock(c: Cidr, source: bool, op: CmpOp)
    ensures Plain(BlockExprs(c, source, op))
  {
    hide Mask, NetworkBytes;
  }

  lemma {:induction false} PlainExcepts(except: seq<Cidr>, source: bool)
    ensures Plain(ExceptExprs(except, source))
  {
    if except == [] {
    } else {
      hide BlockExprs;
      PlainExcepts(except[..|except| - 1], source);
      PlainBlock(except[|except| - 1], source, Neq);
    }
  }

  lemma PlainSide(side: Side, index: SetIndex, f: Family, source: bool)
    requires SideExprs(side, index, f, source).Ok?
    ensures Plain(SideExprs(side, index, f, source).value)
  {
    if side.CidrSide? { PlainExcepts(side.except, source); }
  }

  /** The entry of a logged drop. */
  function EntryOf(rule: Rule, group: Option<u16>): seq<LogEntry> {
    if Logged(rule, group.Some?) then [LogEntry(group.value, rule.logPrefix.value)] else []
  }

  lemma LogThenVerdict(log: LogEntry, v: NftVerdict, run: Run, p: Packet, sets: KernelSets)
    ensures Logs([Log(log.group, log.prefix)] + [Immediate(v)], run, p, sets) == if run.Running? then [log] else []
    ensures Exec([Log(log.group, log.prefix)] + [Immediate(v)], run, p, sets)
         == if run.Running? then Decided(v) else run
  {
    var es := [Log(log.group, log.prefix)] + [Immediate(v)];
    assert es[1..] == [Immediate(v)] && es[1..][1..] == [];
    assert Logs(es[1..], run, p, sets) == [] + Logs(es[1..][1..], Step(Immediate(v), run, p, sets), p, sets);
    assert Exec(es[1..], run, p, sets) == Exec(es[1..][1..], Step(Immediate(v), run, p, sets), p, sets);
  }

  lemma VerdictAlone(v: NftVerdict, run: Run, p: Packet, sets: KernelSets)
    ensures Logs([Immediate(v)], run, p, sets) == []
  {
    assert [Immediate(v)][1..] == [];
  }

  /** A concrete rule logs exactly when it is a logged drop and gives its verdict. */
  lemma CellLogs(rule: Rule, c: Cell, index: SetIndex, group: Option<u16>, p: Packet, sets: KernelSets)
    requires CellExprs(rule, c, index, group).Ok?
    ensures var es := CellExprs(rule, c, index, group).value;
            Logs(es, Running([]), p, sets) == if Outcome(es, p, sets).Decided? then EntryOf(rule, group) else []
  {
    hide SideExprs, PortExprs, Exec, Logs;
    PlainSide(c.src, index, c.family, true);
    PlainSide(c.dst, index, c.family, false);
    PlainPort(c.port);
    var v := NftVerdictOf(rule.verdict);
    var sides := SideExprs(c.src, index, c.family, true).value + SideExprs(c.dst, index, c.family, false).value;
    var matches := sides + PortPart(c.port);
    assert Plain(matches);
    if Logged(rule, group.Some?) {
      var entry := LogEntry(group.value, rule.logPrefix.value);
      var quiet, tail := matches + CtGuard(NEW_BIT), [Log(entry.group, entry.prefix)] + [Immediate(v)];
      assert Plain(quiet);
      assert CellExprs(rule, c, index, group).value == quiet + tail;
      LogsAppend(quiet, tail, Running([]), p, sets);
      ExecAppend(quiet, tail, Running([]), p, sets);
      PlainIsSilent(quiet, Running([]), p, sets);
      LogThenVerdict(entry, v, Exec(quiet, Running([]), p, sets), p, sets);
    } else {
      assert CellExprs(rule, c, index, group).value == matches + [Immediate(v)];
      LogsAppend(matches, [Immediate(v)], Running([]), p, sets);
      PlainIsSilent(matches, Running([]), p, sets);
      VerdictAlone(v, Exec(matches, Running([]), p, sets), p, sets);
    }
  }

  function PortPart(port: Option<Port>): seq<Expr> {
    if port.Some? then PortExprs(port.value) else []
  }

  lemma PlainPort(port: Option<Port>)
    ensures Plain(PortPart(port))
  {}

  // ----- what a table logs -----

  /** Logged along the way that `EvalRules` takes. */
  function EvalLogs(t: Table, rules: seq<seq<Expr>>, p: Packet, depth: nat): seq<LogEntry>
    decreases depth, |rules|
  {
    if rules == [] then [] else
      Logs(rules[0], Running([]), p, t.sets) +
      match Outcome(rules[0], p, t.sets)
      case Decided(NfJump(c)) => (
        if depth == 0 || c !in t.chains then [] else
          EvalLogs(t, t.chains[c], p, depth - 1)
          + (if EvalRules(t, t.chains[c], p, depth - 1).Final? then [] else EvalLogs(t, rules[1..], p, depth)))
      case Decided(_) => []
      case _ => EvalLogs(t, rules[1..], p, depth)
  }

  function KernelLogs(k: Kernel, p: Packet): seq<LogEntry> {
    if k.Has? && k.table.base.Some? && k.table.base.value in k.table.chains
    then EvalLogs(k.table, k.table.chains[k.table.base.value], p, JUMP_STACK) else []
  }

  /** Every rule of a block logs the same when it decides. */
  predicate AllLog(block: seq<seq<Expr>>, entry: seq<LogEntry>, p: Packet, sets: KernelSets) {
    forall i | 0 <= i < |block| ::
      Logs(block[i], Running([]), p, sets) == if Outcome(block[i], p, sets).Decided? then entry else []
  }

  lemma NothingDecides(p: Packet, sets: KernelSets)
    ensures !SomeDecides([], p, sets)
  {}

  lemma {:induction false} BlockLogs(
      t: Table, block: seq<seq<Expr>>, rest: seq<seq<Expr>>, v: NftVerdict, entry: seq<LogEntry>, p: Packet, depth: nat)
    requires AllSay(block, v, p, t.sets) && (v == NfReturn || v == NfDrop) && AllLog(block, entry, p, t.sets)
    ensures EvalLogs(t, block + rest, p, depth)
         == if SomeDecides(block, p, t.sets) then entry else EvalLogs(t, rest, p, depth)
  {
    hide Logs, Outcome, EvalRules, SomeDecides;
    if block == [] {
      NothingDecides(p, t.sets);
      assert block + rest == rest;
    } else {
      assert (block + rest)[1..] == block[1..] + rest;
      BlockLogs(t, block[1..], rest, v, entry, p, depth);
      SomeDecidesStep(block, p, t.sets);
    }
  }

  lemma RuleLogs(
      t: Table, rule: Rule, rest: seq<seq<Expr>>, sets: SetTable, index: SetIndex, group: Option<u16>, p: Packet,
      depth: nat)
    requires SingleFamily(p) && Represents(sets, index, t.sets) && WellFormed(rule)
    requires CellsBuild(rule, Cells(rule, index), index, group)
    ensures EvalLogs(t, BuildAll(rule, Cells(rule, index), index, group) + rest, p, depth)
         == if Fires(rule, sets, p, group.Some?) then EntryOf(rule, group) else EvalLogs(t, rest, p, depth)
  {
    hide Logs, Outcome, Cells, CellExprs, Fires, EvalLogs, EntryOf;
    var cells := Cells(rule, index);
    var block := BuildAll(rule, cells, index, group);
    ExpansionMeaning(rule, sets, index, t.sets, group, p);
    forall i | 0 <= i < |block|
      ensures Logs(block[i], Running([]), p, t.sets)
           == if Outcome(block[i], p, t.sets).Decided? then EntryOf(rule, group) else []
    {
      assert cells[i] in cells;
      CellLogs(rule, cells[i], index, group, p, t.sets);
    }
    BlockLogs(t, block, rest, NftVerdictOf(rule.verdict), EntryOf(rule, group), p, depth);
  }

  /** What the deciding rule of a chain logs. */
  function ChainEntry(rules: seq<Rule>, sets: SetTable, p: Packet, group: Option<u16>): seq<LogEntry> {
    match Deciding(rules, sets, p, group.Some?)
    case None => []
    case Some(r) => EntryOf(r, group)
  }

  lemma DecidingOne(r: Rule, sets: SetTable, p: Packet, logging: bool)
    ensures Deciding([r], sets, p, logging) == if Fires(r, sets, p, logging) then Some(r) else None
  {
    hide Fires;
    assert [r][1..] == [];
  }

  lemma {:induction false} ChainLogs(
      t: Table, rules: seq<Rule>, rest: seq<seq<Expr>>, sets: SetTable, index: SetIndex, group: Option<u16>, p: Packet,
      depth: nat)
    requires SingleFamily(p) && Represents(sets, index, t.sets) && AllBuild(rules, index, group)
    requires forall r :: r in rules ==> WellFormed(r)
    ensures EvalLogs(t, ExpandAll(rules, index, group) + rest, p, depth)
         == if Deciding(rules, sets, p, group.Some?).Some? then ChainEntry(rules, sets, p, group)
            else EvalLogs(t, rest, p, depth)
  {
    hide EvalLogs, Cells, CellsBuild, BuildAll, Fires, WellFormed, Represents, EntryOf;
    if rules == [] {
      assert [] + rest == rest;
    } else {
      var init, last := rules[..|rules| - 1], rules[|rules| - 1];
      assert rules == init + [last];
      ExpandAllSplit(init, last, rest, index, group);
      var block := BuildAll(last, Cells(last, index), index, group);
      ChainLogs(t, init, block + rest, sets, index, group, p, depth);
      RuleLogs(t, last, rest, sets, index, group, p, depth);
      DecidingAppend(init, [last], sets, p, group.Some?);
      DecidingOne(last, sets, p, group.Some?);
    }
  }

  lemma StageLogs(t: Table, rules: seq<Rule>, sets: SetTable, index: SetIndex, group: Option<u16>, p: Packet,
      depth: nat)
    requires SingleFamily(p) && Represents(sets, index, t.sets) && AllBuild(rules, index, group)
    requires forall r :: r in rules ==> WellFormed(r)
    ensures EvalLogs(t, ExpandAll(rules, index, group), p, depth) == ChainEntry(rules, sets, p, group)
  {
    hide Deciding, ExpandAll, Represents, WellFormed;
    ChainLogs(t, rules, [], sets, index, group, p, depth);
    assert ExpandAll(rules, index, group) + [] == ExpandAll(rules, index, group);
  }

  lemma JumpLogs(chain: string, p: Packet, sets: KernelSets)
    ensures Logs([Immediate(NfJump(chain))], Running([]), p, sets) == []
  {
    VerdictAlone(NfJump(chain), Running([]), p, sets);
  }

  lemma ReplyRuleLogs(p: Packet, sets: KernelSets)
    ensures Logs(CtGuard(REPLY_BITS) + [Immediate(NfAccept)], Running([]), p, sets) == []
  {
    hide Exec;
    LogsAppend(CtGuard(REPLY_BITS), [Immediate(NfAccept)], Running([]), p, sets);
    PlainIsSilent(CtGuard(REPLY_BITS), Running([]), p, sets);
    VerdictAlone(NfAccept, Exec(CtGuard(REPLY_BITS), Running([]), p, sets), p, sets);
  }

  /** The base chain logs nothing itself. */
  lemma ForwardLogs(t: Table, p: Packet, depth: nat)
    requires EGRESS_CHAIN in t.chains && INGRESS_CHAIN in t.chains && depth > 0
    ensures EvalLogs(t, ForwardRules(), p, depth)
         == if ReplyTraffic(p) then []
            else EvalLogs(t, t.chains[EGRESS_CHAIN], p, depth - 1)
                 + (if EvalRules(t, t.chains[EGRESS_CHAIN], p, depth - 1).Final? then []
                    else EvalLogs(t, t.chains[INGRESS_CHAIN], p, depth - 1))
  {
    hide Logs, Outcome, EvalRules, CtGuard;
    ReplyRuleLogs(p, t.sets);
    JumpLogs(EGRESS_CHAIN, p, t.sets);
    JumpLogs(INGRESS_CHAIN, p, t.sets);
    ReplyOutcome(p, t.sets);
    JumpOutcome(EGRESS_CHAIN, p, t.sets);
    JumpOutcome(INGRESS_CHAIN, p, t.sets);
    var toEgress, toIngress := [Immediate(NfJump(EGRESS_CHAIN))], [Immediate(NfJump(INGRESS_CHAIN))];
    assert ForwardRules()[1..] == [toEgress, toIngress];
    assert [toEgress, toIngress][1..] == [toIngress] && [toIngress][1..] == [];
    var last, ingress := EvalLogs(t, [toIngress], p, depth), EvalLogs(t, t.chains[INGRESS_CHAIN], p, depth - 1);
    assert EvalLogs(t, [], p, depth) == [] && [] + (ingress + []) == ingress;
    assert last == EvalLogs(t, t.chains[INGRESS_CHAIN], p, depth - 1);
    assert EvalLogs(t, [toEgress, toIngress], p, depth)
        == EvalLogs(t, t.chains[EGRESS_CHAIN], p, depth - 1)
           + (if EvalRules(t, t.chains[EGRESS_CHAIN], p, depth - 1).Final? then [] else last);
  }

  /** The table logs, for a packet, what the deciding rule of the chain that drops it logs. */
  lemma TableLogs(rs: Rules, group: Option<u16>, p: Packet)
    requires Sound(rs) && Buildable(rs, group) && !Clash(rs.sets) && SingleFamily(p)
    ensures KernelLogs(Has(TableOf(rs, group)), p)
         == if ReplyTraffic(p) then []
            else if FirstMatch(rs.egress, rs.sets, p, group.Some?) == Some(Verdict.Drop)
            then ChainEntry(rs.egress, rs.sets, p, group)
            else ChainEntry(rs.ingress, rs.sets, p, group)
  {
    hide EvalLogs, EvalRules, Represents, FirstMatch, WellFormed, ExpandAll, AllBuild, Deciding;
    var t, index := TableOf(rs, group), SetPlan(rs).index;
    TableChains(rs, group);
    PlanRepresents(rs);
    StagesOf(t, rs, index, group, p);
    StageLogs(t, rs.egress, rs.sets, index, group, p, JUMP_STACK - 1);
    StageLogs(t, rs.ingress, rs.sets, index, group, p, JUMP_STACK - 1);
    ForwardLogs(t, p, JUMP_STACK);
    OnlyDropsLog(rs.egress, rs.sets, p, group);
  }

  lemma OnlyDropsLog(rules: seq<Rule>, sets: SetTable, p: Packet, group: Option<u16>)
    ensures FirstMatch(rules, sets, p, group.Some?) != Some(Verdict.Drop) ==> ChainEntry(rules, sets, p, group) == []
    ensures p.ct != New ==> ChainEntry(rules, sets, p, group) == []
    ensures |ChainEntry(rules, sets, p, group)| <= 1
  {
    hide Deciding, FirstMatch;
    DecidingFires(rules, sets, p, group.Some?);
  }

  // ----- the flow log tells whose policies dropped a packet -----

  /** The stage that drops a packet: ingress is asked only if egress lets it through. */
  function DropDir(cfg: Config, targets: seq<Target>, p: Packet): Direction {
    if Clears(cfg, targets, Egress, p) then Ingress else Egress
  }

  /** With flow logging on, a NEW packet is logged at most once; never if it is accepted; and if it is
      dropped, with the prefix of the owner whose policies dropped it, unless one of them opts out. Packets
      in other states are never logged. */
  lemma DropsLoggedOnce(cfg: Config, targets: seq<Target>, group: u16, p: Packet)
    requires SingleFamily(p) && cfg.flowlog && !Clash(Compiled(cfg, targets).sets)
    ensures var k := Programmed(cfg, targets, Some(group));
            var logs, dir, inline := KernelLogs(k, p), DropDir(cfg, targets, p), InlineOf(cfg, targets);
            var owner := Owner(cfg, inline, targets, dir, LocalAddr(p, dir));
            && |logs| <= 1
            && (p.ct != New ==> logs == [])
            && (Accepts(k, p) ==> logs == [])
            && (p.ct == New && !Accepts(k, p) ==>
                  && owner.Some?
                  && (logs == [LogEntry(group, FlowlogPrefix(owner.value.name, true, dir).value)]
                      || (logs == [] && OptsOut(Enforcing(cfg, inline, owner.value, dir), dir))))
  {
    hide Accepts, KernelLogs, TableOf, FirstMatch, Deciding, Compiled, Clears, Owner, Enforcing, OptsOut, FlowlogPrefix,
         InlineOf, Clash, DirectionVerdict;
    var rs := Compiled(cfg, targets);
    CompiledBuilds(cfg, targets, Some(group));
    TableLogs(rs, Some(group), p);
    TableMeaning(rs, Some(group), p);
    OnlyDropsLog(rs.egress, rs.sets, p, Some(group));
    OnlyDropsLog(rs.ingress, rs.sets, p, Some(group));
    if p.ct == New {
      CompiledChainMeaning(cfg, targets, Egress, p, true);
      CompiledChainMeaning(cfg, targets, Ingress, p, true);
      var dir := DropDir(cfg, targets, p);
      if !Clears(cfg, targets, dir, p) {
        DropNamesOwner(cfg, targets, dir, p, true);
        var owner := Owner(cfg, InlineOf(cfg, targets), targets, dir, LocalAddr(p, dir));
        PrefixShows(owner.value.name, dir);
        assert KernelLogs(Programmed(cfg, targets, Some(group)), p)
             == ChainEntry(ChainOf(rs, dir), rs.sets, p, Some(group));
      }
    }
  }
}
