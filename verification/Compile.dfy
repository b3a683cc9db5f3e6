/** Compiling a container snapshot and its policies into the desired ruleset. */
module Compile {
  import opened Common
  import opened Ordering
  import opened Address
  import opened Policy
  import opened Packets
  import opened RulesetIR
  import opened Resolve
  import opened Emit

  /** Configuration of a compile; reading address and policy text is a parameter. */
  datatype Config = Config(
    labelPrefix: string,
    globals: seq<NamedPolicy>,
    flowlog: bool,
    readIp: IpReader,
    readPolicy: string -> Option<NetworkPolicy>)

  /** A policy found on a container's label. */
  datatype Inline = Inline(carrier: Target, name: string, policy: NetworkPolicy)

  // ----- collecting policies -----

  /** The labels of one container that parse as policies; the others are skipped. */
  function ReadLabels(cfg: Config, t: Target, labels: seq<(string, string)>): seq<Inline> {
    if labels == [] then [] else
      var (name, value) := labels[|labels| - 1];
      var rest := ReadLabels(cfg, t, labels[..|labels| - 1]);
      match cfg.readPolicy(value)
      case Some(np) => rest + [Inline(t, name, np)]
      case None => rest
  }

  function InlinePolicies(cfg: Config, t: Target): seq<(string, string)> {
    PolicyLabels(cfg.labelPrefix, "networkpolicy", t.labels)
  }

  function InlineOf(cfg: Config, targets: seq<Target>): seq<Inline> {
    if targets == [] then [] else
      var t := targets[|targets| - 1];
      InlineOf(cfg, targets[..|targets| - 1]) + ReadLabels(cfg, t, InlinePolicies(cfg, t))
  }

  method CollectLabels(cfg: Config, t: Target, labels: seq<(string, string)>, before: seq<Inline>)
    returns (inline: seq<Inline>)
    ensures inline == before + ReadLabels(cfg, t, labels)
  {
    inline := before;
    for j := 0 to |labels|
      invariant inline == before + ReadLabels(cfg, t, labels[..j])
    {
      assert labels[..j + 1][..j] == labels[..j];
      var np := cfg.readPolicy(labels[j].1);
      if np.Some? {
        inline := inline + [Inline(t, labels[j].0, np.value)];
      }
    }
    assert labels[..|labels|] == labels;
  }

  method CollectInline(cfg: Config, targets: seq<Target>) returns (inline: seq<Inline>)
    ensures inline == InlineOf(cfg, targets)
  {
    inline := [];
    for i := 0 to |targets|
      invariant inline == InlineOf(cfg, targets[..i])
    {
      assert targets[..i + 1][..i] == targets[..i];
      inline := CollectLabels(cfg, targets[i], InlinePolicies(cfg, targets[i]), inline);
    }
    assert targets[..|targets|] == targets;
  }

  /** A label policy with no selector applies to its carrier, by name. */
  predicate InlineApplies(i: Inline, t: Target) {
    match i.policy.endpointSelector
    case None => i.carrier.name == t.name
    case Some(selector) => SelectorMatches(selector, t.labels)
  }

  /** A global policy with no selector applies to every container. */
  predicate GlobalApplies(g: NamedPolicy, t: Target) {
    g.policy.endpointSelector.None? || SelectorMatches(g.policy.endpointSelector.value, t.labels)
  }

  function ApplicableInline(inline: seq<Inline>, t: Target): seq<NamedPolicy> {
    if inline == [] then [] else
      var last := inline[|inline| - 1];
      var rest := ApplicableInline(inline[..|inline| - 1], t);
      if InlineApplies(last, t) then rest + [NamedPolicy(last.name, last.policy)] else rest
  }

  function ApplicableGlobals(globals: seq<NamedPolicy>, t: Target): seq<NamedPolicy> {
    if globals == [] then [] else
      var last := globals[|globals| - 1];
      var rest := ApplicableGlobals(globals[..|globals| - 1], t);
      if GlobalApplies(last, t) then rest + [last] else rest
  }

  function PoliciesFor(inline: seq<Inline>, globals: seq<NamedPolicy>, t: Target): seq<NamedPolicy> {
    ApplicableInline(inline, t) + ApplicableGlobals(globals, t)
  }

  method SelectPolicies(t: Target, inline: seq<Inline>, globals: seq<NamedPolicy>) returns (out: seq<NamedPolicy>)
    ensures out == PoliciesFor(inline, globals, t)
  {
    out := [];
    for i := 0 to |inline|
      invariant out == ApplicableInline(inline[..i], t)
    {
      assert inline[..i + 1][..i] == inline[..i];
      if InlineApplies(inline[i], t) {
        out := out + [NamedPolicy(inline[i].name, inline[i].policy)];
      }
    }
    assert inline[..|inline|] == inline;
    for i := 0 to |globals|
      invariant out == ApplicableInline(inline, t) + ApplicableGlobals(globals[..i], t)
    {
      assert globals[..i + 1][..i] == globals[..i];
      if GlobalApplies(globals[i], t) {
        out := out + [globals[i]];
      }
    }
    assert globals[..|globals|] == globals;
  }

  function OnlyEnforcing(policies: seq<NamedPolicy>, dir: Direction): seq<NamedPolicy> {
    if policies == [] then [] else
      var last := policies[|policies| - 1];
      var rest := OnlyEnforcing(policies[..|policies| - 1], dir);
      if Enforces(last.policy, dir) then rest + [last] else rest
  }

  /** The policies that isolate a container in a direction. */
  function Enforcing(cfg: Config, inline: seq<Inline>, t: Target, dir: Direction): seq<NamedPolicy> {
    OnlyEnforcing(PoliciesFor(inline, cfg.globals, t), dir)
  }

  // ----- the compile loop -----

  function CompileDir(cfg: Config, s: Snapshot, inline: seq<Inline>, t: Target, dir: Direction, rs: Rules): Rules {
    var policies := Enforcing(cfg, inline, t, dir);
    if policies == [] then rs else Append(rs, dir, BlockOut(Job(s, t, dir, cfg.flowlog), policies, rs.sets))
  }

  /** A container without addresses leaves no rules. */
  function CompileTarget(cfg: Config, s: Snapshot, inline: seq<Inline>, t: Target, rs: Rules): Rules {
    if TargetIps(t) == {} then rs
    else CompileDir(cfg, s, inline, t, Ingress, CompileDir(cfg, s, inline, t, Egress, rs))
  }

  function CompileTargets(cfg: Config, s: Snapshot, inline: seq<Inline>, done: seq<Target>): Rules {
    if done == [] then NO_RULES
    else CompileTarget(cfg, s, inline, done[|done| - 1], CompileTargets(cfg, s, inline, done[..|done| - 1]))
  }

  function SnapshotOf(cfg: Config, targets: seq<Target>): (s: Snapshot)
    ensures Indexed(s)
  {
    Snapshot(targets, BuildIndex(targets), cfg.readIp)
  }

  function Compiled(cfg: Config, targets: seq<Target>): Rules {
    CompileTargets(cfg, SnapshotOf(cfg, targets), InlineOf(cfg, targets), targets)
  }

  /** The body of the loop over containers. */
  method EmitTarget(cfg: Config, snap: Snapshot, inline: seq<Inline>, t: Target, rs: Ruleset)
    modifies rs
    ensures rs.Value() == CompileTarget(cfg, snap, inline, t, old(rs.Value()))
  {
    hide BlockOut, TargetIps, PoliciesFor;
    if TargetIps(t) == {} {
      return;
    }
    var policies := SelectPolicies(t, inline, cfg.globals);
    var egress := OnlyEnforcing(policies, Egress);
    if egress != [] {
      EmitBlock(Job(snap, t, Egress, cfg.flowlog), egress, rs);
    }
    var ingress := OnlyEnforcing(policies, Ingress);
    if ingress != [] {
      EmitBlock(Job(snap, t, Ingress, cfg.flowlog), ingress, rs);
    }
  }

  method CompileRuleset(cfg: Config, targets: seq<Target>) returns (rs: Ruleset)
    ensures fresh(rs) && rs.Value() == Compiled(cfg, targets)
  {
    hide CompileTarget;
    var netIps := IndexTargets(targets);
    var snap := Snapshot(targets, netIps, cfg.readIp);
    var inline := CollectInline(cfg, targets);
    rs := new Ruleset();
    for i := 0 to |targets|
      invariant fresh(rs)
      invariant rs.Value() == CompileTargets(cfg, snap, inline, targets[..i])
    {
      assert targets[..i + 1][..i] == targets[..i];
      EmitTarget(cfg, snap, inline, targets[i], rs);
    }
    assert targets[..|targets|] == targets;
  }

  // ----- what policies mean for a packet -----

  /** The first container in list order that has the address and is isolated in the direction. */
  function Owner(cfg: Config, inline: seq<Inline>, targets: seq<Target>, dir: Direction, a: IpAddr): Option<Target> {
    if targets == [] then None else
      var before := Owner(cfg, inline, targets[..|targets| - 1], dir, a);
      var last := targets[|targets| - 1];
      if before.Some? then before
      else if a in TargetIps(last) && Enforcing(cfg, inline, last, dir) != [] then Some(last)
      else None
  }

  /** The owner's enforcing policies permit the packet; nobody's address is unrestricted. */
  predicate OwnerPermits(cfg: Config, s: Snapshot, inline: seq<Inline>, targets: seq<Target>, dir: Direction,
      p: Packet) {
    var owner := Owner(cfg, inline, targets, dir, LocalAddr(p, dir));
    owner.Some? ==> Permits(s, Enforcing(cfg, inline, owner.value, dir), dir, p)
  }

  /** One direction of the dual check. */
  predicate Clears(cfg: Config, targets: seq<Target>, dir: Direction, p: Packet) {
    OwnerPermits(cfg, SnapshotOf(cfg, targets), InlineOf(cfg, targets), targets, dir, p)
  }

  /** The policies' verdict on a packet: replies pass, anything else must clear both directions. */
  predicate Allowed(cfg: Config, targets: seq<Target>, p: Packet) {
    ReplyTraffic(p) || (Clears(cfg, targets, Egress, p) && Clears(cfg, targets, Ingress, p))
  }

  function ChainVerdict(
      cfg: Config, s: Snapshot, inline: seq<Inline>, targets: seq<Target>, dir: Direction, p: Packet): Option<Verdict> {
    var owner := Owner(cfg, inline, targets, dir, LocalAddr(p, dir));
    if owner.None? then None
    else if Permits(s, Enforcing(cfg, inline, owner.value, dir), dir, p) then Some(Return)
    else Some(Verdict.Drop)
  }

  // ----- the compiled chains mean what the policies mean -----

  /** One container's say on a packet in one direction. */
  function TargetVerdict(
      cfg: Config, s: Snapshot, inline: seq<Inline>, t: Target, dir: Direction, p: Packet,
      hidden: bool): Option<Verdict> {
    var policies := Enforcing(cfg, inline, t, dir);
    if LocalAddr(p, dir) !in TargetIps(t) || policies == [] then None
    else BlockVerdict(s, policies, dir, p, hidden)
  }

  /** The first container in list order that has a say. */
  function FirstVerdict(
      cfg: Config, s: Snapshot, inline: seq<Inline>, targets: seq<Target>, dir: Direction, p: Packet,
      hidden: bool): Option<Verdict> {
    if targets == [] then None else
      var before := FirstVerdict(cfg, s, inline, targets[..|targets| - 1], dir, p, hidden);
      if before.Some? then before else TargetVerdict(cfg, s, inline, targets[|targets| - 1], dir, p, hidden)
  }

  lemma CompileDirMeaning(
      cfg: Config, s: Snapshot, inline: seq<Inline>, t: Target, dir: Direction, rs: Rules,
      final: SetTable, p: Packet, logging: bool)
    requires Indexed(s)
    requires Extends(CompileDir(cfg, s, inline, t, dir, rs).sets, final)
    ensures var after := CompileDir(cfg, s, inline, t, dir, rs);
            var first := FirstMatch(ChainOf(rs, dir), final, p, logging);
            && Extends(rs.sets, after.sets)
            && (forall other :: other != dir ==> ChainOf(after, other) == ChainOf(rs, other))
            && FirstMatch(ChainOf(after, dir), final, p, logging)
               == if first.Some? then first else TargetVerdict(cfg, s, inline, t, dir, p,
                                                               Hidden(cfg.flowlog, p, logging))
  {
    hide BlockVerdict, FirstMatch, BlockOut;
    var policies := Enforcing(cfg, inline, t, dir);
    if policies != [] {
      var job := Job(s, t, dir, cfg.flowlog);
      BlockMeaning(job, policies, rs.sets, final, p, logging);
      FirstMatchAppend(ChainOf(rs, dir), BlockOut(job, policies, rs.sets).1, final, p, logging);
    }
  }

  lemma CompileTargetMeaning(
      cfg: Config, s: Snapshot, inline: seq<Inline>, t: Target, rs: Rules,
      final: SetTable, dir: Direction, p: Packet, logging: bool)
    requires Indexed(s)
    requires Extends(CompileTarget(cfg, s, inline, t, rs).sets, final)
    ensures var after := CompileTarget(cfg, s, inline, t, rs);
            var first := FirstMatch(ChainOf(rs, dir), final, p, logging);
            && Extends(rs.sets, after.sets)
            && FirstMatch(ChainOf(after, dir), final, p, logging)
               == if first.Some? then first else TargetVerdict(cfg, s, inline, t, dir, p,
                                                               Hidden(cfg.flowlog, p, logging))
  {
    hide BlockVerdict, FirstMatch, CompileDir, Enforcing;
    if TargetIps(t) != {} {
      var rs1 := CompileDir(cfg, s, inline, t, Egress, rs);
      var rs2 := CompileDir(cfg, s, inline, t, Ingress, rs1);
      CompileDirMeaning(cfg, s, inline, t, Ingress, rs1, final, p, logging);
      ExtendsTransitive(rs1.sets, rs2.sets, final);
      CompileDirMeaning(cfg, s, inline, t, Egress, rs, final, p, logging);
      ExtendsTransitive(rs.sets, rs1.sets, rs2.sets);
    }
  }

  lemma {:induction false} CompileTargetsMeaning(
      cfg: Config, s: Snapshot, inline: seq<Inline>, done: seq<Target>, final: SetTable, dir: Direction, p: Packet,
      logging: bool)
    requires Indexed(s)
    requires Extends(CompileTargets(cfg, s, inline, done).sets, final)
    ensures FirstMatch(ChainOf(CompileTargets(cfg, s, inline, done), dir), final, p, logging)
         == FirstVerdict(cfg, s, inline, done, dir, p, Hidden(cfg.flowlog, p, logging))
  {
    hide CompileTarget, TargetVerdict, Hidden;
    if done == [] {
    } else {
      var init, t := done[..|done| - 1], done[|done| - 1];
      var rs := CompileTargets(cfg, s, inline, init);
      CompileTargetMeaning(cfg, s, inline, t, rs, final, dir, p, logging);
      ExtendsTransitive(rs.sets, CompileTargets(cfg, s, inline, done).sets, final);
      CompileTargetsMeaning(cfg, s, inline, init, final, dir, p, logging);
    }
  }

  /** On a packet that is not hidden, the first container with a say is the first isolated owner. */
  lemma {:induction false} FirstVerdictIsOwners(
      cfg: Config, s: Snapshot, inline: seq<Inline>, targets: seq<Target>, dir: Direction, p: Packet)
    ensures FirstVerdict(cfg, s, inline, targets, dir, p, false) == ChainVerdict(cfg, s, inline, targets, dir, p)
  {
    hide BlockVerdict, Permits, Enforcing, TargetIps;
    if targets == [] {
    } else {
      var init, t := targets[..|targets| - 1], targets[|targets| - 1];
      FirstVerdictIsOwners(cfg, s, inline, init, dir, p);
      BlockVerdictVisible(s, Enforcing(cfg, inline, t, dir), dir, p);
    }
  }

  /** The verdict of a direction on any packet, hidden or not. */
  function DirectionVerdict(cfg: Config, targets: seq<Target>, dir: Direction, p: Packet,
      logging: bool): Option<Verdict> {
    FirstVerdict(cfg, SnapshotOf(cfg, targets), InlineOf(cfg, targets), targets, dir, p,
                 Hidden(cfg.flowlog, p, logging))
  }

  /** First-match over a compiled chain is, for every packet, the verdict of the first container with a say. */
  lemma CompiledChainVerdict(cfg: Config, targets: seq<Target>, dir: Direction, p: Packet, logging: bool)
    ensures var rs := Compiled(cfg, targets);
            FirstMatch(ChainOf(rs, dir), rs.sets, p, logging) == DirectionVerdict(cfg, targets, dir, p, logging)
  {
    hide FirstMatch, FirstVerdict, CompileTargets, Hidden;
    CompileTargetsMeaning(cfg, SnapshotOf(cfg, targets), InlineOf(cfg, targets), targets,
                          Compiled(cfg, targets).sets, dir, p, logging);
  }

  /** First-match over a compiled chain is the verdict of the first isolated owner's policies. */
  lemma CompiledChainMeaning(cfg: Config, targets: seq<Target>, dir: Direction, p: Packet, logging: bool)
    requires !Hidden(cfg.flowlog, p, logging)
    ensures var rs := Compiled(cfg, targets);
            var verdict := FirstMatch(ChainOf(rs, dir), rs.sets, p, logging);
            && (verdict != Some(Verdict.Drop) <==> Clears(cfg, targets, dir, p))
            && verdict == ChainVerdict(cfg, SnapshotOf(cfg, targets), InlineOf(cfg, targets), targets, dir, p)
  {
    hide FirstMatch, FirstVerdict, Compiled, Hidden, Permits, Enforcing;
    CompiledChainVerdict(cfg, targets, dir, p, logging);
    FirstVerdictIsOwners(cfg, SnapshotOf(cfg, targets), InlineOf(cfg, targets), targets, dir, p);
  }

  /** Every rule refers only to registered sets and only to valid blocks. */
  predicate Sound(rs: Rules) {
    && (forall r :: r in rs.egress ==> WellFormed(r) && ClosedRule(r, rs.sets))
    && (forall r :: r in rs.ingress ==> WellFormed(r) && ClosedRule(r, rs.sets))
  }

  lemma CompileDirSound(cfg: Config, s: Snapshot, inline: seq<Inline>, t: Target, dir: Direction, rs: Rules)
    requires Indexed(s) && Sound(rs)
    ensures Sound(CompileDir(cfg, s, inline, t, dir, rs))
    ensures Extends(rs.sets, CompileDir(cfg, s, inline, t, dir, rs).sets)
  {
    hide BlockOut, WellFormed, Enforcing;
    var policies := Enforcing(cfg, inline, t, dir);
    if policies != [] {
      BlockSound(Job(s, t, dir, cfg.flowlog), policies, rs.sets);
    }
  }

  lemma {:induction false} CompileTargetsSound(cfg: Config, s: Snapshot, inline: seq<Inline>, done: seq<Target>)
    requires Indexed(s)
    ensures Sound(CompileTargets(cfg, s, inline, done))
  {
    if done == [] {
    } else {
      var t := done[|done| - 1];
      var rs := CompileTargets(cfg, s, inline, done[..|done| - 1]);
      CompileTargetsSound(cfg, s, inline, done[..|done| - 1]);
      CompileDirSound(cfg, s, inline, t, Egress, rs);
      CompileDirSound(cfg, s, inline, t, Ingress, CompileDir(cfg, s, inline, t, Egress, rs));
    }
  }

  /** Compiling never leaves a dangling set reference or an invalid block. */
  lemma CompiledSound(cfg: Config, targets: seq<Target>)
    ensures Sound(Compiled(cfg, targets))
  {
    CompileTargetsSound(cfg, SnapshotOf(cfg, targets), InlineOf(cfg, targets), targets);
  }

  // ----- configurations without label policies -----

  const NO_READER: IpReader := _ => None

  const NO_POLICIES: string -> Option<NetworkPolicy> := _ => None

  lemma {:induction false} NothingRead(cfg: Config, t: Target, labels: seq<(string, string)>)
    requires cfg.readPolicy == NO_POLICIES
    ensures ReadLabels(cfg, t, labels) == []
  {
    if labels == [] {
    } else {
      NothingRead(cfg, t, labels[..|labels| - 1]);
    }
  }

  lemma {:induction false} NoLabelPolicies(cfg: Config, targets: seq<Target>)
    requires cfg.readPolicy == NO_POLICIES
    ensures InlineOf(cfg, targets) == []
  {
    if targets == [] {
    } else {
      NoLabelPolicies(cfg, targets[..|targets| - 1]);
      NothingRead(cfg, targets[|targets| - 1], InlinePolicies(cfg, targets[|targets| - 1]));
    }
  }

  /** With one global policy that applies, it alone isolates, in the directions it enforces. */
  lemma OneGlobalEnforces(cfg: Config, g: NamedPolicy, t: Target, dir: Direction)
    requires cfg.globals == [g] && GlobalApplies(g, t)
    ensures Enforcing(cfg, [], t, dir) == if Enforces(g.policy, dir) then [g] else []
  {
    assert [g][..0] == [];
    assert ApplicableGlobals([], t) == [] && ApplicableGlobals([g], t) == [g];
    assert PoliciesFor([], [g], t) == [g];
    assert OnlyEnforcing([], dir) == [];
  }

  // ----- the flow log's address index -----

  function IndexAddrs(index: map<IpAddr, string>, addrs: seq<IpAddr>, name: string): map<IpAddr, string> {
    if addrs == [] then index
    else IndexAddrs(index, addrs[..|addrs| - 1], name)[addrs[|addrs| - 1] := name]
  }

  function IndexNetworks(index: map<IpAddr, string>, t: Target, names: seq<string>): map<IpAddr, string>
    requires forall k :: k in names ==> k in t.networks
  {
    if names == [] then index
    else IndexAddrs(IndexNetworks(index, t, names[..|names| - 1]), t.networks[names[|names| - 1]], t.name)
  }

  function IpIndex(targets: seq<Target>): map<IpAddr, string> {
    if targets == [] then map[] else
      var t := targets[|targets| - 1];
      IndexNetworks(IpIndex(targets[..|targets| - 1]), t, AscendingStrings(t.networks.Keys))
  }

  method AddAddrs(index: map<IpAddr, string>, addrs: seq<IpAddr>, name: string) returns (after: map<IpAddr, string>)
    ensures after == IndexAddrs(index, addrs, name)
  {
    after := index;
    for k := 0 to |addrs|
      invariant after == IndexAddrs(index, addrs[..k], name)
    {
      assert addrs[..k + 1][..k] == addrs[..k];
      after := after[addrs[k] := name];
    }
    assert addrs[..|addrs|] == addrs;
  }

  method AddTarget(index: map<IpAddr, string>, t: Target, names: seq<string>) returns (after: map<IpAddr, string>)
    requires forall k :: k in names ==> k in t.networks
    ensures after == IndexNetworks(index, t, names)
  {
    after := index;
    for j := 0 to |names|
      invariant after == IndexNetworks(index, t, names[..j])
    {
      assert names[..j + 1][..j] == names[..j];
      after := AddAddrs(after, t.networks[names[j]], t.name);
    }
    assert names[..|names|] == names;
  }

  method BuildIpIndex(targets: seq<Target>) returns (index: map<IpAddr, string>)
    ensures index == IpIndex(targets)
  {
    index := map[];
    for i := 0 to |targets|
      invariant index == IpIndex(targets[..i])
    {
      assert targets[..i + 1][..i] == targets[..i];
      index := AddTarget(index, targets[i], AscendingStrings(targets[i].networks.Keys));
    }
    assert targets[..|targets|] == targets;
  }

  lemma {:induction false} IndexAddrsAt(index: map<IpAddr, string>, addrs: seq<IpAddr>, name: string, a: IpAddr)
    ensures var after := IndexAddrs(index, addrs, name);
            if a in addrs then a in after && after[a] == name
            else (a in after <==> a in index) && (a in index ==> after[a] == index[a])
  {
    if addrs == [] {
    } else {
      IndexAddrsAt(index, addrs[..|addrs| - 1], name, a);
    }
  }

  lemma {:induction false} IndexNetworksAt(index: map<IpAddr, string>, t: Target, names: seq<string>, a: IpAddr)
    requires forall k :: k in names ==> k in t.networks
    ensures var after := IndexNetworks(index, t, names);
            if exists n :: n in names && a in t.networks[n] then a in after && after[a] == t.name
            else (a in after <==> a in index) && (a in index ==> after[a] == index[a])
  {
    if names == [] {
    } else {
      var init, last := names[..|names| - 1], names[|names| - 1];
      assert names == init + [last];
      IndexNetworksAt(index, t, init, a);
      IndexAddrsAt(IndexNetworks(index, t, init), t.networks[last], t.name, a);
    }
  }

  /** The name of the last container in list order that has the address. */
  function LastHolder(targets: seq<Target>, a: IpAddr): Option<string> {
    if targets == [] then None
    else if a in TargetIps(targets[|targets| - 1]) then Some(targets[|targets| - 1].name)
    else LastHolder(targets[..|targets| - 1], a)
  }

  lemma HoldsByNetwork(t: Target, a: IpAddr)
    ensures a in TargetIps(t) <==> exists n :: n in AscendingStrings(t.networks.Keys) && a in t.networks[n]
  {}

  /** The index names, per address, the last container that has it (the verdict goes by the first). */
  lemma {:induction false} IpIndexNamesLastHolder(targets: seq<Target>, a: IpAddr)
    ensures LastHolder(targets, a) == if a in IpIndex(targets) then Some(IpIndex(targets)[a]) else None
  {
    if targets == [] {
    } else {
      var init, t := targets[..|targets| - 1], targets[|targets| - 1];
      IpIndexNamesLastHolder(init, a);
      IndexNetworksAt(IpIndex(init), t, AscendingStrings(t.networks.Keys), a);
      HoldsByNetwork(t, a);
    }
  }
}
