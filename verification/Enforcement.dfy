/** The programmed table does what the documents say. */
module Enforcement {
  import opened Common
  import opened Address
  import opened Policy
  import opened Packets
  import opened Compile
  import opened Kernel
  import opened Apply
  import opened EndToEnd
  import opened Expand
  import opened Documented
  import opened Agreement
  import opened Isolation

  /** Main theorem: whatever table there was, an apply leaves one that accepts exactly the packets the
      documents let pass. With flow logging on this speaks of NEW, ESTABLISHED and RELATED packets. */
  lemma TableDoesWhatIsDocumented(cfg: Config, targets: seq<Target>, group: Option<u16>, k: Kernel, p: Packet)
    requires p.src.V4? == p.dst.V4?
    requires cfg.flowlog && group.Some? ==> p.ct == New || p.ct == Established || p.ct == Related
    requires !Clash(Compiled(cfg, targets).sets)
    ensures Buildable(Compiled(cfg, targets), group)
    ensures var (after, accepted) := Commit(BatchOf(Compiled(cfg, targets), group), k);
            accepted && (Accepts(after, p) <==> Passes(cfg, targets, p))
  {
    hide Accepts, Commit, BatchOf, Compiled, Allowed, Passes, Clash;
    TableEnforcesPolicies(cfg, targets, group, k, p);
    MeaningAgrees(cfg, targets, p);
  }

  /** With one allow rule of one port for everybody, a new packet from a container passes exactly
      when it is of that port's protocol, 6 or 17, and in its range. */
  lemma OnePortOpens(
      cfg: Config, targets: seq<Target>, group: Option<u16>, k: Kernel, g: NamedPolicy, port: Port, t: Target,
      p: Packet)
    requires OnePolicy(cfg, g)
    requires g.policy.policyTypes == [Egress] && g.policy.egress == [PolicyRule([], [port], Allow, None)]
    requires t in targets && HasAddress(t, p.src) && p.src.V4? == p.dst.V4? && p.ct == New
    requires !Clash(Compiled(cfg, targets).sets)
    ensures Buildable(Compiled(cfg, targets), group)
    ensures var (after, accepted) := Commit(BatchOf(Compiled(cfg, targets), group), k);
            && accepted
            && (port.protocol == Tcp ==> (Accepts(after, p) <==> p.l4proto == 6 && InPortRange(port, p.dport)))
            && (port.protocol == Udp ==> (Accepts(after, p) <==> p.l4proto == 17 && InPortRange(port, p.dport)))
  {
    hide Commit, Accepts, Compiled, BatchOf, Clash, Buildable;
    TableDoesWhatIsDocumented(cfg, targets, group, k, p);
    OnePortPasses(cfg, targets, g, port, t, p);
  }

  lemma OnePortPasses(cfg: Config, targets: seq<Target>, g: NamedPolicy, port: Port, t: Target, p: Packet)
    requires OnePolicy(cfg, g)
    requires g.policy.policyTypes == [Egress] && g.policy.egress == [PolicyRule([], [port], Allow, None)]
    requires t in targets && HasAddress(t, p.src) && p.ct == New
    ensures Passes(cfg, targets, p) <==> PortIs(port, p)
  {
    hide HasAddress, PortIs, PeerIs;
    forall u, dir
      ensures forall h :: IsolatedBy(cfg, targets, u, dir, h) <==> h == g && Isolates(g.policy, dir)
      ensures IsIsolated(cfg, targets, u, dir) <==> Isolates(g.policy, dir)
    {
      OnePolicyIsolates(cfg, targets, u, dir, g);
    }
    hide IsolatedBy, IsIsolated, OnePolicy;
    assert HolderPermits(cfg, targets, Ingress, p);
    var r := PolicyRule([], [port], Allow, None);
    assert port in r.ports && r in g.policy.egress;
    assert PolicySays(cfg.readIp, targets, g.policy, Egress, Allow, p) <==> PortIs(port, p);
    assert !PolicySays(cfg.readIp, targets, g.policy, Egress, RuleAction.Drop, p);
    forall u
      ensures Says(cfg, targets, u, Egress, Allow, p) <==> PortIs(port, p)
      ensures !Says(cfg, targets, u, Egress, RuleAction.Drop, p)
    {
      assert IsolatedBy(cfg, targets, u, Egress, g) && IsIsolated(cfg, targets, u, Egress);
    }
    hide Says, PolicySays;
    assert Isolates(g.policy, Egress) && IsIsolated(cfg, targets, t, Egress);
    assert Holds(cfg, targets, Egress, t, p.src);
    var n :| 0 <= n < |targets| && targets[n] == t;
    var i := FirstAmong(cfg, targets, Egress, n, p.src);
  }

  lemma {:induction false} FirstAmong(cfg: Config, targets: seq<Target>, dir: Direction, n: nat, a: IpAddr)
    returns (i: nat)
    requires n < |targets| && Holds(cfg, targets, dir, targets[n], a)
    ensures FirstHolder(cfg, targets, dir, i, a)
    decreases n
  {
    hide Holds;
    if j :| 0 <= j < n && Holds(cfg, targets, dir, targets[j], a) {
      i := FirstAmong(cfg, targets, dir, j, a);
    } else {
      i := n;
    }
  }
}
