/** What the compiler means by a snapshot's policies is what the documents say of it. */
module Agreement {
  import opened Common
  import opened Address
  import opened Policy
  import opened Packets
  import opened Resolve
  import opened Emit
  import opened Compile
  import opened EndToEnd
  import opened Laws
  import opened Documented

  lemma SelectsAgree(selector: Labels, labels: Labels)
    ensures Selects(selector, labels) <==> SelectorMatches(selector, labels)
  {
    if Selects(selector, labels) {
      forall k | k in selector ensures k in labels && labels[k] == selector[k] {
        assert (k, selector[k]) in selector.Items;
      }
    }
  }

  lemma CarriesAgree(cfg: Config, targets: seq<Target>, c: Target, g: NamedPolicy)
    ensures Inline(c, g.name, g.policy) in InlineOf(cfg, targets) <==> c in targets && Carries(cfg, c, g)
  {
    var key := cfg.labelPrefix + ".networkpolicy." + g.name;
    assert cfg.labelPrefix + "." + "networkpolicy" + "." + g.name == key;
    InInline(cfg, targets, Inline(c, g.name, g.policy));
    forall text
      ensures (g.name, text) in InlinePolicies(cfg, c) <==> (key, text) in c.labels.Items
    {
      PolicyLabelsExact(cfg.labelPrefix, "networkpolicy", c.labels, g.name, text);
    }
  }

  lemma IsolatesAgree(np: NetworkPolicy, dir: Direction)
    ensures Isolates(np, dir) <==> Enforces(np, dir)
  {}

  lemma InlineGoverns(cfg: Config, targets: seq<Target>, t: Target, g: NamedPolicy)
    ensures (exists i :: i in InlineOf(cfg, targets) && InlineApplies(i, t) && g == NamedPolicy(i.name, i.policy))
       <==> (exists c :: c in targets && Carries(cfg, c, g)
                         && InlineApplies(Inline(c, g.name, g.policy), t))
  {
    hide Carries, InlineApplies;
    forall c ensures Inline(c, g.name, g.policy) in InlineOf(cfg, targets) <==> c in targets && Carries(cfg, c, g) {
      CarriesAgree(cfg, targets, c, g);
    }
    if i :| i in InlineOf(cfg, targets) && InlineApplies(i, t) && g == NamedPolicy(i.name, i.policy) {
      assert i == Inline(i.carrier, g.name, g.policy);
    }
  }

  /** The policies that enforce a direction on a container are those the document says isolate it. */
  lemma EnforcingExactly(cfg: Config, targets: seq<Target>, t: Target, dir: Direction, g: NamedPolicy)
    ensures g in Enforcing(cfg, InlineOf(cfg, targets), t, dir) <==> IsolatedBy(cfg, targets, t, dir, g)
  {
    hide Enforcing, Carries, Isolates, Enforces, InlineOf, SelectorMatches, Selects;
    InEnforcing(cfg, InlineOf(cfg, targets), t, dir, g);
    InlineGoverns(cfg, targets, t, g);
    IsolatesAgree(g.policy, dir);
    if g.policy.endpointSelector.Some? { SelectsAgree(g.policy.endpointSelector.value, t.labels); }
  }

  lemma IsolatedExactly(cfg: Config, targets: seq<Target>, t: Target, dir: Direction)
    ensures Isolated(cfg, targets, t, dir) <==> IsIsolated(cfg, targets, t, dir)
  {
    hide Enforcing, IsolatedBy, InlineOf;
    var policies := Enforcing(cfg, InlineOf(cfg, targets), t, dir);
    if policies != [] { EnforcingExactly(cfg, targets, t, dir, policies[0]); }
    if g :| IsolatedBy(cfg, targets, t, dir, g) { EnforcingExactly(cfg, targets, t, dir, g); }
  }

  lemma InTextAgrees(readIp: IpReader, text: string, a: IpAddr)
    ensures InText(readIp, text, a)
       <==> ParseCidr(readIp, text).Ok? && InBlock(ParseCidr(readIp, text).value, a)
  {
    hide Spells, AgreeOn, InBlock, ParseCidr;
    if ParseCidr(readIp, text).Ok? {
      var c := ParseCidr(readIp, text).value;
      CidrExactly(readIp, text, c);
      BlockIsFirstBits(c, a);
    }
    if addr, digits, c :| Spells(readIp, text, addr, digits, c) && AgreeOn(c.addr, a, c.prefix) {
      CidrExactly(readIp, text, c);
      BlockIsFirstBits(c, a);
    }
  }

  lemma FitsAgree(q: Peer, t: Target)
    ensures Fits(q, t) <==> Identifies(q, t)
  {
    hide Selects, SelectorMatches;
    if q.selector.Some? { SelectsAgree(q.selector.value, t.labels); }
  }

  lemma PeerAgrees(cfg: Config, targets: seq<Target>, q: Peer, a: IpAddr)
    ensures PeerIs(cfg.readIp, targets, q, a) <==> PeerSelects(SnapshotOf(cfg, targets), q, a)
  {
    hide InText, ParseCidr, InBlock, Fits, Identifies, BuildIndex;
    if q.cidr.Some? {
      InTextAgrees(cfg.readIp, q.cidr.value, a);
      forall e | e in q.except
        ensures InText(cfg.readIp, e, a) <==> ParseCidr(cfg.readIp, e).Ok? && InBlock(ParseCidr(cfg.readIp, e).value, a)
      {
        InTextAgrees(cfg.readIp, e, a);
      }
    } else {
      forall t ensures Fits(q, t) <==> Identifies(q, t) {
        FitsAgree(q, t);
      }
      assert forall t :: HasAddress(t, a) <==> a in TargetIps(t);
    }
  }

  lemma TakesAgrees(cfg: Config, targets: seq<Target>, r: PolicyRule, far: IpAddr, p: Packet)
    ensures Takes(cfg.readIp, targets, r, far, p) <==> RuleCovers(SnapshotOf(cfg, targets), r, far, p)
  {
    hide PeerIs, PeerSelects, SnapshotOf;
    forall q ensures PeerIs(cfg.readIp, targets, q, far) <==> PeerSelects(SnapshotOf(cfg, targets), q, far) {
      PeerAgrees(cfg, targets, q, far);
    }
    assert forall port :: PortIs(port, p) <==> PortAdmits(port, p);
  }

  lemma PolicySaysAgrees(
      cfg: Config, targets: seq<Target>, np: NetworkPolicy, dir: Direction, action: RuleAction, p: Packet)
    ensures PolicySays(cfg.readIp, targets, np, dir, action, p)
       <==> SomeRuleCovers(SnapshotOf(cfg, targets), RulesOf(np, dir), action, PeerAddr(p, dir), p)
  {
    hide Takes, RuleCovers, SnapshotOf;
    forall r: PolicyRule
      ensures Takes(cfg.readIp, targets, r, PeerAddr(p, dir), p)
         <==> RuleCovers(SnapshotOf(cfg, targets), r, PeerAddr(p, dir), p)
    {
      TakesAgrees(cfg, targets, r, PeerAddr(p, dir), p);
    }
  }

  lemma SaysAgrees(cfg: Config, targets: seq<Target>, t: Target, dir: Direction, action: RuleAction, p: Packet)
    ensures Says(cfg, targets, t, dir, action, p)
       <==> SomePolicyCovers(SnapshotOf(cfg, targets), Enforcing(cfg, InlineOf(cfg, targets), t, dir), dir, action,
                             PeerAddr(p, dir), p)
  {
    hide PolicySays, SomeRuleCovers, SnapshotOf, Enforcing, IsolatedBy, InlineOf;
    forall g: NamedPolicy
      ensures g in Enforcing(cfg, InlineOf(cfg, targets), t, dir) <==> IsolatedBy(cfg, targets, t, dir, g)
      ensures PolicySays(cfg.readIp, targets, g.policy, dir, action, p)
         <==> SomeRuleCovers(SnapshotOf(cfg, targets), RulesOf(g.policy, dir), action, PeerAddr(p, dir), p)
    {
      EnforcingExactly(cfg, targets, t, dir, g);
      PolicySaysAgrees(cfg, targets, g.policy, dir, action, p);
    }
  }

  /** Among the first `n` containers, the owner is the first holder. */
  lemma {:induction false} OwnerIsFirst(cfg: Config, targets: seq<Target>, n: nat, dir: Direction, a: IpAddr)
    requires n <= |targets|
    ensures match Owner(cfg, InlineOf(cfg, targets), targets[..n], dir, a)
            case None => forall j | 0 <= j < n :: !Holds(cfg, targets, dir, targets[j], a)
            case Some(t) => exists i: nat :: i < n && FirstHolder(cfg, targets, dir, i, a) && targets[i] == t
  {
    hide Enforcing, Holds, InlineOf, TargetIps;
    if n == 0 {
    } else {
      OwnerIsFirst(cfg, targets, n - 1, dir, a);
      assert targets[..n][..n - 1] == targets[..n - 1];
      HoldsExactly(cfg, targets, targets[n - 1], dir, a);
      if Owner(cfg, InlineOf(cfg, targets), targets[..n - 1], dir, a).None?
        && Holds(cfg, targets, dir, targets[n - 1], a)
      {
        assert FirstHolder(cfg, targets, dir, n - 1, a);
      }
    }
  }

  lemma HoldsExactly(cfg: Config, targets: seq<Target>, t: Target, dir: Direction, a: IpAddr)
    ensures Holds(cfg, targets, dir, t, a)
       <==> a in TargetIps(t) && Enforcing(cfg, InlineOf(cfg, targets), t, dir) != []
  {
    hide Enforcing, IsIsolated, InlineOf;
    IsolatedExactly(cfg, targets, t, dir);
  }

  lemma OneFirstHolder(cfg: Config, targets: seq<Target>, dir: Direction, i: nat, j: nat, a: IpAddr)
    requires FirstHolder(cfg, targets, dir, i, a) && FirstHolder(cfg, targets, dir, j, a)
    ensures i == j
  {
    hide Holds;
  }

  lemma ClearsAgrees(cfg: Config, targets: seq<Target>, dir: Direction, p: Packet)
    ensures Clears(cfg, targets, dir, p) <==> HolderPermits(cfg, targets, dir, p)
  {
    hide Says, SomePolicyCovers, Holds, Enforcing, SnapshotOf, Owner, InlineOf;
    var a := Near(p, dir);
    OwnerIsFirst(cfg, targets, |targets|, dir, a);
    assert targets[..|targets|] == targets;
    var owner := Owner(cfg, InlineOf(cfg, targets), targets, dir, a);
    if owner.Some? {
      var i: nat :| FirstHolder(cfg, targets, dir, i, a) && targets[i] == owner.value;
      forall j: nat | FirstHolder(cfg, targets, dir, j, a) ensures i == j {
        OneFirstHolder(cfg, targets, dir, i, j, a);
      }
      SaysAgrees(cfg, targets, owner.value, dir, Allow, p);
      SaysAgrees(cfg, targets, owner.value, dir, RuleAction.Drop, p);
    }
  }

  /** The compiled meaning of a snapshot's policies is the documented one. */
  lemma MeaningAgrees(cfg: Config, targets: seq<Target>, p: Packet)
    ensures Allowed(cfg, targets, p) <==> Passes(cfg, targets, p)
  {
    hide Clears, HolderPermits;
    ClearsAgrees(cfg, targets, Egress, p);
    ClearsAgrees(cfg, targets, Ingress, p);
  }
}
