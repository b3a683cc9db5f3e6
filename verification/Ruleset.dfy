/** The compiled desired state: named sets plus the ordered rules of two chains, and what they mean. */
module RulesetIR {
  import opened Common
  import opened Address
  import opened Policy
  import opened Packets

  type SetTable = map<string, set<IpAddr>>

  datatype Match =
    | Any
    | Addrs(addrs: set<IpAddr>)
    | Named(name: string)
    | Block(cidr: Cidr, except: seq<Cidr>)

  datatype Verdict = Return | Drop

  datatype Rule = Rule(
    comment: string,
    saddr: Match,
    daddr: Match,
    ports: seq<Port>,
    verdict: Verdict,
    logPrefix: Option<string>)

  datatype Rules = Rules(sets: SetTable, egress: seq<Rule>, ingress: seq<Rule>)

  const NO_RULES := Rules(map[], [], [])

  function ChainOf(rs: Rules, dir: Direction): seq<Rule> {
    if dir == Egress then rs.egress else rs.ingress
  }

  function WithChain(rs: Rules, dir: Direction, rules: seq<Rule>): Rules {
    if dir == Egress then rs.(egress := rules) else rs.(ingress := rules)
  }

  /** The ruleset under construction, updated in place by the compiler. */
  class Ruleset {
    var sets: SetTable
    var egress: seq<Rule>
    var ingress: seq<Rule>

    constructor ()
      ensures Value() == NO_RULES
    {
      sets, egress, ingress := map[], [], [];
    }

    function Value(): Rules
      reads this
    {
      Rules(sets, egress, ingress)
    }

    method Push(dir: Direction, rule: Rule)
      modifies this
      ensures Value() == WithChain(old(Value()), dir, ChainOf(old(Value()), dir) + [rule])
    {
      if dir == Egress {
        egress := egress + [rule];
      } else {
        ingress := ingress + [rule];
      }
    }
  }

  // ----- what a ruleset means -----

  /** The addresses a match denotes, given the named sets. */
  predicate Denotes(m: Match, sets: SetTable, a: IpAddr) {
    match m
    case Any => true
    case Addrs(addrs) => a in addrs
    case Named(name) => name in sets && a in sets[name]
    case Block(cidr, except) =>
      ValidCidr(cidr) && InBlock(cidr, a) && Outside(except, a)
  }

  /** The address lies in none of the blocks. */
  predicate Outside(except: seq<Cidr>, a: IpAddr) {
    forall i | 0 <= i < |except| :: ValidCidr(except[i]) ==> !InBlock(except[i], a)
  }

  lemma OutsideMembers(except: seq<Cidr>, a: IpAddr)
    ensures Outside(except, a) <==> forall c :: c in except && ValidCidr(c) ==> !InBlock(c, a)
  {
    forall i | 0 <= i < |except| ensures except[i] in except {}
  }

  predicate RuleMatches(r: Rule, sets: SetTable, p: Packet) {
    Denotes(r.saddr, sets, p.src) && Denotes(r.daddr, sets, p.dst) && PortsAdmit(r.ports, p)
  }

  /** With an NFLOG group, a drop that carries a prefix is logged, and is guarded by `ct state new`. */
  predicate Logged(r: Rule, logging: bool) {
    logging && r.verdict.Drop? && r.logPrefix.Some?
  }

  predicate Fires(r: Rule, sets: SetTable, p: Packet, logging: bool) {
    RuleMatches(r, sets, p) && (Logged(r, logging) ==> p.ct == New)
  }

  /** First-match evaluation of a chain. */
  function FirstMatch(rules: seq<Rule>, sets: SetTable, p: Packet, logging: bool): Option<Verdict> {
    if rules == [] then None
    else if Fires(rules[0], sets, p, logging) then Some(rules[0].verdict)
    else FirstMatch(rules[1..], sets, p, logging)
  }

  lemma {:induction false} FirstMatchAppend(a: seq<Rule>, b: seq<Rule>, sets: SetTable, p: Packet, logging: bool)
    ensures FirstMatch(a + b, sets, p, logging)
         == var first := FirstMatch(a, sets, p, logging);
            if first.Some? then first else FirstMatch(b, sets, p, logging)
  {
    if a == [] {
      assert a + b == b;
    } else {
      assert (a + b)[1..] == a[1..] + b;
      FirstMatchAppend(a[1..], b, sets, p, logging);
    }
  }

  /** Rules that all carry one verdict decide a packet exactly when one of them fires. */
  lemma {:induction false} UniformVerdict(rules: seq<Rule>, v: Verdict, sets: SetTable, p: Packet, logging: bool)
    requires forall r :: r in rules ==> r.verdict == v
    ensures FirstMatch(rules, sets, p, logging)
         == if exists r :: r in rules && Fires(r, sets, p, logging) then Some(v) else None
  {
    if rules == [] {
    } else {
      assert rules == [rules[0]] + rules[1..];
      UniformVerdict(rules[1..], v, sets, p, logging);
    }
  }

  // ----- growing set tables -----

  /** Entries are only ever added, never changed. */
  predicate Extends(small: SetTable, big: SetTable) {
    small.Keys <= big.Keys && forall n :: n in small ==> big[n] == small[n]
  }

  /** Every named set a match refers to is registered. */
  predicate Closed(m: Match, sets: SetTable) {
    m.Named? ==> m.name in sets
  }

  /** A block has a valid prefix, and excepts of its own family with valid prefixes. */
  predicate WellFormedMatch(m: Match) {
    m.Block? ==>
      && ValidCidr(m.cidr)
      && forall e :: e in m.except ==> ValidCidr(e) && FamilyOf(e.addr) == FamilyOf(m.cidr.addr)
  }

  predicate WellFormed(r: Rule) {
    WellFormedMatch(r.saddr) && WellFormedMatch(r.daddr)
  }

  predicate ClosedRule(r: Rule, sets: SetTable) {
    Closed(r.saddr, sets) && Closed(r.daddr, sets)
  }

  /** Rules keep their meaning when more sets are registered. */
  lemma StableMeaning(r: Rule, small: SetTable, big: SetTable, p: Packet, logging: bool)
    requires ClosedRule(r, small) && Extends(small, big)
    ensures Fires(r, small, p, logging) == Fires(r, big, p, logging)
  {}

  lemma {:induction false} StableFirstMatch(
      rules: seq<Rule>, small: SetTable, big: SetTable, p: Packet, logging: bool)
    requires Extends(small, big) && forall r :: r in rules ==> ClosedRule(r, small)
    ensures FirstMatch(rules, small, p, logging) == FirstMatch(rules, big, p, logging)
  {
    if rules == [] {
    } else {
      StableMeaning(rules[0], small, big, p, logging);
      StableFirstMatch(rules[1..], small, big, p, logging);
    }
  }
}
