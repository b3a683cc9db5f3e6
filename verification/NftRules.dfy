/** Expanding ruleset rules into concrete nftables rules, with a register-machine meaning for the latter. */
module NftRules {
  import opened Common
  import opened Address
  import opened Ordering
  import opened Policy
  import opened Packets
  import opened RulesetIR
  import opened Bytes

  // ----- nftables expressions -----

  datatype CmpOp = Eq | Neq | Gte | Lte

  datatype NftVerdict = NfAccept | NfReturn | NfDrop | NfJump(chain: string)

  datatype Expr =
    | LoadNfProto
    | LoadL4Proto
    | LoadCtState
    | LoadAddr(family: Family, source: bool)
    | LoadDport
    | Bitwise(mask: seq<byte>, xor: seq<byte>)
    | Cmp(op: CmpOp, data: seq<byte>)
    | Lookup(setName: string)
    | Log(group: u16, prefix: string)
    | Immediate(verdict: NftVerdict)

  /** Named kernel sets and their elements. */
  type KernelSets = map<string, set<seq<byte>>>

  /** A rule in progress holds a register; it breaks off at a failed match or ends in a verdict. */
  datatype Run = Running(reg: seq<byte>) | Broke | Decided(verdict: NftVerdict)

  const NFPROTO_IPV4: byte := 2
  const NFPROTO_IPV6: byte := 10

  function NfProto(f: Family): byte {
    if f == Inet6 then NFPROTO_IPV6 else NFPROTO_IPV4
  }

  /** The bit of the state NEW, as the rules that log ask for it. */
  const NEW_BIT: byte := 8

  /** The bits of ESTABLISHED and RELATED, as the rule that passes replies asks for them. */
  const REPLY_BITS: byte := 6

  /** The kernel's state bits: INVALID, ESTABLISHED, RELATED, NEW, UNTRACKED. */
  function CtBits(ct: CtState): byte {
    match ct
    case Invalid => 1
    case Established => 2
    case Related => 4
    case New => 8
    case Untracked => 64
  }

  /** A small number as a 32-bit word in the machine's (little-endian) byte order. */
  function Word(bits: byte): seq<byte> {
    [bits, 0, 0, 0]
  }

  /** The bytes an address load yields: the packet's own field, or whatever lies there instead. */
  function AddrBytes(p: Packet, f: Family, source: bool): seq<byte> {
    match if source then p.src else p.dst
    case V4(octets) => if f.Inet4? then octets else p.stray
    case V6(octets) => if f.Inet6? then octets else p.stray
  }

  predicate Compares(op: CmpOp, reg: seq<byte>, data: seq<byte>) {
    match op
    case Eq => reg == data
    case Neq => reg != data
    case Gte => LexLe((x: byte) => x, data, reg)
    case Lte => LexLe((x: byte) => x, reg, data)
  }

  function Step(e: Expr, run: Run, p: Packet, sets: KernelSets): Run {
    if !run.Running? then run else
    match e
    case LoadNfProto => Running([if p.src.V4? then 2 else 10])
    case LoadL4Proto => Running([p.l4proto])
    case LoadCtState => Running([CtBits(p.ct), 0, 0, 0])
    case LoadAddr(f, source) => Running(AddrBytes(p, f, source))
    case LoadDport => Running(WriteU16Be(p.dport))
    case Bitwise(mask, xor) => Running(XorBytes(AndBytes(run.reg, mask), xor))
    case Cmp(op, data) => if Compares(op, run.reg, data) then run else Broke
    case Lookup(name) => if name in sets && run.reg in sets[name] then run else Broke
    case Log(_, _) => run
    case Immediate(v) => Decided(v)
  }

  function Exec(es: seq<Expr>, run: Run, p: Packet, sets: KernelSets): Run {
    if es == [] then run else Exec(es[1..], Step(es[0], run, p, sets), p, sets)
  }

  lemma {:induction false} ExecAppend(a: seq<Expr>, b: seq<Expr>, run: Run, p: Packet, sets: KernelSets)
    ensures Exec(a + b, run, p, sets) == Exec(b, Exec(a, run, p, sets), p, sets)
  {
    if a == [] {
      assert a + b == b;
    } else {
      assert (a + b)[1..] == a[1..] + b;
      ExecAppend(a[1..], b, Step(a[0], run, p, sets), p, sets);
    }
  }

  lemma {:induction false} ExecBroke(es: seq<Expr>, p: Packet, sets: KernelSets)
    ensures Exec(es, Broke, p, sets) == Broke
  {
    if es == [] {
    } else {
      ExecBroke(es[1..], p, sets);
    }
  }

  /** The expressions let a packet through exactly when `cond` holds, whatever was in the register. */
  ghost predicate Guards(es: seq<Expr>, p: Packet, sets: KernelSets, cond: bool) {
    forall reg :: if cond then Exec(es, Running(reg), p, sets).Running? else Exec(es, Running(reg), p, sets).Broke?
  }

  /** Guards in sequence conjoin; the second need only be right where the first lets through. */
  lemma GuardsAppend(a: seq<Expr>, b: seq<Expr>, p: Packet, sets: KernelSets, ca: bool, cb: bool)
    requires Guards(a, p, sets, ca) && (ca ==> Guards(b, p, sets, cb))
    ensures Guards(a + b, p, sets, ca && cb)
  {
    forall reg
      ensures if ca && cb then Exec(a + b, Running(reg), p, sets).Running?
              else Exec(a + b, Running(reg), p, sets).Broke?
    {
      ExecAppend(a, b, Running(reg), p, sets);
      var mid := Exec(a, Running(reg), p, sets);
      if ca { assert Exec(b, Running(mid.reg), p, sets) == Exec(b, mid, p, sets); }
      ExecBroke(b, p, sets);
    }
  }

  // ----- building one rule -----

  /** One matcher on a side of a rule. */
  datatype Side = AnySide | AddrSide(addr: IpAddr) | SetSide(name: string) | CidrSide(cidr: Cidr, except: seq<Cidr>)

  datatype NftError = InvalidCidr | UnknownSet(name: string)

  /** The kernel sets by network set and family. */
  type SetIndex = map<(string, Family), string>

  function Sides(m: Match): seq<Side> {
    match m
    case Any => [AnySide]
    case Addrs(addrs) =>
      var ordered := AscendingAddrs(addrs);
      seq(|ordered|, i requires 0 <= i < |ordered| => AddrSide(ordered[i]))
    case Named(name) => [SetSide(name)]
    case Block(cidr, except) => [CidrSide(cidr, except)]
  }

  function FamilyGuard(f: Family): seq<Expr> {
    [LoadNfProto, Cmp(Eq, [NfProto(f)])]
  }

  function AddrExprs(a: IpAddr, source: bool): seq<Expr> {
    [LoadNfProto, Cmp(Eq, [NfProto(FamilyOf(a))]), LoadAddr(FamilyOf(a), source), Cmp(Eq, Octets(a))]
  }

  /** Masked comparison with a block: equal to match it, not equal to exclude it. */
  function BlockExprs(c: Cidr, source: bool, op: CmpOp): seq<Expr> {
    var f, n := FamilyOf(c.addr), |Octets(c.addr)|;
    [LoadNfProto, Cmp(Eq, [NfProto(f)]),
     LoadAddr(f, source), Bitwise(Mask(n, c.prefix), Padding(n)), Cmp(op, NetworkBytes(c))]
  }

  function ExceptExprs(except: seq<Cidr>, source: bool): seq<Expr> {
    if except == [] then []
    else ExceptExprs(except[..|except| - 1], source) + BlockExprs(except[|except| - 1], source, Neq)
  }

  predicate AllValid(except: seq<Cidr>) {
    forall i | 0 <= i < |except| :: ValidCidr(except[i])
  }

  function SetExprs(kernelName: string, f: Family, source: bool): seq<Expr> {
    [LoadNfProto, Cmp(Eq, [NfProto(f)]), LoadAddr(f, source), Lookup(kernelName)]
  }

  function SideExprs(side: Side, index: SetIndex, f: Family, source: bool): Result<seq<Expr>, NftError> {
    match side
    case AnySide => Ok([])
    case AddrSide(a) => Ok(AddrExprs(a, source))
    case CidrSide(cidr, except) =>
      if ValidCidr(cidr) && AllValid(except)
      then Ok(BlockExprs(cidr, source, Eq) + ExceptExprs(except, source))
      else Err(InvalidCidr)
    case SetSide(name) =>
      if (name, f) in index then Ok(SetExprs(index[(name, f)], f, source)) else Err(UnknownSet(name))
  }

  /** The exclusions of every except, or an error at one with an invalid prefix. */
  method BuildExcepts(except: seq<Cidr>, source: bool) returns (r: Result<seq<Expr>, NftError>)
    ensures r == if AllValid(except) then Ok(ExceptExprs(except, source)) else Err(InvalidCidr)
  {
    var es := [];
    for i := 0 to |except|
      invariant AllValid(except[..i])
      invariant es == ExceptExprs(except[..i], source)
    {
      if !ValidCidr(except[i]) {
        return Err(InvalidCidr);
      }
      ExceptExprsStep(except, i, source);
      es := es + BlockExprs(except[i], source, Neq);
    }
    assert except[..|except|] == except;
    r := Ok(es);
  }

  lemma ExceptExprsStep(except: seq<Cidr>, i: nat, source: bool)
    requires i < |except|
    ensures ExceptExprs(except[..i + 1], source)
         == ExceptExprs(except[..i], source) + BlockExprs(except[i], source, Neq)
    ensures AllValid(except[..i + 1]) <==> AllValid(except[..i]) && ValidCidr(except[i])
  {
    hide BlockExprs, ValidCidr;
    assert except[..i + 1][..i] == except[..i];
    assert forall j | 0 <= j < i :: except[..i + 1][j] == except[..i][j];
  }

  /** Appends one side's match to a rule under construction. */
  method ApplySide(rule: seq<Expr>, side: Side, index: SetIndex, f: Family, source: bool)
    returns (r: Result<seq<Expr>, NftError>)
    ensures r == match SideExprs(side, index, f, source) case Ok(es) => Ok(rule + es) case Err(e) => Err(e)
  {
    match side
    case AnySide =>
      assert rule + [] == rule;
      r := Ok(rule);
    case AddrSide(a) =>
      r := Ok(rule + AddrExprs(a, source));
    case CidrSide(cidr, except) =>
      if !ValidCidr(cidr) {
        return Err(InvalidCidr);
      }
      r := BuildExcepts(except, source);
      if r.Ok? {
        r := Ok(rule + (BlockExprs(cidr, source, Eq) + r.value));
      }
    case SetSide(name) =>
      if (name, f) !in index {
        return Err(UnknownSet(name));
      }
      r := Ok(rule + SetExprs(index[(name, f)], f, source));
  }

  function ProtoExprs(protocol: Protocol): seq<Expr> {
    [LoadL4Proto, Cmp(Eq, [ProtoNumber(protocol)])]
  }

  function PortExprs(port: Port): seq<Expr> {
    match (port.number, port.end)
    case (None, _) => ProtoExprs(port.protocol)
    case (Some(n), None) => ProtoExprs(port.protocol) + [LoadDport, Cmp(Eq, WriteU16Be(n))]
    case (Some(lo), Some(hi)) =>
      ProtoExprs(port.protocol) + [LoadDport, Cmp(Gte, WriteU16Be(lo)), Cmp(Lte, WriteU16Be(hi))]
  }

  /** Only packets in one of the states of `bits` pass. */
  function CtGuard(bits: byte): seq<Expr> {
    [LoadCtState, Bitwise(Word(bits), Padding(4)), Cmp(Neq, Padding(4))]
  }

  function LogExprs(rule: Rule, group: Option<u16>): seq<Expr> {
    if rule.verdict.Drop? && rule.logPrefix.Some? && group.Some?
    then CtGuard(NEW_BIT) + [Log(group.value, rule.logPrefix.value)]
    else []
  }

  function NftVerdictOf(v: Verdict): NftVerdict {
    if v.Drop? then NfDrop else NfReturn
  }

  /** One cell of the product a rule expands to. */
  datatype Cell = Cell(src: Side, dst: Side, family: Family, port: Option<Port>)

  function TailExprs(rule: Rule, port: Option<Port>, group: Option<u16>): seq<Expr> {
    (if port.Some? then PortExprs(port.value) else []) + LogExprs(rule, group)
  }

  function CellExprs(rule: Rule, c: Cell, index: SetIndex, group: Option<u16>): Result<seq<Expr>, NftError> {
    match SideExprs(c.src, index, c.family, true)
    case Err(e) => Err(e)
    case Ok(src) =>
      match SideExprs(c.dst, index, c.family, false)
      case Err(e) => Err(e)
      case Ok(dst) => Ok(src + dst + TailExprs(rule, c.port, group) + [Immediate(NftVerdictOf(rule.verdict))])
  }

  method BuildCell(rule: Rule, c: Cell, index: SetIndex, group: Option<u16>) returns (r: Result<seq<Expr>, NftError>)
    ensures r == CellExprs(rule, c, index, group)
  {
    r := ApplySide([], c.src, index, c.family, true);
    if r.Err? {
      return;
    }
    assert forall es: seq<Expr> :: [] + es == es;
    r := ApplySide(r.value, c.dst, index, c.family, false);
    if r.Err? {
      return;
    }
    r := Ok(r.value + TailExprs(rule, c.port, group) + [Immediate(NftVerdictOf(rule.verdict))]);
  }

  // ----- the product -----

  /** The family a matcher is pinned to, if any. */
  function SideFamily(side: Side): Option<Family> {
    match side
    case AddrSide(a) => Some(FamilyOf(a))
    case CidrSide(cidr, _) => Some(FamilyOf(cidr.addr))
    case AnySide => None
    case SetSide(_) => None
  }

  /** A set side needs members in the family. */
  predicate SetOk(side: Side, f: Family, index: SetIndex) {
    side.SetSide? ==> (side.name, f) in index
  }

  function Candidates(src: Side, dst: Side): seq<Family> {
    match (SideFamily(src), SideFamily(dst))
    case (Some(a), Some(b)) => if a == b then [a] else []
    case (Some(a), None) => [a]
    case (None, Some(b)) => [b]
    case (None, None) => [Inet4, Inet6]
  }

  function KeepFamilies(fs: seq<Family>, src: Side, dst: Side, index: SetIndex): (r: seq<Family>)
    ensures forall f :: f in r <==> f in fs && SetOk(src, f, index) && SetOk(dst, f, index)
  {
    if fs == [] then []
    else if SetOk(src, fs[0], index) && SetOk(dst, fs[0], index) then [fs[0]] + KeepFamilies(fs[1..], src, dst, index)
    else KeepFamilies(fs[1..], src, dst, index)
  }

  function EmitFamilies(src: Side, dst: Side, index: SetIndex): seq<Family> {
    KeepFamilies(Candidates(src, dst), src, dst, index)
  }

  function PortChoices(ports: seq<Port>): seq<Option<Port>> {
    if ports == [] then [None] else seq(|ports|, i requires 0 <= i < |ports| => Some(ports[i]))
  }

  function FamilyCells(src: Side, dst: Side, f: Family, ports: seq<Option<Port>>): seq<Cell> {
    seq(|ports|, i requires 0 <= i < |ports| => Cell(src, dst, f, ports[i]))
  }

  function PerFamily(src: Side, dst: Side, ports: seq<Option<Port>>): Family -> seq<Cell> {
    f => FamilyCells(src, dst, f, ports)
  }

  function PairCells(src: Side, dst: Side, ports: seq<Option<Port>>, index: SetIndex): seq<Cell> {
    FlatMap(EmitFamilies(src, dst, index), PerFamily(src, dst, ports))
  }

  function PerDestination(src: Side, ports: seq<Option<Port>>, index: SetIndex): Side -> seq<Cell> {
    dst => PairCells(src, dst, ports, index)
  }

  function SourceCells(src: Side, dsts: seq<Side>, ports: seq<Option<Port>>, index: SetIndex): seq<Cell> {
    FlatMap(dsts, PerDestination(src, ports, index))
  }

  function PerSource(dsts: seq<Side>, ports: seq<Option<Port>>, index: SetIndex): Side -> seq<Cell> {
    src => SourceCells(src, dsts, ports, index)
  }

  /** Every combination of a source, a destination, a family they allow, and a port, in order. */
  function Cells(rule: Rule, index: SetIndex): seq<Cell> {
    FlatMap(Sides(rule.saddr), PerSource(Sides(rule.daddr), PortChoices(rule.ports), index))
  }

  lemma InFamilyCells(src: Side, dst: Side, f: Family, ports: seq<Option<Port>>, c: Cell)
    ensures c in FamilyCells(src, dst, f, ports)
       <==> c.src == src && c.dst == dst && c.family == f && c.port in ports
  {
    var cells := FamilyCells(src, dst, f, ports);
    if c.src == src && c.dst == dst && c.family == f && c.port in ports {
      var i :| 0 <= i < |ports| && ports[i] == c.port;
      assert cells[i] == c;
    }
  }

  lemma InPairCells(src: Side, dst: Side, ports: seq<Option<Port>>, index: SetIndex, c: Cell)
    ensures c in PairCells(src, dst, ports, index)
       <==> c.src == src && c.dst == dst && c.family in EmitFamilies(src, dst, index) && c.port in ports
  {
    var image := PerFamily(src, dst, ports);
    InFlatMap(EmitFamilies(src, dst, index), image, c);
    forall f: Family ensures c in image(f) <==> c.src == src && c.dst == dst && c.family == f && c.port in ports {
      InFamilyCells(src, dst, f, ports, c);
    }
  }

  lemma InSourceCells(src: Side, dsts: seq<Side>, ports: seq<Option<Port>>, index: SetIndex, c: Cell)
    ensures c in SourceCells(src, dsts, ports, index)
       <==> c.src == src && c.dst in dsts && c.family in EmitFamilies(c.src, c.dst, index) && c.port in ports
  {
    var image := PerDestination(src, ports, index);
    InFlatMap(dsts, image, c);
    forall dst: Side
      ensures c in image(dst)
        <==> c.src == src && c.dst == dst && c.family in EmitFamilies(src, dst, index) && c.port in ports
    {
      InPairCells(src, dst, ports, index, c);
    }
  }

  /** The product holds exactly the combinations of a source, a destination, one of their
      families and a port. */
  lemma InCells(rule: Rule, index: SetIndex, c: Cell)
    ensures c in Cells(rule, index)
       <==> (c.src in Sides(rule.saddr) && c.dst in Sides(rule.daddr)
             && c.family in EmitFamilies(c.src, c.dst, index) && c.port in PortChoices(rule.ports))
  {
    var dsts, ports := Sides(rule.daddr), PortChoices(rule.ports);
    var image := PerSource(dsts, ports, index);
    InFlatMap(Sides(rule.saddr), image, c);
    forall src: Side
      ensures c in image(src)
        <==> c.src == src && c.dst in dsts && c.family in EmitFamilies(c.src, c.dst, index) && c.port in ports
    {
      InSourceCells(src, dsts, ports, index, c);
    }
  }

  predicate CellsBuild(rule: Rule, cells: seq<Cell>, index: SetIndex, group: Option<u16>) {
    forall c :: c in cells ==> CellExprs(rule, c, index, group).Ok?
  }

  function BuildAll(rule: Rule, cells: seq<Cell>, index: SetIndex, group: Option<u16>): (r: seq<seq<Expr>>)
    requires CellsBuild(rule, cells, index, group)
    ensures |r| == |cells|
    ensures forall i | 0 <= i < |cells| :: r[i] == CellExprs(rule, cells[i], index, group).value
  {
    seq(|cells|, i requires 0 <= i < |cells| =>
      assert cells[i] in cells;
      CellExprs(rule, cells[i], index, group).value)
  }

  lemma BuildAllAppend(rule: Rule, a: seq<Cell>, b: seq<Cell>, index: SetIndex, group: Option<u16>)
    requires CellsBuild(rule, a, index, group) && CellsBuild(rule, b, index, group)
    ensures CellsBuild(rule, a + b, index, group)
    ensures BuildAll(rule, a + b, index, group) == BuildAll(rule, a, index, group) + BuildAll(rule, b, index, group)
  {}

  /** The error of the first cell that cannot be built. */
  function FirstError(rule: Rule, cells: seq<Cell>, index: SetIndex, group: Option<u16>): Option<NftError> {
    if cells == [] then None else
      var before := FirstError(rule, cells[..|cells| - 1], index, group);
      var last := CellExprs(rule, cells[|cells| - 1], index, group);
      if before.Some? then before else if last.Err? then Some(last.error) else None
  }

  lemma {:induction false} FirstErrorAppend(rule: Rule, a: seq<Cell>, b: seq<Cell>, index: SetIndex, group: Option<u16>)
    ensures FirstError(rule, a + b, index, group)
         == if FirstError(rule, a, index, group).Some? then FirstError(rule, a, index, group)
            else FirstError(rule, b, index, group)
  {
    hide CellExprs;
    if b == [] {
      assert a + b == a;
    } else {
      assert (a + b)[..|a + b| - 1] == a + b[..|b| - 1];
      FirstErrorAppend(rule, a, b[..|b| - 1], index, group);
    }
  }

  lemma {:induction false} NoFirstError(rule: Rule, cells: seq<Cell>, index: SetIndex, group: Option<u16>)
    ensures FirstError(rule, cells, index, group).None? <==> CellsBuild(rule, cells, index, group)
  {
    hide CellExprs;
    if cells == [] {
    } else {
      var init, last := cells[..|cells| - 1], cells[|cells| - 1];
      assert cells == init + [last];
      NoFirstError(rule, init, index, group);
    }
  }
}
