/** Expansion preserves meaning: the concrete rules of a ruleset rule fire together exactly when it does. */
module Expand {
  import opened Common
  import opened Address
  import opened Ordering
  import opened Policy
  import opened Packets
  import opened RulesetIR
  import opened Bytes
  import opened NftRules

  // ----- the expansion loops, one per level of the product -----

  lemma FlatMapBuilds<X>(rule: Rule, xs: seq<X>, i: nat, image: X -> seq<Cell>, index: SetIndex, group: Option<u16>)
    requires i < |xs|
    requires CellsBuild(rule, FlatMap(xs[..i], image), index, group) && CellsBuild(rule, image(xs[i]), index, group)
    ensures CellsBuild(rule, FlatMap(xs[..i + 1], image), index, group)
    ensures BuildAll(rule, FlatMap(xs[..i + 1], image), index, group)
         == BuildAll(rule, FlatMap(xs[..i], image), index, group) + BuildAll(rule, image(xs[i]), index, group)
  {
    FlatMapStep(xs, i, image);
    BuildAllAppend(rule, FlatMap(xs[..i], image), image(xs[i]), index, group);
  }

  /** The first failure among some of the images is the first of them all. */
  lemma {:induction false} FlatMapFails<X>(
      rule: Rule, xs: seq<X>, i: nat, image: X -> seq<Cell>, index: SetIndex, group: Option<u16>)
    requires i < |xs| && CellsBuild(rule, FlatMap(xs[..i], image), index, group)
    requires FirstError(rule, image(xs[i]), index, group).Some?
    ensures FirstError(rule, FlatMap(xs, image), index, group) == FirstError(rule, image(xs[i]), index, group)
  {
    hide FirstError, CellsBuild;
    var n := |xs| - 1;
    FirstErrorAppend(rule, FlatMap(xs[..n], image), image(xs[n]), index, group);
    if i == n {
      NoFirstError(rule, FlatMap(xs[..n], image), index, group);
    } else {
      assert xs[..n][..i] == xs[..i];
      FlatMapFails(rule, xs[..n], i, image, index, group);
    }
  }

  lemma CellFails(rule: Rule, cells: seq<Cell>, i: nat, index: SetIndex, group: Option<u16>)
    requires i < |cells| && CellsBuild(rule, cells[..i], index, group)
    requires CellExprs(rule, cells[i], index, group).Err?
    ensures FirstError(rule, cells, index, group) == Some(CellExprs(rule, cells[i], index, group).error)
    ensures !CellsBuild(rule, cells, index, group)
  {
    hide CellExprs, CellsBuild;
    var tail := cells[i + 1..];
    assert cells == cells[..i] + ([cells[i]] + tail);
    NoFirstError(rule, cells[..i], index, group);
    FirstErrorAppend(rule, cells[..i], [cells[i]] + tail, index, group);
    FirstErrorAppend(rule, [cells[i]], tail, index, group);
    OneCellFails(rule, cells[i], index, group);
    NoFirstError(rule, cells, index, group);
  }

  lemma OneCellFails(rule: Rule, c: Cell, index: SetIndex, group: Option<u16>)
    requires CellExprs(rule, c, index, group).Err?
    ensures FirstError(rule, [c], index, group) == Some(CellExprs(rule, c, index, group).error)
  {
    hide CellExprs;
    assert [c][..0] == [];
    assert FirstError(rule, [], index, group) == None;
  }

  lemma NoCells(rule: Rule, index: SetIndex, group: Option<u16>)
    ensures CellsBuild(rule, [], index, group) && BuildAll(rule, [], index, group) == []
  {}

  lemma NoImages<X>(image: X -> seq<Cell>)
    ensures FlatMap([], image) == []
  {}

  lemma OneCellBuilds(rule: Rule, c: Cell, index: SetIndex, group: Option<u16>)
    requires CellExprs(rule, c, index, group).Ok?
    ensures CellsBuild(rule, [c], index, group)
    ensures BuildAll(rule, [c], index, group) == [CellExprs(rule, c, index, group).value]
  {}

  method ExpandFamily(rule: Rule, src: Side, dst: Side, f: Family, ports: seq<Option<Port>>, index: SetIndex,
      group: Option<u16>)
    returns (r: Result<seq<seq<Expr>>, NftError>)
    ensures r.Ok? <==> CellsBuild(rule, FamilyCells(src, dst, f, ports), index, group)
    ensures r.Ok? ==> r.value == BuildAll(rule, FamilyCells(src, dst, f, ports), index, group)
    ensures FirstError(rule, FamilyCells(src, dst, f, ports), index, group) == if r.Ok? then None else Some(r.error)
  {
    ghost var cells := FamilyCells(src, dst, f, ports);
    hide CellsBuild, BuildAll, FirstError, CellExprs;
    var out := [];
    NoCells(rule, index, group);
    assert cells[..0] == [];
    for i := 0 to |ports|
      invariant CellsBuild(rule, cells[..i], index, group)
      invariant out == BuildAll(rule, cells[..i], index, group)
    {
      assert cells[i] in cells && cells[..i + 1] == cells[..i] + [cells[i]];
      var one := BuildCell(rule, Cell(src, dst, f, ports[i]), index, group);
      if one.Err? {
        CellFails(rule, cells, i, index, group);
        return Err(one.error);
      }
      OneCellBuilds(rule, cells[i], index, group);
      BuildAllAppend(rule, cells[..i], [cells[i]], index, group);
      out := out + [one.value];
    }
    assert cells[..|ports|] == cells;
    NoFirstError(rule, cells, index, group);
    r := Ok(out);
  }

  method ExpandPair(rule: Rule, src: Side, dst: Side, ports: seq<Option<Port>>, index: SetIndex, group: Option<u16>)
    returns (r: Result<seq<seq<Expr>>, NftError>)
    ensures r.Ok? <==> CellsBuild(rule, PairCells(src, dst, ports, index), index, group)
    ensures r.Ok? ==> r.value == BuildAll(rule, PairCells(src, dst, ports, index), index, group)
    ensures FirstError(rule, PairCells(src, dst, ports, index), index, group) == if r.Ok? then None else Some(r.error)
  {
    hide CellsBuild, BuildAll, FirstError, FlatMap, EmitFamilies, FamilyCells;
    var families := EmitFamilies(src, dst, index);
    ghost var image := PerFamily(src, dst, ports);
    var out := [];
    NoCells(rule, index, group);
    NoImages(image);
    assert families[..0] == [];
    for i := 0 to |families|
      invariant CellsBuild(rule, FlatMap(families[..i], image), index, group)
      invariant out == BuildAll(rule, FlatMap(families[..i], image), index, group)
    {
      var more := ExpandFamily(rule, src, dst, families[i], ports, index, group);
      if more.Err? {
        FlatMapFails(rule, families, i, image, index, group);
        NoFirstError(rule, FlatMap(families, image), index, group);
        return Err(more.error);
      }
      FlatMapBuilds(rule, families, i, image, index, group);
      out := out + more.value;
    }
    assert families[..|families|] == families;
    NoFirstError(rule, FlatMap(families, image), index, group);
    r := Ok(out);
  }

  method ExpandSource(rule: Rule, src: Side, dsts: seq<Side>, ports: seq<Option<Port>>, index: SetIndex,
      group: Option<u16>)
    returns (r: Result<seq<seq<Expr>>, NftError>)
    ensures r.Ok? <==> CellsBuild(rule, SourceCells(src, dsts, ports, index), index, group)
    ensures r.Ok? ==> r.value == BuildAll(rule, SourceCells(src, dsts, ports, index), index, group)
    ensures FirstError(rule, SourceCells(src, dsts, ports, index), index, group)
         == if r.Ok? then None else Some(r.error)
  {
    hide CellsBuild, BuildAll, FirstError, FlatMap, PairCells;
    ghost var image := PerDestination(src, ports, index);
    var out := [];
    NoCells(rule, index, group);
    NoImages(image);
    assert dsts[..0] == [];
    for i := 0 to |dsts|
      invariant CellsBuild(rule, FlatMap(dsts[..i], image), index, group)
      invariant out == BuildAll(rule, FlatMap(dsts[..i], image), index, group)
    {
      var more := ExpandPair(rule, src, dsts[i], ports, index, group);
      if more.Err? {
        FlatMapFails(rule, dsts, i, image, index, group);
        NoFirstError(rule, FlatMap(dsts, image), index, group);
        return Err(more.error);
      }
      FlatMapBuilds(rule, dsts, i, image, index, group);
      out := out + more.value;
    }
    assert dsts[..|dsts|] == dsts;
    NoFirstError(rule, FlatMap(dsts, image), index, group);
    r := Ok(out);
  }

  /** Builds one nftables rule per cell of the product, or reports the first that cannot be built. */
  method ExpandRule(rule: Rule, index: SetIndex, group: Option<u16>) returns (r: Result<seq<seq<Expr>>, NftError>)
    ensures r.Ok? <==> CellsBuild(rule, Cells(rule, index), index, group)
    ensures r.Ok? ==> r.value == BuildAll(rule, Cells(rule, index), index, group)
    ensures FirstError(rule, Cells(rule, index), index, group) == if r.Ok? then None else Some(r.error)
  {
    hide CellsBuild, BuildAll, FirstError, FlatMap, SourceCells, Sides, PortChoices;
    var ports := PortChoices(rule.ports);
    var srcs := Sides(rule.saddr);
    var dsts := Sides(rule.daddr);
    ghost var image := PerSource(dsts, ports, index);
    var out := [];
    NoCells(rule, index, group);
    NoImages(image);
    assert srcs[..0] == [];
    for i := 0 to |srcs|
      invariant CellsBuild(rule, FlatMap(srcs[..i], image), index, group)
      invariant out == BuildAll(rule, FlatMap(srcs[..i], image), index, group)
    {
      var more := ExpandSource(rule, srcs[i], dsts, ports, index, group);
      if more.Err? {
        FlatMapFails(rule, srcs, i, image, index, group);
        NoFirstError(rule, FlatMap(srcs, image), index, group);
        return Err(more.error);
      }
      FlatMapBuilds(rule, srcs, i, image, index, group);
      out := out + more.value;
    }
    assert srcs[..|srcs|] == srcs;
    NoFirstError(rule, FlatMap(srcs, image), index, group);
    r := Ok(out);
  }

  // ----- what the parts of a concrete rule let through -----

  function FamilyKeys(addrs: set<IpAddr>, f: Family): set<seq<byte>> {
    set a | a in addrs && FamilyOf(a) == f :: Octets(a)
  }

  /** The kernel holds each network set split by family, and the index names exactly the non-empty parts. */
  ghost predicate Represents(sets: SetTable, index: SetIndex, kernel: KernelSets) {
    && (forall n, f :: (n, f) in index <==> n in sets && FamilyKeys(sets[n], f) != {})
    && (forall n, f :: (n, f) in index ==>
          index[(n, f)] in kernel && kernel[index[(n, f)]] == FamilyKeys(sets[n], f))
  }

  lemma OctetsIdentify(a: IpAddr, b: IpAddr)
    requires FamilyOf(a) == FamilyOf(b) && Octets(a) == Octets(b)
    ensures a == b
  {}

  lemma InFamilyKeys(addrs: set<IpAddr>, a: IpAddr)
    ensures Octets(a) in FamilyKeys(addrs, FamilyOf(a)) <==> a in addrs
  {
    if Octets(a) in FamilyKeys(addrs, FamilyOf(a)) {
      var b :| b in addrs && FamilyOf(b) == FamilyOf(a) && Octets(b) == Octets(a);
      OctetsIdentify(a, b);
    }
  }

  function AddrOn(p: Packet, source: bool): IpAddr {
    if source then p.src else p.dst
  }

  lemma TwoExprs(x: Expr, y: Expr, run: Run, p: Packet, kernel: KernelSets)
    ensures Exec([x, y], run, p, kernel) == Step(y, Step(x, run, p, kernel), p, kernel)
  {
    assert [x, y][1..] == [y] && [y][1..] == [];
    assert Exec([y], Step(x, run, p, kernel), p, kernel)
         == Exec([], Step(y, Step(x, run, p, kernel), p, kernel), p, kernel);
  }

  lemma ThreeExprs(x: Expr, y: Expr, z: Expr, run: Run, p: Packet, kernel: KernelSets)
    ensures Exec([x, y, z], run, p, kernel) == Step(z, Step(y, Step(x, run, p, kernel), p, kernel), p, kernel)
  {
    assert [x, y, z][1..] == [y, z];
    TwoExprs(y, z, Step(x, run, p, kernel), p, kernel);
  }

  lemma FamilyGuardMeaning(f: Family, p: Packet, kernel: KernelSets)
    ensures Guards(FamilyGuard(f), p, kernel, FamilyOf(p.src) == f)
  {
    forall reg {:trigger Running(reg)} ensures Exec(FamilyGuard(f), Running(reg), p, kernel)
      == if FamilyOf(p.src) == f then Running([NfProto(f)]) else Broke
    {
      TwoExprs(LoadNfProto, Cmp(Eq, [NfProto(f)]), Running(reg), p, kernel);
    }
  }

  lemma AddrMeaning(a: IpAddr, source: bool, p: Packet, kernel: KernelSets)
    requires SingleFamily(p)
    ensures Guards(AddrExprs(a, source), p, kernel, AddrOn(p, source) == a)
  {
    FamilyGuardMeaning(FamilyOf(a), p, kernel);
    var load := [LoadAddr(FamilyOf(a), source), Cmp(Eq, Octets(a))];
    if FamilyOf(p.src) == FamilyOf(a) {
      forall reg {:trigger Running(reg)} ensures Exec(load, Running(reg), p, kernel)
        == if AddrOn(p, source) == a then Running(Octets(a)) else Broke
      {
        TwoExprs(load[0], load[1], Running(reg), p, kernel);
        if AddrBytes(p, FamilyOf(a), source) == Octets(a) { OctetsIdentify(AddrOn(p, source), a); }
      }
    }
    assert AddrExprs(a, source) == FamilyGuard(FamilyOf(a)) + load;
    GuardsAppend(FamilyGuard(FamilyOf(a)), load, p, kernel, FamilyOf(p.src) == FamilyOf(a), AddrOn(p, source) == a);
  }

  predicate BlockTest(op: CmpOp, c: Cidr, a: IpAddr)
    requires ValidCidr(c)
  {
    FamilyOf(a) == FamilyOf(c.addr) && (if op == Eq then InBlock(c, a) else !InBlock(c, a))
  }

  lemma BlockTestRuns(c: Cidr, source: bool, op: CmpOp, p: Packet, kernel: KernelSets)
    requires SingleFamily(p) && ValidCidr(c) && (op == Eq || op == Neq) && FamilyOf(p.src) == FamilyOf(c.addr)
    ensures var f, n := FamilyOf(c.addr), |Octets(c.addr)|;
            Guards([LoadAddr(f, source), Bitwise(Mask(n, c.prefix), Padding(n)), Cmp(op, NetworkBytes(c))], p, kernel,
                   BlockTest(op, c, AddrOn(p, source)))
  {
    hide Mask, AndBytes, XorBytes, NetworkBytes, InBlock, Exec;
    var f, n, a := FamilyOf(c.addr), |Octets(c.addr)|, AddrOn(p, source);
    var test := [LoadAddr(f, source), Bitwise(Mask(n, c.prefix), Padding(n)), Cmp(op, NetworkBytes(c))];
    var masked := AndBytes(Octets(a), Mask(n, c.prefix));
    MaskedCompareIsBlock(c, a);
    XorZero(masked, Padding(n));
    forall reg {:trigger Running(reg)} ensures Exec(test, Running(reg), p, kernel)
      == if BlockTest(op, c, a) then Running(masked) else Broke
    {
      ThreeExprs(test[0], test[1], test[2], Running(reg), p, kernel);
    }
  }

  lemma BlockMeaning(c: Cidr, source: bool, op: CmpOp, p: Packet, kernel: KernelSets)
    requires SingleFamily(p) && ValidCidr(c) && (op == Eq || op == Neq)
    ensures Guards(BlockExprs(c, source, op), p, kernel, BlockTest(op, c, AddrOn(p, source)))
  {
    var f, n, a := FamilyOf(c.addr), |Octets(c.addr)|, AddrOn(p, source);
    FamilyGuardMeaning(f, p, kernel);
    hide Mask, NetworkBytes, InBlock, Exec, Octets;
    var test := [LoadAddr(f, source), Bitwise(Mask(n, c.prefix), Padding(n)), Cmp(op, NetworkBytes(c))];
    if FamilyOf(p.src) == f { BlockTestRuns(c, source, op, p, kernel); }
    assert BlockExprs(c, source, op) == FamilyGuard(f) + test;
    GuardsAppend(FamilyGuard(f), test, p, kernel, FamilyOf(p.src) == f, BlockTest(op, c, a));
  }

  lemma NothingGuards(p: Packet, kernel: KernelSets)
    ensures Guards([], p, kernel, true)
  {}

  lemma OutsideAppend(init: seq<Cidr>, last: Cidr, a: IpAddr)
    requires ValidCidr(last)
    ensures Outside(init + [last], a) <==> Outside(init, a) && !InBlock(last, a)
  {
    var all := init + [last];
    assert all[|init|] == last;
    assert forall i | 0 <= i < |init| :: all[i] == init[i];
  }

  predicate SameFamilyValid(except: seq<Cidr>, a: IpAddr) {
    forall i | 0 <= i < |except| :: ValidCidr(except[i]) && FamilyOf(except[i].addr) == FamilyOf(a)
  }

  lemma {:induction false} ExceptsMeaning(except: seq<Cidr>, source: bool, p: Packet, kernel: KernelSets)
    requires SingleFamily(p) && SameFamilyValid(except, AddrOn(p, source))
    ensures Guards(ExceptExprs(except, source), p, kernel, Outside(except, AddrOn(p, source)))
  {
    if except == [] {
      NothingGuards(p, kernel);
    } else {
      var init, last, a := except[..|except| - 1], except[|except| - 1], AddrOn(p, source);
      assert except == init + [last];
      ExceptsMeaning(init, source, p, kernel);
      BlockMeaning(last, source, Neq, p, kernel);
      OutsideAppend(init, last, a);
      GuardsAppend(ExceptExprs(init, source), BlockExprs(last, source, Neq), p, kernel, Outside(init, a),
                   BlockTest(Neq, last, a));
    }
  }

  predicate SideHolds(side: Side, sets: SetTable, f: Family, a: IpAddr) {
    match side
    case AnySide => true
    case AddrSide(x) => a == x
    case SetSide(name) => FamilyOf(a) == f && Denotes(Named(name), sets, a)
    case CidrSide(cidr, except) => Denotes(Block(cidr, except), sets, a)
  }

  predicate WellFormedSide(side: Side) {
    side.CidrSide? ==> WellFormedMatch(Block(side.cidr, side.except))
  }

  lemma CidrSideMeaning(cidr: Cidr, except: seq<Cidr>, sets: SetTable, source: bool, p: Packet, kernel: KernelSets)
    requires SingleFamily(p) && WellFormedMatch(Block(cidr, except))
    ensures Guards(BlockExprs(cidr, source, Eq) + ExceptExprs(except, source), p, kernel,
                   Denotes(Block(cidr, except), sets, AddrOn(p, source)))
  {
    var a := AddrOn(p, source);
    BlockMeaning(cidr, source, Eq, p, kernel);
    var outside := Outside(except, a);
    if BlockTest(Eq, cidr, a) {
      ExceptsMeaning(except, source, p, kernel);
    }
    GuardsAppend(BlockExprs(cidr, source, Eq), ExceptExprs(except, source), p, kernel, BlockTest(Eq, cidr, a), outside);
  }

  lemma SetSideMeaning(
      name: string, sets: SetTable, index: SetIndex, f: Family, source: bool, p: Packet, kernel: KernelSets)
    requires SingleFamily(p) && Represents(sets, index, kernel) && (name, f) in index
    ensures Guards(SetExprs(index[(name, f)], f, source), p, kernel,
                   SideHolds(SetSide(name), sets, f, AddrOn(p, source)))
  {
    var a := AddrOn(p, source);
    FamilyGuardMeaning(f, p, kernel);
    var test := [LoadAddr(f, source), Lookup(index[(name, f)])];
    if FamilyOf(a) == f {
      InFamilyKeys(sets[name], a);
      forall reg {:trigger Running(reg)} ensures Exec(test, Running(reg), p, kernel)
        == if a in sets[name] then Running(Octets(a)) else Broke
      {
        TwoExprs(test[0], test[1], Running(reg), p, kernel);
      }
    }
    assert SetExprs(index[(name, f)], f, source) == FamilyGuard(f) + test;
    GuardsAppend(FamilyGuard(f), test, p, kernel, FamilyOf(a) == f, SideHolds(SetSide(name), sets, f, a));
  }

  /** A side's expressions let a packet through exactly when its address satisfies the side. */
  lemma SideMeaning(
      side: Side, sets: SetTable, index: SetIndex, f: Family, source: bool, p: Packet, kernel: KernelSets)
    requires SingleFamily(p) && Represents(sets, index, kernel) && WellFormedSide(side)
    ensures var es := SideExprs(side, index, f, source);
            && (es.Ok? <==> SetOk(side, f, index))
            && (es.Ok? ==> Guards(es.value, p, kernel, SideHolds(side, sets, f, AddrOn(p, source))))
  {
    match side
    case AnySide => NothingGuards(p, kernel);
    case AddrSide(a) => AddrMeaning(a, source, p, kernel);
    case CidrSide(cidr, except) => CidrSideMeaning(cidr, except, sets, source, p, kernel);
    case SetSide(name) =>
      if (name, f) in index { SetSideMeaning(name, sets, index, f, source, p, kernel); }
  }

  // ----- ports and logging -----

  lemma BigEndianOrder(m: u16, n: u16)
    ensures LexLe((x: byte) => x, WriteU16Be(m), WriteU16Be(n)) <==> m <= n
    ensures WriteU16Be(m) == WriteU16Be(n) <==> m == n
  {
    var key := (x: byte) => x;
    var a, b := WriteU16Be(m), WriteU16Be(n);
    assert a[1..] == [m % 256] && b[1..] == [n % 256];
    assert LexLe(key, a[1..][1..], b[1..][1..]);
    assert LexLe(key, a[1..], b[1..]) <==> m % 256 <= n % 256;
  }

  lemma ProtoMeaning(protocol: Protocol, p: Packet, kernel: KernelSets)
    ensures Guards(ProtoExprs(protocol), p, kernel, p.l4proto == ProtoNumber(protocol))
  {
    forall reg {:trigger Running(reg)} ensures Exec(ProtoExprs(protocol), Running(reg), p, kernel)
      == if p.l4proto == ProtoNumber(protocol) then Running([p.l4proto]) else Broke
    {
      TwoExprs(LoadL4Proto, Cmp(Eq, [ProtoNumber(protocol)]), Running(reg), p, kernel);
    }
  }

  lemma SinglePortMeaning(n: u16, p: Packet, kernel: KernelSets)
    ensures Guards([LoadDport, Cmp(Eq, WriteU16Be(n))], p, kernel, p.dport == n)
  {
    BigEndianOrder(p.dport, n);
    var test := [LoadDport, Cmp(Eq, WriteU16Be(n))];
    forall reg {:trigger Running(reg)}
      ensures Exec(test, Running(reg), p, kernel) == if p.dport == n then Running(WriteU16Be(p.dport)) else Broke
    {
      TwoExprs(test[0], test[1], Running(reg), p, kernel);
    }
  }

  lemma PortRangeMeaning(lo: u16, hi: u16, p: Packet, kernel: KernelSets)
    ensures Guards([LoadDport, Cmp(Gte, WriteU16Be(lo)), Cmp(Lte, WriteU16Be(hi))], p, kernel, lo <= p.dport <= hi)
  {
    BigEndianOrder(lo, p.dport);
    BigEndianOrder(p.dport, hi);
    var test := [LoadDport, Cmp(Gte, WriteU16Be(lo)), Cmp(Lte, WriteU16Be(hi))];
    forall reg {:trigger Running(reg)}
      ensures Exec(test, Running(reg), p, kernel) == if lo <= p.dport <= hi then Running(WriteU16Be(p.dport)) else Broke
    {
      ThreeExprs(test[0], test[1], test[2], Running(reg), p, kernel);
    }
  }

  /** No number is every port, a number alone is that port, two numbers are all from one to the other. */
  predicate InPortRange(port: Port, dport: u16) {
    match (port.number, port.end)
    case (None, _) => true
    case (Some(n), None) => dport == n
    case (Some(lo), Some(hi)) => lo <= dport <= hi
  }

  lemma PortGuards(port: Port, p: Packet, kernel: KernelSets)
    ensures Guards(PortExprs(port), p, kernel, PortAdmits(port, p))
  {
    hide Guards, Exec, WriteU16Be;
    ProtoMeaning(port.protocol, p, kernel);
    var proto := p.l4proto == ProtoNumber(port.protocol);
    match (port.number, port.end)
    case (None, _) =>
    case (Some(n), None) =>
      SinglePortMeaning(n, p, kernel);
      GuardsAppend(ProtoExprs(port.protocol), [LoadDport, Cmp(Eq, WriteU16Be(n))], p, kernel, proto, p.dport == n);
    case (Some(lo), Some(hi)) =>
      PortRangeMeaning(lo, hi, p, kernel);
      GuardsAppend(ProtoExprs(port.protocol), [LoadDport, Cmp(Gte, WriteU16Be(lo)), Cmp(Lte, WriteU16Be(hi))],
                   p, kernel, proto, lo <= p.dport <= hi);
  }

  /** A TCP port lets through exactly packets of protocol 6, a UDP port of protocol 17, with the
      number or in the inclusive range; a range is one rule of two byte-string comparisons. */
  lemma PortMeaning(port: Port, p: Packet, kernel: KernelSets)
    ensures Guards(PortExprs(port), p, kernel,
                   p.l4proto == (if port.protocol == Tcp then 6 else 17) && InPortRange(port, p.dport))
  {
    hide PortExprs, Guards, Exec;
    PortGuards(port, p, kernel);
    assert PortAdmits(port, p)
      <==> p.l4proto == (if port.protocol == Tcp then 6 else 17) && InPortRange(port, p.dport);
  }

  lemma MaskedState(ct: CtState)
    ensures BitAnd(CtBits(ct), NEW_BIT) != 0 <==> ct == New
    ensures BitAnd(CtBits(ct), REPLY_BITS) != 0 <==> ct == Established || ct == Related
  {
    AndEight(CtBits(ct));
    AndSix(CtBits(ct));
  }

  lemma CtGuardMeaning(bits: byte, p: Packet, kernel: KernelSets)
    ensures Guards(CtGuard(bits), p, kernel, BitAnd(CtBits(p.ct), bits) != 0)
  {
    var b := BitAnd(CtBits(p.ct), bits);
    assert AndBytes(Word(CtBits(p.ct)), Word(bits)) == Word(b);
    XorZero(Word(b), Padding(4));
    var es := CtGuard(bits);
    forall reg {:trigger Running(reg)}
      ensures Exec(es, Running(reg), p, kernel) == if b != 0 then Running(Word(b)) else Broke
    {
      ThreeExprs(es[0], es[1], es[2], Running(reg), p, kernel);
      assert Padding(4) == [0, 0, 0, 0];
    }
  }

  lemma LogMeaning(rule: Rule, group: Option<u16>, p: Packet, kernel: KernelSets)
    ensures Guards(LogExprs(rule, group), p, kernel, Logged(rule, group.Some?) ==> p.ct == New)
  {
    if Logged(rule, group.Some?) {
      var log := [Log(group.value, rule.logPrefix.value)];
      forall reg {:trigger Running(reg)} ensures Exec(log, Running(reg), p, kernel) == Running(reg) {
        assert log[1..] == [];
      }
      CtGuardMeaning(NEW_BIT, p, kernel);
      MaskedState(p.ct);
      GuardsAppend(CtGuard(NEW_BIT), log, p, kernel, p.ct == New, true);
    } else {
      NothingGuards(p, kernel);
    }
  }

  lemma TailMeaning(rule: Rule, port: Option<Port>, group: Option<u16>, p: Packet, kernel: KernelSets)
    ensures Guards(TailExprs(rule, port, group), p, kernel,
                   (port.Some? ==> PortAdmits(port.value, p)) && (Logged(rule, group.Some?) ==> p.ct == New))
  {
    LogMeaning(rule, group, p, kernel);
    if port.Some? {
      PortGuards(port.value, p, kernel);
      GuardsAppend(PortExprs(port.value), LogExprs(rule, group), p, kernel,
                   PortAdmits(port.value, p), Logged(rule, group.Some?) ==> p.ct == New);
    } else {
      assert [] + LogExprs(rule, group) == LogExprs(rule, group);
    }
  }

  // ----- one concrete rule, and all of them -----

  predicate CellHolds(rule: Rule, c: Cell, sets: SetTable, p: Packet, logging: bool) {
    && SideHolds(c.src, sets, c.family, p.src)
    && SideHolds(c.dst, sets, c.family, p.dst)
    && (c.port.Some? ==> PortAdmits(c.port.value, p))
    && (Logged(rule, logging) ==> p.ct == New)
  }

  function Outcome(es: seq<Expr>, p: Packet, kernel: KernelSets): Run {
    Exec(es, Running([]), p, kernel)
  }

  lemma VerdictAfter(es: seq<Expr>, v: NftVerdict, p: Packet, kernel: KernelSets, cond: bool)
    requires Guards(es, p, kernel, cond)
    ensures Outcome(es + [Immediate(v)], p, kernel) == if cond then Decided(v) else Broke
  {
    var last := [Immediate(v)];
    ExecAppend(es, last, Running([]), p, kernel);
    var mid := Exec(es, Running([]), p, kernel);
    ExecBroke(last, p, kernel);
    assert last[1..] == [];
    assert Exec(last, mid, p, kernel) == Exec([], Step(last[0], mid, p, kernel), p, kernel);
  }

  lemma CellMeaning(
      rule: Rule, c: Cell, sets: SetTable, index: SetIndex, group: Option<u16>, p: Packet, kernel: KernelSets)
    requires SingleFamily(p) && Represents(sets, index, kernel)
    requires WellFormedSide(c.src) && WellFormedSide(c.dst) && SetOk(c.src, c.family, index)
         && SetOk(c.dst, c.family, index)
    ensures var es := CellExprs(rule, c, index, group);
            && es.Ok?
            && Outcome(es.value, p, kernel)
               == if CellHolds(rule, c, sets, p, group.Some?) then Decided(NftVerdictOf(rule.verdict)) else Broke
  {
    SideMeaning(c.src, sets, index, c.family, true, p, kernel);
    SideMeaning(c.dst, sets, index, c.family, false, p, kernel);
    TailMeaning(rule, c.port, group, p, kernel);
    var src, dst := SideExprs(c.src, index, c.family, true).value, SideExprs(c.dst, index, c.family, false).value;
    var hs, hd := SideHolds(c.src, sets, c.family, p.src), SideHolds(c.dst, sets, c.family, p.dst);
    var tail := (c.port.Some? ==> PortAdmits(c.port.value, p)) && (Logged(rule, group.Some?) ==> p.ct == New);
    GuardsAppend(src, dst, p, kernel, hs, hd);
    GuardsAppend(src + dst, TailExprs(rule, c.port, group), p, kernel, hs && hd, tail);
    VerdictAfter(src + dst + TailExprs(rule, c.port, group), NftVerdictOf(rule.verdict), p, kernel, hs && hd && tail);
  }

  lemma SidesWellFormed(m: Match, side: Side)
    requires WellFormedMatch(m) && side in Sides(m)
    ensures WellFormedSide(side)
  {}

  /** The side of a match that holds of an address, when the match denotes it. */
  lemma SideOf(m: Match, sets: SetTable, index: SetIndex, kernel: KernelSets, a: IpAddr) returns (side: Side)
    requires Denotes(m, sets, a) && Represents(sets, index, kernel) && WellFormedMatch(m)
    ensures side in Sides(m) && SideHolds(side, sets, FamilyOf(a), a) && SetOk(side, FamilyOf(a), index)
    ensures SideFamily(side).Some? ==> SideFamily(side).value == FamilyOf(a)
  {
    match m
    case Any => side := AnySide;
    case Addrs(addrs) =>
      var ordered := AscendingAddrs(addrs);
      var i :| 0 <= i < |ordered| && ordered[i] == a;
      side := AddrSide(a);
      assert Sides(m)[i] == side;
    case Named(name) =>
      InFamilyKeys(sets[name], a);
      side := SetSide(name);
    case Block(cidr, except) => side := CidrSide(cidr, except);
  }

  lemma SideDenotes(m: Match, side: Side, sets: SetTable, f: Family, a: IpAddr)
    requires side in Sides(m) && SideHolds(side, sets, f, a)
    ensures Denotes(m, sets, a)
  {}

  lemma PortChosen(ports: seq<Port>, p: Packet)
    ensures PortsAdmit(ports, p)
       <==> exists choice :: choice in PortChoices(ports) && (choice.Some? ==> PortAdmits(choice.value, p))
  {
    var choices := PortChoices(ports);
    if ports == [] {
      assert choices == [None] && None in choices;
    } else if PortsAdmit(ports, p) {
      var port :| port in ports && PortAdmits(port, p);
      var i :| 0 <= i < |ports| && ports[i] == port;
      assert choices[i] == Some(port);
    }
  }

  /** A cell that holds makes the rule fire. */
  lemma CellFires(rule: Rule, c: Cell, sets: SetTable, index: SetIndex, p: Packet, logging: bool)
    requires c in Cells(rule, index) && CellHolds(rule, c, sets, p, logging)
    ensures Fires(rule, sets, p, logging)
  {
    InCells(rule, index, c);
    SideDenotes(rule.saddr, c.src, sets, c.family, p.src);
    SideDenotes(rule.daddr, c.dst, sets, c.family, p.dst);
    PortChosen(rule.ports, p);
  }

  /** A rule that fires has a cell that holds. */
  lemma FiringCell(
      rule: Rule, sets: SetTable, index: SetIndex, kernel: KernelSets, p: Packet, logging: bool) returns (c: Cell)
    requires SingleFamily(p) && Represents(sets, index, kernel) && WellFormed(rule) && Fires(rule, sets, p, logging)
    ensures c in Cells(rule, index) && CellHolds(rule, c, sets, p, logging)
  {
    var src := SideOf(rule.saddr, sets, index, kernel, p.src);
    var dst := SideOf(rule.daddr, sets, index, kernel, p.dst);
    PortChosen(rule.ports, p);
    var port :| port in PortChoices(rule.ports) && (port.Some? ==> PortAdmits(port.value, p));
    c := Cell(src, dst, FamilyOf(p.src), port);
    assert FamilyOf(p.src) in Candidates(src, dst);
    InCells(rule, index, c);
  }

  /** Building never fails on a well-formed rule: in particular no unknown set is ever referenced. */
  lemma CellsAlwaysBuild(rule: Rule, index: SetIndex, group: Option<u16>)
    requires WellFormed(rule)
    ensures CellsBuild(rule, Cells(rule, index), index, group)
  {
    hide Cells, Sides;
    forall c | c in Cells(rule, index) ensures CellExprs(rule, c, index, group).Ok? {
      InCells(rule, index, c);
      SidesWellFormed(rule.saddr, c.src);
      SidesWellFormed(rule.daddr, c.dst);
    }
  }

  predicate AllSay(rules: seq<seq<Expr>>, v: NftVerdict, p: Packet, sets: KernelSets) {
    forall i | 0 <= i < |rules| :: Outcome(rules[i], p, sets) == Broke || Outcome(rules[i], p, sets) == Decided(v)
  }

  predicate SomeDecides(rules: seq<seq<Expr>>, p: Packet, sets: KernelSets) {
    exists i | 0 <= i < |rules| :: Outcome(rules[i], p, sets).Decided?
  }

  /** Expansion preserves meaning: the concrete rules all carry the rule's verdict, and one of
      them applies to a packet exactly when the rule fires on it. */
  lemma ExpansionMeaning(
      rule: Rule, sets: SetTable, index: SetIndex, kernel: KernelSets, group: Option<u16>, p: Packet)
    requires SingleFamily(p) && Represents(sets, index, kernel) && WellFormed(rule)
    ensures CellsBuild(rule, Cells(rule, index), index, group)
    ensures var rules := BuildAll(rule, Cells(rule, index), index, group);
            var v := NftVerdictOf(rule.verdict);
            && AllSay(rules, v, p, kernel)
            && (SomeDecides(rules, p, kernel) <==> Fires(rule, sets, p, group.Some?))
  {
    hide Cells, CellExprs, CellHolds, Outcome, Fires, Sides;
    CellsAlwaysBuild(rule, index, group);
    var cells := Cells(rule, index);
    var rules := BuildAll(rule, cells, index, group);
    forall i | 0 <= i < |rules|
      ensures Outcome(rules[i], p, kernel)
        == if CellHolds(rule, cells[i], sets, p, group.Some?) then Decided(NftVerdictOf(rule.verdict)) else Broke
      ensures CellHolds(rule, cells[i], sets, p, group.Some?) ==> Fires(rule, sets, p, group.Some?)
    {
      var c := cells[i];
      InCells(rule, index, c);
      SidesWellFormed(rule.saddr, c.src);
      SidesWellFormed(rule.daddr, c.dst);
      CellMeaning(rule, c, sets, index, group, p, kernel);
      if CellHolds(rule, c, sets, p, group.Some?) { CellFires(rule, c, sets, index, p, group.Some?); }
    }
    if Fires(rule, sets, p, group.Some?) {
      var c := FiringCell(rule, sets, index, kernel, p, group.Some?);
      var i :| 0 <= i < |cells| && cells[i] == c;
      assert Outcome(rules[i], p, kernel).Decided?;
    }
  }
}
