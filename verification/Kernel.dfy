/** The kernel's side of an apply: an all-or-nothing transaction, and evaluation of the table it leaves. */
module Kernel {
  import opened Common
  import opened Address
  import opened Packets
  import opened NftRules
  import opened Expand

  datatype Msg =
    | AddTable
    | DelTable
    | AddSet(name: string, id: nat, family: Family)
    | AddElements(setName: string, keys: seq<seq<byte>>)
    | AddChain(name: string)
    | AddBaseChain(name: string)
    | AddRule(chain: string, exprs: seq<Expr>)

  /** Base chains have policy accept. */
  datatype Table = Table(sets: KernelSets, chains: map<string, seq<seq<Expr>>>, base: Option<string>)

  const EMPTY_TABLE := Table(map[], map[], None)

  /** suho's own table, present or not. */
  datatype Kernel = NoTable | Has(table: Table)

  /** What a rule refers to exists. */
  predicate Resolves(es: seq<Expr>, t: Table) {
    forall i | 0 <= i < |es| :: ExprResolves(es[i], t)
  }

  predicate ExprResolves(e: Expr, t: Table) {
    && (e.Lookup? ==> e.setName in t.sets)
    && (e.Immediate? && e.verdict.NfJump? ==> e.verdict.chain in t.chains)
  }

  /** One message inside a transaction; None is a rejection. A second set of a name is refused. */
  function Process(m: Msg, k: Kernel): Option<Kernel> {
    match m
    case AddTable => Some(if k.NoTable? then Has(EMPTY_TABLE) else k)
    case DelTable => if k.NoTable? then None else Some(NoTable)
    case AddSet(name, _, _) =>
      if k.NoTable? || name in k.table.sets then None
      else Some(Has(k.table.(sets := k.table.sets[name := {}])))
    case AddElements(name, keys) =>
      if k.NoTable? || name !in k.table.sets then None
      else Some(Has(k.table.(sets := k.table.sets[name := k.table.sets[name] + set x | x in keys])))
    case AddChain(name) =>
      if k.NoTable? then None
      else if name in k.table.chains then Some(k)
      else Some(Has(k.table.(chains := k.table.chains[name := []])))
    case AddBaseChain(name) =>
      if k.NoTable? then None
      else if name in k.table.chains then Some(k)
      else Some(Has(k.table.(chains := k.table.chains[name := []], base := Some(name))))
    case AddRule(chain, es) =>
      if k.NoTable? || chain !in k.table.chains || !Resolves(es, k.table) then None
      else Some(Has(k.table.(chains := k.table.chains[chain := k.table.chains[chain] + [es]])))
  }

  function RunBatch(msgs: seq<Msg>, k: Kernel): Option<Kernel> {
    if msgs == [] then Some(k) else
      match Process(msgs[0], k)
      case None => None
      case Some(k') => RunBatch(msgs[1..], k')
  }

  /** All or nothing: a rejected batch leaves the kernel as it was. */
  function Commit(msgs: seq<Msg>, k: Kernel): (r: (Kernel, bool))
    ensures !r.1 ==> r.0 == k
  {
    match RunBatch(msgs, k)
    case None => (k, false)
    case Some(k') => (k', true)
  }

  /** What becomes of a send: it may fail outright, or the acknowledgements may not be read to the end. */
  datatype Delivery = NotSent | AcksLost | AcksRead

  /** The kernel afterwards, and whether the sender hears of success: a lost acknowledgement reports
      failure even though the kernel may have committed. */
  function Sent(msgs: seq<Msg>, k: Kernel, d: Delivery): (Kernel, bool) {
    if d.NotSent? then (k, false) else
      var (after, accepted) := Commit(msgs, k);
      (after, accepted && d.AcksRead?)
  }

  lemma {:induction false} RunAppend(a: seq<Msg>, b: seq<Msg>, k: Kernel)
    ensures RunBatch(a + b, k)
         == var mid := RunBatch(a, k); if mid.None? then None else RunBatch(b, mid.value)
  {
    if a == [] {
      assert a + b == b;
    } else {
      assert (a + b)[1..] == a[1..] + b;
      var k' := Process(a[0], k);
      if k'.Some? { RunAppend(a[1..], b, k'.value); }
    }
  }

  // ----- evaluating a packet -----

  /** A chain either gives the verdict or hands back to its caller. */
  datatype ChainEnd = Fell | Final(accept: bool)

  /** The kernel's limit on nested jumps. */
  const JUMP_STACK := 16

  function EvalRules(t: Table, rules: seq<seq<Expr>>, p: Packet, depth: nat): ChainEnd
    decreases depth, |rules|
  {
    if rules == [] then Fell else
    match Outcome(rules[0], p, t.sets)
    case Decided(NfAccept) => Final(true)
    case Decided(NfDrop) => Final(false)
    case Decided(NfReturn) => Fell
    case Decided(NfJump(c)) =>
      if depth == 0 || c !in t.chains then Final(false) else
        var end := EvalRules(t, t.chains[c], p, depth - 1);
        if end.Final? then end else EvalRules(t, rules[1..], p, depth)
    case _ => EvalRules(t, rules[1..], p, depth)
  }

  /** Without a table, and past the end of the base chain, packets are accepted. */
  predicate Accepts(k: Kernel, p: Packet) {
    (k.Has? && k.table.base.Some? && k.table.base.value in k.table.chains) ==>
      EvalRules(k.table, k.table.chains[k.table.base.value], p, JUMP_STACK) != Final(false)
  }

  lemma SomeDecidesStep(rules: seq<seq<Expr>>, p: Packet, sets: KernelSets)
    requires rules != []
    ensures SomeDecides(rules, p, sets) <==> Outcome(rules[0], p, sets).Decided? || SomeDecides(rules[1..], p, sets)
  {
    hide Outcome;
    if SomeDecides(rules[1..], p, sets) {
      var i :| 0 <= i < |rules| - 1 && Outcome(rules[1..][i], p, sets).Decided?;
      assert rules[i + 1] == rules[1..][i];
    }
    if SomeDecides(rules, p, sets) && !Outcome(rules[0], p, sets).Decided? {
      var i :| 0 <= i < |rules| && Outcome(rules[i], p, sets).Decided?;
      assert rules[1..][i - 1] == rules[i];
    }
  }

  /** Rules that can only say one verdict say it if any of them applies, else the rest decide. */
  lemma {:induction false} EvalBlock(
      t: Table, block: seq<seq<Expr>>, rest: seq<seq<Expr>>, v: NftVerdict, p: Packet, depth: nat)
    requires AllSay(block, v, p, t.sets) && (v == NfReturn || v == NfDrop)
    ensures EvalRules(t, block + rest, p, depth)
         == if !SomeDecides(block, p, t.sets) then EvalRules(t, rest, p, depth)
            else if v == NfDrop then Final(false) else Fell
  {
    if block == [] {
      assert block + rest == rest;
    } else {
      assert (block + rest)[1..] == block[1..] + rest;
      EvalBlock(t, block[1..], rest, v, p, depth);
      SomeDecidesStep(block, p, t.sets);
    }
  }
}
