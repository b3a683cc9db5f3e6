/** One reconcile: list, compile, publish the IP index, apply. */
module Reconcile {
  import opened Common
  import opened Address
  import opened Policy
  import opened Compile
  import opened Kernel
  import opened Acks
  import opened Apply
  import opened EndToEnd

  /** What applying a snapshot's ruleset does to the kernel, and whether it reports success. */
  function Reconciled(cfg: Config, targets: seq<Target>, group: Option<u16>, k: Kernel, d: Delivery): (Kernel, bool) {
    if d.NotSent? || Clash(Compiled(cfg, targets).sets) then (k, false)
    else (Programmed(cfg, targets, group), d.AcksRead?)
  }

  /** The batch that one reconcile sends. */
  function CompiledBatch(cfg: Config, targets: seq<Target>, group: Option<u16>): (msgs: seq<Msg>)
    ensures msgs != []
  {
    CompiledBuilds(cfg, targets, group);
    BatchOf(Compiled(cfg, targets), group)
  }

  /** Over a socket that brings the kernel's answers, sending the batch is the abstract reconcile. */
  lemma ReconciledOver(cfg: Config, targets: seq<Target>, group: Option<u16>, k: Kernel, link: Link)
    requires Faithful(link, CompiledBatch(cfg, targets, group), k)
    ensures SentOver(CompiledBatch(cfg, targets, group), k, link)
         == Reconciled(cfg, targets, group, k, DeliveryOf(link, CompiledBatch(cfg, targets, group)))
  {
    hide Compiled, Programmed, Commit, BatchOf, Faithful, DeliveryOf, SentOver, Clash;
    ApplyCompiled(cfg, targets, group, k);
    SendReportsCommit(link, CompiledBatch(cfg, targets, group), k);
  }

  class Reconciler {
    const cfg: Config
    const enforcer: NftEnforcer
    const host: Host
    var ipIndex: map<IpAddr, string>

    constructor (cfg: Config, enforcer: NftEnforcer, host: Host)
      ensures this.cfg == cfg && this.enforcer == enforcer && this.host == host && ipIndex == map[]
    {
      this.cfg := cfg;
      this.enforcer := enforcer;
      this.host := host;
      ipIndex := map[];
    }

    /** `listing` is what Docker answered, if it did, and `link` what becomes of the send. A failed
        listing changes nothing; otherwise the index is replaced whatever the apply does, and, if what
        comes back are the kernel's answers, the table is the snapshot's whatever it was before. */
    method RunOnce(listing: Option<seq<Target>>, link: Link) returns (ok: bool)
      modifies this, host
      ensures listing.None? ==> !ok && ipIndex == old(ipIndex) && host.kernel == old(host.kernel)
      ensures listing.Some? ==> ipIndex == IpIndex(listing.value)
      ensures listing.Some? ==>
        (host.kernel, ok) == SentOver(CompiledBatch(cfg, listing.value, enforcer.flowlogGroup), old(host.kernel), link)
      ensures
        var group := enforcer.flowlogGroup;
        listing.Some? && Faithful(link, CompiledBatch(cfg, listing.value, group), old(host.kernel)) ==>
          (host.kernel, ok) == Reconciled(cfg, listing.value, group, old(host.kernel),
                                          DeliveryOf(link, CompiledBatch(cfg, listing.value, group)))
    {
      hide Compiled, IpIndex, Programmed, Commit, BatchOf, Faithful, DeliveryOf, SentOver, Clash;
      if listing.None? {
        return false;
      }
      var targets, group := listing.value, enforcer.flowlogGroup;
      ghost var k := host.kernel;
      var ruleset := CompileRuleset(cfg, targets);
      var index := BuildIpIndex(targets);
      ipIndex := index;
      CompiledBuilds(cfg, targets, group);
      var r := enforcer.Apply(ruleset.Value(), host, link);
      ok := r.Ok?;
      if Faithful(link, CompiledBatch(cfg, targets, group), k) {
        ReconciledOver(cfg, targets, group, k, link);
      }
    }
  }
}
