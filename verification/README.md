# suho, verified

suho turns container labels and policy files into an nftables table, keeps that table in step with
Docker, and reports dropped flows. This project models those three parts in Dafny and proves what they
are for.

**The policy compiler and its packets.** Three levels are modelled and each is proved to refine the one
above it: the policies' meaning (who is isolated, and the dual check of
`docs/network-policies.md:41-62`), the compiled ruleset with first-match evaluation, and the kernel table
that a committed batch leaves, evaluated expression by expression through `forward`, `suho_egress` and
`suho_ingress`. The main theorem is `Enforcement.TableDoesWhatIsDocumented`: its right-hand side
(`Documented.Passes`) is written on the fields of containers, labels, policies and packets and calls none of
the tests the compiler makes. Around it stand the laws: order of policies, rules, peers and containers does
not matter, drops only narrow, allows only widen, flow logging is transparent.

**The daemon.** Docker, the watcher task, the capacity-1 channel, and the consumer with its debounce,
ticker and reconciles are a step system; any interleaving and any failure is a list of steps.

**The netlink and flow-log machinery.** Message and attribute walkers over raw bytes, the acknowledgement
drain, the timed dedup map with sweeping, the token bucket over real time, and the receiver that strings
them together.

| part | files |
|---|---|
| foundations | `Common`, `Ordering`, `Address`, `Text`, `Bytes` |
| policy model, packets | `Policy`, `Packets`, `FlowPrefix` |
| compiler | `Ruleset` (module `RulesetIR`), `Resolve`, `Emit`, `Compile` |
| enforcer and kernel | `NftRules`, `Expand`, `Kernel`, `Acks`, `Apply`, `SetNames`, `Install` |
| what the documents say, main theorem | `EndToEnd`, `Documented`, `Agreement`, `Peers`, `Isolation`, `Enforcement` |
| laws | `FlowlogLaw`, `DropTags`, `LogTrace`, `Laws`, `Additivity` |
| daemon | `Reconcile`, `Daemon` |
| netlink and flow log | `Netlink`, `NfLog`, `Dedup`, `Limiter`, `FlowLog` |

`dafny verify dfyconfig.toml` checks the whole project.

## How the model is built

- Code that mutates is a method (or a class) proved equal to a specification function of its inputs or old
  state; the properties are then lemmas about those functions.
- The kernel's side is written with numbers (protocols 6 and 17, families 2 and 10, conntrack bits, widths 32
  and 128, netlink types 2 and 3), the building side with the code's named constants; the proofs connect them.
- `src/reconcile/egress.rs` and `src/reconcile/ingress.rs` are mirror images, so one model takes the
  direction as a parameter; a policy type is the direction it isolates.
- Reading IP-address text, policy text and packet headers, decoding text and printing addresses are
  functions given as parameters (`Config.readIp`, `Config.readPolicy`, `Readers`). Docker's answers, the
  clock, and what becomes of a send are parameters of the methods that need them.
- The libraries under the code get small semantics: an nftables rule is a list of expressions run on a
  register machine; a prefix mask is the usual run of ones; a batch is committed whole or not at all; a
  second set of one name is refused; a chain jump nests at most 16 deep. An address load from a packet of
  the other family yields arbitrary bytes (`Packet.stray`), so the family guards are needed and are proved
  to be there.
- Native byte order is taken to be little-endian. Integers are unbounded, with the widths the code uses
  stated as subset types.
- A listing shows Docker's state at one instant.
- The kernel is taken to acknowledge the objects of a batch in order, numbered from 1, up to the first it
  refuses, which it answers with an error number; what it sends after that is not constrained
  (`Acks.Answers`). A batch's terminal number is that of its last object (`Netlink.TerminalOfBatch`).

## Where code and documentation part, and where a property needs a condition

- `docs/network-policies.md:51-52` says order never matters. For policies, rules and peers that holds. For
  containers, when isolated ones share an address the first in list order decides (`Compile.Owner`), and the
  main theorem says so: their order is irrelevant exactly when all isolated holders of the address agree
  (`Laws.ContainerOrderExactly`), in particular when isolated containers have disjoint addresses.
- The same lines call policies additive. An allow rule can also deny: added to a policy without types and
  without rules in that direction, it switches enforcement on (`Additivity.AddingAllowCanDeny`).
- Logged drops carry a `ct state new` guard, so with flow logging on, INVALID and UNTRACKED packets pass
  logged drops (`FlowlogLaw.TransparencyFailsUntracked`). `FlowlogLaw.HiddenVerdictExactly` gives their exact
  verdict; the policies' meaning is claimed of them only with flow logging off.
- Kernel set names are `name` and `name_6`. A batch is refused exactly when a network set named `x` with
  IPv6 members meets one named `x_6` with IPv4 members (`Install.CommitExact`). That happens
  (`SetNames.ClashWitness`); a snapshot is safe from it under all policies exactly when no two of its networks
  clash (`SetNames.SafeNetworksExactly`).
- `flowlog_prefix` budgets in characters and compares bytes. The 120-byte bound holds exactly when the name
  fits anyway or its kept part is ASCII (`FlowPrefix.PrefixBound`, `FlowPrefix.PrefixBoundFails`).
- The comment on `Cidr` says IPv4; the code takes both families, and so does the model.
- A lone `network` peer means the addresses on that network; combined with another filter it means all
  addresses of the matching containers. `cidr` overrides the other fields. Excepts that do not parse, or
  are of the other family, vanish.
- A wakeup can be lost: a received signal is spent before the listing it asks for, so when that listing
  fails in the loop the change waits for the ticker. `Daemon.WakeupLostExactly` says this is the only way,
  `Daemon.WakeupCanBeLost` gives the run.
- An apply that reports failure may have changed the table: if the batch commits and reading its
  acknowledgements fails, the kernel is ahead of what the daemon believes (`Daemon.CommittedGetsAhead`). The
  invariants speak of the last committed snapshot; `Daemon.CommittedAheadExactly` says after which steps it
  differs from the last confirmed one.
- The IP index names the last container that has an address, while a verdict goes by the first isolated
  one; and the index is published before the apply, so it may run ahead of the table.

## Model

| member | source | states |
|---|---|---|
| Enforcement.TableDoesWhatIsDocumented | docs/network-policies.md:41-62 | for every snapshot, policy set, logging group and earlier table, the committed table accepts a single-family packet exactly when it is a reply, or at each end the first container that has the address and is isolated is told by some policy to allow it and by none to drop it, all of this read off labels, policy fields, address bits, protocol numbers and ports; with flow logging on, for packets in state NEW, ESTABLISHED or RELATED |
| Agreement.MeaningAgrees | docs/network-policies.md:95-192 | what the compiler means by a snapshot's policies is what the document says of their fields |
| Agreement.EnforcingExactly | src/reconcile/mod.rs:240-266 | the policies that enforce a direction on a container are those whose label or global entry governs it and whose fields isolate that direction |
| Peers.ResolvedPeerExactly | src/reconcile/resolve.rs:44-113 | in every later state of the set table a resolved peer denotes exactly the addresses its fields stand for |
| Peers.OnlyBarePeerIsAny | src/reconcile/resolve.rs:78 | only the peer with no field set resolves to any address |
| Peers.FiltersHold | src/reconcile/resolve.rs:97-111 | without a block and with an identity field set, every address denoted belongs to a container that satisfies each field that is set |
| Peers.LoneNetworkExactly | src/reconcile/resolve.rs:79-96 | a lone network denotes exactly the addresses that containers have on that network |
| Peers.CombinedExactly | src/reconcile/resolve.rs:97-111 | a container name or selector, with or without other fields, denotes every address of the containers that satisfy them all |
| Isolation.DefaultDenyExactly | src/reconcile/egress.rs:94-101 | a compiled chain holds a default deny for a container exactly when one of its name and addresses has an address and is isolated in that direction |
| Isolation.DefaultDenyOfContainer | src/reconcile/egress.rs:20-25 | with unique names, a container with addresses has a default deny exactly when some policy that governs it lists the direction, or lists none and has a rule there |
| Isolation.DirectionsExactly | docs/network-policies.md:117-127 | the directions made default-deny by one policy for everybody, for each way to write its types |
| Enforcement.OnePortOpens | docs/network-policies.md:186-192 | with one egress allow of one port, the committed table accepts a new packet from a container exactly when it has protocol 6 (a TCP port) or 17 (a UDP port) and a port in the range |
| EndToEnd.TableEnforcesPolicies | src/reconcile/mod.rs:160-235 | for every snapshot, policy set, logging group and earlier table, the committed table accepts a single-family packet exactly when it is a reply, or the first isolated owner of its source and the first isolated owner of its destination both permit it; with flow logging on, for packets in state NEW, ESTABLISHED or RELATED |
| EndToEnd.TableVerdictExactly | src/enforce/nft.rs:187-212 | what the table does with every single-family packet in every conntrack state, flow logging on or off |
| EndToEnd.ApplyCompiled | src/enforce/nft.rs:124-128 | a commit of a compiled ruleset leaves that ruleset's table whatever was there before, or is refused with nothing changed on a kernel-name clash |
| EndToEnd.DisjointClears | docs/network-policies.md:54-57 | with disjoint isolated containers, a direction clears exactly when each isolated container holding the address permits the packet |
| Compile.CompiledChainMeaning | src/reconcile/mod.rs:182-235 | on a packet that flow logging does not hide, first-match over a compiled chain is the verdict of the first isolated owner's policies |
| Compile.CompiledChainVerdict | src/reconcile/mod.rs:182-235 | first-match over a compiled chain, for every packet, is the verdict of the first container in list order with a say; where logging hides the packet only allows and `log: false` drops speak |
| Compile.CompileRuleset | src/reconcile/mod.rs:160-235 | the mutating loop builds exactly the specified ruleset, set table included |
| Compile.CollectInline | src/reconcile/mod.rs:168-180 | every label that parses is collected with its carrier, in order; the others are skipped |
| Compile.SelectPolicies | src/reconcile/mod.rs:240-266 | label policies that apply, then global policies that apply, in order |
| Compile.CompiledSound | src/reconcile/mod.rs:182-233 | no rule refers to an unregistered set or an invalid block |
| SetNames.CompiledSetsFold | src/reconcile/resolve.rs:77-113 | the compiled set table is what resolving the enforced rules' peers one after another leaves |
| SetNames.EntriesNeverChange | src/reconcile/resolve.rs:83-95 | an entry present after any number of the compile's peer resolutions is the same in the final table |
| SetNames.TableByClaims | src/reconcile/resolve.rs:80-95 | a set name is registered exactly when some lone-network peer claims it, and holds the members of the first claimant's network |
| SetNames.ClashExactly | src/enforce/nft.rs:134-185 | which policies and containers give two set parts one kernel name |
| SetNames.SafeNetworksExactly | src/enforce/nft.rs:173 | no policies can make the kernel refuse a snapshot's batch exactly when no network with IPv6 members and no network with IPv4 members have set names `x` and `x_6` |
| SetNames.ClashWitness | src/enforce/nft.rs:173 | a container on networks `a` (IPv6) and `a_6` (IPv4) and one policy naming both clash |
| Compile.BuildIpIndex | src/reconcile/mod.rs:146-156 | the insert loop builds the index |
| Compile.IpIndexNamesLastHolder | src/reconcile/mod.rs:146-156 | the index holds an address exactly when some container does, and names the last one |
| Emit.EmitBlock | src/reconcile/egress.rs:29-102 | one container's block of one direction is appended and nothing else changes |
| Emit.EmitPass | src/reconcile/egress.rs:39-68 | one pass over the policies appends the rules of one action only |
| Emit.EmitRule | src/reconcile/ingress.rs:39-67 | a policy rule yields one compiled rule per match its peers resolve to |
| Emit.Matches | src/reconcile/egress.rs:44-51 | no peers means any address; peers that resolve to nothing are dropped |
| Emit.BlockShape | src/reconcile/egress.rs:27-28 | a block is drops, then returns, then one catch-all drop, all for the container's own addresses |
| Emit.BlockMeaning | src/reconcile/ingress.rs:29-102 | a block decides the packets of its own addresses only: return if permitted, else drop; on a packet that logging hides, what its `log: false` drops and allows say |
| Emit.PassOutMeaning | src/reconcile/egress.rs:69-93 | a pass has a rule that fires exactly when some policy rule of that action covers the packet and is not hidden from it |
| Emit.RuleOutMeaning | src/reconcile/egress.rs:74-91 | the rules of one policy rule fire exactly on the addresses and ports it covers, logged drops on NEW packets only |
| Resolve.Resolve | src/reconcile/resolve.rs:44-113 | the mutating resolver returns the specified match and leaves the specified set table; it returns any address exactly for the peer with no field set, and never an empty list of addresses |
| Resolve.ResolveMeaning | src/reconcile/resolve.rs:77-113 | in every later state of the set table, a peer's match denotes exactly the addresses the peer stands for |
| Resolve.ResolveExtends | src/reconcile/resolve.rs:83-95 | resolving only ever adds set entries |
| Resolve.CidrMeaning | src/reconcile/resolve.rs:50-75 | a block peer denotes its block minus every except that parses in its family |
| Resolve.SetNameExactly | src/reconcile/resolve.rs:121-131 | a set name is `net_` and the network's name, with `_` for every character but ASCII letters, digits and `_` |
| Resolve.SetNamesCollide | src/reconcile/resolve.rs:121-131 | two different network names share a set name |
| Resolve.IndexTargets | src/reconcile/resolve.rs:21-32 | the nested insert loops build the network index |
| Resolve.IndexMembers | src/reconcile/resolve.rs:21-32 | the index holds, per network, exactly the addresses its containers have on it |
| RulesetIR.Ruleset.Push | src/enforce/ruleset.rs:16-24 | a rule is appended to one chain; the other chain and the sets stay |
| RulesetIR.FirstMatchAppend | src/enforce/ruleset.rs:20-23 | first-match over a concatenation is the first half's verdict, else the second's |
| RulesetIR.UniformVerdict | src/enforce/ruleset.rs:84-89 | rules of one verdict decide a packet exactly when one fires |
| RulesetIR.StableFirstMatch | src/reconcile/resolve.rs:83-95 | registering more sets changes no verdict of rules already emitted |
| Address.MaskedCompareIsBlock | src/enforce/nft.rs:404-415 | octetwise masked compare is numeric membership in the aligned block of 2^(width-prefix) addresses, both families |
| Address.BlockIsFirstBits | src/enforce/nft.rs:402-415 | a block holds exactly the addresses of its family that agree with it on the first prefix bits |
| Address.MaskedEqual | src/enforce/nft.rs:371-377 | masked octets are equal exactly when the numbers' top prefix bits are |
| Address.AndHighMask | src/enforce/nft.rs:76-82 | ANDing with a run of high ones clears exactly the low bits |
| NftRules.ApplySide | src/enforce/nft.rs:355-390 | one side's expressions are appended, or the error at an invalid block or unknown set |
| NftRules.BuildExcepts | src/enforce/nft.rs:378-380 | one exclusion per except, in order |
| NftRules.BuildCell | src/enforce/nft.rs:283-304 | one concrete rule: source, destination, port, log with its guard, verdict |
| NftRules.InCells | src/enforce/nft.rs:278-308 | the product holds exactly the combinations of a source, a destination, one of their families, and a port |
| Expand.ExpandRule | src/enforce/nft.rs:264-310 | the nested loops build one concrete rule per combination, in order, or return the error of the first combination that cannot be built |
| Expand.ExpandPair | src/enforce/nft.rs:281-307 | one source and destination are built for each family they allow, or the first error is returned |
| Expand.ExpansionMeaning | src/enforce/nft.rs:261-310 | for every packet, the concrete rules all say the rule's verdict or nothing, and one says it exactly when the rule fires |
| Expand.CellsAlwaysBuild | src/enforce/nft.rs:383-388 | a well-formed rule always builds; the unknown-set error is unreachable |
| Expand.SideMeaning | src/enforce/nft.rs:355-390 | a side's expressions let a packet through exactly when its address satisfies the side in that family |
| Expand.CellMeaning | src/enforce/nft.rs:283-304 | a concrete rule gives its verdict exactly when both sides, the port and the log guard hold |
| Expand.PortMeaning | src/enforce/nft.rs:429-454 | a TCP port lets through exactly packets of protocol 6, a UDP port of protocol 17, with any port, the one, or one in the inclusive range |
| Expand.BlockMeaning | src/enforce/nft.rs:402-415 | the masked comparison selects, or excludes, exactly the block |
| Expand.CtGuardMeaning | src/enforce/nft.rs:417-427 | the conntrack guard passes exactly the states in its mask |
| Apply.BuildSets | src/enforce/nft.rs:130-185 | the set loop: per name an IPv4 part then an IPv6 part, none for an empty part |
| Apply.BuildChain | src/enforce/nft.rs:198-207 | every rule of a chain expanded in order, or the error of the first that cannot be |
| Apply.NftEnforcer.BuildBatch | src/enforce/nft.rs:121-212 | the whole transaction in order: replace, sets, chains, egress, ingress, forward; or the first error, egress rules before ingress rules |
| Apply.NftEnforcer.Apply | src/enforce/nft.rs:120-224 | what applying leaves in the kernel and reports, for every fate of the send; a build error is returned and nothing is sent |
| Apply.Host.Send | src/enforce/netlink.rs:59-105 | the kernel commits the batch whole or not at all, and success is what draining the receives to the last object's number reports |
| Acks.AnswersDecide | src/enforce/netlink.rs:128-182 | read whole, the kernel's acknowledgements (one per object up to the first refusal, which alone starts with a non-zero byte among its first four) acknowledge the batch exactly when it is committed |
| Acks.SendReportsCommit | src/enforce/netlink.rs:101-126 | however the answers are split, and wherever reading breaks off, success is reported exactly when the batch is committed and the drain decided |
| Acks.WholeAnswersDecide | src/enforce/netlink.rs:107-126 | answers read to the end always decide |
| Install.PlanRuns | src/enforce/nft.rs:134-185 | the set messages run exactly when no two parts want one kernel name, and leave exactly the parts |
| Install.PlanRepresents | src/enforce/nft.rs:134-185 | without a clash each (name, family) key leads to that family's members, and only non-empty parts have keys |
| Install.SetsTyped | src/enforce/nft.rs:153-184 | every set is created with the family of the elements put into it, 4 or 16 bytes each, and none stays empty |
| Install.SetIdsAscend | src/enforce/nft.rs:130-131 | set ids are non-zero and unique |
| Install.CommitExact | src/enforce/nft.rs:124-216 | the batch is accepted exactly when there is no clash, and then the table does not depend on the earlier one |
| Install.CommittedChains | src/enforce/nft.rs:187-212 | the committed table has the chains `forward`, `suho_egress` and `suho_ingress`, the first being the base and jumping to the others in that order |
| Install.ChainEval | src/enforce/nft.rs:198-207 | evaluating an expanded chain is first-match over its rules, then the rest |
| Install.ForwardEval | src/enforce/nft.rs:208-212 | replies are accepted; everything else must survive the egress and then the ingress stage |
| Install.TableMeaning | src/enforce/nft.rs:187-212 | the table accepts a packet, in any conntrack state, exactly when it is a reply or neither chain's first match drops it |
| LogTrace.CellLogs | src/enforce/nft.rs:289-303 | a concrete rule logs exactly when it is a logged drop and gives its verdict |
| LogTrace.TableLogs | src/enforce/nft.rs:187-212 | for any packet the table logs what the deciding rule of the stage that drops it logs |
| LogTrace.DropsLoggedOnce | src/enforce/nft.rs:289-298 | with flow logging on, accepted packets and packets not in state NEW are never logged; a dropped NEW packet is logged once, under the name of the owner whose policies dropped it, unless one of them opts out |
| Laws.PolicyOrderIrrelevant | docs/network-policies.md:49-52 | permuting policies, rules, peers and ports leaves every verdict unchanged |
| Laws.ContainerOrderIrrelevant | docs/network-policies.md:49-52 | with disjoint isolated containers, permuting containers leaves every verdict unchanged |
| Laws.ContainerOrderExactly | src/reconcile/mod.rs:182-233 | every permutation of the containers gives one answer exactly when all isolated containers holding the packet's address agree on it |
| Laws.ReorderedTablesAgree | src/reconcile/resolve.rs:83-95 | the programmed tables agree although rule order and the holder of a contested set name differ, on every packet that logging cannot hide |
| Laws.InEnforcing | src/reconcile/mod.rs:240-266 | a policy isolates a container exactly when it enforces the direction and applies by label, carrier or global selector |
| Additivity.AddingDropNarrows | docs/network-policies.md:136-138 | adding any drop rules to any global or label policies only removes accepted packets |
| Additivity.AddingAllowWidens | docs/network-policies.md:48-52 | adding any allow rules to policies whose enforcement is settled only adds accepted packets |
| Additivity.GrownTables | docs/network-policies.md:136-138 | both laws hold of the programmed tables |
| Additivity.AddingAllowCanDeny | src/reconcile/egress.rs:20-25 | for every policy not settled there are a container, a packet and an allow rule whose addition denies it |
| FlowlogLaw.CompiledSameButLogs | src/reconcile/egress.rs:52-66 | logging on or off, the rulesets differ only in log prefixes |
| FlowlogLaw.FlowlogTransparent | src/enforce/nft.rs:289-298 | logging on or off, under any groups, the programmed tables agree on tracked packets, and on every packet that logging hides on both sides or on neither |
| FlowlogLaw.HiddenVerdictExactly | src/enforce/nft.rs:289-298 | on an INVALID or UNTRACKED packet: the exact verdicts with logging on and off, that logging only lets more through, and exactly when they differ |
| FlowlogLaw.TransparencyFailsUntracked | src/enforce/nft.rs:417-427 | in the INVALID and UNTRACKED states a logged deny lets through what an unlogged one drops |
| DropTags.DropNamesOwner | src/reconcile/mod.rs:182-235 | a packet a chain drops is dropped by a rule of its first isolated owner, and that rule carries the owner's prefix unless one of the owner's policies opts out |
| DropTags.BlockTagged | src/reconcile/egress.rs:52-101 | in a block returns are never tagged, and every drop carries the container's prefix or is one the policies opt out of |
| Policy.PortRoundTrip | src/api/v1alpha1/mod.rs:56-107 | parsing a printed port gives it back, exactly for the valid ports |
| Policy.PortNormalForm | src/api/v1alpha1/mod.rs:56-107 | printing what was parsed is a stable normal form |
| Policy.BarePortIsTcp | src/api/v1alpha1/mod.rs:60 | a port written without a protocol reads as the same port with `/tcp` |
| Policy.OmittedNumberIsAll | src/api/v1alpha1/mod.rs:66-67 | an omitted number reads as `*`, every port of the protocol |
| Policy.ProtocolExactly | src/api/v1alpha1/mod.rs:61-65 | the protocols are `tcp` and `udp` in any mix of cases, and nothing else |
| Policy.PolicyLabelsExact | src/api/v1alpha1/mod.rs:306-327 | exactly the labels under the prefix are policies, each named by the rest of its key |
| Policy.CidrExactly | src/enforce/ruleset.rs:63-82 | a text reads as a block exactly when it is an address, a slash, and a prefix of at most 32 or 128 |
| Policy.CidrRoundTrip | src/enforce/ruleset.rs:63-82 | `addr/prefix` reads back as that block exactly when the prefix fits the family |
| FlowPrefix.PrefixBound | src/reconcile/egress.rs:104-116 | the prefix is at most 120 bytes exactly when the name fits whole or its kept part is ASCII |
| FlowPrefix.EncodedLength | src/reconcile/egress.rs:104-112 | the length that is budgeted is the length of the text in UTF-8 |
| FlowPrefix.PrefixBoundFails | src/reconcile/egress.rs:113-115 | 97 two-byte letters exceed the bound |
| Text.TrimRepeats | src/flowlog/event.rs:80 | every leading repeat of the pattern is stripped and nothing else |
| FlowPrefix.ParsePrefix | src/flowlog/event.rs:74-91 | the loop over parts leaves each field at its last occurrence |
| FlowPrefix.PrefixRoundTrip | src/flowlog/event.rs:74-91 | direction and verdict come back, and the shown name exactly when it holds no `;` |
| Reconcile.Reconciler.RunOnce | src/reconcile/mod.rs:105-121 | a failed listing changes nothing; otherwise the index is the listing's and the table the snapshot's, whatever it was before, and the report is what the drained answers say |
| Daemon.RunKeepsInv | src/main.rs:130-170 | every state of every run keeps the daemon's invariant: table, index, loop entry, counters |
| Daemon.LoopEnforces | src/main.rs:130-170 | in every reachable state with a commit, the table accepts exactly what the document lets pass for the last committed snapshot; the loop and every reconcile it starts come after a confirmed commit |
| Daemon.TableIsConfirmed | src/reconcile/mod.rs:105-121 | in every run whose last commit was acknowledged, the table is the build of the last snapshot whose apply reported success |
| Daemon.CommittedAheadExactly | src/enforce/netlink.rs:101-125 | after any step, committed and confirmed snapshots differ exactly when the step commits another snapshot and its acknowledgements are lost, or it commits nothing and they differed |
| Daemon.CommittedGetsAhead | src/enforce/netlink.rs:101-125 | a run in which an apply that reports failure has changed the table |
| Daemon.ReconcileIsThreeSteps | src/reconcile/mod.rs:105-121 | the list, publish and apply steps compose to one reconcile |
| Daemon.TickHeals | src/main.rs:148-152 | from any state of the loop, a tick whose reconcile succeeds leaves every change covered, the index of the world as it is, and the table of its policies |
| Daemon.BurstIsOneListing | src/main.rs:163-164 | a signal that arrives during the debounce is taken with it: one listing covers everything and the channel is left empty |
| Daemon.WatcherEndsExactly | src/docker.rs:105-133 | the watcher ends exactly when it notices that the consumer has; otherwise it comes back to its stream |
| Daemon.NoLostWakeup | src/docker.rs:97-133 | unless the last listing failed, an uncovered delivered event is held, in the channel, or received and not yet listed |
| Daemon.WakeupLostExactly | src/main.rs:153-167 | a step loses a wakeup exactly when it is a failed listing with an event uncovered and no further signal |
| Daemon.WakeupCanBeLost | src/main.rs:162-167 | a run from the start of the daemon to a lost wakeup |
| Daemon.ChannelNeverCloses | src/main.rs:153-162 | the branch that watches again is never taken |
| Netlink.TerminalSeq | src/enforce/netlink.rs:133-145 | for any bytes the walk is in bounds, advances, and gives the largest sequence number less one, or 0 |
| Netlink.TerminalOfBatch | src/enforce/netlink.rs:128-132 | a batch numbered 0 to K+1 gives K |
| Netlink.WalkInvertsEncoding | src/enforce/netlink.rs:133-145 | the message walk recovers exactly the list that was encoded with padding |
| Netlink.ScanAcks | src/enforce/netlink.rs:158-182 | for any bytes the loop returns what a scan of the bytes returns |
| Netlink.RefusalReported | src/enforce/netlink.rs:170-175 | the first error message with error number e, written as -e in two's complement, drains to the rejection -e, whatever follows it |
| Bytes.WriteI32 | src/enforce/netlink.rs:196-198 | any 32-bit number, negative ones included, written in two's complement is what reading the four bytes gives |
| Netlink.ScanOfEncoded | src/enforce/netlink.rs:158-182 | on well-formed messages the byte scan is the fold over the messages |
| Netlink.ScanSucceedsExactly | src/enforce/netlink.rs:147-182 | the fold succeeds exactly at a message of type 3, or numbered at or past the terminal, such that it and all before it carry no error: not of type 2, or four zero bytes first |
| Netlink.DrainAcks | src/enforce/netlink.rs:107-126 | the receive loop returns what the specified drain returns |
| Netlink.DrainIsOneScan | src/enforce/netlink.rs:107-126 | however the stream is split into non-empty receives, draining is one scan of the whole |
| Netlink.DrainSucceedsExactly | src/enforce/netlink.rs:107-126 | draining succeeds exactly when the whole stream acknowledges |
| NfLog.WalkAttrs | src/flowlog/receiver.rs:249-280 | for any bytes the attribute walk is in bounds, advances, and takes each attribute of the region |
| NfLog.ParseAttrs | src/flowlog/receiver.rs:235-282 | reading a message in place gives what the message carries |
| NfLog.AttrWalkInvertsEncoding | src/flowlog/receiver.rs:249-280 | the attribute walk recovers exactly the attributes encoded with padding |
| NfLog.LastAttributesWin | src/flowlog/receiver.rs:257-278 | the last prefix, cut at its NUL, the last payload and the last whole timestamp are kept |
| NfLog.StampRoundTrip | src/flowlog/receiver.rs:271-276 | seconds (signed) and microseconds written as big-endian 64-bit words are read back, of the microseconds the low 32 bits |
| NfLog.BuildConfig | src/flowlog/receiver.rs:200-233 | the field-by-field construction and padding loop give the encoded configuration message |
| NfLog.ConfigRoundTrip | src/flowlog/receiver.rs:200-233 | walking it finds one message of type 0x401 and flags 5, for the group, with the one attribute asked for |
| Dedup.Deduper.Allow | src/flowlog/receiver.rs:409-442 | answers as a map that is never swept; every entry kept is younger than two windows; a zero window always allows |
| Dedup.Deduper.Sweep | src/flowlog/receiver.rs:414-418 | sweeping drops only entries that have expired |
| Dedup.RefusedExactly | src/flowlog/receiver.rs:407-442 | a flow is refused exactly when its key was allowed less than one window ago |
| Dedup.AllowedApart | src/flowlog/receiver.rs:389-391 | two allowed requests of one key are at least a window apart |
| Dedup.KeyIdentifiesFlow | src/flowlog/receiver.rs:419-427 | keys are equal exactly for equal direction (any text), protocol, addresses and ports, a missing port counting as 0 |
| FlowLog.ParsedKeys | src/flowlog/receiver.rs:283-313 | two parsed events share a key exactly when they are the same flow |
| Limiter.RateLimiter.Allow | src/flowlog/receiver.rs:372-386 | a call is allowed exactly when, counting it, no stretch of earlier calls up to it holds more than rate + rate x seconds; tokens stay within 0 and the rate; rate 0 always allows |
| Limiter.TokensBounded | src/flowlog/receiver.rs:356-387 | tokens stay between 0 and the rate over any run |
| Limiter.RateBound | src/flowlog/receiver.rs:356-387 | between any two times at most rate + rate x seconds calls are allowed |
| Limiter.GrantedExactly | src/flowlog/receiver.rs:372-386 | a call is allowed exactly when no stretch of calls ending with it would exceed that bound |
| Limiter.SpacedCallGranted | src/flowlog/receiver.rs:376-382 | a call 1/rate seconds after the previous one is always allowed |
| FlowLog.ParseNflogPacket | src/flowlog/receiver.rs:235-314 | the event of a packet message, with the kernel's timestamp if there is one, or none without payload or readable headers |
| FlowLog.DropReported | src/flowlog/receiver.rs:282-298 | a logged drop is reported with the container, direction and verdict it was tagged with, the packet's addresses, ports and protocol name, its timestamp, and the far end's name |
| FlowLog.EventExactly | src/flowlog/receiver.rs:131-135 | a message is an event exactly when its type is 0x400 and its payload is there and reads as a packet |
| FlowLog.ReadUntilClosed | src/flowlog/receiver.rs:110-120 | the events are those of every buffer before the first error or empty read; an interruption adds and ends nothing |
| FlowLog.Receiver.Scan | src/flowlog/receiver.rs:125-162 | each readable packet message of a buffer is handled once, in order, and nothing else is |
| FlowLog.Receiver.Receive | src/flowlog/receiver.rs:110-120 | over any sequence of receives: parsed = emitted + rate-limited + suppressed, and the events parsed are those of the buffers up to the first end of file or error |
| FlowLog.Receiver.Handle | src/flowlog/receiver.rs:135-152 | one event is counted, then emitted, rate-limited or suppressed, keeping every fate explained |
| FlowLog.Receiver.Decide | src/flowlog/receiver.rs:145-151 | suppressed exactly when the unswept map refuses; otherwise the limiter decides |
| FlowLog.Receiver.Conserved | src/flowlog/receiver.rs:136-151 | at every point parsed = emitted + rate-limited + suppressed, and what is suppressed is what a map never swept refuses |
| FlowLog.Receiver.Spaced | src/flowlog/receiver.rs:142-151 | emissions of one key are at least a window apart although keys are recorded before the limiter decides |
| FlowLog.Receiver.EmittedWithinRate | src/flowlog/receiver.rs:146-150 | between any two times emissions number at most rate + rate x seconds |

## Left out

- Docker client calls, sockets and their options, the metrics server, the CLI, JSON output, tracing, configuration from the environment, `Display` of rulesets: input, output and foreign libraries.
- YAML and JSON-schema parsing: policies start parsed, and a label value that does not parse is an absent one.
- The rule and set counts `run_once` returns: they go to the metrics.
- The dry-run enforcer (`LoggingEnforcer`): it changes nothing.
- Building `Target`s from Docker's container records: field access and address parsing.
- rustables, ipnetwork and etherparse internals; in particular rustables refusing an over-long log prefix, and the serialization of a batch to bytes.
- Truncation of a datagram longer than the receive buffer.
- Formatting timestamps, and the wall-clock time of an event without a kernel timestamp; floating-point rounding in the limiter (times and tokens are reals); logging of errors on the NFLOG socket.
- A swap of the IP index between two packets of one received buffer: one index is used per buffer.
- UTF-8 decoding of the log prefix: the decoder is a parameter.
- Liveness: `debounce` and `drain_acks` can wait for ever while events or messages keep coming, so only safety is proved.
- Panics in the watcher task, and events that go by while there is no subscription: outside the wakeup claim; the ticker covers them.
- FlowLog.Receiver.Spaced: measures emissions by the time dedup admitted them, since the sink has no clock of its own.
- FlowLog.ParsedKeys: takes it that no address is printed with a `|`, which no notation for addresses has.
- Netlink.DrainIsOneScan: for streams whose error messages are at least 20 bytes, as section 2.3.2 of RFC 3549 has them; on shorter ones the code reads an error number past the message.
