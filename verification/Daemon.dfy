/** The running daemon as a step system: Docker, the watcher task, the capacity-1 channel, and the
    consumer loop with its debounce, ticker and reconciles. Any interleaving is a list of steps. */
module Daemon {
  import opened Common
  import opened Address
  import opened Policy
  import opened Packets
  import opened Compile
  import opened Kernel
  import opened Apply
  import opened EndToEnd
  import opened Reconcile
  import opened Documented
  import opened Agreement

  /** What a run is configured with, and the table it finds when it starts. */
  datatype Env = Env(cfg: Config, group: Option<u16>, before: Kernel)

  datatype Trigger = Startup | Resync | Event

  /** Where the watcher task is: awaiting the event stream, holding a relevant event it is about to
      signal, without a subscription (not yet, or not again), or ended. */
  datatype Watcher = Awaiting | Holding | Down | Returned

  /** Where the consumer is: in the select loop, coalescing, before a listing, before publishing the
      index of what it listed, before applying it, or ended. */
  datatype Consumer =
    | Idle
    | Debouncing
    | Listing(trigger: Trigger)
    | Publishing(trigger: Trigger, targets: seq<Target>)
    | Applying(trigger: Trigger, targets: seq<Target>)
    | Exited

  /** Relevant changes are numbered from 1 in the order Docker makes them, and each has one event.
      `streamed` events have gone by the subscription, delivered or lost; `delivered` is the last one
      the watcher took; `covered` is the last change a listing has seen. `listed`, `committed` and
      `confirmed` are the snapshots last listed, last made the kernel's table, and last applied with success. */
  datatype State = State(
    world: seq<Target>,
    changes: nat,
    streamed: nat,
    delivered: nat,
    covered: nat,
    watcher: Watcher,
    full: bool,
    consumer: Consumer,
    index: map<IpAddr, string>,
    kernel: Kernel,
    listed: Option<seq<Target>>,
    committed: Option<seq<Target>>,
    confirmed: Option<seq<Target>>)

  datatype Step =
    | Change(world: seq<Target>)
    | Drift(world: seq<Target>)
    | Deliver
    | Lose
    | StreamEnds
    | Resubscribe
    | TrySend
    | Tick
    | Receive
    | ChannelClosed
    | Drain
    | Quiet
    | ListFails
    | ListOk
    | Publish
    | ApplyRuleset(delivery: Delivery)
    | Shutdown

  function Init(env: Env, world: seq<Target>): State {
    State(world, 0, 0, 0, 0, Down, false, Listing(Startup), map[], env.before, None, None, None)
  }

  /** After a failed reconcile: the process ends if that was the first, else the loop goes on. */
  function AfterFailure(t: Trigger): Consumer {
    if t.Startup? then Exited else Idle
  }

  function Next(env: Env, s: State, step: Step): Option<State> {
    match step
    // Docker: a relevant change (start, die, destroy), or one that raises no relevant event.
    case Change(w) => Some(s.(world := w, changes := s.changes + 1))
    case Drift(w) => Some(s.(world := w))
    // The watcher takes the next event from a live stream.
    case Deliver =>
      if s.watcher.Awaiting? && s.streamed < s.changes
      then Some(s.(streamed := s.streamed + 1, delivered := s.streamed + 1, watcher := Holding)) else None
    // An event that goes by while there is no subscription.
    case Lose => if s.watcher.Down? && s.streamed < s.changes then Some(s.(streamed := s.streamed + 1)) else None
    // The stream errs or ends: the watcher ends if the receiver is gone, else it sleeps.
    case StreamEnds =>
      if s.watcher.Awaiting? then Some(s.(watcher := if s.consumer.Exited? then Returned else Down)) else None
    case Resubscribe => if s.watcher.Down? then Some(s.(watcher := Awaiting)) else None
    // A full channel drops the extra signal; a closed one ends the watcher.
    case TrySend =>
      if s.watcher.Holding?
      then Some(if s.consumer.Exited? then s.(watcher := Returned) else s.(watcher := Awaiting, full := true)) else None
    case Tick => if s.consumer.Idle? then Some(s.(consumer := Listing(Resync))) else None
    case Receive => if s.consumer.Idle? && s.full then Some(s.(consumer := Debouncing, full := false)) else None
    // The channel is empty and its sender gone: watch again, with no reconcile.
    case ChannelClosed =>
      if s.consumer.Idle? && !s.full && s.watcher.Returned? then Some(s.(watcher := Down)) else None
    case Drain => if s.consumer.Debouncing? && s.full then Some(s.(full := false)) else None
    case Quiet => if s.consumer.Debouncing? then Some(s.(consumer := Listing(Event))) else None
    case ListFails =>
      if s.consumer.Listing? then Some(s.(consumer := AfterFailure(s.consumer.trigger))) else None
    case ListOk =>
      if s.consumer.Listing?
      then Some(s.(consumer := Publishing(s.consumer.trigger, s.world), covered := s.changes, listed := Some(s.world)))
      else None
    case Publish =>
      if s.consumer.Publishing?
      then Some(s.(consumer := Applying(s.consumer.trigger, s.consumer.targets), index := IpIndex(s.consumer.targets)))
      else None
    case ApplyRuleset(d) => if s.consumer.Applying? then Some(Applied(env, s, d)) else None
    case Shutdown => if s.consumer.Idle? then Some(s.(consumer := Exited)) else None
  }

  predicate Commits(env: Env, targets: seq<Target>, d: Delivery) {
    !d.NotSent? && !Clash(Compiled(env.cfg, targets).sets)
  }

  function Applied(env: Env, s: State, d: Delivery): State
    requires s.consumer.Applying?
  {
    var targets := s.consumer.targets;
    var (kernel, ok) := Reconciled(env.cfg, targets, env.group, s.kernel, d);
    s.(kernel := kernel,
       consumer := if ok then Idle else AfterFailure(s.consumer.trigger),
       committed := if Commits(env, targets, d) then Some(targets) else s.committed,
       confirmed := if ok then Some(targets) else s.confirmed)
  }

  /** The state after a list of steps, if every one of them can be taken. */
  function Run(env: Env, world: seq<Target>, steps: seq<Step>): Option<State> {
    if steps == [] then Some(Init(env, world)) else
    match Run(env, world, steps[..|steps| - 1])
    case None => None
    case Some(s) => Next(env, s, steps[|steps| - 1])
  }

  ghost predicate Reachable(env: Env, s: State) {
    exists world, steps :: Run(env, world, steps) == Some(s)
  }

  // ----- what every reachable state keeps -----

  predicate CountersOrdered(s: State) {
    s.delivered <= s.streamed <= s.changes && s.covered <= s.changes
  }

  /** The watcher ends only after the consumer has. */
  predicate WatcherOutlived(s: State) {
    s.watcher.Returned? ==> s.consumer.Exited?
  }

  /** The table is the build of the last snapshot committed, or what the run found. */
  predicate TableIsCommitted(env: Env, s: State) {
    match s.committed
    case None => s.kernel == env.before && s.confirmed.None?
    case Some(targets) => s.kernel == Programmed(env.cfg, targets, env.group) && !Clash(Compiled(env.cfg, targets).sets)
  }

  /** Outside the first reconcile, some apply has reported success (unless the process ended). */
  predicate LoopEstablished(s: State) {
    match s.consumer
    case Idle => s.confirmed.Some?
    case Debouncing => s.confirmed.Some?
    case Listing(t) => t.Startup? || s.confirmed.Some?
    case Publishing(t, targets) => (t.Startup? || s.confirmed.Some?) && s.listed == Some(targets)
    case Applying(t, targets) => (t.Startup? || s.confirmed.Some?) && s.listed == Some(targets)
    case Exited => true
  }

  /** Except between a listing and its publication, the index is that of the last snapshot listed. */
  predicate IndexIsListed(s: State) {
    s.consumer.Publishing? || s.index == match s.listed case None => map[] case Some(targets) => IpIndex(targets)
  }

  predicate Inv(env: Env, s: State) {
    CountersOrdered(s) && WatcherOutlived(s) && TableIsCommitted(env, s) && LoopEstablished(s) && IndexIsListed(s)
  }

  lemma NextKeepsCounters(env: Env, s: State, step: Step)
    requires CountersOrdered(s) && WatcherOutlived(s) && Next(env, s, step).Some?
    ensures CountersOrdered(Next(env, s, step).value) && WatcherOutlived(Next(env, s, step).value)
  {
    hide Reconciled, IpIndex, Commits;
  }

  lemma NextKeepsTable(env: Env, s: State, step: Step)
    requires TableIsCommitted(env, s) && Next(env, s, step).Some?
    ensures TableIsCommitted(env, Next(env, s, step).value)
  {
    hide IpIndex, Programmed, Compiled;
  }

  lemma NextKeepsLoop(env: Env, s: State, step: Step)
    requires LoopEstablished(s) && IndexIsListed(s) && Next(env, s, step).Some?
    ensures LoopEstablished(Next(env, s, step).value) && IndexIsListed(Next(env, s, step).value)
  {
    hide IpIndex, Programmed, Compiled, Commits;
  }

  /** Whatever the interleaving and the failures, every state of every run keeps the invariant. */
  lemma {:induction false} RunKeepsInv(env: Env, world: seq<Target>, steps: seq<Step>)
    ensures Run(env, world, steps).Some? ==> Inv(env, Run(env, world, steps).value)
  {
    hide Next, IpIndex, Programmed, Compiled;
    if steps == [] {
    } else {
      var init, last := steps[..|steps| - 1], steps[|steps| - 1];
      RunKeepsInv(env, world, init);
      if Run(env, world, steps).Some? {
        var s := Run(env, world, init).value;
        NextKeepsCounters(env, s, last);
        NextKeepsTable(env, s, last);
        NextKeepsLoop(env, s, last);
      }
    }
  }

  /** The first reconcile is over and the process has not ended: the loop, or a reconcile it started. */
  predicate InLoop(s: State) {
    match s.consumer
    case Idle => true
    case Debouncing => true
    case Listing(t) => !t.Startup?
    case Publishing(t, _) => !t.Startup?
    case Applying(t, _) => !t.Startup?
    case Exited => false
  }

  /** From the first commit on, what the table lets through is what the documents say of the last
      snapshot committed, however old the table before it and whatever fails in between; and the loop,
      with every reconcile it starts, runs only after a commit that was confirmed. */
  lemma LoopEnforces(env: Env, s: State, p: Packet)
    requires Reachable(env, s) && SingleFamily(p) && (env.cfg.flowlog && env.group.Some? ==> Tracked(p))
    ensures InLoop(s) ==> s.confirmed.Some? && s.committed.Some?
    ensures s.committed.Some? ==> (Accepts(s.kernel, p) <==> Passes(env.cfg, s.committed.value, p))
  {
    hide Accepts, Allowed, Passes, Clash, IpIndex, Run, Next, Tracked, SingleFamily, Compiled, Programmed;
    var world, steps :| Run(env, world, steps) == Some(s);
    RunKeepsInv(env, world, steps);
    if s.committed.Some? {
      ApplyCompiled(env.cfg, s.committed.value, env.group, s.kernel);
      TableEnforcesPolicies(env.cfg, s.committed.value, env.group, s.kernel, p);
      MeaningAgrees(env.cfg, s.committed.value, p);
    }
  }

  /** The step is an apply that the kernel commits. */
  predicate CommitStep(env: Env, s: State, step: Step) {
    step.ApplyRuleset? && s.consumer.Applying? && Commits(env, s.consumer.targets, step.delivery)
  }

  /** After any step, the snapshot committed is ahead of the snapshot confirmed exactly when the step
      commits another snapshot than the confirmed one and its acknowledgements are lost, or it commits
      nothing and it was ahead already. */
  lemma CommittedAheadExactly(env: Env, s: State, step: Step)
    requires Next(env, s, step).Some?
    ensures
      (var after := Next(env, s, step).value;
       after.committed != after.confirmed)
      <==> if CommitStep(env, s, step) then step.delivery.AcksLost? && s.confirmed != Some(s.consumer.targets)
           else s.committed != s.confirmed
  {
    hide Compiled, Clash, Programmed, IpIndex;
    if step.ApplyRuleset? { ApplyOutcomes(env, s, step.delivery); }
  }

  /** An apply that reports success joins them again; one that is rejected or not sent changes neither. */
  lemma ApplyOutcomes(env: Env, s: State, d: Delivery)
    requires s.consumer.Applying?
    ensures var after, targets := Applied(env, s, d), s.consumer.targets;
            if d.NotSent? || Clash(Compiled(env.cfg, targets).sets)
            then after == s.(consumer := AfterFailure(s.consumer.trigger))
            else after.committed == Some(targets) && (after.confirmed == Some(targets) || d.AcksLost?)
  {
    hide Compiled, Clash, Programmed, IpIndex;
  }

  /** The acknowledgements of the last apply that the kernel committed, if any, were read. */
  predicate LastCommitRead(env: Env, world: seq<Target>, steps: seq<Step>) {
    steps == [] || (
      var init, last := steps[..|steps| - 1], steps[|steps| - 1];
      var before := Run(env, world, init);
      if before.Some? && CommitStep(env, before.value, last) then !last.delivery.AcksLost?
      else LastCommitRead(env, world, init))
  }

  /** In every run whose last commit was acknowledged, whatever was lost before, the table is the build
      of the last snapshot whose apply reported success, or untouched before the first. */
  lemma {:induction false} TableIsConfirmed(env: Env, world: seq<Target>, steps: seq<Step>)
    requires LastCommitRead(env, world, steps) && Run(env, world, steps).Some?
    ensures var s := Run(env, world, steps).value;
            && s.committed == s.confirmed
            && s.kernel == match s.confirmed
                           case None => env.before
                           case Some(targets) => Programmed(env.cfg, targets, env.group)
  {
    hide Next, IpIndex, Programmed, Compiled, Clash, CommitStep;
    RunKeepsInv(env, world, steps);
    if steps == [] {
    } else {
      var init, last := steps[..|steps| - 1], steps[|steps| - 1];
      var before := Run(env, world, init).value;
      if !CommitStep(env, before, last) { TableIsConfirmed(env, world, init); }
      CommittedAheadExactly(env, before, last);
    }
  }

  /** A reconcile that lists is three steps: together they do what `Reconciler.RunOnce` promises. */
  lemma ReconcileIsThreeSteps(env: Env, s: State, d: Delivery)
    requires s.consumer.Listing?
    ensures var s1 := Next(env, s, ListOk).value;
            var s2 := Next(env, s1, Publish).value;
            var s3 := Next(env, s2, ApplyRuleset(d)).value;
            var (kernel, ok) := Reconciled(env.cfg, s.world, env.group, s.kernel, d);
            && s3.index == IpIndex(s.world) && s3.kernel == kernel
            && s3.consumer == if ok || !s.consumer.trigger.Startup? then Idle else Exited
  {
    hide Reconciled, IpIndex, Commits;
  }

  /** The state that a list of steps leads to, if every one of them can be taken. */
  function Follow(env: Env, s: State, steps: seq<Step>): Option<State>
    decreases |steps|
  {
    if steps == [] then Some(s) else
    match Next(env, s, steps[0])
    case None => None
    case Some(after) => Follow(env, after, steps[1..])
  }

  lemma FollowOne(env: Env, s: State, step: Step, rest: seq<Step>)
    ensures Follow(env, s, [step] + rest)
         == match Next(env, s, step) case None => None case Some(after) => Follow(env, after, rest)
  {
    assert ([step] + rest)[1..] == rest;
  }

  lemma FollowFour(env: Env, s: State, a: Step, b: Step, c: Step, d: Step)
    requires Next(env, s, a).Some? && Next(env, Next(env, s, a).value, b).Some?
    requires Next(env, Next(env, Next(env, s, a).value, b).value, c).Some?
    ensures Follow(env, s, [a, b, c, d]) == Next(env, Next(env, Next(env, Next(env, s, a).value, b).value, c).value, d)
  {
    hide Next;
    var s1 := Next(env, s, a).value;
    var s2 := Next(env, s1, b).value;
    var s3 := Next(env, s2, c).value;
    FollowOne(env, s3, d, []);
    FollowOne(env, s2, c, [d]);
    FollowOne(env, s1, b, [c, d]);
    FollowOne(env, s, a, [b, c, d]);
    assert [a] + [b, c, d] == [a, b, c, d] && [b] + [c, d] == [b, c, d] && [c] + [d] == [c, d] && [d] + [] == [d];
  }

  lemma AppliedWell(env: Env, s: State)
    requires s.consumer.Applying? && !Clash(Compiled(env.cfg, s.consumer.targets).sets)
    ensures var targets := s.consumer.targets;
            Applied(env, s, AcksRead)
              == s.(kernel := Programmed(env.cfg, targets, env.group), consumer := Idle,
                    committed := Some(targets), confirmed := Some(targets))
  {
    hide IpIndex, Compiled, Clash, Programmed;
  }

  /** The ticker mends everything: whatever failed or was lost before, a tick whose reconcile succeeds
      leaves every change covered, the index of the world as it is, and the table of its policies. */
  lemma TickHeals(env: Env, s: State)
    requires s.consumer.Idle? && !Clash(Compiled(env.cfg, s.world).sets)
    ensures Follow(env, s, [Tick, ListOk, Publish, ApplyRuleset(AcksRead)])
         == Some(s.(covered := s.changes, index := IpIndex(s.world),
                    kernel := Programmed(env.cfg, s.world, env.group),
                    listed := Some(s.world), committed := Some(s.world), confirmed := Some(s.world)))
  {
    hide IpIndex, Compiled, Clash, Programmed, Applied, Follow;
    var s1 := Next(env, s, Tick).value;
    var s2 := Next(env, s1, ListOk).value;
    var s3 := Next(env, s2, Publish).value;
    AppliedWell(env, s3);
    FollowFour(env, s, Tick, ListOk, Publish, ApplyRuleset(AcksRead));
  }

  /** A signal that arrives while the consumer waits out a burst is taken with it: one listing covers
      them all, and none is left in the channel. */
  lemma BurstIsOneListing(env: Env, s: State)
    requires s.consumer.Debouncing? && s.watcher.Holding?
    ensures Follow(env, s, [TrySend, Drain, Quiet, ListOk])
         == Some(s.(watcher := Awaiting, full := false, consumer := Publishing(Event, s.world),
                    covered := s.changes, listed := Some(s.world)))
  {
    hide IpIndex, Applied, Follow;
    FollowFour(env, s, TrySend, Drain, Quiet, ListOk);
  }

  /** The watcher ends exactly when it notices, on a signal or on the end of its stream, that the
      consumer has; with the consumer alive it always comes back to its stream. */
  lemma WatcherEndsExactly(env: Env, s: State, step: Step)
    requires !s.watcher.Returned? && Next(env, s, step).Some?
    ensures Next(env, s, step).value.watcher.Returned?
       <==> s.consumer.Exited? && (step.TrySend? || step.StreamEnds?)
    ensures !s.consumer.Exited? && (step.TrySend? || step.Resubscribe?) ==> Next(env, s, step).value.watcher.Awaiting?
    ensures !s.consumer.Exited? && step.StreamEnds? ==>
      Next(env, Next(env, s, step).value, Resubscribe) == Some(s)
  {
    hide IpIndex, Reconciled, Commits;
  }

  /** The branch that watches again never runs: the channel cannot close while the consumer lives. */
  lemma ChannelNeverCloses(env: Env, s: State)
    requires Reachable(env, s)
    ensures Next(env, s, ChannelClosed).None?
  {
    hide Run;
    var world, steps :| Run(env, world, steps) == Some(s);
    RunKeepsInv(env, world, steps);
  }

  // ----- wakeups -----

  /** A delivered event is still to be covered by a listing. */
  predicate Uncovered(s: State) {
    s.delivered > s.covered
  }

  /** Something will bring the consumer to a listing without waiting for the ticker. */
  predicate Pending(s: State) {
    s.watcher.Holding? || s.full || s.consumer.Debouncing? || s.consumer.Listing?
  }

  /** A wakeup is lost: only the ticker, or an unrelated event, will make the consumer list again. */
  predicate Lost(s: State) {
    !s.consumer.Exited? && Uncovered(s) && !Pending(s)
  }

  /** One step from a state with no lost wakeup loses one exactly when it is a listing that fails, in
      the loop, with an event uncovered and no further signal on its way. */
  lemma WakeupLostExactly(env: Env, s: State, step: Step)
    requires CountersOrdered(s) && !Lost(s) && Next(env, s, step).Some?
    ensures Lost(Next(env, s, step).value)
       <==> step.ListFails? && !s.consumer.trigger.Startup? && Uncovered(s) && !s.watcher.Holding? && !s.full
  {
    hide Reconciled, IpIndex, Commits;
  }

  /** The last listing that was tried, if any, succeeded. */
  predicate LastListingOk(steps: seq<Step>) {
    steps == [] || (
      var last := steps[|steps| - 1];
      last.ListOk? || (!last.ListFails? && LastListingOk(steps[..|steps| - 1])))
  }

  /** No lost wakeup: in every run whose last listing did not fail, a delivered event not yet covered
      by a listing means the watcher holds it, the channel is full, or the consumer has received and
      not yet listed. */
  lemma {:induction false} NoLostWakeup(env: Env, world: seq<Target>, steps: seq<Step>)
    requires LastListingOk(steps)
    ensures Run(env, world, steps).Some? ==> !Lost(Run(env, world, steps).value)
  {
    hide Next, IpIndex, Lost;
    if steps == [] {
      NothingLostAtStart(env, world);
    } else if Run(env, world, steps).Some? {
      var init, last := steps[..|steps| - 1], steps[|steps| - 1];
      var s := Run(env, world, init).value;
      RunKeepsInv(env, world, init);
      if last.ListOk? {
        ListingRecovers(env, s);
      } else {
        NoLostWakeup(env, world, init);
        WakeupLostExactly(env, s, last);
      }
    }
  }

  lemma NothingLostAtStart(env: Env, world: seq<Target>)
    ensures !Lost(Init(env, world))
  {}

  /** Any listing, whatever triggered it, covers every change made so far. */
  lemma ListingRecovers(env: Env, s: State)
    requires CountersOrdered(s) && Next(env, s, ListOk).Some?
    ensures var after := Next(env, s, ListOk).value;
            !Uncovered(after) && !Lost(after)
  {}

  lemma RunOne(env: Env, world: seq<Target>, steps: seq<Step>, step: Step)
    ensures Run(env, world, steps + [step])
         == match Run(env, world, steps) case None => None case Some(s) => Next(env, s, step)
  {
    assert (steps + [step])[..|steps|] == steps;
  }

  /** The steps that start the daemon and bring one event through to its listing. */
  function ToEventListing(changed: seq<Target>): seq<Step> {
    [Resubscribe] + [ListOk] + [Publish] + [ApplyRuleset(AcksRead)] + [Change(changed)] + [Deliver] + [TrySend]
    + [Receive] + [Quiet]
  }

  /** A wakeup does get lost when that listing fails: the signal is spent, and the change waits for the ticker. */
  lemma WakeupCanBeLost(env: Env, world: seq<Target>, changed: seq<Target>)
    requires !Clash(Compiled(env.cfg, world).sets)
    ensures var s := Run(env, world, ToEventListing(changed) + [ListFails]);
            s.Some? && Lost(s.value)
  {
    hide Compiled, Clash, Programmed, IpIndex, Run;
    StartedRun(env, world);
    var s4 := [Resubscribe] + [ListOk] + [Publish] + [ApplyRuleset(AcksRead)];
    var s5 := s4 + [Change(changed)];
    var s6 := s5 + [Deliver];
    var s7 := s6 + [TrySend];
    var s8 := s7 + [Receive];
    var s9 := s8 + [Quiet];
    RunOne(env, world, s4, Change(changed));
    RunOne(env, world, s5, Deliver);
    RunOne(env, world, s6, TrySend);
    RunOne(env, world, s7, Receive);
    RunOne(env, world, s8, Quiet);
    RunOne(env, world, s9, ListFails);
  }

  lemma RunNone(env: Env, world: seq<Target>)
    ensures Run(env, world, []) == Some(Init(env, world))
  {}

  lemma StartedRun(env: Env, world: seq<Target>)
    requires !Clash(Compiled(env.cfg, world).sets)
    ensures Run(env, world, [Resubscribe] + [ListOk] + [Publish] + [ApplyRuleset(AcksRead)])
         == Some(State(world, 0, 0, 0, 0, Awaiting, false, Idle, IpIndex(world),
                       Programmed(env.cfg, world, env.group), Some(world), Some(world), Some(world)))
  {
    hide Compiled, Clash, Programmed, IpIndex, Run;
    RunNone(env, world);
    RunOne(env, world, [], Resubscribe);
    assert [] + [Resubscribe] == [Resubscribe];
    RunOne(env, world, [Resubscribe], ListOk);
    RunOne(env, world, [Resubscribe] + [ListOk], Publish);
    RunOne(env, world, [Resubscribe] + [ListOk] + [Publish], ApplyRuleset(AcksRead));
  }

  /** A first apply that is acknowledged, then a change whose apply commits without acknowledgement. */
  function ToLostAcks(changed: seq<Target>): seq<Step> {
    [Resubscribe] + [ListOk] + [Publish] + [ApplyRuleset(AcksRead)] + [Change(changed)] + [Tick] + [ListOk] + [Publish]
    + [ApplyRuleset(AcksLost)]
  }

  /** An apply that reports failure does change the table: the daemon goes on believing the snapshot before. */
  lemma CommittedGetsAhead(env: Env, world: seq<Target>, changed: seq<Target>)
    requires world != changed && !Clash(Compiled(env.cfg, world).sets) && !Clash(Compiled(env.cfg, changed).sets)
    ensures var s := Run(env, world, ToLostAcks(changed));
            && s.Some? && s.value.consumer.Idle?
            && s.value.confirmed == Some(world) && s.value.committed == Some(changed)
            && s.value.confirmed != s.value.committed
            && s.value.kernel == Programmed(env.cfg, changed, env.group)
  {
    hide Compiled, Clash, Programmed, IpIndex, Run;
    StartedRun(env, world);
    var s4 := [Resubscribe] + [ListOk] + [Publish] + [ApplyRuleset(AcksRead)];
    var s5 := s4 + [Change(changed)];
    var s6 := s5 + [Tick];
    var s7 := s6 + [ListOk];
    var s8 := s7 + [Publish];
    RunOne(env, world, s4, Change(changed));
    RunOne(env, world, s5, Tick);
    RunOne(env, world, s6, ListOk);
    RunOne(env, world, s7, Publish);
    RunOne(env, world, s8, ApplyRuleset(AcksLost));
  }
}
