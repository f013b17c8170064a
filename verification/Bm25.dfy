/**
 * The BM25 maintenance worker: which sources watch which ledgers, and the debounced loop that
 * turns commit events into syncs.
 */
module Bm25 {
  import opened Ledger

  type Source = string
  type LedgerId = string

  // ---------------------------------------------------------------------------
  // Dependency maps
  // ---------------------------------------------------------------------------

  /** Sources with the ledgers they depend on, and ledgers with the sources to wake. */
  datatype Maps = Maps(deps: map<Source, set<LedgerId>>, watchers: map<LedgerId, set<Source>>)

  function Watching(m: Maps, ledger: LedgerId): set<Source> {
    if ledger in m.watchers then m.watchers[ledger] else {}
  }

  /** The reverse map with `source` added for some ledgers. */
  function Watch(watchers: map<LedgerId, set<Source>>, source: Source, ledgers: set<LedgerId>)
    : map<LedgerId, set<Source>>
  {
    map l | l in watchers.Keys + ledgers ::
      if l in ledgers then (if l in watchers then watchers[l] else {}) + {source} else watchers[l]
  }

  /** The reverse map with `source` removed for some ledgers; an entry left empty goes. */
  function Unwatch(watchers: map<LedgerId, set<Source>>, source: Source, ledgers: set<LedgerId>)
    : map<LedgerId, set<Source>>
  {
    map l | l in watchers && !(l in ledgers && watchers[l] - {source} == {}) ::
      if l in ledgers then watchers[l] - {source} else watchers[l]
  }

  function Register(m: Maps, source: Source, ledgers: set<LedgerId>): Maps {
    Maps(m.deps[source := ledgers], Watch(m.watchers, source, ledgers))
  }

  /** Only the ledgers of the latest registration are looked at. */
  function Unregister(m: Maps, source: Source): Maps {
    if source !in m.deps then m else Maps(m.deps - {source}, Unwatch(m.watchers, source, m.deps[source]))
  }

  /** No registered dependency is missing from the reverse map, and no reverse entry is empty. */
  ghost predicate Covered(m: Maps) {
    && (forall s, l | s in m.deps && l in m.deps[s] :: s in Watching(m, l))
    && (forall l | l in m.watchers :: m.watchers[l] != {})
  }

  lemma RegisterCovers(m: Maps, source: Source, ledgers: set<LedgerId>)
    requires Covered(m)
    ensures Covered(Register(m, source, ledgers))
  {
    var m' := Register(m, source, ledgers);
    forall s, l | s in m'.deps && l in m'.deps[s] ensures s in Watching(m', l) {
      if s != source { assert s in Watching(m, l); }
    }
  }

  lemma UnregisterCovers(m: Maps, source: Source)
    requires Covered(m)
    ensures Covered(Unregister(m, source)) && source !in Unregister(m, source).deps
  {
    if source in m.deps {
      var m' := Unregister(m, source);
      forall s, l | s in m'.deps && l in m'.deps[s] ensures s in Watching(m', l) {
        assert s in Watching(m, l) && s in m.watchers[l] - {source};
      }
    }
  }

  /** The reverse map says exactly what the registrations say. */
  ghost predicate Exact(m: Maps) {
    forall s, l :: s in Watching(m, l) <==> s in m.deps && l in m.deps[s]
  }

  /** Registering keeps the maps inverse to each other exactly when no ledger is dropped. */
  lemma RegisterExactIff(m: Maps, source: Source, ledgers: set<LedgerId>)
    requires Exact(m)
    ensures Exact(Register(m, source, ledgers)) <==> source !in m.deps || m.deps[source] <= ledgers
  {
    var m' := Register(m, source, ledgers);
    forall s, l ensures s in Watching(m', l) <==> s in Watching(m, l) || (s == source && l in ledgers) {}
    if source in m.deps && !(m.deps[source] <= ledgers) {
      var l :| l in m.deps[source] && l !in ledgers;
      assert source in Watching(m, l) && source in Watching(m', l) && l !in m'.deps[source];
    } else {
      forall s, l ensures s in Watching(m', l) <==> s in m'.deps && l in m'.deps[s] {
        assert s in Watching(m, l) <==> s in m.deps && l in m.deps[s];
      }
    }
  }

  lemma UnregisterExact(m: Maps, source: Source)
    requires Exact(m)
    ensures Exact(Unregister(m, source))
  {
    var m' := Unregister(m, source);
    forall s, l ensures s in Watching(m', l) <==> s in m'.deps && l in m'.deps[s] {
      assert s in Watching(m, l) <==> s in m.deps && l in m.deps[s];
      assert source in Watching(m, l) <==> source in m.deps && l in m.deps[source];
    }
  }

  /**
   * The reverse map is no exact inverse: after registering again with fewer ledgers and
   * unregistering, the dropped ledger still wakes the source.
   */
  lemma ShrinkingLeavesAWatcher(source: Source, kept: LedgerId, dropped: LedgerId)
    requires kept != dropped
    ensures var m :=
        Unregister(Register(Register(Maps(map[], map[]), source, {kept, dropped}), source, {kept}), source);
      source !in m.deps && source in Watching(m, dropped)
  {
    var m1 := Register(Maps(map[], map[]), source, {kept, dropped});
    assert m1.watchers[dropped] == {source};
    var m2 := Register(m1, source, {kept});
    assert m2.watchers[dropped] == {source} && m2.deps[source] == {kept};
  }

  // ---------------------------------------------------------------------------
  // The loop as a state machine
  // ---------------------------------------------------------------------------

  datatype Config = Config(maxSyncs: nat, autoRegister: bool, debounce: nat)

  datatype Event =
    | CommitPublished(ledger: LedgerId)
    | SourcePublished(source: Source, ledgers: set<LedgerId>)
    | SourceRetracted(source: Source)
    | OtherEvent

  /** What happened: a commit was processed with these dependents registered; a sync began. */
  datatype Entry = Processed(ledger: LedgerId, dependents: set<Source>) | Began(source: Source)

  datatype Loop = Loop(maps: Maps, pending: set<Source>, deadline: Option<int>, inFlight: seq<Source>, log: seq<Entry>)

  datatype Step =
    | Receive(event: Event, now: int)
    | FlushRound(taken: seq<Source>, now: int, after: int)
    | Complete(k: nat)
    | Handle(event: Event)
    | Idle

  const START := Loop(Maps(map[], map[]), {}, None, [], [])

  function Dependents(m: Maps, ledger: LedgerId): set<Source> {
    set s | s in m.deps && ledger in m.deps[s]
  }

  /** `process_event`: the new maps and the sources to sync. */
  function ProcessEvent(cfg: Config, m: Maps, e: Event): (Maps, set<Source>) {
    match e
    case CommitPublished(ledger) => (m, Watching(m, ledger))
    case SourcePublished(source, ledgers) => (if cfg.autoRegister then Register(m, source, ledgers) else m, {})
    case SourceRetracted(source) => (Unregister(m, source), {})
    case OtherEvent => (m, {})
  }

  function Received(cfg: Config, s: Loop, e: Event, now: int): Loop {
    var (maps, sources) := ProcessEvent(cfg, s.maps, e);
    Loop(maps, s.pending + sources, if sources == {} then s.deadline else Some(now + cfg.debounce), s.inFlight,
         s.log + if e.CommitPublished? then [Processed(e.ledger, Dependents(s.maps, e.ledger))] else [])
  }

  function Room(cfg: Config, s: Loop): nat {
    if |s.inFlight| < cfg.maxSyncs then cfg.maxSyncs - |s.inFlight| else 0
  }

  predicate AllDistinct(ss: seq<Source>) {
    forall i, j | 0 <= i < j < |ss| :: ss[i] != ss[j]
  }

  function Members(ss: seq<Source>): set<Source> {
    set i | 0 <= i < |ss| :: ss[i]
  }

  function Begins(ss: seq<Source>): (es: seq<Entry>)
    ensures |es| == |ss| && forall i | 0 <= i < |ss| :: es[i] == Began(ss[i])
  {
    seq(|ss|, i requires 0 <= i < |ss| => Began(ss[i]))
  }

  /** A flush takes pending sources, in any order, until there is no room or none is left. */
  predicate CanFlush(cfg: Config, s: Loop, taken: seq<Source>, now: int) {
    && s.deadline.Some? && now >= s.deadline.value
    && AllDistinct(taken) && Members(taken) <= s.pending && |taken| <= Room(cfg, s)
    && (|taken| == Room(cfg, s) || Members(taken) == s.pending)
  }

  function Flushed(cfg: Config, s: Loop, taken: seq<Source>, after: int): Loop {
    var pending := s.pending - Members(taken);
    Loop(s.maps, pending, if pending == {} then None else Some(after + cfg.debounce), s.inFlight + taken,
         s.log + Begins(taken))
  }

  ghost predicate Next(cfg: Config, s: Loop, s': Loop, step: Step) {
    match step
    case Receive(e, now) => s' == Received(cfg, s, e, now)
    case FlushRound(taken, now, after) => CanFlush(cfg, s, taken, now) && s' == Flushed(cfg, s, taken, after)
    case Complete(k) => k < |s.inFlight| && s' == s.(inFlight := s.inFlight[..k] + s.inFlight[k + 1..])
    case Handle(e) => !e.CommitPublished? && s' == s.(maps := ProcessEvent(cfg.(autoRegister := true), s.maps, e).0)
    case Idle => s' == s
  }

  // ---------------------------------------------------------------------------
  // What every run keeps
  // ---------------------------------------------------------------------------

  /** A dependent of a processed commit is pending, or a sync of it began after the event. */
  ghost predicate Served(s: Loop, i: nat, source: Source)
    requires i < |s.log|
  {
    source in s.pending || exists j :: i < j < |s.log| && s.log[j] == Began(source)
  }

  ghost predicate NoneMissed(s: Loop) {
    forall i, source | 0 <= i < |s.log| && s.log[i].Processed? && source in s.log[i].dependents :: Served(s, i, source)
  }

  ghost predicate Inv(cfg: Config, s: Loop) {
    && Covered(s.maps)
    && |s.inFlight| <= cfg.maxSyncs
    && (s.deadline.Some? <==> s.pending != {})
    && NoneMissed(s)
  }

  lemma EventCovers(cfg: Config, m: Maps, e: Event)
    requires Covered(m)
    ensures Covered(ProcessEvent(cfg, m, e).0)
  {
    match e {
      case CommitPublished(_) =>
      case SourcePublished(source, ledgers) => RegisterCovers(m, source, ledgers);
      case SourceRetracted(source) => UnregisterCovers(m, source);
      case OtherEvent =>
    }
  }

  lemma ServedLater(s: Loop, s': Loop, i: nat, source: Source)
    requires i < |s.log| && s.log <= s'.log && Served(s, i, source)
    requires source in s.pending ==>
      source in s'.pending || exists j :: |s.log| <= j < |s'.log| && s'.log[j] == Began(source)
    ensures Served(s', i, source)
  {
    if source !in s.pending {
      var j :| i < j < |s.log| && s.log[j] == Began(source);
      assert s'.log[j] == Began(source);
    }
  }

  lemma ReceiveKeeps(cfg: Config, s: Loop, e: Event, now: int)
    requires Inv(cfg, s)
    ensures Inv(cfg, Received(cfg, s, e, now))
  {
    var s' := Received(cfg, s, e, now);
    EventCovers(cfg, s.maps, e);
    forall i, source | 0 <= i < |s'.log| && s'.log[i].Processed? && source in s'.log[i].dependents
      ensures Served(s', i, source)
    {
      if i < |s.log| {
        assert s.log[i] == s'.log[i] && Served(s, i, source);
        ServedLater(s, s', i, source);
      } else {
        assert source in Watching(s.maps, e.ledger);
      }
    }
  }

  lemma FlushKeeps(cfg: Config, s: Loop, taken: seq<Source>, now: int, after: int)
    requires Inv(cfg, s) && CanFlush(cfg, s, taken, now)
    ensures Inv(cfg, Flushed(cfg, s, taken, after))
  {
    var s' := Flushed(cfg, s, taken, after);
    forall i, source | 0 <= i < |s'.log| && s'.log[i].Processed? && source in s'.log[i].dependents
      ensures Served(s', i, source)
    {
      assert i < |s.log|;
      assert s.log[i] == s'.log[i] && Served(s, i, source);
      if source in Members(taken) {
        var k :| 0 <= k < |taken| && taken[k] == source;
        assert s'.log[|s.log| + k] == Begins(taken)[k] == Began(source);
      }
      ServedLater(s, s', i, source);
    }
  }

  lemma QuietKeeps(s: Loop, s': Loop)
    requires NoneMissed(s) && s'.pending == s.pending && s'.log == s.log
    ensures NoneMissed(s')
  {
    forall i, source | 0 <= i < |s'.log| && s'.log[i].Processed? && source in s'.log[i].dependents
      ensures Served(s', i, source)
    {
      assert Served(s, i, source);
    }
  }

  lemma StepKeeps(cfg: Config, s: Loop, s': Loop, step: Step)
    requires Inv(cfg, s) && Next(cfg, s, s', step)
    ensures Inv(cfg, s')
  {
    match step {
      case Receive(e, now) => ReceiveKeeps(cfg, s, e, now);
      case FlushRound(taken, now, after) => FlushKeeps(cfg, s, taken, now, after);
      case Complete(k) => QuietKeeps(s, s');
      case Handle(e) =>
        EventCovers(cfg.(autoRegister := true), s.maps, e);
        QuietKeeps(s, s');
      case Idle =>
    }
  }

  ghost predicate NextAt(cfg: Config, ss: seq<Loop>, steps: seq<Step>, i: nat)
    requires i + 1 < |ss| && i < |steps|
  {
    Next(cfg, ss[i], ss[i + 1], steps[i])
  }

  ghost predicate IsRun(cfg: Config, ss: seq<Loop>, steps: seq<Step>) {
    |ss| == |steps| + 1 && ss[0] == START && forall i | 0 <= i < |steps| :: NextAt(cfg, ss, steps, i)
  }

  /**
   * In every run: at most the configured number of syncs in flight, a deadline exactly when
   * something is pending, and no dependent of a processed commit is forgotten.
   */
  lemma {:induction false} RunKeeps(cfg: Config, ss: seq<Loop>, steps: seq<Step>, n: nat)
    requires IsRun(cfg, ss, steps) && n < |ss|
    ensures Inv(cfg, ss[n])
    decreases n
  {
    if n > 0 {
      RunKeeps(cfg, ss, steps, n - 1);
      assert NextAt(cfg, ss, steps, n - 1);
      StepKeeps(cfg, ss[n - 1], ss[n], steps[n - 1]);
    }
  }

  // ---------------------------------------------------------------------------
  // When the reverse map is exact
  // ---------------------------------------------------------------------------

  /** The step registers a source again without one of its ledgers. */
  predicate Drops(cfg: Config, s: Loop, step: Step) {
    && ((step.Receive? && cfg.autoRegister) || step.Handle?)
    && step.event.SourcePublished? && step.event.source in s.maps.deps
    && !(s.maps.deps[step.event.source] <= step.event.ledgers)
  }

  lemma StepExactIff(cfg: Config, s: Loop, s': Loop, step: Step)
    requires Exact(s.maps) && Next(cfg, s, s', step)
    ensures Exact(s'.maps) <==> !Drops(cfg, s, step)
  {
    if (step.Receive? || step.Handle?) && step.event.SourcePublished? {
      RegisterExactIff(s.maps, step.event.source, step.event.ledgers);
    } else if (step.Receive? || step.Handle?) && step.event.SourceRetracted? {
      UnregisterExact(s.maps, step.event.source);
    }
  }

  ghost predicate ExactAt(ss: seq<Loop>, i: nat)
    requires i < |ss|
  {
    Exact(ss[i].maps)
  }

  ghost predicate KeepsAt(cfg: Config, ss: seq<Loop>, steps: seq<Step>, i: nat)
    requires i < |ss| && i < |steps|
  {
    !Drops(cfg, ss[i], steps[i])
  }

  /** In every run the maps are inverse at every moment exactly as long as no registration drops a ledger. */
  lemma {:induction false} RunExactIff(cfg: Config, ss: seq<Loop>, steps: seq<Step>, n: nat)
    requires IsRun(cfg, ss, steps) && n < |ss|
    ensures (forall i | 0 <= i <= n :: ExactAt(ss, i)) <==> (forall i | 0 <= i < n :: KeepsAt(cfg, ss, steps, i))
    decreases n
  {
    if n > 0 {
      RunExactIff(cfg, ss, steps, n - 1);
      assert NextAt(cfg, ss, steps, n - 1);
      if ExactAt(ss, n - 1) {
        StepExactIff(cfg, ss[n - 1], ss[n], steps[n - 1]);
        assert ExactAt(ss, n) <==> KeepsAt(cfg, ss, steps, n - 1);
      }
    } else {
      assert ExactAt(ss, 0);
    }
  }

  // ---------------------------------------------------------------------------
  // Which commits wake a source
  // ---------------------------------------------------------------------------

  /** The step registers the source, for these ledgers among others. */
  predicate Registers(cfg: Config, step: Step, source: Source, ledger: LedgerId) {
    && ((step.Receive? && cfg.autoRegister) || step.Handle?)
    && step.event.SourcePublished? && step.event.source == source && ledger in step.event.ledgers
  }

  /** The step retracts the source. */
  predicate Retracts(step: Step, source: Source) {
    (step.Receive? || step.Handle?) && step.event == SourceRetracted(source)
  }

  /** What a step makes of a source being woken by a ledger's commits. */
  lemma StepWakes(cfg: Config, s: Loop, s': Loop, step: Step, source: Source, ledger: LedgerId)
    requires Next(cfg, s, s', step)
    ensures source in Watching(s'.maps, ledger) <==>
      || Registers(cfg, step, source, ledger)
      || (source in Watching(s.maps, ledger)
          && !(Retracts(step, source) && source in s.maps.deps && ledger in s.maps.deps[source]))
  {
  }

  /** In every run a commit wakes only sources that were registered for its ledger before. */
  lemma {:induction false} WokenWasRegistered(cfg: Config, ss: seq<Loop>, steps: seq<Step>, n: nat, source: Source,
                                              ledger: LedgerId)
    returns (i: nat)
    requires IsRun(cfg, ss, steps) && n < |ss| && source in Watching(ss[n].maps, ledger)
    ensures i < n && Registers(cfg, steps[i], source, ledger)
    decreases n
  {
    assert NextAt(cfg, ss, steps, n - 1);
    StepWakes(cfg, ss[n - 1], ss[n], steps[n - 1], source, ledger);
    if Registers(cfg, steps[n - 1], source, ledger) {
      i := n - 1;
    } else {
      i := WokenWasRegistered(cfg, ss, steps, n - 1, source, ledger);
    }
  }

  /** A processed commit makes exactly the sources that watch its ledger pending. */
  lemma CommitWakes(cfg: Config, s: Loop, s': Loop, ledger: LedgerId, now: int, source: Source)
    requires Next(cfg, s, s', Receive(CommitPublished(ledger), now))
    ensures source in s'.pending <==> source in s.pending || source in Watching(s.maps, ledger)
    ensures source in Watching(s.maps, ledger) ==> s'.deadline == Some(now + cfg.debounce)
    ensures |s'.log| == |s.log| + 1 && s'.log[|s.log|].Processed?
    ensures source in s'.log[|s.log|].dependents <==> source in s.maps.deps && ledger in s.maps.deps[source]
  {
  }

  ghost predicate SilentAt(cfg: Config, steps: seq<Step>, source: Source, i: nat)
    requires i < |steps|
  {
    forall ledger :: !Registers(cfg, steps[i], source, ledger)
  }

  /** A source stays as it is while it is not registered again. */
  lemma {:induction false} WakesOnlyIfBefore(cfg: Config, ss: seq<Loop>, steps: seq<Step>, m: nat, n: nat,
                                             source: Source, ledger: LedgerId)
    requires IsRun(cfg, ss, steps) && m <= n < |ss|
    requires forall i | m <= i < n :: SilentAt(cfg, steps, source, i)
    requires source in Watching(ss[n].maps, ledger)
    ensures source in Watching(ss[m].maps, ledger)
    decreases n
  {
    if m < n {
      assert NextAt(cfg, ss, steps, n - 1) && SilentAt(cfg, steps, source, n - 1);
      StepWakes(cfg, ss[n - 1], ss[n], steps[n - 1], source, ledger);
      WakesOnlyIfBefore(cfg, ss, steps, m, n - 1, source, ledger);
    }
  }

  /**
   * In every run: after a source is retracted, and until it is registered again, no commit of any
   * ledger wakes it, if no registration until then has dropped a ledger.
   */
  lemma RetractedIsSilent(cfg: Config, ss: seq<Loop>, steps: seq<Step>, m: nat, n: nat, source: Source,
                          ledger: LedgerId)
    requires IsRun(cfg, ss, steps) && m < n < |ss| && Retracts(steps[m], source)
    requires forall i | 0 <= i < m :: KeepsAt(cfg, ss, steps, i)
    requires forall i | m < i < n :: SilentAt(cfg, steps, source, i)
    ensures source !in Watching(ss[n].maps, ledger)
  {
    RunExactIff(cfg, ss, steps, m);
    assert ExactAt(ss, m) && NextAt(cfg, ss, steps, m);
    StepWakes(cfg, ss[m], ss[m + 1], steps[m], source, ledger);
    assert source in Watching(ss[m].maps, ledger) <==> source in ss[m].maps.deps && ledger in ss[m].maps.deps[source];
    if source in Watching(ss[n].maps, ledger) {
      WakesOnlyIfBefore(cfg, ss, steps, m + 1, n, source, ledger);
    }
  }

  // ---------------------------------------------------------------------------
  // Debouncing
  // ---------------------------------------------------------------------------

  /** The step is the arrival at `now` of a commit that some source watches. */
  ghost predicate WakesAt(s: Loop, step: Step, now: int) {
    step.Receive? && step.now == now && step.event.CommitPublished? && Watching(s.maps, step.event.ledger) != {}
  }

  /** Neither a flush nor the arrival of such a commit. */
  ghost predicate CalmAt(ss: seq<Loop>, steps: seq<Step>, i: nat)
    requires i < |ss| && i < |steps|
  {
    !steps[i].FlushRound? && forall now :: !WakesAt(ss[i], steps[i], now)
  }

  lemma {:induction false} DeadlineStays(cfg: Config, ss: seq<Loop>, steps: seq<Step>, m: nat, n: nat)
    requires IsRun(cfg, ss, steps) && m <= n < |ss|
    requires forall i | m <= i < n :: CalmAt(ss, steps, i)
    ensures ss[n].deadline == ss[m].deadline
    decreases n
  {
    if m < n {
      DeadlineStays(cfg, ss, steps, m, n - 1);
      assert NextAt(cfg, ss, steps, n - 1) && CalmAt(ss, steps, n - 1);
      if steps[n - 1].Receive? { assert !WakesAt(ss[n - 1], steps[n - 1], steps[n - 1].now); }
    }
  }

  /** What a flush could not start waits for the debounce time again. */
  lemma LeftoversWait(cfg: Config, ss: seq<Loop>, steps: seq<Step>, m: nat, n: nat)
    requires IsRun(cfg, ss, steps) && m < n < |steps| && steps[m].FlushRound? && steps[n].FlushRound?
    requires forall i | m < i < n :: CalmAt(ss, steps, i)
    ensures ss[m + 1].pending != {} && steps[n].now >= steps[m].after + cfg.debounce
  {
    assert NextAt(cfg, ss, steps, m) && NextAt(cfg, ss, steps, n);
    DeadlineStays(cfg, ss, steps, m + 1, n);
  }

  /** In every run a flush comes no sooner than the debounce time after the last commit to wake a source. */
  lemma FlushIsDebounced(cfg: Config, ss: seq<Loop>, steps: seq<Step>, m: nat, n: nat, now: int)
    requires IsRun(cfg, ss, steps) && m < n < |steps| && WakesAt(ss[m], steps[m], now)
    requires (forall i | m < i < n :: CalmAt(ss, steps, i)) && steps[n].FlushRound?
    ensures steps[n].now >= now + cfg.debounce
  {
    assert NextAt(cfg, ss, steps, m) && NextAt(cfg, ss, steps, n);
    DeadlineStays(cfg, ss, steps, m + 1, n);
  }

  /** A flush that leaves something pending has filled the pool. */
  lemma FlushFills(cfg: Config, s: Loop, s': Loop, taken: seq<Source>, now: int, after: int)
    requires Next(cfg, s, s', FlushRound(taken, now, after)) && s'.pending != {}
    ensures |s'.inFlight| >= cfg.maxSyncs
  {
    assert Members(taken) != s.pending;
  }

  /** The flush starts a sync of the source. */
  ghost predicate StartsAt(steps: seq<Step>, source: Source, i: nat)
    requires i < |steps|
  {
    steps[i].FlushRound? && source in steps[i].taken
  }

  /**
   * In every run: a source that depends on a ledger when its commit is processed is pending from then
   * on, until a flush starts a sync of it.
   */
  lemma {:induction false} CommitIsServed(cfg: Config, ss: seq<Loop>, steps: seq<Step>, m: nat, n: nat, source: Source)
    requires IsRun(cfg, ss, steps) && m < n < |ss| && steps[m].Receive? && steps[m].event.CommitPublished?
    requires source in ss[m].maps.deps && steps[m].event.ledger in ss[m].maps.deps[source]
    ensures source in ss[n].pending || exists i :: m < i < n && StartsAt(steps, source, i)
    decreases n
  {
    assert NextAt(cfg, ss, steps, n - 1);
    if n == m + 1 {
      RunKeeps(cfg, ss, steps, m);
      assert source in Watching(ss[m].maps, steps[m].event.ledger);
    } else {
      CommitIsServed(cfg, ss, steps, m, n - 1, source);
      if source in ss[n - 1].pending && source !in ss[n].pending {
        assert steps[n - 1].FlushRound? && source in Members(steps[n - 1].taken);
        assert StartsAt(steps, source, n - 1);
      }
    }
  }

  // ---------------------------------------------------------------------------
  // Syncs of one source at a time
  // ---------------------------------------------------------------------------

  /** The flush starts a sync of a source that still has one in flight. */
  predicate Overlaps(s: Loop, step: Step) {
    step.FlushRound? && !(Members(step.taken) !! Members(s.inFlight))
  }

  lemma AppendDistinctIff(a: seq<Source>, b: seq<Source>)
    requires AllDistinct(a) && AllDistinct(b)
    ensures AllDistinct(a + b) <==> Members(a) !! Members(b)
  {
    if !(Members(a) !! Members(b)) {
      var x :| x in Members(a) && x in Members(b);
      var i :| 0 <= i < |a| && a[i] == x;
      var j :| 0 <= j < |b| && b[j] == x;
      assert (a + b)[i] == (a + b)[|a| + j];
    } else {
      forall i, j | 0 <= i < j < |a + b| ensures (a + b)[i] != (a + b)[j] {
        if i < |a| <= j { assert a[i] in Members(a) && b[j - |a|] in Members(b); }
      }
    }
  }

  lemma StepAloneIff(cfg: Config, s: Loop, s': Loop, step: Step)
    requires AllDistinct(s.inFlight) && Next(cfg, s, s', step)
    ensures AllDistinct(s'.inFlight) <==> !Overlaps(s, step)
  {
    if step.FlushRound? { AppendDistinctIff(s.inFlight, step.taken); }
  }

  ghost predicate AloneAt(ss: seq<Loop>, i: nat)
    requires i < |ss|
  {
    AllDistinct(ss[i].inFlight)
  }

  ghost predicate WaitsAt(ss: seq<Loop>, steps: seq<Step>, i: nat)
    requires i < |ss| && i < |steps|
  {
    !Overlaps(ss[i], steps[i])
  }

  /** No source ever has two syncs in flight exactly as long as no flush takes one that is in flight. */
  lemma {:induction false} RunAloneIff(cfg: Config, ss: seq<Loop>, steps: seq<Step>, n: nat)
    requires IsRun(cfg, ss, steps) && n < |ss|
    ensures (forall i | 0 <= i <= n :: AloneAt(ss, i)) <==> (forall i | 0 <= i < n :: WaitsAt(ss, steps, i))
    decreases n
  {
    if n > 0 {
      RunAloneIff(cfg, ss, steps, n - 1);
      assert NextAt(cfg, ss, steps, n - 1);
      if AloneAt(ss, n - 1) {
        StepAloneIff(cfg, ss[n - 1], ss[n], steps[n - 1]);
        assert AloneAt(ss, n) <==> WaitsAt(ss, steps, n - 1);
      }
    } else {
      assert AloneAt(ss, 0);
    }
  }

  /** With room for two, a commit during a sync starts a second sync of the same source. */
  lemma TwoSyncsOfOneSource(cfg: Config, source: Source, ledger: LedgerId) returns (ss: seq<Loop>, steps: seq<Step>)
    requires cfg.maxSyncs >= 2
    ensures IsRun(cfg, ss, steps) && ss[|ss| - 1].inFlight == [source, source]
  {
    var d := cfg.debounce;
    var s1 := START.(maps := Register(START.maps, source, {ledger}));
    assert Watching(s1.maps, ledger) == {source};
    var s2 := Received(cfg, s1, CommitPublished(ledger), 0);
    assert s2.pending == {source} && s2.deadline == Some(d);
    assert [source][0] == source && Members([source]) == {source};
    var s3 := Flushed(cfg, s2, [source], d);
    assert s3.pending == {} && s3.inFlight == [source];
    var s4 := Received(cfg, s3, CommitPublished(ledger), d);
    assert s4.pending == {source} && s4.deadline == Some(d + d);
    var s5 := Flushed(cfg, s4, [source], d + d);
    ss := [START, s1, s2, s3, s4, s5];
    var commit := CommitPublished(ledger);
    steps := [Handle(SourcePublished(source, {ledger})), Receive(commit, 0), FlushRound([source], d, d),
              Receive(commit, d), FlushRound([source], d + d, d + d)];
    assert NextAt(cfg, ss, steps, 0) && NextAt(cfg, ss, steps, 1) && NextAt(cfg, ss, steps, 2)
      && NextAt(cfg, ss, steps, 3) && NextAt(cfg, ss, steps, 4);
  }
}
