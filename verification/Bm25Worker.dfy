/**
 * The worker as it runs: maps, pending set, deadline and in-flight syncs updated in place.
 */
module Bm25Worker {
  import opened Ledger
  import opened Bm25

  /** What the loop's select returns. */
  datatype Wake = GotEvent(event: Event) | SyncDone | Tick

  /** One round: the times read, and what woke the loop. */
  datatype Round = Round(now: int, after: int, wake: Wake)

  class Worker {
    const cfg: Config
    var deps: map<Source, set<LedgerId>>
    var watchers: map<LedgerId, set<Source>>
    var pending: set<Source>
    var deadline: Option<int>
    var inFlight: seq<Source>
    ghost var log: seq<Entry>

    ghost function Maps(): Bm25.Maps
      reads this
    {
      Bm25.Maps(deps, watchers)
    }

    ghost function State(): Loop
      reads this
    {
      Loop(Maps(), pending, deadline, inFlight, log)
    }

    constructor (cfg: Config)
      ensures this.cfg == cfg && State() == START
    {
      this.cfg := cfg;
      deps, watchers, pending, deadline, inFlight, log := map[], map[], {}, None, [], [];
    }

    method RegisterGraphSource(source: Source, ledgers: set<LedgerId>)
      modifies this`deps, this`watchers
      ensures Maps() == Register(old(Maps()), source, ledgers)
    {
      deps := deps[source := ledgers];
      var todo := ledgers;
      ghost var done: set<LedgerId> := {};
      assert Watch(watchers, source, {}) == watchers;
      while todo != {}
        invariant todo + done == ledgers && todo !! done && deps == old(deps)[source := ledgers]
        invariant watchers == Watch(old(watchers), source, done)
        decreases todo
      {
        var l :| l in todo;
        watchers := watchers[l := (if l in watchers then watchers[l] else {}) + {source}];
        WatchMore(old(watchers), source, done, l);
        todo := todo - {l};
        done := done + {l};
      }
    }

    method UnregisterGraphSource(source: Source)
      modifies this`deps, this`watchers
      ensures Maps() == Unregister(old(Maps()), source)
    {
      if source in deps {
        var todo := deps[source];
        ghost var ledgers, done := todo, {};
        deps := deps - {source};
        assert Unwatch(watchers, source, {}) == watchers;
        while todo != {}
          invariant todo + done == ledgers && todo !! done && deps == old(deps) - {source}
          invariant watchers == Unwatch(old(watchers), source, done)
          decreases todo
        {
          var l :| l in todo;
          UnwatchMore(old(watchers), source, done, l);
          if l in watchers {
            var left := watchers[l] - {source};
            watchers := if left == {} then watchers - {l} else watchers[l := left];
          }
          todo := todo - {l};
          done := done + {l};
        }
      }
    }

    /** What an event asks to sync. */
    method ProcessEvent(e: Event) returns (sources: set<Source>)
      modifies this`deps, this`watchers
      ensures (Maps(), sources) == Bm25.ProcessEvent(cfg, old(Maps()), e)
    {
      sources := {};
      match e {
        case CommitPublished(ledger) => sources := if ledger in watchers then watchers[ledger] else {};
        case SourcePublished(source, ledgers) => if cfg.autoRegister { RegisterGraphSource(source, ledgers); }
        case SourceRetracted(source) => UnregisterGraphSource(source);
        case OtherEvent =>
      }
    }

    /** Start pending syncs while there is room, if the deadline has passed. */
    method FlushPending(now: int, after: int) returns (ghost taken: seq<Source>)
      modifies this`pending, this`deadline, this`inFlight, this`log
      ensures if old(deadline).Some? && now >= old(deadline).value
        then Next(cfg, old(State()), State(), FlushRound(taken, now, after))
        else State() == old(State())
    {
      taken := [];
      if deadline.None? || now < deadline.value { return; }
      while |inFlight| < cfg.maxSyncs && pending != {}
        invariant AllDistinct(taken) && Members(taken) <= old(pending) && pending == old(pending) - Members(taken)
        invariant inFlight == old(inFlight) + taken && |taken| <= Room(cfg, old(State()))
        invariant log == old(log) + Begins(taken)
        decreases pending
      {
        var source :| source in pending;
        MembersSnoc(taken, source);
        pending := pending - {source};
        inFlight := inFlight + [source];
        log := log + [Began(source)];
        assert Begins(taken + [source]) == Begins(taken) + [Began(source)];
        taken := taken + [source];
      }
      if pending == {} {
        forall s | s in old(pending) ensures s in Members(taken) { assert s !in pending; }
        assert Members(taken) == old(pending);
      }
      deadline := if pending == {} then None else Some(after + cfg.debounce);
    }

    method Receive(e: Event, now: int)
      modifies this`deps, this`watchers, this`pending, this`deadline, this`log
      ensures Next(cfg, old(State()), State(), Step.Receive(e, now))
    {
      log := log + if e.CommitPublished? then [Processed(e.ledger, Dependents(Maps(), e.ledger))] else [];
      var sources := ProcessEvent(e);
      if sources != {} {
        pending := pending + sources;
        deadline := Some(now + cfg.debounce);
      } else {
        assert pending + {} == pending;
      }
    }

    method CompleteOne()
      requires inFlight != []
      modifies this`inFlight
      ensures exists k :: Next(cfg, old(State()), State(), Complete(k))
    {
      var k :| 0 <= k < |inFlight|;
      inFlight := inFlight[..k] + inFlight[k + 1..];
      assert Next(cfg, old(State()), State(), Complete(k));
    }

    /** The loop, for as many rounds as it is not asked to stop; it keeps the run invariant. */
    method Run(rounds: seq<Round>)
      requires Inv(cfg, State())
      modifies this
      ensures Inv(cfg, State())
      ensures old(log) <= log
    {
      for i := 0 to |rounds|
        invariant Inv(cfg, State()) && old(log) <= log
      {
        ghost var before := State();
        ghost var taken := FlushPending(rounds[i].now, rounds[i].after);
        if before.deadline.Some? && rounds[i].now >= before.deadline.value {
          StepKeeps(cfg, before, State(), FlushRound(taken, rounds[i].now, rounds[i].after));
        }
        ghost var flushed := State();
        match rounds[i].wake {
          case GotEvent(e) =>
            Receive(e, rounds[i].after);
            StepKeeps(cfg, flushed, State(), Step.Receive(e, rounds[i].after));
          case SyncDone =>
            if inFlight != [] {
              CompleteOne();
              ghost var k :| Next(cfg, flushed, State(), Complete(k));
              StepKeeps(cfg, flushed, State(), Complete(k));
            }
          case Tick =>
        }
      }
    }
  }

  lemma WatchMore(watchers: map<LedgerId, set<Source>>, source: Source, done: set<LedgerId>, l: LedgerId)
    ensures var w := Watch(watchers, source, done);
      Watch(watchers, source, done + {l}) == w[l := (if l in w then w[l] else {}) + {source}]
  {
  }

  lemma UnwatchMore(watchers: map<LedgerId, set<Source>>, source: Source, done: set<LedgerId>, l: LedgerId)
    requires l !in done
    ensures var w, w' := Unwatch(watchers, source, done), Unwatch(watchers, source, done + {l});
      w' == if l !in w then w else if w[l] - {source} == {} then w - {l} else w[l := w[l] - {source}]
  {
  }

  lemma MembersSnoc(ss: seq<Source>, s: Source)
    ensures Members(ss + [s]) == Members(ss) + {s}
    ensures AllDistinct(ss) && s !in Members(ss) ==> AllDistinct(ss + [s])
  {
    var all := ss + [s];
    assert all[|ss|] == s;
    forall x | x in Members(ss) ensures x in Members(all) {
      var i :| 0 <= i < |ss| && ss[i] == x;
      assert all[i] == x;
    }
  }
}
