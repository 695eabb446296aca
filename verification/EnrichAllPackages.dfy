/** The beat job itself: its batch loop over the graph and the broker, as one run of the protocol. */
module EnrichAllPackages {
  import opened Options
  import opened TopologicalSort
  import opened Dispatch

  datatype Outcome =
    | Dispatched(count: nat, force: bool)
    | SkippedBackpressure(queueDepth: nat)

  function Messages(purls: seq<string>): seq<Message> {
    seq(|purls|, i requires 0 <= i < |purls| => Enrich(purls[i], 0))
  }


  /** Every purl of the graph, as a forced run selects them. */
  function AllPurls(versions: seq<Version>): set<string> {
    set v | v in versions && v.purl.Some? && v.purl.value != "" :: v.purl.value
  }

  /** Stamping the next batch after the batches before it. */
  lemma StampedJoins(versions: seq<Version>, purls: seq<string>, i: nat, j: nat, ts: int)
    requires i <= j <= |purls|
    ensures Stamped(Stamped(versions, purls[..i], ts), purls[i..j], ts) == Stamped(versions, purls[..j], ts)
  {
    assert purls[..j] == purls[..i] + purls[i..j];
  }

  lemma StampedNothing(versions: seq<Version>, ts: int)
    ensures Stamped(versions, [], ts) == versions
  {
  }

  // ---------- the steps of a tick ----------

  /** es is a run of the protocol from start to s. */
  ghost predicate Leads(c: Config, start: System, es: seq<Event>, s: System) {
    Possible(c, start, es) && After(start, es) == s
  }

  lemma Extend(c: Config, start: System, es: seq<Event>, s: System, e: Event)
    requires Leads(c, start, es, s) && Enabled(c, s, e)
    ensures Leads(c, start, es + [e], Next(s, e))
  {
    RunOne(c, start, es, e);
  }

  lemma Selects(c: Config, start: System, purls: seq<string>)
    requires start.tick == Idle && IsSelection(c, start, purls)
    ensures Leads(c, start, [Select(purls)], start.(tick := Selected(purls, start.now)))
  {
    Extend(c, start, [], start, Select(purls));
    assert [] + [Select(purls)] == [Select(purls)];
  }

  lemma Skips(c: Config, start: System, es: seq<Event>, s: System, depth: nat)
    requires Leads(c, start, es, s) && Enabled(c, s, Skip(depth))
    ensures Leads(c, start, es + [Skip(depth)], s.(tick := Idle))
  {
    Extend(c, start, es, s, Skip(depth));
  }

  lemma Clears(c: Config, start: System, es: seq<Event>, s: System, depth: Option<nat>)
    requires Leads(c, start, es, s) && Enabled(c, s, Clear(depth))
    ensures Leads(c, start, es + [Clear(depth)], s.(tick := Cleared(s.tick.purls, s.tick.at)))
  {
    Extend(c, start, es, s, Clear(depth));
  }

  lemma Starts(c: Config, start: System, es: seq<Event>, s: System, at: int)
    requires Leads(c, start, es, s) && Enabled(c, s, Start) && s.now <= at
    ensures Leads(c, start, es + [Wait(at)] + [Start], s.(now := at, tick := Dispatching(s.tick.purls, at, 0, 0)))
  {
    Extend(c, start, es, s, Wait(at));
    Extend(c, start, es + [Wait(at)], s.(now := at), Start);
  }

  lemma Stamps(c: Config, start: System, es: seq<Event>, s: System)
    requires Leads(c, start, es, s) && Enabled(c, s, StampBatch)
    ensures var end := BatchEnd(s.tick.sent, |s.tick.purls|);
            Leads(c, start, es + [StampBatch], s.(
              versions := Stamped(s.versions, s.tick.purls[s.tick.sent..end], s.tick.stamp),
              tick := Dispatching(s.tick.purls, s.tick.stamp, end, s.tick.sent)))
  {
    Extend(c, start, es, s, StampBatch);
  }

  lemma Sends(c: Config, start: System, es: seq<Event>, s: System)
    requires Leads(c, start, es, s) && Enabled(c, s, Send)
    ensures var purl := s.tick.purls[s.tick.sent];
            Leads(c, start, es + [Send], s.(
              queue := s.queue + [Enrich(purl, 0)],
              log := s.log + [Sent(purl, s.tick.stamp, s.now)],
              tick := Dispatching(s.tick.purls, s.tick.stamp, s.tick.stamped, s.tick.sent + 1)))
  {
    Extend(c, start, es, s, Send);
  }

  lemma Ends(c: Config, start: System, es: seq<Event>, s: System)
    requires Leads(c, start, es, s) && Enabled(c, s, End)
    ensures Leads(c, start, es + [End], s.(tick := Idle))
  {
    Extend(c, start, es, s, End);
  }

  lemma MessagesJoin(purls: seq<string>, i: nat, j: nat, k: nat)
    requires i <= j <= k <= |purls|
    ensures Messages(purls[i..k]) == Messages(purls[i..j]) + Messages(purls[j..k])
  {
    assert purls[i..k] == purls[i..j] + purls[j..k];
  }

  lemma MessagesNext(purls: seq<string>, i: nat, k: nat)
    requires i <= k < |purls|
    ensures Messages(purls[i..k + 1]) == Messages(purls[i..k]) + [Enrich(purls[k], 0)]
  {
    MessagesJoin(purls, i, k, k + 1);
  }

  /** The graph that the beat job queries and the broker it sends to. */
  class Deployment {
    const config: Config
    var now: int
    var versions: seq<Version>
    var queue: seq<Message>
    ghost var running: seq<Job>
    ghost var tick: Tick
    ghost var log: seq<Sent>

    constructor (config: Config, now: int, versions: seq<Version>, queue: seq<Message>)
      ensures this.config == config && Now() == System(now, versions, queue, [], Idle, [])
    {
      this.config, this.now, this.versions, this.queue := config, now, versions, queue;
      running, tick, log := [], Idle, [];
    }

    ghost function Now(): System
      reads this
    {
      System(now, versions, queue, running, tick, log)
    }

    /** RETURN DISTINCT purl, in whatever order the rows come. */
    method RowsOf(found: set<string>) returns (purls: seq<string>)
      ensures Distinct(purls) && forall p :: p in purls <==> p in found
    {
      purls := [];
      var left := found;
      while left != {}
        invariant Distinct(purls) && left <= found
        invariant forall p :: p in purls <==> p in found && p !in left
      {
        var p :| p in left;
        purls := purls + [p];
        left := left - {p};
      }
    }

    /** enrich_package.delay */
    method Delay(purl: string)
      modifies this`queue
      ensures queue == old(queue) + [Enrich(purl, 0)]
    {
      queue := queue + [Enrich(purl, 0)];
    }

    /** The UNWIND query that stamps the batch purls[i..end]. */
    method StampQueued(purls: seq<string>, i: nat, end: nat, ghost start: System, ghost es: seq<Event>)
      returns (ghost run: seq<Event>)
      requires i < |purls| && end == BatchEnd(i, |purls|)
      requires Leads(config, start, es, Now()) && tick == Dispatching(purls, now, i, i)
      modifies this`versions, this`tick
      ensures versions == Stamped(old(versions), purls[i..end], now) && tick == Dispatching(purls, now, end, i)
      ensures Leads(config, start, run, Now())
    {
      Stamps(config, start, es, Now());
      run := es + [StampBatch];
      versions := Stamped(versions, purls[i..end], now);
      tick := Dispatching(purls, now, end, i);
    }

    /** Sends purls[i..end]. In a beat tick each message is one Send step of the protocol. */
    method SendBatch(purls: seq<string>, i: nat, end: nat, ghost start: System, ghost es: seq<Event>)
      returns (ghost run: seq<Event>)
      requires i <= end <= |purls|
      requires Leads(config, start, es, Now())
      requires tick == Dispatching(purls, now, end, i)
      modifies this`queue, this`log, this`tick
      ensures queue == old(queue) + Messages(purls[i..end])
      ensures tick == Dispatching(purls, now, end, end)
      ensures Leads(config, start, run, Now())
    {
      run := es;
      var k := i;
      while k < end
        invariant i <= k <= end
        invariant queue == old(queue) + Messages(purls[i..k])
        invariant tick == Dispatching(purls, now, end, k)
        invariant Leads(config, start, run, Now())
      {
        Sends(config, start, run, Now());
        run := run + [Send];
        MessagesNext(purls, i, k);
        Delay(purls[k]);
        log := log + [Sent(purls[k], now, now)];
        tick := Dispatching(purls, now, end, k + 1);
        k := k + 1;
      }
    }

    /** One batch: stamp it, then send it. */
    method DispatchBatch(purls: seq<string>, i: nat, end: nat, ghost start: System, ghost es: seq<Event>)
      returns (ghost run: seq<Event>)
      requires i < |purls| && end == BatchEnd(i, |purls|)
      requires Leads(config, start, es, Now()) && tick == Dispatching(purls, now, i, i)
      modifies this`versions, this`queue, this`log, this`tick
      ensures versions == Stamped(old(versions), purls[i..end], now)
      ensures queue == old(queue) + Messages(purls[i..end])
      ensures Leads(config, start, run, Now()) && tick == Dispatching(purls, now, end, end)
    {
      run := StampQueued(purls, i, end, start, es);
      run := SendBatch(purls, i, end, start, run);
    }

    /** The batch loop. */
    method DispatchBatches(purls: seq<string>, ghost start: System, ghost es: seq<Event>)
      returns (ghost run: seq<Event>)
      requires Leads(config, start, es, Now())
      requires tick == Dispatching(purls, now, 0, 0)
      modifies this`versions, this`queue, this`log, this`tick
      ensures versions == Stamped(old(versions), purls, now)
      ensures queue == old(queue) + Messages(purls)
      ensures tick == Dispatching(purls, now, |purls|, |purls|)
      ensures Leads(config, start, run, Now())
    {
      run := es;
      ghost var was, earlier := versions, queue;
      StampedNothing(was, now);
      assert Messages(purls[0..0]) == [];
      var i := 0;
      while i < |purls|
        invariant 0 <= i <= |purls|
        invariant versions == Stamped(was, purls[..i], now)
        invariant queue == earlier + Messages(purls[0..i])
        invariant tick == Dispatching(purls, now, i, i)
        invariant Leads(config, start, run, Now())
      {
        var end := BatchEnd(i, |purls|);
        StampedJoins(was, purls, i, end, now);
        MessagesJoin(purls, 0, i, end);
        run := DispatchBatch(purls, i, end, start, run);
        i := end;
      }
      assert purls[..i] == purls && purls[0..i] == purls;
    }

    /** enrich_all_packages(force=False); elapsed passes between the query and the reading of now_iso, and
        depth is what the broker answers. Undisturbed, it is a run of the protocol from tick to tick. */
    method BeatTick(depth: Option<nat>, elapsed: nat)
      returns (result: Outcome, ghost es: seq<Event>, ghost purls: seq<string>)
      requires tick == Idle && (depth.Some? ==> |queue| <= depth.value)
      modifies this`now, this`versions, this`queue, this`log, this`tick
      ensures IsSelection(config, old(Now()), purls)
      ensures Leads(config, old(Now()), es, Now()) && tick == Idle
      ensures result.SkippedBackpressure? <==> purls != [] && depth.Some? && depth.value > config.threshold
      ensures result.SkippedBackpressure? ==> result.queueDepth == depth.value && Now() == old(Now())
      ensures result.Dispatched? ==>
        && result == Dispatched(|purls|, false)
        && now == old(now) + elapsed
        && versions == Stamped(old(versions), purls, now)
        && queue == old(queue) + Messages(purls)
    {
      ghost var start := Now();
      var rows := RowsOf(Eligible(config, versions, now));
      purls := rows;
      Selects(config, start, rows);
      es := [Select(rows)];
      tick := Selected(rows, now);
      if rows != [] {
        if depth.Some? && depth.value > config.threshold {
          Skips(config, start, es, Now(), depth.value);
          es := es + [Skip(depth.value)];
          tick := Idle;
          return SkippedBackpressure(depth.value), es, purls;
        }
        Clears(config, start, es, Now(), depth);
        es := es + [Clear(depth)];
        tick := Cleared(rows, now);
      }
      Starts(config, start, es, Now(), now + elapsed);
      es := es + [Wait(now + elapsed)] + [Start];
      now := now + elapsed;
      tick := Dispatching(rows, now, 0, 0);
      es := DispatchBatches(rows, start, es);
      Ends(config, start, es, Now());
      es := es + [End];
      tick := Idle;
      result := Dispatched(|rows|, false);
    }

    /** enrich_all_packages(force=True): everything, without stamps or backpressure. */
    method ForcedRun() returns (result: Outcome, ghost purls: seq<string>)
      modifies this`queue
      ensures Distinct(purls) && forall p :: p in purls <==> p in AllPurls(versions)
      ensures result == Dispatched(|purls|, true) && queue == old(queue) + Messages(purls)
    {
      var rows := RowsOf(AllPurls(versions));
      purls := rows;
      var k := 0;
      while k < |rows|
        invariant 0 <= k <= |rows|
        invariant queue == old(queue) + Messages(rows[0..k])
      {
        MessagesNext(rows, 0, k);
        Delay(rows[k]);
        k := k + 1;
      }
      assert rows[0..k] == rows;
      result := Dispatched(|rows|, true);
    }
  }
}
