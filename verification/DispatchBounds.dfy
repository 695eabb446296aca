/** How much work the dispatch protocol can pile up, and how much each dispatch can cost. */
module DispatchBounds {
  import opened Options
  import opened Graphs
  import opened TopologicalSort
  import opened Dispatch

  function Load(s: System): nat {
    |s.queue| + |s.running|
  }

  /** Purls that a tick let through by the backpressure check is still going to send. */
  function Pending(t: Tick): seq<string> {
    match t
    case Cleared(purls, _) => purls
    case Dispatching(purls, _, _, sent) => if sent <= |purls| then purls[sent..] else []
    case _ => []
  }

  function Max(a: int, b: int): int {
    if a < b then b else a
  }

  /** Direct and forced dispatches among the events. */
  function Submits(es: seq<Event>): nat {
    if es == [] then 0 else Submits(es[..|es| - 1]) + if es[|es| - 1].Submit? then 1 else 0
  }

  /** No tick went past the backpressure check without knowing the queue depth. */
  ghost predicate DepthKnown(es: seq<Event>) {
    forall e :: e in es && e.Clear? ==> e.depth.Some?
  }

  ghost predicate TickSane(c: Config, s: System) {
    && |s.running| <= c.workers
    && (s.tick.Selected? ==> Distinct(s.tick.purls) && forall p :: p in s.tick.purls ==> p in Purls(s.versions))
    && (s.tick.Dispatching? ==> s.tick.sent <= s.tick.stamped <= |s.tick.purls|)
  }

  lemma {:induction false} DistinctFits(xs: seq<string>, u: set<string>)
    requires Distinct(xs) && forall x :: x in xs ==> x in u
    ensures |xs| <= |u|
  {
    if xs != [] {
      var front, last := xs[..|xs| - 1], xs[|xs| - 1];
      assert xs == front + [last];
      DistinctFits(front, u - {last});
    }
  }

  lemma PurlsStay(c: Config, s: System, e: Event)
    requires Enabled(c, s, e)
    ensures Purls(s.versions) <= Purls(Next(s, e).versions)
  {
    var t := Next(s, e);
    assert |s.versions| <= |t.versions|;
    forall p | p in Purls(s.versions)
      ensures p in Purls(t.versions)
    {
      var i :| 0 <= i < |s.versions| && s.versions[i].purl == Some(p);
      assert t.versions[i].purl == Some(p);
    }
  }

  lemma SaneStep(c: Config, s: System, e: Event)
    requires TickSane(c, s) && Enabled(c, s, e)
    ensures TickSane(c, Next(s, e))
  {
    PurlsStay(c, s, e);
  }

  /** Only sending and submitting add load; a consumed message has at most one successor. */
  lemma LoadStep(c: Config, s: System, e: Event)
    requires TickSane(c, s) && Enabled(c, s, e)
    ensures Load(Next(s, e)) <= Load(s) + if e.Send? || e.Submit? then 1 else 0
  {
  }

  lemma PendingStep(c: Config, s: System, e: Event)
    requires TickSane(c, s) && Enabled(c, s, e)
    ensures !e.Clear? && !e.Start? ==>
      Load(Next(s, e)) + |Pending(Next(s, e).tick)| <= Load(s) + |Pending(s.tick)| + if e.Submit? then 1 else 0
    ensures e.Start? ==> Load(Next(s, e)) + |Pending(Next(s, e).tick)| == Load(s) + |Pending(s.tick)|
    ensures e.Clear? && e.depth.Some? ==>
      Load(Next(s, e)) + |Pending(Next(s, e).tick)| <= c.threshold + c.workers + |Purls(s.versions)|
  {
    if e.Clear? {
      DistinctFits(s.tick.purls, Purls(s.versions));
    } else {
      LoadStep(c, s, e);
    }
  }

  lemma {:induction false} RunStaysBounded(c: Config, s: System, es: seq<Event>)
    requires Initial(c, s) && Possible(c, s, es) && DepthKnown(es)
    ensures TickSane(c, After(s, es))
    ensures Load(After(s, es)) + |Pending(After(s, es).tick)| <=
      Max(Load(s), c.threshold + c.workers + |Purls(After(s, es).versions)|) + Submits(es)
  {
    if es != [] {
      var front, e := es[..|es| - 1], es[|es| - 1];
      assert es == front + [e];
      RunStaysBounded(c, s, front);
      var before := After(s, front);
      PendingStep(c, before, e);
      SaneStep(c, before, e);
      PurlsStay(c, before, e);
      SubsetSize(Purls(before.versions), Purls(Next(before, e).versions));
    }
  }

  /** Queued and in-flight messages never exceed the larger of what was there at the start and the
      threshold, the workers' messages and one message per purl; plus what was dispatched directly. */
  lemma QueueBounded(c: Config, s: System, es: seq<Event>)
    requires Initial(c, s) && Possible(c, s, es) && DepthKnown(es)
    ensures Load(After(s, es)) <=
      Max(Load(s), c.threshold + c.workers + |Purls(After(s, es).versions)|) + Submits(es)
  {
    RunStaysBounded(c, s, es);
  }

  // ---------- the bound is reached ----------

  /** A dispatch that goes on to its end keeps the purls and adds a message for each that is left. */
  ghost predicate Dispatched(c: Config, s: System, es: seq<Event>, more: nat) {
    && Possible(c, s, es) && (forall e :: e in es ==> e.StampBatch? || e.Send?)
    && Purls(After(s, es).versions) == Purls(s.versions) && Load(After(s, es)) == Load(s) + more
  }

  lemma StampKeepsPurls(versions: seq<Version>, purls: seq<string>, ts: int)
    ensures Purls(Stamped(versions, purls, ts)) == Purls(versions)
  {
    var stamped := Stamped(versions, purls, ts);
    forall p
      ensures p in Purls(stamped) <==> p in Purls(versions)
    {
      if i :| 0 <= i < |versions| && versions[i].purl == Some(p) {
        assert stamped[i].purl == Some(p);
      }
      if i :| 0 <= i < |stamped| && stamped[i].purl == Some(p) {
        assert versions[i].purl == Some(p);
      }
    }
  }

  lemma DispatchedOn(c: Config, s: System, e: Event, es: seq<Event>, more: nat)
    requires Enabled(c, s, e) && (e.StampBatch? || e.Send?) && Dispatched(c, Next(s, e), es, more)
    ensures Dispatched(c, s, [e] + es, more + if e.Send? then 1 else 0)
  {
    RunOne(c, s, [], e);
    assert [] + [e] == [e] && After(s, [e]) == Next(s, e);
    RunsCompose(c, s, [e], es);
    if e.StampBatch? {
      StampKeepsPurls(s.versions, s.tick.purls[s.tick.sent..BatchEnd(s.tick.sent, |s.tick.purls|)], s.tick.stamp);
    }
  }

  /** Nothing need stop a dispatch on the way. */
  lemma {:induction false} DispatchAll(c: Config, s: System) returns (es: seq<Event>)
    requires s.tick.Dispatching? && s.tick.sent <= s.tick.stamped <= |s.tick.purls|
    ensures Dispatched(c, s, es, |s.tick.purls| - s.tick.sent)
    decreases |s.tick.purls| - s.tick.sent, |s.tick.purls| - s.tick.stamped
  {
    es := [];
    if s.tick.sent < |s.tick.purls| {
      var e := if s.tick.sent < s.tick.stamped then Send else StampBatch;
      es := DispatchAll(c, Next(s, e));
      DispatchedOn(c, s, e, es, |s.tick.purls| - Next(s, e).tick.sent);
      es := [e] + es;
    }
  }

  /** All workers busy, as many messages waiting as the threshold allows, and every purl eligible. */
  function BusyAt(c: Config, purls: seq<string>): System
    requires c.threshold >= 0
  {
    System(0, seq(|purls|, i requires 0 <= i < |purls| => Version(Some(purls[i]), None, None)),
           seq(c.threshold, i => Enrich("", 0)), seq(c.workers, i => Job(Enrich("", 0), false)), Idle, [])
  }

  lemma BusyPurls(c: Config, purls: seq<string>)
    requires c.threshold >= 0 && Distinct(purls) && "" !in purls
    ensures IsSelection(c, BusyAt(c, purls), purls) && |Purls(BusyAt(c, purls).versions)| == |purls|
  {
    var s := BusyAt(c, purls);
    forall p
      ensures p in purls ==> p in Eligible(c, s.versions, s.now)
      ensures p in purls <==> p in Purls(s.versions)
    {
      if i :| 0 <= i < |purls| && purls[i] == p {
        assert s.versions[i] == Version(Some(p), None, None) && Due(c, s.versions[i], s.now);
      }
    }
    DistinctFits(purls, Purls(s.versions));
    NoMore(purls, Purls(s.versions));
  }

  lemma {:induction false} NoMore(xs: seq<string>, u: set<string>)
    requires forall x :: x in u ==> x in xs
    ensures |u| <= |xs|
  {
    if xs == [] {
      assert u == {};
    } else {
      var front, last := xs[..|xs| - 1], xs[|xs| - 1];
      assert xs == front + [last];
      NoMore(front, u - {last});
    }
  }

  lemma DispatchNeedsNoMore(es: seq<Event>)
    requires forall e :: e in es ==> e.StampBatch? || e.Send?
    ensures Submits(es) == 0
  {
    if es != [] {
      assert es[|es| - 1] in es;
      DispatchNeedsNoMore(es[..|es| - 1]);
    }
  }

  lemma SubmitsConcat(es: seq<Event>, fs: seq<Event>)
    ensures Submits(es + fs) == Submits(es) + Submits(fs)
  {
    if fs == [] {
      assert es + fs == es;
    } else {
      assert (es + fs)[..|es + fs| - 1] == es + fs[..|fs| - 1];
      SubmitsConcat(es, fs[..|fs| - 1]);
    }
  }

  /** A tick up to the moment when it begins to stamp and send. */
  lemma BusyTickStarts(c: Config, purls: seq<string>) returns (es: seq<Event>)
    requires c.threshold >= 0 && Distinct(purls) && "" !in purls && purls != []
    ensures var s := BusyAt(c, purls);
            && Possible(c, s, es) && After(s, es) == s.(tick := Dispatching(purls, 0, 0, 0))
            && DepthKnown(es) && Submits(es) == 0
  {
    var s, e1, e2 := BusyAt(c, purls), Select(purls), Clear(Some(c.threshold));
    BusyPurls(c, purls);
    RunOne(c, s, [], e1);
    RunOne(c, s, [] + [e1], e2);
    RunOne(c, s, [] + [e1] + [e2], Start);
    es := [] + [e1] + [e2] + [Start];
    SubmitsConcat([], [e1]);
    SubmitsConcat([] + [e1], [e2]);
    SubmitsConcat([] + [e1] + [e2], [Start]);
    assert forall e :: e in es && e.Clear? ==> e == e2;
  }

  /** A run that reaches the bound with k direct dispatches. */
  ghost predicate ReachesBound(c: Config, s: System, es: seq<Event>, size: nat, k: nat)
  {
    && Possible(c, s, es) && DepthKnown(es) && Submits(es) == k
    && |Purls(After(s, es).versions)| == size
    && Load(After(s, es)) == Max(Load(s), c.threshold + c.workers + |Purls(After(s, es).versions)|) + k
  }

  lemma BusyTickReaches(c: Config, purls: seq<string>) returns (es: seq<Event>)
    requires c.threshold >= 0 && Distinct(purls) && "" !in purls
    ensures ReachesBound(c, BusyAt(c, purls), es, |purls|, 0)
  {
    var s := BusyAt(c, purls);
    BusyPurls(c, purls);
    es := [];
    if purls != [] {
      es := BusyTickStarts(c, purls);
      var fs := DispatchAll(c, After(s, es));
      RunsCompose(c, s, es, fs);
      DispatchNeedsNoMore(fs);
      SubmitsConcat(es, fs);
      es := es + fs;
    }
  }

  lemma SubmitMore(c: Config, s: System, es: seq<Event>, size: nat, k: nat)
    requires ReachesBound(c, s, es, size, k)
    ensures ReachesBound(c, s, es + [Submit("")], size, k + 1)
  {
    RunOne(c, s, es, Submit(""));
    SubmitsConcat(es, [Submit("")]);
    SubmitsConcat([], [Submit("")]);
  }

  /** The bound is reached, whatever the threshold, the workers, the purls and the direct dispatches: by a tick
      that finds the queue just at the threshold, all workers busy and every purl eligible. */
  lemma {:induction false} QueueReached(c: Config, purls: seq<string>, k: nat) returns (s: System, es: seq<Event>)
    requires c.threshold >= 0 && Distinct(purls) && "" !in purls
    ensures Initial(c, s) && ReachesBound(c, s, es, |purls|, k)
  {
    if k == 0 {
      s := BusyAt(c, purls);
      es := BusyTickReaches(c, purls);
    } else {
      s, es := QueueReached(c, purls, k - 1);
      SubmitMore(c, s, es, |purls|, k - 1);
      es := es + [Submit("")];
    }
  }

  // ---------- the cost of a dispatch ----------

  /** How often a message and its successors may still be delivered. */
  function Worth(m: Message): nat {
    if m.TrustScore? then 1
    else if m.retries < MAX_RETRIES then 2 + MAX_RETRIES - m.retries
    else 2
  }

  /** The same for a message already delivered. */
  function JobWorth(j: Job): nat {
    Worth(j.message) - 1
  }

  function QueueWorth(queue: seq<Message>): nat {
    if queue == [] then 0 else QueueWorth(queue[..|queue| - 1]) + Worth(queue[|queue| - 1])
  }

  function RunningWorth(jobs: seq<Job>): nat {
    if jobs == [] then 0 else RunningWorth(jobs[..|jobs| - 1]) + JobWorth(jobs[|jobs| - 1])
  }

  function TotalWorth(s: System): nat {
    QueueWorth(s.queue) + RunningWorth(s.running)
  }

  function Deliveries(es: seq<Event>): nat {
    if es == [] then 0 else Deliveries(es[..|es| - 1]) + if es[|es| - 1].Take? then 1 else 0
  }

  function Redeliveries(es: seq<Event>): nat {
    if es == [] then 0 else Redeliveries(es[..|es| - 1]) + if es[|es| - 1].Redeliver? then 1 else 0
  }

  function Dispatches(es: seq<Event>): nat {
    if es == [] then 0 else Dispatches(es[..|es| - 1]) + if es[|es| - 1].Send? || es[|es| - 1].Submit? then 1 else 0
  }

  lemma QueueWorthNext(queue: seq<Message>, m: Message)
    ensures QueueWorth(queue + [m]) == QueueWorth(queue) + Worth(m)
  {
    assert (queue + [m])[..|queue|] == queue;
  }

  lemma RunningWorthNext(jobs: seq<Job>, j: Job)
    ensures RunningWorth(jobs + [j]) == RunningWorth(jobs) + JobWorth(j)
  {
    assert (jobs + [j])[..|jobs|] == jobs;
  }

  lemma {:induction false} QueueWorthWithout(queue: seq<Message>, i: nat)
    requires i < |queue|
    ensures QueueWorth(Without(queue, i)) == QueueWorth(queue) - Worth(queue[i])
  {
    var front, last := queue[..|queue| - 1], queue[|queue| - 1];
    if i == |queue| - 1 {
      assert Without(queue, i) == front;
    } else {
      QueueWorthWithout(front, i);
      assert Without(queue, i) == Without(front, i) + [last];
      QueueWorthNext(Without(front, i), last);
    }
  }

  lemma {:induction false} RunningWorthWithout(jobs: seq<Job>, i: nat)
    requires i < |jobs|
    ensures RunningWorth(Without(jobs, i)) == RunningWorth(jobs) - JobWorth(jobs[i])
  {
    var front, last := jobs[..|jobs| - 1], jobs[|jobs| - 1];
    if i == |jobs| - 1 {
      assert Without(jobs, i) == front;
    } else {
      RunningWorthWithout(front, i);
      assert Without(jobs, i) == Without(front, i) + [last];
      RunningWorthNext(Without(front, i), last);
    }
  }

  lemma {:induction false} RunningWorthMark(jobs: seq<Job>, i: nat)
    requires i < |jobs|
    ensures RunningWorth(jobs[i := jobs[i].(enriched := true)]) == RunningWorth(jobs)
  {
    var marked := jobs[i := jobs[i].(enriched := true)];
    var front, last := jobs[..|jobs| - 1], jobs[|jobs| - 1];
    if i == |jobs| - 1 {
      assert marked[..|jobs| - 1] == front;
    } else {
      RunningWorthMark(front, i);
      assert marked[..|jobs| - 1] == front[i := front[i].(enriched := true)];
    }
  }

  lemma ReleaseWorth(s: System, e: Event, i: nat)
    requires i < |s.running|
    requires e.Done? ==> (e.scored ==> s.running[i].message.Enrich?)
    ensures TotalWorth(Release(s, e, i)) <= TotalWorth(s) + if e.Redeliver? then 1 else 0
  {
    var job := s.running[i];
    RunningWorthWithout(s.running, i);
    if Successor(job, e) == [] {
      assert s.queue + Successor(job, e) == s.queue;
    } else {
      QueueWorthNext(s.queue, Successor(job, e)[0]);
    }
  }

  lemma WorthStep(c: Config, s: System, e: Event)
    requires Enabled(c, s, e)
    ensures TotalWorth(Next(s, e)) + (if e.Take? then 1 else 0) <=
      TotalWorth(s) + (if e.Send? || e.Submit? then 5 else 0) + if e.Redeliver? then 1 else 0
  {
    match e
    case Submit(purl) => QueueWorthNext(s.queue, Enrich(purl, 0));
    case Send => QueueWorthNext(s.queue, Enrich(s.tick.purls[s.tick.sent], 0));
    case Take(i) =>
      QueueWorthWithout(s.queue, i);
      RunningWorthNext(s.running, Job(s.queue[i], false));
    case Lose(i) => QueueWorthWithout(s.queue, i);
    case Enriched(i) => RunningWorthMark(s.running, i);
    case Done(i, _) => ReleaseWorth(s, e, i);
    case Retry(i) => ReleaseWorth(s, e, i);
    case Redeliver(i) => ReleaseWorth(s, e, i);
    case Drop(i) => ReleaseWorth(s, e, i);
    case _ =>
  }

  /** However the run goes, each dispatch costs at most five deliveries: four attempts and one trust
      score task. Only redelivery by the broker adds to that. */
  lemma {:induction false} DeliveriesBounded(c: Config, s: System, es: seq<Event>)
    requires Possible(c, s, es)
    ensures Deliveries(es) + TotalWorth(After(s, es)) <= TotalWorth(s) + 5 * Dispatches(es) + Redeliveries(es)
  {
    if es != [] {
      DeliveriesBounded(c, s, es[..|es| - 1]);
      WorthStep(c, After(s, es[..|es| - 1]), es[|es| - 1]);
    }
  }

  lemma DeliveriesNext(es: seq<Event>, e: Event)
    ensures Deliveries(es + [e]) == Deliveries(es) + if e.Take? then 1 else 0
  {
    assert (es + [e])[..|es|] == es;
  }

  /** One message in the queue and no worker busy, or one job and an empty queue. */
  predicate Waits(s: System, m: Message) {
    s.queue == [m] && s.running == []
  }

  predicate Works(s: System, j: Job) {
    s.queue == [] && s.running == [j]
  }

  lemma WithoutOnly<T>(x: T)
    ensures Without([x], 0) == []
  {
  }

  lemma TakeOnly(c: Config, s: System, m: Message)
    requires Waits(s, m) && c.workers > 0
    ensures Enabled(c, s, Take(0)) && Works(Next(s, Take(0)), Job(m, false))
  {
    WithoutOnly(m);
  }

  lemma RetryOnly(c: Config, s: System, purl: string, k: nat)
    requires Works(s, Job(Enrich(purl, k), false)) && k < MAX_RETRIES
    ensures Enabled(c, s, Retry(0)) && Waits(Next(s, Retry(0)), Enrich(purl, k + 1))
  {
    WithoutOnly(s.running[0]);
  }

  lemma EnrichOnly(c: Config, s: System, purl: string, k: nat)
    requires Works(s, Job(Enrich(purl, k), false))
    ensures Enabled(c, s, Enriched(0)) && Works(Next(s, Enriched(0)), Job(Enrich(purl, k), true))
  {
  }

  lemma ScoreOnly(c: Config, s: System, purl: string, k: nat)
    requires Works(s, Job(Enrich(purl, k), true))
    ensures Enabled(c, s, Done(0, true)) && Waits(Next(s, Done(0, true)), TrustScore(purl))
  {
    WithoutOnly(s.running[0]);
  }

  /** es leads from s to t, with k deliveries. */
  ghost predicate Delivers(c: Config, s: System, es: seq<Event>, t: System, k: nat) {
    Possible(c, s, es) && After(s, es) == t && Deliveries(es) == k
  }

  lemma DeliversOn(c: Config, s: System, es: seq<Event>, t: System, k: nat, e: Event)
    requires Delivers(c, s, es, t, k) && Enabled(c, t, e)
    ensures Delivers(c, s, es + [e], Next(t, e), k + if e.Take? then 1 else 0)
  {
    RunOne(c, s, es, e);
    DeliveriesNext(es, e);
  }

  lemma {:induction false} RetriesReached(c: Config, s: System, purl: string, k: nat)
    returns (es: seq<Event>, t: System)
    requires c.workers > 0 && Waits(s, Enrich(purl, 0)) && k <= MAX_RETRIES
    ensures Delivers(c, s, es, t, k) && Waits(t, Enrich(purl, k))
  {
    es, t := [], s;
    if k > 0 {
      es, t := RetriesReached(c, s, purl, k - 1);
      es, t := ThenTake(c, s, es, t, k - 1, Enrich(purl, k - 1));
      RetryOnly(c, t, purl, k - 1);
      DeliversOn(c, s, es, t, k, Retry(0));
      es, t := es + [Retry(0)], Next(t, Retry(0));
    }
  }

  lemma ThenTake(c: Config, s: System, es: seq<Event>, t: System, k: nat, m: Message)
    returns (fs: seq<Event>, u: System)
    requires Delivers(c, s, es, t, k) && Waits(t, m) && c.workers > 0
    ensures Delivers(c, s, fs, u, k + 1) && Works(u, Job(m, false))
  {
    TakeOnly(c, t, m);
    DeliversOn(c, s, es, t, k, Take(0));
    fs, u := es + [Take(0)], Next(t, Take(0));
  }

  /** The cost is reached: after three retries an attempt succeeds and its trust score is computed. */
  lemma DeliveriesReached(c: Config, s: System, purl: string) returns (es: seq<Event>, t: System)
    requires c.workers > 0 && Waits(s, Enrich(purl, 0))
    ensures Delivers(c, s, es, t, 5) && Works(t, Job(TrustScore(purl), false))
  {
    es, t := RetriesReached(c, s, purl, MAX_RETRIES);
    es, t := ThenTake(c, s, es, t, MAX_RETRIES, Enrich(purl, MAX_RETRIES));
    EnrichOnly(c, t, purl, MAX_RETRIES);
    DeliversOn(c, s, es, t, MAX_RETRIES + 1, Enriched(0));
    es, t := es + [Enriched(0)], Next(t, Enriched(0));
    ScoreOnly(c, t, purl, MAX_RETRIES);
    DeliversOn(c, s, es, t, MAX_RETRIES + 1, Done(0, true));
    es, t := es + [Done(0, true)], Next(t, Done(0, true));
    es, t := ThenTake(c, s, es, t, MAX_RETRIES + 1, TrustScore(purl));
  }
}
