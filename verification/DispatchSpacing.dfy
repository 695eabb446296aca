/** When a package may be dispatched again: the queued-at guard over whole runs. */
module DispatchSpacing {
  import opened Options
  import opened TopologicalSort
  import opened Dispatch

  // ---------- every record of a dispatched purl keeps a stamp at least as new ----------

  /** Every stamped record of the purl is stamped at ts or later. */
  ghost predicate StampedSince(versions: seq<Version>, purl: string, ts: int) {
    forall i :: 0 <= i < |versions| && Carries(versions[i], purl) && versions[i].queuedAt.Some? ==>
      versions[i].queuedAt.value >= ts
  }

  ghost predicate LogSane(s: System) {
    forall d :: d in s.log ==> d.stamp <= d.at <= s.now && StampedSince(s.versions, d.purl, d.stamp)
  }

  /** The running tick has stamped every purl of the current batch, later than anything in the log. */
  ghost predicate TickStamps(s: System) {
    s.tick.Dispatching? ==>
      && s.tick.sent <= s.tick.stamped <= |s.tick.purls| && s.tick.stamp <= s.now
      && (forall d :: d in s.log ==> d.stamp <= s.tick.stamp)
      && (forall k :: s.tick.sent <= k < s.tick.stamped ==> StampedSince(s.versions, s.tick.purls[k], s.tick.stamp))
  }

  lemma StampKeeps(versions: seq<Version>, purls: seq<string>, ts: int, purl: string, since: int)
    requires StampedSince(versions, purl, since) && since <= ts
    ensures StampedSince(Stamped(versions, purls, ts), purl, since)
  {
  }

  lemma StampHits(versions: seq<Version>, purls: seq<string>, ts: int, purl: string)
    requires purl in purls
    ensures StampedSince(Stamped(versions, purls, ts), purl, ts)
  {
  }

  lemma VersionsStep(c: Config, s: System, e: Event, purl: string, since: int)
    requires Enabled(c, s, e) && StampedSince(s.versions, purl, since)
    requires e.StampBatch? ==> since <= s.tick.stamp
    ensures StampedSince(Next(s, e).versions, purl, since)
  {
    if e.StampBatch? && s.tick.Dispatching? {
      StampKeeps(s.versions, s.tick.purls[s.tick.sent..BatchEnd(s.tick.sent, |s.tick.purls|)], s.tick.stamp,
                 purl, since);
    }
  }

  lemma TickStampsStep(c: Config, s: System, e: Event)
    requires LogSane(s) && TickStamps(s) && Enabled(c, s, e)
    ensures TickStamps(Next(s, e))
  {
    var t := Next(s, e);
    if t.tick.Dispatching? {
      forall k | t.tick.sent <= k < t.tick.stamped
        ensures StampedSince(t.versions, t.tick.purls[k], t.tick.stamp)
      {
        if e.StampBatch? {
          var batch := s.tick.purls[s.tick.sent..t.tick.stamped];
          assert batch[k - s.tick.sent] == t.tick.purls[k];
          StampHits(s.versions, batch, s.tick.stamp, t.tick.purls[k]);
        } else {
          VersionsStep(c, s, e, t.tick.purls[k], t.tick.stamp);
        }
      }
    }
  }

  lemma LogSaneStep(c: Config, s: System, e: Event)
    requires LogSane(s) && TickStamps(s) && Enabled(c, s, e)
    ensures LogSane(Next(s, e))
  {
    var t := Next(s, e);
    forall d | d in t.log
      ensures d.stamp <= d.at <= t.now && StampedSince(t.versions, d.purl, d.stamp)
    {
      if d in s.log {
        VersionsStep(c, s, e, d.purl, d.stamp);
      } else {
        assert StampedSince(s.versions, s.tick.purls[s.tick.sent], s.tick.stamp);
      }
    }
  }

  lemma {:induction false} RunStamps(c: Config, s: System, es: seq<Event>)
    requires Initial(c, s) && Possible(c, s, es)
    ensures LogSane(After(s, es)) && TickStamps(After(s, es))
  {
    if es != [] {
      var front, e := es[..|es| - 1], es[|es| - 1];
      RunStamps(c, s, front);
      TickStampsStep(c, After(s, front), e);
      LogSaneStep(c, After(s, front), e);
    }
  }

  /** A record of the purl that no tick has stamped and no worker has lately enriched. */
  ghost predicate HasUnqueuedRecord(c: Config, versions: seq<Version>, purl: string, now: int) {
    exists v :: v in versions && Carries(v, purl) && v.queuedAt.None? && Before(v.enrichedAt, now - c.Fresh())
  }

  /** Within the window after a dispatch the next tick selects the purl again exactly when some record
      of it has never been queued and is not fresh. */
  lemma EarlyRedispatchExactly(c: Config, s: System, es: seq<Event>, d: Sent, now: int)
    requires Initial(c, s) && Possible(c, s, es) && d in After(s, es).log && now <= d.stamp + c.Stale()
    ensures d.purl in Eligible(c, After(s, es).versions, now) <==>
      d.purl != "" && HasUnqueuedRecord(c, After(s, es).versions, d.purl, now)
  {
    RunStamps(c, s, es);
    var versions := After(s, es).versions;
    assert StampedSince(versions, d.purl, d.stamp);
    if d.purl in Eligible(c, versions, now) {
      var v :| v in versions && Due(c, v, now) && v.purl.value == d.purl;
      assert Carries(v, d.purl) && v.queuedAt.None?;
    }
    if d.purl != "" && HasUnqueuedRecord(c, versions, d.purl, now) {
      var v :| v in versions && Carries(v, d.purl) && v.queuedAt.None? && Before(v.enrichedAt, now - c.Fresh());
      assert Due(c, v, now);
    }
  }

  // ---------- spacing ----------

  /** Ingests never add a record for purl to a graph that has one. */
  ghost predicate IngestedOnce(s: System, es: seq<Event>, purl: string) {
    forall k :: 0 <= k < |es| && es[k] == Ingest(Some(purl)) ==> purl !in Purls(After(s, es[..k]).versions)
  }

  ghost predicate AllQueued(versions: seq<Version>, purl: string) {
    && purl in Purls(versions)
    && forall i :: 0 <= i < |versions| && Carries(versions[i], purl) ==> versions[i].queuedAt.Some?
  }

  /** All that was sent for purl so far was stamped more than the window before ts. */
  ghost predicate SentBefore(c: Config, s: System, purl: string, ts: int) {
    forall d :: d in s.log && d.purl == purl ==> d.stamp + c.Stale() < ts
  }

  ghost predicate Spaced(c: Config, s: System, purl: string) {
    forall i, j :: 0 <= i < j < |s.log| && s.log[i].purl == s.log[j].purl == purl ==>
      s.log[i].stamp + c.Stale() < s.log[j].stamp
  }

  ghost predicate Guarded(c: Config, s: System, purl: string) {
    && ((exists d :: d in s.log && d.purl == purl) ==> AllQueued(s.versions, purl))
    && (s.tick.Selected? || s.tick.Cleared? ==>
          s.tick.at <= s.now && Distinct(s.tick.purls)
          && (purl in s.tick.purls ==> purl in Purls(s.versions) && SentBefore(c, s, purl, s.tick.at)))
    && (s.tick.Dispatching? ==>
          && s.tick.sent <= s.tick.stamped <= |s.tick.purls| && Distinct(s.tick.purls)
          && (purl in s.tick.purls[s.tick.sent..] ==> purl in Purls(s.versions) && SentBefore(c, s, purl, s.tick.stamp))
          && (purl in s.tick.purls[s.tick.sent..s.tick.stamped] ==> AllQueued(s.versions, purl)))
  }

  lemma SelectedWasSentBefore(c: Config, s: System, purl: string)
    requires LogSane(s) && Guarded(c, s, purl) && purl in Eligible(c, s.versions, s.now)
    ensures purl in Purls(s.versions) && SentBefore(c, s, purl, s.now)
  {
    var v :| v in s.versions && Due(c, v, s.now) && v.purl.value == purl;
    forall d | d in s.log && d.purl == purl
      ensures d.stamp + c.Stale() < s.now
    {
      assert AllQueued(s.versions, purl) && StampedSince(s.versions, purl, d.stamp);
      assert Carries(v, purl);
    }
  }

  lemma RecordStaysCarrying(c: Config, s: System, e: Event, i: nat, purl: string)
    requires Enabled(c, s, e) && i < |s.versions| && Carries(s.versions[i], purl)
    ensures i < |Next(s, e).versions| && Carries(Next(s, e).versions[i], purl)
  {
  }

  lemma StampedCarries(versions: seq<Version>, purls: seq<string>, ts: int, i: nat, purl: string)
    requires i < |versions| && Carries(versions[i], purl)
    ensures Carries(Stamped(versions, purls, ts)[i], purl)
  {
  }

  lemma QueuedStep(c: Config, s: System, e: Event, purl: string)
    requires Enabled(c, s, e) && AllQueued(s.versions, purl) && e != Ingest(Some(purl))
    ensures AllQueued(Next(s, e).versions, purl)
  {
    var i :| 0 <= i < |s.versions| && Carries(s.versions[i], purl);
    RecordStaysCarrying(c, s, e, i, purl);
  }

  lemma KnownStep(c: Config, s: System, e: Event, purl: string)
    requires Enabled(c, s, e) && purl in Purls(s.versions)
    ensures purl in Purls(Next(s, e).versions)
  {
    var i :| 0 <= i < |s.versions| && Carries(s.versions[i], purl);
    RecordStaysCarrying(c, s, e, i, purl);
  }

  lemma StampBatchQueues(versions: seq<Version>, batch: seq<string>, ts: int, purl: string)
    requires purl in batch && purl in Purls(versions)
    ensures AllQueued(Stamped(versions, batch, ts), purl)
  {
    var i :| 0 <= i < |versions| && Carries(versions[i], purl);
    StampedCarries(versions, batch, ts, i, purl);
  }

  /** Outside the sending steps nothing the invariant speaks of but the records changes. */
  lemma GuardedQuiet(c: Config, s: System, e: Event, purl: string)
    requires Enabled(c, s, e) && Guarded(c, s, purl) && !IsTickEvent(e)
    requires e == Ingest(Some(purl)) ==> purl !in Purls(s.versions)
    ensures Guarded(c, Next(s, e), purl)
  {
    var t := Next(s, e);
    assert t.log == s.log && t.tick == s.tick && s.now <= t.now;
    if purl in Purls(s.versions) {
      KnownStep(c, s, e, purl);
      if AllQueued(s.versions, purl) {
        QueuedStep(c, s, e, purl);
      }
    }
  }

  lemma GuardedStamp(c: Config, s: System, purl: string)
    requires Enabled(c, s, StampBatch) && Guarded(c, s, purl)
    ensures Guarded(c, Next(s, StampBatch), purl)
  {
    var t := Next(s, StampBatch);
    var batch := s.tick.purls[s.tick.sent..t.tick.stamped];
    if purl in Purls(s.versions) {
      KnownStep(c, s, StampBatch, purl);
      if AllQueued(s.versions, purl) {
        QueuedStep(c, s, StampBatch, purl);
      }
      if purl in batch {
        StampBatchQueues(s.versions, batch, s.tick.stamp, purl);
      }
    }
  }

  lemma GuardedSend(c: Config, s: System, purl: string)
    requires Enabled(c, s, Send) && Guarded(c, s, purl) && Spaced(c, s, purl)
    ensures Guarded(c, Next(s, Send), purl) && Spaced(c, Next(s, Send), purl)
  {
    var t := Next(s, Send);
    var k := s.tick.sent;
    assert s.tick.purls[k..][0] == s.tick.purls[k] && s.tick.purls[k..s.tick.stamped][0] == s.tick.purls[k];
    assert s.tick.purls[k..] == [s.tick.purls[k]] + s.tick.purls[k + 1..];
    assert s.tick.purls[k..s.tick.stamped] == [s.tick.purls[k]] + s.tick.purls[k + 1..s.tick.stamped];
    assert t.log == s.log + [Sent(s.tick.purls[k], s.tick.stamp, s.now)];
    if purl == s.tick.purls[k] {
      assert purl !in s.tick.purls[k + 1..];
    }
  }

  lemma GuardedTick(c: Config, s: System, e: Event, purl: string)
    requires Enabled(c, s, e) && LogSane(s) && Guarded(c, s, purl) && IsTickEvent(e) && !e.StampBatch? && !e.Send?
    ensures Guarded(c, Next(s, e), purl)
  {
    var t := Next(s, e);
    assert t.log == s.log && t.versions == s.versions && t.now == s.now;
    if e.Select? && purl in e.purls {
      SelectedWasSentBefore(c, s, purl);
    } else if e.Start? {
      assert t.tick.purls[t.tick.sent..] == s.tick.purls;
    }
  }

  lemma GuardedStep(c: Config, s: System, e: Event, purl: string)
    requires Enabled(c, s, e) && LogSane(s) && Guarded(c, s, purl) && Spaced(c, s, purl)
    requires e == Ingest(Some(purl)) ==> purl !in Purls(s.versions)
    ensures Guarded(c, Next(s, e), purl) && Spaced(c, Next(s, e), purl)
  {
    if e.Send? {
      GuardedSend(c, s, purl);
    } else if e.StampBatch? {
      GuardedStamp(c, s, purl);
    } else if IsTickEvent(e) {
      GuardedTick(c, s, e, purl);
    } else {
      GuardedQuiet(c, s, e, purl);
    }
  }

  lemma {:induction false} RunSpaced(c: Config, s: System, es: seq<Event>, purl: string)
    requires Initial(c, s) && Possible(c, s, es) && IngestedOnce(s, es, purl)
    ensures Guarded(c, After(s, es), purl) && Spaced(c, After(s, es), purl)
  {
    if es != [] {
      var front, e := es[..|es| - 1], es[|es| - 1];
      forall k | 0 <= k < |front| && front[k] == Ingest(Some(purl))
        ensures purl !in Purls(After(s, front[..k]).versions)
      {
        assert front[..k] == es[..k];
      }
      RunSpaced(c, s, front, purl);
      RunStamps(c, s, front);
      GuardedStep(c, After(s, front), e, purl);
    }
  }

  /** Two dispatches of a purl carry stamps more than the window apart, even if no worker ever finishes,
      unless a second record of the purl is ingested. In time they are apart by the window less what the
      first one waited between its stamp and its sending. */
  lemma DispatchesSpaced(c: Config, s: System, es: seq<Event>, i: nat, j: nat)
    requires Initial(c, s) && Possible(c, s, es) && i < j < |After(s, es).log|
    requires After(s, es).log[i].purl == After(s, es).log[j].purl
    requires IngestedOnce(s, es, After(s, es).log[i].purl)
    ensures var first, second := After(s, es).log[i], After(s, es).log[j];
            && second.stamp - first.stamp > c.Stale()
            && second.at - first.at > c.Stale() - (first.at - first.stamp)
  {
    RunSpaced(c, s, es, After(s, es).log[i].purl);
    RunStamps(c, s, es);
    assert After(s, es).log[j] in After(s, es).log;
  }

  // ---------- recovery ----------

  /** Some step of the run stamps the purl, or records that it was enriched. */
  ghost predicate TouchedAt(s: System, es: seq<Event>, purl: string, k: nat)
    requires k < |es|
  {
    var t := After(s, es[..k]);
    || (es[k].StampBatch? && t.tick.Dispatching? && purl in t.tick.purls)
    || (es[k].Enriched? && es[k].i < |t.running| && t.running[es[k].i].message.purl == purl)
  }

  lemma {:induction false} RecordKeeps(c: Config, s: System, es: seq<Event>, r: nat, purl: string)
    requires Possible(c, s, es) && r < |s.versions| && Carries(s.versions[r], purl)
    requires forall k :: 0 <= k < |es| ==> !TouchedAt(s, es, purl, k)
    ensures r < |After(s, es).versions| && After(s, es).versions[r] == s.versions[r]
  {
    if es != [] {
      var front, e := es[..|es| - 1], es[|es| - 1];
      forall k | 0 <= k < |front|
        ensures !TouchedAt(s, front, purl, k)
      {
        assert front[..k] == es[..k] && !TouchedAt(s, es, purl, k);
      }
      RecordKeeps(c, s, front, r, purl);
      assert !TouchedAt(s, es, purl, |front|);
      var t := After(s, front);
      if e.StampBatch? && t.tick.sent <= |t.tick.purls| {
        assert purl !in t.tick.purls[t.tick.sent..BatchEnd(t.tick.sent, |t.tick.purls|)];
      }
    }
  }

  /** A purl whose message is lost is selected again: once its last stamp is older than the window and
      its last enrichment is not fresh, every tick selects it until one stamps it or it gets enriched. */
  lemma LostDispatchRecovers(c: Config, s: System, es: seq<Event>, purls: seq<string>, r: nat, purl: string)
    requires Possible(c, s, es + [Select(purls)])
    requires r < |s.versions| && Carries(s.versions[r], purl) && purl != ""
    requires forall k :: 0 <= k < |es| ==> !TouchedAt(s, es, purl, k)
    requires Before(s.versions[r].queuedAt, After(s, es).now - c.Stale())
    requires Before(s.versions[r].enrichedAt, After(s, es).now - c.Fresh())
    ensures purl in purls
  {
    assert (es + [Select(purls)])[..|es|] == es;
    RecordKeeps(c, s, es, r, purl);
    assert Due(c, After(s, es).versions[r], After(s, es).now);
  }

  // ---------- freshness ----------

  ghost predicate EnrichedSince(versions: seq<Version>, purl: string, ts: int) {
    forall i :: 0 <= i < |versions| && Carries(versions[i], purl) ==>
      versions[i].enrichedAt.Some? && versions[i].enrichedAt.value >= ts
  }

  lemma CompletedHits(versions: seq<Version>, purl: string, ts: int)
    ensures EnrichedSince(Completed(versions, purl, ts), purl, ts)
  {
  }

  lemma EnrichedStep(c: Config, s: System, e: Event, purl: string, ts: int)
    requires Enabled(c, s, e) && EnrichedSince(s.versions, purl, ts) && ts <= s.now && e != Ingest(Some(purl))
    ensures EnrichedSince(Next(s, e).versions, purl, ts) && ts <= Next(s, e).now
  {
  }

  lemma {:induction false} EnrichedRun(c: Config, s: System, es: seq<Event>, purl: string, ts: int)
    requires Possible(c, s, es) && EnrichedSince(s.versions, purl, ts) && ts <= s.now
    requires forall e :: e in es ==> e != Ingest(Some(purl))
    ensures EnrichedSince(After(s, es).versions, purl, ts) && ts <= After(s, es).now
  {
    if es != [] {
      var front, e := es[..|es| - 1], es[|es| - 1];
      assert e in es && forall x :: x in front ==> x in es;
      EnrichedRun(c, s, front, purl, ts);
      EnrichedStep(c, After(s, front), e, purl, ts);
    }
  }

  /** Once a worker has enriched a purl, no tick selects it for the length of the freshness cutoff, unless
      a new record of it is ingested. */
  lemma FreshNotSelected(c: Config, s: System, i: nat, es: seq<Event>, purls: seq<string>)
    requires Enabled(c, s, Enriched(i)) && Possible(c, Next(s, Enriched(i)), es + [Select(purls)])
    requires forall e :: e in es ==> e != Ingest(Some(s.running[i].message.purl))
    requires After(Next(s, Enriched(i)), es).now <= s.now + c.Fresh()
    ensures s.running[i].message.purl !in purls
  {
    var purl, t := s.running[i].message.purl, Next(s, Enriched(i));
    assert (es + [Select(purls)])[..|es|] == es;
    CompletedHits(s.versions, purl, s.now);
    EnrichedRun(c, t, es, purl, s.now);
    var versions, now := After(t, es).versions, After(t, es).now;
    forall r | 0 <= r < |versions| && Carries(versions[r], purl)
      ensures !Due(c, versions[r], now)
    {
    }
  }

  // ---------- one tick ----------

  /** What a tick that has sent k of its purls has added to the log. */
  ghost predicate LogGrewBy(before: seq<Sent>, log: seq<Sent>, purls: seq<string>, k: nat) {
    && |log| == |before| + k && k <= |purls| && before <= log
    && forall i :: 0 <= i < k ==> log[|before| + i].purl == purls[i]
  }

  ghost predicate InTick(purls: seq<string>, log: seq<Sent>, s: System) {
    match s.tick
    case Idle => false
    case Selected(ps, _) => ps == purls && LogGrewBy(log, s.log, purls, 0)
    case Cleared(ps, _) => ps == purls && LogGrewBy(log, s.log, purls, 0)
    case Dispatching(ps, _, _, sent) => ps == purls && LogGrewBy(log, s.log, purls, sent)
  }

  lemma InTickStep(c: Config, s: System, e: Event, purls: seq<string>, log: seq<Sent>)
    requires Enabled(c, s, e) && InTick(purls, log, s) && !e.End? && !e.Skip? && !e.Crash?
    ensures InTick(purls, log, Next(s, e))
  {
  }

  lemma {:induction false} TickSends(c: Config, s: System, es: seq<Event>, purls: seq<string>)
    requires Possible(c, s, [Select(purls)] + es) && forall e :: e in es ==> !e.End? && !e.Skip? && !e.Crash?
    ensures InTick(purls, s.log, After(s, [Select(purls)] + es))
  {
    var run := [Select(purls)] + es;
    if es == [] {
      assert run[..0] == [] && run[|run| - 1] == Select(purls);
    } else {
      var front := es[..|es| - 1];
      assert run[..|run| - 1] == [Select(purls)] + front;
      assert es[|es| - 1] in es;
      TickSends(c, s, front, purls);
      InTickStep(c, After(s, run[..|run| - 1]), es[|es| - 1], purls, s.log);
    }
  }

  /** A tick that runs to its end sends every purl that was eligible when it selected, each once and no
      other, across all its batches and whatever else happens meanwhile. */
  lemma TickSendsEachOnce(c: Config, s: System, es: seq<Event>, purls: seq<string>)
    requires Possible(c, s, [Select(purls)] + es + [End]) && forall e :: e in es ==> !e.End? && !e.Skip? && !e.Crash?
    ensures Distinct(purls) && forall p :: p in purls <==> p in Eligible(c, s.versions, s.now)
    ensures LogGrewBy(s.log, After(s, [Select(purls)] + es + [End]).log, purls, |purls|)
  {
    var run := [Select(purls)] + es;
    assert (run + [End])[..|run|] == run;
    TickSends(c, s, es, purls);
    PossiblePrefix(c, s, run, 0);
    assert run[..0] == [];
  }

  // ---------- where spacing fails ----------

  function Selecting(purl: string, depth: Option<nat>): seq<Event> {
    [] + [Select([purl])] + [Clear(depth)]
  }

  function Stamping(purl: string, depth: Option<nat>): seq<Event> {
    Selecting(purl, depth) + [Start] + [StampBatch]
  }

  function TickOf(purl: string, depth: Option<nat>): seq<Event> {
    Stamping(purl, depth) + [Send] + [End]
  }

  /** A tick may begin to which a single purl is eligible, and its reading of the queue depth lets it through. */
  ghost predicate TickReady(c: Config, s: System, purl: string, depth: Option<nat>) {
    s.tick.Idle? && IsSelection(c, s, [purl]) && (depth.Some? ==> |s.queue| <= depth.value <= c.threshold)
  }

  lemma SelectsOne(c: Config, s: System, purl: string, depth: Option<nat>)
    requires TickReady(c, s, purl, depth)
    ensures Possible(c, s, Selecting(purl, depth))
    ensures After(s, Selecting(purl, depth)) == s.(tick := Cleared([purl], s.now))
  {
    RunOne(c, s, [], Select([purl]));
    RunOne(c, s, [] + [Select([purl])], Clear(depth));
  }

  lemma StampsOne(c: Config, s: System, purl: string, depth: Option<nat>)
    requires TickReady(c, s, purl, depth)
    ensures Possible(c, s, Stamping(purl, depth))
    ensures After(s, Stamping(purl, depth)) ==
      s.(versions := Stamped(s.versions, [purl], s.now), tick := Dispatching([purl], s.now, 1, 0))
  {
    SelectsOne(c, s, purl, depth);
    RunOne(c, s, Selecting(purl, depth), Start);
    RunOne(c, s, Selecting(purl, depth) + [Start], StampBatch);
    assert [purl][0..1] == [purl];
  }

  /** A run that has stamped its one purl sends it and ends. */
  lemma SendsOne(c: Config, s: System, es: seq<Event>, purl: string)
    requires Possible(c, s, es)
    requires After(s, es).tick.Dispatching? && After(s, es).tick == Dispatching([purl], After(s, es).tick.stamp, 1, 0)
    ensures Possible(c, s, es + [Send] + [End])
    ensures var t := After(s, es);
            After(s, es + [Send] + [End]) ==
            t.(queue := t.queue + [Enrich(purl, 0)], log := t.log + [Sent(purl, t.tick.stamp, t.now)], tick := Idle)
  {
    RunOne(c, s, es, Send);
    RunOne(c, s, es + [Send], End);
  }

  lemma TickOfOne(c: Config, s: System, purl: string, depth: Option<nat>)
    requires TickReady(c, s, purl, depth)
    ensures Possible(c, s, TickOf(purl, depth))
    ensures After(s, TickOf(purl, depth)) == s.(versions := Stamped(s.versions, [purl], s.now),
      queue := s.queue + [Enrich(purl, 0)], log := s.log + [Sent(purl, s.now, s.now)])
  {
    StampsOne(c, s, purl, depth);
    SendsOne(c, s, Stamping(purl, depth), purl);
  }

  lemma OnlyEligible(c: Config, s: System, r: nat, purl: string)
    requires r < |s.versions| && Due(c, s.versions[r], s.now)
    requires forall v :: v in s.versions ==> Carries(v, purl)
    ensures IsSelection(c, s, [purl])
  {
    assert Carries(s.versions[r], purl);
  }

  /** A system with one record, just ingested. */
  function JustIngested(purl: string): System {
    System(0, [Version(Some(purl), None, None)], [], [], Idle, [])
  }

  /** A package whose second record is ingested while its first dispatch waits in the queue is
      dispatched again at the very next tick: the new record carries no stamp. */
  lemma SecondRecordRedispatches(c: Config, purl: string)
    requires purl != "" && c.threshold >= 1
    ensures var s := JustIngested(purl);
            var es := TickOf(purl, Some(0)) + [Ingest(Some(purl))] + TickOf(purl, Some(1));
            && Initial(c, s) && Possible(c, s, es)
            && After(s, es).queue == [Enrich(purl, 0), Enrich(purl, 0)]
            && After(s, es).log == [Sent(purl, 0, 0), Sent(purl, 0, 0)]
  {
    var s := JustIngested(purl);
    OnlyEligible(c, s, 0, purl);
    TickOfOne(c, s, purl, Some(0));
    RunOne(c, s, TickOf(purl, Some(0)), Ingest(Some(purl)));
    var t := After(s, TickOf(purl, Some(0)) + [Ingest(Some(purl))]);
    OnlyEligible(c, t, 1, purl);
    TickOfOne(c, t, purl, Some(1));
    RunsCompose(c, s, TickOf(purl, Some(0)) + [Ingest(Some(purl))], TickOf(purl, Some(1)));
  }

  // ---------- the moments of sending ----------

  /** A tick that waits between stamping and sending. */
  function SlowTick(purl: string, wait: nat): seq<Event> {
    Stamping(purl, None) + [Wait(wait)] + [Send] + [End]
  }

  lemma SlowTickRuns(c: Config, purl: string, wait: nat)
    requires purl != ""
    ensures Possible(c, JustIngested(purl), SlowTick(purl, wait))
    ensures After(JustIngested(purl), SlowTick(purl, wait)) ==
      System(wait, [Version(Some(purl), None, Some(0))], [Enrich(purl, 0)], [], Idle, [Sent(purl, 0, wait)])
  {
    var s := JustIngested(purl);
    OnlyEligible(c, s, 0, purl);
    StampsOne(c, s, purl, None);
    RunOne(c, s, Stamping(purl, None), Wait(wait));
    SendsOne(c, s, Stamping(purl, None) + [Wait(wait)], purl);
  }

  /** When the next tick can follow at the earliest. */
  function NextTick(c: Config, wait: nat): nat {
    if wait <= c.Stale() then c.Stale() + 1 else wait
  }

  function TwoTicks(c: Config, purl: string, wait: nat): seq<Event> {
    SlowTick(purl, wait) + [Wait(NextTick(c, wait))] + TickOf(purl, None)
  }

  /** Whatever the first message waited between stamp and sending, the second may follow as soon as the
      window after the stamp is over: the guard spaces stamps, not the moments of sending. */
  lemma SpacingReached(c: Config, purl: string, wait: nat)
    requires purl != ""
    ensures var s, es, next := JustIngested(purl), TwoTicks(c, purl, wait), NextTick(c, wait);
            && Initial(c, s) && Possible(c, s, es) && After(s, es).log == [Sent(purl, 0, wait), Sent(purl, next, next)]
  {
    var s, next := JustIngested(purl), NextTick(c, wait);
    SlowTickRuns(c, purl, wait);
    RunOne(c, s, SlowTick(purl, wait), Wait(next));
    var t := After(s, SlowTick(purl, wait) + [Wait(next)]);
    OnlyEligible(c, t, 0, purl);
    TickOfOne(c, t, purl, None);
    RunsCompose(c, s, SlowTick(purl, wait) + [Wait(next)], TickOf(purl, None));
  }

  lemma NothingIngested(c: Config, purl: string, wait: nat)
    ensures IngestedOnce(JustIngested(purl), TwoTicks(c, purl, wait), purl)
  {
    assert forall e :: e in TwoTicks(c, purl, wait) ==> !e.Ingest?;
  }

  /** The run spaces every two messages for purl, the first of which waited this long, by more than the window. */
  ghost predicate SendingsSpaced(c: Config, s: System, purl: string, wait: nat) {
    forall i, j ::
      0 <= i < j < |s.log| && s.log[i].purl == s.log[j].purl == purl && s.log[i].at - s.log[i].stamp == wait ==>
      s.log[j].at - s.log[i].at > c.Stale()
  }

  /** Every run in which purl is ingested once does. */
  ghost predicate AlwaysSpaced(c: Config, purl: string, wait: nat) {
    forall s: System, es: seq<Event> :: Initial(c, s) && Possible(c, s, es) && IngestedOnce(s, es, purl) ==>
      SendingsSpaced(c, After(s, es), purl, wait)
  }

  /** Messages for a purl are always sent more than the window apart if and only if the first of them did not
      wait between stamp and sending. */
  lemma SendingsSpacedExactly(c: Config, purl: string, wait: nat)
    requires purl != ""
    ensures AlwaysSpaced(c, purl, wait) <==> wait == 0
  {
    if wait == 0 {
      forall s: System, es: seq<Event> | Initial(c, s) && Possible(c, s, es) && IngestedOnce(s, es, purl)
        ensures SendingsSpaced(c, After(s, es), purl, wait)
      {
        var log := After(s, es).log;
        forall i, j | 0 <= i < j < |log| && log[i].purl == log[j].purl == purl
          ensures log[j].at - log[i].at > c.Stale() - (log[i].at - log[i].stamp)
        {
          DispatchesSpaced(c, s, es, i, j);
        }
      }
    } else {
      SpacingReached(c, purl, wait);
      NothingIngested(c, purl, wait);
      var t := After(JustIngested(purl), TwoTicks(c, purl, wait));
      assert t.log[0] == Sent(purl, 0, wait) && t.log[1].purl == purl && t.log[1].at - wait <= c.Stale();
      assert !SendingsSpaced(c, t, purl, wait);
    }
  }
}
