/** Enrichment dispatch as a protocol: beat ticks, the broker queue, workers, crashes and retries.
    Time is in microseconds. */
module Dispatch {
  import opened Options
  import opened TopologicalSort

  const SECOND := 1_000_000
  const BATCH := 500
  const MAX_RETRIES := 3

  /** ENRICHMENT_INTERVAL in seconds, the backpressure threshold, and how many messages the workers
      hold at once. */
  datatype Config = Config(interval: int, threshold: int, workers: nat) {
    /** _FRESHNESS_CUTOFF_SECONDS */
    function Fresh(): int { SECOND * if interval * 9 / 10 > 1 then interval * 9 / 10 else 1 }

    /** _QUEUED_STALE_SECONDS */
    function Stale(): int { SECOND * if interval * 2 > 1 then interval * 2 else 1 }
  }

  datatype Version = Version(purl: Option<string>, enrichedAt: Option<int>, queuedAt: Option<int>)

  datatype Message = Enrich(purl: string, retries: nat) | TrustScore(purl: string)

  /** A message some worker holds; enriched once its last_enriched_at is written. */
  datatype Job = Job(message: Message, enriched: bool)

  /** How far the running beat tick has come; at is when it selected its purls, stamp its now_iso. */
  datatype Tick =
    | Idle
    | Selected(purls: seq<string>, at: int)
    | Cleared(purls: seq<string>, at: int)
    | Dispatching(purls: seq<string>, stamp: int, stamped: nat, sent: nat)

  /** One enrich_package.delay of a beat tick. */
  datatype Sent = Sent(purl: string, stamp: int, at: int)

  /** log lists what the beat ticks have sent so far. */
  datatype System = System(
    now: int, versions: seq<Version>, queue: seq<Message>, running: seq<Job>, tick: Tick, log: seq<Sent>)

  datatype Event =
    // the clock, ingests, and direct or forced dispatch
    | Wait(to: int) | Ingest(carries: Option<string>) | Submit(purl: string)
    // the beat tick
    | Select(purls: seq<string>) | Clear(depth: Option<nat>) | Skip(length: nat) | Start
    | StampBatch | Send | End | Crash
    // workers and the broker
    | Take(i: nat) | Enriched(i: nat) | Done(i: nat, scored: bool) | Retry(i: nat) | Redeliver(i: nat) | Drop(i: nat)
    | Lose(i: nat)

  predicate Before(stamp: Option<int>, cutoff: int) {
    stamp.None? || stamp.value < cutoff
  }

  /** The freshness filter, the queued-at guard, and the filter on empty purls. */
  predicate Due(c: Config, v: Version, now: int) {
    && v.purl.Some? && v.purl.value != ""
    && Before(v.enrichedAt, now - c.Fresh())
    && Before(v.queuedAt, now - c.Stale())
  }

  function Eligible(c: Config, versions: seq<Version>, now: int): set<string> {
    set v | v in versions && Due(c, v, now) :: v.purl.value
  }

  predicate Carries(v: Version, purl: string) {
    v.purl.Some? && v.purl.value == purl
  }

  function Purls(versions: seq<Version>): set<string> {
    set v | v in versions && v.purl.Some? :: v.purl.value
  }

  /** UNWIND $purls AS purl MATCH (v:Version {package_url: purl}) SET v.enrichment_queued_at = $ts */
  function Stamped(versions: seq<Version>, purls: seq<string>, ts: int): seq<Version> {
    seq(|versions|, i requires 0 <= i < |versions| =>
      if versions[i].purl.Some? && versions[i].purl.value in purls then versions[i].(queuedAt := Some(ts))
      else versions[i])
  }

  /** MATCH (v:Version {package_url: $purl}) SET v.last_enriched_at = $ts */
  function Completed(versions: seq<Version>, purl: string, ts: int): seq<Version> {
    seq(|versions|, i requires 0 <= i < |versions| =>
      if Carries(versions[i], purl) then versions[i].(enrichedAt := Some(ts)) else versions[i])
  }

  function Without<T>(xs: seq<T>, i: nat): seq<T>
    requires i < |xs|
  {
    xs[..i] + xs[i + 1..]
  }

  function BatchEnd(sent: nat, size: nat): nat {
    if sent + BATCH < size then sent + BATCH else size
  }

  // ---------- what may happen when ----------

  ghost predicate IsSelection(c: Config, s: System, purls: seq<string>) {
    Distinct(purls) && forall p :: p in purls <==> p in Eligible(c, s.versions, s.now)
  }

  ghost predicate Enabled(c: Config, s: System, e: Event) {
    match e
    case Wait(to) => s.now <= to
    case Ingest(_) | Submit(_) => true
    case Select(purls) => s.tick.Idle? && IsSelection(c, s, purls)
    // the broker list may hold other tasks' messages too
    case Clear(depth) =>
      s.tick.Selected? && s.tick.purls != [] && (depth.Some? ==> |s.queue| <= depth.value <= c.threshold)
    case Skip(length) => s.tick.Selected? && s.tick.purls != [] && |s.queue| <= length && length > c.threshold
    case Start => s.tick.Cleared? || (s.tick.Selected? && s.tick.purls == [])
    case StampBatch => s.tick.Dispatching? && s.tick.stamped == s.tick.sent < |s.tick.purls|
    case Send => s.tick.Dispatching? && s.tick.sent < s.tick.stamped <= |s.tick.purls|
    case End => s.tick.Dispatching? && s.tick.sent == |s.tick.purls|
    case Crash => !s.tick.Idle?
    case Take(i) => i < |s.queue| && |s.running| < c.workers
    case Enriched(i) => i < |s.running| && s.running[i].message.Enrich? && !s.running[i].enriched
    case Done(i, scored) =>
      && i < |s.running|
      && (s.running[i].message.Enrich? ==> s.running[i].enriched)
      && (scored ==> s.running[i].message.Enrich?)
    case Retry(i) => i < |s.running| && s.running[i].message.Enrich? && !s.running[i].enriched
    case Redeliver(i) => i < |s.running|
    case Drop(i) => i < |s.running|
    case Lose(i) => i < |s.queue|
  }

  // ---------- what it does ----------

  function TickStep(s: System, e: Event): System {
    match e
    case Select(purls) => s.(tick := Selected(purls, s.now))
    case Clear(_) => if s.tick.Selected? then s.(tick := Cleared(s.tick.purls, s.tick.at)) else s
    case Start =>
      if s.tick.Selected? || s.tick.Cleared? then s.(tick := Dispatching(s.tick.purls, s.now, 0, 0)) else s
    case StampBatch =>
      if s.tick.Dispatching? && s.tick.sent <= |s.tick.purls| then
        var end := BatchEnd(s.tick.sent, |s.tick.purls|);
        s.(versions := Stamped(s.versions, s.tick.purls[s.tick.sent..end], s.tick.stamp),
           tick := s.tick.(stamped := end))
      else s
    case Send =>
      if s.tick.Dispatching? && s.tick.sent < |s.tick.purls| then
        var purl := s.tick.purls[s.tick.sent];
        s.(queue := s.queue + [Enrich(purl, 0)],
           log := s.log + [Sent(purl, s.tick.stamp, s.now)],
           tick := s.tick.(sent := s.tick.sent + 1))
      else s
    case _ => s.(tick := Idle)
  }

  /** What a worker sends when it is through with a message: nothing, a retry, or the trust score task. */
  function Successor(job: Job, e: Event): seq<Message> {
    if e.Done? && e.scored then [TrustScore(job.message.purl)]
    else if e.Retry? && job.message.Enrich? && job.message.retries < MAX_RETRIES then
      [Enrich(job.message.purl, job.message.retries + 1)]
    else if e.Redeliver? then [job.message]
    else []
  }

  function WorkStep(s: System, e: Event): System {
    match e
    case Take(i) =>
      if i < |s.queue| then s.(queue := Without(s.queue, i), running := s.running + [Job(s.queue[i], false)]) else s
    case Lose(i) => if i < |s.queue| then s.(queue := Without(s.queue, i)) else s
    case Enriched(i) =>
      if i < |s.running| then
        s.(versions := Completed(s.versions, s.running[i].message.purl, s.now),
           running := s.running[i := s.running[i].(enriched := true)])
      else s
    case Done(i, _) => Release(s, e, i)
    case Retry(i) => Release(s, e, i)
    case Redeliver(i) => Release(s, e, i)
    case Drop(i) => Release(s, e, i)
    case _ => s
  }

  function Release(s: System, e: Event, i: nat): System {
    if i < |s.running| then
      s.(running := Without(s.running, i), queue := s.queue + Successor(s.running[i], e))
    else s
  }

  function Next(s: System, e: Event): System {
    match e
    case Wait(to) => s.(now := to)
    case Ingest(purl) => s.(versions := s.versions + [Version(purl, None, None)])
    case Submit(purl) => s.(queue := s.queue + [Enrich(purl, 0)])
    case _ =>
      if IsTickEvent(e) then TickStep(s, e) else WorkStep(s, e)
  }

  predicate IsTickEvent(e: Event) {
    e.Select? || e.Clear? || e.Skip? || e.Start? || e.StampBatch? || e.Send? || e.End? || e.Crash?
  }

  // ---------- runs ----------

  function After(s: System, es: seq<Event>): System {
    if es == [] then s else Next(After(s, es[..|es| - 1]), es[|es| - 1])
  }

  /** Every event is enabled where it happens. */
  ghost predicate Possible(c: Config, s: System, es: seq<Event>) {
    es == [] || (Possible(c, s, es[..|es| - 1]) && Enabled(c, After(s, es[..|es| - 1]), es[|es| - 1]))
  }

  /** Between ticks, with nothing sent yet. */
  predicate Initial(c: Config, s: System) {
    s.tick.Idle? && s.log == [] && |s.running| <= c.workers
  }

  lemma {:induction false} PossiblePrefix(c: Config, s: System, es: seq<Event>, k: nat)
    requires Possible(c, s, es) && k <= |es|
    ensures Possible(c, s, es[..k])
    ensures k < |es| ==> After(s, es[..k + 1]) == Next(After(s, es[..k]), es[k]) && Enabled(c, After(s, es[..k]), es[k])
  {
    if k == |es| {
      assert es[..k] == es;
    } else if k == |es| - 1 {
      assert es[..k + 1] == es;
    } else {
      assert es[..|es| - 1][..k] == es[..k] && es[..|es| - 1][..k + 1] == es[..k + 1];
      PossiblePrefix(c, s, es[..|es| - 1], k);
    }
  }

  lemma {:induction false} RunsCompose(c: Config, s: System, es: seq<Event>, fs: seq<Event>)
    requires Possible(c, s, es) && Possible(c, After(s, es), fs)
    ensures Possible(c, s, es + fs) && After(s, es + fs) == After(After(s, es), fs)
  {
    if fs == [] {
      assert es + fs == es;
    } else {
      assert (es + fs)[..|es + fs| - 1] == es + fs[..|fs| - 1];
      RunsCompose(c, s, es, fs[..|fs| - 1]);
    }
  }

  lemma RunOne(c: Config, s: System, es: seq<Event>, e: Event)
    requires Possible(c, s, es) && Enabled(c, After(s, es), e)
    ensures Possible(c, s, es + [e]) && After(s, es + [e]) == Next(After(s, es), e)
  {
    assert (es + [e])[..|es|] == es;
  }
}
