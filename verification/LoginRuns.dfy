/** The login limiter under concurrent requests: what every interleaving keeps. */
module LoginRuns {
  import opened LoginLimiter

  /** One recorded attempt: when, and when the window began that counted it. */
  datatype Attempt = Attempt(ip: string, at: real, start: real)

  /** admitted: requests that passed the check and have not yet recorded, reset or left; clock: the
      latest reading of the clock. */
  datatype Server = Server(attempts: Attempts, lastCleanup: real, admitted: multiset<string>, log: seq<Attempt>,
                           clock: real)

  /** The calls of the limiter; each runs under the lock, with a clock read before taking it. Leave is a
      request that ends without any further call, as when a password change is forced. */
  datatype Event =
    | Check(ip: string, now: real, sweptAt: real)
    | Record(ip: string, now: real)
    | Reset(ip: string)
    | Leave(ip: string)

  /** At most `clients` requests of one address are in progress together. */
  predicate Enabled(clients: nat, s: Server, e: Event) {
    match e
    case Check(ip, _, _) => s.admitted[ip] < clients
    case Record(ip, _) => s.admitted[ip] > 0
    case Reset(ip) => s.admitted[ip] > 0
    case Leave(ip) => s.admitted[ip] > 0
  }

  function Next(s: Server, e: Event): Server {
    match e
    case Check(ip, now, sweptAt) =>
      var seen := Swept(s.attempts, s.lastCleanup, now, sweptAt);
      s.(attempts := Rearmed(seen, ip, now),
         lastCleanup := if now - s.lastCleanup > CLEANUP_INTERVAL then now else s.lastCleanup,
         admitted := if Blocks(seen, ip, now) then s.admitted else s.admitted + multiset{ip},
         clock := sweptAt)
    case Record(ip, now) =>
      var counted := Counted(s.attempts, ip, now);
      s.(attempts := counted,
         admitted := s.admitted - multiset{ip},
         log := s.log + [Attempt(ip, now, counted[ip].start)],
         clock := if s.clock < now then now else s.clock)
    case Reset(ip) => s.(attempts := s.attempts - {ip}, admitted := s.admitted - multiset{ip})
    case Leave(ip) => s.(admitted := s.admitted - multiset{ip})
  }

  function After(s: Server, es: seq<Event>): Server {
    if es == [] then s else Next(After(s, es[..|es| - 1]), es[|es| - 1])
  }

  predicate Possible(clients: nat, s: Server, es: seq<Event>) {
    es == [] || (Possible(clients, s, es[..|es| - 1]) && Enabled(clients, After(s, es[..|es| - 1]), es[|es| - 1]))
  }

  function Started(now: real): Server {
    Server(map[], now, multiset{}, [], now)
  }

  // ---------- any times, any interleaving ----------

  function Count(s: Server, ip: string): nat {
    if ip in s.attempts then s.attempts[ip].count else 0
  }

  lemma CountStep(clients: nat, s: Server, e: Event, ip: string)
    requires clients > 0 && Enabled(clients, s, e)
    requires Count(s, ip) + s.admitted[ip] <= MAX_ATTEMPTS - 1 + clients && s.admitted[ip] <= clients
    ensures Count(Next(s, e), ip) + Next(s, e).admitted[ip] <= MAX_ATTEMPTS - 1 + clients
    ensures Next(s, e).admitted[ip] <= clients
  {
  }

  /** However requests interleave and whatever their clocks read, the attempts counted for an address and
      the admitted requests that may still count never exceed 9 plus the concurrent requests. */
  lemma {:induction false} OvershootBounded(clients: nat, start: real, es: seq<Event>, ip: string)
    requires clients > 0 && Possible(clients, Started(start), es)
    ensures var s := After(Started(start), es);
            && Count(s, ip) + s.admitted[ip] <= MAX_ATTEMPTS - 1 + clients
            && s.admitted[ip] <= clients
  {
    if es != [] {
      OvershootBounded(clients, start, es[..|es| - 1], ip);
      CountStep(clients, After(Started(start), es[..|es| - 1]), es[|es| - 1], ip);
    }
  }

  /** One address, all within one instant. */
  ghost predicate AtOnce(s: Server, start: real, ip: string, count: nat, waiting: nat) {
    && s.lastCleanup == start && Count(s, ip) == count && s.admitted[ip] == waiting
    && (ip in s.attempts ==> s.attempts[ip].start == start)
  }

  lemma RunOne(clients: nat, s: Server, es: seq<Event>, e: Event)
    requires Possible(clients, s, es) && Enabled(clients, After(s, es), e)
    ensures Possible(clients, s, es + [e]) && After(s, es + [e]) == Next(After(s, es), e)
  {
    assert (es + [e])[..|es|] == es;
  }

  /** Attempts one after the other: each is checked and recorded. */
  lemma {:induction false} OneByOne(clients: nat, start: real, ip: string, k: nat) returns (es: seq<Event>)
    requires clients > 0 && k < MAX_ATTEMPTS
    ensures Possible(clients, Started(start), es) && AtOnce(After(Started(start), es), start, ip, k, 0)
  {
    es := [];
    if k > 0 {
      es := OneByOne(clients, start, ip, k - 1);
      RunOne(clients, Started(start), es, Check(ip, start, start));
      es := es + [Check(ip, start, start)];
      RunOne(clients, Started(start), es, Record(ip, start));
      es := es + [Record(ip, start)];
    }
  }

  /** Then requests that all pass the check before any of them records. */
  lemma {:induction false} AllAdmitted(clients: nat, start: real, ip: string, k: nat) returns (es: seq<Event>)
    requires clients > 0 && k <= clients
    ensures Possible(clients, Started(start), es) && AtOnce(After(Started(start), es), start, ip, MAX_ATTEMPTS - 1, k)
  {
    if k == 0 {
      es := OneByOne(clients, start, ip, MAX_ATTEMPTS - 1);
    } else {
      es := AllAdmitted(clients, start, ip, k - 1);
      RunOne(clients, Started(start), es, Check(ip, start, start));
      es := es + [Check(ip, start, start)];
    }
  }

  /** The bound is reached: some interleaving counts 9 plus all the concurrent requests. */
  lemma {:induction false} OvershootReached(clients: nat, start: real, ip: string, k: nat) returns (es: seq<Event>)
    requires clients > 0 && k <= clients
    ensures Possible(clients, Started(start), es)
    ensures AtOnce(After(Started(start), es), start, ip, MAX_ATTEMPTS - 1 + k, clients - k)
  {
    if k == 0 {
      es := AllAdmitted(clients, start, ip, clients);
    } else {
      es := OvershootReached(clients, start, ip, k - 1);
      RunOne(clients, Started(start), es, Record(ip, start));
      es := es + [Record(ip, start)];
    }
  }

  // ---------- clocks read some time before the lock ----------

  /** The clock was read at most lag before the lock was taken, and the sweep's clock within the lock. */
  predicate OnTime(lag: real, s: Server, e: Event) {
    match e
    case Check(_, now, sweptAt) => s.clock - lag <= now <= sweptAt && s.clock <= sweptAt
    case Record(_, now) => s.clock - lag <= now
    case _ => true
  }

  predicate InOrder(lag: real, s: Server, es: seq<Event>) {
    es == [] || (InOrder(lag, s, es[..|es| - 1]) && OnTime(lag, After(s, es[..|es| - 1]), es[|es| - 1]))
  }

  function One(b: bool): nat {
    if b then 1 else 0
  }

  /** How many attempts of ip the window that began at start has counted. */
  function InWindow(log: seq<Attempt>, ip: string, start: real): nat {
    if log == [] then 0
    else InWindow(log[..|log| - 1], ip, start) + One(log[|log| - 1].ip == ip && log[|log| - 1].start == start)
  }

  /** How many attempts of ip fall into the half-open interval [from, from + WINDOW). */
  function InInterval(log: seq<Attempt>, ip: string, from: real): nat {
    if log == [] then 0 else InInterval(log[..|log| - 1], ip, from) + One(Falls(log[|log| - 1], ip, from))
  }

  predicate Falls(a: Attempt, ip: string, from: real) {
    a.ip == ip && from <= a.at < from + WINDOW
  }

  predicate Apart(gap: real, s: real, t: real) {
    s == t || s + gap <= t || t + gap <= s
  }

  /** Attempts lie in their windows, and windows lie apart. */
  ghost predicate Placed(lag: real, log: seq<Attempt>, ip: string) {
    && (forall i :: 0 <= i < |log| && log[i].ip == ip ==> log[i].start - lag <= log[i].at < log[i].start + WINDOW)
    && (forall i, j :: 0 <= i < |log| && 0 <= j < |log| && log[i].ip == log[j].ip == ip ==>
          Apart(WINDOW - lag, log[i].start, log[j].start))
  }

  lemma PlacedNext(lag: real, log: seq<Attempt>, a: Attempt, ip: string)
    requires Placed(lag, log, ip)
    requires a.ip == ip ==> a.start - lag <= a.at < a.start + WINDOW
    requires a.ip == ip ==> forall i :: 0 <= i < |log| && log[i].ip == ip ==> Apart(WINDOW - lag, log[i].start, a.start)
    ensures Placed(lag, log + [a], ip)
  {
  }

  /** The windows in the log lie apart, each with no more than the allowed attempts; the open window, if
      any, is the last of them, and otherwise all are over. */
  ghost predicate Windowed(clients: nat, lag: real, s: Server, ip: string) {
    && Placed(lag, s.log, ip)
    && (forall start :: InWindow(s.log, ip, start) <= MAX_ATTEMPTS - 1 + clients)
    && (ip in s.attempts ==>
          && s.attempts[ip].start <= s.clock
          && InWindow(s.log, ip, s.attempts[ip].start) == s.attempts[ip].count
          && forall i :: 0 <= i < |s.log| && s.log[i].ip == ip && s.log[i].start != s.attempts[ip].start ==>
               s.log[i].start + (WINDOW - lag) <= s.attempts[ip].start)
    && (ip !in s.attempts ==> forall i :: 0 <= i < |s.log| && s.log[i].ip == ip ==> s.log[i].start + WINDOW <= s.clock)
  }

  lemma {:induction false} NoneInWindow(log: seq<Attempt>, ip: string, start: real)
    requires forall i :: 0 <= i < |log| && log[i].ip == ip ==> log[i].start != start
    ensures InWindow(log, ip, start) == 0
  {
    if log != [] {
      NoneInWindow(log[..|log| - 1], ip, start);
    }
  }

  lemma InWindowNext(log: seq<Attempt>, a: Attempt, ip: string, start: real)
    ensures InWindow(log + [a], ip, start) == InWindow(log, ip, start) + One(a.ip == ip && a.start == start)
  {
    assert (log + [a])[..|log|] == log;
  }

  lemma WindowsNext(log: seq<Attempt>, a: Attempt, ip: string)
    ensures forall start ::
      InWindow(log + [a], ip, start) == InWindow(log, ip, start) + One(a.ip == ip && a.start == start)
  {
    forall start
      ensures InWindow(log + [a], ip, start) == InWindow(log, ip, start) + One(a.ip == ip && a.start == start)
    {
      InWindowNext(log, a, ip, start);
    }
  }

  lemma CheckWindowed(clients: nat, lag: real, s: Server, e: Event, ip: string)
    requires 0.0 <= lag < WINDOW && e.Check? && OnTime(lag, s, e) && Windowed(clients, lag, s, ip)
    ensures Windowed(clients, lag, Next(s, e), ip)
  {
    var t := Next(s, e);
    assert t.log == s.log;
    if ip in t.attempts && ip in s.attempts && t.attempts[ip] != s.attempts[ip] {
      NoneInWindow(s.log, ip, t.attempts[ip].start);
    }
  }

  lemma RecordOther(clients: nat, lag: real, s: Server, e: Event, ip: string)
    requires e.Record? && OnTime(lag, s, e) && Windowed(clients, lag, s, ip) && e.ip != ip
    ensures Windowed(clients, lag, Next(s, e), ip)
  {
    var t := Next(s, e);
    WindowsNext(s.log, t.log[|s.log|], ip);
  }

  /** All windows in the log began long enough before the next one opens. */
  lemma AllOver(clients: nat, lag: real, s: Server, now: real, ip: string)
    requires 0.0 <= lag < WINDOW && Windowed(clients, lag, s, ip) && s.clock - lag <= now
    requires ip !in s.attempts || Expired(s.attempts, ip, now)
    ensures forall i :: 0 <= i < |s.log| && s.log[i].ip == ip ==> s.log[i].start + (WINDOW - lag) <= now
  {
  }

  /** A recorded attempt opens a window. */
  lemma RecordOpens(clients: nat, lag: real, s: Server, e: Event, ip: string)
    requires 0.0 <= lag < WINDOW && e.Record? && OnTime(lag, s, e) && Windowed(clients, lag, s, ip) && e.ip == ip
    requires ip !in s.attempts || Expired(s.attempts, ip, e.now)
    requires Count(Next(s, e), ip) <= MAX_ATTEMPTS - 1 + clients
    ensures Windowed(clients, lag, Next(s, e), ip)
  {
    var t := Next(s, e);
    assert t.log == s.log + [Attempt(ip, e.now, e.now)] && t.attempts[ip] == Entry(1, e.now);
    AllOver(clients, lag, s, e.now, ip);
    NoneInWindow(s.log, ip, e.now);
    PlacedNext(lag, s.log, t.log[|s.log|], ip);
    WindowsNext(s.log, t.log[|s.log|], ip);
  }

  /** A recorded attempt counts in the open window. */
  lemma RecordContinues(clients: nat, lag: real, s: Server, e: Event, ip: string)
    requires e.Record? && OnTime(lag, s, e) && Windowed(clients, lag, s, ip) && e.ip == ip
    requires ip in s.attempts && !Expired(s.attempts, ip, e.now)
    requires Count(Next(s, e), ip) <= MAX_ATTEMPTS - 1 + clients
    ensures Windowed(clients, lag, Next(s, e), ip)
  {
    var t, open := Next(s, e), s.attempts[ip].start;
    assert t.log == s.log + [Attempt(ip, e.now, open)] && t.attempts[ip] == Entry(s.attempts[ip].count + 1, open);
    PlacedNext(lag, s.log, t.log[|s.log|], ip);
    WindowsNext(s.log, t.log[|s.log|], ip);
  }

  lemma RecordWindowed(clients: nat, lag: real, s: Server, e: Event, ip: string)
    requires 0.0 <= lag < WINDOW && e.Record? && OnTime(lag, s, e) && Windowed(clients, lag, s, ip)
    requires Count(Next(s, e), ip) <= MAX_ATTEMPTS - 1 + clients
    ensures Windowed(clients, lag, Next(s, e), ip)
  {
    if e.ip != ip {
      RecordOther(clients, lag, s, e, ip);
    } else if ip !in s.attempts || Expired(s.attempts, ip, e.now) {
      RecordOpens(clients, lag, s, e, ip);
    } else {
      RecordContinues(clients, lag, s, e, ip);
    }
  }

  lemma WindowedStep(clients: nat, lag: real, s: Server, e: Event, ip: string)
    requires 0.0 <= lag < WINDOW && OnTime(lag, s, e) && Windowed(clients, lag, s, ip) && !(e.Reset? && e.ip == ip)
    requires Count(Next(s, e), ip) <= MAX_ATTEMPTS - 1 + clients
    ensures Windowed(clients, lag, Next(s, e), ip)
  {
    if e.Check? {
      CheckWindowed(clients, lag, s, e, ip);
    } else if e.Record? {
      RecordWindowed(clients, lag, s, e, ip);
    } else {
      var t := Next(s, e);
      assert t.log == s.log && t.clock == s.clock;
      assert ip in t.attempts <==> ip in s.attempts;
      assert ip in t.attempts ==> t.attempts[ip] == s.attempts[ip];
    }
  }

  lemma {:induction false} RunWindowed(clients: nat, lag: real, start: real, es: seq<Event>, ip: string)
    requires clients > 0 && 0.0 <= lag < WINDOW
    requires Possible(clients, Started(start), es) && InOrder(lag, Started(start), es)
    requires forall e :: e in es && e.Reset? ==> e.ip != ip
    ensures Windowed(clients, lag, After(Started(start), es), ip)
  {
    if es != [] {
      var front, e := es[..|es| - 1], es[|es| - 1];
      assert es == front + [e];
      RunWindowed(clients, lag, start, front, ip);
      OvershootBounded(clients, start, es, ip);
      assert e in es;
      WindowedStep(clients, lag, After(Started(start), front), e, ip);
    }
  }

  // ---------- counting windows ----------

  /** How many attempts of ip in the interval were counted by windows that began at one of starts. */
  function InWindows(log: seq<Attempt>, ip: string, from: real, starts: set<real>): nat {
    if log == [] then 0
    else
      InWindows(log[..|log| - 1], ip, from, starts) +
      One(Falls(log[|log| - 1], ip, from) && log[|log| - 1].start in starts)
  }

  lemma {:induction false} OneWindowLess(log: seq<Attempt>, ip: string, from: real, starts: set<real>, start: real)
    ensures InWindows(log, ip, from, starts) <= InWindows(log, ip, from, starts - {start}) + InWindow(log, ip, start)
  {
    if log != [] {
      OneWindowLess(log[..|log| - 1], ip, from, starts, start);
    }
  }

  lemma {:induction false} NoWindows(log: seq<Attempt>, ip: string, from: real)
    ensures InWindows(log, ip, from, {}) == 0
  {
    if log != [] {
      NoWindows(log[..|log| - 1], ip, from);
    }
  }

  lemma {:induction false} WindowsCount(log: seq<Attempt>, ip: string, from: real, starts: set<real>, each: nat)
    requires forall start :: InWindow(log, ip, start) <= each
    ensures InWindows(log, ip, from, starts) <= |starts| * each
    decreases |starts|
  {
    if starts == {} {
      NoWindows(log, ip, from);
    } else {
      var start := Pick(starts);
      WindowsCount(log, ip, from, starts - {start}, each);
      OneWindowLess(log, ip, from, starts, start);
      assert |starts| * each == |starts - {start}| * each + each;
    }
  }

  lemma {:induction false} AllInWindows(log: seq<Attempt>, ip: string, from: real, starts: set<real>)
    requires forall i :: 0 <= i < |log| && Falls(log[i], ip, from) ==> log[i].start in starts
    ensures InInterval(log, ip, from) == InWindows(log, ip, from, starts)
  {
    if log != [] {
      AllInWindows(log[..|log| - 1], ip, from, starts);
    }
  }

  lemma Pick<T>(xs: set<T>) returns (x: T)
    requires xs != {}
    ensures x in xs
  {
    x :| x in xs;
  }

  lemma CutAt(xs: set<real>, at: real) returns (below: set<real>, rest: set<real>)
    ensures |xs| == |below| + |rest| && below <= xs && rest <= xs
    ensures forall x :: x in below ==> x < at
    ensures forall x :: x in rest ==> x >= at
  {
    below := set x | x in xs && x < at;
    rest := xs - below;
    assert below * rest == {} && below + rest == xs;
  }

  lemma NoneFit(xs: set<real>, lo: real, hi: real)
    requires hi <= lo && forall x :: x in xs ==> lo <= x < hi
    ensures xs == {}
  {
    if xs != {} {
      var x := Pick(xs);
    }
  }

  lemma OnlyMember<T>(xs: set<T>, x: T)
    requires forall y :: y in xs ==> y == x
    ensures |xs| <= 1
  {
    assert xs <= {x};
    if x in xs {
      assert xs == {x};
    } else {
      assert xs == {};
    }
  }

  /** At most one of numbers that far apart lies in an interval of that length. */
  lemma AtMostOne(xs: set<real>, lo: real, gap: real)
    requires forall x :: x in xs ==> lo <= x < lo + gap
    requires forall x, y :: x in xs && y in xs ==> Apart(gap, x, y)
    ensures |xs| <= 1
  {
    if xs != {} {
      var x := Pick(xs);
      forall y | y in xs
        ensures y == x
      {
        assert Apart(gap, x, y);
      }
      OnlyMember(xs, x);
    }
  }

  /** How many numbers that far apart fit into an interval. */
  lemma {:induction false} SpacedFit(xs: set<real>, lo: real, hi: real, gap: real, n: nat)
    requires gap > 0.0 && hi - lo <= n as real * gap
    requires forall x :: x in xs ==> lo <= x < hi
    requires forall x, y :: x in xs && y in xs ==> Apart(gap, x, y)
    ensures |xs| <= n
    decreases n
  {
    if n == 0 {
      NoneFit(xs, lo, hi);
    } else {
      var near, far := CutAt(xs, lo + gap);
      AtMostOne(near, lo, gap);
      assert (n - 1) as real * gap == n as real * gap - gap;
      SpacedFit(far, lo + gap, hi, gap, n - 1);
    }
  }

  /** An interval as long as a window meets at most n windows. */
  lemma IntervalBounded(clients: nat, lag: real, n: nat, s: Server, ip: string, from: real)
    requires 0.0 <= lag < WINDOW && 2.0 * WINDOW + lag <= n as real * (WINDOW - lag) && Windowed(clients, lag, s, ip)
    ensures InInterval(s.log, ip, from) <= n * (MAX_ATTEMPTS - 1 + clients)
  {
    var starts := set i | 0 <= i < |s.log| && Falls(s.log[i], ip, from) :: s.log[i].start;
    AllInWindows(s.log, ip, from, starts);
    WindowsCount(s.log, ip, from, starts, MAX_ATTEMPTS - 1 + clients);
    SpacedFit(starts, from - WINDOW, from + WINDOW + lag, WINDOW - lag, n);
    ProductGrows(|starts|, n, MAX_ATTEMPTS - 1 + clients);
  }

  lemma ProductGrows(a: nat, b: nat, c: nat)
    requires a <= b
    ensures a * c <= b * c
  {
  }

  /** If requests read their clocks at most lag before they get the lock, and no login succeeds, no half-open
      interval of the window's length holds the attempts of more than n windows, each 9 plus the concurrent
      requests. Two windows if nobody waits, so 20 sequential attempts; three for a lag of up to 225 seconds. */
  lemma AttemptsBounded(clients: nat, lag: real, n: nat, start: real, es: seq<Event>, ip: string, from: real)
    requires clients > 0 && 0.0 <= lag < WINDOW && 2.0 * WINDOW + lag <= n as real * (WINDOW - lag)
    requires Possible(clients, Started(start), es) && InOrder(lag, Started(start), es)
    requires forall e :: e in es && e.Reset? ==> e.ip != ip
    ensures InInterval(After(Started(start), es).log, ip, from) <= n * (MAX_ATTEMPTS - 1 + clients)
  {
    RunWindowed(clients, lag, start, es, ip);
    IntervalBounded(clients, lag, n, After(Started(start), es), ip, from);
  }

  // ---------- the bound is reached ----------

  /** es is such a run, and leads to s. */
  ghost predicate Leads(clients: nat, lag: real, start: real, es: seq<Event>, s: Server) {
    && Possible(clients, Started(start), es) && InOrder(lag, Started(start), es) && After(Started(start), es) == s
    && forall e :: e in es ==> !e.Reset?
  }

  lemma LeadsOn(clients: nat, lag: real, start: real, es: seq<Event>, s: Server, e: Event)
    requires Leads(clients, lag, start, es, s) && Enabled(clients, s, e) && OnTime(lag, s, e) && !e.Reset?
    ensures Leads(clients, lag, start, es + [e], Next(s, e))
  {
    RunOne(clients, Started(start), es, e);
    assert (es + [e])[..|es|] == es;
  }

  /** The window of ip that began at start has counted so many attempts and more are admitted; so many of its
      attempts lie in the interval. */
  ghost predicate Stands(s: Server, ip: string, open: real, count: nat, waiting: nat, from: real, inside: nat) {
    && ip in s.attempts && s.attempts[ip] == Entry(count, open) && s.admitted[ip] == waiting
    && InInterval(s.log, ip, from) == inside
  }

  lemma AdmitOne(s: Server, ip: string, open: real, count: nat, waiting: nat, from: real, inside: nat, t: real)
    requires Stands(s, ip, open, count, waiting, from, inside) && count < MAX_ATTEMPTS
    requires t - open < WINDOW && s.clock - open <= WINDOW
    ensures var u := Next(s, Check(ip, t, s.clock));
            Stands(u, ip, open, count, waiting + 1, from, inside) && u.clock == s.clock
  {
  }

  lemma RecordOne(s: Server, ip: string, open: real, count: nat, waiting: nat, from: real, inside: nat, t: real)
    requires Stands(s, ip, open, count, waiting, from, inside) && waiting > 0
    requires t - open < WINDOW && from <= t < from + WINDOW && t <= s.clock
    ensures var u := Next(s, Record(ip, t));
            Stands(u, ip, open, count + 1, waiting - 1, from, inside + 1) && u.clock == s.clock
  {
    assert (s.log + [Attempt(ip, t, open)])[..|s.log|] == s.log;
  }

  /** The run as Leads has it, with a window as Stands has it and this clock. */
  ghost predicate Filled(clients: nat, lag: real, start: real, es: seq<Event>, ip: string, open: real, clock: real,
                         count: nat, waiting: nat, from: real, inside: nat) {
    var s := After(Started(start), es);
    Leads(clients, lag, start, es, s) && Stands(s, ip, open, count, waiting, from, inside) && s.clock == clock
  }

  /** The reading t falls into the open window and into the interval, and is not too old. */
  predicate Suits(lag: real, open: real, clock: real, from: real, t: real) {
    clock - lag <= t <= clock && clock - open <= WINDOW && t - open < WINDOW && from <= t < from + WINDOW
  }

  lemma FillAdmit(clients: nat, lag: real, start: real, es: seq<Event>, ip: string, open: real, clock: real,
                  count: nat, waiting: nat, from: real, inside: nat, t: real)
    requires Filled(clients, lag, start, es, ip, open, clock, count, waiting, from, inside)
    requires Suits(lag, open, clock, from, t) && count < MAX_ATTEMPTS && waiting < clients
    ensures Filled(clients, lag, start, es + [Check(ip, t, clock)], ip, open, clock, count, waiting + 1, from, inside)
  {
    var s := After(Started(start), es);
    AdmitOne(s, ip, open, count, waiting, from, inside, t);
    LeadsOn(clients, lag, start, es, s, Check(ip, t, clock));
  }

  lemma FillRecord(clients: nat, lag: real, start: real, es: seq<Event>, ip: string, open: real, clock: real,
                   count: nat, waiting: nat, from: real, inside: nat, t: real)
    requires Filled(clients, lag, start, es, ip, open, clock, count, waiting, from, inside)
    requires Suits(lag, open, clock, from, t) && waiting > 0
    ensures Filled(clients, lag, start, es + [Record(ip, t)], ip, open, clock, count + 1, waiting - 1, from, inside + 1)
  {
    var s := After(Started(start), es);
    RecordOne(s, ip, open, count, waiting, from, inside, t);
    LeadsOn(clients, lag, start, es, s, Record(ip, t));
  }

  /** Attempts one after the other. */
  lemma {:induction false} FillOneByOne(clients: nat, lag: real, start: real, es: seq<Event>, ip: string, open: real,
                                        clock: real, from: real, inside: nat, t: real, k: nat) returns (fs: seq<Event>)
    requires Filled(clients, lag, start, es, ip, open, clock, 0, 0, from, inside)
    requires Suits(lag, open, clock, from, t) && clients > 0 && k < MAX_ATTEMPTS
    ensures Filled(clients, lag, start, fs, ip, open, clock, k, 0, from, inside + k)
  {
    fs := es;
    if k > 0 {
      fs := FillOneByOne(clients, lag, start, es, ip, open, clock, from, inside, t, k - 1);
      FillAdmit(clients, lag, start, fs, ip, open, clock, k - 1, 0, from, inside + k - 1, t);
      fs := fs + [Check(ip, t, clock)];
      FillRecord(clients, lag, start, fs, ip, open, clock, k - 1, 1, from, inside + k - 1, t);
      fs := fs + [Record(ip, t)];
    }
  }

  /** Then requests that all pass the check before any of them records. */
  lemma {:induction false} FillAdmitted(clients: nat, lag: real, start: real, es: seq<Event>, ip: string, open: real,
                                        clock: real, from: real, inside: nat, t: real, k: nat) returns (fs: seq<Event>)
    requires Filled(clients, lag, start, es, ip, open, clock, 0, 0, from, inside)
    requires Suits(lag, open, clock, from, t) && clients > 0 && k <= clients
    ensures Filled(clients, lag, start, fs, ip, open, clock, MAX_ATTEMPTS - 1, k, from, inside + MAX_ATTEMPTS - 1)
  {
    if k == 0 {
      fs := FillOneByOne(clients, lag, start, es, ip, open, clock, from, inside, t, MAX_ATTEMPTS - 1);
    } else {
      fs := FillAdmitted(clients, lag, start, es, ip, open, clock, from, inside, t, k - 1);
      FillAdmit(clients, lag, start, fs, ip, open, clock, MAX_ATTEMPTS - 1, k - 1, from, inside + MAX_ATTEMPTS - 1, t);
      fs := fs + [Check(ip, t, clock)];
    }
  }

  /** And record. */
  lemma {:induction false} FillRecorded(clients: nat, lag: real, start: real, es: seq<Event>, ip: string, open: real,
                                        clock: real, from: real, inside: nat, t: real, k: nat) returns (fs: seq<Event>)
    requires Filled(clients, lag, start, es, ip, open, clock, 0, 0, from, inside)
    requires Suits(lag, open, clock, from, t) && clients > 0 && k <= clients
    ensures Filled(clients, lag, start, fs, ip, open, clock, MAX_ATTEMPTS - 1 + k, clients - k, from,
                   inside + MAX_ATTEMPTS - 1 + k)
  {
    if k == 0 {
      fs := FillAdmitted(clients, lag, start, es, ip, open, clock, from, inside, t, clients);
    } else {
      fs := FillRecorded(clients, lag, start, es, ip, open, clock, from, inside, t, k - 1);
      FillRecord(clients, lag, start, fs, ip, open, clock, MAX_ATTEMPTS - 2 + k, clients - k + 1, from,
                 inside + MAX_ATTEMPTS - 2 + k, t);
      fs := fs + [Record(ip, t)];
    }
  }

  /** A window full of attempts at t. */
  lemma FillWindow(clients: nat, lag: real, start: real, es: seq<Event>, ip: string, open: real, clock: real,
                   from: real, inside: nat, t: real) returns (fs: seq<Event>)
    requires Filled(clients, lag, start, es, ip, open, clock, 0, 0, from, inside)
    requires Suits(lag, open, clock, from, t) && clients > 0
    ensures Filled(clients, lag, start, fs, ip, open, clock, MAX_ATTEMPTS - 1 + clients, 0, from,
                   inside + (MAX_ATTEMPTS - 1 + clients))
  {
    fs := FillRecorded(clients, lag, start, es, ip, open, clock, from, inside, t, clients);
  }

  lemma Reopened(s: Server, ip: string, open: real, count: nat, from: real, inside: nat)
    requires Stands(s, ip, open, count, 0, from, inside)
    ensures var u := Next(Next(s, Check(ip, open + WINDOW, open + WINDOW)), Leave(ip));
            Stands(u, ip, open + WINDOW, 0, 0, from, inside) && u.clock == open + WINDOW
    ensures Enabled(1, Next(s, Check(ip, open + WINDOW, open + WINDOW)), Leave(ip))
  {
  }

  /** A request that finds the window over opens the next one, and leaves without an attempt. */
  lemma OpenNext(clients: nat, lag: real, start: real, es: seq<Event>, ip: string, open: real, clock: real,
                 count: nat, from: real, inside: nat) returns (fs: seq<Event>)
    requires Filled(clients, lag, start, es, ip, open, clock, count, 0, from, inside)
    requires clients > 0 && 0.0 <= lag && clock <= open + WINDOW
    ensures Filled(clients, lag, start, fs, ip, open + WINDOW, open + WINDOW, 0, 0, from, inside)
  {
    var s, e := After(Started(start), es), Check(ip, open + WINDOW, open + WINDOW);
    Reopened(s, ip, open, count, from, inside);
    LeadsOn(clients, lag, start, es, s, e);
    LeadsOn(clients, lag, start, es + [e], Next(s, e), Leave(ip));
    fs := es + [e] + [Leave(ip)];
  }

  lemma Visited(s: Server, ip: string, open: real, from: real, inside: nat, t: real)
    requires Stands(s, ip, open, 0, 0, from, inside) && t - open < WINDOW
    ensures var u := Next(Next(s, Check(ip, t, t)), Leave(ip));
            Stands(u, ip, open, 0, 0, from, inside) && u.clock == t
    ensures Enabled(1, Next(s, Check(ip, t, t)), Leave(ip))
  {
  }

  /** Time passes within an empty window. */
  lemma LetPass(clients: nat, lag: real, start: real, es: seq<Event>, ip: string, open: real, clock: real,
                from: real, inside: nat, t: real) returns (fs: seq<Event>)
    requires Filled(clients, lag, start, es, ip, open, clock, 0, 0, from, inside)
    requires clients > 0 && 0.0 <= lag && clock <= t && t - open < WINDOW
    ensures Filled(clients, lag, start, fs, ip, open, t, 0, 0, from, inside)
  {
    var s, e := After(Started(start), es), Check(ip, t, t);
    Visited(s, ip, open, from, inside, t);
    LeadsOn(clients, lag, start, es, s, e);
    LeadsOn(clients, lag, start, es + [e], Next(s, e), Leave(ip));
    fs := es + [e] + [Leave(ip)];
  }

  lemma FirstEntry(start: real, ip: string, from: real)
    requires from > start
    ensures var u := Next(Next(Started(start), Check(ip, start, start)), Record(ip, start));
            Stands(u, ip, start, 1, 0, from, 0) && u.clock == start
    ensures Enabled(1, Next(Started(start), Check(ip, start, start)), Record(ip, start))
  {
    var a := Attempt(ip, start, start);
    assert [] + [a] == [a] && [a][..0] == [];
  }

  /** A first attempt, long before the interval. */
  lemma BeginEarly(clients: nat, lag: real, start: real, ip: string, from: real) returns (es: seq<Event>)
    requires clients > 0 && 0.0 <= lag && from > start
    ensures Filled(clients, lag, start, es, ip, start, start, 1, 0, from, 0)
  {
    var s, e := Started(start), Check(ip, start, start);
    FirstEntry(start, ip, from);
    LeadsOn(clients, lag, start, [], s, e);
    LeadsOn(clients, lag, start, [] + [e], Next(s, e), Record(ip, start));
    es := [] + [e] + [Record(ip, start)];
  }

  /** The first attempts of the interval, late in a window opened without any. */
  function LateStart(lag: real, start: real): real {
    start + WINDOW + WINDOW - if lag > 0.0 then lag / 2.0 else 1.0
  }

  lemma TwoWindows(clients: nat, lag: real, start: real, ip: string) returns (es: seq<Event>)
    requires clients > 0 && 0.0 <= lag < WINDOW
    ensures var from, second := LateStart(lag, start), start + WINDOW + WINDOW;
            Filled(clients, lag, start, es, ip, second, second, MAX_ATTEMPTS - 1 + clients, 0, from,
                   2 * (MAX_ATTEMPTS - 1 + clients))
  {
    var from, each := LateStart(lag, start), MAX_ATTEMPTS - 1 + clients;
    es := BeginEarly(clients, lag, start, ip, from);
    es := OpenNext(clients, lag, start, es, ip, start, start, 1, from, 0);
    es := LetPass(clients, lag, start, es, ip, start + WINDOW, start + WINDOW, from, 0, from);
    es := FillWindow(clients, lag, start, es, ip, start + WINDOW, from, from, 0, from);
    es := OpenNext(clients, lag, start, es, ip, start + WINDOW, from, each, from, each);
    es := FillWindow(clients, lag, start, es, ip, start + WINDOW + WINDOW, start + WINDOW + WINDOW, from, each,
                     start + WINDOW + WINDOW);
  }

  /** The attempts of a third window that were read before it opened. */
  lemma ThreeWindows(clients: nat, lag: real, start: real, ip: string) returns (es: seq<Event>)
    requires clients > 0 && 0.0 < lag < WINDOW
    ensures var from, third := LateStart(lag, start), start + WINDOW + WINDOW + WINDOW;
            Filled(clients, lag, start, es, ip, third, third, MAX_ATTEMPTS - 1 + clients, 0, from,
                   3 * (MAX_ATTEMPTS - 1 + clients))
  {
    var from, each, second := LateStart(lag, start), MAX_ATTEMPTS - 1 + clients, start + WINDOW + WINDOW;
    es := TwoWindows(clients, lag, start, ip);
    es := OpenNext(clients, lag, start, es, ip, second, second, each, from, 2 * each);
    es := FillWindow(clients, lag, start, es, ip, second + WINDOW, second + WINDOW, from, 2 * each,
                     second + WINDOW - lag);
  }

  /** The bound is reached: by two windows if no request waits for the lock, and by three as soon as one may. */
  lemma AttemptsReached(clients: nat, lag: real, start: real, ip: string) returns (es: seq<Event>, from: real)
    requires clients > 0 && 0.0 <= lag < WINDOW
    ensures Possible(clients, Started(start), es) && InOrder(lag, Started(start), es)
    ensures forall e :: e in es && e.Reset? ==> e.ip != ip
    ensures InInterval(After(Started(start), es).log, ip, from) ==
            (if lag > 0.0 then 3 else 2) * (MAX_ATTEMPTS - 1 + clients)
  {
    from := LateStart(lag, start);
    if lag > 0.0 {
      es := ThreeWindows(clients, lag, start, ip);
    } else {
      es := TwoWindows(clients, lag, start, ip);
    }
  }
}
