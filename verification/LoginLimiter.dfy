/** The per-address login rate limiter that one server process keeps in memory. */
module LoginLimiter {
  import opened Options

  const MAX_ATTEMPTS := 10
  const WINDOW: real := 900.0
  const CLEANUP_INTERVAL: real := 300.0

  /** Attempts counted in the window that began at start, on the monotonic clock. */
  datatype Entry = Entry(count: nat, start: real)

  type Attempts = map<string, Entry>

  /** Cleanup keeps the entries whose window is not over. */
  function Cleaned(a: Attempts, now: real): Attempts {
    map ip | ip in a && now - a[ip].start <= WINDOW :: a[ip]
  }

  predicate Expired(a: Attempts, ip: string, now: real) {
    ip in a && now - a[ip].start >= WINDOW
  }

  predicate Blocks(a: Attempts, ip: string, now: real) {
    ip in a && now - a[ip].start < WINDOW && a[ip].count >= MAX_ATTEMPTS
  }

  /** A check finding an expired window opens a new one. */
  function Rearmed(a: Attempts, ip: string, now: real): Attempts {
    if Expired(a, ip, now) then a[ip := Entry(0, now)] else a
  }

  function Swept(a: Attempts, lastCleanup: real, now: real, sweptAt: real): Attempts {
    if now - lastCleanup > CLEANUP_INTERVAL then Cleaned(a, sweptAt) else a
  }

  function Counted(a: Attempts, ip: string, now: real): Attempts {
    if ip !in a || Expired(a, ip, now) then a[ip := Entry(1, now)]
    else a[ip := Entry(a[ip].count + 1, a[ip].start)]
  }

  /** A cleanup changes the verdict for a request exactly when the entry blocks at the request's own
      reading of the clock and has expired by the cleanup's: only for a reading taken before. */
  lemma CleanupUnblocksExactly(a: Attempts, ip: string, now: real, sweptAt: real)
    ensures Blocks(Cleaned(a, sweptAt), ip, now) ==> Blocks(a, ip, now)
    ensures Blocks(a, ip, now) && !Blocks(Cleaned(a, sweptAt), ip, now) <==>
      ip in a && a[ip].count >= MAX_ATTEMPTS && now < a[ip].start + WINDOW < sweptAt
  {
  }

  /** A clock read no earlier than the cleanup's never sees a difference, at any later time. */
  lemma CleanupKeepsVerdicts(a: Attempts, ip: string, now: real, sweptAt: real)
    requires sweptAt <= now
    ensures Blocks(Cleaned(a, sweptAt), ip, now) <==> Blocks(a, ip, now)
    ensures Counted(Cleaned(a, sweptAt), ip, now)[ip] == Counted(a, ip, now)[ip]
  {
  }

  // ---------- what recording leads to ----------

  /** The verdicts for all other addresses stay as they are, at any time. */
  ghost predicate OthersUnaffected(a: Attempts, b: Attempts, ip: string) {
    forall other, now: real :: other != ip ==> (Blocks(a, other, now) <==> Blocks(b, other, now))
  }

  /** Attempts recorded at these times. */
  function Recorded(a: Attempts, ip: string, times: seq<real>): Attempts {
    if times == [] then a else Counted(Recorded(a, ip, times[..|times| - 1]), ip, times[|times| - 1])
  }

  lemma {:induction false} RecordedInWindow(a: Attempts, ip: string, times: seq<real>)
    requires ip !in a && times != [] && forall i :: 0 <= i < |times| ==> times[i] < times[0] + WINDOW
    ensures ip in Recorded(a, ip, times) && Recorded(a, ip, times)[ip] == Entry(|times|, times[0])
    ensures OthersUnaffected(a, Recorded(a, ip, times), ip)
  {
    if |times| > 1 {
      RecordedInWindow(a, ip, times[..|times| - 1]);
    } else {
      assert times[..0] == [];
    }
  }

  /** An address without an entry is blocked until the window after its first attempt is over exactly from
      the tenth recorded attempt on, and no other address ever is. */
  lemma TenAttemptsBlock(a: Attempts, ip: string, times: seq<real>, now: real)
    requires ip !in a && times != [] && forall i :: 0 <= i < |times| ==> times[i] < times[0] + WINDOW
    ensures Blocks(Recorded(a, ip, times), ip, now) <==> |times| >= MAX_ATTEMPTS && now < times[0] + WINDOW
    ensures OthersUnaffected(a, Recorded(a, ip, times), ip)
  {
    RecordedInWindow(a, ip, times);
  }

  /** After a successful login the address starts over: ten more attempts are needed to block it. */
  lemma ResetStartsOver(a: Attempts, ip: string, times: seq<real>, now: real)
    requires forall i :: 0 <= i < |times| ==> times[i] < times[0] + WINDOW
    ensures Blocks(Recorded(a - {ip}, ip, times), ip, now) <==>
      |times| >= MAX_ATTEMPTS && now < times[0] + WINDOW
    ensures OthersUnaffected(a, Recorded(a - {ip}, ip, times), ip)
  {
    if times != [] {
      RecordedInWindow(a - {ip}, ip, times);
    }
  }

  /** Seconds to wait, in whole numbers. */
  function RetryAfter(elapsed: real): int {
    (WINDOW - elapsed).Floor + 1
  }

  class Limiter {
    var attempts: Attempts
    var lastCleanup: real

    constructor (now: real)
      ensures attempts == map[] && lastCleanup == now
    {
      attempts, lastCleanup := map[], now;
    }

    method CleanupStaleEntries(now: real)
      modifies this`attempts
      ensures attempts == Cleaned(old(attempts), now)
    {
      var stale := set ip | ip in attempts && now - attempts[ip].start > WINDOW;
      ghost var was := attempts;
      while stale != {}
        invariant attempts.Keys <= was.Keys && forall ip :: ip in attempts ==> attempts[ip] == was[ip]
        invariant stale <= attempts.Keys
        invariant forall ip :: ip in was ==> (ip in attempts && ip !in stale <==> now - was[ip].start <= WINDOW)
      {
        var ip :| ip in stale;
        attempts := attempts - {ip};
        stale := stale - {ip};
      }
    }

    /** None admits the request; otherwise the seconds after which it would be admitted: waiting them is
        enough, and less than a second of them is too much. */
    method CheckLoginRateLimit(ip: string, now: real, sweptAt: real) returns (retryAfter: Option<int>)
      modifies this
      ensures var seen := Swept(old(attempts), old(lastCleanup), now, sweptAt);
              && attempts == Rearmed(seen, ip, now)
              && (retryAfter.Some? <==> Blocks(seen, ip, now))
              && (retryAfter.Some? ==>
                    && !Blocks(attempts, ip, now + retryAfter.value as real)
                    && forall t: real :: now <= t && t < now + (retryAfter.value - 1) as real ==>
                      Blocks(attempts, ip, t))
      ensures lastCleanup == if now - old(lastCleanup) > CLEANUP_INTERVAL then now else old(lastCleanup)
    {
      if now - lastCleanup > CLEANUP_INTERVAL {
        CleanupStaleEntries(sweptAt);
        lastCleanup := now;
      }
      if ip in attempts {
        var entry := attempts[ip];
        var elapsed := now - entry.start;
        if elapsed < WINDOW {
          if entry.count >= MAX_ATTEMPTS {
            return Some(RetryAfter(elapsed));
          }
        } else {
          attempts := attempts[ip := Entry(0, now)];
        }
      }
      return None;
    }

    method RecordLoginAttempt(ip: string, now: real)
      modifies this`attempts
      ensures attempts == Counted(old(attempts), ip, now) && OthersUnaffected(old(attempts), attempts, ip)
      ensures ip in attempts && now - attempts[ip].start < WINDOW
    {
      if ip !in attempts || now - attempts[ip].start >= WINDOW {
        attempts := attempts[ip := Entry(1, now)];
      } else {
        attempts := attempts[ip := Entry(attempts[ip].count + 1, attempts[ip].start)];
      }
    }

    method ResetLoginAttempts(ip: string)
      modifies this`attempts
      ensures attempts == old(attempts) - {ip} && OthersUnaffected(old(attempts), attempts, ip)
      ensures forall now: real :: !Blocks(attempts, ip, now)
    {
      attempts := attempts - {ip};
    }
  }
}
