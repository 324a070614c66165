/** The per-client login throttle of the authentication controller, stated as
    pure definitions over a snapshot of its attempt table.

    The controller keeps one record per client IP: how many attempts it has
    made in the current window, when the window started and when its last
    failed attempt finished.  An attempt is admitted in one uninterrupted step
    (record creation, eviction of idle clients, window reset, increment) and
    then decided on the incremented count alone.  Times are integers in
    milliseconds, as returned by the host clock. */
module ThrottlePolicy {

  /** Length of the counting window: fifteen minutes. */
  const WindowMs: int := 15 * 60 * 1000

  /** Idle time after which a record no longer carries its count: ten seconds. */
  const IdleResetMs: int := 10 * 1000

  /** Attempts numbered above this one need a captcha. */
  const CaptchaThreshold: nat := 3

  /** Attempts numbered above this one are refused outright. */
  const LockThreshold: nat := 5

  /** Delay after the first failed attempt; it doubles with every attempt. */
  const BaseDelayMs: nat := 1000

  /** The fields of one attempt record, as a value. */
  datatype Snapshot = Snapshot(count: nat, lastAttempt: int, windowStart: int)

  /** The attempt table: client IP to record. */
  type Table = map<string, Snapshot>

  /** What the throttle decides for an admitted attempt. */
  datatype Outcome =
    | TooManyAttempts   // answered with HTTP 429
    | CaptchaRequired   // answered with HTTP 400
    | Proceed           // the credentials are checked

  /** What the credential check reports for an attempt that was let through. */
  datatype Verdict =
    | QueryError        // the user lookup failed: HTTP 500
    | UnknownUser       // no such user: HTTP 401 after the delay
    | WrongPassword     // password mismatch: HTTP 401 after the delay
    | Verified          // HTTP 200 with a token

  /** Status code of the answer and the delay applied before sending it. */
  datatype Reply = Reply(status: int, delayMs: nat)

  /** The record a client gets on its first attempt. */
  function NewRecord(now: int): Snapshot {
    Snapshot(0, now, now)
  }

  /** Either timer has expired: the window or the idle timeout. */
  predicate IsStale(s: Snapshot, now: int) {
    now - s.windowStart > WindowMs || now - s.lastAttempt > IdleResetMs
  }

  /** Key `c` belongs to another client that has been idle too long. */
  predicate IsIdleOther(t: Table, c: string, ip: string, now: int)
    requires c in t
  {
    c != ip && now - t[c].lastAttempt > IdleResetMs
  }

  /** The eviction sweep run by every attempt of client `ip`: it only
      deletes, never touches the client's own record, and leaves no other
      client idle for longer than the timeout. */
  function Evict(t: Table, ip: string, now: int): (r: Table)
    ensures forall c :: c in r ==> c in t && r[c] == t[c]
    ensures ip in t ==> ip in r
    ensures forall c :: c in r && c != ip ==> now - r[c].lastAttempt <= IdleResetMs
  {
    map c | c in t && !IsIdleOther(t, c, ip, now) :: t[c]
  }

  /** Window reset: the count restarts and the window starts now, while the
      time of the last attempt is kept.  A reset record is therefore still
      stale at the same instant exactly when it was idle. */
  function Refresh(s: Snapshot, now: int): (r: Snapshot)
    ensures r.lastAttempt == s.lastAttempt
    ensures !IsStale(s, now) ==> r == s
    ensures IsStale(s, now) ==> r.count == 0
    ensures IsStale(r, now) <==> now - s.lastAttempt > IdleResetMs
  {
    if IsStale(s, now) then s.(count := 0, windowStart := now) else s
  }

  /** The table after client `ip` is admitted at time `now`: record lookup or
      creation, eviction of idle clients, window reset and the increment. */
  function Admit(t: Table, ip: string, now: int): (r: Table)
    ensures ip in r && r[ip].count >= 1
  {
    var t1 := if ip in t then t else t[ip := NewRecord(now)];
    var t2 := Evict(t1, ip, now);
    var s := Refresh(t2[ip], now);
    t2[ip := s.(count := s.count + 1)]
  }

  /** The attempt number the admitted attempt is decided on. */
  function AdmittedCount(t: Table, ip: string, now: int): nat {
    Admit(t, ip, now)[ip].count
  }

  /** The decision on attempt number `k`. */
  function Decide(k: nat, captchaPresent: bool): (o: Outcome)
    ensures k > LockThreshold ==> o == TooManyAttempts
    ensures CaptchaThreshold < k <= LockThreshold && !captchaPresent ==> o == CaptchaRequired
    ensures CaptchaThreshold < k <= LockThreshold && captchaPresent ==> o == Proceed
    ensures k <= CaptchaThreshold ==> o == Proceed
  {
    if k > LockThreshold then TooManyAttempts
    else if k > CaptchaThreshold && !captchaPresent then CaptchaRequired
    else Proceed
  }

  /** How severe an outcome is, for comparing decisions. */
  function Severity(o: Outcome): nat {
    match o
    case Proceed => 0
    case CaptchaRequired => 1
    case TooManyAttempts => 2
  }

  function Pow2(n: nat): (r: nat)
    ensures r >= 1
  {
    if n == 0 then 1 else 2 * Pow2(n - 1)
  }

  /** The progressive delay after failed attempt number `k`, which is always
      at least the first attempt. */
  function FailureDelayMs(k: nat): (d: nat)
    requires k >= 1
    ensures d >= BaseDelayMs
  {
    Pow2(k - 1) * BaseDelayMs
  }

  /** One whole login attempt that runs without another attempt of the same
      client in between: admission, decision, and the bookkeeping after the
      credential check. */
  function LoginStep(t: Table, ip: string, now: int, captchaPresent: bool, verdict: Verdict): (r: (Table, Reply))
    ensures r.1.status in {200, 400, 401, 429, 500}
    ensures r.1.status == 200 ==> verdict == Verified && ip !in r.0
    ensures r.1.status != 200 ==> ip in r.0
    ensures r.1.delayMs > 0 <==> r.1.status == 401
    ensures r.1.status in {200, 401, 500} ==> AdmittedCount(t, ip, now) <= LockThreshold
    ensures forall c :: c in r.0 && c != ip ==> c in t && r.0[c] == t[c]
  {
    var t1 := Admit(t, ip, now);
    var k := t1[ip].count;
    match Decide(k, captchaPresent)
    case TooManyAttempts => (t1, Reply(429, 0))
    case CaptchaRequired => (t1, Reply(400, 0))
    case Proceed =>
      match verdict
      case QueryError => (t1, Reply(500, 0))
      case UnknownUser => (t1[ip := t1[ip].(lastAttempt := now)], Reply(401, FailureDelayMs(k)))
      case WrongPassword => (t1[ip := t1[ip].(lastAttempt := now)], Reply(401, FailureDelayMs(k)))
      case Verified => (t1 - {ip}, Reply(200, 0))
  }

  /** The attempt numbers seen by `n` attempts of client `ip` that all arrive
      at `now` and are all admitted before any of them finishes its
      credential check. */
  function BurstCounts(t: Table, ip: string, now: int, n: nat): (r: seq<nat>)
    ensures |r| == n
    decreases n
  {
    if n == 0 then [] else [AdmittedCount(t, ip, now)] + BurstCounts(Admit(t, ip, now), ip, now, n - 1)
  }

  /** How many of the attempts numbered `counts` (with captcha presence
      `captchas`) are let through to the credential check. */
  function ProceedCount(counts: seq<nat>, captchas: seq<bool>): (r: nat)
    requires |counts| == |captchas|
    ensures r <= |counts|
  {
    if counts == [] then 0
    else (if Decide(counts[0], captchas[0]) == Proceed then 1 else 0) + ProceedCount(counts[1..], captchas[1..])
  }

  // ---------------------------------------------------------------------
  // Admission

  /** A client without a record starts at attempt 1, with both timestamps now. */
  lemma AdmitNewClient(t: Table, ip: string, now: int)
    requires ip !in t
    ensures Admit(t, ip, now)[ip] == Snapshot(1, now, now)
  {
    var t1 := t[ip := NewRecord(now)];
    assert !IsIdleOther(t1, ip, ip, now);
    assert !IsStale(NewRecord(now), now);
  }

  /** A known client either restarts at 1 with a new window (keeping its old
      `lastAttempt`) or counts one more, according to the two timers. */
  lemma AdmitKnownClient(t: Table, ip: string, now: int)
    requires ip in t
    ensures IsStale(t[ip], now) ==> Admit(t, ip, now)[ip] == Snapshot(1, t[ip].lastAttempt, now)
    ensures !IsStale(t[ip], now) ==> Admit(t, ip, now)[ip] == t[ip].(count := t[ip].count + 1)
  {
    assert !IsIdleOther(t, ip, ip, now);
    assert Evict(t, ip, now)[ip] == t[ip];
  }

  /** Admission never changes the time of the last attempt. */
  lemma AdmitKeepsLastAttempt(t: Table, ip: string, now: int)
    ensures Admit(t, ip, now)[ip].lastAttempt == if ip in t then t[ip].lastAttempt else now
  {
    if ip in t { AdmitKnownClient(t, ip, now); } else { AdmitNewClient(t, ip, now); }
  }

  /** Admission of `ip` drops exactly the other clients idle for more than
      ten seconds and leaves the records of the remaining ones as they were. */
  lemma AdmitOtherClients(t: Table, ip: string, now: int, c: string)
    requires c != ip
    ensures c in Admit(t, ip, now) <==> c in t && now - t[c].lastAttempt <= IdleResetMs
    ensures c in Admit(t, ip, now) ==> Admit(t, ip, now)[c] == t[c]
  {
    var t1 := if ip in t then t else t[ip := NewRecord(now)];
    assert c in t1 <==> c in t;
    assert c in t ==> t1[c] == t[c];
  }

  /** Sweeping twice at the same instant removes nothing more. */
  lemma EvictIdempotent(t: Table, ip: string, now: int)
    ensures Evict(Evict(t, ip, now), ip, now) == Evict(t, ip, now)
  {
  }

  /** The window start can lie after the last attempt: a known client idle
      for twenty seconds restarts its window but keeps its old `lastAttempt`. */
  lemma WindowStartMayPassLastAttempt()
    ensures var r := Admit(map["10.0.0.1" := Snapshot(2, 0, 0)], "10.0.0.1", 20000)["10.0.0.1"];
            r == Snapshot(1, 0, 20000) && r.windowStart > r.lastAttempt
  {
    AdmitKnownClient(map["10.0.0.1" := Snapshot(2, 0, 0)], "10.0.0.1", 20000);
  }

  // ---------------------------------------------------------------------
  // Decision

  /** A higher attempt number is never decided more leniently, and adding a
      captcha never makes a decision stricter. */
  lemma DecideMonotone(j: nat, k: nat, captchaJ: bool, captchaK: bool)
    requires j <= k
    requires captchaK ==> captchaJ
    ensures Severity(Decide(j, captchaJ)) <= Severity(Decide(k, captchaK))
  {
  }

  /** Only attempts numbered 1 to 5 ever reach the credential check, and
      attempts 4 and 5 only with a captcha. */
  lemma ProceedOnlyWithinLimit(k: nat, captchaPresent: bool)
    requires Decide(k, captchaPresent) == Proceed
    ensures k <= LockThreshold
    ensures k > CaptchaThreshold ==> captchaPresent
  {
  }

  // ---------------------------------------------------------------------
  // Progressive delay

  lemma DelayAtFirstAttempt()
    ensures FailureDelayMs(1) == BaseDelayMs
  {
  }

  lemma {:induction false} Pow2StrictlyIncreasing(i: nat, j: nat)
    requires i < j
    ensures Pow2(i) < Pow2(j)
  {
    if i + 1 < j {
      Pow2StrictlyIncreasing(i, j - 1);
    }
  }

  /** Every further failed attempt waits strictly longer. */
  lemma DelayStrictlyIncreasing(j: nat, k: nat)
    requires 1 <= j < k
    ensures FailureDelayMs(j) < FailureDelayMs(k)
  {
    Pow2StrictlyIncreasing(j - 1, k - 1);
  }

  /** A failed attempt was let through, so its number is at most 5 and its
      delay at most sixteen seconds. */
  lemma DelayOnFailurePathAtMost16s(k: nat, captchaPresent: bool)
    requires k >= 1
    requires Decide(k, captchaPresent) == Proceed
    ensures FailureDelayMs(k) <= 16000
  {
    assert Pow2(4) == 16 by {
      assert Pow2(1) == 2;
      assert Pow2(2) == 4;
      assert Pow2(3) == 8;
    }
    if k < 5 {
      Pow2StrictlyIncreasing(k - 1, 4);
    }
  }

  // ---------------------------------------------------------------------
  // Whole attempts

  /** The 429 and 400 answers come without delay and without touching the
      time of the last attempt. */
  lemma RejectionKeepsLastAttempt(t: Table, ip: string, now: int, captchaPresent: bool, verdict: Verdict)
    requires LoginStep(t, ip, now, captchaPresent, verdict).1.status in {429, 400}
    ensures var (t', reply) := LoginStep(t, ip, now, captchaPresent, verdict);
            reply.delayMs == 0 && ip in t' &&
            t'[ip].lastAttempt == (if ip in t then t[ip].lastAttempt else now)
  {
    AdmitKeepsLastAttempt(t, ip, now);
  }

  /** A failed credential check stamps `lastAttempt` and changes nothing else
      in the record; its delay is the progressive one, at most sixteen seconds. */
  lemma FailureStampsLastAttempt(t: Table, ip: string, now: int, captchaPresent: bool, verdict: Verdict)
    requires LoginStep(t, ip, now, captchaPresent, verdict).1.status == 401
    ensures var (t', reply) := LoginStep(t, ip, now, captchaPresent, verdict);
            var k := AdmittedCount(t, ip, now);
            ip in t' && t'[ip] == Admit(t, ip, now)[ip].(lastAttempt := now) &&
            reply.delayMs == FailureDelayMs(k) && reply.delayMs <= 16000
  {
    var k := AdmittedCount(t, ip, now);
    DelayOnFailurePathAtMost16s(k, captchaPresent);
  }

  /** A successful login removes the client's record, so its next attempt is
      attempt 1 again. */
  lemma SuccessRestartsCount(t: Table, ip: string, now: int, captchaPresent: bool, next: int)
    requires LoginStep(t, ip, now, captchaPresent, Verified).1.status == 200
    ensures ip !in LoginStep(t, ip, now, captchaPresent, Verified).0
    ensures AdmittedCount(LoginStep(t, ip, now, captchaPresent, Verified).0, ip, next) == 1
  {
    AdmitNewClient(LoginStep(t, ip, now, captchaPresent, Verified).0, ip, next);
  }

  /** After the table is cleared, every client starts at attempt 1. */
  lemma ClearedTableRestartsCount(ip: string, now: int)
    ensures AdmittedCount(map[], ip, now) == 1
  {
    AdmitNewClient(map[], ip, now);
  }

  /** A client's sequence of attempts, one second apart: three failures with
      growing delays, a captcha demand, a fifth failure with a captcha, a
      refusal of the sixth attempt even with a captcha and the right password,
      and, after more than ten seconds of quiet, a fresh first attempt that
      succeeds and removes the record. */
  lemma SequentialScenario()
    ensures
      var ip := "203.0.113.7";
      var (t1, r1) := LoginStep(map[], ip, 0, false, WrongPassword);
      var (t2, r2) := LoginStep(t1, ip, 1000, false, UnknownUser);
      var (t3, r3) := LoginStep(t2, ip, 2000, false, WrongPassword);
      var (t4, r4) := LoginStep(t3, ip, 3000, false, WrongPassword);
      var (t5, r5) := LoginStep(t4, ip, 4000, true, WrongPassword);
      var (t6, r6) := LoginStep(t5, ip, 5000, true, Verified);
      var (t7, r7) := LoginStep(t6, ip, 20000, false, Verified);
      r1 == Reply(401, 1000) && r2 == Reply(401, 2000) && r3 == Reply(401, 4000) &&
      r4 == Reply(400, 0) && r5 == Reply(401, 16000) && r6 == Reply(429, 0) &&
      r7 == Reply(200, 0) && ip !in t7
  {
    var ip := "203.0.113.7";
    var (t1, r1) := LoginStep(map[], ip, 0, false, WrongPassword);
    AdmitNewClient(map[], ip, 0);
    assert t1[ip] == Snapshot(1, 0, 0);
    var (t2, r2) := LoginStep(t1, ip, 1000, false, UnknownUser);
    AdmitKnownClient(t1, ip, 1000);
    assert t2[ip] == Snapshot(2, 1000, 0);
    var (t3, r3) := LoginStep(t2, ip, 2000, false, WrongPassword);
    AdmitKnownClient(t2, ip, 2000);
    assert Pow2(2) == 4;
    assert t3[ip] == Snapshot(3, 2000, 0);
    var (t4, r4) := LoginStep(t3, ip, 3000, false, WrongPassword);
    AdmitKnownClient(t3, ip, 3000);
    assert t4[ip] == Snapshot(4, 2000, 0);
    var (t5, r5) := LoginStep(t4, ip, 4000, true, WrongPassword);
    AdmitKnownClient(t4, ip, 4000);
    assert Pow2(4) == 16 by { assert Pow2(3) == 8; }
    assert t5[ip] == Snapshot(5, 4000, 0);
    var (t6, r6) := LoginStep(t5, ip, 5000, true, Verified);
    AdmitKnownClient(t5, ip, 5000);
    assert t6[ip] == Snapshot(6, 4000, 0);
    AdmitKnownClient(t6, ip, 20000);
  }

  // ---------------------------------------------------------------------
  // Attempts admitted before any of them completes

  /** Attempts of a client whose record is live are numbered consecutively:
      no increment is lost or duplicated. */
  lemma {:induction false} BurstFromLiveRecord(t: Table, ip: string, now: int, n: nat)
    requires ip in t && !IsStale(t[ip], now)
    ensures forall i :: 0 <= i < n ==> BurstCounts(t, ip, now, n)[i] == t[ip].count + 1 + i
    decreases n
  {
    if n > 0 {
      var t1 := Admit(t, ip, now);
      AdmitKnownClient(t, ip, now);
      BurstFromLiveRecord(t1, ip, now, n - 1);
    }
  }

  /** `n` simultaneous attempts of a client without a record are numbered
      1 to `n`. */
  lemma BurstFromNewClient(t: Table, ip: string, now: int, n: nat)
    requires ip !in t
    ensures forall i :: 0 <= i < n ==> BurstCounts(t, ip, now, n)[i] == i + 1
  {
    if n > 0 {
      AdmitNewClient(t, ip, now);
      BurstFromLiveRecord(Admit(t, ip, now), ip, now, n - 1);
    }
  }

  /** A record whose window has expired but which is not idle restarts once:
      the burst is numbered 1 to `n`. */
  lemma BurstFromExpiredWindow(t: Table, ip: string, now: int, n: nat)
    requires ip in t && now - t[ip].windowStart > WindowMs && now - t[ip].lastAttempt <= IdleResetMs
    ensures forall i :: 0 <= i < n ==> BurstCounts(t, ip, now, n)[i] == i + 1
  {
    if n > 0 {
      AdmitKnownClient(t, ip, now);
      BurstFromLiveRecord(Admit(t, ip, now), ip, now, n - 1);
    }
  }

  /** A burst of two or more attempts is numbered consecutively exactly when
      the client's record, if any, is not idle for longer than the timeout. */
  lemma BurstConsecutiveUnlessIdle(t: Table, ip: string, now: int, n: nat)
    requires n >= 2
    ensures (forall i :: 0 <= i < n ==> BurstCounts(t, ip, now, n)[i] == BurstCounts(t, ip, now, n)[0] + i)
            <==> !(ip in t && now - t[ip].lastAttempt > IdleResetMs)
  {
    if ip !in t {
      BurstFromNewClient(t, ip, now, n);
    } else if now - t[ip].lastAttempt > IdleResetMs {
      BurstFromIdleRecord(t, ip, now, n);
      assert BurstCounts(t, ip, now, n)[1] != BurstCounts(t, ip, now, n)[0] + 1;
    } else if now - t[ip].windowStart > WindowMs {
      BurstFromExpiredWindow(t, ip, now, n);
    } else {
      BurstFromLiveRecord(t, ip, now, n);
    }
  }

  lemma {:induction false} ProceedCountOfRun(counts: seq<nat>, captchas: seq<bool>, base: nat)
    requires |counts| == |captchas|
    requires forall i :: 0 <= i < |counts| ==> counts[i] == base + i
    ensures ProceedCount(counts, captchas) <= if base > LockThreshold then 0 else LockThreshold + 1 - base
  {
    if counts != [] {
      ProceedCountOfRun(counts[1..], captchas[1..], base + 1);
    }
  }

  /** Of any number of simultaneous attempts by a new client, at most five
      reach the credential check, whatever captchas they carry. */
  lemma BurstFromNewClientProceedsAtMostFive(t: Table, ip: string, now: int, captchas: seq<bool>)
    requires ip !in t
    ensures ProceedCount(BurstCounts(t, ip, now, |captchas|), captchas) <= LockThreshold
  {
    BurstFromNewClient(t, ip, now, |captchas|);
    ProceedCountOfRun(BurstCounts(t, ip, now, |captchas|), captchas, 1);
  }

  /** Admission never updates `lastAttempt`, so a record idle for more than
      ten seconds stays idle, and every attempt of the burst restarts the
      count and is numbered 1. */
  lemma {:induction false} BurstFromIdleRecord(t: Table, ip: string, now: int, n: nat)
    requires ip in t && now - t[ip].lastAttempt > IdleResetMs
    ensures forall i :: 0 <= i < n ==> BurstCounts(t, ip, now, n)[i] == 1
    decreases n
  {
    if n > 0 {
      AdmitKnownClient(t, ip, now);
      BurstFromIdleRecord(Admit(t, ip, now), ip, now, n - 1);
    }
  }

  lemma {:induction false} ProceedCountOfOnes(counts: seq<nat>, captchas: seq<bool>)
    requires |counts| == |captchas|
    requires forall i :: 0 <= i < |counts| ==> counts[i] == 1
    ensures ProceedCount(counts, captchas) == |counts|
  {
    if counts != [] {
      ProceedCountOfOnes(counts[1..], captchas[1..]);
    }
  }

  /** Hence every attempt of a simultaneous burst from a client idle for more
      than ten seconds reaches the credential check, without any captcha:
      the five-attempt limit does not hold for such bursts. */
  lemma BurstFromIdleRecordAllProceed(t: Table, ip: string, now: int, captchas: seq<bool>)
    requires ip in t && now - t[ip].lastAttempt > IdleResetMs
    ensures ProceedCount(BurstCounts(t, ip, now, |captchas|), captchas) == |captchas|
  {
    BurstFromIdleRecord(t, ip, now, |captchas|);
    ProceedCountOfOnes(BurstCounts(t, ip, now, |captchas|), captchas);
  }
}
