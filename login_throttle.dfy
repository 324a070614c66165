/** The attempt table of the authentication controller as the mutable state it
    is: one shared map from client IP to record objects whose fields are
    updated in place.

    A login is split at its first suspension point.  `BeginAttempt` is the
    uninterrupted part that runs before the user lookup; `FinishFailure` and
    `FinishSuccess` run when the credential check reports back, possibly after
    other attempts have run.  `FinishFailure` writes through the record the
    attempt obtained in `BeginAttempt`, which may by then have been removed
    from the table. */
module LoginThrottle {
  import opened ThrottlePolicy

  /** One client's attempt record. */
  class AttemptRecord {
    var count: nat
    var lastAttempt: int
    var windowStart: int

    /** A first attempt: no attempts counted yet, both timestamps now. */
    constructor (now: int)
      ensures Snap() == NewRecord(now)
    {
      count := 0;
      lastAttempt := now;
      windowStart := now;
    }

    function Snap(): Snapshot
      reads this
    {
      Snapshot(count, lastAttempt, windowStart)
    }
  }

  class FailedAttempts {
    /** The process-wide map from client IP to its record. */
    var entries: map<string, AttemptRecord>

    /** Every client has a record object of its own. */
    ghost predicate Valid()
      reads this
    {
      forall a, b :: a in entries && b in entries && a != b ==> entries[a] != entries[b]
    }

    /** The table as a value. */
    ghost function View(): Table
      reads this, entries.Values
    {
      map c | c in entries :: entries[c].Snap()
    }

    constructor ()
      ensures Valid() && entries == map[]
    {
      entries := map[];
    }

    /** The sweep over all entries that removes the other clients idle for
        more than ten seconds. */
    method EvictIdle(ip: string, now: int)
      requires Valid()
      modifies this
      ensures Valid()
      ensures View() == Evict(old(View()), ip, now)
      ensures forall c :: c in entries ==> c in old(entries) && entries[c] == old(entries[c])
      ensures ip in old(entries) ==> ip in entries
    {
      ghost var t0 := View();
      var pending := entries.Keys;
      while pending != {}
        invariant pending <= old(entries).Keys
        invariant forall c :: c in entries ==> c in old(entries) && entries[c] == old(entries[c])
        invariant forall c :: c in old(entries) ==> (c in entries <==> c in pending || !IsIdleOther(t0, c, ip, now))
        decreases pending
      {
        var c :| c in pending;
        if c != ip && now - entries[c].lastAttempt > IdleResetMs {
          entries := entries - {c};
        }
        pending := pending - {c};
      }
      assert View() == Evict(t0, ip, now);
    }

    /** The record of client `ip`, created with both timestamps now when the
        client has none. */
    method RecordFor(ip: string, now: int) returns (record: AttemptRecord)
      requires Valid()
      modifies this
      ensures Valid()
      ensures ip in entries && entries[ip] == record
      ensures ip in old(entries) ==> entries == old(entries) && record == old(entries[ip])
      ensures ip !in old(entries) ==> fresh(record) && entries == old(entries)[ip := record]
      ensures View() == if ip in old(View()) then old(View()) else old(View())[ip := NewRecord(now)]
    {
      if ip in entries {
        record := entries[ip];
      } else {
        record := new AttemptRecord(now);
        entries := entries[ip := record];
      }
    }

    /** Window reset and increment on the record of client `ip`. */
    method CountAttempt(ip: string, record: AttemptRecord, now: int) returns (k: nat)
      requires Valid()
      requires ip in entries && entries[ip] == record
      modifies record
      ensures Valid() && entries == old(entries)
      ensures var s := Refresh(old(record.Snap()), now);
              record.Snap() == s.(count := s.count + 1)
      ensures View() == old(View())[ip := record.Snap()]
      ensures k == record.count
    {
      if now - record.windowStart > WindowMs || now - record.lastAttempt > IdleResetMs {
        record.count := 0;
        record.windowStart := now;
      }
      record.count := record.count + 1;
      k := record.count;
      forall c | c in entries && c != ip
        ensures entries[c].Snap() == old(entries[c].Snap())
      {
        assert entries[c] != record;
      }
    }

    /** The part of a login before the user lookup: it obtains the client's
        record, sweeps idle clients, resets an expired window, counts the
        attempt and decides on the new count. */
    method BeginAttempt(ip: string, now: int, captchaPresent: bool) returns (record: AttemptRecord, k: nat, outcome: Outcome)
      requires Valid()
      modifies this, entries.Values
      ensures Valid()
      ensures View() == Admit(old(View()), ip, now)
      ensures ip in entries && entries[ip] == record
      ensures k == record.count && k == AdmittedCount(old(View()), ip, now)
      ensures outcome == Decide(k, captchaPresent)
      ensures ip in old(entries) ==> record == old(entries[ip])
      ensures ip !in old(entries) ==> fresh(record)
      ensures forall c :: c in entries && c != ip ==> c in old(entries) && entries[c] == old(entries[c])
    {
      ghost var t0 := View();
      record := RecordFor(ip, now);
      ghost var t1 := View();
      EvictIdle(ip, now);
      ghost var t2 := View();
      assert t2[ip] == record.Snap();
      k := CountAttempt(ip, record, now);
      outcome := Decide(k, captchaPresent);
      assert t2 == Evict(if ip in t0 then t0 else t0[ip := NewRecord(now)], ip, now);
    }

    /** A failed credential check: stamps the attempt's record with the time
        of the attempt and yields the progressive delay for attempt `k`.  If
        the record has left the table meanwhile, the table does not change. */
    method FinishFailure(record: AttemptRecord, now: int, k: nat) returns (delayMs: nat)
      requires Valid()
      requires k >= 1
      modifies record
      ensures Valid() && entries == old(entries)
      ensures record.Snap() == old(record.Snap()).(lastAttempt := now)
      ensures delayMs == FailureDelayMs(k)
      ensures forall c :: c in entries && entries[c] == record ==> View()[c] == old(View())[c].(lastAttempt := now)
      ensures forall c :: c in entries && entries[c] != record ==> View()[c] == old(View())[c]
      ensures record !in entries.Values ==> View() == old(View())
    {
      record.lastAttempt := now;
      delayMs := FailureDelayMs(k);
    }

    /** A successful login removes the client's record. */
    method FinishSuccess(ip: string)
      requires Valid()
      modifies this
      ensures Valid()
      ensures entries == old(entries) - {ip}
      ensures View() == old(View()) - {ip}
    {
      entries := entries - {ip};
    }

    /** Forgets every client. */
    method ResetFailedAttempts()
      modifies this
      ensures Valid()
      ensures entries == map[] && View() == map[]
    {
      entries := map[];
    }

    /** A login whose three steps run back to back. */
    method Login(ip: string, now: int, captchaPresent: bool, verdict: Verdict) returns (reply: Reply)
      requires Valid()
      modifies this, entries.Values
      ensures Valid()
      ensures (View(), reply) == LoginStep(old(View()), ip, now, captchaPresent, verdict)
    {
      ghost var t0 := View();
      var record, k, outcome := BeginAttempt(ip, now, captchaPresent);
      ghost var t1 := View();
      match outcome {
        case TooManyAttempts =>
          reply := Reply(429, 0);
        case CaptchaRequired =>
          reply := Reply(400, 0);
        case Proceed =>
          match verdict {
            case QueryError =>
              reply := Reply(500, 0);
            case UnknownUser =>
              var delayMs := FinishFailure(record, now, k);
              reply := Reply(401, delayMs);
              assert View() == t1[ip := t1[ip].(lastAttempt := now)];
            case WrongPassword =>
              var delayMs := FinishFailure(record, now, k);
              reply := Reply(401, delayMs);
              assert View() == t1[ip := t1[ip].(lastAttempt := now)];
            case Verified =>
              FinishSuccess(ip);
              reply := Reply(200, 0);
          }
      }
    }
  }
}
