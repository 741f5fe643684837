/**
 The life of the Vault token: sleeping, looking the token up, renewing it and
 logging in again, on a clock that advances exactly by what is slept.
 */
module TokenLease {
  import opened Wrappers
  import opened Retry

  const SECOND: int := 1_000_000_000

  /** A lookup that failed or made no sense, or the seconds left and the renewable flag. */
  datatype Lookup = Unusable | Left(ttlSeconds: int, renewable: bool)

  /** A login or renewal that failed, or the lease it granted. */
  datatype Grant = Failed | Granted(ttlSeconds: int, renewable: bool)

  /** Answers for one turn of the loop; the logins go on until one succeeds. */
  datatype Round = Round(lookup: Lookup, renewal: Grant, logins: seq<Grant>)

  /** Two thirds of a lifetime in seconds, as a duration. */
  function TwoThirds(ttlSeconds: int): int
    requires ttlSeconds >= 0
  {
    ttlSeconds * SECOND * 2 / 3
  }

  /** The duration is the integral part of two thirds of so many billions of nanoseconds. */
  lemma TwoThirdsExactly(ttlSeconds: int)
    requires ttlSeconds >= 0
    ensures 3 * TwoThirds(ttlSeconds) <= 2 * ttlSeconds * 1_000_000_000 < 3 * TwoThirds(ttlSeconds) + 3
  {
  }

  predicate Usable(grant: Grant) { grant.Granted? && grant.ttlSeconds > 0 }

  /** The first login that granted a usable lease. */
  function FirstUsable(logins: seq<Grant>): (r: Option<Grant>)
    ensures r.None? <==> forall grant :: grant in logins ==> !Usable(grant)
    ensures r.Some? ==> Usable(r.value) && r.value in logins
    ensures r.Some? ==> exists i :: 0 <= i < |logins| && logins[i] == r.value && forall j :: 0 <= j < i ==>
              !Usable(logins[j])
  {
    if logins == [] then None
    else if Usable(logins[0]) then Some(logins[0])
    else FirstUsable(logins[1..])
  }

  /** One planned sleep, with what was known when it was planned. */
  datatype Sleep = Sleep(from: int, until: int, renewAt: int, grantedAt: int, granted: int, reportedBy: int,
                         ordinal: nat)

  /** The lookup said how long the token lives. */
  predicate Told(lookup: Lookup) { lookup.Left? && lookup.ttlSeconds > 0 }

  /** When renewal is due after this lookup: as planned, or two thirds into what was reported, if that is sooner. */
  function DueAt(sleep: Sleep, lookup: Lookup): int
    requires Told(lookup)
  {
    var reported := sleep.until + TwoThirds(lookup.ttlSeconds);
    if reported < sleep.renewAt then reported else sleep.renewAt
  }

  /** The token is known to live, and its renewal is not due yet: the lease goes on. */
  predicate GoesOn(sleep: Sleep, lookup: Lookup) {
    Told(lookup) && sleep.until < DueAt(sleep, lookup)
  }

  /** The new lease when it does not go on: the renewal if the token allows one and it succeeds, else a login. */
  function NextLease(round: Round): Option<Grant> {
    if Told(round.lookup) && round.lookup.renewable && Usable(round.renewal) then Some(round.renewal)
    else FirstUsable(round.logins)
  }

  /** The sleep lasts one check interval, or until the renewal time if that is sooner. */
  ghost predicate WellPlanned(sleep: Sleep, interval: int) {
    sleep.until == if sleep.renewAt - sleep.from < interval then sleep.renewAt else sleep.from + interval
  }

  /** What the sleep after a turn starts from: the same lease one sleep on, or a new lease at its start. */
  ghost predicate Follows(sleep: Sleep, round: Round, next: Sleep) {
    if GoesOn(sleep, round.lookup) then
      && next.from == sleep.until && next.renewAt == DueAt(sleep, round.lookup)
      && next.grantedAt == sleep.grantedAt && next.granted == sleep.granted && next.ordinal == sleep.ordinal + 1
      && next.reportedBy == sleep.until + TwoThirds(round.lookup.ttlSeconds)
    else
      && NextLease(round).Some? && Usable(NextLease(round).value)
      && next.from >= sleep.until && next.grantedAt == next.from && next.ordinal == 0
      && next.granted == NextLease(round).value.ttlSeconds
      && next.renewAt == next.reportedBy == next.from + TwoThirds(next.granted)
  }

  /**
   The sleep ends in time, and it is at most one more than the whole check
   intervals that two thirds of the lease can hold.
   */
  ghost predicate InTime(sleep: Sleep, interval: int) {
    && interval > 0 && sleep.granted > 0
    && sleep.from <= sleep.until <= sleep.grantedAt + TwoThirds(sleep.granted)
    && sleep.until <= sleep.reportedBy
    && sleep.ordinal <= TwoThirds(sleep.granted) / interval
  }

  /** The time that so many full check intervals take. */
  ghost function FullSleeps(sleeps: nat, interval: int): int {
    sleeps * interval
  }

  lemma OneMoreSleep(sleeps: nat, interval: int)
    ensures FullSleeps(sleeps + 1, interval) == FullSleeps(sleeps, interval) + interval
  {
  }

  lemma TwoThirdsIsPositive(ttlSeconds: int)
    requires ttlSeconds >= 0
    ensures TwoThirds(ttlSeconds) >= 0
  {
  }

  lemma SleepsFit(sleeps: nat, interval: int, budget: int)
    requires interval > 0 && FullSleeps(sleeps, interval) <= budget
    ensures sleeps <= budget / interval
  {
    var whole := budget / interval;
    assert budget == whole * interval + budget % interval;
    assert (whole + 1) * interval == whole * interval + interval;
    if whole < sleeps {
      Scaled(whole + 1, sleeps, interval);
    }
  }

  lemma {:induction false} Scaled(a: int, b: int, factor: int)
    requires a <= b && factor >= 0
    ensures a * factor <= b * factor
    decreases b - a
  {
    if a < b {
      Scaled(a + 1, b, factor);
    }
  }

  class TokenKeeper {
    const interval: int
    const retryInitial: int64
    const retryMax: int64
    var now: int
    var renewAt: int
    var renewable: bool
    /** When the lease was granted, for how long, and the sleeps since. */
    ghost var grantedAt: int
    ghost var granted: int
    ghost var sleeps: nat
    /** Two thirds into what the latest lookup since the grant reported. */
    ghost var reportedBy: int

    ghost predicate Valid()
      reads this
    {
      && interval > 0 && granted > 0
      && now <= renewAt <= grantedAt + TwoThirds(granted)
      && renewAt <= reportedBy
      && now == grantedAt + FullSleeps(sleeps, interval)
    }

    constructor (interval: int, retryInitial: int64, retryMax: int64, now: int, ttlSeconds: int, renewable: bool)
      requires interval > 0 && ttlSeconds > 0
      ensures Valid() && this.now == now && this.interval == interval && sleeps == 0
    {
      this.interval, this.retryInitial, this.retryMax := interval, retryInitial, retryMax;
      this.now := now;
      this.renewAt := now + TwoThirds(ttlSeconds);
      this.renewable := renewable;
      this.grantedAt, this.granted, this.sleeps := now, ttlSeconds, 0;
      this.reportedBy := now + TwoThirds(ttlSeconds);
    }

    /** leaseFromTTL, stored. */
    method Store(grant: Grant)
      requires Usable(grant) && interval > 0
      modifies this
      ensures Valid() && now == old(now) && sleeps == 0 && grantedAt == now && granted == grant.ttlSeconds
      ensures renewAt == reportedBy == now + TwoThirds(grant.ttlSeconds) && renewable == grant.renewable
    {
      TwoThirdsIsPositive(grant.ttlSeconds);
      renewable := grant.renewable;
      renewAt := now + TwoThirds(grant.ttlSeconds);
      grantedAt, granted, sleeps := now, grant.ttlSeconds, 0;
      reportedBy := renewAt;
    }

    /**
     Logs in until it succeeds, waiting a growing delay after each failure. The
     first usable login is the one that is stored. Ends unsuccessfully only when
     the answers run out, that is, when cancelled.
     */
    method ReauthenticateUntilSuccess(logins: seq<Grant>) returns (ok: bool)
      requires interval > 0
      modifies this
      ensures ok <==> FirstUsable(logins).Some?
      ensures ok ==> Valid() && sleeps == 0 && now >= old(now) && Holds(FirstUsable(logins).value)
    {
      var backoff := new Backoff(retryInitial, retryMax);
      for i := 0 to |logins|
        invariant backoff.Valid() && fresh(backoff)
        invariant FirstUsable(logins) == FirstUsable(logins[i..])
        invariant now >= old(now)
      {
        assert logins[i..][0] == logins[i] && logins[i..][1..] == logins[i + 1..];
        if Usable(logins[i]) {
          Store(logins[i]);
          return true;
        }
        var delay := backoff.Next();
        if delay > 0 {
          now := now + delay as int;
        }
      }
      assert logins[|logins|..] == [];
      return false;
    }

    /** The lease is this one, granted now. */
    ghost predicate Holds(grant: Grant)
      requires Usable(grant)
      reads this
    {
      && grantedAt == now && granted == grant.ttlSeconds && renewable == grant.renewable
      && renewAt == reportedBy == now + TwoThirds(grant.ttlSeconds)
    }

    /** The sleep that starts now, planned for one check interval or until the renewal time. */
    ghost function Planned(): Sleep
      reads this
    {
      var until := if renewAt - now < interval then renewAt else now + interval;
      Sleep(now, until, renewAt, grantedAt, granted, reportedBy, sleeps)
    }

    /**
     One turn of the loop. The planned sleep ends by two thirds of the granted
     lifetime and by two thirds of what the latest lookup reported. The lease
     goes on exactly when the lookup is usable and renewal is not due yet;
     otherwise it is replaced by a renewal or by a login.
     */
    method Turn(round: Round) returns (alive: bool, ghost sleep: Sleep)
      requires Valid()
      modifies this
      ensures sleep == old(Planned()) && WellPlanned(sleep, interval)
      ensures sleep.until <= old(grantedAt) + TwoThirds(old(granted))
      ensures sleep.until <= old(reportedBy)
      ensures sleep.from == old(now)
      ensures sleep.until == if old(renewAt) - old(now) < interval then old(renewAt) else old(now) + interval
      ensures round.lookup.Left? && round.lookup.ttlSeconds > 0
              && sleep.until < old(renewAt) && 0 < TwoThirds(round.lookup.ttlSeconds)
              ==> && alive && now == sleep.until && sleeps == old(sleeps) + 1
                  && grantedAt == old(grantedAt) && granted == old(granted)
                  && renewAt <= old(renewAt) && renewAt <= sleep.until + TwoThirds(round.lookup.ttlSeconds)
                  && renewAt in {old(renewAt), sleep.until + TwoThirds(round.lookup.ttlSeconds)}
      ensures alive <==> GoesOn(sleep, round.lookup) || NextLease(round).Some?
      ensures alive ==> Valid() && Follows(sleep, round, Planned())
      ensures GoesOn(sleep, round.lookup) ==> renewable == round.lookup.renewable
      ensures alive && !GoesOn(sleep, round.lookup) ==> Holds(NextLease(round).value)
    {
      hide TwoThirds, FullSleeps;
      OneMoreSleep(sleeps, interval);
      var wait := interval;
      var untilRenewal := renewAt - now;
      if untilRenewal < wait {
        wait := untilRenewal;
      }
      if wait < 0 {
        wait := 0;
      }
      sleep := Planned();
      now := now + wait;
      if round.lookup.Unusable? || round.lookup.ttlSeconds <= 0 {
        alive := ReauthenticateUntilSuccess(round.logins);
        return;
      }
      renewable := round.lookup.renewable;
      var lookupRenewAt := now + TwoThirds(round.lookup.ttlSeconds);
      if lookupRenewAt < renewAt {
        renewAt := lookupRenewAt;
      }
      if now < renewAt {
        reportedBy := lookupRenewAt;
        sleeps := sleeps + 1;
        return true, sleep;
      }
      if !renewable {
        alive := ReauthenticateUntilSuccess(round.logins);
        return;
      }
      if Usable(round.renewal) {
        Store(round.renewal);
        return true, sleep;
      }
      alive := ReauthenticateUntilSuccess(round.logins);
    }

    /**
     The whole lifecycle, until cancelled. Every sleep keeps the token inside
     two thirds of its lease and of the latest report, and the sleeps under one
     lease fit its two thirds. Each sleep starts where the turn before left off,
     so a lease is replaced only after an unusable lookup or when renewal is due.
     */
    method RunTokenLifecycle(rounds: seq<Round>) returns (ghost log: seq<Sleep>)
      requires Valid()
      modifies this
      ensures forall sleep :: sleep in log ==> InTime(sleep, interval)
      ensures |log| <= |rounds| && forall i :: 0 <= i < |log| ==> WellPlanned(log[i], interval)
      ensures log != [] ==> log[0] == old(Planned())
      ensures forall i :: 0 <= i < |log| - 1 ==> Follows(log[i], rounds[i], log[i + 1])
      ensures |log| == |rounds|
              || (0 < |log| < |rounds| && forall grant :: grant in rounds[|log| - 1].logins ==> !Usable(grant))
    {
      hide TwoThirds, FullSleeps, Follows, WellPlanned;
      log := [];
      for i := 0 to |rounds|
        invariant |log| == i
        invariant Valid()
        invariant forall sleep :: sleep in log ==> InTime(sleep, interval)
        invariant forall j :: 0 <= j < i ==> WellPlanned(log[j], interval)
        invariant if i == 0 then Planned() == old(Planned())
                  else log[0] == old(Planned()) && Follows(log[i - 1], rounds[i - 1], Planned())
        invariant forall j :: 0 <= j < i - 1 ==> Follows(log[j], rounds[j], log[j + 1])
      {
        SleepsFit(sleeps, interval, TwoThirds(granted));
        var alive;
        ghost var sleep;
        alive, sleep := Turn(rounds[i]);
        log := log + [sleep];
        if !alive {
          return;
        }
      }
    }
  }
}
