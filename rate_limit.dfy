/** The throttling of back/security.py: `check_rate`, `check_login` and
    `cleanup_rate_db` over the `requests`, `blocks` and `login_failures`
    tables. The tables are fields of `RateDb`; the clock (`time.time()`) is a
    parameter `now` in whole seconds. */
module RateLimit {

  /** The status of every throttling rejection. */
  const TooManyRequests: int := 429

  /** How long `check_rate` blocks an address that sent twice its limit. */
  const RateBlockSeconds: int := 600

  /** The window, threshold and block time of `check_login`. */
  const LoginWindow: int := 300
  const LoginMaxFailures: nat := 5
  const LoginBlockSeconds: int := 900

  /** How old a row may get before `cleanup_rate_db` deletes it. */
  const Retention: int := 3600

  /** A row of `requests`. */
  datatype Request = Request(ip: string, endpoint: string, time: int)

  /** A row of `login_failures`. */
  datatype Failure = Failure(ip: string, time: int)

  /** An entry of `RATE_LIMITS`: at most `count` requests per `window` seconds. */
  datatype Limit = Limit(count: nat, window: nat)

  /** What a check does: let the request through, or raise with `status`. */
  datatype Verdict = Pass | Refuse(status: int)

  /** `RATE_LIMITS.get(endpoint, RATE_LIMITS["general"])`. */
  function LimitOf(endpoint: string): (l: Limit)
    ensures l.count > 0 && l.window > 0
  {
    if endpoint == "ask" then Limit(20, 60)
    else if endpoint == "login" then Limit(5, 300)
    else Limit(60, 60)
  }

  /** `DELETE FROM requests WHERE timestamp < cutoff`, as written: rows of
      every endpoint go. */
  function PruneAll(rs: seq<Request>, cutoff: int): (r: seq<Request>)
    ensures forall x :: x in r <==> x in rs && x.time >= cutoff
  {
    if rs == [] then []
    else
      var rest := PruneAll(rs[..|rs| - 1], cutoff);
      var x := rs[|rs| - 1];
      if x.time < cutoff then rest else rest + [x]
  }

  /** The deletion restricted to the endpoint being checked, whose window
      the cutoff belongs to. */
  function Prune(rs: seq<Request>, endpoint: string, cutoff: int): (r: seq<Request>)
    ensures forall x :: x in r <==> x in rs && (x.endpoint != endpoint || x.time >= cutoff)
  {
    if rs == [] then []
    else
      var rest := Prune(rs[..|rs| - 1], endpoint, cutoff);
      var x := rs[|rs| - 1];
      if x.endpoint == endpoint && x.time < cutoff then rest else rest + [x]
  }

  /** `SELECT COUNT(*) FROM requests WHERE ip=? AND endpoint=?`. */
  function CountOf(rs: seq<Request>, ip: string, endpoint: string): nat
  {
    if rs == [] then 0
    else CountOf(rs[..|rs| - 1], ip, endpoint) + (if rs[|rs| - 1].ip == ip && rs[|rs| - 1].endpoint == endpoint then 1 else 0)
  }

  /** `SELECT COUNT(*)` of the rows of `ip` and `endpoint` from `since` on. */
  function RecentOf(rs: seq<Request>, ip: string, endpoint: string, since: int): nat
  {
    if rs == [] then 0
    else
      var x := rs[|rs| - 1];
      RecentOf(rs[..|rs| - 1], ip, endpoint, since) + (if x.ip == ip && x.endpoint == endpoint && x.time >= since then 1 else 0)
  }

  /** `DELETE FROM login_failures WHERE timestamp < cutoff`. */
  function PruneFailures(fs: seq<Failure>, cutoff: int): (r: seq<Failure>)
    ensures forall x :: x in r <==> x in fs && x.time >= cutoff
  {
    if fs == [] then []
    else
      var rest := PruneFailures(fs[..|fs| - 1], cutoff);
      if fs[|fs| - 1].time < cutoff then rest else rest + [fs[|fs| - 1]]
  }

  /** `DELETE FROM login_failures WHERE ip=?`. */
  function DropFailures(fs: seq<Failure>, ip: string): (r: seq<Failure>)
    ensures forall x :: x in r <==> x in fs && x.ip != ip
  {
    if fs == [] then []
    else
      var rest := DropFailures(fs[..|fs| - 1], ip);
      if fs[|fs| - 1].ip == ip then rest else rest + [fs[|fs| - 1]]
  }

  /** `SELECT COUNT(*) FROM login_failures WHERE ip=?`. */
  function FailuresOf(fs: seq<Failure>, ip: string): nat
  {
    if fs == [] then 0
    else FailuresOf(fs[..|fs| - 1], ip) + (if fs[|fs| - 1].ip == ip then 1 else 0)
  }

  /** `DELETE FROM blocks WHERE unblock_time < now`. */
  function LiftedBlocks(blocks: map<string, int>, now: int): (r: map<string, int>)
    ensures forall ip :: ip in r <==> ip in blocks && blocks[ip] >= now
    ensures forall ip :: ip in r ==> r[ip] == blocks[ip]
  {
    map ip | ip in blocks && blocks[ip] >= now :: blocks[ip]
  }

  /** The three tables. */
  datatype Tables = Tables(requests: seq<Request>, blocks: map<string, int>, failures: seq<Failure>)

  /** `ip` is blocked at `now`. */
  predicate Blocked(t: Tables, ip: string, now: int)
  {
    ip in t.blocks && now < t.blocks[ip]
  }

  /** The tables and the verdict after `check_rate(ip, endpoint)` at `now`,
      with the deletion of old requests restricted to `endpoint`. */
  function RateAfter(t: Tables, ip: string, endpoint: string, now: int): (Tables, Verdict)
  {
    if Blocked(t, ip, now) then (t, Refuse(TooManyRequests))
    else
      var blocks := if ip in t.blocks then t.blocks - {ip} else t.blocks;
      var l := LimitOf(endpoint);
      var rs := Prune(t.requests, endpoint, now - l.window);
      var n := CountOf(rs, ip, endpoint);
      if n >= l.count then
        (Tables(rs, if n >= 2 * l.count then blocks[ip := now + RateBlockSeconds] else blocks, t.failures),
         Refuse(TooManyRequests))
      else (Tables(rs + [Request(ip, endpoint, now)], blocks, t.failures), Pass)
  }

  /** The tables and the verdict after `check_login(ip, success)` at `now`. */
  function LoginAfter(t: Tables, ip: string, success: bool, now: int): (Tables, Verdict)
  {
    if success then (t.(failures := DropFailures(t.failures, ip)), Pass)
    else
      var fs := PruneFailures(t.failures, now - LoginWindow);
      if FailuresOf(fs, ip) >= LoginMaxFailures then
        (Tables(t.requests, t.blocks[ip := now + LoginBlockSeconds], fs), Refuse(TooManyRequests))
      else (t.(failures := fs + [Failure(ip, now)]), Pass)
  }

  /** The tables after `cleanup_rate_db()` at `now`. */
  function CleanupAfter(t: Tables, now: int): Tables
  {
    Tables(PruneAll(t.requests, now - Retention), LiftedBlocks(t.blocks, now), PruneFailures(t.failures, now - Retention))
  }

  lemma {:induction false} CountOfAppend(rs: seq<Request>, x: Request, ip: string, endpoint: string)
    ensures CountOf(rs + [x], ip, endpoint) == CountOf(rs, ip, endpoint) + (if x.ip == ip && x.endpoint == endpoint then 1 else 0)
  {
    assert (rs + [x])[..|rs|] == rs;
  }

  lemma RemoveAbsent(m: map<string, int>, k: string)
    requires k !in m
    ensures m - {k} == m
  {
    assert (m - {k}).Keys == m.Keys;
  }

  /** `check_rate` on a blocked address: refused, and nothing changes. */
  lemma RateBlocked(t: Tables, ip: string, endpoint: string, now: int)
    requires Blocked(t, ip, now)
    ensures RateAfter(t, ip, endpoint, now) == (t, Refuse(TooManyRequests))
  {
  }

  /** `check_rate` on an address that is not blocked: an expired block is
      lifted; at its limit the address is refused without a new row, and
      blocked for 600 s when at twice its limit; otherwise exactly one row
      is added, after which the address has at most its limit of rows for
      the endpoint. The login failures never change. */
  lemma RateUnblocked(t: Tables, ip: string, endpoint: string, now: int)
    requires !Blocked(t, ip, now)
    ensures var r := RateAfter(t, ip, endpoint, now);
      var l := LimitOf(endpoint);
      var rs := Prune(t.requests, endpoint, now - l.window);
      var n := CountOf(rs, ip, endpoint);
      && r.0.failures == t.failures
      && (r.1 == Pass <==> n < l.count)
      && (n >= l.count ==>
            && r.1 == Refuse(TooManyRequests)
            && r.0.requests == rs
            && r.0.blocks == if n >= 2 * l.count then t.blocks[ip := now + RateBlockSeconds] else t.blocks - {ip})
      && (n < l.count ==>
            && r.0.requests == rs + [Request(ip, endpoint, now)]
            && r.0.blocks == t.blocks - {ip}
            && CountOf(r.0.requests, ip, endpoint) == n + 1 <= l.count)
  {
    var l := LimitOf(endpoint);
    var rs := Prune(t.requests, endpoint, now - l.window);
    if ip !in t.blocks {
      RemoveAbsent(t.blocks, ip);
    }
    CountOfAppend(rs, Request(ip, endpoint, now), ip, endpoint);
  }

  /** Unknown endpoints share the limits of "general". */
  lemma UnknownEndpointIsGeneral(endpoint: string)
    requires endpoint != "ask" && endpoint != "login"
    ensures LimitOf(endpoint) == LimitOf("general") == Limit(60, 60)
  {
  }

  lemma {:induction false} FailuresOfAppend(fs: seq<Failure>, x: Failure, ip: string)
    ensures FailuresOf(fs + [x], ip) == FailuresOf(fs, ip) + (if x.ip == ip then 1 else 0)
  {
    assert (fs + [x])[..|fs|] == fs;
  }

  lemma {:induction false} DropFailuresNone(fs: seq<Failure>, ip: string)
    ensures FailuresOf(DropFailures(fs, ip), ip) == 0
    decreases |fs|
  {
    if fs != [] {
      var rest := DropFailures(fs[..|fs| - 1], ip);
      DropFailuresNone(fs[..|fs| - 1], ip);
      FailuresOfAppend(rest, fs[|fs| - 1], ip);
    }
  }

  /** `check_login`: a success clears that address's failures and nothing
      else; a failure with five or more failures of the address in the last
      300 s blocks it for 900 s and is refused without a new row; any other
      failure records exactly one row. Requests never change. */
  lemma LoginAfterCorrect(t: Tables, ip: string, success: bool, now: int)
    ensures var (t', v) := LoginAfter(t, ip, success, now);
      var fs := PruneFailures(t.failures, now - LoginWindow);
      && t'.requests == t.requests
      && (success ==>
            && v == Pass && t'.blocks == t.blocks
            && FailuresOf(t'.failures, ip) == 0
            && (forall x :: x in t'.failures <==> x in t.failures && x.ip != ip))
      && (!success && FailuresOf(fs, ip) >= LoginMaxFailures ==>
            && v == Refuse(TooManyRequests)
            && t'.blocks == t.blocks[ip := now + LoginBlockSeconds]
            && t'.failures == fs)
      && (!success && FailuresOf(fs, ip) < LoginMaxFailures ==>
            && v == Pass && t'.blocks == t.blocks
            && t'.failures == fs + [Failure(ip, now)]
            && FailuresOf(t'.failures, ip) == FailuresOf(fs, ip) + 1 <= LoginMaxFailures)
  {
    DropFailuresNone(t.failures, ip);
    FailuresOfAppend(PruneFailures(t.failures, now - LoginWindow), Failure(ip, now), ip);
  }

  /** `cleanup_rate_db`: exactly the rows older than an hour and the blocks
      that have run out go; the rest stays. */
  lemma CleanupCorrect(t: Tables, now: int)
    ensures var t' := CleanupAfter(t, now);
      && (forall x :: x in t'.requests <==> x in t.requests && x.time >= now - Retention)
      && (forall x :: x in t'.failures <==> x in t.failures && x.time >= now - Retention)
      && (forall ip :: ip in t'.blocks <==> ip in t.blocks && t.blocks[ip] >= now)
      && (forall ip :: ip in t'.blocks ==> t'.blocks[ip] == t.blocks[ip])
      && (forall ip :: Blocked(t, ip, now) ==> Blocked(t', ip, now))
  {
  }

  // ------------------------------------------------------- the finding

  /** `check_rate` as written: the old-row deletion takes rows of every
      endpoint older than the window of the endpoint being checked. */
  function RateAfterAsWritten(t: Tables, ip: string, endpoint: string, now: int): (Tables, Verdict)
  {
    if Blocked(t, ip, now) then (t, Refuse(TooManyRequests))
    else
      var blocks := if ip in t.blocks then t.blocks - {ip} else t.blocks;
      var l := LimitOf(endpoint);
      var rs := PruneAll(t.requests, now - l.window);
      var n := CountOf(rs, ip, endpoint);
      if n >= l.count then
        (Tables(rs, if n >= 2 * l.count then blocks[ip := now + RateBlockSeconds] else blocks, t.failures),
         Refuse(TooManyRequests))
      else (Tables(rs + [Request(ip, endpoint, now)], blocks, t.failures), Pass)
  }

  /** Five login requests of one address at time 0. */
  const FiveLogins: seq<Request> := seq(5, _ => Request("a", "login", 0))

  /** `n` copies of one row count `n` times for its own address and
      endpoint and not at all for any other. */
  lemma {:induction false} CountOfCopies(x: Request, n: nat, ip: string, endpoint: string)
    ensures CountOf(seq(n, _ => x), ip, endpoint) == if x.ip == ip && x.endpoint == endpoint then n else 0
    decreases n
  {
    if n > 0 {
      var s := seq(n, _ => x);
      assert s[..n - 1] == seq(n - 1, _ => x);
      CountOfCopies(x, n - 1, ip, endpoint);
    }
  }

  lemma FiveLoginsCount()
    ensures CountOf(FiveLogins, "a", "login") == 5
    ensures CountOf(FiveLogins, "a", "general") == 0
  {
    CountOfCopies(Request("a", "login", 0), 5, "a", "login");
    CountOfCopies(Request("a", "login", 0), 5, "a", "general");
  }

  /** As written, an ordinary request 100 s after five logins deletes their
      rows, although they are inside the 300 s login window, and a sixth login
      attempt at 101 s passes the limit of five. */
  lemma SixthLoginPassesAsWritten()
    ensures var t0 := Tables(FiveLogins, map[], []);
      var r1 := RateAfterAsWritten(t0, "a", "general", 100);
      && r1.1 == Pass
      && RateAfterAsWritten(r1.0, "a", "login", 101).1 == Pass
  {
    GeneralPurgesAsWritten();
    LoginAfterPurgeAsWritten();
  }

  /** The ordinary request at 100 s removes all five login rows. */
  lemma GeneralPurgesAsWritten()
    ensures RateAfterAsWritten(Tables(FiveLogins, map[], []), "a", "general", 100) ==
      (Tables([Request("a", "general", 100)], map[], []), Pass)
  {
    assert forall x :: x in FiveLogins ==> x.time == 0;
    var p := PruneAll(FiveLogins, 40);
    PruneAllDropsAll(FiveLogins, 40);
    assert CountOf(p, "a", "general") == 0;
    assert p + [Request("a", "general", 100)] == [Request("a", "general", 100)];
  }

  /** A deletion older than every row empties the table. */
  lemma {:induction false} PruneAllDropsAll(rs: seq<Request>, cutoff: int)
    requires forall x :: x in rs ==> x.time < cutoff
    ensures PruneAll(rs, cutoff) == []
    decreases |rs|
  {
    if rs != [] {
      assert rs[|rs| - 1] in rs;
      PruneAllDropsAll(rs[..|rs| - 1], cutoff);
    }
  }

  /** Both deletions leave the same number of rows of the endpoint whose
      window the cutoff belongs to. */
  lemma {:induction false} PruneAllCount(rs: seq<Request>, endpoint: string, cutoff: int, ip: string)
    ensures CountOf(PruneAll(rs, cutoff), ip, endpoint) == CountOf(Prune(rs, endpoint, cutoff), ip, endpoint)
    decreases |rs|
  {
    if rs != [] {
      var init := rs[..|rs| - 1];
      var x := rs[|rs| - 1];
      PruneAllCount(init, endpoint, cutoff, ip);
      CountOfAppend(PruneAll(init, cutoff), x, ip, endpoint);
      CountOfAppend(Prune(init, endpoint, cutoff), x, ip, endpoint);
    }
  }

  /** The check as written and the restricted one agree on every verdict
      and on the blocks and login failures they leave; they differ only in
      the rows of other endpoints older than the window, which the written
      deletion drops and the restricted one keeps. */
  lemma RateAsWrittenAgrees(t: Tables, ip: string, endpoint: string, now: int)
    ensures var w := RateAfterAsWritten(t, ip, endpoint, now);
      var r := RateAfter(t, ip, endpoint, now);
      && w.1 == r.1
      && w.0.blocks == r.0.blocks
      && w.0.failures == r.0.failures
      && (forall x :: x in w.0.requests <==>
            x in r.0.requests && (Blocked(t, ip, now) || x.time >= now - LimitOf(endpoint).window))
  {
    PruneAllCount(t.requests, endpoint, now - LimitOf(endpoint).window, ip);
  }

  /** With only the ordinary row left, the login at 101 s counts none. */
  lemma LoginAfterPurgeAsWritten()
    ensures RateAfterAsWritten(Tables([Request("a", "general", 100)], map[], []), "a", "login", 101).1 == Pass
  {
    var rs := [Request("a", "general", 100)];
    var p := PruneAll(rs, 101 - 300);
    assert rs[..0] == [];
    assert p == rs;
    assert p[..0] == [];
    assert CountOf(p, "a", "login") == 0;
  }

  /** With the deletion restricted to the endpoint, the same sixth login is
      refused: the ordinary request leaves the login rows in place. */
  lemma SixthLoginRefused()
    ensures var t0 := Tables(FiveLogins, map[], []);
      var r1 := RateAfter(t0, "a", "general", 100);
      && r1.1 == Pass
      && RateAfter(r1.0, "a", "login", 101).1 == Refuse(TooManyRequests)
  {
    var t0 := Tables(FiveLogins, map[], []);
    FiveLoginsCount();
    assert forall x :: x in FiveLogins ==> x.endpoint == "login" && x.time == 0;
    PruneUntouched(FiveLogins, "general", 40);
    var rs := FiveLogins + [Request("a", "general", 100)];
    PruneUntouched(rs, "login", 101 - 300);
    CountOfAppend(FiveLogins, Request("a", "general", 100), "a", "login");
    CountOfAppend(FiveLogins, Request("a", "general", 100), "a", "general");
  }

  /** A deletion that matches no row leaves the table as it is. */
  lemma {:induction false} PruneUntouched(rs: seq<Request>, endpoint: string, cutoff: int)
    requires forall x :: x in rs ==> x.endpoint != endpoint || x.time >= cutoff
    ensures Prune(rs, endpoint, cutoff) == rs
    decreases |rs|
  {
    if rs != [] {
      var init := rs[..|rs| - 1];
      var x := rs[|rs| - 1];
      assert forall y :: y in init ==> y in rs;
      PruneUntouched(init, endpoint, cutoff);
      assert x in rs;
      assert Prune(rs, endpoint, cutoff) == Prune(init, endpoint, cutoff) + [x];
      assert init + [x] == rs;
    }
  }

  /** The restricted deletion never removes a row of another endpoint, and
      of its own endpoint only rows outside the window, so every row inside
      its endpoint's window survives any check. */
  lemma {:induction false} PruneKeepsWindows(rs: seq<Request>, endpoint: string, now: int, x: Request)
    requires x in rs && x.time >= now - LimitOf(x.endpoint).window
    ensures x in Prune(rs, endpoint, now - LimitOf(endpoint).window)
  {
  }

  /** `RecentOf` over the rows of an endpoint is not changed by a check of
      another endpoint. */
  lemma {:induction false} PruneOtherRecent(rs: seq<Request>, endpoint: string, cutoff: int, ip: string, e: string, since: int)
    requires e != endpoint
    ensures RecentOf(Prune(rs, endpoint, cutoff), ip, e, since) == RecentOf(rs, ip, e, since)
    decreases |rs|
  {
    if rs != [] {
      var init := rs[..|rs| - 1];
      var x := rs[|rs| - 1];
      PruneOtherRecent(init, endpoint, cutoff, ip, e, since);
      var p := Prune(init, endpoint, cutoff);
      if !(x.endpoint == endpoint && x.time < cutoff) {
        assert (p + [x])[..|p|] == p;
      }
    }
  }

  /** The tables as the SQLite file holds them. */
  class RateDb {
    var requests: seq<Request>
    var blocks: map<string, int>
    var failures: seq<Failure>

    function State(): Tables
      reads this
    {
      Tables(requests, blocks, failures)
    }

    /** The tables `_get_db` creates when the file does not exist yet. */
    constructor ()
      ensures State() == Tables([], map[], [])
    {
      requests, blocks, failures := [], map[], [];
    }

    /** `check_rate(ip, endpoint)` at `now`. */
    method CheckRate(ip: string, endpoint: string, now: int) returns (v: Verdict)
      modifies this
      ensures (State(), v) == RateAfter(old(State()), ip, endpoint, now)
    {
      if ip in blocks {
        if now < blocks[ip] {
          return Refuse(TooManyRequests);
        }
        blocks := blocks - {ip};
      }
      var l := LimitOf(endpoint);
      requests := Prune(requests, endpoint, now - l.window);
      var count := CountOf(requests, ip, endpoint);
      if count >= l.count {
        if count >= l.count * 2 {
          blocks := blocks[ip := now + RateBlockSeconds];
        }
        return Refuse(TooManyRequests);
      }
      requests := requests + [Request(ip, endpoint, now)];
      v := Pass;
    }

    /** `check_login(ip, success)` at `now`. */
    method CheckLogin(ip: string, success: bool, now: int) returns (v: Verdict)
      modifies this
      ensures (State(), v) == LoginAfter(old(State()), ip, success, now)
    {
      if success {
        failures := DropFailures(failures, ip);
        return Pass;
      }
      failures := PruneFailures(failures, now - LoginWindow);
      var count := FailuresOf(failures, ip);
      if count >= LoginMaxFailures {
        blocks := blocks[ip := now + LoginBlockSeconds];
        return Refuse(TooManyRequests);
      }
      failures := failures + [Failure(ip, now)];
      v := Pass;
    }

    /** `cleanup_rate_db()` at `now`. */
    method Cleanup(now: int)
      modifies this
      ensures State() == CleanupAfter(old(State()), now)
    {
      requests := PruneAll(requests, now - Retention);
      failures := PruneFailures(failures, now - Retention);
      blocks := LiftedBlocks(blocks, now);
    }
  }
}
