/** The brute-force login guard: an in-memory log of failed logins, each
    stored under a random key together with the client IP and its time. A
    check first sweeps the records older than the ban window and then counts
    what is left for the IP; five or more in-window failures mean "banned".
    Times are integers in seconds and `now` is supplied by the caller. */
module BruteForce {
  import opened Sets

  /** maxLoginFails: the number of in-window failures that bans an IP. */
  const MaxLoginFails: nat := 5

  /** maxLoginsMinutes: the ban window, here in seconds. */
  const MaxLoginsMinutes: nat := 20
  const Window: nat := MaxLoginsMinutes * 60

  /** failedAccess */
  datatype FailedAccess = FailedAccess(ip: string, accessTime: int)

  type AccessLog = map<string, FailedAccess>

  /** A record is swept when its time is strictly before now minus the window
      (time.Time.Before). */
  predicate Stale(fa: FailedAccess, now: int) {
    fa.accessTime < now - Window
  }

  /** The log as cleanOldAccessLogs leaves it. */
  function Cleaned(log: AccessLog, now: int): AccessLog {
    map k | k in log && !Stale(log[k], now) :: log[k]
  }

  /** The keys of the records that belong to `ip`. */
  function KeysOf(log: AccessLog, ip: string): set<string> {
    set k | k in log && log[k].ip == ip
  }

  /** The number of records for `ip`. */
  function FailCount(log: AccessLog, ip: string): nat {
    |KeysOf(log, ip)|
  }

  /** The ban decision of Banned, as a function of the log before the sweep. */
  predicate IsBanned(log: AccessLog, ip: string, now: int) {
    FailCount(Cleaned(log, now), ip) >= MaxLoginFails
  }

  /** The counting loop of Banned: how many records of `log` carry `ip`. */
  method CountFailures(log: AccessLog, ip: string) returns (failCount: nat)
    ensures failCount == FailCount(log, ip)
  {
    failCount := 0;
    var todo := log.Keys;
    while todo != {}
      invariant todo <= log.Keys
      invariant failCount == |KeysOf(log, ip) - todo|
      decreases |todo|
    {
      var k :| k in todo;
      if log[k].ip == ip {
        assert KeysOf(log, ip) - (todo - {k}) == (KeysOf(log, ip) - todo) + {k};
        failCount := failCount + 1;
      } else {
        assert KeysOf(log, ip) - (todo - {k}) == KeysOf(log, ip) - todo;
      }
      todo := todo - {k};
    }
  }

  /** The process-wide accessLog map and the operations on it. */
  class Guard {
    var accessLog: AccessLog

    constructor ()
      ensures accessLog == map[]
    {
      accessLog := map[];
    }

    /** RecordFailedLogin: the record {ip, now} is stored under `key`, the
        random key the caller drew; a key already in use is overwritten. */
    method RecordFailedLogin(ip: string, now: int, key: string)
      modifies this
      ensures accessLog == old(accessLog)[key := FailedAccess(ip, now)]
    {
      accessLog := accessLog[key := FailedAccess(ip, now)];
    }

    /** cleanOldAccessLogs: deletes, one key at a time, every stale record. */
    method CleanOldAccessLogs(now: int)
      modifies this
      ensures accessLog == Cleaned(old(accessLog), now)
    {
      ghost var log0 := accessLog;
      var todo := accessLog.Keys;
      while todo != {}
        invariant todo <= log0.Keys
        invariant accessLog == map k | k in log0 && (k in todo || !Stale(log0[k], now)) :: log0[k]
        decreases |todo|
      {
        var k :| k in todo;
        if Stale(accessLog[k], now) {
          accessLog := accessLog - {k};
        }
        todo := todo - {k};
      }
    }

    /** Banned: sweep, then count the records left for `ip`. */
    method Banned(ip: string, now: int) returns (banned: bool)
      modifies this
      ensures accessLog == Cleaned(old(accessLog), now)
      ensures banned <==> IsBanned(old(accessLog), ip, now)
    {
      CleanOldAccessLogs(now);
      var failCount := CountFailures(accessLog, ip);
      banned := failCount >= MaxLoginFails;
    }
  }

  // ---------------------------------------------------------------------------
  // Properties of the sweep
  // ---------------------------------------------------------------------------

  /** Cleaning only deletes: what is left is a sub-map of the log, and every
      record inside the window is kept unchanged. */
  lemma CleanedIsSubmap(log: AccessLog, now: int)
    ensures Cleaned(log, now).Keys <= log.Keys
    ensures forall k :: k in Cleaned(log, now) ==> Cleaned(log, now)[k] == log[k]
    ensures forall k :: k in log && log[k].accessTime >= now - Window ==> k in Cleaned(log, now)
  {
  }

  /** After the sweep no record is older than the window; a record exactly
      one window old survives, because the test is a strict "before". */
  lemma CleanedIsFresh(log: AccessLog, now: int)
    ensures forall k :: k in Cleaned(log, now) ==> Cleaned(log, now)[k].accessTime >= now - Window
    ensures forall k :: k in log && log[k].accessTime == now - Window ==> k in Cleaned(log, now)
  {
  }

  /** Sweeping twice at the same time is sweeping once. */
  lemma CleanedIdempotent(log: AccessLog, now: int)
    ensures Cleaned(Cleaned(log, now), now) == Cleaned(log, now)
  {
  }

  // ---------------------------------------------------------------------------
  // Properties of recording and counting
  // ---------------------------------------------------------------------------

  /** With a key not yet in use, recording a failure for `ip` raises its count
      by exactly one and leaves every other IP's count as it was. */
  lemma RecordAddsOne(log: AccessLog, key: string, ip: string, t: int, other: string)
    requires key !in log
    requires other != ip
    ensures FailCount(log[key := FailedAccess(ip, t)], ip) == FailCount(log, ip) + 1
    ensures FailCount(log[key := FailedAccess(ip, t)], other) == FailCount(log, other)
  {
    var log' := log[key := FailedAccess(ip, t)];
    assert KeysOf(log', ip) == KeysOf(log, ip) + {key};
    assert KeysOf(log', other) == KeysOf(log, other);
  }

  /** A failure recorded inside the window survives the sweep: the record
      adds one to the in-window count. */
  lemma RecordInWindowIsCounted(log: AccessLog, key: string, ip: string, t: int, now: int)
    requires key !in log && now - Window <= t
    ensures FailCount(Cleaned(log[key := FailedAccess(ip, t)], now), ip) ==
            FailCount(Cleaned(log, now), ip) + 1
  {
    var log' := log[key := FailedAccess(ip, t)];
    assert Cleaned(log', now) == Cleaned(log, now)[key := FailedAccess(ip, t)];
    RecordAddsOne(Cleaned(log, now), key, ip, t, ip + "?");
  }

  /** A failure recorded now is inside the window, so sweeping after recording
      keeps it: the record adds one to the in-window count. */
  lemma RecordNowIsCounted(log: AccessLog, key: string, ip: string, now: int)
    requires key !in log
    ensures FailCount(Cleaned(log[key := FailedAccess(ip, now)], now), ip) ==
            FailCount(Cleaned(log, now), ip) + 1
  {
    RecordInWindowIsCounted(log, key, ip, now, now);
  }

  /** Records of other IPs never influence the decision for `ip`. */
  lemma OtherIpsIrrelevant(log: AccessLog, log': AccessLog, ip: string, now: int)
    requires forall k :: k in log && log[k].ip == ip ==> k in log' && log'[k] == log[k]
    requires forall k :: k in log' && log'[k].ip == ip ==> k in log && log[k] == log'[k]
    ensures IsBanned(log, ip, now) <==> IsBanned(log', ip, now)
  {
    assert KeysOf(Cleaned(log, now), ip) == KeysOf(Cleaned(log', now), ip);
  }

  /** Recording a failure for `ip` at the current time can never lift a ban
      on `ip`, even when the random key collides with an existing record. */
  lemma RecordNeverUnbans(log: AccessLog, key: string, ip: string, now: int)
    requires IsBanned(log, ip, now)
    ensures IsBanned(log[key := FailedAccess(ip, now)], ip, now)
  {
    var log' := log[key := FailedAccess(ip, now)];
    var before := KeysOf(Cleaned(log, now), ip);
    var after := KeysOf(Cleaned(log', now), ip);
    assert before <= after;
    SubsetCard(before, after);
  }

  /** The fifth in-window failure bans; four do not. */
  lemma FifthFailureBans(log: AccessLog, key: string, ip: string, now: int)
    requires key !in log
    requires FailCount(Cleaned(log, now), ip) == MaxLoginFails - 1
    ensures !IsBanned(log, ip, now)
    ensures IsBanned(log[key := FailedAccess(ip, now)], ip, now)
  {
    RecordNowIsCounted(log, key, ip, now);
  }

  // ---------------------------------------------------------------------------
  // A run of failures from an empty log
  // ---------------------------------------------------------------------------

  /** The log left by recording failures for `ip`, the i-th at `times[i]`
      under `keys[i]`, starting from an empty log. */
  function Replay(keys: seq<string>, ip: string, times: seq<int>): AccessLog
    requires |keys| == |times|
  {
    if keys == [] then map[]
    else Replay(keys[..|keys| - 1], ip, times[..|times| - 1])[keys[|keys| - 1] := FailedAccess(ip, times[|times| - 1])]
  }

  lemma {:induction false} ReplayKeys(keys: seq<string>, ip: string, times: seq<int>)
    requires |keys| == |times|
    ensures Replay(keys, ip, times).Keys == set k | k in keys
  {
    if keys != [] {
      ReplayKeys(keys[..|keys| - 1], ip, times[..|times| - 1]);
      assert keys == keys[..|keys| - 1] + [keys[|keys| - 1]];
    }
  }

  /** n failures with distinct keys, all inside the window at `now`, leave
      exactly n countable records for the IP. */
  lemma {:induction false} ReplayCount(keys: seq<string>, ip: string, times: seq<int>, now: int)
    requires |keys| == |times|
    requires forall i, j :: 0 <= i < j < |keys| ==> keys[i] != keys[j]
    requires forall i :: 0 <= i < |times| ==> now - Window <= times[i]
    ensures FailCount(Cleaned(Replay(keys, ip, times), now), ip) == |keys|
  {
    if keys != [] {
      var n := |keys| - 1;
      var prefix, ptimes := keys[..n], times[..n];
      ReplayCount(prefix, ip, ptimes, now);
      ReplayKeys(prefix, ip, ptimes);
      assert forall i :: 0 <= i < n ==> prefix[i] == keys[i] != keys[n];
      assert keys[n] !in prefix;
      RecordInWindowIsCounted(Replay(prefix, ip, ptimes), keys[n], ip, times[n], now);
    }
  }

  /** Recording the threshold number of failures inside the window bans the
      IP; one fewer does not. */
  lemma ThresholdFromEmptyLog(keys: seq<string>, ip: string, times: seq<int>, now: int)
    requires |keys| == |times|
    requires forall i, j :: 0 <= i < j < |keys| ==> keys[i] != keys[j]
    requires forall i :: 0 <= i < |times| ==> now - Window <= times[i]
    ensures IsBanned(Replay(keys, ip, times), ip, now) <==> |keys| >= MaxLoginFails
  {
    ReplayCount(keys, ip, times, now);
  }
}
