/**
 The bootstrap's search for hosts that fetched their ignition (updateConfiguringStatus,
 verifyHostCanMoveToConfigurationStatus and filterAlreadyUpdatedHosts in src/installer/installer.go).
 */
module ConfiguringLoop {
  import opened Wrappers
  import opened Inventory

  /** What one poll meets: whether the hosts can be fetched, whether the logs can be read, which hosts
      are found in them and which reports are accepted. */
  datatype Answers = Answers(fetched: bool, logsRead: bool, inLogs: set<string>, accepted: set<string>)

  /** The hosts still to be found: those whose cached stage is before their ignition. */
  function Filtered(hosts: Hosts): Hosts {
    map n | n in hosts && !PastIgnition(hosts[n].stage, true) :: hosts[n]
  }

  method FilterAlreadyUpdatedHosts(hosts: Hosts) returns (left: Hosts)
    ensures left == Filtered(hosts)
  {
    left := hosts;
    var todo := hosts.Keys;
    while todo != {}
      invariant todo <= hosts.Keys
      invariant left == map n | n in hosts && (n in todo || !PastIgnition(hosts[n].stage, true))
                          :: hosts[n]
      decreases todo
    {
      var n :| n in todo;
      if hosts[n].stage in {Configuring, Joined, Done, WaitingForIgnition} {
        left := left - {n};
      }
      todo := todo - {n};
    }
  }

  /** The hosts a poll works with. */
  function Cached(self: string, cache: Option<Hosts>, service: Hosts, fetched: bool): Option<Hosts> {
    InventoryHosts(self, cache, if fetched then Some(service) else None)
  }

  /** The hosts on which a report is accepted in the poll. */
  function Reported(hosts: Hosts, service: Hosts, a: Answers): set<string> {
    if a.logsRead then Pulled(hosts, service.Keys, a.inLogs, a.accepted, true) else {}
  }

  /** One poll: the cache before and after it, the accepted reports, and whether the search is over. */
  ghost predicate PollStep(self: string, before: Option<Hosts>, service: Hosts, a: Answers,
                           log: seq<Report>, after: Option<Hosts>, done: bool)
  {
    var cached := Cached(self, before, service, a.fetched);
    if cached.None? then log == [] && after == None && !done
    else
      var hosts := cached.value;
      var reported := Reported(hosts, service, a);
      && ReportsOnce(log, hosts, reported, true)
      && after == Some(Filtered(Configured(hosts, reported, true)))
      && done == (|after.value| == 0)
  }

  class Search {
    const self: string
    var hosts: Option<Hosts>

    constructor (self: string)
      ensures this.self == self && hosts == None
    {
      this.self, hosts := self, None;
    }

    method Poll(service: AssistedService, a: Answers) returns (done: bool, ghost log: seq<Report>)
      requires Keyed(service.hosts) && (hosts.Some? ==> Keyed(hosts.value))
      modifies this, service
      ensures service.log == old(service.log) + log && Keyed(service.hosts)
      ensures PollStep(self, old(hosts), old(service.hosts), a, log, hosts, done)
      ensures hosts.Some? ==> Keyed(hosts.value)
    {
      log := [];
      hosts := GetInventoryHostsMap(self, hosts, if a.fetched then Some(service.hosts) else None);
      if hosts.None? {
        return false, log;
      }
      var updated;
      updated, log := VerifyHostCanMoveToConfigurationStatus(service, hosts.value, a);
      var left := FilterAlreadyUpdatedHosts(updated);
      hosts := Some(left);
      done := |left| == 0;
    }
  }

  method VerifyHostCanMoveToConfigurationStatus(service: AssistedService, hosts: Hosts, a: Answers)
    returns (updated: Hosts, ghost log: seq<Report>)
    requires Keyed(service.hosts) && Keyed(hosts)
    modifies service
    ensures service.log == old(service.log) + log && Keyed(service.hosts) && Keyed(updated)
    ensures var reported := Reported(hosts, old(service.hosts), a);
            updated == Configured(hosts, reported, true) && ReportsOnce(log, hosts, reported, true)
  {
    log := [];
    updated := hosts;
    if a.logsRead {
      updated := SetConfiguringStatusForHosts(service, hosts, a.inLogs, a.accepted, true);
      log := service.log[|old(service.log)|..];
    } else {
      assert updated == Configured(hosts, {}, true);
    }
  }

  // ---------------------------------------------------------------- what a poll promises

  lemma {:induction false} ReportsOnceLength(log: seq<Report>, hosts: Hosts, pulled: set<string>)
    requires ReportsOnce(log, hosts, pulled, true)
    ensures |log| == |pulled|
  {
    if |log| > 0 {
      ReportsOnceLength(log[..|log| - 1], hosts, pulled - {log[|log| - 1].name});
    }
  }

  /** `left` is part of the hosts that were fetched. */
  predicate PartOf(left: Hosts, hosts: Hosts) {
    forall n <- left :: n in hosts && left[n] == hosts[n]
  }

  function NotPast(hosts: Hosts): set<string> {
    set n | n in hosts && !PastIgnition(hosts[n].stage, true)
  }

  /** The hosts left are those not past their ignition that were not reported on, unchanged. */
  lemma LeftAfter(hosts: Hosts, reported: set<string>)
    requires reported <= NotPast(hosts)
    ensures var left := Filtered(Configured(hosts, reported, true));
            left.Keys == NotPast(hosts) - reported && PartOf(left, hosts)
  {
  }

  lemma LeftIsSmaller(left: set<string>, reported: set<string>, hosts: set<string>)
    requires left !! reported && left + reported <= hosts
    ensures |left| + |reported| <= |hosts|
  {
    assert |left + reported| == |left| + |reported|;
    SubsetSize(left + reported, hosts);
  }

  lemma ReportedIsNotPast(hosts: Hosts, service: Hosts, a: Answers)
    ensures Reported(hosts, service, a) <= NotPast(hosts)
  {
  }

  lemma LeftShrinks(hosts: Hosts, reported: set<string>, log: seq<Report>)
    requires ReportsOnce(log, hosts, reported, true) && reported <= NotPast(hosts)
    ensures |Filtered(Configured(hosts, reported, true))| + |log| <= |hosts|
  {
    ReportsOnceLength(log, hosts, reported);
    LeftAfter(hosts, reported);
    var left := Filtered(Configured(hosts, reported, true)).Keys;
    LeftIsSmaller(left, reported, hosts.Keys);
  }

  /** The hosts a poll leaves are those it started with, unchanged, less the ones past their ignition
      and the ones it reported on; so every accepted report makes the map smaller. */
  lemma PollShrinks(self: string, before: Option<Hosts>, service: Hosts, a: Answers, log: seq<Report>,
                    after: Option<Hosts>, done: bool)
    requires PollStep(self, before, service, a, log, after, done)
    requires Cached(self, before, service, a.fetched).Some?
    ensures var hosts := Cached(self, before, service, a.fetched).value;
            && after.Some? && PartOf(after.value, hosts)
            && after.value.Keys == NotPast(hosts) - Reported(hosts, service, a)
            && |after.value| + |log| <= |hosts|
  {
    var hosts := Cached(self, before, service, a.fetched).value;
    var reported := Reported(hosts, service, a);
    ReportedIsNotPast(hosts, service, a);
    LeftAfter(hosts, reported);
    LeftShrinks(hosts, reported, log);
  }

  /** A poll ends the search exactly when the stage of every host it works with is past its ignition. */
  lemma PollEndsWhenPast(self: string, before: Option<Hosts>, service: Hosts, a: Answers,
                        log: seq<Report>, after: Option<Hosts>, done: bool)
    requires PollStep(self, before, service, a, log, after, done)
    requires Cached(self, before, service, a.fetched).Some?
    ensures var hosts := Cached(self, before, service, a.fetched).value;
            var updated := Configured(hosts, Reported(hosts, service, a), true);
            done <==> forall n <- hosts :: PastIgnition(updated[n].stage, true)
  {
    var hosts := Cached(self, before, service, a.fetched).value;
    var updated := Configured(hosts, Reported(hosts, service, a), true);
    if done {
      assert after.value.Keys == {};
      forall n | n in hosts
        ensures PastIgnition(updated[n].stage, true)
      {
        assert n !in after.value.Keys;
      }
    } else {
      var n :| n in after.value;
      assert !PastIgnition(updated[n].stage, true);
    }
  }

  // ---------------------------------------------------------------- whole searches

  /** A poll of a search, the service as it was then, and the reports that were accepted. */
  datatype Round = Round(service: Hosts, answers: Answers, log: seq<Report>, after: Option<Hosts>,
                         done: bool)

  function CacheAfter(rounds: seq<Round>): Option<Hosts> {
    if |rounds| == 0 then None else rounds[|rounds| - 1].after
  }

  ghost predicate Run(self: string, rounds: seq<Round>) {
    |rounds| > 0 ==>
      var last := rounds[|rounds| - 1];
      && Run(self, rounds[..|rounds| - 1])
      && PollStep(self, CacheAfter(rounds[..|rounds| - 1]), last.service, last.answers, last.log,
                  last.after, last.done)
  }

  function TotalLog(rounds: seq<Round>): seq<Report> {
    if |rounds| == 0 then []
    else TotalLog(rounds[..|rounds| - 1]) + rounds[|rounds| - 1].log
  }

  /** The hosts as they were fetched, once they have been. */
  function Fetched(self: string, rounds: seq<Round>): Option<Hosts> {
    if |rounds| == 0 then None
    else
      var before := Fetched(self, rounds[..|rounds| - 1]);
      var last := rounds[|rounds| - 1];
      if before.Some? then before else Cached(self, None, last.service, last.answers.fetched)
  }

  /**
   Over a whole search: the cache is a part of what was fetched, never with the bootstrap in it; a host
   is reported on at most once, and not again once it is gone from the cache; and there are no more
   reports than hosts missing from it.
   */
  lemma {:induction false} RunReportsOnce(self: string, rounds: seq<Round>, name: string)
    requires Run(self, rounds)
    ensures var cache, fetched := CacheAfter(rounds), Fetched(self, rounds);
            && cache.Some? == fetched.Some?
            && (cache.Some? ==>
                  && self !in fetched.value && PartOf(cache.value, fetched.value)
                  && |cache.value| + |TotalLog(rounds)| <= |fetched.value|)
            && Count(TotalLog(rounds), name) <= 1
            && (Count(TotalLog(rounds), name) == 1 ==>
                  cache.Some? && name in fetched.value && name !in cache.value)
            && (fetched.None? ==> TotalLog(rounds) == [])
  {
    if |rounds| > 0 {
      var prefix, last := rounds[..|rounds| - 1], rounds[|rounds| - 1];
      RunReportsOnce(self, prefix, name);
      var before := CacheAfter(prefix);
      var cached := Cached(self, before, last.service, last.answers.fetched);
      CountConcat(TotalLog(prefix), last.log, name);
      if cached.Some? {
        PollShrinks(self, before, last.service, last.answers, last.log, last.after, last.done);
        ReportsOnceCounts(last.log, cached.value, Reported(cached.value, last.service, last.answers),
                          true, name);
      }
    }
  }

  /** A report that was accepted takes its host past its ignition. */
  lemma {:induction false} ReportedIsPast(start: Hosts, log: seq<Report>, hosts: Hosts,
                                          pulled: set<string>, name: string)
    requires ReportsOnce(log, hosts, pulled, true) && name in pulled && name in start
    ensures PastIgnition(Replay(start, log)[name].stage, true)
  {
    var last := log[|log| - 1];
    if last.name != name {
      ReportedIsPast(start, log[..|log| - 1], hosts, pulled - {last.name}, name);
    }
  }

  /** The fetched hosts that, with the accepted reports written to them, are not past their ignition. */
  function StillWaiting(fetched: Hosts, log: seq<Report>): set<string> {
    NotPast(Replay(fetched, log))
  }

  /** What a poll does to one fetched host. */
  lemma WaitingAfterPoll(fetched: Hosts, total: seq<Report>, log: seq<Report>, cached: Hosts,
                         reported: set<string>, name: string)
    requires ReportsOnce(log, cached, reported, true) && name in fetched
    requires cached.Keys == StillWaiting(fetched, total) || (total == [] && cached == fetched)
    requires PartOf(cached, fetched) && (name in cached ==> Count(total, name) == 0)
    ensures name in StillWaiting(fetched, total + log) <==> name in NotPast(cached) - reported
  {
    ReplayConcat(fetched, total, log);
    if name in reported {
      ReportedIsPast(Replay(fetched, total), log, cached, reported, name);
    } else {
      ReportsOnceCounts(log, cached, reported, true, name);
      ReplayUntouched(Replay(fetched, total), log, name);
      if name in cached {
        ReplayUntouched(fetched, total, name);
      }
    }
  }

  lemma PollKeepsWaiting(fetched: Hosts, total: seq<Report>, log: seq<Report>, cached: Hosts,
                         reported: set<string>)
    requires ReportsOnce(log, cached, reported, true) && PartOf(cached, fetched)
    requires cached.Keys == StillWaiting(fetched, total) || (total == [] && cached == fetched)
    requires forall name <- cached :: Count(total, name) == 0
    ensures NotPast(cached) - reported == StillWaiting(fetched, total + log)
  {
    forall name | name in fetched
      ensures name in StillWaiting(fetched, total + log) <==> name in NotPast(cached) - reported
    {
      WaitingAfterPoll(fetched, total, log, cached, reported, name);
    }
  }

  /** Nothing was reported on the hosts that a poll works with, in the polls before it. */
  lemma CachedIsUnreported(self: string, rounds: seq<Round>)
    requires Run(self, rounds) && |rounds| > 0
    ensures var last, total := rounds[|rounds| - 1], TotalLog(rounds[..|rounds| - 1]);
            var cached := Cached(self, CacheAfter(rounds[..|rounds| - 1]), last.service,
                                 last.answers.fetched);
            cached.Some? ==> forall name <- cached.value :: Count(total, name) == 0
  {
    var prefix, last := rounds[..|rounds| - 1], rounds[|rounds| - 1];
    var cached := Cached(self, CacheAfter(prefix), last.service, last.answers.fetched);
    if cached.Some? {
      forall name | name in cached.value
        ensures Count(TotalLog(prefix), name) == 0
      {
        RunReportsOnce(self, prefix, name);
      }
    }
  }

  /** Over a whole search the map holds exactly the fetched hosts that are still waiting. */
  lemma {:induction false} CacheIsStillWaiting(self: string, rounds: seq<Round>)
    requires Run(self, rounds) && Fetched(self, rounds).Some?
    ensures CacheAfter(rounds).Some?
    ensures CacheAfter(rounds).value.Keys
         == StillWaiting(Fetched(self, rounds).value, TotalLog(rounds))
  {
    var prefix, last := rounds[..|rounds| - 1], rounds[|rounds| - 1];
    var before := CacheAfter(prefix);
    RunReportsOnce(self, prefix, "");
    if before.Some? {
      CacheIsStillWaiting(self, prefix);
    }
    CachedIsFetched(self, rounds);
    CachedIsUnreported(self, rounds);
    var cached := Cached(self, before, last.service, last.answers.fetched).value;
    PollShrinks(self, before, last.service, last.answers, last.log, last.after, last.done);
    PollKeepsWaiting(Fetched(self, rounds).value, TotalLog(prefix), last.log, cached,
                     Reported(cached, last.service, last.answers));
  }

  /** The search is over exactly when the hosts were fetched and the cached stage of every host that
      was fetched, in whichever poll it left the map, is past its ignition. */
  lemma DoneWhenAllPast(self: string, rounds: seq<Round>)
    requires Run(self, rounds) && |rounds| > 0
    ensures var fetched := Fetched(self, rounds);
            rounds[|rounds| - 1].done <==>
              && fetched.Some?
              && forall n <- fetched.value ::
                   Replay(fetched.value, TotalLog(rounds))[n].stage
                   in {Configuring, Joined, Done, WaitingForIgnition}
  {
    var fetched := Fetched(self, rounds);
    RunReportsOnce(self, rounds, "");
    if fetched.Some? {
      CacheIsStillWaiting(self, rounds);
      CachedIsFetched(self, rounds);
      EmptyWhenAllPast(fetched.value, TotalLog(rounds));
      assert |CacheAfter(rounds).value| == |CacheAfter(rounds).value.Keys|;
    }
  }

  lemma EmptyWhenAllPast(fetched: Hosts, log: seq<Report>)
    ensures |StillWaiting(fetched, log)| == 0 <==>
              forall n <- fetched :: PastIgnition(Replay(fetched, log)[n].stage, true)
  {
    if |StillWaiting(fetched, log)| == 0 {
      forall n | n in fetched
        ensures PastIgnition(Replay(fetched, log)[n].stage, true)
      {
        assert n !in StillWaiting(fetched, log);
      }
    } else {
      var n :| n in StillWaiting(fetched, log);
      assert n in fetched;
    }
  }

  /** The hosts a poll works with are part of those that were fetched. */
  lemma CachedIsFetched(self: string, rounds: seq<Round>)
    requires Run(self, rounds) && |rounds| > 0
    ensures var last := rounds[|rounds| - 1];
            var cached := Cached(self, CacheAfter(rounds[..|rounds| - 1]), last.service,
                                 last.answers.fetched);
            var fetched := Fetched(self, rounds);
            cached.Some? ==> fetched.Some? && PartOf(cached.value, fetched.value)
  {
    RunReportsOnce(self, rounds[..|rounds| - 1], "");
  }

  /** A poll reports on exactly the hosts it works with that are found in the logs, if these can be read,
      and these hosts are gone from the map when it is over. */
  lemma PollReportsFound(self: string, before: Option<Hosts>, service: Hosts, a: Answers,
                         log: seq<Report>, after: Option<Hosts>, done: bool, name: string)
    requires PollStep(self, before, service, a, log, after, done)
    ensures var cached := Cached(self, before, service, a.fetched);
            var found := cached.Some? && a.logsRead && name in cached.value
                         && FoundInLogs(cached.value[name], name in service, name in a.inLogs,
                                        name in a.accepted, true);
            && Count(log, name) == (if found then 1 else 0)
            && (found ==> after.Some? && name !in after.value)
  {
    var cached := Cached(self, before, service, a.fetched);
    if cached.Some? {
      var reported := Reported(cached.value, service, a);
      PollShrinks(self, before, service, a, log, after, done);
      ReportsOnceCounts(log, cached.value, reported, true, name);
      if a.logsRead {
        ReportedIffFound(log, cached.value, service.Keys, a.inLogs, a.accepted, true, name);
      }
    }
  }

  /** In that round the host was found in the logs, and the service took the report. */
  ghost predicate FoundIn(round: Round, name: string) {
    && round.answers.logsRead && name in round.answers.inLogs && name in round.answers.accepted
    && name in round.service
  }

  lemma LastReportsFound(self: string, rounds: seq<Round>, name: string)
    requires Run(self, rounds) && |rounds| > 0 && Count(rounds[|rounds| - 1].log, name) > 0
    ensures FoundIn(rounds[|rounds| - 1], name)
  {
    var last := rounds[|rounds| - 1];
    PollReportsFound(self, CacheAfter(rounds[..|rounds| - 1]), last.service, last.answers, last.log,
                     last.after, last.done, name);
  }

  lemma InPrefixOrLast(rounds: seq<Round>, name: string)
    requires |rounds| > 0 && Count(TotalLog(rounds), name) > 0
    ensures Count(TotalLog(rounds[..|rounds| - 1]), name) > 0 || Count(rounds[|rounds| - 1].log, name) > 0
  {
    CountConcat(TotalLog(rounds[..|rounds| - 1]), rounds[|rounds| - 1].log, name);
  }

  /** Over a whole search a host is only reported on if it was found in the logs of some poll. */
  lemma {:induction false} RunReportsFound(self: string, rounds: seq<Round>, name: string)
    returns (k: nat)
    requires Run(self, rounds) && Count(TotalLog(rounds), name) > 0
    ensures k < |rounds| && FoundIn(rounds[k], name)
  {
    k := |rounds| - 1;
    InPrefixOrLast(rounds, name);
    if Count(rounds[k].log, name) > 0 {
      LastReportsFound(self, rounds, name);
    } else {
      k := RunReportsFound(self, rounds[..k], name);
    }
  }

  /** Workers are reported as waiting for ignition, all others as configuring. */
  ghost predicate StageFits(fetched: Option<Hosts>, r: Report) {
    && fetched.Some? && r.name in fetched.value
    && r.stage == if fetched.value[r.name].role == Worker then WaitingForIgnition else Configuring
  }

  ghost predicate StagesFit(fetched: Option<Hosts>, log: seq<Report>) {
    forall k | 0 <= k < |log| :: StageFits(fetched, log[k])
  }

  lemma StagesFitConcat(fetched: Option<Hosts>, a: seq<Report>, b: seq<Report>)
    requires StagesFit(fetched, a) && StagesFit(fetched, b)
    ensures StagesFit(fetched, a + b)
  {
  }

  lemma {:induction false} RunReportsStages(self: string, rounds: seq<Round>)
    requires Run(self, rounds)
    ensures StagesFit(Fetched(self, rounds), TotalLog(rounds))
  {
    if |rounds| > 0 {
      var prefix := rounds[..|rounds| - 1];
      RunReportsOnce(self, prefix, "");
      RunReportsStages(self, prefix);
      PollReportsStages(self, rounds);
      StagesFitConcat(Fetched(self, rounds), TotalLog(prefix), rounds[|rounds| - 1].log);
    }
  }

  lemma PollReportsStages(self: string, rounds: seq<Round>)
    requires Run(self, rounds) && |rounds| > 0
    ensures StagesFit(Fetched(self, rounds), rounds[|rounds| - 1].log)
  {
    var last := rounds[|rounds| - 1];
    var cached := Cached(self, CacheAfter(rounds[..|rounds| - 1]), last.service, last.answers.fetched);
    CachedIsFetched(self, rounds);
    forall k | 0 <= k < |last.log|
      ensures StageFits(Fetched(self, rounds), last.log[k])
    {
      ReportsOnceStage(last.log, cached.value, Reported(cached.value, last.service, last.answers), k);
    }
  }

  lemma {:induction false} ReportsOnceStage(log: seq<Report>, hosts: Hosts, pulled: set<string>, k: nat)
    requires ReportsOnce(log, hosts, pulled, true) && k < |log|
    ensures log[k].name in hosts && log[k].stage == IgnitionStage(hosts[log[k].name], true)
  {
    if k < |log| - 1 {
      ReportsOnceStage(log[..|log| - 1], hosts, pulled - {log[|log| - 1].name}, k);
    }
  }
}
