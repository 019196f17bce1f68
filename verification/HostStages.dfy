/**
 The controller's poll that moves hosts through Configuring, Joined and Done
 (waitAndUpdateNodesStatus in src/assisted_installer_controller/assisted_installer_controller.go).
 */
module HostStages {
  import opened Wrappers
  import opened Inventory

  /** The positions, in the node list, of the calls that succeed. */
  datatype Outcomes = Outcomes(joined: set<nat>, untainted: set<nat>, done: set<nat>)

  // ---------------------------------------------------------------- the pass over the nodes

  /** A node of the pass: the host it matched, if any, as cached, and whether the node is ready. */
  datatype Visit = Visit(host: Option<Host>, ready: bool)

  function Visits(nodes: seq<Node>, names: Hosts, index: Hosts): seq<Visit> {
    seq(|nodes|, i requires 0 <= i < |nodes| =>
      Visit(HostMatch(nodes[i], names, index), nodes[i].ready))
  }

  predicate Joining(stage: Stage) {
    stage == Configuring || stage == Rebooting
  }

  /** The report that the node joined, if it is due and accepted. */
  function JoinedReports(v: Visit, i: nat, o: Outcomes): seq<Report> {
    if v.host.Some? && Joining(v.host.value.stage) && i in o.joined
    then [Report(v.host.value.name, Joined)]
    else []
  }

  /** The report that the node is done, which is not made when the one before it failed. */
  function DoneReports(v: Visit, i: nat, o: Outcomes): seq<Report> {
    if v.host.Some? && (Joining(v.host.value.stage) ==> i in o.joined)
       && v.ready && v.host.value.stage != Done && i in o.done
    then [Report(v.host.value.name, Done)]
    else []
  }

  /** The reports accepted on account of the node at position `i`. */
  function Reports(v: Visit, i: nat, o: Outcomes): seq<Report> {
    JoinedReports(v, i, o) + DoneReports(v, i, o)
  }

  /** The reports accepted during the pass over all nodes. */
  function PassLog(visits: seq<Visit>, o: Outcomes): seq<Report> {
    if |visits| == 0 then []
    else
      var i := |visits| - 1;
      PassLog(visits[..i], o) + Reports(visits[i], i, o)
  }

  lemma PassLogStep(visits: seq<Visit>, i: nat, o: Outcomes)
    requires i < |visits|
    ensures PassLog(visits[..i + 1], o) == PassLog(visits[..i], o) + Reports(visits[i], i, o)
  {
    assert visits[..i + 1][..i] == visits[..i];
  }

  /** The hosts of a map are the service's current records. */
  ghost predicate Current(hosts: Hosts, service: Hosts) {
    forall k <- hosts :: hosts[k].name in service && service[hosts[k].name] == hosts[k]
  }

  /** The hosts of a pass are the service's current records. */
  ghost predicate CurrentVisits(visits: seq<Visit>, service: Hosts) {
    forall i | 0 <= i < |visits| ::
      var host := visits[i].host;
      host.Some? ==> host.value.name in service && service[host.value.name] == host.value
  }

  lemma VisitsAreCurrent(nodes: seq<Node>, names: Hosts, index: Hosts, service: Hosts)
    requires Current(names, service) && Current(index, service)
    ensures CurrentVisits(Visits(nodes, names, index), service)
  {
    forall i | 0 <= i < |nodes|
      ensures var host := HostMatch(nodes[i], names, index);
              host.Some? ==> host.value.name in service && service[host.value.name] == host.value
    {
      if HostMatch(nodes[i], names, index).Some? {
        MatchIsKnown(nodes[i], names, index);
      }
    }
  }

  method UpdateNodes(service: AssistedService, nodes: seq<Node>, names: Hosts, index: Hosts,
                     o: Outcomes, removeTaint: bool)
    requires Current(names, service.hosts) && Current(index, service.hosts)
    modifies service
    ensures var log := PassLog(Visits(nodes, names, index), o);
            && service.log == old(service.log) + log
            && service.hosts == Replay(old(service.hosts), log)
  {
    ghost var before, start := service.log, service.hosts;
    ghost var visits := Visits(nodes, names, index);
    VisitsAreCurrent(nodes, names, index, start);
    for i := 0 to |nodes|
      invariant service.log == before + PassLog(visits[..i], o)
      invariant service.hosts == Replay(start, PassLog(visits[..i], o))
    {
      PassLogStep(visits, i, o);
      var host := HostMatchByNameOrIPAddress(nodes[i], names, index);
      assert visits[i] == Visit(host, nodes[i].ready);
      assert PassLog(visits[..i], o) + [] == PassLog(visits[..i], o);
      if host.Some? {
        UpdateNode(service, visits[i], nodes[i].ready, host.value, i, o, removeTaint, before, start,
                   PassLog(visits[..i], o));
      }
    }
    assert visits[..|nodes|] == visits;
  }

  method UpdateNode(service: AssistedService, ghost v: Visit, ready: bool, host: Host, i: nat,
                    o: Outcomes, removeTaint: bool, ghost before: seq<Report>, ghost start: Hosts,
                    ghost log: seq<Report>)
    requires v == Visit(Some(host), ready) && host.name in service.hosts
    requires service.log == before + log && service.hosts == Replay(start, log)
    modifies service
    ensures service.log == before + (log + Reports(v, i, o))
    ensures service.hosts == Replay(start, log + Reports(v, i, o))
  {
    ghost var joined, done := JoinedReports(v, i, o), DoneReports(v, i, o);
    assert log + (joined + done) == log + joined + done;
    assert log + [] == log && log + joined + [] == log + joined;
    if Joining(host.stage) {
      var ok := service.UpdateHostInstallProgress(host.name, Joined, i in o.joined);
      if !ok {
        return;
      }
      AppendLast(before, log, Report(host.name, Joined));
      ReplayOneMore(start, log, Report(host.name, Joined));
    }
    if !ready && removeTaint && i !in o.untainted {
      return;
    }
    if ready && host.stage != Done {
      var ok := service.UpdateHostInstallProgress(host.name, Done, i in o.done);
      if ok {
        AppendLast(before, log + joined, Report(host.name, Done));
        ReplayOneMore(start, log + joined, Report(host.name, Done));
      }
    }
  }

  // ---------------------------------------------------------------- when a pass only moves forward

  /**
   Two nodes that match the same host make the pass repeat a report on it: the cached stage the
   second node is judged by is no longer the service's. It matters unless the host is Done already,
   or is past Configuring and Rebooting with at most one of the two nodes ready.
   */
  ghost predicate Conflict(a: Visit, b: Visit) {
    && a.host.Some? && b.host.Some? && a.host.value.name == b.host.value.name
    && (Joining(b.host.value.stage) || (b.host.value.stage != Done && a.ready && b.ready))
  }

  ghost predicate Unambiguous(visits: seq<Visit>) {
    forall i, j | 0 <= i < j < |visits| :: !Conflict(visits[i], visits[j])
  }

  /** How far the service has a host. */
  ghost function RankOf(hosts: Hosts, name: string): nat {
    if name in hosts then Rank(hosts[name].stage) else 0
  }

  lemma ReportsRaise(service: Hosts, v: Visit, i: nat, o: Outcomes)
    requires v.host.Some? && v.host.value.name in service
    requires service[v.host.value.name].stage == v.host.value.stage
    ensures Raises(service, Reports(v, i, o))
  {
    var name := v.host.value.name;
    OneReport(service, Report(name, Joined));
    OneReport(Replay(service, JoinedReports(v, i, o)), Report(name, Done));
    RaisesConcat(service, JoinedReports(v, i, o), DoneReports(v, i, o));
  }

  lemma OtherHost(v: Visit, i: nat, o: Outcomes, name: string)
    requires v.host.Some? ==> v.host.value.name != name
    ensures Count(Reports(v, i, o), name) == 0
  {
    CountConcat(JoinedReports(v, i, o), DoneReports(v, i, o), name);
    if v.host.Some? {
      OneReport(map[], Report(v.host.value.name, Joined));
      OneReport(map[], Report(v.host.value.name, Done));
    }
  }

  /** A host none of whose nodes is reported on is not reported on. */
  lemma {:induction false} QuietHost(visits: seq<Visit>, o: Outcomes, name: string)
    requires forall i | 0 <= i < |visits| ::
               visits[i].host.Some? && visits[i].host.value.name == name
               ==> Reports(visits[i], i, o) == []
    ensures Count(PassLog(visits, o), name) == 0
  {
    if |visits| > 0 {
      var i := |visits| - 1;
      QuietHost(visits[..i], o, name);
      CountConcat(PassLog(visits[..i], o), Reports(visits[i], i, o), name);
      if visits[i].host.Some? ==> visits[i].host.value.name != name {
        OtherHost(visits[i], i, o, name);
      }
    }
  }

  lemma {:induction false} PassRaises(service: Hosts, visits: seq<Visit>, o: Outcomes)
    requires CurrentVisits(visits, service) && Unambiguous(visits)
    ensures Raises(service, PassLog(visits, o))
  {
    if |visits| > 0 {
      var j := |visits| - 1;
      PassRaises(service, visits[..j], o);
      LastNodeRaises(service, visits, o);
      PassSplits(service, visits, o);
    }
  }

  lemma LastNodeRaises(service: Hosts, visits: seq<Visit>, o: Outcomes)
    requires CurrentVisits(visits, service) && Unambiguous(visits) && |visits| > 0
    ensures var j := |visits| - 1;
            Raises(Replay(service, PassLog(visits[..j], o)), Reports(visits[j], j, o))
  {
    var j := |visits| - 1;
    if Reports(visits[j], j, o) != [] {
      var host := visits[j].host.value;
      forall i | 0 <= i < j && visits[i].host.Some? && visits[i].host.value.name == host.name
        ensures Reports(visits[i], i, o) == []
      {
        assert !Conflict(visits[i], visits[j]);
      }
      QuietHost(visits[..j], o, host.name);
      ReplayUntouched(service, PassLog(visits[..j], o), host.name);
      ReportsRaise(Replay(service, PassLog(visits[..j], o)), visits[j], j, o);
    }
  }

  /** Every report accepted. */
  function AllAccepted(n: nat): Outcomes {
    Outcomes(UpTo(n), UpTo(n), UpTo(n))
  }

  /** A raising log has raising prefixes, and a host's rank never falls between two of them. */
  lemma {:induction false} RaisesBetween(service: Hosts, visits: seq<Visit>, o: Outcomes, m: nat,
                                         name: string)
    requires m <= |visits| && Raises(service, PassLog(visits, o))
    ensures Raises(service, PassLog(visits[..m], o))
    ensures RankOf(Replay(service, PassLog(visits[..m], o)), name)
         <= RankOf(Replay(service, PassLog(visits, o)), name)
    decreases |visits|
  {
    if m == |visits| {
      assert visits[..m] == visits;
    } else {
      var k := |visits| - 1;
      var prefix, rest := PassLog(visits[..k], o), Reports(visits[k], k, o);
      RaisesConcat(service, prefix, rest);
      ReplayConcat(service, prefix, rest);
      if name in service {
        RaisingIsBounded(Replay(service, prefix), rest, name);
      }
      assert visits[..k][..m] == visits[..m];
      RaisesBetween(service, visits[..k], o, m, name);
    }
  }

  /** Reports that are all accepted take the host at least to the last of them. */
  lemma AcceptedReportsHold(service: Hosts, v: Visit, i: nat, o: Outcomes)
    requires v.host.Some? && v.host.value.name in service && i in o.joined && i in o.done
    ensures var host := v.host.value;
            var rank := RankOf(Replay(service, Reports(v, i, o)), host.name);
            && (Joining(host.stage) ==> rank >= 2)
            && (host.stage != Done && v.ready ==> rank == 3)
  {
    var name := v.host.value.name;
    OneReport(service, Report(name, Joined));
    OneReport(Replay(service, JoinedReports(v, i, o)), Report(name, Done));
    ReplayConcat(service, JoinedReports(v, i, o), DoneReports(v, i, o));
  }

  lemma NodeRaised(service: Hosts, visits: seq<Visit>, i: nat, o: Outcomes)
    requires CurrentVisits(visits, service) && i < |visits| && i in o.joined && i in o.done
    requires visits[i].host.Some? && Raises(service, PassLog(visits, o))
    ensures var host := visits[i].host.value;
            var rank := RankOf(Replay(service, PassLog(visits, o)), host.name);
            && (Joining(host.stage) ==> rank >= 2)
            && (host.stage != Done && visits[i].ready ==> rank >= 3)
  {
    RaisesBetween(service, visits, o, i + 1, visits[i].host.value.name);
    PassLogStep(visits, i, o);
    var log := PassLog(visits[..i], o);
    ReplayConcat(service, log, Reports(visits[i], i, o));
    AcceptedReportsHold(Replay(service, log), visits[i], i, o);
  }

  /** A node whose first report says no more than the service knows. */
  lemma NothingToRaise(service: Hosts, v: Visit, i: nat, o: Outcomes)
    requires v.host.Some? && i in o.joined && i in o.done
    requires Joining(v.host.value.stage) || (v.host.value.stage != Done && v.ready)
    requires RankOf(service, v.host.value.name) >= if Joining(v.host.value.stage) then 2 else 3
    ensures !Raises(service, Reports(v, i, o))
  {
  }

  lemma PrefixIsCurrent(service: Hosts, visits: seq<Visit>, n: nat)
    requires CurrentVisits(visits, service) && n <= |visits|
    ensures CurrentVisits(visits[..n], service)
  {
  }

  lemma PassSplits(service: Hosts, visits: seq<Visit>, o: Outcomes)
    requires |visits| > 0
    ensures var j := |visits| - 1;
            Raises(service, PassLog(visits, o)) <==>
              && Raises(service, PassLog(visits[..j], o))
              && Raises(Replay(service, PassLog(visits[..j], o)), Reports(visits[j], j, o))
  {
    var j := |visits| - 1;
    RaisesConcat(service, PassLog(visits[..j], o), Reports(visits[j], j, o));
  }

  /** Node `i` takes the host as far as the last node, in conflict with it, would. */
  lemma BehindAlready(service: Hosts, visits: seq<Visit>, i: nat, o: Outcomes)
    requires CurrentVisits(visits, service) && i in o.joined && i in o.done
    requires i < |visits| - 1 && Conflict(visits[i], visits[|visits| - 1])
    requires Raises(service, PassLog(visits[..|visits| - 1], o))
    ensures var host := visits[|visits| - 1].host.value;
            RankOf(Replay(service, PassLog(visits[..|visits| - 1], o)), host.name)
            >= if Joining(host.stage) then 2 else 3
  {
    var prefix := visits[..|visits| - 1];
    PrefixIsCurrent(service, visits, |visits| - 1);
    assert prefix[i] == visits[i] && visits[i].host == visits[|visits| - 1].host;
    NodeRaised(service, prefix, i, o);
  }

  /** If the last node is in conflict with node `i`, what node `i` does leaves it nothing to raise. */
  lemma LastRepeats(service: Hosts, visits: seq<Visit>, i: nat, o: Outcomes)
    requires CurrentVisits(visits, service)
    requires i < |visits| - 1 && Conflict(visits[i], visits[|visits| - 1])
    requires i in o.joined && i in o.done && |visits| - 1 in o.joined && |visits| - 1 in o.done
    ensures !Raises(service, PassLog(visits, o))
  {
    var j := |visits| - 1;
    PassSplits(service, visits, o);
    if Raises(service, PassLog(visits[..j], o)) {
      BehindAlready(service, visits, i, o);
      NothingToRaise(Replay(service, PassLog(visits[..j], o)), visits[j], j, o);
    }
  }

  lemma PrefixConflict(service: Hosts, visits: seq<Visit>, i: nat, j: nat, o: Outcomes)
    requires CurrentVisits(visits, service)
    requires i < j < |visits| && Conflict(visits[i], visits[j])
    requires {i, j} <= o.joined && {i, j} <= o.done
    ensures !Raises(service, PassLog(visits[..j + 1], o))
  {
    var prefix := visits[..j + 1];
    PrefixIsCurrent(service, visits, j + 1);
    assert |prefix| - 1 == j && prefix[j] == visits[j] && prefix[i] == visits[i];
    LastRepeats(service, prefix, i, o);
  }

  /** If nodes `i` and `j` are in conflict and all their reports are accepted, the pass makes a report
      that does not raise its host, whatever happens to the other nodes. */
  lemma ConflictRepeats(service: Hosts, visits: seq<Visit>, i: nat, j: nat, o: Outcomes)
    requires CurrentVisits(visits, service)
    requires i < j < |visits| && Conflict(visits[i], visits[j])
    requires {i, j} <= o.joined && {i, j} <= o.done
    ensures !Raises(service, PassLog(visits, o))
  {
    PrefixConflict(service, visits, i, j, o);
    if Raises(service, PassLog(visits, o)) {
      RaisesBetween(service, visits, o, j + 1, "");
    }
  }

  /**
   Every report accepted during a pass raises its host, whichever calls fail, exactly when no two
   nodes are in conflict.
   */
  lemma RaisesForEveryOutcome(service: Hosts, visits: seq<Visit>)
    requires CurrentVisits(visits, service)
    ensures (forall o :: Raises(service, PassLog(visits, o))) <==> Unambiguous(visits)
  {
    if Unambiguous(visits) {
      forall o
        ensures Raises(service, PassLog(visits, o))
      {
        PassRaises(service, visits, o);
      }
    } else {
      var i, j :| 0 <= i < j < |visits| && Conflict(visits[i], visits[j]);
      ConflictRepeats(service, visits, i, j, AllAccepted(|visits|));
    }
  }

  // ---------------------------------------------------------------- one poll

  /** The answers one poll gets from the service and from the cluster. */
  datatype Answers = Answers(fetched: bool, listed: bool, nodes: seq<Node>, outcomes: Outcomes,
                             removeTaint: bool, refetched: bool,
                             inLogs: set<string>, configured: set<string>)

  function Enabled(service: Hosts): Hosts {
    Fetch(service, [Disabled])
  }

  function NotInstalled(hosts: Hosts): Hosts {
    map n | n in hosts && hosts[n].status != Installed :: hosts[n]
  }

  /** Nothing is left to wait for: every host that is not disabled is installed or in error. */
  ghost predicate AllSettled(service: Hosts) {
    forall n <- service :: service[n].status in {Disabled, Installed, Error}
  }

  function PollVisits(service: Hosts, a: Answers, index: Hosts): seq<Visit> {
    Visits(a.nodes, NotInstalled(Enabled(service)), index)
  }

  /** The reports made after the pass, which left the service at `moved`: the hosts looked up in the
      logs are fetched anew. */
  ghost predicate LateReports(moved: Hosts, a: Answers, log: seq<Report>) {
    if !a.refetched then log == []
    else
      ReportsOnce(log, Enabled(moved),
                  Pulled(Enabled(moved), moved.Keys, a.inLogs, a.configured, false), false)
  }

  /** The poll gets as far as updating hosts. */
  ghost predicate Updates(before: Hosts, a: Answers) {
    a.fetched && !AllSettled(before) && a.listed
  }

  /** The reports accepted in one poll, `late` being those made after the pass over the nodes. */
  ghost function PollLog(before: Hosts, a: Answers, index: Hosts, late: seq<Report>): seq<Report> {
    if Updates(before, a) then PassLog(PollVisits(before, a, index), a.outcomes) + late else []
  }

  /** One poll: `index` is the address index it built, `exit` what it returned. */
  ghost predicate PollStep(before: Hosts, a: Answers, index: Hosts, late: seq<Report>, after: Hosts,
                           exit: bool)
  {
    && after == Replay(before, PollLog(before, a, index, late))
    && exit == (a.fetched && AllSettled(before))
    && (Updates(before, a) ==>
          && IsIpIndex(index, Enabled(before))
          && LateReports(Replay(before, PassLog(PollVisits(before, a, index), a.outcomes)), a, late))
  }

  /** The two counts the poll compares decide whether every enabled host is settled. */
  lemma CountsDecide(service: Hosts, inProgress: Hosts, inError: Hosts)
    requires inProgress == NotInstalled(Enabled(service))
    requires inError == map n | n in inProgress && inProgress[n].status == Error :: inProgress[n]
    ensures (|inError| > 0 && |inError| == |inProgress|) || |inProgress| == 0 <==> AllSettled(service)
  {
    assert inError.Keys <= inProgress.Keys;
    if |inError| == |inProgress| {
      SubsetSize(inError.Keys, inProgress.Keys);
      forall n | n in service && service[n].status != Disabled && service[n].status != Installed
        ensures service[n].status == Error
      {
        assert n in inProgress.Keys;
        assert n in inError.Keys;
      }
    }
    if |inProgress| == 0 {
      assert inProgress.Keys == {};
      forall n | n in service && service[n].status != Disabled
        ensures service[n].status == Installed
      {
        assert n !in inProgress.Keys;
      }
    }
    if AllSettled(service) {
      assert inError.Keys == inProgress.Keys;
    }
  }

  lemma IndexIsCurrent(index: Hosts, hosts: Hosts, service: Hosts)
    requires IsIpIndex(index, hosts) && hosts == Enabled(service) && Keyed(service)
    ensures Current(index, service) && Current(NotInstalled(hosts), service)
  {
  }

  method WaitAndUpdateNodesStatus(service: AssistedService, a: Answers)
    returns (exit: bool, ghost index: Hosts, ghost late: seq<Report>)
    requires Keyed(service.hosts)
    modifies service
    ensures service.log == old(service.log) + PollLog(old(service.hosts), a, index, late)
    ensures PollStep(old(service.hosts), a, index, late, service.hosts, exit)
  {
    index, late := map[], [];
    assert service.log + [] == service.log;
    if !a.fetched {
      return false, index, late;
    }
    var hosts := Enabled(service.hosts);
    var known := BuildHostsMapIPAddressBased(hosts);
    index := known;
    var settled, inProgress := Remaining(hosts, service.hosts);
    if settled {
      return true, index, late;
    }
    if !a.listed {
      return false, index, late;
    }
    IndexIsCurrent(known, hosts, service.hosts);
    ghost var pass := PassLog(PollVisits(service.hosts, a, index), a.outcomes);
    UpdateNodes(service, a.nodes, inProgress, known, a.outcomes, a.removeTaint);
    late := UpdateConfiguring(service, a);
    Associative(old(service.log), pass, late);
    ReplayConcat(old(service.hosts), pass, late);
    exit := false;
  }

  /** Which hosts are still being installed, and whether the poll may stop waiting for them. */
  method Remaining(hosts: Hosts, ghost service: Hosts) returns (settled: bool, inProgress: Hosts)
    requires hosts == Enabled(service)
    ensures inProgress == NotInstalled(hosts)
    ensures settled <==> AllSettled(service)
  {
    inProgress := GetHostsInStatus(hosts, [Installed], false);
    var inError := GetHostsInStatus(inProgress, [Error], true);
    CountsDecide(service, inProgress, inError);
    if |inError| > 0 && |inError| == |inProgress| {
      return true, inProgress;
    }
    if |inProgress| == 0 {
      return true, inProgress;
    }
    settled := false;
  }

  method UpdateConfiguring(service: AssistedService, a: Answers) returns (ghost rest: seq<Report>)
    requires Keyed(service.hosts)
    modifies service
    ensures service.log == old(service.log) + rest
    ensures service.hosts == Replay(old(service.hosts), rest)
    ensures LateReports(old(service.hosts), a, rest)
  {
    rest := [];
    if a.refetched {
      var _ := SetConfiguringStatusForHosts(service, Enabled(service.hosts), a.inLogs, a.configured,
                                            false);
      rest := service.log[|old(service.log)|..];
    }
  }

  // ---------------------------------------------------------------- what a poll promises

  lemma {:induction false} FreshConfiguringRaises(service: Hosts, log: seq<Report>, hosts: Hosts,
                                                  pulled: set<string>)
    requires ReportsOnce(log, hosts, pulled, false)
    requires forall n <- pulled :: n in service && Rank(service[n].stage) == 0
    ensures Raises(service, log)
  {
    if |log| > 0 {
      var prefix, last := log[..|log| - 1], log[|log| - 1];
      FreshConfiguringRaises(service, prefix, hosts, pulled - {last.name});
      ReportsOnceCounts(prefix, hosts, pulled - {last.name}, false, last.name);
      ReplayUntouched(service, prefix, last.name);
    }
  }

  lemma LateReportsRaise(moved: Hosts, a: Answers, log: seq<Report>)
    requires LateReports(moved, a, log)
    ensures Raises(moved, log)
  {
    if a.refetched {
      var pulled := Pulled(Enabled(moved), moved.Keys, a.inLogs, a.configured, false);
      forall n | n in pulled
        ensures n in moved && Rank(moved[n].stage) == 0
      {
        assert n in Enabled(moved) && Enabled(moved)[n] == moved[n];
      }
      FreshConfiguringRaises(moved, log, Enabled(moved), pulled);
    }
  }

  /** Every report a poll gets accepted strictly raises its host. */
  lemma PollRaises(before: Hosts, a: Answers, index: Hosts, late: seq<Report>, after: Hosts, exit: bool)
    requires Keyed(before) && PollStep(before, a, index, late, after, exit)
    requires Unambiguous(PollVisits(before, a, index))
    ensures Raises(before, PollLog(before, a, index, late))
  {
    if Updates(before, a) {
      var pass := PassLog(PollVisits(before, a, index), a.outcomes);
      IndexIsCurrent(index, Enabled(before), before);
      VisitsAreCurrent(a.nodes, NotInstalled(Enabled(before)), index, before);
      PassRaises(before, PollVisits(before, a, index), a.outcomes);
      LateReportsRaise(Replay(before, pass), a, late);
      RaisesConcat(before, pass, late);
    }
  }

  ghost predicate NodeFor(visits: seq<Visit>, r: Report, i: nat) {
    && i < |visits| && visits[i].host.Some? && visits[i].host.value.name == r.name
    && (r.stage == Joined ==> Joining(visits[i].host.value.stage))
    && (r.stage == Done ==> visits[i].ready)
  }

  lemma {:induction false} ReportsHaveNodes(visits: seq<Visit>, o: Outcomes, k: nat)
    requires k < |PassLog(visits, o)|
    ensures PassLog(visits, o)[k].stage in {Joined, Done}
    ensures exists i :: NodeFor(visits, PassLog(visits, o)[k], i)
  {
    var n := |visits| - 1;
    var r := PassLog(visits, o)[k];
    if k < |PassLog(visits[..n], o)| {
      ReportsHaveNodes(visits[..n], o, k);
      var i :| NodeFor(visits[..n], r, i);
      assert NodeFor(visits, r, i);
    } else {
      assert NodeFor(visits, r, n);
    }
  }

  lemma {:induction false} OnlyConfiguring(log: seq<Report>, hosts: Hosts, pulled: set<string>, k: nat)
    requires ReportsOnce(log, hosts, pulled, false) && k < |log|
    ensures log[k].stage == Configuring
  {
    if k < |log| - 1 {
      OnlyConfiguring(log[..|log| - 1], hosts, pulled - {log[|log| - 1].name}, k);
    }
  }

  /** A host is reported Done only for a ready node, Joined only for a node, and never anything else
      but Configuring. */
  lemma PollReportsHaveNodes(before: Hosts, a: Answers, index: Hosts, late: seq<Report>, after: Hosts,
                             exit: bool, k: nat)
    requires PollStep(before, a, index, late, after, exit)
    requires k < |PollLog(before, a, index, late)|
    ensures var r := PollLog(before, a, index, late)[k];
            && r.stage in {Configuring, Joined, Done}
            && (r.stage != Configuring ==> exists i :: NodeFor(PollVisits(before, a, index), r, i))
  {
    var pass := PassLog(PollVisits(before, a, index), a.outcomes);
    if k < |pass| {
      ReportsHaveNodes(PollVisits(before, a, index), a.outcomes, k);
    } else {
      var moved := Replay(before, pass);
      OnlyConfiguring(late, Enabled(moved),
                      Pulled(Enabled(moved), moved.Keys, a.inLogs, a.configured, false), k - |pass|);
    }
  }

  /**
   Conflicts do occur. Two nodes carry the two addresses of one rebooting host: when all reports of the
   pass are accepted, the host is reported as joined a second time.
   */
  lemma ConflictOccurs() returns (service: Hosts, a: Answers, index: Hosts)
    ensures Keyed(service) && Updates(service, a) && IsIpIndex(index, Enabled(service))
    ensures !Unambiguous(PollVisits(service, a, index))
    ensures !Raises(service, PassLog(PollVisits(service, a, index), a.outcomes))
  {
    var host := Host("first", Worker, OtherStatus("installing"), Rebooting, ["10.0.0.1", "10.0.0.2"],
                     Labels("", map[]), "");
    service := map["first" := host];
    index := map["10.0.0.1" := host, "10.0.0.2" := host];
    var nodes := [Node("n1", true, [Address(true, "10.0.0.1")], map[]),
                  Node("n2", true, [Address(true, "10.0.0.2")], map[])];
    a := Answers(true, true, nodes, Outcomes({0, 1}, {0, 1}, {0, 1}), false, true, {}, {});
    var names := NotInstalled(Enabled(service));
    assert |ToLower("n1")| == |ToLower("n2")| == 2 && |"first"| == 5;
    MatchByOnlyAddress(nodes[0], names, index, "10.0.0.1");
    MatchByOnlyAddress(nodes[1], names, index, "10.0.0.2");
    TwoAddressIndex(Enabled(service), "first", "10.0.0.1", "10.0.0.2");
    IndexIsCurrent(index, Enabled(service), service);
    VisitsAreCurrent(nodes, names, index, service);
    var visits := PollVisits(service, a, index);
    assert visits[0] == Visit(Some(host), true) && visits[1] == Visit(Some(host), true);
    assert Conflict(visits[0], visits[1]);
    ConflictRepeats(service, visits, 0, 1, a.outcomes);
  }

  // ---------------------------------------------------------------- which reports a poll makes

  /** A node for the host that brings about the report that it joined. */
  ghost predicate Joins(v: Visit, name: string, accepted: bool) {
    && v.host.Some? && v.host.value.name == name && accepted
    && (v.host.value.stage == Configuring || v.host.value.stage == Rebooting)
  }

  /** A node for the host that brings about the report that it is done: it is ready, and if it had to
      join first that was accepted. */
  ghost predicate Completes(v: Visit, name: string, joined: bool, accepted: bool) {
    && v.host.Some? && v.host.value.name == name && v.ready && accepted
    && v.host.value.stage != Done
    && (v.host.value.stage == Configuring || v.host.value.stage == Rebooting ==> joined)
  }

  lemma ReportsOfNode(v: Visit, i: nat, o: Outcomes, name: string)
    ensures Report(name, Joined) in Reports(v, i, o) <==> Joins(v, name, i in o.joined)
    ensures Report(name, Done) in Reports(v, i, o)
       <==> Completes(v, name, i in o.joined, i in o.done)
  {
  }

  lemma InLastReports(visits: seq<Visit>, o: Outcomes, r: Report)
    requires |visits| > 0
    ensures var n := |visits| - 1;
            r in PassLog(visits, o) <==> r in PassLog(visits[..n], o) || r in Reports(visits[n], n, o)
  {
  }

  /** One of the nodes brings about the report that the host joined. */
  ghost predicate SomeJoins(visits: seq<Visit>, o: Outcomes, name: string) {
    |visits| > 0
    && (SomeJoins(visits[..|visits| - 1], o, name)
        || Joins(visits[|visits| - 1], name, |visits| - 1 in o.joined))
  }

  ghost predicate SomeCompletes(visits: seq<Visit>, o: Outcomes, name: string) {
    |visits| > 0
    && (SomeCompletes(visits[..|visits| - 1], o, name)
        || Completes(visits[|visits| - 1], name, |visits| - 1 in o.joined, |visits| - 1 in o.done))
  }

  /** A host is reported as joined exactly on account of a matched node whose host is cached as
      configuring or rebooting, and as done exactly on account of a ready one. */
  lemma {:induction false} PassReportsIff(visits: seq<Visit>, o: Outcomes, name: string)
    ensures Report(name, Joined) in PassLog(visits, o) <==> SomeJoins(visits, o, name)
    ensures Report(name, Done) in PassLog(visits, o) <==> SomeCompletes(visits, o, name)
  {
    if |visits| > 0 {
      var n := |visits| - 1;
      PassReportsIff(visits[..n], o, name);
      InLastReports(visits, o, Report(name, Joined));
      InLastReports(visits, o, Report(name, Done));
      ReportsOfNode(visits[n], n, o, name);
    }
  }

  lemma {:induction false} SomeJoinsIff(visits: seq<Visit>, o: Outcomes, name: string, m: nat)
    requires m <= |visits|
    ensures SomeJoins(visits[..m], o, name)
       <==> exists i :: 0 <= i < m && Joins(visits[i], name, i in o.joined)
  {
    if m > 0 {
      SomeJoinsIff(visits, o, name, m - 1);
      assert visits[..m][..m - 1] == visits[..m - 1];
    }
  }

  lemma {:induction false} SomeCompletesIff(visits: seq<Visit>, o: Outcomes, name: string, m: nat)
    requires m <= |visits|
    ensures SomeCompletes(visits[..m], o, name)
       <==> exists i :: 0 <= i < m && Completes(visits[i], name, i in o.joined, i in o.done)
  {
    if m > 0 {
      SomeCompletesIff(visits, o, name, m - 1);
      assert visits[..m][..m - 1] == visits[..m - 1];
    }
  }

  /** The nodes are matched by name with the hosts that are neither disabled nor installed, and by address
      with all hosts in the index. */
  lemma VisitOfNode(service: Hosts, a: Answers, index: Hosts, i: nat)
    requires i < |a.nodes|
    ensures PollVisits(service, a, index)[i]
         == Visit(HostMatch(a.nodes[i],
                            map n | n in service && service[n].status != Disabled
                                    && service[n].status != Installed :: service[n],
                            index),
                  a.nodes[i].ready)
  {
    assert NotInstalled(Enabled(service))
        == map n | n in service && service[n].status != Disabled && service[n].status != Installed
             :: service[n];
  }

  /** A poll exits exactly if the hosts were fetched and all are disabled, installed or in error; then, and
      if the hosts or the nodes cannot be listed, it reports nothing. */
  lemma PollExitsIff(before: Hosts, a: Answers, index: Hosts, late: seq<Report>, after: Hosts, exit: bool)
    requires PollStep(before, a, index, late, after, exit)
    ensures exit <==>
              && a.fetched
              && forall n <- before ::
                   || before[n].status == Disabled || before[n].status == Installed
                   || before[n].status == Error
    ensures exit || !a.fetched || !a.listed ==>
              PollLog(before, a, index, late) == [] && after == before
  {
  }

  /** After the pass a host is reported as configuring exactly if the hosts could be fetched again, it is
      enabled, found in the logs, not past its ignition and accepted. */
  lemma LateReportsIff(moved: Hosts, a: Answers, late: seq<Report>, name: string)
    requires LateReports(moved, a, late)
    ensures Count(late, name)
         == if a.refetched && name in moved && moved[name].status != Disabled
               && FoundInLogs(moved[name], true, name in a.inLogs, name in a.configured, false)
            then 1 else 0
  {
    if a.refetched {
      ReportedIffFound(late, Enabled(moved), moved.Keys, a.inLogs, a.configured, false, name);
    }
  }

  // ---------------------------------------------------------------- whole runs

  datatype Poll = Poll(before: Hosts, answers: Answers, index: Hosts, late: seq<Report>, after: Hosts,
                       exit: bool)
  {
    ghost function Log(): seq<Report> {
      PollLog(before, answers, index, late)
    }
  }

  /** Between polls hosts may appear, and everything but the stage of a host may change. */
  ghost predicate KeepsStages(before: Hosts, after: Hosts) {
    && Keyed(after)
    && forall n <- before :: n in after && after[n].stage == before[n].stage
  }

  ghost predicate Run(polls: seq<Poll>) {
    && (forall i | 0 <= i < |polls| ::
          var p := polls[i];
          && Keyed(p.before)
          && PollStep(p.before, p.answers, p.index, p.late, p.after, p.exit)
          && Unambiguous(PollVisits(p.before, p.answers, p.index)))
    && (forall i | 0 <= i < |polls| - 1 :: !polls[i].exit)
    && (forall i | 0 < i < |polls| :: KeepsStages(polls[i - 1].after, polls[i].before))
  }

  /** The accepted reports on a host over a run. */
  ghost function Total(polls: seq<Poll>, name: string): nat {
    if |polls| == 0 then 0
    else Total(polls[..|polls| - 1], name) + Count(polls[|polls| - 1].Log(), name)
  }

  /**
   Over a whole run, with no other writer of stages, a host gets at most as many reports as its rank
   rises: three at the very most.
   */
  lemma {:induction false} RunIsBounded(polls: seq<Poll>, name: string)
    requires Run(polls) && |polls| > 0 && name in polls[0].before
    ensures name in polls[|polls| - 1].after
    ensures RankOf(polls[0].before, name) + Total(polls, name)
         <= RankOf(polls[|polls| - 1].after, name) <= 3
  {
    var last := polls[|polls| - 1];
    var prefix := polls[..|polls| - 1];
    PollRaises(last.before, last.answers, last.index, last.late, last.after, last.exit);
    if |polls| > 1 {
      RunIsBounded(prefix, name);
      assert KeepsStages(polls[|polls| - 2].after, last.before);
    }
    RaisingIsBounded(last.before, last.Log(), name);
  }
}
