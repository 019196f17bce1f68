/**
 The inventory's hosts, their stages, and the matching of Kubernetes nodes with them
 (src/common/common.go), and the map of hosts the bootstrap keeps (getInventoryHostsMap in
 src/installer/installer.go).

 A host is known by its lower-case hostname, which is also the key under which the inventory
 client returns it. Every call to the service comes with the answer it gets: `accept` is false when
 the call fails, and then the service is left as it was.
 */
module Inventory {
  import opened Wrappers

  datatype Status = Installed | Error | Disabled | OtherStatus(text: string)

  datatype Role = Master | Worker | Arbiter | OtherRole(text: string)

  datatype Stage =
    | Rebooting | WaitingForIgnition | Configuring | Joined | Done
    | OtherStage(text: string)

  /** Labels as the user wrote them, and the key/value pairs the text decodes to. */
  datatype Labels = Labels(text: string, decoded: map<string, string>)

  datatype Host = Host(name: string, role: Role, status: Status, stage: Stage,
                       ips: seq<string>, labels: Labels, pool: string)

  /** Hosts keyed by lower-case hostname. */
  type Hosts = map<string, Host>

  datatype Address = Address(internalIP: bool, ip: string)

  datatype Node = Node(name: string, ready: bool, addresses: seq<Address>,
                       labels: map<string, string>)

  ghost predicate Keyed(hosts: Hosts) {
    forall n <- hosts :: hosts[n].name == n
  }

  /** The hosts the service returns when asked to skip some statuses. */
  function Fetch(service: Hosts, skipped: seq<Status>): Hosts {
    map n | n in service && service[n].status !in skipped :: service[n]
  }

  // ---------------------------------------------------------------- stages and accepted reports

  /** How far a host has come from the point of view of the cluster it joins. */
  function Rank(s: Stage): nat {
    match s
    case Configuring => 1
    case Joined => 2
    case Done => 3
    case _ => 0
  }

  /** A stage report the service accepted. */
  datatype Report = Report(name: string, stage: Stage)

  function SetStage(hosts: Hosts, r: Report): Hosts {
    if r.name in hosts then hosts[r.name := hosts[r.name].(stage := r.stage)] else hosts
  }

  /** The service after accepting the reports of `log`, in order. */
  function Replay(hosts: Hosts, log: seq<Report>): (after: Hosts)
    ensures after.Keys == hosts.Keys
    ensures Keyed(hosts) ==> Keyed(after)
  {
    if |log| == 0 then hosts else SetStage(Replay(hosts, log[..|log| - 1]), log[|log| - 1])
  }

  /** Each report of `log` strictly raises the rank its host has when the report arrives. */
  ghost predicate Raises(hosts: Hosts, log: seq<Report>) {
    |log| > 0 ==>
      var prefix, last := log[..|log| - 1], log[|log| - 1];
      && Raises(hosts, prefix)
      && last.name in hosts
      && Rank(Replay(hosts, prefix)[last.name].stage) < Rank(last.stage)
  }

  function Count(log: seq<Report>, name: string): nat {
    if |log| == 0 then 0
    else Count(log[..|log| - 1], name) + if log[|log| - 1].name == name then 1 else 0
  }

  lemma ReplayOneMore(hosts: Hosts, log: seq<Report>, r: Report)
    ensures Replay(hosts, log + [r]) == SetStage(Replay(hosts, log), r)
  {
  }

  lemma {:induction false} ReplayConcat(hosts: Hosts, a: seq<Report>, b: seq<Report>)
    ensures Replay(hosts, a + b) == Replay(Replay(hosts, a), b)
  {
    if |b| == 0 {
      assert a + b == a;
    } else {
      DropLast(a, b);
      ReplayConcat(hosts, a, b[..|b| - 1]);
    }
  }

  lemma {:induction false} RaisesConcat(hosts: Hosts, a: seq<Report>, b: seq<Report>)
    ensures Raises(hosts, a + b) <==> Raises(hosts, a) && Raises(Replay(hosts, a), b)
  {
    if |b| == 0 {
      assert a + b == a;
    } else {
      DropLast(a, b);
      ReplayConcat(hosts, a, b[..|b| - 1]);
      RaisesConcat(hosts, a, b[..|b| - 1]);
    }
  }

  lemma OneReport(hosts: Hosts, r: Report)
    ensures Replay(hosts, [r]) == SetStage(hosts, r)
    ensures Raises(hosts, [r]) <==> r.name in hosts && Rank(hosts[r.name].stage) < Rank(r.stage)
    ensures forall name :: Count([r], name) == if r.name == name then 1 else 0
  {
  }

  lemma {:induction false} CountConcat(a: seq<Report>, b: seq<Report>, name: string)
    ensures Count(a + b, name) == Count(a, name) + Count(b, name)
  {
    if |b| == 0 {
      assert a + b == a;
    } else {
      DropLast(a, b);
      CountConcat(a, b[..|b| - 1], name);
    }
  }

  /** A host nobody reports on keeps its record. */
  lemma {:induction false} ReplayUntouched(hosts: Hosts, log: seq<Report>, name: string)
    requires name in hosts && Count(log, name) == 0
    ensures Replay(hosts, log)[name] == hosts[name]
  {
    if |log| > 0 {
      ReplayUntouched(hosts, log[..|log| - 1], name);
    }
  }

  /** Raising reports are bounded by the ranks they climb: at most three for any host. */
  lemma {:induction false} RaisingIsBounded(hosts: Hosts, log: seq<Report>, name: string)
    requires Raises(hosts, log) && name in hosts
    ensures Rank(hosts[name].stage) + Count(log, name) <= Rank(Replay(hosts, log)[name].stage) <= 3
  {
    if |log| > 0 {
      RaisingIsBounded(hosts, log[..|log| - 1], name);
    }
  }

  /** The part of the assisted service that keeps host stages, with the reports it accepted. */
  class AssistedService {
    var hosts: Hosts
    var log: seq<Report>

    constructor (hosts: Hosts)
      ensures this.hosts == hosts && log == []
    {
      this.hosts, log := hosts, [];
    }

    method UpdateHostInstallProgress(name: string, stage: Stage, accept: bool) returns (ok: bool)
      modifies this
      ensures ok == (accept && name in old(hosts))
      ensures ok ==> log == old(log) + [Report(name, stage)]
      ensures ok ==> hosts == SetStage(old(hosts), Report(name, stage))
      ensures !ok ==> hosts == old(hosts) && log == old(log)
    {
      ok := accept && name in hosts;
      if ok {
        hosts := hosts[name := hosts[name].(stage := stage)];
        log := log + [Report(name, stage)];
      }
    }
  }

  // ---------------------------------------------------------------- selections

  /** Keeps the hosts whose status is (or, with `isMatch` false, is not) among `statuses`. */
  method GetHostsInStatus(hosts: Hosts, statuses: seq<Status>, isMatch: bool) returns (r: Hosts)
    ensures r == map n | n in hosts && isMatch == (hosts[n].status in statuses) :: hosts[n]
  {
    r := map[];
    var todo := hosts.Keys;
    while todo != {}
      invariant todo <= hosts.Keys
      invariant r == map n | n in hosts.Keys - todo && isMatch == (hosts[n].status in statuses)
                       :: hosts[n]
      decreases todo
    {
      var n :| n in todo;
      if isMatch == (hosts[n].status in statuses) {
        r := r[n := hosts[n]];
      }
      todo := todo - {n};
    }
  }

  /**
   What BuildHostsMapIPAddressBased promises: its keys are the hosts' addresses, and each leads to
   some host with that address (which one, when two hosts share it, is up to Go's map order).
   */
  ghost predicate IsIpIndex(index: Hosts, hosts: Hosts) {
    && (forall ip <- index :: exists n :: n in hosts && index[ip] == hosts[n] && ip in hosts[n].ips)
    && (forall n <- hosts, ip <- hosts[n].ips :: ip in index)
  }

  method BuildHostsMapIPAddressBased(hosts: Hosts) returns (index: Hosts)
    ensures IsIpIndex(index, hosts)
  {
    index := map[];
    var todo := hosts.Keys;
    while todo != {}
      invariant todo <= hosts.Keys
      invariant forall ip <- index ::
                  exists n :: n in hosts && index[ip] == hosts[n] && ip in hosts[n].ips
      invariant forall n <- hosts.Keys - todo, ip <- hosts[n].ips :: ip in index
      decreases todo
    {
      var n :| n in todo;
      var ips := hosts[n].ips;
      for i := 0 to |ips|
        invariant forall ip <- index ::
                    exists m :: m in hosts && index[ip] == hosts[m] && ip in hosts[m].ips
        invariant forall m <- hosts.Keys - todo, ip <- hosts[m].ips :: ip in index
        invariant forall j | 0 <= j < i :: ips[j] in index
      {
        index := index[ips[i] := hosts[n]];
      }
      todo := todo - {n};
    }
  }

  // ---------------------------------------------------------------- matching nodes with hosts

  function LowerChar(c: char): char {
    if 'A' <= c <= 'Z' then (c as int + 32) as char else c
  }

  function ToLower(s: string): string {
    seq(|s|, i requires 0 <= i < |s| => LowerChar(s[i]))
  }

  /** The host at the last internal address that the index knows. */
  function LastInternalMatch(addresses: seq<Address>, index: Hosts): Option<Host> {
    if |addresses| == 0 then None
    else
      var last := addresses[|addresses| - 1];
      if last.internalIP && last.ip in index then Some(index[last.ip])
      else LastInternalMatch(addresses[..|addresses| - 1], index)
  }

  /** By name if the name is known, else by internal address. */
  function HostMatch(node: Node, names: Hosts, index: Hosts): Option<Host> {
    if ToLower(node.name) in names then Some(names[ToLower(node.name)])
    else LastInternalMatch(node.addresses, index)
  }

  method HostMatchByNameOrIPAddress(node: Node, names: Hosts, index: Hosts)
    returns (host: Option<Host>)
    ensures host == HostMatch(node, names, index)
  {
    if ToLower(node.name) in names {
      return Some(names[ToLower(node.name)]);
    }
    host := None;
    for i := 0 to |node.addresses|
      invariant host == LastInternalMatch(node.addresses[..i], index)
    {
      var address := node.addresses[i];
      assert node.addresses[..i + 1][..i] == node.addresses[..i];
      if address.ip in index && address.internalIP {
        host := Some(index[address.ip]);
      }
    }
    assert node.addresses[..|node.addresses|] == node.addresses;
  }

  /** The address index when one host has two addresses and the others have none. */
  lemma TwoAddressIndex(hosts: Hosts, name: string, a: string, b: string)
    requires name in hosts && hosts[name].ips == [a, b]
    requires forall n <- hosts :: n == name || hosts[n].ips == []
    ensures IsIpIndex(map[a := hosts[name], b := hosts[name]], hosts)
  {
    assert hosts[name].ips[0] == a && hosts[name].ips[1] == b;
  }

  lemma MatchByOnlyAddress(node: Node, names: Hosts, index: Hosts, ip: string)
    requires ToLower(node.name) !in names
    requires node.addresses == [Address(true, ip)] && ip in index
    ensures HostMatch(node, names, index) == Some(index[ip])
  {
  }

  /** `lower` is the text with its capital letters made small. */
  ghost predicate IsLower(lower: string, text: string) {
    && |lower| == |text|
    && forall i | 0 <= i < |text| ::
         lower[i] as int == text[i] as int + if 'A' <= text[i] <= 'Z' then 32 else 0
  }

  /** A match under the node's lower-case name counts before any address does. */
  lemma MatchedByName(node: Node, names: Hosts, index: Hosts, key: string)
    requires IsLower(key, node.name)
    ensures key in names ==> HostMatch(node, names, index) == Some(names[key])
    ensures key !in names ==> HostMatch(node, names, index) == LastInternalMatch(node.addresses, index)
  {
    assert ToLower(node.name) == key;
  }

  /** By address a node matches the host at its last internal address that is indexed, and no host exactly
      if none of its internal addresses is. */
  lemma {:induction false} MatchedByAddress(addresses: seq<Address>, index: Hosts) returns (k: nat)
    ensures var m := LastInternalMatch(addresses, index);
            && (m.None? <==>
                  forall i | 0 <= i < |addresses| ::
                    addresses[i].internalIP ==> addresses[i].ip !in index)
            && (m.Some? ==>
                  && k < |addresses| && addresses[k].internalIP && addresses[k].ip in index
                  && m.value == index[addresses[k].ip]
                  && forall i | k < i < |addresses| ::
                       addresses[i].internalIP ==> addresses[i].ip !in index)
  {
    k := 0;
    if |addresses| > 0 {
      var n := |addresses| - 1;
      if addresses[n].internalIP && addresses[n].ip in index {
        k := n;
      } else {
        k := MatchedByAddress(addresses[..n], index);
      }
    }
  }

  /** A match comes from one of the two maps it was looked up in. */
  lemma {:induction false} MatchIsKnown(node: Node, names: Hosts, index: Hosts)
    requires HostMatch(node, names, index).Some?
    ensures HostMatch(node, names, index).value in names.Values + index.Values
  {
    if ToLower(node.name) in names {
      assert names[ToLower(node.name)] in names.Values;
    } else {
      LastInternalMatchIsKnown(node.addresses, index);
    }
  }

  lemma {:induction false} LastInternalMatchIsKnown(addresses: seq<Address>, index: Hosts)
    ensures var m := LastInternalMatch(addresses, index);
            m.Some? ==> m.value in index.Values
  {
    if |addresses| > 0 {
      var last := addresses[|addresses| - 1];
      if last.internalIP && last.ip in index {
        assert index[last.ip] in index.Values;
      } else {
        LastInternalMatchIsKnown(addresses[..|addresses| - 1], index);
      }
    }
  }

  // ---------------------------------------------------------------- the installer's cached map

  /** The hosts the bootstrap `self` works with: the cached ones, or all enabled hosts but itself.
      `fetched` are the hosts of the service, None if they cannot be fetched. */
  function InventoryHosts(self: string, cache: Option<Hosts>, fetched: Option<Hosts>): Option<Hosts> {
    if cache.Some? then cache
    else if fetched.Some? then Some(Fetch(fetched.value, [Disabled]) - {self})
    else None
  }

  method GetInventoryHostsMap(self: string, cache: Option<Hosts>, fetched: Option<Hosts>)
    returns (hosts: Option<Hosts>)
    ensures hosts == InventoryHosts(self, cache, fetched)
    ensures hosts.Some? && cache.None? ==>
              forall n :: n in hosts.value <==>
                n in fetched.value && n != self && fetched.value[n].status != Disabled
  {
    hosts := cache;
    if hosts.None? {
      if fetched.None? {
        return None;
      }
      var enabled := Fetch(fetched.value, [Disabled]);
      hosts := Some(enabled - {self});
    }
  }

  // ---------------------------------------------------------------- hosts seen fetching ignition

  /** The stages in which a host is not looked up in the machine-config-server logs. */
  predicate PastIgnition(stage: Stage, fromBootstrap: bool) {
    || stage in {Configuring, Joined, Done}
    || (fromBootstrap && stage == WaitingForIgnition)
  }

  /** The stage reported for a host whose ignition request was found in the logs. */
  function IgnitionStage(host: Host, fromBootstrap: bool): Stage {
    if fromBootstrap && host.role == Worker then WaitingForIgnition else Configuring
  }

  /** The hosts whose report SetConfiguringStatusForHosts gets accepted. */
  function Pulled(hosts: Hosts, service: set<string>, inLogs: set<string>, accepted: set<string>,
                  fromBootstrap: bool): set<string>
  {
    set n | n in hosts && !PastIgnition(hosts[n].stage, fromBootstrap)
            && n in inLogs && n in accepted && n in service
  }

  /** `hosts` with the hosts in `pulled` moved to the stage that was reported for them. */
  function Configured(hosts: Hosts, pulled: set<string>, fromBootstrap: bool): Hosts {
    map n | n in hosts ::
      if n in pulled then hosts[n].(stage := IgnitionStage(hosts[n], fromBootstrap)) else hosts[n]
  }

  /** `log` reports once on each host of `pulled`, with the stage its record in `hosts` calls for. */
  ghost predicate ReportsOnce(log: seq<Report>, hosts: Hosts, pulled: set<string>,
                              fromBootstrap: bool)
  {
    if |log| == 0 then pulled == {}
    else
      var last := log[|log| - 1];
      && last.name in pulled
      && last.name in hosts
      && last.stage == IgnitionStage(hosts[last.name], fromBootstrap)
      && ReportsOnce(log[..|log| - 1], hosts, pulled - {last.name}, fromBootstrap)
  }

  /**
   Looks every host up in the logs and reports the ones found, in whatever order Go ranges over the
   map: `inLogs` are the hosts the pattern search finds, `accepted` those whose report the service
   takes. The accepted stage is written through the caller's map as well: `updated` is that map.
   */
  method SetConfiguringStatusForHosts(service: AssistedService, hosts: Hosts, inLogs: set<string>,
                                      accepted: set<string>, fromBootstrap: bool)
    returns (updated: Hosts)
    requires Keyed(hosts)
    modifies service
    ensures var pulled := Pulled(hosts, old(service.hosts).Keys, inLogs, accepted, fromBootstrap);
            && updated == Configured(hosts, pulled, fromBootstrap)
            && old(service.log) <= service.log
            && ReportsOnce(service.log[|old(service.log)|..], hosts, pulled, fromBootstrap)
            && service.hosts == Replay(old(service.hosts), service.log[|old(service.log)|..])
  {
    ghost var before, start := service.log, service.hosts;
    ghost var pulled := Pulled(hosts, start.Keys, inLogs, accepted, fromBootstrap);
    ghost var log: seq<Report>, reported: set<string> := [], {};
    updated := hosts;
    var todo := hosts.Keys;
    while todo != {}
      invariant todo <= hosts.Keys
      invariant reported == pulled - todo
      invariant service.log == before + log && service.hosts == Replay(start, log)
      invariant updated == Configured(hosts, reported, fromBootstrap)
      invariant ReportsOnce(log, hosts, reported, fromBootstrap)
      decreases todo
    {
      var name :| name in todo;
      var stage, ok := IgnitionStage(hosts[name], fromBootstrap), false;
      if !PastIgnition(hosts[name].stage, fromBootstrap) && name in inLogs {
        ok := service.UpdateHostInstallProgress(name, stage, name in accepted);
      }
      assert ok <==> name in pulled;
      TakenOne(pulled, reported, todo, name);
      if ok {
        updated := updated[name := hosts[name].(stage := stage)];
        ConfiguredOneMore(hosts, reported, name, fromBootstrap);
        ReportOnOneMore(log, hosts, reported, name, fromBootstrap);
        ReplayOneMore(start, log, Report(name, stage));
        AppendLast(before, log, Report(name, stage));
        log, reported := log + [Report(name, stage)], reported + {name};
      }
      todo := todo - {name};
    }
    assert service.log[|before|..] == log;
    assert reported == pulled;
  }

  lemma ConfiguredOneMore(hosts: Hosts, pulled: set<string>, name: string, fromBootstrap: bool)
    requires name in hosts
    ensures Configured(hosts, pulled + {name}, fromBootstrap)
         == Configured(hosts, pulled, fromBootstrap)[name :=
              hosts[name].(stage := IgnitionStage(hosts[name], fromBootstrap))]
  {
  }

  lemma TakenOne(pulled: set<string>, reported: set<string>, todo: set<string>, name: string)
    requires reported == pulled - todo && name in todo
    ensures name in pulled ==> reported + {name} == pulled - (todo - {name})
    ensures name !in pulled ==> reported == pulled - (todo - {name})
  {
  }

  lemma ReportOnOneMore(log: seq<Report>, hosts: Hosts, pulled: set<string>, name: string,
                        fromBootstrap: bool)
    requires ReportsOnce(log, hosts, pulled, fromBootstrap) && name !in pulled && name in hosts
    ensures ReportsOnce(log + [Report(name, IgnitionStage(hosts[name], fromBootstrap))], hosts,
                        pulled + {name}, fromBootstrap)
  {
  }

  /** Every host of `pulled` is reported on once, and no other host at all. */
  lemma {:induction false} ReportsOnceCounts(log: seq<Report>, hosts: Hosts, pulled: set<string>,
                                             fromBootstrap: bool, name: string)
    requires ReportsOnce(log, hosts, pulled, fromBootstrap)
    ensures Count(log, name) == if name in pulled then 1 else 0
  {
    if |log| > 0 {
      ReportsOnceCounts(log[..|log| - 1], hosts, pulled - {log[|log| - 1].name}, fromBootstrap, name);
    }
  }

  /** The search that is due for a host, that finds it, and whose report the service takes. */
  ghost predicate FoundInLogs(host: Host, known: bool, inLogs: bool, accepted: bool, fromBootstrap: bool) {
    && known && inLogs && accepted
    && host.stage != Configuring && host.stage != Joined && host.stage != Done
    && (fromBootstrap ==> host.stage != WaitingForIgnition)
  }

  /**
   What is reported, host by host: one report on a host of the map that is found in the logs, not past its
   ignition, known to the service and accepted, and none on any other; and what becomes of the map.
   */
  lemma ReportedIffFound(log: seq<Report>, hosts: Hosts, service: set<string>, inLogs: set<string>,
                         accepted: set<string>, fromBootstrap: bool, name: string)
    requires ReportsOnce(log, hosts, Pulled(hosts, service, inLogs, accepted, fromBootstrap),
                         fromBootstrap)
    ensures var found := name in hosts && FoundInLogs(hosts[name], name in service, name in inLogs,
                                                      name in accepted, fromBootstrap);
            var after := Configured(hosts, Pulled(hosts, service, inLogs, accepted, fromBootstrap),
                                    fromBootstrap);
            && Count(log, name) == (if found then 1 else 0)
            && (name in after <==> name in hosts)
            && (name in hosts && !found ==> after[name] == hosts[name])
            && (found ==>
                  var stage := if fromBootstrap && hosts[name].role == Worker then WaitingForIgnition
                               else Configuring;
                  after[name] == hosts[name].(stage := stage) && Report(name, stage) in log)
  {
    var pulled := Pulled(hosts, service, inLogs, accepted, fromBootstrap);
    ReportsOnceCounts(log, hosts, pulled, fromBootstrap, name);
    if name in pulled {
      ReportedWithStage(log, hosts, pulled, fromBootstrap, name);
    }
  }

  lemma {:induction false} ReportedWithStage(log: seq<Report>, hosts: Hosts, pulled: set<string>,
                                             fromBootstrap: bool, name: string)
    requires ReportsOnce(log, hosts, pulled, fromBootstrap) && name in pulled && name in hosts
    ensures Report(name, if fromBootstrap && hosts[name].role == Worker then WaitingForIgnition
                         else Configuring) in log
  {
    var last := log[|log| - 1];
    assert log == log[..|log| - 1] + [last];
    if last.name != name {
      ReportedWithStage(log[..|log| - 1], hosts, pulled - {last.name}, fromBootstrap, name);
    }
  }
}
