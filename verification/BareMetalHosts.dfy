/**
 The controller's allocation of Machines to BareMetalHosts (UpdateBMHs and what it calls in
 src/assisted_installer_controller/assisted_installer_controller.go).
 */
module BareMetalHosts {
  import opened Wrappers

  datatype Ref = Ref(apiVersion: string, kind: string, namespace: string, name: string)

  /** A Machine; `role` is the value of its cluster-api-machine-role label. */
  datatype Machine = Machine(apiVersion: string, kind: string, namespace: string, name: string,
                             role: Option<string>)

  datatype ProvisioningState = NoState | Unmanaged | OtherState(text: string)

  datatype Status = Status(provisioning: ProvisioningState, lastUpdated: Option<nat>, rest: string)

  datatype Annotation = StatusAnnotation | PausedAnnotation | OtherAnnotation(key: string)

  datatype Host = Host(name: string, consumer: Option<Ref>, externallyProvisioned: bool,
                       annotations: map<Annotation, string>, status: Status)

  /** The BareMetalHosts of the cluster, by name. */
  type Hosts = map<string, Host>

  ghost predicate Keyed(hosts: Hosts) {
    forall n <- hosts :: hosts[n].name == n
  }

  // ---------------------------------------------------------------- unallocated machines

  predicate RefersTo(host: Host, machine: Machine) {
    host.consumer.Some? && host.consumer.value.name == machine.name
  }

  predicate IsWorker(machine: Machine) {
    machine.role == Some("worker")
  }

  /** A worker Machine that no BareMetalHost of the list refers to. */
  predicate IsFree(machine: Machine, list: seq<Host>) {
    IsWorker(machine) && forall i | 0 <= i < |list| :: !RefersTo(list[i], machine)
  }

  /** The free machines, in order. */
  function Unallocated(machines: seq<Machine>, list: seq<Host>): seq<Machine> {
    if |machines| == 0 then []
    else
      var last := machines[|machines| - 1];
      Unallocated(machines[..|machines| - 1], list) + if IsFree(last, list) then [last] else []
  }

  /**
   Filters the list into its own front while ranging over it: a slot is written only after the
   element in it has been read, so the result is the filter of the list as it was.
   */
  method UnallocatedMachines(items: array<Machine>, list: seq<Host>) returns (n: nat)
    modifies items
    ensures n <= items.Length && items[..n] == Unallocated(old(items[..]), list)
    ensures items[n..] == old(items[n..])
  {
    n := 0;
    for i := 0 to items.Length
      invariant n <= i
      invariant items[..n] == Unallocated(old(items[..])[..i], list)
      invariant items[n..] == old(items[..])[n..]
    {
      var machine := items[i];
      assert machine == old(items[..])[i];
      assert old(items[..])[..i + 1][..i] == old(items[..])[..i];
      var unallocated := IsWorker(machine);
      for j := 0 to |list|
        invariant unallocated == (IsWorker(machine) && forall k | 0 <= k < j :: !RefersTo(list[k], machine))
      {
        if RefersTo(list[j], machine) {
          unallocated := false;
        }
      }
      if unallocated {
        items[n] := machine;
        n := n + 1;
      }
    }
    assert old(items[..])[..items.Length] == old(items[..]);
  }

  // ---------------------------------------------------------------- one host

  /**
   The answers of one poll. The sets hold the names of the hosts for which a call succeeds;
   `decodes` gives the status annotations that can be decoded, and what they decode to; `order` is
   the order in which the hosts are listed.
   */
  datatype Answers = Answers(listed: bool, order: seq<string>, machinesListed: bool,
                             machines: seq<Machine>, provisioningKnown: bool, provisioning: bool,
                             decodes: map<string, Status>, now: nat, statusUpdated: set<string>,
                             refreshed: set<string>, updated: set<string>)

  /** A host's record in the cluster after its turn, the machines left over, whether the turn went
      without error, and the number of accepted writes. */
  datatype Turn = Turn(host: Host, machines: seq<Machine>, ok: bool, writes: nat)

  function RefTo(m: Machine): Ref {
    Ref(m.apiVersion, m.kind, m.namespace, m.name)
  }

  /** The end of both kinds of turn: `host` is the record in the cluster, `changed` the local copy. A
      machine that is taken is gone even if the update then fails. */
  function Finish(host: Host, changed: Host, machines: seq<Machine>, needsUpdate: bool, updated: bool)
    : Turn
  {
    if changed.consumer.None? then
      if |machines| == 0 then Turn(host, machines, false, 0)
      else if updated then
        Turn(changed.(consumer := Some(RefTo(machines[0]))), machines[1..], true, 1)
      else Turn(host, machines[1..], false, 0)
    else if !needsUpdate then Turn(host, machines, true, 0)
    else if updated then Turn(changed, machines, true, 1)
    else Turn(host, machines, false, 0)
  }

  function WithProvisioning(host: Host, machines: seq<Machine>, a: Answers): Turn {
    if host.status.provisioning != NoState && host.status.provisioning != Unmanaged then
      Turn(host, machines, true, 0)
    else
      Finish(host,
             host.(externallyProvisioned := true,
                   annotations := host.annotations - {PausedAnnotation}),
             machines, !host.externallyProvisioned || PausedAnnotation in host.annotations,
             host.name in a.updated)
  }

  function StatusText(host: Host): string {
    if StatusAnnotation in host.annotations then host.annotations[StatusAnnotation] else ""
  }

  /** A status whose annotation lacked the time of the last update gets the current one. */
  function Stamped(s: Status, now: nat): Status {
    if s.lastUpdated.None? then s.(lastUpdated := Some(now)) else s
  }

  function WithNoProvisioning(host: Host, machines: seq<Machine>, a: Answers): Turn {
    var text := StatusText(host);
    if text != "" && (text !in a.decodes || host.name !in a.statusUpdated) then
      Turn(host, machines, false, 0)
    else
      var current := if text == "" then host else host.(status := Stamped(a.decodes[text], a.now));
      var writes := if text == "" then 0 else 1;
      if text != "" && host.name !in a.refreshed then Turn(current, machines, false, writes)
      else
        var t := Finish(current, current.(annotations := current.annotations - {StatusAnnotation}),
                        machines, StatusAnnotation in current.annotations, host.name in a.updated);
        t.(writes := writes + t.writes)
  }

  function TakeTurn(host: Host, machines: seq<Machine>, a: Answers): (t: Turn)
    ensures t.host.name == host.name
  {
    if a.provisioning then WithProvisioning(host, machines, a)
    else WithNoProvisioning(host, machines, a)
  }

  /** The BareMetalHosts in the cluster, and the number of writes it accepted. */
  class Cluster {
    var hosts: Hosts
    var writes: nat

    constructor (hosts: Hosts)
      ensures this.hosts == hosts && writes == 0
    {
      this.hosts, writes := hosts, 0;
    }

    /** Writes everything but the status, which is a resource of its own. */
    method UpdateBMH(host: Host, accept: bool) returns (ok: bool)
      requires host.name in hosts
      modifies this
      ensures ok == accept
      ensures hosts == if ok then old(hosts)[host.name := host.(status := old(hosts)[host.name].status)]
                       else old(hosts)
      ensures writes == old(writes) + if ok then 1 else 0
    {
      ok := accept;
      if ok {
        hosts := hosts[host.name := host.(status := hosts[host.name].status)];
        writes := writes + 1;
      }
    }

    method UpdateBMHStatus(host: Host, accept: bool) returns (ok: bool)
      requires host.name in hosts
      modifies this
      ensures ok == accept
      ensures hosts == if ok then old(hosts)[host.name := old(hosts)[host.name].(status := host.status)]
                       else old(hosts)
      ensures writes == old(writes) + if ok then 1 else 0
    {
      ok := accept;
      if ok {
        hosts := hosts[host.name := hosts[host.name].(status := host.status)];
        writes := writes + 1;
      }
    }
  }

  /** Pops the head of the machine list for a host without a consumer. */
  method UpdateConsumerRef(host: Host, machines: seq<Machine>)
    returns (changed: Host, rest: seq<Machine>, ok: bool)
    ensures ok == (machines != [])
    ensures if ok then changed == host.(consumer := Some(RefTo(machines[0]))) && rest == machines[1..]
            else changed == host && rest == machines
  {
    changed, rest, ok := host, machines, false;
    if |machines| == 0 {
      return;
    }
    var machine := machines[0];
    rest := rest[1..];
    changed := changed.(consumer := Some(RefTo(machine)));
    ok := true;
  }

  method UpdateBMHWithProvisioning(cluster: Cluster, host: Host, machines: seq<Machine>, a: Answers)
    returns (rest: seq<Machine>, ok: bool)
    requires host.name in cluster.hosts && cluster.hosts[host.name] == host
    modifies cluster
    ensures var t := WithProvisioning(host, machines, a);
            && cluster.hosts == old(cluster.hosts)[host.name := t.host]
            && rest == t.machines && ok == t.ok && cluster.writes == old(cluster.writes) + t.writes
  {
    rest := machines;
    if host.status.provisioning != NoState && host.status.provisioning != Unmanaged {
      return rest, true;
    }
    var bmh := host;
    var needsUpdate := !bmh.externallyProvisioned;
    bmh := bmh.(externallyProvisioned := true);
    if PausedAnnotation in bmh.annotations {
      bmh := bmh.(annotations := bmh.annotations - {PausedAnnotation});
      needsUpdate := true;
    }
    assert host.annotations - {PausedAnnotation} == bmh.annotations;
    if bmh.consumer.None? {
      bmh, rest, ok := UpdateConsumerRef(bmh, rest);
      if !ok {
        return;
      }
      needsUpdate := true;
    }
    ok := true;
    if needsUpdate {
      ok := cluster.UpdateBMH(bmh, host.name in a.updated);
    }
  }

  method UpdateBMHWithNoProvisioning(cluster: Cluster, host: Host, machines: seq<Machine>, a: Answers)
    returns (rest: seq<Machine>, ok: bool)
    requires host.name in cluster.hosts && cluster.hosts[host.name] == host
    modifies cluster
    ensures var t := WithNoProvisioning(host, machines, a);
            && cluster.hosts == old(cluster.hosts)[host.name := t.host]
            && rest == t.machines && ok == t.ok && cluster.writes == old(cluster.writes) + t.writes
  {
    rest := machines;
    var bmh := host;
    var text := StatusText(bmh);
    if text != "" {
      if text !in a.decodes {
        return rest, false;
      }
      bmh := bmh.(status := Stamped(a.decodes[text], a.now));
      ok := cluster.UpdateBMHStatus(bmh, host.name in a.statusUpdated);
      if !ok {
        return;
      }
      if host.name !in a.refreshed {
        return rest, false;
      }
      bmh := cluster.hosts[host.name];
    }
    var needsUpdate := false;
    ghost var current := bmh;
    if StatusAnnotation in bmh.annotations {
      bmh := bmh.(annotations := bmh.annotations - {StatusAnnotation});
      needsUpdate := true;
    }
    assert current.annotations - {StatusAnnotation} == bmh.annotations;
    if bmh.consumer.None? {
      bmh, rest, ok := UpdateConsumerRef(bmh, rest);
      if !ok {
        return;
      }
      needsUpdate := true;
    }
    ok := true;
    if needsUpdate {
      ok := cluster.UpdateBMH(bmh, host.name in a.updated);
    }
  }

  // ---------------------------------------------------------------- one poll

  /** The listing holds every host once, in some order. */
  ghost predicate IsListing(order: seq<string>, hosts: Hosts) {
    && (forall i | 0 <= i < |order| :: order[i] in hosts)
    && (forall n <- hosts :: n in order)
    && (forall i, j | 0 <= i < j < |order| :: order[i] != order[j])
  }

  function Listing(hosts: Hosts, order: seq<string>): seq<Host>
    requires forall i | 0 <= i < |order| :: order[i] in hosts
  {
    seq(|order|, i requires 0 <= i < |order| => hosts[order[i]])
  }

  datatype Sweep = Sweep(hosts: Hosts, machines: seq<Machine>, ok: bool, writes: nat)

  /** The host called `n` takes its turn. */
  function NextTurn(s: Sweep, n: string, a: Answers): (next: Sweep)
    requires n in s.hosts
    ensures next.hosts.Keys == s.hosts.Keys
  {
    var t := TakeTurn(s.hosts[n], s.machines, a);
    Sweep(s.hosts[n := t.host], t.machines, s.ok && t.ok, s.writes + t.writes)
  }

  lemma ListingAt(hosts: Hosts, order: seq<string>, i: nat)
    requires Keyed(hosts) && IsListing(order, hosts) && i < |order|
    ensures Listing(hosts, order)[i] == hosts[order[i]] && hosts[order[i]].name == order[i]
  {
  }

  /** The hosts called `names` take their turns. */
  function TakeTurns(hosts: Hosts, names: seq<string>, machines: seq<Machine>, a: Answers): (s: Sweep)
    requires forall i | 0 <= i < |names| :: names[i] in hosts
    ensures s.hosts.Keys == hosts.Keys
    ensures Keyed(hosts) ==> Keyed(s.hosts)
  {
    if |names| == 0 then Sweep(hosts, machines, true, 0)
    else
      NextTurn(TakeTurns(hosts, names[..|names| - 1], machines, a), names[|names| - 1], a)
  }

  /** A host whose turn has not come is as it was. */
  lemma {:induction false} TurnsOfOthers(hosts: Hosts, names: seq<string>, machines: seq<Machine>,
                                         a: Answers, n: string)
    requires forall i | 0 <= i < |names| :: names[i] in hosts && names[i] != n
    requires n in hosts
    ensures TakeTurns(hosts, names, machines, a).hosts[n] == hosts[n]
  {
    if |names| > 0 {
      TurnsOfOthers(hosts, names[..|names| - 1], machines, a, n);
    }
  }

  lemma TakeTurnsStep(hosts: Hosts, names: seq<string>, i: nat, machines: seq<Machine>, a: Answers)
    requires IsListing(names, hosts) && i < |names|
    ensures var s := TakeTurns(hosts, names[..i], machines, a);
            && s.hosts[names[i]] == hosts[names[i]]
            && TakeTurns(hosts, names[..i + 1], machines, a) == NextTurn(s, names[i], a)
  {
    assert names[..i + 1][..i] == names[..i];
    TurnsOfOthers(hosts, names[..i], machines, a, names[i]);
  }

  method UpdateBMH(cluster: Cluster, host: Host, machines: seq<Machine>, a: Answers)
    returns (rest: seq<Machine>, ok: bool)
    requires host.name in cluster.hosts && cluster.hosts[host.name] == host
    modifies cluster
    ensures var t := TakeTurn(host, machines, a);
            && cluster.hosts == old(cluster.hosts)[host.name := t.host]
            && rest == t.machines && ok == t.ok && cluster.writes == old(cluster.writes) + t.writes
  {
    if a.provisioning {
      rest, ok := UpdateBMHWithProvisioning(cluster, host, machines, a);
    } else {
      rest, ok := UpdateBMHWithNoProvisioning(cluster, host, machines, a);
    }
  }

  method UpdateBMHs(cluster: Cluster, list: seq<Host>, machines: seq<Machine>, a: Answers)
    returns (allUpdated: bool)
    requires Keyed(cluster.hosts) && IsListing(a.order, cluster.hosts)
    requires list == Listing(cluster.hosts, a.order)
    modifies cluster
    ensures var s := TakeTurns(old(cluster.hosts), a.order, machines, a);
            if a.provisioningKnown then
              && cluster.hosts == s.hosts && allUpdated == s.ok
              && cluster.writes == old(cluster.writes) + s.writes
            else
              cluster.hosts == old(cluster.hosts) && !allUpdated && cluster.writes == old(cluster.writes)
  {
    if !a.provisioningKnown {
      return false;
    }
    ghost var start, s := cluster.hosts, Sweep(cluster.hosts, machines, true, 0);
    var left := machines;
    allUpdated := true;
    for i := 0 to |list|
      invariant s == TakeTurns(start, a.order[..i], machines, a)
      invariant cluster.hosts == s.hosts && left == s.machines && allUpdated == s.ok
      invariant cluster.writes == old(cluster.writes) + s.writes
    {
      var bmh, ok := list[i], true;
      TakeTurnsStep(start, a.order, i, machines, a);
      ListingAt(start, a.order, i);
      left, ok := UpdateBMH(cluster, bmh, left, a);
      if !ok {
        allUpdated := false;
      }
      s := NextTurn(s, a.order[i], a);
    }
    assert a.order[..|list|] == a.order;
  }

  /** One poll of UpdateBMHs. */
  function Poll(hosts: Hosts, a: Answers): Sweep
    requires forall i | 0 <= i < |a.order| :: a.order[i] in hosts
  {
    if !a.listed || !a.machinesListed || !a.provisioningKnown then Sweep(hosts, [], false, 0)
    else TakeTurns(hosts, a.order, Unallocated(a.machines, Listing(hosts, a.order)), a)
  }

  method PollOnce(cluster: Cluster, a: Answers) returns (exit: bool)
    requires Keyed(cluster.hosts) && IsListing(a.order, cluster.hosts)
    modifies cluster
    ensures var s := Poll(old(cluster.hosts), a);
            && cluster.hosts == s.hosts && exit == s.ok
            && cluster.writes == old(cluster.writes) + s.writes
  {
    if !a.listed {
      return false;
    }
    var list := Listing(cluster.hosts, a.order);
    if !a.machinesListed {
      return false;
    }
    var items := new Machine[|a.machines|](i requires 0 <= i < |a.machines| => a.machines[i]);
    assert items[..] == a.machines;
    var n := UnallocatedMachines(items, list);
    exit := UpdateBMHs(cluster, list, items[..n], a);
  }

  // ---------------------------------------------------------------- the allocation is injective

  /** No Machine is the consumer of two hosts. */
  ghost predicate Injective(hosts: Hosts) {
    forall m, n | m in hosts && n in hosts && m != n ::
      hosts[m].consumer.Some? && hosts[n].consumer.Some? ==>
        hosts[m].consumer.value.name != hosts[n].consumer.value.name
  }

  ghost predicate DistinctNames(machines: seq<Machine>) {
    forall i, j | 0 <= i < j < |machines| :: machines[i].name != machines[j].name
  }

  /** No host refers to any of the machines, and they have different names. */
  ghost predicate Available(hosts: Hosts, machines: seq<Machine>) {
    && DistinctNames(machines)
    && forall n <- hosts, i | 0 <= i < |machines| :: !RefersTo(hosts[n], machines[i])
  }

  /** The turn sets a consumer only where there was none, and only to the machine it takes. */
  ghost predicate TakesTheHead(host: Host, machines: seq<Machine>, t: Turn) {
    && (t.machines == machines || (machines != [] && t.machines == machines[1..]))
    && (t.host.consumer != host.consumer ==>
          && host.consumer.None? && machines != [] && t.machines == machines[1..]
          && t.host.consumer == Some(RefTo(machines[0])))
  }

  lemma TurnTakesTheHead(host: Host, machines: seq<Machine>, a: Answers)
    ensures TakesTheHead(host, machines, TakeTurn(host, machines, a))
  {
  }

  /** A consumer in `after` is the one in `before`, or where there was none a machine of the list. */
  ghost predicate Keeps(before: Hosts, after: Hosts, machines: seq<Machine>) {
    && after.Keys == before.Keys
    && forall n <- before ::
         after[n].consumer == before[n].consumer
         || (before[n].consumer.None?
             && exists i :: 0 <= i < |machines| && after[n].consumer == Some(RefTo(machines[i])))
  }

  lemma TurnKeepsInjective(hosts: Hosts, n: string, machines: seq<Machine>, t: Turn)
    requires n in hosts && TakesTheHead(hosts[n], machines, t)
    requires Injective(hosts) && Available(hosts, machines)
    ensures var after := hosts[n := t.host];
            Injective(after) && Available(after, t.machines) && Keeps(hosts, after, machines)
  {
  }

  lemma KeepsTrans(a: Hosts, b: Hosts, c: Hosts, machines: seq<Machine>, k: nat)
    requires k <= |machines| && Keeps(a, b, machines) && Keeps(b, c, machines[k..])
    ensures Keeps(a, c, machines)
  {
  }

  lemma {:induction false} TurnsKeepInjective(hosts: Hosts, names: seq<string>, machines: seq<Machine>,
                                              a: Answers) returns (k: nat)
    requires forall i | 0 <= i < |names| :: names[i] in hosts
    requires Injective(hosts) && Available(hosts, machines)
    ensures var s := TakeTurns(hosts, names, machines, a);
            && Injective(s.hosts) && Available(s.hosts, s.machines)
            && Keeps(hosts, s.hosts, machines)
            && k <= |machines| && s.machines == machines[k..]
  {
    if |names| == 0 {
      k := 0;
    } else {
      var n := names[|names| - 1];
      k := TurnsKeepInjective(hosts, names[..|names| - 1], machines, a);
      var s := TakeTurns(hosts, names[..|names| - 1], machines, a);
      var t := TakeTurn(s.hosts[n], s.machines, a);
      TurnTakesTheHead(s.hosts[n], s.machines, a);
      TurnKeepsInjective(s.hosts, n, s.machines, t);
      KeepsTrans(hosts, s.hosts, s.hosts[n := t.host], machines, k);
      if t.machines != s.machines {
        k := k + 1;
      }
    }
  }

  /** What is left of the machine list: members of it, free, with different names, none missing. */
  lemma {:induction false} UnallocatedIsFree(machines: seq<Machine>, list: seq<Host>)
    ensures var free := Unallocated(machines, list);
            && (forall i | 0 <= i < |free| ::
                  free[i] in machines && free[i].role == Some("worker") && IsFree(free[i], list))
            && (forall i, k | 0 <= i < |free| && 0 <= k < |list| ::
                  list[k].consumer.Some? ==> list[k].consumer.value.name != free[i].name)
            && (forall m | m in machines && m.role == Some("worker")
                           && (forall k | 0 <= k < |list| ::
                                 list[k].consumer.Some? ==> list[k].consumer.value.name != m.name) ::
                  m in free)
            && (DistinctNames(machines) ==> DistinctNames(free))
  {
    if |machines| > 0 {
      var prefix := machines[..|machines| - 1];
      UnallocatedIsFree(prefix, list);
      assert machines == prefix + [machines[|machines| - 1]];
      forall i | 0 <= i < |Unallocated(machines, list)|
        ensures Unallocated(machines, list)[i] in machines
        ensures IsFree(Unallocated(machines, list)[i], list)
      {
        if i < |Unallocated(prefix, list)| {
          assert Unallocated(machines, list)[i] == Unallocated(prefix, list)[i];
          assert Unallocated(prefix, list)[i] in prefix;
        }
      }
    }
  }

  /** A machine the poll may hand out: a worker of its machine list that no host refers to. */
  ghost predicate FreeWorker(hosts: Hosts, machines: seq<Machine>, m: Machine) {
    && m in machines && m.role == Some("worker")
    && forall n <- hosts :: hosts[n].consumer.Some? ==> hosts[n].consumer.value.name != m.name
  }

  lemma FreeIsAvailable(hosts: Hosts, a: Answers)
    requires IsListing(a.order, hosts) && DistinctNames(a.machines)
    ensures var free := Unallocated(a.machines, Listing(hosts, a.order));
            && Available(hosts, free)
            && forall i | 0 <= i < |free| :: FreeWorker(hosts, a.machines, free[i])
  {
    var list := Listing(hosts, a.order);
    var free := Unallocated(a.machines, list);
    UnallocatedIsFree(a.machines, list);
    forall n, i | n in hosts && 0 <= i < |free|
      ensures !RefersTo(hosts[n], free[i])
    {
      var k :| 0 <= k < |a.order| && a.order[k] == n;
      assert list[k] == hosts[n];
    }
  }

  /** A poll keeps the allocation injective, never changes a consumer that is set, and sets one only
      to a free worker. */
  lemma PollKeepsInjective(hosts: Hosts, a: Answers)
    requires IsListing(a.order, hosts) && DistinctNames(a.machines) && Injective(hosts)
    ensures var after := Poll(hosts, a).hosts;
            && Injective(after) && after.Keys == hosts.Keys
            && forall n <- hosts | after[n].consumer != hosts[n].consumer ::
                 hosts[n].consumer.None?
                 && exists m :: FreeWorker(hosts, a.machines, m) && PointsTo(after[n].consumer, m)
  {
    var free := Unallocated(a.machines, Listing(hosts, a.order));
    FreeIsAvailable(hosts, a);
    var _ := TurnsKeepInjective(hosts, a.order, free, a);
    var after := Poll(hosts, a).hosts;
    forall n | n in hosts && after[n].consumer != hosts[n].consumer
      ensures exists m :: FreeWorker(hosts, a.machines, m) && PointsTo(after[n].consumer, m)
    {
      var i :| 0 <= i < |free| && after[n].consumer == Some(RefTo(free[i]));
      assert FreeWorker(hosts, a.machines, free[i]) && PointsTo(after[n].consumer, free[i]);
    }
  }

  // ---------------------------------------------------------------- what a turn writes

  /** The reference to a machine: its version, kind, namespace and name. */
  predicate PointsTo(consumer: Option<Ref>, m: Machine) {
    && consumer.Some? && consumer.value.apiVersion == m.apiVersion && consumer.value.kind == m.kind
    && consumer.value.namespace == m.namespace && consumer.value.name == m.name
  }

  /** The status a decoded annotation stands for: what it says, and the time it says or else `now`. */
  predicate SaysStatus(s: Status, decoded: Status, now: nat) {
    && s.provisioning == decoded.provisioning && s.rest == decoded.rest
    && s.lastUpdated == if decoded.lastUpdated.Some? then decoded.lastUpdated else Some(now)
  }

  /** The host carries a status annotation that is not empty, can be decoded, and is written. */
  predicate CopiesStatus(host: Host, a: Answers) {
    && StatusAnnotation in host.annotations && host.annotations[StatusAnnotation] != ""
    && host.annotations[StatusAnnotation] in a.decodes && host.name in a.statusUpdated
  }

  /**
   A turn without a provisioning CR. The decoded status is written first, if there is one; only if that
   and the refresh go well does one update drop the annotation and set the consumer.
   */
  lemma TurnWithoutCR(host: Host, machines: seq<Machine>, a: Answers)
    requires !a.provisioning
    ensures var t := TakeTurn(host, machines, a);
            var reached := (StatusAnnotation in host.annotations
                            && host.annotations[StatusAnnotation] != "") ==>
                           CopiesStatus(host, a) && host.name in a.refreshed;
            var needs := host.consumer.None?;
            var takes := reached && needs && machines != [];
            var writes := takes || (reached && !needs && StatusAnnotation in host.annotations);
            var written := writes && host.name in a.updated;
            && (if CopiesStatus(host, a)
                then SaysStatus(t.host.status, a.decodes[host.annotations[StatusAnnotation]], a.now)
                else t.host.status == host.status)
            && t.host.annotations == (if written then host.annotations - {StatusAnnotation}
                                      else host.annotations)
            && (if written && takes then PointsTo(t.host.consumer, machines[0])
                else t.host.consumer == host.consumer)
            && t.host.externallyProvisioned == host.externallyProvisioned
            && t.machines == (if takes then machines[1..] else machines)
            && t.ok == (reached && (needs ==> machines != []) && (writes ==> written))
            && t.writes == (if CopiesStatus(host, a) then 1 else 0) + (if written then 1 else 0)
  {
  }

  /** A turn with a provisioning CR: one update marks the host as externally provisioned, drops the pause
      annotation and sets the consumer, if the host is not provisioned yet. */
  lemma TurnWithCR(host: Host, machines: seq<Machine>, a: Answers)
    requires a.provisioning
    ensures var t := TakeTurn(host, machines, a);
            var reached := host.status.provisioning == NoState || host.status.provisioning == Unmanaged;
            var needs := host.consumer.None?;
            var takes := reached && needs && machines != [];
            var writes := takes || (reached && !needs && (!host.externallyProvisioned
                                                          || PausedAnnotation in host.annotations));
            var written := writes && host.name in a.updated;
            && t.host.status == host.status
            && t.host.annotations == (if written then host.annotations - {PausedAnnotation}
                                      else host.annotations)
            && (if written && takes then PointsTo(t.host.consumer, machines[0])
                else t.host.consumer == host.consumer)
            && t.host.externallyProvisioned == (host.externallyProvisioned || written)
            && t.machines == (if takes then machines[1..] else machines)
            && t.ok == ((reached && needs ==> machines != []) && (writes ==> written))
            && t.writes == (if written then 1 else 0)
  {
  }

  /** In a poll that gets to the hosts, each of them takes exactly one turn. */
  lemma {:induction false} TurnInSweep(hosts: Hosts, names: seq<string>, machines: seq<Machine>,
                                       a: Answers, k: nat) returns (left: seq<Machine>)
    requires forall i | 0 <= i < |names| :: names[i] in hosts
    requires forall i, j | 0 <= i < j < |names| :: names[i] != names[j]
    requires k < |names|
    ensures TakeTurns(hosts, names, machines, a).hosts[names[k]] == TakeTurn(hosts[names[k]], left, a).host
    ensures TakeTurns(hosts, names, machines, a).ok ==> TakeTurn(hosts[names[k]], left, a).ok
  {
    var prefix, last := names[..|names| - 1], names[|names| - 1];
    if k < |prefix| {
      left := TurnInSweep(hosts, prefix, machines, a, k);
    } else {
      left := TakeTurns(hosts, prefix, machines, a).machines;
      TurnsOfOthers(hosts, prefix, machines, a, last);
    }
  }

  lemma TurnInPoll(hosts: Hosts, a: Answers, n: string) returns (left: seq<Machine>)
    requires IsListing(a.order, hosts) && n in hosts
    requires a.listed && a.machinesListed && a.provisioningKnown
    ensures Poll(hosts, a).hosts[n] == TakeTurn(hosts[n], left, a).host
    ensures Poll(hosts, a).ok ==> TakeTurn(hosts[n], left, a).ok
  {
    var k :| 0 <= k < |a.order| && a.order[k] == n;
    left := TurnInSweep(hosts, a.order, Unallocated(a.machines, Listing(hosts, a.order)), a, k);
  }

  /**
   Over a poll without a provisioning CR no status is lost: a host's status is replaced by what its
   annotation says, exactly if that can be decoded and is accepted; the annotation only goes from a host
   that has nothing to decode or whose status was replaced; everything else but the consumer stays.
   */
  lemma PollCopiesStatus(hosts: Hosts, a: Answers, n: string)
    requires IsListing(a.order, hosts) && n in hosts && Keyed(hosts) && !a.provisioning
    requires a.listed && a.machinesListed && a.provisioningKnown
    ensures var before, after := hosts[n], Poll(hosts, a).hosts[n];
            && (if CopiesStatus(before, a)
                then SaysStatus(after.status, a.decodes[before.annotations[StatusAnnotation]], a.now)
                else after.status == before.status)
            && (after.annotations == before.annotations
                || (after.annotations == before.annotations - {StatusAnnotation}
                    && (StatusAnnotation in before.annotations ==>
                          before.annotations[StatusAnnotation] == "" || CopiesStatus(before, a))))
            && after.externallyProvisioned == before.externallyProvisioned
            && (Poll(hosts, a).ok ==> StatusAnnotation !in after.annotations && after.consumer.Some?)
  {
    var left := TurnInPoll(hosts, a, n);
    TurnWithoutCR(hosts[n], left, a);
  }

  /** Over a poll with a provisioning CR no status changes; a host is only ever marked as externally
      provisioned, and loses no annotation but the pause. */
  lemma PollProvisions(hosts: Hosts, a: Answers, n: string)
    requires IsListing(a.order, hosts) && n in hosts && Keyed(hosts) && a.provisioning
    requires a.listed && a.machinesListed && a.provisioningKnown
    ensures var before, after := hosts[n], Poll(hosts, a).hosts[n];
            && after.status == before.status
            && (after == before
                || (after.externallyProvisioned
                    && after.annotations == before.annotations - {PausedAnnotation}
                    && after.consumer.Some?
                    && before.status.provisioning in {NoState, Unmanaged}))
            && (Poll(hosts, a).ok && before.status.provisioning in {NoState, Unmanaged} ==>
                  after.externallyProvisioned && PausedAnnotation !in after.annotations
                  && after.consumer.Some?)
  {
    var left := TurnInPoll(hosts, a, n);
    TurnWithCR(hosts[n], left, a);
  }

  /** A poll that cannot list the hosts or the machines, or does not know the kind of cluster, is over
      before it begins. */
  lemma PollStopsEarly(hosts: Hosts, a: Answers)
    requires IsListing(a.order, hosts)
    requires !a.listed || !a.machinesListed || !a.provisioningKnown
    ensures Poll(hosts, a).hosts == hosts && !Poll(hosts, a).ok && Poll(hosts, a).writes == 0
  {
  }

  // ---------------------------------------------------------------- whole runs

  /** A poll of a run, and the hosts it started from. */
  datatype Record = Record(before: Hosts, answers: Answers)
  {
    ghost predicate WellFormed() {
      IsListing(answers.order, before) && DistinctNames(answers.machines)
    }

    ghost function After(): Hosts
      requires WellFormed()
    {
      Poll(before, answers).hosts
    }
  }

  /** Between polls hosts come and go and change, but nobody else writes a consumer. */
  ghost predicate KeepsConsumers(before: Hosts, after: Hosts) {
    forall n <- after ::
      if n in before then after[n].consumer == before[n].consumer else after[n].consumer.None?
  }

  ghost predicate Run(polls: seq<Record>) {
    && (forall i | 0 <= i < |polls| :: polls[i].WellFormed())
    && (forall i | 0 < i < |polls| :: KeepsConsumers(polls[i - 1].After(), polls[i].before))
  }

  /** The hosts after the first `k` turns of a poll. */
  ghost function Midway(hosts: Hosts, a: Answers, k: nat): Hosts
    requires IsListing(a.order, hosts) && k <= |a.order|
  {
    if !a.listed || !a.machinesListed || !a.provisioningKnown then hosts
    else TakeTurns(hosts, a.order[..k], Unallocated(a.machines, Listing(hosts, a.order)), a).hosts
  }

  /** In the middle of a poll the allocation is injective too. */
  lemma MidwayIsInjective(hosts: Hosts, a: Answers, k: nat)
    requires IsListing(a.order, hosts) && DistinctNames(a.machines) && Injective(hosts)
    requires k <= |a.order|
    ensures Injective(Midway(hosts, a, k))
  {
    FreeIsAvailable(hosts, a);
    var free := Unallocated(a.machines, Listing(hosts, a.order));
    var _ := TurnsKeepInjective(hosts, a.order[..k], free, a);
  }

  /** A poll is its turns, one after the other. */
  lemma MidwayIsPoll(hosts: Hosts, a: Answers)
    requires IsListing(a.order, hosts)
    ensures Midway(hosts, a, 0) == hosts
    ensures Midway(hosts, a, |a.order|) == Poll(hosts, a).hosts
  {
    assert a.order[..|a.order|] == a.order;
  }

  /** Before and after every poll of a run no Machine is the consumer of two hosts. */
  lemma {:induction false} RunIsInjective(polls: seq<Record>, i: nat)
    requires Run(polls) && i < |polls| && Injective(polls[0].before)
    ensures Injective(polls[i].before) && Injective(polls[i].After())
  {
    if i > 0 {
      RunIsInjective(polls, i - 1);
      assert KeepsConsumers(polls[i - 1].After(), polls[i].before);
    }
    PollKeepsInjective(polls[i].before, polls[i].answers);
  }

  /** At no point of a run, after whichever turn of whichever poll, is a Machine the consumer of two
      hosts. */
  lemma RunIsInjectiveThroughout(polls: seq<Record>, i: nat, k: nat)
    requires Run(polls) && i < |polls| && k <= |polls[i].answers.order| && Injective(polls[0].before)
    ensures Injective(Midway(polls[i].before, polls[i].answers, k))
  {
    RunIsInjective(polls, i);
    MidwayIsInjective(polls[i].before, polls[i].answers, k);
  }

  /** A poll of a run keeps a consumer that is set. */
  lemma PollKeepsConsumer(polls: seq<Record>, j: nat, n: string)
    requires Run(polls) && j < |polls| && Injective(polls[0].before)
    requires n in polls[j].before && polls[j].before[n].consumer.Some?
    ensures n in polls[j].After() && polls[j].After()[n].consumer == polls[j].before[n].consumer
  {
    RunIsInjective(polls, j);
    PollKeepsInjective(polls[j].before, polls[j].answers);
  }

  /** Once set, a consumer stays the same for as long as its host exists. */
  lemma {:induction false} RunNeverReassigns(polls: seq<Record>, i: nat, j: nat, n: string)
    requires Run(polls) && i <= j < |polls| && Injective(polls[0].before)
    requires forall k | i <= k <= j :: n in polls[k].before
    requires polls[i].before[n].consumer.Some?
    ensures polls[j].before[n].consumer == polls[i].before[n].consumer
    ensures polls[j].After()[n].consumer == polls[i].before[n].consumer
  {
    if i < j {
      RunNeverReassigns(polls, i, j - 1, n);
      assert KeepsConsumers(polls[j - 1].After(), polls[j].before);
    }
    PollKeepsConsumer(polls, j, n);
  }

  // ---------------------------------------------------------------- polls without failures

  predicate Needy(host: Host, provisioning: bool) {
    && host.consumer.None?
    && (provisioning ==> host.status.provisioning in {NoState, Unmanaged})
  }

  /** Every call made for the host succeeds, and its status annotation, if any, can be decoded. */
  predicate GoesThrough(host: Host, a: Answers) {
    && host.name in a.updated && host.name in a.statusUpdated && host.name in a.refreshed
    && (StatusText(host) == "" || StatusText(host) in a.decodes)
  }

  lemma TurnWithoutFailure(host: Host, machines: seq<Machine>, a: Answers)
    requires GoesThrough(host, a)
    ensures var t := TakeTurn(host, machines, a);
            if !Needy(host, a.provisioning) then
              t.ok && t.host.consumer == host.consumer && t.machines == machines
            else if machines == [] then
              !t.ok && t.host.consumer == None && t.machines == []
            else
              t.ok && t.host.consumer == Some(RefTo(machines[0])) && t.machines == machines[1..]
  {
  }

  /** The hosts among `names` that wait for a machine. */
  function Waiting(hosts: Hosts, names: seq<string>, provisioning: bool): set<string> {
    set n | n in names && n in hosts && Needy(hosts[n], provisioning)
  }

  /** The hosts that got their machine. */
  function Assigned(before: Hosts, after: Hosts): set<string> {
    set n | n in before && n in after && before[n].consumer.None? && after[n].consumer.Some?
  }

  function Min(a: nat, b: nat): nat {
    if a < b then a else b
  }

  lemma WaitingStep(hosts: Hosts, names: seq<string>, provisioning: bool)
    requires |names| > 0 && names[|names| - 1] in hosts
    requires forall i | 0 <= i < |names| - 1 :: names[i] != names[|names| - 1]
    ensures var n := names[|names| - 1];
            |Waiting(hosts, names, provisioning)|
            == |Waiting(hosts, names[..|names| - 1], provisioning)|
               + if Needy(hosts[n], provisioning) then 1 else 0
  {
    var n := names[|names| - 1];
    assert names == names[..|names| - 1] + [n];
    assert Waiting(hosts, names, provisioning)
        == Waiting(hosts, names[..|names| - 1], provisioning)
           + if Needy(hosts[n], provisioning) then {n} else {};
  }

  lemma AssignedStep(before: Hosts, after: Hosts, n: string, host: Host)
    requires n in before && n in after && after[n] == before[n]
    ensures |Assigned(before, after[n := host])|
         == |Assigned(before, after)| + if before[n].consumer.None? && host.consumer.Some? then 1 else 0
  {
    var served := before[n].consumer.None? && host.consumer.Some?;
    assert n !in Assigned(before, after);
    assert n in Assigned(before, after[n := host]) <==> served;
    assert Assigned(before, after[n := host]) == Assigned(before, after) + if served then {n} else {};
  }

  lemma LeftOver(machines: seq<Machine>, served: nat)
    ensures var rest := machines[Min(served, |machines|)..];
            && (rest == [] <==> served >= |machines|)
            && machines[Min(served + 1, |machines|)..] == if rest == [] then [] else rest[1..]
  {
  }

  lemma {:induction false} TurnsWithoutFailure(hosts: Hosts, names: seq<string>,
                                               machines: seq<Machine>, a: Answers)
    requires forall i | 0 <= i < |names| :: names[i] in hosts && GoesThrough(hosts[names[i]], a)
    requires forall i, j | 0 <= i < j < |names| :: names[i] != names[j]
    ensures var s := TakeTurns(hosts, names, machines, a);
            var needy := |Waiting(hosts, names, a.provisioning)|;
            && s.ok == (needy <= |machines|)
            && s.machines == machines[Min(needy, |machines|)..]
            && |Assigned(hosts, s.hosts)| == Min(needy, |machines|)
  {
    if |names| == 0 {
      assert Waiting(hosts, names, a.provisioning) == {};
      assert Assigned(hosts, hosts) == {};
    } else {
      var n := names[|names| - 1];
      var prefix := names[..|names| - 1];
      TurnsWithoutFailure(hosts, prefix, machines, a);
      TurnsOfOthers(hosts, prefix, machines, a, n);
      var s := TakeTurns(hosts, prefix, machines, a);
      var t := TakeTurn(s.hosts[n], s.machines, a);
      TurnWithoutFailure(s.hosts[n], s.machines, a);
      LeftOver(machines, |Waiting(hosts, prefix, a.provisioning)|);
      WaitingStep(hosts, names, a.provisioning);
      AssignedStep(hosts, s.hosts, n, t.host);
    }
  }

  lemma AllWaitingAreListed(hosts: Hosts, order: seq<string>, provisioning: bool)
    requires IsListing(order, hosts)
    ensures Waiting(hosts, order, provisioning)
         == set n | n in hosts && Needy(hosts[n], provisioning)
  {
  }

  /**
   Without failures a poll gives a machine to as many hosts as it can: all that wait for one, or as
   many as there are free machines; and it says whether it served them all.
   */
  lemma PollServes(hosts: Hosts, a: Answers)
    requires IsListing(a.order, hosts)
    requires a.listed && a.machinesListed && a.provisioningKnown
    requires forall n <- hosts :: GoesThrough(hosts[n], a)
    ensures var free := Unallocated(a.machines, Listing(hosts, a.order));
            var needy := set n | n in hosts && Needy(hosts[n], a.provisioning);
            && Poll(hosts, a).ok == (|needy| <= |free|)
            && |Assigned(hosts, Poll(hosts, a).hosts)| == Min(|needy|, |free|)
  {
    TurnsWithoutFailure(hosts, a.order, Unallocated(a.machines, Listing(hosts, a.order)), a);
    AllWaitingAreListed(hosts, a.order, a.provisioning);
  }

  // ---------------------------------------------------------------- after a successful poll

  /** Nothing is left to do for the host. */
  predicate Settled(host: Host, provisioning: bool) {
    if provisioning then
      || host.status.provisioning !in {NoState, Unmanaged}
      || (host.externallyProvisioned && PausedAnnotation !in host.annotations && host.consumer.Some?)
    else
      StatusAnnotation !in host.annotations && host.consumer.Some?
  }

  lemma GoodTurnSettles(host: Host, machines: seq<Machine>, a: Answers)
    requires TakeTurn(host, machines, a).ok
    ensures Settled(TakeTurn(host, machines, a).host, a.provisioning)
  {
  }

  lemma SettledTurnIsIdle(host: Host, machines: seq<Machine>, a: Answers)
    requires Settled(host, a.provisioning)
    ensures TakeTurn(host, machines, a) == Turn(host, machines, true, 0)
  {
  }

  lemma {:induction false} GoodTurnsSettle(hosts: Hosts, names: seq<string>, machines: seq<Machine>,
                                           a: Answers)
    requires forall i | 0 <= i < |names| :: names[i] in hosts
    requires TakeTurns(hosts, names, machines, a).ok
    ensures forall i | 0 <= i < |names| ::
              Settled(TakeTurns(hosts, names, machines, a).hosts[names[i]], a.provisioning)
  {
    if |names| > 0 {
      var prefix := names[..|names| - 1];
      GoodTurnsSettle(hosts, prefix, machines, a);
      var s := TakeTurns(hosts, prefix, machines, a);
      GoodTurnSettles(s.hosts[names[|names| - 1]], s.machines, a);
      forall i | 0 <= i < |names|
        ensures Settled(TakeTurns(hosts, names, machines, a).hosts[names[i]], a.provisioning)
      {
        if i < |prefix| {
          assert names[i] == prefix[i];
        }
      }
    }
  }

  lemma {:induction false} SettledTurnsAreIdle(hosts: Hosts, names: seq<string>,
                                               machines: seq<Machine>, a: Answers)
    requires forall i | 0 <= i < |names| ::
               names[i] in hosts && Settled(hosts[names[i]], a.provisioning)
    ensures TakeTurns(hosts, names, machines, a) == Sweep(hosts, machines, true, 0)
  {
    if |names| > 0 {
      SettledTurnsAreIdle(hosts, names[..|names| - 1], machines, a);
      SettledTurnIsIdle(hosts[names[|names| - 1]], machines, a);
    }
  }

  /** After a poll that says it is finished, another one writes nothing and says so too. */
  lemma SecondPollIsIdle(hosts: Hosts, a: Answers, b: Answers)
    requires IsListing(a.order, hosts) && IsListing(b.order, hosts)
    requires Poll(hosts, a).ok
    requires b.listed && b.machinesListed && b.provisioningKnown && b.provisioning == a.provisioning
    ensures var after := Poll(hosts, a).hosts;
            && Poll(after, b).ok && Poll(after, b).hosts == after && Poll(after, b).writes == 0
  {
    var after := Poll(hosts, a).hosts;
    GoodTurnsSettle(hosts, a.order, Unallocated(a.machines, Listing(hosts, a.order)), a);
    forall i | 0 <= i < |b.order|
      ensures Settled(after[b.order[i]], b.provisioning)
    {
      var k :| 0 <= k < |a.order| && a.order[k] == b.order[i];
    }
    SettledTurnsAreIdle(after, b.order, Unallocated(b.machines, Listing(after, b.order)), b);
  }
}
