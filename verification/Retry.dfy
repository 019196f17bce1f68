/**
 Retrying and polling (RetryWithContext and WaitForeverForPredicateWithCancel in src/utils/utils.go),
 and the controller's deletion of services that hold the address of the cluster's DNS service
 (HackDNSAddressConflict in src/assisted_installer_controller/assisted_installer_controller.go).

 The calls of a retried function are numbered from 0; `succeeds` are the calls that return no error.
 */
module Retry {
  import opened Wrappers

  function Max(a: int, b: int): int {
    if a < b then b else a
  }

  /** How many calls are made when the first of `stops` ends the series. */
  function CallsMade(attempts: int, stops: set<nat>): (calls: nat)
    ensures 1 <= calls <= Max(1, attempts)
    ensures forall k: nat | k < calls - 1 :: k !in stops
    ensures calls < attempts ==> calls - 1 in stops
  {
    if attempts <= 1 then 1
    else
      var calls := CallsMade(attempts - 1, stops);
      if calls - 1 in stops then calls else calls + 1
  }

  /** `cancelled` are the calls after which the context is seen to be done before the ticker. */
  method RetryWithContext(attempts: int, succeeds: set<nat>, cancelled: set<nat>)
    returns (ok: bool, calls: nat)
    ensures calls == CallsMade(attempts, succeeds + cancelled)
    ensures ok <==> calls - 1 in succeeds
  {
    calls := 0;
    while calls < attempts - 1
      invariant calls <= Max(0, attempts - 1)
      invariant forall k: nat | k < calls :: k !in succeeds && k !in cancelled
    {
      calls := calls + 1;
      if calls - 1 in succeeds {
        return true, calls;
      }
      if calls - 1 in cancelled {
        return false, calls;
      }
    }
    calls := calls + 1;
    ok := calls - 1 in succeeds;
  }

  /**
   Whether the derived context is done when the worker has been called for the `k`-th time: the parent
   was done, or one of the calls of the cancel predicate so far returned true.
   */
  ghost predicate ContextDone(k: nat, parentDone: set<nat>, cancels: set<nat>) {
    exists j :: 0 <= j <= k && (j in parentDone || j in cancels)
  }

  /**
   `worker` are the calls of the worker that return true, and `doneFirst` those after which the select
   would take a done context rather than a tick. The wait is one that ends: `until` is a call at
   which it does so at the latest.
   */
  method WaitForeverForPredicateWithCancel(worker: set<nat>, cancels: set<nat>, parentDone: set<nat>,
                                           doneFirst: set<nat>, ghost until: nat)
    returns (ok: bool, calls: nat)
    requires until in worker || (until in doneFirst && ContextDone(until, parentDone, cancels))
    ensures 1 <= calls <= until + 1
    ensures forall k: nat | k < calls - 1 :: k !in worker
    ensures ok <==> calls - 1 in worker
    ensures !ok ==> ContextDone(calls - 1, parentDone, cancels)
    ensures forall k: nat | k < calls - 1 :: k in doneFirst ==> !ContextDone(k, parentDone, cancels)
  {
    calls := 0;
    var isDone := false;
    while true
      invariant calls <= until
      invariant forall k: nat | k < calls :: k !in worker
      invariant isDone <==> calls > 0 && ContextDone(calls - 1, parentDone, cancels)
      invariant forall k: nat | k < calls :: k in doneFirst ==> !ContextDone(k, parentDone, cancels)
      decreases until - calls
    {
      calls := calls + 1;
      if calls - 1 in worker {
        return true, calls;
      }
      if calls - 1 in cancels {
        isDone := true;
      }
      if calls - 1 in parentDone {
        isDone := true;
      }
      if isDone && calls - 1 in doneFirst {
        return false, calls;
      }
    }
  }

  // ---------------------------------------------------------------- the DNS service's address

  const MAX_DELETION_ATTEMPTS := 5
  const MAX_DNS_SERVICE_IP_ATTEMPTS := 45

  datatype Service = Service(name: string, namespace: string, ip: string)

  predicate IsDns(s: Service) {
    s.name == "dns-default" && s.namespace == "openshift-dns"
  }

  /** A call made to the cluster, and whether it succeeded. */
  datatype Call = DeleteService(service: Service, ok: bool) | DeletePods(ok: bool)

  /** What an attempt meets: the services, if they can be listed, and the deletions that succeed. */
  datatype Attempt = Attempt(services: Option<seq<Service>>, deletions: set<nat>,
                             podDeletions: set<nat>)

  function FirstWithIP(ip: string, services: seq<Service>): (found: Option<Service>)
    ensures found.None? <==> forall i | 0 <= i < |services| :: services[i].ip != ip
    ensures found.Some? ==> found.value in services && found.value.ip == ip
  {
    if |services| == 0 then None
    else if services[0].ip == ip then Some(services[0])
    else FirstWithIP(ip, services[1..])
  }

  method FindServiceByIP(ip: string, services: seq<Service>) returns (found: Option<Service>)
    ensures found == FirstWithIP(ip, services)
  {
    for i := 0 to |services|
      invariant FirstWithIP(ip, services) == FirstWithIP(ip, services[i..])
    {
      if services[i].ip == ip {
        return Some(services[i]);
      }
      assert services[i..][1..] == services[i + 1..];
    }
    found := None;
  }

  /** The calls of a retried deletion. */
  function ServiceDeletions(s: Service, succeeds: set<nat>): seq<Call> {
    seq(CallsMade(MAX_DELETION_ATTEMPTS, succeeds), k => DeleteService(s, k in succeeds))
  }

  function PodDeletions(succeeds: set<nat>): seq<Call> {
    seq(CallsMade(MAX_DELETION_ATTEMPTS, succeeds), k => DeletePods(k in succeeds))
  }

  method KillConflictingService(s: Service, succeeds: set<nat>) returns (ok: bool, calls: seq<Call>)
    ensures calls == ServiceDeletions(s, succeeds)
    ensures ok <==> calls[|calls| - 1] == DeleteService(s, true)
  {
    var n;
    ok, n := RetryWithContext(MAX_DELETION_ATTEMPTS, succeeds, {});
    assert succeeds + {} == succeeds;
    calls := seq(n, k => DeleteService(s, k in succeeds));
  }

  method DeleteDNSOperatorPods(succeeds: set<nat>) returns (ok: bool, calls: seq<Call>)
    ensures calls == PodDeletions(succeeds)
    ensures ok <==> calls[|calls| - 1] == DeletePods(true)
  {
    var n;
    ok, n := RetryWithContext(MAX_DELETION_ATTEMPTS, succeeds, {});
    assert succeeds + {} == succeeds;
    calls := seq(n, k => DeletePods(k in succeeds));
  }

  /** The service an attempt finds at the address. */
  function Holder(ip: string, a: Attempt): Option<Service> {
    if a.services.None? then None else FirstWithIP(ip, a.services.value)
  }

  predicate Settled(ip: string, a: Attempt) {
    Holder(ip, a).Some? && IsDns(Holder(ip, a).value)
  }

  function AttemptCalls(ip: string, a: Attempt): seq<Call> {
    if Holder(ip, a).None? || Settled(ip, a) then []
    else
      var deletions := ServiceDeletions(Holder(ip, a).value, a.deletions);
      deletions + if deletions[|deletions| - 1].ok then PodDeletions(a.podDeletions) else []
  }

  /** One of the attempts has found the DNS service in place. */
  predicate Over(ip: string, attempts: seq<Attempt>) {
    |attempts| > 0
    && (Over(ip, attempts[..|attempts| - 1]) || Settled(ip, attempts[|attempts| - 1]))
  }

  /** The calls of the attempts up to the one that finds the DNS service in place. */
  function Trace(ip: string, attempts: seq<Attempt>): seq<Call> {
    if |attempts| == 0 then []
    else
      var prefix := attempts[..|attempts| - 1];
      Trace(ip, prefix) + if Over(ip, prefix) then [] else AttemptCalls(ip, attempts[|attempts| - 1])
  }

  lemma TraceStep(ip: string, attempts: seq<Attempt>, i: nat)
    requires i < |attempts| && !Over(ip, attempts[..i])
    ensures Trace(ip, attempts[..i + 1]) == Trace(ip, attempts[..i]) + AttemptCalls(ip, attempts[i])
    ensures Over(ip, attempts[..i + 1]) <==> Settled(ip, attempts[i])
  {
    assert attempts[..i + 1][..i] == attempts[..i];
  }

  lemma {:induction false} NothingAfterwards(ip: string, attempts: seq<Attempt>, n: nat)
    requires n <= |attempts| && Over(ip, attempts[..n])
    ensures Over(ip, attempts) && Trace(ip, attempts) == Trace(ip, attempts[..n])
  {
    if n == |attempts| {
      assert attempts[..n] == attempts;
    } else {
      assert attempts[..|attempts| - 1][..n] == attempts[..n];
      NothingAfterwards(ip, attempts[..|attempts| - 1], n);
    }
  }

  /** One attempt that has not found the DNS service in place yet. */
  method TryOnce(ip: string, a: Attempt) returns (settled: bool, calls: seq<Call>)
    ensures settled == Settled(ip, a) && calls == AttemptCalls(ip, a)
  {
    if a.services.None? {
      return false, [];
    }
    var s := FindServiceByIP(ip, a.services.value);
    if s.None? {
      return false, [];
    }
    if s.value.name == "dns-default" && s.value.namespace == "openshift-dns" {
      return true, [];
    }
    var killed, podCalls;
    killed, calls := KillConflictingService(s.value, a.deletions);
    if !killed {
      return false, calls;
    }
    killed, podCalls := DeleteDNSOperatorPods(a.podDeletions);
    return false, calls + podCalls;
  }

  /** `ip` is the address to keep free; None if the service networks cannot be read or parsed. */
  method HackDNSAddressConflict(ip: Option<string>, attempts: seq<Attempt>) returns (trace: seq<Call>)
    requires |attempts| == MAX_DNS_SERVICE_IP_ATTEMPTS
    ensures trace == if ip.None? then [] else Trace(ip.value, attempts)
  {
    trace := [];
    if ip.None? {
      return;
    }
    for i := 0 to |attempts|
      invariant trace == Trace(ip.value, attempts[..i]) && !Over(ip.value, attempts[..i])
    {
      TraceStep(ip.value, attempts, i);
      var settled, calls := TryOnce(ip.value, attempts[i]);
      trace := trace + calls;
      if settled {
        NothingAfterwards(ip.value, attempts, i + 1);
        return;
      }
    }
    assert attempts[..|attempts|] == attempts;
  }

  // ---------------------------------------------------------------- which calls are made

  /** The service at position `k` is the first one with the address. */
  ghost predicate FirstAt(services: seq<Service>, ip: string, k: nat) {
    && k < |services| && services[k].ip == ip
    && forall i | 0 <= i < k :: services[i].ip != ip
  }

  lemma {:induction false} FirstWithIPAt(ip: string, services: seq<Service>, k: nat)
    requires FirstAt(services, ip, k)
    ensures FirstWithIP(ip, services) == Some(services[k])
  {
    if k > 0 {
      assert forall i | 0 <= i < k - 1 :: services[1..][i] == services[i + 1];
      FirstWithIPAt(ip, services[1..], k - 1);
    }
  }

  /** The calls are deletions up to the first that succeeds, or five of them; `ok` says that one did. */
  ghost predicate UpToFive(calls: nat, succeeds: set<nat>, ok: bool) {
    && 1 <= calls <= 5
    && (forall k: nat | k < calls - 1 :: k !in succeeds)
    && (ok <==> calls - 1 in succeeds)
    && (!ok ==> calls == 5)
  }

  /** An attempt that finds another service at the address deletes it, again and again up to the first
      success or five times, and if that succeeds deletes the pods in the same way. */
  lemma ConflictIsDeleted(ip: string, a: Attempt, k: nat) returns (n: nat, m: nat)
    requires a.services.Some? && FirstAt(a.services.value, ip, k)
    requires a.services.value[k].name != "dns-default" || a.services.value[k].namespace != "openshift-dns"
    ensures var s, calls := a.services.value[k], AttemptCalls(ip, a);
            var killed := n > 0 && n - 1 in a.deletions;
            && |calls| == n + m && UpToFive(n, a.deletions, killed)
            && (forall i: nat | i < n :: calls[i] == DeleteService(s, i in a.deletions))
            && (if killed then UpToFive(m, a.podDeletions, m > 0 && m - 1 in a.podDeletions) else m == 0)
            && (forall i: nat | i < m :: calls[n + i] == DeletePods(i in a.podDeletions))
  {
    FirstWithIPAt(ip, a.services.value, k);
    n := |ServiceDeletions(a.services.value[k], a.deletions)|;
    m := |AttemptCalls(ip, a)| - n;
  }

  /** Otherwise nothing is called. */
  lemma NothingElseIsDeleted(ip: string, a: Attempt)
    requires a.services.Some? ==>
               (forall i | 0 <= i < |a.services.value| :: a.services.value[i].ip != ip)
               || (exists k: nat ::
                     FirstAt(a.services.value, ip, k)
                     && a.services.value[k].name == "dns-default"
                     && a.services.value[k].namespace == "openshift-dns")
    ensures AttemptCalls(ip, a) == []
  {
    if a.services.Some? && !(forall i | 0 <= i < |a.services.value| :: a.services.value[i].ip != ip) {
      var k: nat :| FirstAt(a.services.value, ip, k) && a.services.value[k].name == "dns-default"
               && a.services.value[k].namespace == "openshift-dns";
      FirstWithIPAt(ip, a.services.value, k);
    }
  }

  lemma {:induction false} TraceGrows(ip: string, attempts: seq<Attempt>, m: nat)
    requires m <= |attempts|
    ensures Trace(ip, attempts[..m]) <= Trace(ip, attempts)
  {
    if m == |attempts| {
      assert attempts[..m] == attempts;
    } else {
      assert attempts[..|attempts| - 1][..m] == attempts[..m];
      TraceGrows(ip, attempts[..|attempts| - 1], m);
    }
  }

  /** Every attempt before the one that finds the DNS service makes its calls, behind those of the attempts
      before it. */
  lemma AttemptsAreMade(ip: string, attempts: seq<Attempt>, i: nat)
    requires i < |attempts| && !Over(ip, attempts[..i])
    ensures Trace(ip, attempts[..i]) + AttemptCalls(ip, attempts[i]) <= Trace(ip, attempts)
  {
    TraceStep(ip, attempts, i);
    TraceGrows(ip, attempts, i + 1);
  }

  /** The attempts are over exactly if one of them found the DNS service in place. */
  lemma {:induction false} OverIff(ip: string, attempts: seq<Attempt>)
    ensures Over(ip, attempts) <==>
              exists i :: 0 <= i < |attempts| && Holder(ip, attempts[i]).Some?
                          && Holder(ip, attempts[i]).value.name == "dns-default"
                          && Holder(ip, attempts[i]).value.namespace == "openshift-dns"
  {
    if |attempts| > 0 {
      var prefix := attempts[..|attempts| - 1];
      OverIff(ip, prefix);
      assert forall i | 0 <= i < |prefix| :: prefix[i] == attempts[i];
    }
  }

  // ---------------------------------------------------------------- what the calls add up to

  /** How many services, and how often pods, are asked to be deleted. */
  function ServiceCalls(trace: seq<Call>): nat {
    if |trace| == 0 then 0
    else ServiceCalls(trace[..|trace| - 1]) + if trace[|trace| - 1].DeleteService? then 1 else 0
  }

  lemma {:induction false} ServiceCallsConcat(a: seq<Call>, b: seq<Call>)
    ensures ServiceCalls(a + b) == ServiceCalls(a) + ServiceCalls(b)
  {
    if |b| == 0 {
      assert a + b == a;
    } else {
      DropLast(a, b);
      ServiceCallsConcat(a, b[..|b| - 1]);
    }
  }

  lemma {:induction false} ServiceCallsBound(trace: seq<Call>)
    ensures ServiceCalls(trace) <= |trace|
    ensures (forall k | 0 <= k < |trace| :: trace[k].DeletePods?) ==> ServiceCalls(trace) == 0
  {
    if |trace| > 0 {
      ServiceCallsBound(trace[..|trace| - 1]);
    }
  }

  lemma AttemptIsBounded(ip: string, a: Attempt)
    ensures ServiceCalls(AttemptCalls(ip, a)) <= MAX_DELETION_ATTEMPTS
    ensures |AttemptCalls(ip, a)| - ServiceCalls(AttemptCalls(ip, a)) <= MAX_DELETION_ATTEMPTS
  {
    if Holder(ip, a).Some? && !Settled(ip, a) {
      var deletions := ServiceDeletions(Holder(ip, a).value, a.deletions);
      var pods := if deletions[|deletions| - 1].ok then PodDeletions(a.podDeletions) else [];
      ServiceCallsConcat(deletions, pods);
      ServiceCallsBound(deletions);
      ServiceCallsBound(pods);
      AllServices(deletions);
    }
  }

  lemma {:induction false} AllServices(trace: seq<Call>)
    requires forall k | 0 <= k < |trace| :: trace[k].DeleteService?
    ensures ServiceCalls(trace) == |trace|
  {
    if |trace| > 0 {
      AllServices(trace[..|trace| - 1]);
    }
  }

  /** 225 deletions in all, of services and of pods. */
  lemma AtMost225(ip: string, attempts: seq<Attempt>)
    requires |attempts| == MAX_DNS_SERVICE_IP_ATTEMPTS
    ensures ServiceCalls(Trace(ip, attempts)) <= 225
    ensures |Trace(ip, attempts)| - ServiceCalls(Trace(ip, attempts)) <= 225
  {
    DeletionsAreBounded(ip, attempts);
  }

  /** No attempt makes more than five calls of either kind. */
  lemma {:induction false} DeletionsAreBounded(ip: string, attempts: seq<Attempt>)
    ensures ServiceCalls(Trace(ip, attempts)) <= |attempts| * MAX_DELETION_ATTEMPTS
    ensures |Trace(ip, attempts)| - ServiceCalls(Trace(ip, attempts)) <= |attempts| * MAX_DELETION_ATTEMPTS
  {
    if |attempts| > 0 {
      var prefix, last := attempts[..|attempts| - 1], attempts[|attempts| - 1];
      DeletionsAreBounded(ip, prefix);
      var calls := if Over(ip, prefix) then [] else AttemptCalls(ip, last);
      ServiceCallsConcat(Trace(ip, prefix), calls);
      AttemptIsBounded(ip, last);
    }
  }

  /** A call that may stand at position `k`: a deletion of a service that an attempt found at the
      address and that is not the DNS service, or of pods right after a service was deleted or the
      deletion of pods failed. */
  ghost predicate Justified(ip: string, attempts: seq<Attempt>, trace: seq<Call>, k: nat)
    requires k < |trace|
  {
    match trace[k]
    case DeleteService(s, _) =>
      && (s.name != "dns-default" || s.namespace != "openshift-dns") && s.ip == ip
      && exists i :: 0 <= i < |attempts| && Holder(ip, attempts[i]) == Some(s)
    case DeletePods(_) =>
      k > 0 && match trace[k - 1] {
        case DeleteService(_, ok) => ok
        case DeletePods(ok) => !ok
      }
  }

  lemma AttemptIsJustified(ip: string, a: Attempt, k: nat)
    requires k < |AttemptCalls(ip, a)|
    ensures Justified(ip, [a], AttemptCalls(ip, a), k)
  {
    assert [a][0] == a;
  }

  lemma {:induction false} CallsAreJustified(ip: string, attempts: seq<Attempt>, k: nat)
    requires k < |Trace(ip, attempts)|
    ensures Justified(ip, attempts, Trace(ip, attempts), k)
  {
    var prefix, last := attempts[..|attempts| - 1], attempts[|attempts| - 1];
    var before := Trace(ip, prefix);
    if k < |before| {
      CallsAreJustified(ip, prefix, k);
      assert forall i | 0 <= i < |prefix| :: prefix[i] == attempts[i];
    } else {
      AttemptIsJustified(ip, last, k - |before|);
      assert Holder(ip, attempts[|attempts| - 1]) == Holder(ip, last);
    }
  }
}
