/**
 Waiting for the OLM operators, and failing the ones that are left when the wait goes wrong
 (waitForOLMOperators, waitForCSV and updatePendingOLMOperators in
 src/assisted_installer_controller/assisted_installer_controller.go, with
 checkAndUpdateOperatorAvailability in src/assisted_installer_controller/operator_handler.go).
 */
module OlmWait {
  import opened Wrappers
  import opened MonitoredOperators

  /** How many times the operators that are left are failed, at most. */
  const FAILED_OPERATOR_RETRY := 10

  /** An operator as the service keeps it, by the service's own name for it. */
  datatype Entry = Entry(kind: Kind, status: Status)

  type Entries = map<string, Entry>

  /** The name under which the inventory client lists an operator. */
  function Listed(v: Version, name: string): string {
    Rename(v, Record(name, "", Olm, Available, "", "")).name
  }

  predicate Progressing(e: Entry) {
    e.kind == Olm && e.status != Available && e.status != Failed
  }

  /** Every OLM operator is available or failed. */
  ghost predicate AllSettled(ops: Entries) {
    forall n <- ops :: ops[n].kind == Olm ==> ops[n].status == Available || ops[n].status == Failed
  }

  ghost predicate IsListing(order: seq<string>, ops: Entries) {
    && (forall i | 0 <= i < |order| :: order[i] in ops)
    && (forall n <- ops :: n in order)
  }

  /** The operators still progressing, in the order of the list. */
  function Pending(ops: Entries, order: seq<string>): seq<string> {
    if |order| == 0 then []
    else
      var n := order[|order| - 1];
      Pending(ops, order[..|order| - 1]) + if n in ops && Progressing(ops[n]) then [n] else []
  }

  // ---------------------------------------------------------------- failing what is pending

  /** The service after some of the pending operators were failed, the names recorded as failed
      meanwhile, and whether every report was accepted so far. */
  datatype Sweep = Sweep(ops: Entries, recorded: set<string>, ok: bool)

  /** Fails the operators one after the other, up to the first report that is not accepted;
      `accepted` are the positions of the reports the service would accept. */
  function FailEach(v: Version, ops: Entries, names: seq<string>, accepted: set<nat>): Sweep {
    if |names| == 0 then Sweep(ops, {}, true)
    else
      var i := |names| - 1;
      var s := FailEach(v, ops, names[..i], accepted);
      if !s.ok then s
      else
        var listed := Listed(v, names[i]);
        var own := ReportedName(listed);
        if i in accepted && own in s.ops then
          Sweep(s.ops[own := s.ops[own].(status := Failed)], s.recorded + {listed}, true)
        else Sweep(s.ops, s.recorded + {listed}, false)
  }

  class OperatorService {
    var ops: Entries

    constructor (ops: Entries)
      ensures this.ops == ops
    {
      this.ops := ops;
    }

    /** A report on an operator by the name the client lists; the service knows it by its own. */
    method UpdateClusterOperator(name: string, status: Status, accept: bool) returns (ok: bool)
      modifies this
      ensures var own := ReportedName(name);
              && ok == (accept && own in old(ops))
              && ops == if ok then old(ops)[own := old(ops)[own].(status := status)] else old(ops)
    {
      var own := name;
      if own == "ocs" {
        own := "odf";
      }
      ok := accept && own in ops;
      if ok {
        ops := ops[own := ops[own].(status := status)];
      }
    }
  }

  class ControllerStatus {
    var components: set<string>

    constructor ()
      ensures components == {}
    {
      components := {};
    }

    method OperatorError(component: string)
      modifies this
      ensures components == old(components) + {component}
    {
      components := components + {component};
    }
  }

  method GetProgressingOLMOperators(service: OperatorService, order: seq<string>)
    returns (names: seq<string>)
    ensures names == Pending(service.ops, order)
  {
    names := [];
    for i := 0 to |order|
      invariant names == Pending(service.ops, order[..i])
    {
      assert order[..i + 1][..i] == order[..i];
      if order[i] in service.ops && Progressing(service.ops[order[i]]) {
        names := names + [order[i]];
      }
    }
    assert order[..|order|] == order;
  }

  /** One attempt: whether the list is fetched, in which order, and which reports are accepted. */
  datatype Attempt = Attempt(fetched: bool, order: seq<string>, accepted: set<nat>)

  function TryOnce(v: Version, ops: Entries, a: Attempt): Sweep {
    if a.fetched then FailEach(v, ops, Pending(ops, a.order), a.accepted) else Sweep(ops, {}, false)
  }

  method UpdatePendingOLMOperators(service: OperatorService, status: ControllerStatus, v: Version,
                                   a: Attempt) returns (ok: bool)
    modifies service, status
    ensures var s := TryOnce(v, old(service.ops), a);
            && ok == s.ok && service.ops == s.ops
            && status.components == old(status.components) + s.recorded
  {
    if !a.fetched {
      return false;
    }
    var names := GetProgressingOLMOperators(service, a.order);
    ghost var start := service.ops;
    for i := 0 to |names|
      invariant var s := FailEach(v, start, names[..i], a.accepted);
                && s.ok && service.ops == s.ops
                && status.components == old(status.components) + s.recorded
    {
      FailEachStep(v, start, names, i, a.accepted);
      var listed := Listed(v, names[i]);
      status.OperatorError(listed);
      var accepted := service.UpdateClusterOperator(listed, Failed, i in a.accepted);
      if !accepted {
        FailEachStops(v, start, names, i + 1, a.accepted);
        return false;
      }
    }
    assert names[..|names|] == names;
    ok := true;
  }

  lemma FailEachStep(v: Version, ops: Entries, names: seq<string>, i: nat, accepted: set<nat>)
    requires i < |names| && FailEach(v, ops, names[..i], accepted).ok
    ensures var s := FailEach(v, ops, names[..i], accepted);
            var listed := Listed(v, names[i]);
            var own := ReportedName(listed);
            FailEach(v, ops, names[..i + 1], accepted)
            == if i in accepted && own in s.ops then
                 Sweep(s.ops[own := s.ops[own].(status := Failed)], s.recorded + {listed}, true)
               else Sweep(s.ops, s.recorded + {listed}, false)
  {
    assert names[..i + 1][..i] == names[..i];
  }

  lemma {:induction false} FailEachStops(v: Version, ops: Entries, names: seq<string>, i: nat,
                                         accepted: set<nat>)
    requires i <= |names| && !FailEach(v, ops, names[..i], accepted).ok
    ensures FailEach(v, ops, names, accepted) == FailEach(v, ops, names[..i], accepted)
  {
    if i == |names| {
      assert names[..i] == names;
    } else {
      assert names[..|names| - 1][..i] == names[..i];
      FailEachStops(v, ops, names[..|names| - 1], i, accepted);
    }
  }

  /** An attempt that cannot fetch the list fails and changes nothing; one that can fails the pending. */
  lemma AttemptNeedsTheList(v: Version, ops: Entries, a: Attempt)
    ensures !a.fetched ==> TryOnce(v, ops, a) == Sweep(ops, {}, false)
    ensures a.fetched ==> TryOnce(v, ops, a) == FailEach(v, ops, Pending(ops, a.order), a.accepted)
  {
  }

  // ---------------------------------------------------------------- when failing settles everything

  /** The service has an operator of its own called "ocs" that is progressing, next to "odf": reports
      on the former go to the latter. */
  ghost predicate Shadowed(ops: Entries) {
    "ocs" in ops && Progressing(ops["ocs"]) && "odf" in ops
  }

  lemma ReportsReachOwn(v: Version, name: string)
    ensures ReportedName(Listed(v, name)) == ReportedName(name)
  {
  }

  lemma {:induction false} PendingHolds(ops: Entries, order: seq<string>)
    ensures forall n :: n in Pending(ops, order) <==>
              n in order && n in ops && ops[n].kind == Olm
              && ops[n].status != Available && ops[n].status != Failed
  {
    if |order| > 0 {
      PendingHolds(ops, order[..|order| - 1]);
      assert order == order[..|order| - 1] + [order[|order| - 1]];
    }
  }

  /** The pending operators come in the order of the list. */
  lemma {:induction false} PendingConcat(ops: Entries, a: seq<string>, b: seq<string>)
    ensures Pending(ops, a + b) == Pending(ops, a) + Pending(ops, b)
  {
    if |b| == 0 {
      AppendNothing(a);
    } else {
      DropLast(a, b);
      PendingConcat(ops, a, b[..|b| - 1]);
    }
  }

  /** The name under which an operator is listed: "odf" as "ocs" on 4.8, every other as it is. */
  lemma ListedAs(v: Version, name: string)
    ensures Listed(v, name) == if v == Ocp48 && name == "odf" then "ocs" else name
  {
  }

  /** The reports are all accepted, by an operator of the service: "odf" gets those on "ocs". */
  ghost predicate AllTaken(ops: Entries, names: seq<string>, accepted: set<nat>) {
    |names| > 0 ==>
      var n := |names| - 1;
      && AllTaken(ops, names[..n], accepted)
      && n in accepted && (if names[n] == "ocs" then "odf" else names[n]) in ops
  }

  /** Failing the operators succeeds exactly if every report is taken. */
  lemma {:induction false} FailsAllIff(v: Version, ops: Entries, names: seq<string>, accepted: set<nat>)
    ensures var s := FailEach(v, ops, names, accepted);
            (s.ok <==> AllTaken(ops, names, accepted)) && s.ops.Keys == ops.Keys
  {
    if |names| > 0 {
      FailsAllIff(v, ops, names[..|names| - 1], accepted);
      ReportsReachOwn(v, names[|names| - 1]);
    }
  }

  /** They are recorded up to the first whose report is not taken, that one included... */
  lemma {:induction false} RecordedInTurn(v: Version, ops: Entries, names: seq<string>,
                                          accepted: set<nat>, k: nat)
    requires k < |names| && AllTaken(ops, names[..k], accepted)
    ensures Listed(v, names[k]) in FailEach(v, ops, names, accepted).recorded
  {
    var n := |names| - 1;
    FailsAllIff(v, ops, names[..n], accepted);
    if k < n {
      assert names[..n][..k] == names[..k];
      RecordedInTurn(v, ops, names[..n], accepted, k);
    }
  }

  /** ... and no others. */
  lemma {:induction false} NoneRecordedBehind(v: Version, ops: Entries, names: seq<string>,
                                              accepted: set<nat>, listed: string) returns (k: nat)
    requires listed in FailEach(v, ops, names, accepted).recorded
    ensures k < |names| && AllTaken(ops, names[..k], accepted) && listed == Listed(v, names[k])
  {
    var n := |names| - 1;
    FailsAllIff(v, ops, names[..n], accepted);
    if listed in FailEach(v, ops, names[..n], accepted).recorded {
      k := NoneRecordedBehind(v, ops, names[..n], accepted, listed);
      assert names[..n][..k] == names[..k];
    } else {
      k := n;
    }
  }

  /** A progressing operator whose reports reach `n` is recorded as failed. */
  ghost predicate Blamed(v: Version, before: Entries, n: string, recorded: set<string>) {
    exists m :: m in before && Progressing(before[m]) && ReportedName(m) == n
                && Listed(v, m) in recorded
  }

  /** What changed has been failed, on account of an operator that is recorded. */
  ghost predicate OnlyFails(v: Version, before: Entries, after: Entries, recorded: set<string>) {
    && after.Keys == before.Keys
    && forall n <- before | after[n] != before[n] ::
         after[n] == before[n].(status := Failed) && Blamed(v, before, n, recorded)
  }

  lemma OnlyFailsOneMore(v: Version, before: Entries, after: Entries, recorded: set<string>, m: string,
                         ok: bool)
    requires OnlyFails(v, before, after, recorded) && m in before && Progressing(before[m])
    requires ok ==> ReportedName(m) in after
    ensures var own := ReportedName(m);
            OnlyFails(v, before, if ok then after[own := after[own].(status := Failed)] else after,
                      recorded + {Listed(v, m)})
  {
  }

  lemma {:induction false} FailEachOnlyFails(v: Version, ops: Entries, names: seq<string>,
                                             accepted: set<nat>)
    requires forall i | 0 <= i < |names| :: names[i] in ops && Progressing(ops[names[i]])
    ensures var s := FailEach(v, ops, names, accepted); OnlyFails(v, ops, s.ops, s.recorded)
  {
    if |names| > 0 {
      var i := |names| - 1;
      FailEachOnlyFails(v, ops, names[..i], accepted);
      var s := FailEach(v, ops, names[..i], accepted);
      if s.ok {
        ReportsReachOwn(v, names[i]);
        OnlyFailsOneMore(v, ops, s.ops, s.recorded, names[i],
                         i in accepted && ReportedName(names[i]) in s.ops);
      }
    }
  }

  /** If every report is accepted, they all reached an operator, which is now failed. */
  lemma {:induction false} FailEachReaches(v: Version, ops: Entries, names: seq<string>,
                                           accepted: set<nat>, k: nat)
    requires k < |names| && FailEach(v, ops, names, accepted).ok
    ensures var after := FailEach(v, ops, names, accepted).ops;
            ReportedName(names[k]) in after && after[ReportedName(names[k])].status == Failed
  {
    var i := |names| - 1;
    ReportsReachOwn(v, names[i]);
    if k < i {
      FailEachReaches(v, ops, names[..i], accepted, k);
    }
  }

  /** If every report would be accepted and has an operator to reach, the attempt goes through. */
  lemma {:induction false} FailEachGoesThrough(v: Version, ops: Entries, names: seq<string>,
                                               accepted: set<nat>)
    requires forall i | 0 <= i < |names| :: i in accepted && ReportedName(names[i]) in ops
    ensures var s := FailEach(v, ops, names, accepted); s.ok && s.ops.Keys == ops.Keys
  {
    if |names| > 0 {
      var i := |names| - 1;
      FailEachGoesThrough(v, ops, names[..i], accepted);
      ReportsReachOwn(v, names[i]);
    }
  }

  lemma {:induction false} FailEachLeavesOcs(v: Version, ops: Entries, names: seq<string>,
                                             accepted: set<nat>)
    requires "ocs" in ops
    ensures var s := FailEach(v, ops, names, accepted); "ocs" in s.ops && s.ops["ocs"] == ops["ocs"]
  {
    if |names| > 0 {
      FailEachLeavesOcs(v, ops, names[..|names| - 1], accepted);
      ReportsReachOwn(v, names[|names| - 1]);
    }
  }

  /** A successful attempt settles every operator unless "ocs" is shadowed by "odf". */
  lemma SuccessSettles(v: Version, ops: Entries, a: Attempt)
    requires IsListing(a.order, ops) && TryOnce(v, ops, a).ok && !Shadowed(ops)
    ensures AllSettled(TryOnce(v, ops, a).ops)
  {
    var names, after := Pending(ops, a.order), TryOnce(v, ops, a).ops;
    PendingHolds(ops, a.order);
    FailEachOnlyFails(v, ops, names, a.accepted);
    forall n | n in after
      ensures !Progressing(after[n])
    {
      if Progressing(ops[n]) {
        var k :| 0 <= k < |names| && names[k] == n;
        FailEachReaches(v, ops, names, a.accepted, k);
      }
    }
  }

  /**
   Failing the pending operators settles them all whenever it reports success, whatever the order
   of the list and whichever reports are accepted, exactly when "ocs" is not shadowed by "odf".
   */
  lemma SuccessSettlesIffNotShadowed(v: Version, ops: Entries, order: seq<string>)
    requires IsListing(order, ops)
    ensures (forall accepted :: var s := TryOnce(v, ops, Attempt(true, order, accepted));
                                s.ok ==> AllSettled(s.ops))
       <==> !Shadowed(ops)
  {
    if Shadowed(ops) {
      var names := Pending(ops, order);
      var accepted := UpTo(|names|);
      PendingHolds(ops, order);
      FailEachGoesThrough(v, ops, names, accepted);
      FailEachLeavesOcs(v, ops, names, accepted);
      assert TryOnce(v, ops, Attempt(true, order, accepted)).ok;
    } else {
      forall accepted
        ensures var s := TryOnce(v, ops, Attempt(true, order, accepted)); s.ok ==> AllSettled(s.ops)
      {
        if TryOnce(v, ops, Attempt(true, order, accepted)).ok {
          SuccessSettles(v, ops, Attempt(true, order, accepted));
        }
      }
    }
  }

  /** A shadowed "ocs" does happen: a successful attempt fails "odf" in its stead and leaves it
      progressing. */
  lemma ShadowedOcsStays(v: Version) returns (ops: Entries, a: Attempt)
    ensures IsListing(a.order, ops) && TryOnce(v, ops, a).ok
    ensures var after := TryOnce(v, ops, a).ops;
            && "odf" in after && after["odf"].status == Failed
            && "ocs" in after && Progressing(after["ocs"])
  {
    ops := map["ocs" := Entry(Olm, OtherStatus("progressing")), "odf" := Entry(Olm, Available)];
    a := Attempt(true, ["odf", "ocs"], {0});
    assert a.order[0] == "odf" && a.order[1] == "ocs";
    OnePending(ops, "odf", "ocs");
    FailOne(v, ops, "ocs");
  }

  lemma OnePending(ops: Entries, settled: string, other: string)
    requires settled in ops && !Progressing(ops[settled]) && other in ops && Progressing(ops[other])
    ensures Pending(ops, [settled, other]) == [other]
  {
    assert [settled, other][..1] == [settled] && [settled][..0] == [];
    assert Pending(ops, [settled]) == [];
  }

  lemma FailOne(v: Version, ops: Entries, n: string)
    requires ReportedName(n) in ops
    ensures var own, s := ReportedName(n), FailEach(v, ops, [n], {0});
            s.ok && s.ops == ops[own := ops[own].(status := Failed)]
  {
    assert [n][..0] == [];
    ReportsReachOwn(v, n);
  }

  // ---------------------------------------------------------------- retrying

  /** Attempts one after the other until one succeeds; what was recorded stays recorded. */
  function Retries(v: Version, ops: Entries, attempts: seq<Attempt>): Sweep
    decreases |attempts|
  {
    if |attempts| == 0 then Sweep(ops, {}, false)
    else
      var s := TryOnce(v, ops, attempts[0]);
      if s.ok then s
      else
        var r := Retries(v, s.ops, attempts[1..]);
        Sweep(r.ops, s.recorded + r.recorded, r.ok)
  }

  /** The operators as the first `n` attempts leave them. */
  function LeftBy(v: Version, ops: Entries, attempts: seq<Attempt>, n: nat): Entries
    requires n <= |attempts|
    decreases n
  {
    if n == 0 then ops else LeftBy(v, TryOnce(v, ops, attempts[0]).ops, attempts[1..], n - 1)
  }

  /** The attempt at `i` succeeds, on what the ones before it left. */
  ghost predicate SucceedsAt(v: Version, ops: Entries, attempts: seq<Attempt>, i: nat) {
    i < |attempts| && TryOnce(v, LeftBy(v, ops, attempts, i), attempts[i]).ok
  }

  /** Retrying succeeds exactly if some attempt does; it ends with the first that does, and if none does
      all of them are made. */
  lemma {:induction false} RetriesSucceedIff(v: Version, ops: Entries, attempts: seq<Attempt>)
    returns (n: nat)
    ensures n <= |attempts| && NoneSucceeds(v, ops, attempts, n)
    ensures Retries(v, ops, attempts).ok <==> SucceedsAt(v, ops, attempts, n)
    ensures !Retries(v, ops, attempts).ok ==> n == |attempts|
    ensures Retries(v, ops, attempts).ops
         == LeftBy(v, ops, attempts, if n < |attempts| then n + 1 else n)
    decreases |attempts|
  {
    n := 0;
    if |attempts| > 0 {
      var s := TryOnce(v, ops, attempts[0]);
      if !s.ok {
        var rest := RetriesSucceedIff(v, s.ops, attempts[1..]);
        n := rest + 1;
      } else {
        assert LeftBy(v, s.ops, attempts[1..], 0) == s.ops;
      }
    }
  }

  /** None of the first `n` attempts succeeds. */
  ghost predicate NoneSucceeds(v: Version, ops: Entries, attempts: seq<Attempt>, n: nat)
    decreases n
  {
    n > 0 && |attempts| > 0 ==>
      !SucceedsAt(v, ops, attempts, 0)
      && NoneSucceeds(v, TryOnce(v, ops, attempts[0]).ops, attempts[1..], n - 1)
  }

  lemma {:induction false} NoneSucceedsAt(v: Version, ops: Entries, attempts: seq<Attempt>, n: nat, i: nat)
    requires i < n <= |attempts| && NoneSucceeds(v, ops, attempts, n)
    ensures !SucceedsAt(v, ops, attempts, i)
    decreases n
  {
    if i > 0 {
      NoneSucceedsAt(v, TryOnce(v, ops, attempts[0]).ops, attempts[1..], n - 1, i - 1);
    }
  }

  /** The attempts that the retries and the context leave room for. */
  method RetryPending(service: OperatorService, status: ControllerStatus, v: Version,
                      attempts: seq<Attempt>) returns (ok: bool)
    requires 0 < |attempts| <= FAILED_OPERATOR_RETRY
    modifies service, status
    ensures var s := Retries(v, old(service.ops), attempts);
            && ok == s.ok && service.ops == s.ops
            && status.components == old(status.components) + s.recorded
  {
    ghost var start := service.ops;
    ghost var recorded: set<string> := {};
    assert attempts[0..] == attempts;
    for i := 0 to |attempts|
      invariant var r := Retries(v, service.ops, attempts[i..]);
                Retries(v, start, attempts) == Sweep(r.ops, recorded + r.recorded, r.ok)
      invariant status.components == old(status.components) + recorded
    {
      ghost var s := TryOnce(v, service.ops, attempts[i]);
      assert attempts[i..][1..] == attempts[i + 1..];
      ok := UpdatePendingOLMOperators(service, status, v, attempts[i]);
      if ok {
        return;
      }
      recorded := recorded + s.recorded;
    }
    ok := false;
  }

  lemma OnlyFailsTrans(v: Version, a: Entries, b: Entries, c: Entries, r: set<string>, s: set<string>)
    requires OnlyFails(v, a, b, r) && OnlyFails(v, b, c, s)
    ensures OnlyFails(v, a, c, r + s)
  {
  }

  lemma TryOnceOnlyFails(v: Version, ops: Entries, a: Attempt)
    requires IsListing(a.order, ops)
    ensures var s := TryOnce(v, ops, a); OnlyFails(v, ops, s.ops, s.recorded)
  {
    PendingHolds(ops, a.order);
    FailEachOnlyFails(v, ops, Pending(ops, a.order), a.accepted);
  }

  lemma {:induction false} RetriesOnlyFail(v: Version, ops: Entries, attempts: seq<Attempt>)
    requires forall i | 0 <= i < |attempts| :: IsListing(attempts[i].order, ops)
    ensures var s := Retries(v, ops, attempts);
            && OnlyFails(v, ops, s.ops, s.recorded)
            && (s.ok && !Shadowed(ops) ==> AllSettled(s.ops))
    decreases |attempts|
  {
    if |attempts| > 0 {
      var s := TryOnce(v, ops, attempts[0]);
      TryOnceOnlyFails(v, ops, attempts[0]);
      if !s.ok {
        forall i | 0 <= i < |attempts[1..]|
          ensures IsListing(attempts[1..][i].order, s.ops)
        {
          assert attempts[1..][i] == attempts[i + 1];
        }
        RetriesOnlyFail(v, s.ops, attempts[1..]);
        var r := Retries(v, s.ops, attempts[1..]);
        OnlyFailsTrans(v, ops, s.ops, r.ops, s.recorded, r.recorded);
      } else if !Shadowed(ops) {
        SuccessSettles(v, ops, attempts[0]);
      }
    }
  }

  /**
   When the retries succeed every OLM operator of the service is available or failed, and all that
   were failed on the way, in whichever attempt, are recorded.
   */
  lemma RetriesSettle(v: Version, ops: Entries, attempts: seq<Attempt>)
    requires forall i | 0 <= i < |attempts| :: IsListing(attempts[i].order, ops)
    requires !Shadowed(ops)
    ensures var s := Retries(v, ops, attempts);
            && s.ops.Keys == ops.Keys
            && (s.ok ==> AllSettled(s.ops))
            && forall n <- ops | s.ops[n] != ops[n] ::
                 s.ops[n] == ops[n].(status := Failed) && Listed(v, n) in s.recorded
  {
    RetriesOnlyFail(v, ops, attempts);
    var s := Retries(v, ops, attempts);
    forall n | n in ops && s.ops[n] != ops[n]
      ensures Listed(v, n) in s.recorded
    {
      var m :| m in ops && Progressing(ops[m]) && ReportedName(m) == n && Listed(v, m) in s.recorded;
      assert m == n;
    }
  }

  // ---------------------------------------------------------------- operator handlers

  /** The three kinds of handlers; the one for CSVs counts the failures it has held back. */
  datatype Handler =
    | ClusterOperator(operator: string)
    | ClusterVersion
    | ClusterServiceVersion(operator: string, retries: nat)

  function GetName(h: Handler): string {
    if h.ClusterVersion? then "cvo" else h.operator
  }

  /** A call of OnChange: its receiver afterwards, its answer, and whether it records a failure. */
  datatype Call = Call(receiver: Handler, proceed: bool, records: bool)

  function CallOnChange(h: Handler, newStatus: Status): Call {
    if !h.ClusterServiceVersion? || newStatus != Failed then Call(h, true, false)
    else if h.retries < FAILED_OPERATOR_RETRY then Call(h.(retries := h.retries + 1), false, false)
    else Call(h, true, true)
  }

  /** A failure is held back by a CSV handler that has held back fewer than ten; one that has held back ten
      records it and lets it through. Every other handler, and every other status, is let through. */
  lemma LetThroughIff(h: Handler, newStatus: Status)
    ensures var c := CallOnChange(h, newStatus);
            && (!c.proceed <==> h.ClusterServiceVersion? && newStatus == Failed && h.retries < 10)
            && (c.records <==> h.ClusterServiceVersion? && newStatus == Failed && h.retries >= 10)
  {
  }

  /** The receiver is a value: `copy` is the method's own, and the caller's handler stays as it is. */
  method OnChange(handler: Handler, newStatus: Status, status: ControllerStatus)
    returns (proceed: bool, ghost copy: Handler)
    modifies status
    ensures CallOnChange(handler, newStatus).receiver == copy
    ensures CallOnChange(handler, newStatus).proceed == proceed
    ensures status.components
         == old(status.components)
            + if CallOnChange(handler, newStatus).records then {GetName(handler)} else {}
  {
    var receiver := handler;
    proceed := true;
    if receiver.ClusterServiceVersion? && newStatus == Failed {
      if receiver.retries < FAILED_OPERATOR_RETRY {
        receiver := receiver.(retries := receiver.retries + 1);
        proceed := false;
      } else {
        status.OperatorError(receiver.operator);
      }
    }
    copy := receiver;
  }

  /** How a method receives its handler: as the code has it, or as its retry counter would need it. */
  datatype Receiver = ByValue | ByPointer

  /** The handler as its owner has it after calls with the given statuses. */
  function StoredAfter(how: Receiver, h: Handler, statuses: seq<Status>): Handler {
    if |statuses| == 0 then h
    else
      var stored := StoredAfter(how, h, statuses[..|statuses| - 1]);
      if how == ByValue then stored else CallOnChange(stored, statuses[|statuses| - 1]).receiver
  }

  function Failures(statuses: seq<Status>): nat {
    if |statuses| == 0 then 0
    else Failures(statuses[..|statuses| - 1]) + if statuses[|statuses| - 1] == Failed then 1 else 0
  }

  lemma {:induction false} StoredRetries(how: Receiver, operator: string, statuses: seq<Status>)
    ensures var n := Failures(statuses);
            StoredAfter(how, ClusterServiceVersion(operator, 0), statuses)
            == ClusterServiceVersion(operator,
                                     if how == ByValue then 0
                                     else if n < FAILED_OPERATOR_RETRY then n
                                     else FAILED_OPERATOR_RETRY)
  {
    if |statuses| > 0 {
      StoredRetries(how, operator, statuses[..|statuses| - 1]);
    }
  }

  /** After any calls a new CSV handler holds a failure back exactly if it is received by value, as it
      is, or has seen fewer than ten failures. */
  lemma HeldBackIff(how: Receiver, operator: string, statuses: seq<Status>)
    ensures var stored := StoredAfter(how, ClusterServiceVersion(operator, 0), statuses);
            !CallOnChange(stored, Failed).proceed
            <==> how == ByValue || Failures(statuses) < FAILED_OPERATOR_RETRY
  {
    StoredRetries(how, operator, statuses);
  }

  // ---------------------------------------------------------------- waiting for the CSVs

  datatype Seen = Seen(status: Status, text: string)

  /** What one check of an operator meets: the operator as the (possibly cached) list has it, the
      status and message its handler gets from the cluster, and whether the service takes a report. */
  datatype Look = Look(listed: Option<Seen>, found: Option<Seen>, accepted: bool)

  /** The check saw in the list what the client replied. */
  predicate ListedFrom(l: Look, reply: Reply) {
    reply.One? && l.listed == match reply.operator {
      case None => None
      case Some(r) => Some(Seen(r.status, r.info))
    }
  }

  /** If the looks come from the client's replies, cached or not, an operator seen as available is one
      that the service had sent as available, under the name asked for. */
  lemma AvailableWasSent(v: Version, cache: Option<seq<Record>>, queries: seq<Query>, i: nat, l: Look)
    returns (r: Record)
    requires i < |queries| && queries[i].ByName? && ListedFrom(l, Replies(v, cache, queries)[i])
    requires l.listed.Some? && l.listed.value.status == Available
    ensures Sent(cache, queries[..i + 1], r)
    ensures r.status == Available && Rename(v, r).name == queries[i].name
  {
    r := RepliesWereSent(v, cache, queries, i, Replies(v, cache, queries)[i].operator.value);
  }

  /** The operator is available: the service says so, or accepts to be told. */
  predicate Acknowledged(l: Look, accepted: bool) {
    && l.listed.Some?
    && (|| l.listed.value.status == Available
        || (l.found.Some? && l.found.value.status == Available && accepted))
  }

  /** The service was told about operators, but not that any has failed. */
  ghost predicate OnlyReports(before: Entries, after: Entries) {
    && after.Keys == before.Keys
    && (forall n <- before | after[n] != before[n] :: after[n].status != Failed)
    && ("ocs" in before ==> after["ocs"] == before["ocs"])
    && forall n <- before :: after[n].kind == before[n].kind
  }

  /** The status in the cluster is not what the service has. */
  predicate Changed(l: Look) {
    && l.listed.Some? && l.found.Some? && l.listed.value.status != Available
    && (|| l.listed.value.status != l.found.value.status
        || (l.listed.value.text != l.found.value.text && l.found.value.text != ""))
  }

  /** The check of one operator, for every kind of handler. A failure is only kept from the service by
      a CSV handler that has held back fewer than ten. */
  method CheckAndUpdateOperatorAvailability(service: OperatorService, status: ControllerStatus,
                                            handler: Handler, l: Look)
    returns (available: bool)
    modifies service, status
    ensures available <==>
              && l.listed.Some?
              && (l.listed.value.status == Available
                  || (l.found.Some? && l.found.value.status == Available && l.accepted
                      && ReportedName(GetName(handler)) in old(service.ops)))
    ensures var own, before := ReportedName(GetName(handler)), old(service.ops);
            service.ops == if l.listed.Some? && l.found.Some? && l.listed.value.status != Available
                              && (l.listed.value.status != l.found.value.status
                                  || (l.listed.value.text != l.found.value.text
                                      && l.found.value.text != ""))
                              && CallOnChange(handler, l.found.value.status).proceed
                              && l.accepted && own in before
                           then before[own := before[own].(status := l.found.value.status)] else before
    ensures status.components
         == old(status.components)
            + if Changed(l) && CallOnChange(handler, l.found.value.status).records
              then {GetName(handler)} else {}
  {
    available := l.listed.Some? && l.listed.value.status == Available;
    if available {
      return true;
    }
    if l.found.None? {
      return false;
    }
    var found, message := l.found.value.status, l.found.value.text;
    if l.listed.Some?
       && (l.listed.value.status != found || (l.listed.value.text != message && message != "")) {
      var proceed, _ := OnChange(handler, found, status);
      if !proceed {
        return false;
      }
      var ok := service.UpdateClusterOperator(GetName(handler), found, l.accepted);
      if !ok {
        return false;
      }
      available := found == Available;
    }
  }

  /** The handlers of waitForCSV: new ones, and after any number of calls still as new. */
  ghost predicate AsNew(handlers: map<string, Handler>) {
    forall name <- handlers :: handlers[name] == ClusterServiceVersion(name, 0)
  }

  /** The looks of one poll show the operator available; `own` are the service's names. */
  predicate AcknowledgedIn(looks: map<string, Look>, name: string, own: set<string>) {
    name in looks && Acknowledged(looks[name], looks[name].accepted && ReportedName(name) in own)
  }

  /** The operator was acknowledged in one of the polls. */
  ghost predicate EverAcknowledged(polls: seq<map<string, Look>>, name: string, own: set<string>) {
    exists i :: 0 <= i < |polls| && AcknowledgedIn(polls[i], name, own)
  }

  /** The names under which the pending operators are listed. */
  function ListedNames(v: Version, names: seq<string>): set<string> {
    set i | 0 <= i < |names| :: Listed(v, names[i])
  }

  /**
   Waits for the operators that are progressing when it starts; `polls` are the polls until the wait
   is called off. It succeeds exactly if each of them is acknowledged in some poll, and never reports
   one as failed. An operator that a look shows as available in the list had been sent so
   by the service (AvailableWasSent).
   */
  method WaitForCSV(service: OperatorService, status: ControllerStatus, v: Version, fetched: bool,
                    order: seq<string>, polls: seq<map<string, Look>>) returns (ok: bool)
    requires |polls| > 0
    requires forall i | 0 <= i < |polls| ::
               ListedNames(v, Pending(service.ops, order)) <= polls[i].Keys
    modifies service, status
    ensures OnlyReports(old(service.ops), service.ops) && status.components == old(status.components)
    ensures var handlers := ListedNames(v, Pending(old(service.ops), order));
            ok <==> fetched
                    && forall name <- handlers :: EverAcknowledged(polls, name, old(service.ops).Keys)
  {
    if !fetched {
      return false;
    }
    var names := GetProgressingOLMOperators(service, order);
    if |names| == 0 {
      return true;
    }
    var handlers := NewHandlers(ListedNames(v, names));
    assert Listed(v, names[0]) in handlers;
    ok := PollHandlers(service, status, handlers, polls);
  }

  function NewHandlers(names: set<string>): map<string, Handler> {
    map name | name in names :: ClusterServiceVersion(name, 0)
  }

  /** Polls until no handler is left. */
  method PollHandlers(service: OperatorService, status: ControllerStatus, handlers: map<string, Handler>,
                      polls: seq<map<string, Look>>) returns (ok: bool)
    requires handlers != map[] && AsNew(handlers)
    requires forall i | 0 <= i < |polls| :: handlers.Keys <= polls[i].Keys
    modifies service, status
    ensures OnlyReports(old(service.ops), service.ops) && status.components == old(status.components)
    ensures ok <==> forall name <- handlers :: EverAcknowledged(polls, name, old(service.ops).Keys)
  {
    ghost var own := service.ops.Keys;
    var left := handlers;
    for i := 0 to |polls|
      invariant {} != left.Keys <= handlers.Keys && AsNew(left)
      invariant OnlyReports(old(service.ops), service.ops) && status.components == old(status.components)
      invariant left.Keys == Unacknowledged(handlers.Keys, polls[..i], own)
    {
      left := CheckAll(service, status, left, polls[i]);
      OneMorePoll(handlers.Keys, polls, i, own);
      if |left| == 0 {
        assert left.Keys == {};
        EarlierPolls(handlers.Keys, polls, i + 1, own);
        return true;
      }
    }
    assert polls[..|polls|] == polls;
    ghost var name :| name in left;
    assert !EverAcknowledged(polls, name, own);
    ok := false;
  }

  /** The operators that no poll has acknowledged. */
  ghost function Unacknowledged(names: set<string>, polls: seq<map<string, Look>>, own: set<string>)
    : set<string>
  {
    set name | name in names && !EverAcknowledged(polls, name, own)
  }

  lemma OneMorePoll(names: set<string>, polls: seq<map<string, Look>>, i: nat, own: set<string>)
    requires i < |polls|
    ensures Unacknowledged(names, polls[..i + 1], own)
         == set name | name in Unacknowledged(names, polls[..i], own)
                       && !AcknowledgedIn(polls[i], name, own)
  {
    forall name | name in names
      ensures EverAcknowledged(polls[..i + 1], name, own) <==>
                EverAcknowledged(polls[..i], name, own) || AcknowledgedIn(polls[i], name, own)
    {
      assert polls[..i + 1][i] == polls[i];
    }
  }

  lemma EarlierPolls(names: set<string>, polls: seq<map<string, Look>>, i: nat, own: set<string>)
    requires i <= |polls|
    ensures Unacknowledged(names, polls, own) <= Unacknowledged(names, polls[..i], own)
    ensures Unacknowledged(names, polls, own) == {} <==>
              forall name <- names :: EverAcknowledged(polls, name, own)
  {
    forall name | name in names && EverAcknowledged(polls[..i], name, own)
      ensures EverAcknowledged(polls, name, own)
    {
      var k :| 0 <= k < i && AcknowledgedIn(polls[..i][k], name, own);
      assert polls[k] == polls[..i][k];
    }
    if !(forall name <- names :: EverAcknowledged(polls, name, own)) {
      var name :| name in names && !EverAcknowledged(polls, name, own);
      assert name in Unacknowledged(names, polls, own);
    }
  }

  /** One poll: drops the handlers whose operators are available. */
  method CheckAll(service: OperatorService, status: ControllerStatus, handlers: map<string, Handler>,
                  looks: map<string, Look>)
    returns (left: map<string, Handler>)
    requires handlers.Keys <= looks.Keys && AsNew(handlers)
    modifies service, status
    ensures OnlyReports(old(service.ops), service.ops) && status.components == old(status.components)
    ensures left.Keys == set name | name in handlers
                         && !AcknowledgedIn(looks, name, old(service.ops).Keys)
    ensures AsNew(left)
  {
    left := handlers;
    var todo := handlers.Keys;
    while todo != {}
      invariant todo <= left.Keys <= handlers.Keys && AsNew(left)
      invariant OnlyReports(old(service.ops), service.ops) && status.components == old(status.components)
      invariant forall name <- handlers.Keys - todo ::
                  name in left <==> !AcknowledgedIn(looks, name, old(service.ops).Keys)
      decreases todo
    {
      var name :| name in todo;
      var available := CheckAndUpdateOperatorAvailability(service, status, left[name], looks[name]);
      if available {
        left := left - {name};
      }
      todo := todo - {name};
    }
  }

  // ---------------------------------------------------------------- the whole wait

  /** What the phases of waitForOLMOperators meet: `none` when the cluster has no OLM operators;
      `csvCreated` and `applied` say whether the two phases before the CSVs end well. */
  datatype Phases = Phases(fetched: bool, none: bool, csvCreated: bool, applied: bool,
                           csvFetched: bool, order: seq<string>, polls: seq<map<string, Look>>,
                           attempts: seq<Attempt>)

  ghost predicate WellFormed(v: Version, ops: Entries, p: Phases) {
    && 0 < |p.polls| && 0 < |p.attempts| <= FAILED_OPERATOR_RETRY
    && (forall i | 0 <= i < |p.polls| :: ListedNames(v, Pending(ops, p.order)) <= p.polls[i].Keys)
    && (forall i | 0 <= i < |p.attempts| :: IsListing(p.attempts[i].order, ops))
  }

  /** Each operator that is progressing when the CSVs are waited for is acknowledged in time. */
  ghost predicate AllAcknowledged(v: Version, ops: Entries, p: Phases) {
    && p.csvFetched
    && forall name <- ListedNames(v, Pending(ops, p.order)) :: EverAcknowledged(p.polls, name, ops.Keys)
  }

  /**
   If a phase fails, the operators left are failed, with retries; if that succeeds, no OLM operator is
   left progressing (with "ocs" not shadowed), and all that are newly failed are recorded. Otherwise
   none is failed or recorded. `reported` is the service as the phases left it.
   */
  method WaitForOLMOperators(service: OperatorService, status: ControllerStatus, v: Version, p: Phases)
    returns (error: bool, failedThem: Option<bool>, ghost reported: Entries)
    requires WellFormed(v, service.ops, p)
    modifies service, status
    ensures error <==> !p.fetched
                       || (!p.none && !(p.csvCreated && p.applied
                                        && AllAcknowledged(v, old(service.ops), p)))
    ensures failedThem.Some? <==> error && p.fetched
    ensures OnlyReports(old(service.ops), reported) && service.ops.Keys == old(service.ops).Keys
    ensures failedThem.None? ==>
              service.ops == reported && status.components == old(status.components)
    ensures failedThem.Some? ==>
              var s := Retries(v, reported, p.attempts);
              && service.ops == s.ops && failedThem.value == s.ok
              && status.components == old(status.components) + s.recorded
    ensures failedThem == Some(true) && !Shadowed(old(service.ops)) ==> AllSettled(service.ops)
    ensures !Shadowed(old(service.ops)) ==>
              forall n <- service.ops |
                service.ops[n].status == Failed && old(service.ops)[n].status != Failed ::
                Listed(v, n) in status.components
  {
    failedThem, reported := None, service.ops;
    if !p.fetched {
      return true, failedThem, reported;
    }
    if p.none {
      return false, failedThem, reported;
    }
    error := false;
    if !p.csvCreated {
      error := true;
    }
    if !p.applied {
      error := true;
    }
    var ok := WaitForCSV(service, status, v, p.csvFetched, p.order, p.polls);
    if !ok {
      error := true;
    }
    reported := service.ops;
    if error {
      RetriesOnlyFail(v, reported, p.attempts);
      if !Shadowed(old(service.ops)) {
        RetriesSettle(v, reported, p.attempts);
      }
      ok := RetryPending(service, status, v, p.attempts);
      failedThem := Some(ok);
    }
  }
}
