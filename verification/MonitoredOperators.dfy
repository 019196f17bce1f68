/**
 The inventory client's cached list of monitored operators (getMonitoredOperators and its callers,
 and UpdateClusterOperator, in src/inventory_client/inventory_client.go).

 The cache holds pointers. A query for OpenShift 4.8 renames "odf" to "ocs" through them, entry by
 entry and only as far as it gets, so the cached list is partly the service's and partly renamed.
 */
module MonitoredOperators {
  import opened Wrappers

  /** All that matters of the version string: whether it can be parsed, and whether it is 4.8. */
  datatype Version = Malformed | Ocp48 | OtherVersion

  datatype Kind = Olm | Builtin

  datatype Status = Available | Failed | OtherStatus(text: string)

  /** An operator as the service lists it. */
  datatype Record = Record(name: string, subscription: string, kind: Kind, status: Status,
                           info: string, version: string)

  function Rename(v: Version, r: Record): Record {
    if v == Ocp48 && r.name == "odf" then r.(name := "ocs", subscription := "ocs-operator") else r
  }

  // ---------------------------------------------------------------- queries over the service's list

  /** The first operator that goes by the name, in the list with all operators renamed. */
  function Lookup(v: Version, records: seq<Record>, name: string): Option<Record> {
    if |records| == 0 then None
    else if Rename(v, records[0]).name == name then Some(Rename(v, records[0]))
    else Lookup(v, records[1..], name)
  }

  /** The OLM operators of the list, renamed. */
  function OlmOperators(v: Version, records: seq<Record>): seq<Record> {
    if |records| == 0 then []
    else
      var last := records[|records| - 1];
      OlmOperators(v, records[..|records| - 1]) + if last.kind == Olm then [Rename(v, last)] else []
  }

  predicate HasOlm(records: seq<Record>) {
    exists i :: 0 <= i < |records| && records[i].kind == Olm
  }

  /** Queries of the client. `expired` says whether the cached list has timed out, `answer` is what
      the service answers if it is asked: None is an error. */
  datatype Query =
    | ByName(name: string, useCache: bool, expired: bool, answer: Option<seq<Record>>)
    | AllOlm(useCache: bool, expired: bool, answer: Option<seq<Record>>)

  datatype Reply = One(operator: Option<Record>) | Many(operators: Option<seq<Record>>)

  /** The list a query works on: the one last fetched, as the service sent it, or a new one. */
  function Source(cache: Option<seq<Record>>, q: Query): Option<seq<Record>> {
    if q.useCache && !q.expired && cache.Some? then cache else q.answer
  }

  /** The list last fetched, after the query. */
  function NextCache(cache: Option<seq<Record>>, q: Query): Option<seq<Record>> {
    if Source(cache, q).Some? then Source(cache, q) else if q.expired then None else cache
  }

  function ReplyFrom(v: Version, source: Option<seq<Record>>, q: Query): Reply {
    match q
    case ByName(name, _, _, _) =>
      One(if source.None? || v == Malformed then None else Lookup(v, source.value, name))
    case AllOlm(_, _, _) =>
      Many(if source.None? || (v == Malformed && HasOlm(source.value)) then None
           else Some(OlmOperators(v, source.value)))
  }

  /** What a client without pointers would reply: pure lookups over the list last fetched. */
  function Replies(v: Version, cache: Option<seq<Record>>, queries: seq<Query>): (replies: seq<Reply>)
    ensures |replies| == |queries|
    decreases |queries|
  {
    if |queries| == 0 then []
    else
      [ReplyFrom(v, Source(cache, queries[0]), queries[0])]
      + Replies(v, NextCache(cache, queries[0]), queries[1..])
  }

  // ---------------------------------------------------------------- the client

  /** An entry of the cached list. */
  class Operator {
    var name: string
    var subscriptionName: string
    const kind: Kind
    const status: Status
    const info: string
    const version: string

    constructor (r: Record)
      ensures Value() == r
    {
      name, subscriptionName, kind, status := r.name, r.subscription, r.kind, r.status;
      info, version := r.info, r.version;
    }

    function Value(): Record
      reads this
    {
      Record(name, subscriptionName, kind, status, info, version)
    }

    method RenameFor(v: Version)
      modifies this
      ensures Value() == Rename(v, old(Value()))
    {
      if name == "odf" && v == Ocp48 {
        name := "ocs";
        subscriptionName := "ocs-operator";
      }
    }
  }

  /** Every entry is the service's or has been renamed, and no two entries are the same object. */
  ghost predicate Mirrors(v: Version, list: seq<Operator>, records: seq<Record>)
    reads list
  {
    && |list| == |records|
    && (forall i, j | 0 <= i < j < |list| :: list[i] != list[j])
    && (forall i | 0 <= i < |list| ::
          list[i].Value() == records[i] || list[i].Value() == Rename(v, records[i]))
  }

  /** Renames one entry. */
  method RenameAt(v: Version, list: seq<Operator>, i: nat, ghost records: seq<Record>)
    requires Mirrors(v, list, records) && i < |list|
    modifies list[i]
    ensures Mirrors(v, list, records)
    ensures list[i].Value() == Rename(v, records[i])
  {
    list[i].RenameFor(v);
  }

  lemma LookupStep(v: Version, records: seq<Record>, i: nat, name: string)
    requires i < |records|
    ensures Lookup(v, records[i..], name)
         == if Rename(v, records[i]).name == name then Some(Rename(v, records[i]))
            else Lookup(v, records[i + 1..], name)
  {
    assert records[i..][1..] == records[i + 1..];
  }

  /** Renames entry by entry until one has the name. */
  method FindOperator(v: Version, name: string, list: seq<Operator>, ghost records: seq<Record>)
    returns (found: Option<Operator>)
    requires Mirrors(v, list, records)
    modifies list
    ensures Mirrors(v, list, records)
    ensures found.Some? == (v != Malformed && Lookup(v, records, name).Some?)
    ensures found.Some? ==> found.value in list && found.value.Value() == Lookup(v, records, name).value
  {
    assert records[0..] == records;
    for i := 0 to |list|
      invariant Mirrors(v, list, records)
      invariant v == Malformed ==> i == 0
      invariant Lookup(v, records, name) == Lookup(v, records[i..], name)
    {
      if v == Malformed {
        return None;
      }
      RenameAt(v, list, i, records);
      LookupStep(v, records, i, name);
      if list[i].name == name {
        return Some(list[i]);
      }
    }
    found := None;
  }

  lemma OlmOneMore(v: Version, records: seq<Record>, i: nat)
    requires i < |records|
    ensures OlmOperators(v, records[..i + 1])
         == OlmOperators(v, records[..i]) + if records[i].kind == Olm then [Rename(v, records[i])] else []
    ensures HasOlm(records[..i + 1]) <==> HasOlm(records[..i]) || records[i].kind == Olm
  {
    assert records[..i + 1][..i] == records[..i];
    assert records[..i + 1][i] == records[i];
    if k :| 0 <= k < i && records[k].kind == Olm {
      assert records[..i][k] == records[..i + 1][k] == records[k];
    }
  }

  lemma HasOlmPrefix(records: seq<Record>, n: nat)
    requires n <= |records| && HasOlm(records[..n])
    ensures HasOlm(records)
  {
  }

  /** Renames and copies the OLM operators. */
  method CopyOlm(v: Version, list: seq<Operator>, ghost records: seq<Record>)
    returns (copies: Option<seq<Record>>)
    requires Mirrors(v, list, records)
    modifies list
    ensures Mirrors(v, list, records)
    ensures copies == if v == Malformed && HasOlm(records) then None else Some(OlmOperators(v, records))
  {
    var olm := [];
    for i := 0 to |list|
      invariant Mirrors(v, list, records)
      invariant v == Malformed ==> !HasOlm(records[..i])
      invariant olm == OlmOperators(v, records[..i])
    {
      OlmOneMore(v, records, i);
      assert list[i].Value().kind == records[i].kind;
      if list[i].kind == Olm {
        if v == Malformed {
          HasOlmPrefix(records, i + 1);
          return None;
        }
        RenameAt(v, list, i, records);
        olm := olm + [list[i].Value()];
      }
    }
    assert records[..|list|] == records;
    copies := Some(olm);
  }

  class InventoryClient {
    var cached: bool
    var list: seq<Operator>
    /** The list as the service sent it. */
    ghost var fetched: seq<Record>

    /** The list last fetched, if it is still cached. */
    ghost function Cache(): Option<seq<Record>>
      reads this
    {
      if cached then Some(fetched) else None
    }

    ghost predicate Valid(v: Version)
      reads this, list
    {
      Mirrors(v, list, fetched)
    }

    constructor ()
      ensures !cached && forall v :: Valid(v)
    {
      cached, list, fetched := false, [], [];
    }

    /** The cached list if it may be used, else the service's answer, which replaces it. */
    method GetMonitoredOperators(v: Version, useCache: bool, expired: bool, answer: Option<seq<Record>>)
      returns (found: bool)
      requires Valid(v)
      modifies this
      ensures Valid(v)
      ensures found == (Source(old(Cache()), AllOlm(useCache, expired, answer)).Some?)
      ensures Cache() == NextCache(old(Cache()), AllOlm(useCache, expired, answer))
      ensures found ==> cached
      ensures list == old(list) || fresh(list)
    {
      if expired {
        cached := false;
      }
      if useCache && cached {
        return true;
      }
      if answer.None? {
        return false;
      }
      var operators: seq<Operator> := [];
      for i := 0 to |answer.value|
        invariant |operators| == i
        invariant fresh(operators)
        invariant forall k | 0 <= k < i :: operators[k].Value() == answer.value[k]
        invariant forall j, k | 0 <= j < k < i :: operators[j] != operators[k]
      {
        var o := new Operator(answer.value[i]);
        operators := operators + [o];
      }
      cached, list, fetched := true, operators, answer.value;
      found := true;
    }

    method GetClusterMonitoredOperator(v: Version, name: string, useCache: bool, expired: bool,
                                       answer: Option<seq<Record>>)
      returns (found: Option<Operator>)
      requires Valid(v)
      modifies this, list
      ensures Valid(v) && (list == old(list) || fresh(list))
      ensures var q := ByName(name, useCache, expired, answer);
              && Cache() == NextCache(old(Cache()), q)
              && var reply := ReplyFrom(v, Source(old(Cache()), q), q).operator;
                 && found.Some? == reply.Some?
                 && (found.Some? ==> found.value in list && found.value.Value() == reply.value)
    {
      var ok := GetMonitoredOperators(v, useCache, expired, answer);
      if !ok {
        return None;
      }
      found := FindOperator(v, name, list, fetched);
    }

    method GetClusterMonitoredOLMOperators(v: Version, useCache: bool, expired: bool,
                                           answer: Option<seq<Record>>)
      returns (olm: Option<seq<Record>>)
      requires Valid(v)
      modifies this, list
      ensures Valid(v) && (list == old(list) || fresh(list))
      ensures var q := AllOlm(useCache, expired, answer);
              && Cache() == NextCache(old(Cache()), q)
              && Many(olm) == ReplyFrom(v, Source(old(Cache()), q), q)
    {
      var ok := GetMonitoredOperators(v, useCache, expired, answer);
      if !ok {
        return None;
      }
      olm := CopyOlm(v, list, fetched);
    }
  }

  /**
   Whatever the order of the queries and whenever the cache expires, the client replies as if
   it renamed a copy of the list last fetched each time.
   */
  method Serve(client: InventoryClient, v: Version, queries: seq<Query>) returns (replies: seq<Reply>)
    requires client.Valid(v)
    modifies client, client.list
    ensures client.Valid(v)
    ensures replies == Replies(v, old(client.Cache()), queries)
  {
    replies := [];
    ghost var start := client.Cache();
    assert queries[0..] == queries;
    for i := 0 to |queries|
      invariant client.Valid(v) && (client.list == old(client.list) || fresh(client.list))
      invariant Replies(v, start, queries) == replies + Replies(v, client.Cache(), queries[i..])
    {
      ghost var cache := client.Cache();
      assert queries[i..][1..] == queries[i + 1..];
      var reply := ServeOne(client, v, queries[i]);
      Associative(replies, [reply], Replies(v, NextCache(cache, queries[i]), queries[i + 1..]));
      replies := replies + [reply];
    }
  }

  method ServeOne(client: InventoryClient, v: Version, q: Query) returns (reply: Reply)
    requires client.Valid(v)
    modifies client, client.list
    ensures client.Valid(v) && (client.list == old(client.list) || fresh(client.list))
    ensures client.Cache() == NextCache(old(client.Cache()), q)
    ensures reply == ReplyFrom(v, Source(old(client.Cache()), q), q)
  {
    match q
    case ByName(name, useCache, expired, answer) =>
      var found := client.GetClusterMonitoredOperator(v, name, useCache, expired, answer);
      reply := One(if found.None? then None else Some(found.value.Value()));
    case AllOlm(useCache, expired, answer) =>
      var olm := client.GetClusterMonitoredOLMOperators(v, useCache, expired, answer);
      reply := Many(olm);
  }

  /** The service sent the record in answer to one of the queries, or the cache had it to begin with. */
  ghost predicate Sent(cache: Option<seq<Record>>, queries: seq<Query>, r: Record) {
    || (cache.Some? && r in cache.value)
    || exists j :: 0 <= j < |queries| && queries[j].answer.Some? && r in queries[j].answer.value
  }

  lemma SentLater(cache: Option<seq<Record>>, queries: seq<Query>, n: nat, r: Record)
    requires 0 < n <= |queries| && Sent(NextCache(cache, queries[0]), queries[1..n], r)
    ensures Sent(cache, queries[..n], r)
  {
    var next := NextCache(cache, queries[0]);
    if next.Some? && r in next.value {
      if !(cache.Some? && r in cache.value) {
        assert queries[..n][0].answer == next;
      }
    } else {
      var j :| 0 <= j < n - 1 && queries[1..n][j].answer.Some? && r in queries[1..n][j].answer.value;
      assert queries[..n][j + 1] == queries[1..n][j];
    }
  }

  /** Every operator that a query by name returns is the renaming of a record that the service had sent
      by then, and goes by the name asked for. */
  lemma {:induction false} RepliesWereSent(v: Version, cache: Option<seq<Record>>, queries: seq<Query>,
                                           i: nat, found: Record) returns (r: Record)
    requires i < |queries| && queries[i].ByName?
    requires Replies(v, cache, queries)[i] == One(Some(found))
    ensures Sent(cache, queries[..i + 1], r)
    ensures found == Rename(v, r) && found.name == queries[i].name
    decreases |queries|
  {
    if i == 0 {
      var records := Source(cache, queries[0]).value;
      LookupFinds(v, records, queries[0].name);
      var k :| 0 <= k < |records| && Lookup(v, records, queries[0].name).value == Rename(v, records[k])
               && Rename(v, records[k]).name == queries[0].name;
      r := records[k];
      assert queries[..1][0] == queries[0];
    } else {
      r := RepliesWereSent(v, NextCache(cache, queries[0]), queries[1..], i - 1, found);
      assert queries[1..][..i] == queries[1..i + 1];
      SentLater(cache, queries, i + 1, r);
    }
  }

  // ---------------------------------------------------------------- reporting back

  /** The name under which UpdateClusterOperator reports on an operator. */
  function ReportedName(name: string): string {
    if name == "ocs" then "odf" else name
  }

  /** Reports on renamed operators reach the service under its own names for all operators of a list,
      for every version, exactly when the service itself calls none of them "ocs". */
  lemma ReportsUndoRenaming(records: seq<Record>)
    ensures (forall v, i | 0 <= i < |records| ::
               ReportedName(Rename(v, records[i]).name) == records[i].name)
       <==> (forall i | 0 <= i < |records| :: records[i].name != "ocs")
  {
    if i :| 0 <= i < |records| && records[i].name == "ocs" {
      assert ReportedName(Rename(OtherVersion, records[i]).name) == "odf";
    }
  }

  /** An "ocs" of the service's own does come back under another name. */
  lemma NativeOcsIsMistaken(v: Version, r: Record)
    requires r.name == "ocs"
    ensures ReportedName(Rename(v, r).name) == "odf"
  {
  }

  // ---------------------------------------------------------------- what the queries return

  /** `k` is the position of the first record called one of the names. */
  ghost predicate IsFirst(records: seq<Record>, names: set<string>, k: nat) {
    && k < |records| && records[k].name in names
    && forall i | 0 <= i < k :: records[i].name !in names
  }

  ghost predicate NoneOf(records: seq<Record>, names: set<string>) {
    forall i | 0 <= i < |records| :: records[i].name !in names
  }

  /** Unless the version is 4.8, a query by name returns the first record of that name as it is. */
  lemma {:induction false} LookupAsIs(v: Version, records: seq<Record>, name: string) returns (k: nat)
    requires v != Ocp48 || (name != "odf" && name != "ocs")
    ensures if NoneOf(records, {name}) then Lookup(v, records, name) == None
            else IsFirst(records, {name}, k) && Lookup(v, records, name) == Some(records[k])
  {
    k := 0;
    if |records| > 0 && records[0].name != name {
      var rest := LookupAsIs(v, records[1..], name);
      k := rest + 1;
      NoneOfRest(records, {name});
      if !NoneOf(records[1..], {name}) {
        FirstOfRest(records, {name}, rest);
      }
    }
  }

  lemma NoneOfRest(records: seq<Record>, names: set<string>)
    requires |records| > 0
    ensures NoneOf(records, names) <==> records[0].name !in names && NoneOf(records[1..], names)
  {
    assert forall i | 0 < i < |records| :: records[i] == records[1..][i - 1];
  }

  lemma FirstOfRest(records: seq<Record>, names: set<string>, k: nat)
    requires |records| > 0 && records[0].name !in names && IsFirst(records[1..], names, k)
    ensures IsFirst(records, names, k + 1) && records[k + 1] == records[1..][k]
  {
    assert forall i | 0 < i < |records| :: records[i] == records[1..][i - 1];
  }

  /** On 4.8 "ocs" finds the first record called "odf" or "ocs"; an "odf" comes with the name "ocs" and the
      subscription "ocs-operator", and is otherwise as it is. */
  lemma {:induction false} LookupOcs(records: seq<Record>) returns (k: nat)
    ensures var found := Lookup(Ocp48, records, "ocs");
            if NoneOf(records, {"odf", "ocs"}) then found == None
            else
              && IsFirst(records, {"odf", "ocs"}, k) && found.Some?
              && (records[k].name == "ocs" ==> found.value == records[k])
              && (records[k].name == "odf" ==> IsOcsFor(found.value, records[k]))
  {
    k := 0;
    if |records| > 0 && records[0].name !in {"odf", "ocs"} {
      var rest := LookupOcs(records[1..]);
      k := rest + 1;
      NoneOfRest(records, {"odf", "ocs"});
      if !NoneOf(records[1..], {"odf", "ocs"}) {
        FirstOfRest(records, {"odf", "ocs"}, rest);
      }
    }
  }

  ghost predicate IsOcsFor(found: Record, r: Record) {
    && found.name == "ocs" && found.subscription == "ocs-operator"
    && found.kind == r.kind && found.status == r.status && found.info == r.info
    && found.version == r.version
  }

  /** On 4.8 nothing is ever found as "odf". */
  lemma {:induction false} NothingIsOdf(records: seq<Record>)
    ensures Lookup(Ocp48, records, "odf") == None
  {
    if |records| > 0 {
      NothingIsOdf(records[1..]);
    }
  }

  /** The OLM records of a list, as they are. */
  function OnlyOlm(records: seq<Record>): seq<Record> {
    if |records| == 0 then []
    else
      var last := records[|records| - 1];
      if last.kind == Olm then OnlyOlm(records[..|records| - 1]) + [last]
      else OnlyOlm(records[..|records| - 1])
  }

  /** The query for OLM operators returns exactly the OLM records in order: as they are, but that on 4.8
      an "odf" comes as "ocs". */
  lemma {:induction false} OlmAsIs(v: Version, records: seq<Record>)
    ensures |OlmOperators(v, records)| == |OnlyOlm(records)|
    ensures forall k | 0 <= k < |OnlyOlm(records)| ::
              var found, r := OlmOperators(v, records)[k], OnlyOlm(records)[k];
              if v == Ocp48 && r.name == "odf" then IsOcsFor(found, r) else found == r
  {
    if |records| > 0 {
      OlmAsIs(v, records[..|records| - 1]);
    }
  }

  /** A version that cannot be parsed makes every query by name fail, and the query for OLM operators if
      there is one. */
  lemma MalformedVersionFails(source: Option<seq<Record>>, q: Query)
    ensures q.ByName? ==> ReplyFrom(Malformed, source, q) == One(None)
    ensures q.AllOlm? && source.Some? ==>
              (ReplyFrom(Malformed, source, q) == Many(None)
               <==> exists i :: 0 <= i < |source.value| && source.value[i].kind == Olm)
    ensures q.AllOlm? && source.Some? && ReplyFrom(Malformed, source, q) != Many(None) ==>
              ReplyFrom(Malformed, source, q) == Many(Some([]))
  {
    if q.AllOlm? && source.Some? && !HasOlm(source.value) {
      NoOlmOperators(Malformed, source.value);
    }
  }

  lemma {:induction false} NoOlmOperators(v: Version, records: seq<Record>)
    requires forall i | 0 <= i < |records| :: records[i].kind != Olm
    ensures OlmOperators(v, records) == []
  {
    if |records| > 0 {
      NoOlmOperators(v, records[..|records| - 1]);
    }
  }

  /** When the cached list serves a query and when the service is asked, and what is cached then: an
      answer replaces the list, an error leaves it unless it has expired. */
  lemma WhenTheCacheServes(cache: Option<seq<Record>>, q: Query)
    ensures q.useCache && !q.expired && cache.Some? ==>
              Source(cache, q) == cache && NextCache(cache, q) == cache
    ensures !q.useCache || q.expired || cache.None? ==>
              && Source(cache, q) == q.answer
              && (q.answer.Some? ==> NextCache(cache, q) == q.answer)
              && (q.answer.None? && !q.expired ==> NextCache(cache, q) == cache)
              && (q.answer.None? && q.expired ==> NextCache(cache, q) == None)
  {
  }

  /** The operator a query by name finds is one of the list, found under the name asked for. */
  lemma {:induction false} LookupFinds(v: Version, records: seq<Record>, name: string)
    ensures Lookup(v, records, name).Some? <==>
              exists i :: 0 <= i < |records| && Rename(v, records[i]).name == name
    ensures Lookup(v, records, name).Some? ==>
              exists i :: 0 <= i < |records| && Lookup(v, records, name).value == Rename(v, records[i])
                          && Rename(v, records[i]).name == name
                          && forall j | 0 <= j < i :: Rename(v, records[j]).name != name
  {
    if |records| > 0 {
      LookupFinds(v, records[1..], name);
      if Rename(v, records[0]).name != name {
        forall i | 0 <= i < |records[1..]|
          ensures records[1..][i] == records[i + 1]
        {
        }
      }
    }
  }
}
