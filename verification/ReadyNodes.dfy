/**
 The bootstrap's wait for enough ready nodes of a role (waitForNodes and updateReadyNodes in
 src/installer/installer.go).
 */
module ReadyNodes {
  import opened Wrappers
  import opened Inventory

  /** A Joined report the service accepted, and the node it was made for. */
  datatype Sent = Sent(node: string, host: string)

  /** What the wait remembers from poll to poll, and the reports that were accepted. */
  datatype State = State(ready: seq<string>, inventory: Option<Hosts>, sent: seq<Sent>)

  datatype Outcome = Enough | NotYet | UpdateFailed | NotInInventory(node: string)

  /**
   What one poll meets: the replicas of the install config, the hosts the service returns if asked, the
   nodes of the role, and the positions of the nodes for which a report is accepted.
   */
  datatype Answers = Answers(replicas: Option<int>, hosts: Option<Hosts>, nodes: Option<seq<Node>>,
                             accepted: set<nat>)

  /** Which nodes are waited for, how many at most, and which host is the bootstrap itself. */
  datatype Wait = Wait(role: string, minNodes: int, self: string)

  // ---------------------------------------------------------------- the pass over the nodes

  datatype Pass = Pass(ready: seq<string>, sent: seq<Sent>, outcome: Outcome)

  function Visit(p: Pass, node: Node, host: Option<Host>, accepted: bool): Pass {
    if !node.ready || node.name in p.ready then p
    else if host.None? then Pass(p.ready + [node.name], p.sent, NotInInventory(node.name))
    else if host.value.status == Installed then p.(ready := p.ready + [node.name])
    else if accepted then Pass(p.ready + [node.name], p.sent + [Sent(node.name, host.value.name)], NotYet)
    else p.(outcome := UpdateFailed)
  }

  /** Visits the nodes in order, up to the first that ends the pass. */
  function VisitAll(start: Pass, nodes: seq<Node>, hosts: Hosts, index: Hosts, accepted: set<nat>)
    : (p: Pass)
    ensures start.outcome != Enough ==> p.outcome != Enough
  {
    if |nodes| == 0 then start
    else
      var i := |nodes| - 1;
      var p := VisitAll(start, nodes[..i], hosts, index, accepted);
      if p.outcome != NotYet then p
      else Visit(p, nodes[i], HostMatch(nodes[i], hosts, index), i in accepted)
  }

  lemma VisitAllStep(start: Pass, nodes: seq<Node>, i: nat, hosts: Hosts, index: Hosts,
                     accepted: set<nat>)
    requires i < |nodes| && VisitAll(start, nodes[..i], hosts, index, accepted).outcome == NotYet
    ensures VisitAll(start, nodes[..i + 1], hosts, index, accepted)
         == Visit(VisitAll(start, nodes[..i], hosts, index, accepted), nodes[i],
                  HostMatch(nodes[i], hosts, index), i in accepted)
  {
    assert nodes[..i + 1][..i] == nodes[..i];
  }

  lemma {:induction false} VisitAllStops(start: Pass, nodes: seq<Node>, i: nat, hosts: Hosts,
                                         index: Hosts, accepted: set<nat>)
    requires i <= |nodes| && VisitAll(start, nodes[..i], hosts, index, accepted).outcome != NotYet
    ensures VisitAll(start, nodes, hosts, index, accepted)
         == VisitAll(start, nodes[..i], hosts, index, accepted)
  {
    if i == |nodes| {
      assert nodes[..i] == nodes;
    } else {
      assert nodes[..|nodes| - 1][..i] == nodes[..i];
      VisitAllStops(start, nodes[..|nodes| - 1], i, hosts, index, accepted);
    }
  }

  // ---------------------------------------------------------------- one poll

  /** How many ready nodes are enough. */
  function TrueMinNodes(w: Wait, replicas: int): int {
    if w.role == "master" then if replicas - 1 < w.minNodes then replicas - 1 else w.minNodes
    else if w.role == "arbiter" then 1
    else 0
  }

  /** The hosts a poll works with. */
  function Cached(w: Wait, s: State, a: Answers): Option<Hosts> {
    InventoryHosts(w.self, s.inventory, a.hosts)
  }

  datatype Result = Result(state: State, outcome: Outcome)

  /** One poll, given the address index that it built. */
  function Poll(w: Wait, s: State, a: Answers, index: Hosts): Result {
    if a.replicas.None? then Result(s, NotYet)
    else if a.replicas.value < 1 then Result(s, Enough)
    else
      var inventory := Cached(w, s, a);
      if inventory.None? || a.nodes.None? then Result(s.(inventory := inventory), NotYet)
      else
        var p := VisitAll(Pass(s.ready, s.sent, NotYet), a.nodes.value, inventory.value, index,
                          a.accepted);
        if p.outcome != NotYet then Result(State(p.ready, None, p.sent), p.outcome)
        else
          Result(State(p.ready, inventory, p.sent),
                 if |p.ready| >= TrueMinNodes(w, a.replicas.value) then Enough else NotYet)
  }

  /** The index is that of the hosts the poll works with, if the poll gets as far as using one. */
  ghost predicate Indexed(w: Wait, s: State, a: Answers, index: Hosts) {
    a.replicas.Some? && a.replicas.value >= 1 && Cached(w, s, a).Some? && a.nodes.Some? ==>
      IsIpIndex(index, Cached(w, s, a).value)
  }

  class Waiter {
    const wait: Wait
    var readyNodes: seq<string>
    var inventory: Option<Hosts>
    /** The Joined reports the service accepted. */
    var sent: seq<Sent>

    constructor (wait: Wait)
      ensures this.wait == wait && Value() == State([], None, [])
    {
      this.wait := wait;
      readyNodes, inventory, sent := [], None, [];
    }

    function Value(): State
      reads this
    {
      State(readyNodes, inventory, sent)
    }

    method UpdateReadyNodes(nodes: seq<Node>, hosts: Hosts, accepted: set<nat>)
      returns (outcome: Outcome, ghost index: Hosts)
      modifies this`readyNodes, this`sent
      ensures IsIpIndex(index, hosts)
      ensures VisitAll(Pass(old(readyNodes), old(sent), NotYet), nodes, hosts, index, accepted)
           == Pass(readyNodes, sent, outcome)
    {
      var known := BuildHostsMapIPAddressBased(hosts);
      index := known;
      ghost var start := Pass(readyNodes, sent, NotYet);
      for i := 0 to |nodes|
        invariant VisitAll(start, nodes[..i], hosts, index, accepted) == Pass(readyNodes, sent, NotYet)
      {
        VisitAllStep(start, nodes, i, hosts, index, accepted);
        if nodes[i].ready && nodes[i].name !in readyNodes {
          var host := HostMatchByNameOrIPAddress(nodes[i], hosts, known);
          if host.Some? && host.value.status != Installed {
            if i !in accepted {
              VisitAllStops(start, nodes, i + 1, hosts, index, accepted);
              return UpdateFailed, index;
            }
            sent := sent + [Sent(nodes[i].name, host.value.name)];
          }
          readyNodes := readyNodes + [nodes[i].name];
          if host.None? {
            VisitAllStops(start, nodes, i + 1, hosts, index, accepted);
            return NotInInventory(nodes[i].name), index;
          }
        }
      }
      assert nodes[..|nodes|] == nodes;
      outcome := NotYet;
    }

    /** One poll: true when there are enough ready nodes. */
    method SufficientNodes(a: Answers) returns (enough: bool, ghost index: Hosts)
      modifies this
      ensures Indexed(wait, old(Value()), a, index)
      ensures Value() == Poll(wait, old(Value()), a, index).state
      ensures enough <==> Poll(wait, old(Value()), a, index).outcome == Enough
    {
      index := map[];
      if a.replicas.None? {
        return false, index;
      }
      if a.replicas.value < 1 {
        return true, index;
      }
      var trueMinNodes := 0;
      if wait.role == "master" {
        trueMinNodes := if a.replicas.value - 1 < wait.minNodes then a.replicas.value - 1
                        else wait.minNodes;
      } else if wait.role == "arbiter" {
        trueMinNodes := 1;
      }
      inventory := GetInventoryHostsMap(wait.self, inventory, a.hosts);
      if inventory.None? || a.nodes.None? {
        return false, index;
      }
      var outcome;
      outcome, index := UpdateReadyNodes(a.nodes.value, inventory.value, a.accepted);
      if outcome != NotYet {
        inventory := None;
        return false, index;
      }
      enough := |readyNodes| >= trueMinNodes;
    }
  }

  // ---------------------------------------------------------------- whole waits

  /** A poll of a wait, with the address index it built. */
  datatype Round = Round(answers: Answers, index: Hosts)

  function Run(w: Wait, rounds: seq<Round>): State {
    if |rounds| == 0 then State([], None, [])
    else
      var last := rounds[|rounds| - 1];
      Poll(w, Run(w, rounds[..|rounds| - 1]), last.answers, last.index).state
  }

  /** How the last poll of a run went. */
  function LastOutcome(w: Wait, rounds: seq<Round>): Outcome
    requires |rounds| > 0
  {
    var last := rounds[|rounds| - 1];
    Poll(w, Run(w, rounds[..|rounds| - 1]), last.answers, last.index).outcome
  }

  /** Every poll used the index of the hosts it worked with. */
  ghost predicate AllIndexed(w: Wait, rounds: seq<Round>) {
    |rounds| > 0 ==>
      var prefix, last := rounds[..|rounds| - 1], rounds[|rounds| - 1];
      AllIndexed(w, prefix) && Indexed(w, Run(w, prefix), last.answers, last.index)
  }

  /** No poll found enough nodes. */
  ghost predicate NoneEnough(w: Wait, rounds: seq<Round>) {
    |rounds| > 0 ==> NoneEnough(w, rounds[..|rounds| - 1]) && LastOutcome(w, rounds) != Enough
  }

  lemma {:induction false} NoneEnoughSoFar(w: Wait, rounds: seq<Round>, n: nat)
    requires NoneEnough(w, rounds) && 0 < n <= |rounds|
    ensures LastOutcome(w, rounds[..n]) != Enough
  {
    if n == |rounds| {
      assert rounds[..n] == rounds;
    } else {
      assert rounds[..|rounds| - 1][..n] == rounds[..n];
      NoneEnoughSoFar(w, rounds[..|rounds| - 1], n);
    }
  }

  /** Polls until there are enough nodes, and not once more; `polls` are all there are before the context
      is cancelled. */
  method WaitForNodes(waiter: Waiter, polls: seq<Answers>) returns (enough: bool, ghost rounds: seq<Round>)
    requires waiter.Value() == State([], None, [])
    modifies waiter
    ensures |rounds| <= |polls| && forall i | 0 <= i < |rounds| :: rounds[i].answers == polls[i]
    ensures waiter.Value() == Run(waiter.wait, rounds)
    ensures AllIndexed(waiter.wait, rounds)
    ensures enough ==> |rounds| > 0 && LastOutcome(waiter.wait, rounds) == Enough
                       && NoneEnough(waiter.wait, rounds[..|rounds| - 1])
    ensures !enough ==> |rounds| == |polls| && NoneEnough(waiter.wait, rounds)
  {
    rounds := [];
    for i := 0 to |polls|
      invariant |rounds| == i && forall k | 0 <= k < i :: rounds[k].answers == polls[k]
      invariant waiter.Value() == Run(waiter.wait, rounds) && AllIndexed(waiter.wait, rounds)
      invariant NoneEnough(waiter.wait, rounds)
    {
      ghost var index;
      enough, index := waiter.SufficientNodes(polls[i]);
      ghost var before := rounds;
      rounds := rounds + [Round(polls[i], index)];
      assert rounds[..|rounds| - 1] == before;
      if enough {
        return;
      }
    }
    enough := false;
  }

  /** The nodes for which a poll ended with "not in inventory", in order: one for each such poll. */
  function Unknown(w: Wait, rounds: seq<Round>): seq<string> {
    if |rounds| == 0 then []
    else
      var outcome := LastOutcome(w, rounds);
      Unknown(w, rounds[..|rounds| - 1])
      + if outcome.NotInInventory? then [outcome.node] else []
  }

  ghost predicate Distinct(names: seq<string>) {
    forall i, j | 0 <= i < j < |names| :: names[i] != names[j]
  }

  /** No two accepted reports are for the same node, and the nodes reported on count as ready. */
  ghost predicate SentOnce(sent: seq<Sent>, ready: seq<string>) {
    && (forall i, j | 0 <= i < j < |sent| :: sent[i].node != sent[j].node)
    && (forall i | 0 <= i < |sent| :: sent[i].node in ready)
  }

  ghost predicate Unsent(sent: seq<Sent>, name: string) {
    forall i | 0 <= i < |sent| :: sent[i].node != name
  }

  ghost predicate SeenReady(nodes: seq<Node>, name: string) {
    exists i :: 0 <= i < |nodes| && nodes[i].name == name && nodes[i].ready
  }

  /** What a pass adds: ready nodes it sees, each once, and at most one report for each. */
  ghost predicate Extends(before: Pass, after: Pass, nodes: seq<Node>) {
    && before.ready <= after.ready && Distinct(after.ready)
    && before.sent <= after.sent && SentOnce(after.sent, after.ready)
    && (forall name | name in after.ready && name !in before.ready :: SeenReady(nodes, name))
    && (forall i | |before.sent| <= i < |after.sent| :: after.sent[i].node !in before.ready)
    && (after.outcome.NotInInventory? ==>
          && after.outcome.node in after.ready && after.outcome.node !in before.ready
          && Unsent(after.sent, after.outcome.node))
  }

  lemma VisitExtends(start: Pass, p: Pass, nodes: seq<Node>, node: Node, host: Option<Host>,
                     accepted: bool)
    requires Extends(start, p, nodes) && p.outcome == NotYet
    ensures Extends(start, Visit(p, node, host, accepted), nodes + [node])
  {
    var after := Visit(p, node, host, accepted);
    forall name | name in after.ready && name !in start.ready
      ensures SeenReady(nodes + [node], name)
    {
      if name in p.ready {
        var i :| 0 <= i < |nodes| && nodes[i].name == name && nodes[i].ready;
        assert (nodes + [node])[i] == nodes[i];
      } else {
        assert (nodes + [node])[|nodes|] == node;
      }
    }
  }

  lemma {:induction false} VisitAllExtends(start: Pass, nodes: seq<Node>, hosts: Hosts, index: Hosts,
                                           accepted: set<nat>)
    requires Distinct(start.ready) && SentOnce(start.sent, start.ready) && start.outcome == NotYet
    ensures Extends(start, VisitAll(start, nodes, hosts, index, accepted), nodes)
  {
    if |nodes| > 0 {
      var i := |nodes| - 1;
      VisitAllExtends(start, nodes[..i], hosts, index, accepted);
      var p := VisitAll(start, nodes[..i], hosts, index, accepted);
      assert nodes == nodes[..i] + [nodes[i]];
      if p.outcome == NotYet {
        VisitExtends(start, p, nodes[..i], nodes[i], HostMatch(nodes[i], hosts, index), i in accepted);
      } else {
        forall name | name in p.ready && name !in start.ready
          ensures SeenReady(nodes, name)
        {
          var k :| 0 <= k < |nodes[..i]| && nodes[..i][k].name == name && nodes[..i][k].ready;
          assert nodes[k] == nodes[..i][k];
        }
      }
    }
  }

  lemma {:induction false} UnknownIsUnmatched(start: Pass, nodes: seq<Node>, hosts: Hosts, index: Hosts,
                                              accepted: set<nat>)
    requires start.outcome == NotYet
    ensures var outcome := VisitAll(start, nodes, hosts, index, accepted).outcome;
            outcome.NotInInventory? ==>
              exists i :: 0 <= i < |nodes| && nodes[i].name == outcome.node && nodes[i].ready
                          && HostMatch(nodes[i], hosts, index).None?
  {
    if |nodes| > 0 {
      var i := |nodes| - 1;
      UnknownIsUnmatched(start, nodes[..i], hosts, index, accepted);
      var p := VisitAll(start, nodes[..i], hosts, index, accepted);
      if p.outcome.NotInInventory? {
        var k :| 0 <= k < i && nodes[..i][k].name == p.outcome.node && nodes[..i][k].ready
                 && HostMatch(nodes[..i][k], hosts, index).None?;
        assert nodes[k] == nodes[..i][k];
      }
    }
  }

  /** What the state of a wait always satisfies. */
  ghost predicate Inv(s: State) {
    Distinct(s.ready) && SentOnce(s.sent, s.ready)
  }

  /** A poll forgets no ready node and no report, and makes at most one report for a node. */
  lemma PollKeepsInv(w: Wait, s: State, a: Answers, index: Hosts)
    requires Inv(s)
    ensures var r := Poll(w, s, a, index);
            && Inv(r.state) && s.ready <= r.state.ready && s.sent <= r.state.sent
            && (forall name | name in r.state.ready && name !in s.ready ::
                  a.nodes.Some? && SeenReady(a.nodes.value, name))
            && (forall i | |s.sent| <= i < |r.state.sent| :: r.state.sent[i].node !in s.ready)
            && (r.outcome.NotInInventory? ==>
                  && r.outcome.node in r.state.ready && r.outcome.node !in s.ready
                  && Unsent(r.state.sent, r.outcome.node))
  {
    var inventory := Cached(w, s, a);
    if a.replicas.Some? && a.replicas.value >= 1 && inventory.Some? && a.nodes.Some? {
      VisitAllExtends(Pass(s.ready, s.sent, NotYet), a.nodes.value, inventory.value, index, a.accepted);
    }
  }

  /** A node that counts was seen ready in one of the polls. */
  ghost predicate Observed(rounds: seq<Round>, name: string) {
    exists i :: 0 <= i < |rounds| && rounds[i].answers.nodes.Some?
                && SeenReady(rounds[i].answers.nodes.value, name)
  }

  /**
   Over a whole wait: the nodes that count are different and were each seen ready, every node gets at
   most one accepted Joined, and the polls that end with "not in inventory" are no more than the
   nodes they complain about, which are all different and are never reported on.
   */
  lemma {:induction false} RunCounts(w: Wait, rounds: seq<Round>)
    ensures var s, unknown := Run(w, rounds), Unknown(w, rounds);
            && Inv(s)
            && (forall name <- s.ready :: Observed(rounds, name))
            && Distinct(unknown)
            && (forall name <- unknown :: name in s.ready)
            && (forall name <- unknown :: Unsent(s.sent, name))
  {
    if |rounds| > 0 {
      var prefix, last := rounds[..|rounds| - 1], rounds[|rounds| - 1];
      RunCounts(w, prefix);
      PollKeepsInv(w, Run(w, prefix), last.answers, last.index);
      var before, after := Run(w, prefix), Run(w, rounds);
      forall name | name in after.ready
        ensures Observed(rounds, name)
      {
        if name in before.ready {
          assert Observed(prefix, name);
          var i :| 0 <= i < |prefix| && prefix[i].answers.nodes.Some?
                   && SeenReady(prefix[i].answers.nodes.value, name);
          assert rounds[i] == prefix[i];
        } else {
          assert SeenReady(rounds[|rounds| - 1].answers.nodes.value, name);
        }
      }
      forall name | name in Unknown(w, prefix)
        ensures Unsent(after.sent, name)
      {
        assert Unsent(before.sent, name) && name in before.ready;
      }
    }
  }

  /** The wait ends only if no node of the role is expected, or enough different ones were ready: two,
      or one less than there are replicas, for masters. */
  lemma EnoughMeansReady(w: Wait, rounds: seq<Round>)
    requires |rounds| > 0 && LastOutcome(w, rounds) == Enough
    ensures var replicas, ready := rounds[|rounds| - 1].answers.replicas, Run(w, rounds).ready;
            && replicas.Some?
            && (replicas.value < 1
                || (IsEnough(w, replicas.value, |ready|) && Distinct(ready)
                    && forall name <- ready :: Observed(rounds, name)))
  {
    RunCounts(w, rounds);
  }

  /** Two masters, or one less than there are replicas; one arbiter; no node of any other role. */
  ghost predicate IsEnough(w: Wait, replicas: int, ready: nat) {
    && (w.role == "master" ==> ready >= replicas - 1 || ready >= w.minNodes)
    && (w.role == "arbiter" ==> ready >= 1)
  }

  /** A poll whose pass ends without error ends the wait exactly if that many nodes are ready, and one
      that finds no node expected always does; without the number of replicas, the hosts or the nodes it
      never does. */
  lemma PollEndsIff(w: Wait, s: State, a: Answers, index: Hosts)
    ensures var r := Poll(w, s, a, index);
            r.outcome == Enough <==>
              && a.replicas.Some?
              && (a.replicas.value < 1
                  || (Cached(w, s, a).Some? && a.nodes.Some?
                      && VisitAll(Pass(s.ready, s.sent, NotYet), a.nodes.value, Cached(w, s, a).value,
                                  index, a.accepted).outcome == NotYet
                      && IsEnough(w, a.replicas.value, |r.state.ready|)))
  {
  }

  /** The hosts are fetched anew after an error of the pass, and only then. */
  lemma PollDropsHostsIff(w: Wait, s: State, a: Answers, index: Hosts)
    requires a.replicas.Some? && a.replicas.value >= 1
    ensures var r := Poll(w, s, a, index);
            r.state.inventory == if r.outcome == UpdateFailed || r.outcome.NotInInventory? then None
                                 else Cached(w, s, a)
  {
  }

  // ---------------------------------------------------------------- how a pass counts

  /** A pass without error leaves no ready node uncounted. */
  lemma {:induction false} AllReadyCounted(start: Pass, nodes: seq<Node>, hosts: Hosts, index: Hosts,
                                           accepted: set<nat>, i: nat)
    requires VisitAll(start, nodes, hosts, index, accepted).outcome == NotYet
    requires i < |nodes| && nodes[i].ready
    ensures nodes[i].name in VisitAll(start, nodes, hosts, index, accepted).ready
  {
    var n := |nodes| - 1;
    var p := VisitAll(start, nodes[..n], hosts, index, accepted);
    assert p.ready <= VisitAll(start, nodes, hosts, index, accepted).ready;
    if i < n {
      AllReadyCounted(start, nodes[..n], hosts, index, accepted, i);
      assert nodes[..n][i] == nodes[i];
    }
  }

  /** A Joined accepted in a pass is for a ready node of the list and the host it matches, which is not
      installed yet. */
  lemma {:induction false} SentForNode(start: Pass, nodes: seq<Node>, hosts: Hosts, index: Hosts,
                                       accepted: set<nat>, k: nat) returns (i: nat)
    requires |start.sent| <= k < |VisitAll(start, nodes, hosts, index, accepted).sent|
    ensures var sent := VisitAll(start, nodes, hosts, index, accepted).sent[k];
            && i < |nodes| && nodes[i].ready && nodes[i].name == sent.node && i in accepted
            && var host := HostMatch(nodes[i], hosts, index);
               host.Some? && host.value.name == sent.host && host.value.status != Installed
  {
    if |nodes| == 0 {
      assert false;
    } else {
      var n := |nodes| - 1;
      var p := VisitAll(start, nodes[..n], hosts, index, accepted);
      if k < |p.sent| {
        i := SentForNode(start, nodes[..n], hosts, index, accepted, k);
      } else {
        i := n;
      }
    }
  }

  /** A node counted in a pass is matched with an installed host, or its Joined was accepted, or it is
      the one that is not in the inventory. */
  lemma {:induction false} CountedBecause(start: Pass, nodes: seq<Node>, hosts: Hosts, index: Hosts,
                                          accepted: set<nat>, name: string) returns (i: nat)
    requires start.outcome == NotYet
    requires name in VisitAll(start, nodes, hosts, index, accepted).ready && name !in start.ready
    ensures var p := VisitAll(start, nodes, hosts, index, accepted);
            && i < |nodes| && nodes[i].ready && nodes[i].name == name
            && match HostMatch(nodes[i], hosts, index) {
                 case None => p.outcome == NotInInventory(name)
                 case Some(host) => host.status == Installed || Sent(name, host.name) in p.sent
               }
  {
    var n := |nodes| - 1;
    var p := VisitAll(start, nodes[..n], hosts, index, accepted);
    if name in p.ready {
      i := CountedBecause(start, nodes[..n], hosts, index, accepted, name);
      assert nodes[..n][i] == nodes[i];
    } else {
      i := n;
    }
  }

  /** An update failed because the report on a ready node, matched with a host that is not installed, was
      not accepted; the node is not counted. */
  lemma {:induction false} FailedBecause(start: Pass, nodes: seq<Node>, hosts: Hosts, index: Hosts,
                                         accepted: set<nat>) returns (i: nat)
    requires start.outcome == NotYet
    requires VisitAll(start, nodes, hosts, index, accepted).outcome == UpdateFailed
    ensures i < |nodes| && nodes[i].ready && i !in accepted
    ensures nodes[i].name !in VisitAll(start, nodes, hosts, index, accepted).ready
    ensures var host := HostMatch(nodes[i], hosts, index);
            host.Some? && host.value.status != Installed
  {
    var n := |nodes| - 1;
    var p := VisitAll(start, nodes[..n], hosts, index, accepted);
    if p.outcome == UpdateFailed {
      i := FailedBecause(start, nodes[..n], hosts, index, accepted);
    } else {
      i := n;
    }
  }
}
