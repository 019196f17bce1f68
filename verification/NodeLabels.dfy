/**
 Setting the users' labels on the nodes, with the worker pool paused meanwhile (setNodesLabels and
 patchNodesLabels in src/assisted_installer_controller/assisted_installer_controller.go).
 */
module NodeLabels {
  import opened Wrappers
  import opened Inventory

  /** Node names are unique in a cluster. */
  ghost predicate DistinctNames(nodes: seq<Node>) {
    forall i, j | 0 <= i < j < |nodes| :: nodes[i].name != nodes[j].name
  }

  function Relabel(node: Node, labels: map<string, string>): Node {
    node.(labels := node.labels + labels)
  }

  /** The cluster: its nodes, whether the worker pool is paused, and for every accepted label patch
      whether the pool was paused when it was made. */
  class Cluster {
    var nodes: seq<Node>
    var paused: bool
    var patches: seq<bool>

    constructor (nodes: seq<Node>, paused: bool)
      ensures this.nodes == nodes && this.paused == paused && patches == []
    {
      this.nodes, this.paused, patches := nodes, paused, [];
    }

    method PatchMachineConfigPoolPaused(pause: bool, accept: bool) returns (ok: bool)
      modifies this`paused
      ensures ok == accept && paused == if ok then pause else old(paused)
    {
      ok := accept;
      if ok {
        paused := pause;
      }
    }

    /** A merge patch of the labels of the node called like the one at position `i`. */
    method PatchNodeLabels(ghost i: nat, name: string, labels: map<string, string>, accept: bool)
      returns (ok: bool)
      requires i < |nodes| && nodes[i].name == name && DistinctNames(nodes)
      modifies this`nodes, this`patches
      ensures ok == accept
      ensures nodes == if ok then old(nodes)[i := Relabel(old(nodes)[i], labels)] else old(nodes)
      ensures patches == if ok then old(patches) + [paused] else old(patches)
    {
      ok := accept;
      if ok {
        var current := nodes;
        nodes := seq(|current|, j requires 0 <= j < |current| =>
          if current[j].name == name then Relabel(current[j], labels) else current[j]);
        assert nodes == current[i := Relabel(current[i], labels)];
        patches := patches + [paused];
      }
    }
  }

  // ---------------------------------------------------------------- what the pass over nodes counts

  /** For each node the labelled host it stands for, if it is ready and matches one. */
  function Targets(nodes: seq<Node>, hosts: Hosts, index: Hosts): seq<Option<Host>> {
    seq(|nodes|, i requires 0 <= i < |nodes| =>
      if nodes[i].ready then HostMatch(nodes[i], hosts, index) else None)
  }

  predicate Carries(node: Node, host: Host) {
    forall k <- host.labels.decoded.Keys ::
      k in node.labels && node.labels[k] == host.labels.decoded[k]
  }

  predicate HasLabels(nodes: seq<Node>, targets: seq<Option<Host>>, i: nat) {
    i < |nodes| && i < |targets| && targets[i].Some? && Carries(nodes[i], targets[i].value)
  }

  /** The node at `i` counts: it has its host's labels, or the patch that sets them is accepted. */
  predicate Counts(nodes: seq<Node>, targets: seq<Option<Host>>, patched: set<nat>, i: nat) {
    HasLabels(nodes, targets, i) || (i < |targets| && targets[i].Some? && i in patched)
  }

  function Counted(nodes: seq<Node>, targets: seq<Option<Host>>, patched: set<nat>, n: nat): set<nat> {
    set i: nat | i < n && Counts(nodes, targets, patched, i)
  }

  /** The nodes after the pass over the first `n` of them. */
  function Relabelled(nodes: seq<Node>, targets: seq<Option<Host>>, patched: set<nat>, n: nat)
    : seq<Node>
  {
    seq(|nodes|, i requires 0 <= i < |nodes| =>
      if i < n && Counts(nodes, targets, patched, i) && !HasLabels(nodes, targets, i)
      then Relabel(nodes[i], targets[i].value.labels.decoded)
      else nodes[i])
  }

  method PatchNodesLabels(cluster: Cluster, hosts: Hosts, listed: bool, patched: set<nat>)
    returns (patchedNumber: nat, ghost index: Hosts)
    requires DistinctNames(cluster.nodes)
    modifies cluster`nodes, cluster`patches
    ensures IsIpIndex(index, hosts)
    ensures var nodes := old(cluster.nodes);
            var targets := Targets(nodes, hosts, index);
            if !listed then patchedNumber == 0 && cluster.nodes == nodes
            else
              && patchedNumber == |Counted(nodes, targets, patched, |nodes|)|
              && cluster.nodes == Relabelled(nodes, targets, patched, |nodes|)
    ensures old(cluster.patches) <= cluster.patches
    ensures forall k | |old(cluster.patches)| <= k < |cluster.patches| ::
              cluster.patches[k] == cluster.paused
  {
    patchedNumber := 0;
    var known := BuildHostsMapIPAddressBased(hosts);
    index := known;
    if !listed {
      return;
    }
    var nodes := cluster.nodes;
    ghost var targets := Targets(nodes, hosts, known);
    assert Counted(nodes, targets, patched, 0) == {};
    for i := 0 to |nodes|
      invariant patchedNumber == |Counted(nodes, targets, patched, i)|
      invariant cluster.nodes == Relabelled(nodes, targets, patched, i)
      invariant old(cluster.patches) <= cluster.patches
      invariant forall k | |old(cluster.patches)| <= k < |cluster.patches| ::
                  cluster.patches[k] == cluster.paused
    {
      CountedStep(nodes, targets, patched, i);
      RelabelledStep(nodes, targets, patched, i);
      if !nodes[i].ready {
        continue;
      }
      var host := HostMatchByNameOrIPAddress(nodes[i], hosts, known);
      if host.None? {
        continue;
      }
      if Carries(nodes[i], host.value) {
        patchedNumber := patchedNumber + 1;
        continue;
      }
      var ok := cluster.PatchNodeLabels(i, nodes[i].name, host.value.labels.decoded, i in patched);
      if ok {
        patchedNumber := patchedNumber + 1;
      }
    }
  }

  /** A node counts exactly if it is ready, matches a labelled host, and carries every label of it or is
      patched. */
  lemma CountsIff(nodes: seq<Node>, hosts: Hosts, index: Hosts, patched: set<nat>, i: nat)
    requires i < |nodes|
    ensures var host := HostMatch(nodes[i], hosts, index);
            i in Counted(nodes, Targets(nodes, hosts, index), patched, |nodes|) <==>
              && nodes[i].ready && host.Some?
              && (i in patched
                  || forall k <- host.value.labels.decoded ::
                       k in nodes[i].labels && nodes[i].labels[k] == host.value.labels.decoded[k])
  {
  }

  /** A pass changes nothing of a node but its labels: a node that is patched gets the decoded labels of its
      host and keeps the others, all other nodes keep theirs. */
  lemma RelabelledNode(nodes: seq<Node>, hosts: Hosts, index: Hosts, patched: set<nat>, i: nat)
    requires i < |nodes|
    ensures var host := HostMatch(nodes[i], hosts, index);
            var after := Relabelled(nodes, Targets(nodes, hosts, index), patched, |nodes|)[i];
            && after.name == nodes[i].name && after.ready == nodes[i].ready
            && after.addresses == nodes[i].addresses
            && (if nodes[i].ready && host.Some? && i in patched then
                  forall k ::
                    (k in after.labels <==> k in nodes[i].labels || k in host.value.labels.decoded)
                    && (k in host.value.labels.decoded ==>
                          after.labels[k] == host.value.labels.decoded[k])
                    && (k in nodes[i].labels && k !in host.value.labels.decoded ==>
                          after.labels[k] == nodes[i].labels[k])
                else after.labels == nodes[i].labels)
  {
  }

  lemma CountedStep(nodes: seq<Node>, targets: seq<Option<Host>>, patched: set<nat>, i: nat)
    ensures |Counted(nodes, targets, patched, i + 1)|
         == |Counted(nodes, targets, patched, i)| + if Counts(nodes, targets, patched, i) then 1 else 0
  {
    assert Counted(nodes, targets, patched, i + 1)
        == Counted(nodes, targets, patched, i)
           + if Counts(nodes, targets, patched, i) then {i} else {};
  }

  lemma RelabelledStep(nodes: seq<Node>, targets: seq<Option<Host>>, patched: set<nat>, i: nat)
    requires i < |nodes|
    ensures Relabelled(nodes, targets, patched, i)[i] == nodes[i]
    ensures Relabelled(nodes, targets, patched, i + 1)
         == if Counts(nodes, targets, patched, i) && !HasLabels(nodes, targets, i)
            then Relabelled(nodes, targets, patched, i)[i :=
                   Relabel(nodes[i], targets[i].value.labels.decoded)]
            else Relabelled(nodes, targets, patched, i)
    ensures DistinctNames(nodes) ==> DistinctNames(Relabelled(nodes, targets, patched, i))
  {
  }

  // ---------------------------------------------------------------- when the count is enough

  /** A node that counts stands for the host. */
  ghost predicate Covered(nodes: seq<Node>, targets: seq<Option<Host>>, patched: set<nat>, name: string)
  {
    exists i: nat :: Counts(nodes, targets, patched, i) && targets[i].value.name == name
  }

  /** The count reaches the number of labelled hosts only if every one of them is covered. */
  ghost predicate CountIsEnough(nodes: seq<Node>, targets: seq<Option<Host>>, names: set<string>,
                                patched: set<nat>)
  {
    |Counted(nodes, targets, patched, |nodes|)| >= |names| ==>
      forall name <- names :: Covered(nodes, targets, patched, name)
  }

  predicate StandsForOther(targets: seq<Option<Host>>, name: string, i: nat) {
    i < |targets| && targets[i].Some? && targets[i].value.name != name
  }

  /** The ready nodes that stand for other labelled hosts. */
  function Others(targets: seq<Option<Host>>, name: string): set<nat> {
    set i: nat | i < |targets| && StandsForOther(targets, name, i)
  }

  ghost predicate HasLabelledNode(nodes: seq<Node>, targets: seq<Option<Host>>, name: string) {
    exists i: nat :: HasLabels(nodes, targets, i) && targets[i].value.name == name
  }

  /** No host without labels yet could be outvoted by the nodes of the others. */
  ghost predicate NoSurplus(nodes: seq<Node>, targets: seq<Option<Host>>, names: set<string>) {
    forall name <- names ::
      HasLabelledNode(nodes, targets, name) || |Others(targets, name)| < |names|
  }

  /**
   Comparing two counts decides whether every labelled host has been labelled, whichever patches
   fail, exactly when there is no surplus.
   */
  lemma CountIsEnoughIffNoSurplus(nodes: seq<Node>, targets: seq<Option<Host>>, names: set<string>)
    requires |targets| == |nodes|
    ensures (forall patched :: CountIsEnough(nodes, targets, names, patched))
       <==> NoSurplus(nodes, targets, names)
  {
    if NoSurplus(nodes, targets, names) {
      forall patched
        ensures CountIsEnough(nodes, targets, names, patched)
      {
        CountCovers(nodes, targets, names, patched);
      }
    } else {
      var name :| name in names && !HasLabelledNode(nodes, targets, name)
                  && |Others(targets, name)| >= |names|;
      var patched := Others(targets, name);
      assert patched <= Counted(nodes, targets, patched, |nodes|);
      SubsetSize(patched, Counted(nodes, targets, patched, |nodes|));
      assert !Covered(nodes, targets, patched, name);
      assert !CountIsEnough(nodes, targets, names, patched);
    }
  }

  lemma CountCovers(nodes: seq<Node>, targets: seq<Option<Host>>, names: set<string>,
                    patched: set<nat>)
    requires |targets| == |nodes| && NoSurplus(nodes, targets, names)
    ensures CountIsEnough(nodes, targets, names, patched)
  {
    var counted := Counted(nodes, targets, patched, |nodes|);
    if |counted| >= |names| {
      forall name | name in names
        ensures Covered(nodes, targets, patched, name)
      {
        if !Covered(nodes, targets, patched, name) {
          forall i | i in counted
            ensures i in Others(targets, name)
          {
            assert StandsForOther(targets, name, i);
          }
          SubsetSize(counted, Others(targets, name));
          forall i: nat | HasLabels(nodes, targets, i)
            ensures targets[i].value.name != name
          {
            assert Counts(nodes, targets, patched, i);
          }
        }
      }
    }
  }

  /** Ready nodes match labelled hosts one-to-one. */
  ghost predicate OneToOne(targets: seq<Option<Host>>) {
    forall i, j | 0 <= i < j < |targets| ::
      targets[i].Some? && targets[j].Some? ==> targets[i].value.name != targets[j].value.name
  }

  lemma {:induction false} NoMoreThanNames(targets: seq<Option<Host>>, nodes: set<nat>,
                                           names: set<string>)
    requires OneToOne(targets)
    requires forall i <- nodes :: i < |targets| && targets[i].Some? && targets[i].value.name in names
    ensures |nodes| <= |names|
    decreases nodes
  {
    if nodes != {} {
      var i :| i in nodes;
      NoMoreThanNames(targets, nodes - {i}, names - {targets[i].value.name});
    }
  }

  lemma TargetsAreHosts(nodes: seq<Node>, hosts: Hosts, index: Hosts)
    requires Keyed(hosts) && IsIpIndex(index, hosts)
    ensures forall i, t | 0 <= i < |nodes| && t == Targets(nodes, hosts, index)[i] && t.Some? ::
              t.value.name in hosts.Keys
  {
    forall i | 0 <= i < |nodes| && Targets(nodes, hosts, index)[i].Some?
      ensures Targets(nodes, hosts, index)[i].value.name in hosts.Keys
    {
      MatchIsKnown(nodes[i], hosts, index);
    }
  }

  /** A one-to-one matching leaves no surplus: the nodes of the other hosts are one too few. */
  lemma OneToOneHasNoSurplus(nodes: seq<Node>, hosts: Hosts, index: Hosts)
    requires Keyed(hosts) && IsIpIndex(index, hosts)
    requires OneToOne(Targets(nodes, hosts, index))
    ensures NoSurplus(nodes, Targets(nodes, hosts, index), hosts.Keys)
  {
    var targets := Targets(nodes, hosts, index);
    TargetsAreHosts(nodes, hosts, index);
    forall name | name in hosts.Keys
      ensures |Others(targets, name)| < |hosts.Keys|
    {
      NoMoreThanNames(targets, Others(targets, name), hosts.Keys - {name});
    }
  }

  /**
   Surplus does occur. Two ready nodes carry the two addresses of one labelled host, a second labelled
   host has no node: when both patches are accepted the count reaches two and the second is forgotten.
   */
  lemma SurplusOccurs() returns (nodes: seq<Node>, hosts: Hosts, index: Hosts, patched: set<nat>)
    ensures Keyed(hosts) && IsIpIndex(index, hosts) && DistinctNames(nodes) && WithLabels(hosts) == hosts
    ensures !NoSurplus(nodes, Targets(nodes, hosts, index), hosts.Keys)
    ensures !CountIsEnough(nodes, Targets(nodes, hosts, index), hosts.Keys, patched)
  {
    var labels := Labels("zone", map["zone" := "a"]);
    var twice := Host("first", Worker, OtherStatus("installing"), Joined, ["10.0.0.1", "10.0.0.2"],
                      labels, "");
    var never := twice.(name := "other", ips := []);
    hosts := map["first" := twice, "other" := never];
    index := map["10.0.0.1" := twice, "10.0.0.2" := twice];
    nodes := [Node("n1", true, [Address(true, "10.0.0.1")], map[]),
              Node("n2", true, [Address(true, "10.0.0.2")], map[])];
    patched := {0, 1};
    assert |ToLower("n1")| == |ToLower("n2")| == 2 && |"first"| == |"other"| == 5;
    MatchByOnlyAddress(nodes[0], hosts, index, "10.0.0.1");
    MatchByOnlyAddress(nodes[1], hosts, index, "10.0.0.2");
    BothStandForOther(nodes, Targets(nodes, hosts, index), hosts.Keys, "other");
    TwoAddressIndex(hosts, "first", "10.0.0.1", "10.0.0.2");
  }

  lemma BothStandForOther(nodes: seq<Node>, targets: seq<Option<Host>>, names: set<string>, name: string)
    requires |nodes| == |targets| == 2 && |names| <= 2 && name in names
    requires StandsForOther(targets, name, 0) && StandsForOther(targets, name, 1)
    ensures !NoSurplus(nodes, targets, names)
    ensures !CountIsEnough(nodes, targets, names, {0, 1})
  {
    assert Others(targets, name) == {0, 1};
    assert Counted(nodes, targets, {0, 1}, |nodes|) == {0, 1};
    assert !Covered(nodes, targets, {0, 1}, name);
  }

  // ---------------------------------------------------------------- one call

  datatype Answers = Answers(fetched: bool, paused: bool, listed: bool, patched: set<nat>,
                             unpaused: bool)

  /** The hosts of the service whose users asked for labels. */
  function WithLabels(service: Hosts): Hosts {
    map n | n in service && service[n].status !in [Disabled, Error] && service[n].labels.text != ""
      :: service[n]
  }

  method GetAIHostsWithLabels(service: Hosts) returns (labelled: Hosts)
    ensures labelled == WithLabels(service)
    ensures forall n :: n in labelled <==>
              n in service && service[n].status != Disabled && service[n].status != Error
              && service[n].labels.text != ""
  {
    var hosts := Fetch(service, [Disabled, Error]);
    labelled := map[];
    var todo := hosts.Keys;
    while todo != {}
      invariant todo <= hosts.Keys
      invariant labelled == map n | n in hosts.Keys - todo && hosts[n].labels.text != "" :: hosts[n]
      decreases todo
    {
      var n :| n in todo;
      if hosts[n].labels.text != "" {
        labelled := labelled[n := hosts[n]];
      }
      todo := todo - {n};
    }
  }

  /** A worker that changes pools is about to be labelled. */
  ghost predicate NeedsPause(labelled: Hosts) {
    exists n :: n in labelled && labelled[n].role == Worker && labelled[n].pool != ""
  }

  method ShouldPauseWorkerMCP(labelled: Hosts) returns (pause: bool)
    ensures pause <==> NeedsPause(labelled)
    ensures pause <==> exists n :: n in labelled && labelled[n].role == Worker && labelled[n].pool != ""
  {
    var todo := labelled.Keys;
    while todo != {}
      invariant todo <= labelled.Keys
      invariant forall n <- labelled.Keys - todo :: !(labelled[n].role == Worker && labelled[n].pool != "")
      decreases todo
    {
      var n :| n in todo;
      if labelled[n].role == Worker && labelled[n].pool != "" {
        return true;
      }
      todo := todo - {n};
    }
    pause := false;
  }

  /** A ready node of the cluster stands for the host and carries all its labels. */
  ghost predicate Labelled(nodes: seq<Node>, hosts: Hosts, index: Hosts, name: string) {
    exists i :: 0 <= i < |nodes| && nodes[i].ready
      && var host := HostMatch(nodes[i], hosts, index);
         host.Some? && host.value.name == name
         && forall k <- host.value.labels.decoded ::
              k in nodes[i].labels && nodes[i].labels[k] == host.value.labels.decoded[k]
  }

  /** Covered hosts are labelled once the pass is over. */
  lemma CoveredIsLabelled(nodes: seq<Node>, hosts: Hosts, index: Hosts, patched: set<nat>, name: string)
    requires var targets := Targets(nodes, hosts, index); Covered(nodes, targets, patched, name)
    ensures var targets := Targets(nodes, hosts, index);
            Labelled(Relabelled(nodes, targets, patched, |nodes|), hosts, index, name)
  {
    var targets := Targets(nodes, hosts, index);
    var i: nat :| Counts(nodes, targets, patched, i) && targets[i].value.name == name;
    var after := Relabelled(nodes, targets, patched, |nodes|);
    assert HostMatch(after[i], hosts, index) == HostMatch(nodes[i], hosts, index);
    assert Carries(after[i], targets[i].value);
  }

  /** The call goes on to patch the nodes. */
  ghost predicate Patches(labelled: Hosts, a: Answers) {
    a.fetched && labelled != map[] && (NeedsPause(labelled) ==> a.paused)
  }

  /**
   One call. When it exits with labelled hosts around and no surplus, each of them has a ready node
   with its labels. While a pause is needed labels are only patched in a paused pool, and an exit
   leaves the pool running; without that need the pool is left alone.
   */
  method SetNodesLabels(cluster: Cluster, service: Hosts, a: Answers)
    returns (exit: bool, ghost index: Hosts)
    requires DistinctNames(cluster.nodes)
    modifies cluster
    ensures var hosts, nodes := WithLabels(service), old(cluster.nodes);
            var targets := Targets(nodes, hosts, index);
            && (Patches(hosts, a) ==> IsIpIndex(index, hosts))
            && (exit <==>
                  && a.fetched
                  && (hosts != map[] ==>
                        && (NeedsPause(hosts) ==> a.paused && a.unpaused)
                        && a.listed && |hosts| <= |Counted(nodes, targets, a.patched, |nodes|)|))
            && cluster.nodes == (if Patches(hosts, a) && a.listed
                                 then Relabelled(nodes, targets, a.patched, |nodes|) else nodes)
            && (exit && NoSurplus(nodes, targets, hosts.Keys) ==>
                  forall n <- hosts.Keys :: Labelled(cluster.nodes, hosts, index, n))
    ensures old(cluster.patches) <= cluster.patches
    ensures NeedsPause(WithLabels(service)) ==>
              && (forall k | |old(cluster.patches)| <= k < |cluster.patches| :: cluster.patches[k])
              && (exit ==> !cluster.paused)
    ensures !a.fetched || WithLabels(service) == map[] || (NeedsPause(WithLabels(service)) && !a.paused) ==>
              unchanged(cluster)
    ensures cluster.paused == if Patches(WithLabels(service), a) && NeedsPause(WithLabels(service))
                              then !exit else old(cluster.paused)
  {
    index := map[];
    if !a.fetched {
      return false, index;
    }
    var hosts := GetAIHostsWithLabels(service);
    if |hosts| == 0 {
      return true, index;
    }
    var pause := ShouldPauseWorkerMCP(hosts);
    if pause {
      var ok := cluster.PatchMachineConfigPoolPaused(true, a.paused);
      if !ok {
        return false, index;
      }
    }
    var patchedNumber;
    patchedNumber, index := PatchNodesLabels(cluster, hosts, a.listed, a.patched);
    if |hosts| > patchedNumber {
      return false, index;
    }
    EnoughIsLabelled(old(cluster.nodes), hosts, index, a.patched);
    if pause {
      var ok := cluster.PatchMachineConfigPoolPaused(false, a.unpaused);
      if !ok {
        return false, index;
      }
    }
    exit := true;
  }

  lemma EnoughIsLabelled(nodes: seq<Node>, hosts: Hosts, index: Hosts, patched: set<nat>)
    ensures var targets := Targets(nodes, hosts, index);
            NoSurplus(nodes, targets, hosts.Keys)
            && |Counted(nodes, targets, patched, |nodes|)| >= |hosts| ==>
              forall n <- hosts.Keys ::
                Labelled(Relabelled(nodes, targets, patched, |nodes|), hosts, index, n)
  {
    var targets := Targets(nodes, hosts, index);
    assert |hosts| == |hosts.Keys|;
    if NoSurplus(nodes, targets, hosts.Keys)
       && |Counted(nodes, targets, patched, |nodes|)| >= |hosts| {
      CountCovers(nodes, targets, hosts.Keys, patched);
      forall n | n in hosts.Keys
        ensures Labelled(Relabelled(nodes, targets, patched, |nodes|), hosts, index, n)
      {
        CoveredIsLabelled(nodes, hosts, index, patched, n);
      }
    }
  }
}
