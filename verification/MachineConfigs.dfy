/**
 The bootstrap's last wait before it reboots, for the masters' MachineConfig annotations to be
 consistent (waitForMCAnnotationsConsistent in src/installer/installer.go).
 */
module MachineConfigs {
  import opened Wrappers

  /** A master with its annotations; an annotation that is missing reads as the empty string. */
  datatype Node = Node(current: string, desired: string)

  /** What a poll meets: the masters, if they can be listed, and the positions of those for which the
      current and the desired MachineConfig can be fetched. */
  datatype Answers = Answers(nodes: Option<seq<Node>>, currentFound: set<nat>, desiredFound: set<nat>)

  /** Both configs of the node are named and exist. */
  predicate Complete(a: Answers, i: nat)
    requires a.nodes.Some? && i < |a.nodes.value|
  {
    var node := a.nodes.value[i];
    node.current != "" && node.desired != "" && i in a.currentFound && i in a.desiredFound
  }

  /** There are masters, their configs exist, and they are all to have the same one. */
  ghost predicate Consistent(a: Answers) {
    && a.nodes.Some? && a.nodes.value != []
    && (forall i | 0 <= i < |a.nodes.value| :: Complete(a, i))
    && (forall i, j | 0 <= i < j < |a.nodes.value| ::
          a.nodes.value[i].desired == a.nodes.value[j].desired)
  }

  method AnnotationsConsistent(a: Answers) returns (consistent: bool)
    ensures consistent <==> Consistent(a)
    ensures consistent <==>
              && a.nodes.Some? && a.nodes.value != []
              && forall i | 0 <= i < |a.nodes.value| ::
                   && a.nodes.value[i].current != "" && i in a.currentFound
                   && a.nodes.value[i].desired != "" && i in a.desiredFound
                   && a.nodes.value[i].desired == a.nodes.value[0].desired
  {
    if a.nodes.None? {
      return false;
    }
    var nodes := a.nodes.value;
    if |nodes| == 0 {
      return false;
    }
    var expected := "";
    for i := 0 to |nodes|
      invariant forall j | 0 <= j < i :: Complete(a, j) && nodes[j].desired == expected
      invariant i == 0 <==> expected == ""
    {
      var node := nodes[i];
      assert Complete(a, i) ==> node.current != "" && node.desired != "";
      if node.current == "" || node.desired == "" {
        return false;
      }
      if i !in a.currentFound {
        return false;
      }
      if i !in a.desiredFound {
        return false;
      }
      if expected == "" {
        expected := node.desired;
      }
      if node.desired != expected {
        assert nodes[0].desired != nodes[i].desired;
        return false;
      }
    }
    consistent := true;
  }

  /** `polls` are the polls until the context is done. The wait ends well at the first poll that finds
      the annotations consistent. */
  method WaitForMCAnnotationsConsistent(polls: seq<Answers>) returns (ok: bool, calls: nat)
    requires |polls| > 0
    ensures 1 <= calls <= |polls|
    ensures forall k | 0 <= k < calls - 1 :: !Consistent(polls[k])
    ensures ok <==> Consistent(polls[calls - 1])
    ensures !ok ==> calls == |polls|
  {
    ok, calls := false, 0;
    while calls < |polls|
      invariant calls <= |polls|
      invariant forall k | 0 <= k < calls :: !Consistent(polls[k])
      invariant !ok
    {
      calls := calls + 1;
      ok := AnnotationsConsistent(polls[calls - 1]);
      if ok {
        return;
      }
    }
  }
}
