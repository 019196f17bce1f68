/**
 The course of an installation (InstallNode, finalize, RunInstaller and what they call in
 src/installer/installer.go), for every outcome of the host commands and service calls.

 The trace holds the stage reports that are attempted for this host and the milestones that are
 reached. Whatever fails, the trace follows a plan that depends on the kind of node only.
 */
module InstallNode {
  datatype Stage =
    | StartingInstallation | Installing | WaitingForBootkube | WritingImageToDisk
    | CopyingRegistryDataToDisk | WaitingForControlPlane | WaitingForController | Rebooting | Failed

  datatype Event =
    | Report(stage: Stage)
    | ImageWritten | RegistryCopied
    | ControlPlaneReady | WorkersReady | MachineConfigsConsistent
    | Finalizing | HandedOver

  datatype Role = Bootstrap | Master | Worker | OtherRole(text: string)

  /** `existingRoot` when a CoreOS image is given, to be installed to the root the node booted from. */
  datatype Config = Config(role: Role, controlPlaneCount: int, existingRoot: bool, dryRun: bool,
                           skipCleanup: bool)

  /** How the host commands and service calls turn out. `written` are the tries, of three, that
      write the image; `imageProgress` counts the progress reports on the way, try by try,
      and `registryProgress` those of the registry data. */
  datatype Outcomes = Outcomes(
    cleaned: bool, dirMade: bool, bootstrapStarted: bool, ignitionFound: bool, ignitionMerged: bool,
    ignitionDownloaded: bool, written: set<nat>, imageProgress: seq<nat>, registryOnMedia: bool,
    registryProgress: nat, registryCopied: bool, hostFileReloaded: bool, clientBuilt: set<nat>,
    clusterFetched: bool, etcdReady: bool, workersReady: bool, configsConsistent: bool,
    unitsListed: bool, ironic: bool, agentStopped: bool, rebooted: bool, markerTouched: bool)

  // ---------------------------------------------------------------- the plan

  predicate SingleNode(c: Config) {
    c.controlPlaneCount == 1
  }

  predicate IsBootstrap(c: Config) {
    c.role == Bootstrap && !SingleNode(c)
  }

  /** A bootstrap and a single node become masters. */
  function FinalRole(c: Config): Role {
    if c.role == Bootstrap || SingleNode(c) then Master else c.role
  }

  predicate CopiesRegistry(c: Config, registryOnMedia: bool) {
    !c.existingRoot && registryOnMedia && FinalRole(c) == Master
  }

  /** What a node goes through when nothing fails, in seven phases. */
  function Phase(c: Config, registryOnMedia: bool, n: nat): seq<Event> {
    match n
    case 0 => [Report(StartingInstallation), Report(Installing)]
    case 1 => if SingleNode(c) then [Report(WaitingForBootkube)] else []
    case 2 => [Report(WritingImageToDisk), ImageWritten]
    case 3 => if FinalRole(c) == Worker then [Report(WaitingForControlPlane)] else []
    case 4 =>
      if CopiesRegistry(c, registryOnMedia) then [Report(CopyingRegistryDataToDisk), RegistryCopied]
      else []
    case 5 =>
      if IsBootstrap(c) then
        [Report(WaitingForControlPlane), Report(WaitingForBootkube), Report(WaitingForController),
         ControlPlaneReady, WorkersReady, MachineConfigsConsistent]
      else []
    case 6 => [Finalizing, Report(Rebooting), HandedOver]
    case _ => []
  }

  function PlanTo(c: Config, registryOnMedia: bool, n: nat): seq<Event> {
    if n == 0 then [] else PlanTo(c, registryOnMedia, n - 1) + Phase(c, registryOnMedia, n - 1)
  }

  function Plan(c: Config, registryOnMedia: bool): seq<Event> {
    PlanTo(c, registryOnMedia, 7)
  }

  /** The trace without immediate repetitions. */
  function Collapse(trace: seq<Event>): seq<Event> {
    if |trace| == 0 then []
    else Add(Collapse(trace[..|trace| - 1]), trace[|trace| - 1])
  }

  function Add(path: seq<Event>, e: Event): seq<Event> {
    if |path| > 0 && path[|path| - 1] == e then path else path + [e]
  }

  // ---------------------------------------------------------------- the order of the plan

  /** The place of an event, phase by phase: bootkube is waited for before the image is written on a
      single node, and after it on a bootstrap. */
  function Place(c: Config, e: Event): nat {
    match e
    case Report(StartingInstallation) => 1
    case Report(Installing) => 2
    case Report(WaitingForBootkube) => if SingleNode(c) then 11 else 52
    case Report(WritingImageToDisk) => 21
    case ImageWritten => 22
    case Report(WaitingForControlPlane) => if FinalRole(c) == Worker then 31 else 51
    case Report(CopyingRegistryDataToDisk) => 41
    case RegistryCopied => 42
    case Report(WaitingForController) => 53
    case ControlPlaneReady => 54
    case WorkersReady => 55
    case MachineConfigsConsistent => 56
    case Finalizing => 61
    case Report(Rebooting) => 62
    case HandedOver => 63
    case Report(Failed) => 70
  }

  /** Each event comes after the ones before it, all of them between two places. */
  ghost predicate Ordered(c: Config, p: seq<Event>, low: int, high: int) {
    && (forall i | 0 <= i < |p| :: low < Place(c, p[i]) < high)
    && (forall i, j | 0 <= i < j < |p| :: Place(c, p[i]) < Place(c, p[j]))
  }

  lemma OrderedConcat(c: Config, p: seq<Event>, q: seq<Event>, low: int, middle: int, high: int)
    requires Ordered(c, p, low, middle) && Ordered(c, q, middle - 1, high)
    requires low < middle <= high
    ensures Ordered(c, p + q, low, high)
  {
  }

  lemma PhaseIsOrdered(c: Config, r: bool, n: nat)
    requires n < 7
    ensures Ordered(c, Phase(c, r, n), 10 * n - 1, 10 * n + 10)
  {
  }

  lemma {:induction false} PlanIsOrdered(c: Config, r: bool, n: nat)
    requires n <= 7
    ensures Ordered(c, PlanTo(c, r, n), -1, 10 * n)
  {
    if n > 0 {
      PlanIsOrdered(c, r, n - 1);
      PhaseIsOrdered(c, r, n - 1);
      OrderedConcat(c, PlanTo(c, r, n - 1), Phase(c, r, n - 1), -1, 10 * (n - 1), 10 * n);
    }
  }

  ghost predicate Distinct(p: seq<Event>) {
    forall i, j | 0 <= i < j < |p| :: p[i] != p[j]
  }

  /** No event of the plan occurs twice. */
  lemma PlanIsDistinct(c: Config, r: bool, n: nat)
    requires n < 7
    ensures Distinct(PlanTo(c, r, n) + Phase(c, r, n))
  {
    PlanIsOrdered(c, r, n + 1);
    OrderedIsDistinct(c, PlanTo(c, r, n + 1), -1, 10 * (n + 1));
  }

  lemma OrderedIsDistinct(c: Config, p: seq<Event>, low: int, high: int)
    requires Ordered(c, p, low, high)
    ensures Distinct(p)
  {
  }

  lemma {:induction false} PlanToGrows(c: Config, r: bool, m: nat, n: nat)
    requires m <= n
    ensures PlanTo(c, r, m) <= PlanTo(c, r, n)
  {
    if m < n {
      PlanToGrows(c, r, m, n - 1);
    }
  }

  /** Whatever part of a phase is reached is part of the plan, and all of it only at the very end. */
  lemma PartOfPlanTo(c: Config, r: bool, n: nat, k: nat, last: nat)
    requires n <= last == 6 && k <= |Phase(c, r, n)|
    ensures var p := PlanTo(c, r, n) + Phase(c, r, n)[..k];
            && p <= PlanTo(c, r, last + 1)
            && (n < last || k < |Phase(c, r, n)| ==> |p| < |PlanTo(c, r, last + 1)|)
  {
    CutPhase(PlanTo(c, r, n), Phase(c, r, n), k);
    PlanToGrows(c, r, n + 1, last + 1);
    if n < last {
      PlanToGrows(c, r, n + 1, last);
    }
  }

  lemma CutPhase(p: seq<Event>, q: seq<Event>, k: nat)
    requires k <= |q|
    ensures p + q[..k] <= p + q
  {
  }

  // ---------------------------------------------------------------- the installation

  class Installer {
    const config: Config
    var role: Role
    var trace: seq<Event>

    constructor (config: Config)
      ensures this.config == config && role == config.role && trace == []
    {
      this.config, role, trace := config, config.role, [];
    }

    /** After what was there before, the trace is at event `k` of a phase of new events. */
    ghost predicate At(before: seq<Event>, phase: seq<Event>, k: nat)
      reads this
    {
      && k <= |phase| && Distinct(before + phase)
      && Collapse(trace) == before + phase[..k]
    }

    /** The next event of the phase. */
    method Emit(e: Event, ghost before: seq<Event>, ghost phase: seq<Event>, ghost k: nat)
      requires At(before, phase, k) && k < |phase| && e == phase[k]
      modifies this`trace
      ensures At(before, phase, k + 1)
    {
      trace := trace + [e];
      assert trace[..|trace| - 1] == old(trace);
      NextIsNew(before, phase, k);
    }

    /** Further reports of the stage that was reported last. */
    method EmitAgain(stage: Stage, count: nat, ghost before: seq<Event>, ghost phase: seq<Event>,
                     ghost k: nat)
      requires At(before, phase, k) && k > 0 && phase[k - 1] == Report(stage)
      modifies this`trace
      ensures At(before, phase, k)
    {
      for i := 0 to count
        invariant At(before, phase, k)
      {
        ghost var was := trace;
        trace := trace + [Report(stage)];
        assert trace[..|trace| - 1] == was;
      }
    }

    method CleanupInstallDevice(o: Outcomes, ghost phase: seq<Event>)
      requires At([], phase, 1) && phase[0] == Report(StartingInstallation)
      modifies this`trace
      ensures At([], phase, 1)
    {
      if !(config.dryRun || config.skipCleanup || config.existingRoot) && !o.cleaned {
        EmitAgain(StartingInstallation, 1, [], phase, 1);
      }
    }

    /** Up to the report that the installation is under way. */
    method Open(o: Outcomes, ghost phase: seq<Event>) returns (ok: bool, ghost k: nat)
      requires trace == [] && role == config.role
      requires phase == Phase(config, o.registryOnMedia, 0)
      modifies this
      ensures At([], phase, k) && (ok <==> k == |phase|)
      ensures ok <==> o.dirMade && (IsBootstrap(config) ==> o.bootstrapStarted)
      ensures ok ==> role == if IsBootstrap(config) then Master else config.role
    {
      Emit(Report(StartingInstallation), [], phase, 0);
      CleanupInstallDevice(o, phase);
      if !o.dirMade {
        return false, 1;
      }
      if role == Bootstrap && config.controlPlaneCount != 1 {
        if !o.bootstrapStarted {
          return false, 1;
        }
        role := Master;
      }
      Emit(Report(Installing), [], phase, 1);
      ok, k := true, 2;
    }

    method GetIgnition(o: Outcomes, ghost before: seq<Event>, ghost phase: seq<Event>)
      returns (ok: bool, ghost k: nat)
      requires At(before, phase, 0) && phase == Phase(config, o.registryOnMedia, 1)
      requires role == if IsBootstrap(config) then Master else config.role
      modifies this
      ensures At(before, phase, k)
      ensures ok ==> k == |phase| && role == FinalRole(config)
      ensures ok <==> IgnitionGoesWell(config, o)
    {
      k := 0;
      if config.controlPlaneCount == 1 {
        if !o.bootstrapStarted {
          return false, k;
        }
        Emit(Report(WaitingForBootkube), before, phase, 0);
        k := 1;
        if !o.ignitionFound {
          return false, k;
        }
        role := Master;
        if !config.dryRun && !o.ignitionMerged {
          return false, k;
        }
      } else if !o.ignitionDownloaded {
        return false, k;
      }
      ok := true;
    }

    method WriteImageToDisk(o: Outcomes, ghost before: seq<Event>, ghost phase: seq<Event>)
      returns (ok: bool, ghost k: nat)
      requires At(before, phase, 0) && phase == Phase(config, o.registryOnMedia, 2)
      modifies this`trace
      ensures At(before, phase, k) && (ok <==> k == |phase|)
      ensures ok <==> exists t :: 0 <= t < 3 && t in o.written
    {
      Emit(Report(WritingImageToDisk), before, phase, 0);
      for t := 0 to 3
        invariant At(before, phase, 1)
        invariant forall u | 0 <= u < t :: u !in o.written
      {
        var reports := if t < |o.imageProgress| then o.imageProgress[t] else 0;
        EmitAgain(WritingImageToDisk, reports, before, phase, 1);
        if t in o.written {
          Emit(ImageWritten, before, phase, 1);
          return true, 2;
        }
      }
      ok, k := false, 1;
    }

    method WaitAsWorker(o: Outcomes, ghost before: seq<Event>, ghost phase: seq<Event>)
      requires At(before, phase, 0) && phase == Phase(config, o.registryOnMedia, 3)
      requires role == FinalRole(config)
      modifies this`trace
      ensures At(before, phase, |phase|)
    {
      if role == Worker {
        Emit(Report(WaitingForControlPlane), before, phase, 0);
      }
    }

    method CopyRegistry(o: Outcomes, ghost before: seq<Event>, ghost phase: seq<Event>)
      returns (ok: bool, ghost k: nat)
      requires At(before, phase, 0) && phase == Phase(config, o.registryOnMedia, 4)
      requires role == FinalRole(config)
      modifies this`trace
      ensures At(before, phase, k) && (ok <==> k == |phase|)
      ensures ok <==> (CopiesRegistry(config, o.registryOnMedia) ==> o.registryCopied)
    {
      k := 0;
      if !config.existingRoot && o.registryOnMedia && role == Master {
        Emit(Report(CopyingRegistryDataToDisk), before, phase, 0);
        EmitAgain(CopyingRegistryDataToDisk, o.registryProgress, before, phase, 1);
        if !o.registryCopied {
          return false, 1;
        }
        Emit(RegistryCopied, before, phase, 1);
        k := 2;
      }
      ok := true;
    }

    method WaitForControlPlane(o: Outcomes, ghost before: seq<Event>, ghost phase: seq<Event>)
      returns (ok: bool, ghost k: nat)
      requires |phase| > 3 && phase[0] == Report(Stage.WaitingForControlPlane)
      requires phase[1] == Report(WaitingForBootkube) && phase[2] == Report(WaitingForController)
      requires At(before, phase, 1)
      modifies this`trace
      ensures At(before, phase, k) && k <= 3 && (ok ==> k == 3)
      ensures ok <==> o.hostFileReloaded && 0 in o.clientBuilt && o.clusterFetched && o.etcdReady
    {
      if !o.hostFileReloaded || 0 !in o.clientBuilt {
        return false, 1;
      }
      EmitAgain(Stage.WaitingForControlPlane, 1, before, phase, 1);
      if !o.clusterFetched {
        return false, 1;
      }
      Emit(Report(WaitingForBootkube), before, phase, 1);
      EmitAgain(WaitingForBootkube, 1, before, phase, 2);
      if !o.etcdReady {
        return false, 2;
      }
      Emit(Report(WaitingForController), before, phase, 2);
      ok, k := true, 3;
    }

    method WaitAsBootstrap(o: Outcomes, ghost before: seq<Event>, ghost phase: seq<Event>)
      returns (ok: bool, ghost k: nat)
      requires IsBootstrap(config)
      requires At(before, phase, 0) && phase == Phase(config, o.registryOnMedia, 5)
      modifies this`trace
      ensures At(before, phase, k) && (ok <==> k == |phase|)
      ensures ok <==> BootstrapGoesWell(o)
    {
      Emit(Report(Stage.WaitingForControlPlane), before, phase, 0);
      ok, k := WaitForControlPlane(o, before, phase);
      if !ok {
        return;
      }
      Emit(ControlPlaneReady, before, phase, 3);
      if 1 !in o.clientBuilt || !o.workersReady {
        return false, 4;
      }
      Emit(WorkersReady, before, phase, 4);
      if 2 !in o.clientBuilt || !o.configsConsistent {
        return false, 5;
      }
      Emit(MachineConfigsConsistent, before, phase, 5);
      k := 6;
    }

    method Finalize(o: Outcomes, ghost before: seq<Event>, ghost phase: seq<Event>)
      returns (ok: bool, ghost k: nat)
      requires At(before, phase, 0) && phase == Phase(config, o.registryOnMedia, 6)
      modifies this`trace
      ensures At(before, phase, k) && (ok <==> k == |phase|)
      ensures ok <==> ClosesWell(config, o)
    {
      Emit(Finalizing, before, phase, 0);
      if config.dryRun {
        Emit(Report(Rebooting), before, phase, 1);
        if !o.markerTouched {
          return false, 2;
        }
      } else {
        if !o.unitsListed {
          return false, 1;
        }
        Emit(Report(Rebooting), before, phase, 1);
        if o.ironic {
          if !o.agentStopped {
            return false, 2;
          }
        } else if !o.rebooted {
          return false, 2;
        }
      }
      Emit(HandedOver, before, phase, 2);
      ok, k := true, 3;
    }

    /** A phase that is done is followed by the next; one that is not is part of the plan. */
    lemma Onward(r: bool, n: nat, k: nat)
      requires n < 7 && At(PlanTo(config, r, n), Phase(config, r, n), k)
      ensures n < 6 && k == |Phase(config, r, n)| ==>
                At(PlanTo(config, r, n + 1), Phase(config, r, n + 1), 0)
      ensures n == 6 && k == |Phase(config, r, n)| ==> Collapse(trace) == Plan(config, r)
      ensures Collapse(trace) <= Plan(config, r)
      ensures n < 6 || k < |Phase(config, r, n)| ==> Collapse(trace) < Plan(config, r)
    {
      PartOfPlanTo(config, r, n, k, 6);
      assert Phase(config, r, n)[..|Phase(config, r, n)|] == Phase(config, r, n);
      if n < 6 {
        PlanIsDistinct(config, r, n + 1);
        assert Phase(config, r, n + 1)[..0] == [];
      }
    }

    /** The first three phases, after which the image is on the disk. */
    method Prepare(o: Outcomes, ghost r: bool, ghost n: nat) returns (ok: bool)
      requires trace == [] && role == config.role && r == o.registryOnMedia && n == 0
      modifies this
      ensures ok ==> role == FinalRole(config)
      ensures ok ==> At(PlanTo(config, r, n + 3), Phase(config, r, n + 3), 0)
      ensures !ok ==> Collapse(trace) < Plan(config, r)
      ensures ok <==> PreparesWell(config, o)
    {
      ghost var k;
      ok, k := Open(o, Phase(config, r, n));
      PlanIsDistinct(config, r, n);
      Onward(r, n, k);
      if !ok {
        return;
      }
      ok, k := GetIgnition(o, PlanTo(config, r, n + 1), Phase(config, r, n + 1));
      Onward(r, n + 1, k);
      if !ok {
        return;
      }
      ok, k := WriteImageToDisk(o, PlanTo(config, r, n + 2), Phase(config, r, n + 2));
      Onward(r, n + 2, k);
    }

    /** The last two phases: what a bootstrap waits for, and handing the node over. */
    method Complete(o: Outcomes, ghost r: bool, ghost n: nat) returns (ok: bool)
      requires r == o.registryOnMedia && n == 5
      requires At(PlanTo(config, r, n), Phase(config, r, n), 0)
      modifies this`trace
      ensures ok ==> Collapse(trace) == Plan(config, r)
      ensures !ok ==> Collapse(trace) < Plan(config, r)
      ensures ok <==> (IsBootstrap(config) ==> BootstrapGoesWell(o)) && ClosesWell(config, o)
    {
      ghost var k := 0;
      ok := true;
      if IsBootstrap(config) {
        ok, k := WaitAsBootstrap(o, PlanTo(config, r, n), Phase(config, r, n));
      }
      Onward(r, n, k);
      if !ok {
        return;
      }
      ok, k := Finalize(o, PlanTo(config, r, n + 1), Phase(config, r, n + 1));
      Onward(r, n + 1, k);
    }

    /** The trace always follows the plan, and gets to its end exactly if the installation succeeds. */
    method Install(o: Outcomes) returns (ok: bool)
      requires trace == [] && role == config.role
      modifies this
      ensures Collapse(trace) <= Plan(config, o.registryOnMedia)
      ensures ok <==> Collapse(trace) == Plan(config, o.registryOnMedia)
      ensures ok <==> GoesWell(config, o)
    {
      ghost var r, n, k := o.registryOnMedia, 0, 0;
      ok := Prepare(o, r, n);
      if !ok {
        return;
      }
      n := n + 3;
      WaitAsWorker(o, PlanTo(config, r, n), Phase(config, r, n));
      Onward(r, n, |Phase(config, r, n)|);
      n := n + 1;
      ok, k := CopyRegistry(o, PlanTo(config, r, n), Phase(config, r, n));
      Onward(r, n, k);
      if !ok {
        return;
      }
      n := n + 1;
      ok := Complete(o, r, n);
    }
  }

  lemma NextIsNew(before: seq<Event>, phase: seq<Event>, k: nat)
    requires k < |phase| && Distinct(before + phase)
    ensures Add(before + phase[..k], phase[k]) == before + phase[..k + 1]
  {
    var path := before + phase[..k];
    if |path| > 0 {
      assert path[|path| - 1] == (before + phase)[|path| - 1];
      assert phase[k] == (before + phase)[|path|];
    }
  }

  predicate IgnitionGoesWell(c: Config, o: Outcomes) {
    if SingleNode(c) then o.bootstrapStarted && o.ignitionFound && (c.dryRun || o.ignitionMerged)
    else o.ignitionDownloaded
  }

  predicate BootstrapGoesWell(o: Outcomes) {
    && o.hostFileReloaded && o.clientBuilt >= {0, 1, 2} && o.clusterFetched && o.etcdReady
    && o.workersReady && o.configsConsistent
  }

  predicate ClosesWell(c: Config, o: Outcomes) {
    if c.dryRun then o.markerTouched
    else o.unitsListed && if o.ironic then o.agentStopped else o.rebooted
  }

  ghost predicate PreparesWell(c: Config, o: Outcomes) {
    && o.dirMade
    && (IsBootstrap(c) ==> o.bootstrapStarted)
    && IgnitionGoesWell(c, o)
    && (exists t :: 0 <= t < 3 && t in o.written)
  }

  /** The calls that must not fail. */
  ghost predicate GoesWell(c: Config, o: Outcomes) {
    && PreparesWell(c, o)
    && (CopiesRegistry(c, o.registryOnMedia) ==> o.registryCopied)
    && (IsBootstrap(c) ==> BootstrapGoesWell(o))
    && ClosesWell(c, o)
  }

  /** RunInstaller: the last report is Failed exactly if the installation failed. */
  method RunInstaller(installer: Installer, o: Outcomes) returns (ok: bool)
    requires installer.trace == [] && installer.role == installer.config.role
    modifies installer
    ensures ok <==> GoesWell(installer.config, o)
    ensures ok ==> Collapse(installer.trace) == Plan(installer.config, o.registryOnMedia)
    ensures !ok ==>
              && |installer.trace| > 0 && installer.trace[|installer.trace| - 1] == Report(Failed)
              && Collapse(installer.trace[..|installer.trace| - 1])
                 < Plan(installer.config, o.registryOnMedia)
    ensures ok <==> Report(Failed) !in installer.trace
  {
    ok := installer.Install(o);
    NeverFailed(installer.config, o.registryOnMedia, installer.trace);
    if !ok {
      ghost var before := installer.trace;
      installer.trace := installer.trace + [Report(Failed)];
      assert installer.trace[..|installer.trace| - 1] == before;
    }
  }

  lemma {:induction false} CollapseMembers(trace: seq<Event>)
    ensures forall e :: e in Collapse(trace) <==> e in trace
  {
    if |trace| > 0 {
      CollapseMembers(trace[..|trace| - 1]);
      assert trace == trace[..|trace| - 1] + [trace[|trace| - 1]];
    }
  }

  // ---------------------------------------------------------------- what following the plan means

  lemma {:induction false} CollapsePrefix(trace: seq<Event>, i: nat)
    requires i <= |trace|
    ensures Collapse(trace[..i]) <= Collapse(trace)
  {
    if i == |trace| {
      assert trace[..i] == trace;
    } else {
      assert trace[..|trace| - 1][..i] == trace[..i];
      CollapsePrefix(trace[..|trace| - 1], i);
    }
  }

  lemma IndexOf(path: seq<Event>, e: Event) returns (k: nat)
    requires e in path
    ensures k < |path| && path[k] == e
  {
    k :| 0 <= k < |path| && path[k] == e;
  }

  /** A trace that follows a path goes forward on it. */
  lemma GoesForward(path: seq<Event>, trace: seq<Event>, i: nat, j: nat) returns (k: nat, m: nat)
    requires Collapse(trace) <= path && i <= j < |trace|
    ensures k <= m < |path| && path[k] == trace[i] && path[m] == trace[j]
  {
    CollapsePrefix(trace, j + 1);
    CollapseMembers(trace[..j + 1]);
    var reached := Collapse(trace[..j + 1]);
    m := |reached| - 1;
    assert trace[..j + 1][i] == trace[i];
    k := IndexOf(reached, trace[i]);
  }

  /** It has been at every event of the path up to the one it is at. */
  lemma SkipsNothing(path: seq<Event>, trace: seq<Event>, i: nat, k: nat) returns (m: nat)
    requires Collapse(trace) <= path && i < |trace| && k < |path|
    ensures m < |path| && path[m] == trace[i]
    ensures k < m && path[k] != path[m] ==> path[k] in trace[..i]
  {
    CollapsePrefix(trace, i + 1);
    assert trace[..i + 1] == trace[..i] + [trace[i]];
    CollapseMembers(trace[..i + 1]);
    var reached := Collapse(trace[..i + 1]);
    m := |reached| - 1;
    if k < m {
      assert reached[k] == path[k] && reached[k] in reached;
      assert path[k] in trace[..i + 1];
    }
  }

  lemma PlaceGrows(c: Config, path: seq<Event>, low: int, high: int, k: nat, m: nat)
    requires Ordered(c, path, low, high) && k <= m < |path|
    ensures Place(c, path[k]) <= Place(c, path[m])
  {
  }

  /** In a trace that follows an ordered path, places never go down. */
  lemma PlacesNeverFall(c: Config, path: seq<Event>, low: int, high: int, trace: seq<Event>, i: nat,
                        j: nat)
    requires Ordered(c, path, low, high) && Collapse(trace) <= path && i < j < |trace|
    ensures Place(c, trace[i]) <= Place(c, trace[j])
  {
    var k, m := GoesForward(path, trace, i, j);
    PlaceGrows(c, path, low, high, k, m);
  }

  /** What comes before an event on the path came before it in the trace. */
  lemma EarlierOnPath(c: Config, path: seq<Event>, low: int, high: int, trace: seq<Event>, i: nat,
                      e: Event)
    requires Ordered(c, path, low, high) && Collapse(trace) <= path && i < |trace|
    requires e in path && Place(c, e) < Place(c, trace[i])
    ensures e in trace[..i]
  {
    var k := IndexOf(path, e);
    var m := SkipsNothing(path, trace, i, k);
    if m <= k {
      PlaceGrows(c, path, low, high, m, k);
    }
  }

  /** The stages of an installation are reported in the order of its plan. */
  lemma StagesInOrder(c: Config, r: bool, trace: seq<Event>, i: nat, j: nat)
    requires Collapse(trace) <= Plan(c, r) && i < j < |trace|
    ensures Place(c, trace[i]) <= Place(c, trace[j])
  {
    PlanOrdered(c, r);
    PlacesNeverFall(c, Plan(c, r), -1, 70, trace, i, j);
  }

  /** The whole plan, by the configuration as it is given: a node alone in its control plane waits for
      bootkube before it writes the image; a worker waits for the control plane; masters of the appliance
      flow copy the registry; a bootstrap of several waits for everything else. */
  lemma PlanSpelledOut(c: Config, r: bool)
    ensures var single := c.controlPlaneCount == 1;
            var bootstrap := c.role == Bootstrap && !single;
            var worker := c.role == Worker && !single;
            var copies := !c.existingRoot && r && (single || c.role == Bootstrap || c.role == Master);
            Plan(c, r)
            == [Report(StartingInstallation), Report(Installing)]
               + (if single then [Report(WaitingForBootkube)] else [])
               + [Report(WritingImageToDisk), ImageWritten]
               + (if worker then [Report(WaitingForControlPlane)] else [])
               + (if copies then [Report(CopyingRegistryDataToDisk), RegistryCopied] else [])
               + (if bootstrap then
                    [Report(WaitingForControlPlane), Report(WaitingForBootkube),
                     Report(WaitingForController), ControlPlaneReady, WorkersReady,
                     MachineConfigsConsistent]
                  else [])
               + [Finalizing, Report(Rebooting), HandedOver]
  {
    PlanInPhases(c, r, 7);
  }

  lemma PlanInPhases(c: Config, r: bool, n: nat)
    requires n == 7
    ensures PlanTo(c, r, n)
         == Phase(c, r, 0) + Phase(c, r, 1) + Phase(c, r, 2) + Phase(c, r, 3) + Phase(c, r, 4)
            + Phase(c, r, 5) + Phase(c, r, 6)
  {
    assert PlanTo(c, r, n - 6) == [] + Phase(c, r, 0) == Phase(c, r, 0);
    assert PlanTo(c, r, n - 5) == PlanTo(c, r, n - 6) + Phase(c, r, 1);
    assert PlanTo(c, r, n - 4) == PlanTo(c, r, n - 5) + Phase(c, r, 2);
    assert PlanTo(c, r, n - 3) == PlanTo(c, r, n - 4) + Phase(c, r, 3);
    assert PlanTo(c, r, n - 2) == PlanTo(c, r, n - 3) + Phase(c, r, 4);
    assert PlanTo(c, r, n - 1) == PlanTo(c, r, n - 2) + Phase(c, r, 5);
  }

  /** The calls that must not fail, one by one; all others may. */
  lemma GoesWellIff(c: Config, o: Outcomes)
    ensures var single := c.controlPlaneCount == 1;
            var bootstrap := c.role == Bootstrap && !single;
            var copies := !c.existingRoot && o.registryOnMedia
                          && (single || c.role == Bootstrap || c.role == Master);
            GoesWell(c, o) <==>
              && o.dirMade
              && (bootstrap || single ==> o.bootstrapStarted)
              && (single ==> o.ignitionFound && (c.dryRun || o.ignitionMerged))
              && (!single ==> o.ignitionDownloaded)
              && (0 in o.written || 1 in o.written || 2 in o.written)
              && (copies ==> o.registryCopied)
              && (bootstrap ==>
                    && o.hostFileReloaded && 0 in o.clientBuilt && o.clusterFetched && o.etcdReady
                    && 1 in o.clientBuilt && o.workersReady
                    && 2 in o.clientBuilt && o.configsConsistent)
              && (c.dryRun ==> o.markerTouched)
              && (!c.dryRun ==> o.unitsListed && (if o.ironic then o.agentStopped else o.rebooted))
  {
    assert (exists t :: 0 <= t < 3 && t in o.written)
      <==> 0 in o.written || 1 in o.written || 2 in o.written;
  }

  /** An event of one of the phases is in the plan. */
  lemma InPlan(c: Config, r: bool, n: nat, k: nat)
    requires n < 7 && k < |Phase(c, r, n)|
    ensures Phase(c, r, n)[k] in Plan(c, r)
  {
    PlanToGrows(c, r, n + 1, 7);
    assert PlanTo(c, r, n + 1)[|PlanTo(c, r, n)| + k] == Phase(c, r, n)[k];
  }

  lemma PlanOrdered(c: Config, r: bool)
    ensures Ordered(c, Plan(c, r), -1, 70)
  {
    PlanIsOrdered(c, r, 7);
  }

  /** The earlier phases come before finalizing. */
  lemma PhaseBeforeFinalizing(c: Config, r: bool, n: nat, k: nat)
    requires n < 6 && k < |Phase(c, r, n)|
    ensures Place(c, Phase(c, r, n)[k]) < Place(c, Finalizing)
  {
    PhaseIsOrdered(c, r, n);
    assert Place(c, Phase(c, r, n)[k]) < 10 * n + 10;
  }

  /**
   The node is only finalized after its image has been written, and a bootstrap only after the control
   plane, the workers and the machine configs were waited for.
   */
  lemma FinalizedLast(c: Config, r: bool, trace: seq<Event>, i: nat, n: nat, k: nat)
    requires Collapse(trace) <= Plan(c, r) && i < |trace| && trace[i] == Finalizing
    requires n < 6 && k < |Phase(c, r, n)|
    ensures Phase(c, r, n)[k] in trace[..i]
  {
    InPlan(c, r, n, k);
    PhaseBeforeFinalizing(c, r, n, k);
    PlanOrdered(c, r);
    EarlierOnPath(c, Plan(c, r), -1, 70, trace, i, Phase(c, r, n)[k]);
  }

  /** The phase in which a milestone of the node is reached, and its place there. */
  predicate IsMilestone(c: Config, r: bool, e: Event, n: nat, k: nat) {
    n < 6 && k < |Phase(c, r, n)| && Phase(c, r, n)[k] == e
  }

  lemma MilestoneReached(c: Config, r: bool, trace: seq<Event>, i: nat, e: Event, n: nat, k: nat)
    requires Collapse(trace) <= Plan(c, r) && i < |trace| && trace[i] == Finalizing
    requires IsMilestone(c, r, e, n, k)
    ensures e in trace[..i]
  {
    FinalizedLast(c, r, trace, i, n, k);
  }

  lemma Milestones(c: Config, r: bool)
    ensures IsMilestone(c, r, ImageWritten, 2, 1)
    ensures CopiesRegistry(c, r) ==> IsMilestone(c, r, RegistryCopied, 4, 1)
    ensures IsBootstrap(c) ==>
              && IsMilestone(c, r, ControlPlaneReady, 5, 3) && IsMilestone(c, r, WorkersReady, 5, 4)
              && IsMilestone(c, r, MachineConfigsConsistent, 5, 5)
  {
  }

  /** Spelled out: the milestones that a node passes before it is finalized. */
  lemma MilestonesBeforeFinalizing(c: Config, r: bool, trace: seq<Event>, i: nat)
    requires Collapse(trace) <= Plan(c, r) && i < |trace| && trace[i] == Finalizing
    ensures ImageWritten in trace[..i]
    ensures CopiesRegistry(c, r) ==> RegistryCopied in trace[..i]
    ensures IsBootstrap(c) ==>
              && ControlPlaneReady in trace[..i] && WorkersReady in trace[..i]
              && MachineConfigsConsistent in trace[..i]
  {
    Milestones(c, r);
    MilestoneReached(c, r, trace, i, ImageWritten, 2, 1);
    if CopiesRegistry(c, r) {
      MilestoneReached(c, r, trace, i, RegistryCopied, 4, 1);
    }
    if IsBootstrap(c) {
      MilestoneReached(c, r, trace, i, ControlPlaneReady, 5, 3);
      MilestoneReached(c, r, trace, i, WorkersReady, 5, 4);
      MilestoneReached(c, r, trace, i, MachineConfigsConsistent, 5, 5);
    }
  }

  lemma NeverFailed(c: Config, r: bool, trace: seq<Event>)
    requires Collapse(trace) <= Plan(c, r)
    ensures Report(Failed) !in trace
  {
    PlanOrdered(c, r);
    CollapseMembers(trace);
  }
}
