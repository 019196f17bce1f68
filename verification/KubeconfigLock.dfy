/**
 Threads that ask for the kubeconfig path at the same time (GetKubeconfigPath in
 src/assisted_installer_controller/reboots_notifier.go): a read without the lock, then the lock, a
 second look, and a download into a new temporary directory if the path is still not known.

 Any number of threads take steps in any order. Every step is atomic, the first read among them.
 Making the directory, downloading and removing the directory may each fail.
 */
module KubeconfigLock {
  import opened Wrappers

  /** The path is the kubeconfig file inside one of the temporary directories. */
  type Dir = nat

  /** Where a thread is; from Holding to Leaving it holds the lock. */
  datatype Pc =
    | Start
    | Waiting
    | Holding
    | Downloading(dir: Dir)
    | Removing(dir: Dir)
    | Leaving(result: Option<Dir>)
    | Returned(result: Option<Dir>)

  datatype State = State(pcs: seq<Pc>, path: Option<Dir>, holder: Option<nat>,
                         dirs: set<Dir>, leaked: set<Dir>, made: nat, downloads: nat, writes: nat)

  function Init(threads: nat): State {
    State(seq(threads, _ => Start), None, None, {}, {}, 0, 0, 0)
  }

  function Goto(s: State, t: nat, pc: Pc): State
    requires t < |s.pcs|
  {
    s.(pcs := s.pcs[t := pc])
  }

  predicate Enabled(s: State, t: nat) {
    && t < |s.pcs|
    && !s.pcs[t].Returned?
    && (s.pcs[t].Waiting? ==> s.holder.None?)
  }

  /** Thread `t` takes its next step; `ok` says whether the call it makes, if any, succeeds. */
  function Step(s: State, t: nat, ok: bool): State
    requires Enabled(s, t)
  {
    match s.pcs[t]
    case Start =>
      if s.path.Some? then Goto(s, t, Returned(s.path)) else Goto(s, t, Waiting)
    case Waiting =>
      Goto(s, t, Holding).(holder := Some(t))
    case Holding =>
      if s.path.Some? then Goto(s, t, Leaving(s.path))
      else if !ok then Goto(s, t, Leaving(None))
      else Goto(s, t, Downloading(s.made)).(dirs := s.dirs + {s.made}, made := s.made + 1)
    case Downloading(dir) =>
      if ok then
        Goto(s, t, Leaving(Some(dir))).(path := Some(dir), downloads := s.downloads + 1,
                                        writes := s.writes + 1)
      else Goto(s, t, Removing(dir))
    case Removing(dir) =>
      if ok then Goto(s, t, Leaving(None)).(dirs := s.dirs - {dir})
      else Goto(s, t, Leaving(None)).(leaked := s.leaked + {dir})
    case Leaving(result) =>
      Goto(s, t, Returned(result)).(holder := None)
  }

  // ---------------------------------------------------------------- the invariant

  predicate Critical(pc: Pc) {
    pc.Holding? || pc.Downloading? || pc.Removing? || pc.Leaving?
  }

  /** The directory a thread is working on. */
  function Working(pc: Pc): set<Dir> {
    if pc.Downloading? || pc.Removing? then {pc.dir} else {}
  }

  function PathDir(path: Option<Dir>): set<Dir> {
    if path.Some? then {path.value} else {}
  }

  /** The directory the holder of the lock is working on. */
  function InFlight(s: State): set<Dir> {
    if s.holder.Some? && s.holder.value < |s.pcs| then Working(s.pcs[s.holder.value]) else {}
  }

  /** Exactly the holder of the lock is between Holding and Leaving. */
  ghost predicate LockInv(s: State) {
    && (forall t | 0 <= t < |s.pcs| :: Critical(s.pcs[t]) <==> s.holder == Some(t))
    && (s.holder.Some? ==> s.holder.value < |s.pcs|)
  }

  /** What a thread in this place knows about the path. */
  ghost predicate Agrees(pc: Pc, path: Option<Dir>) {
    match pc
    case Downloading(_) => path.None?
    case Removing(_) => path.None?
    case Leaving(result) => path == result
    case Returned(result) => result.Some? ==> path == result
    case _ => true
  }

  ghost predicate PathInv(s: State) {
    && (forall t | 0 <= t < |s.pcs| :: Agrees(s.pcs[t], s.path))
    && s.downloads == s.writes == |PathDir(s.path)|
  }

  ghost predicate DirInv(s: State) {
    && s.dirs == s.leaked + PathDir(s.path) + InFlight(s)
    && s.leaked !! PathDir(s.path) && s.leaked !! InFlight(s)
    && (forall d <- s.dirs :: d < s.made)
  }

  ghost predicate Inv(s: State) {
    LockInv(s) && PathInv(s) && DirInv(s)
  }

  lemma InitInv(threads: nat)
    ensures Inv(Init(threads))
  {
  }

  lemma StepKeepsLock(s: State, t: nat, ok: bool)
    requires LockInv(s) && Enabled(s, t)
    ensures LockInv(Step(s, t, ok))
  {
  }

  lemma StepKeepsAgreement(s: State, t: nat, ok: bool)
    requires LockInv(s) && PathInv(s) && Enabled(s, t)
    ensures PathInv(Step(s, t, ok))
  {
  }

  lemma StepKeepsDirs(s: State, t: nat, ok: bool)
    requires LockInv(s) && DirInv(s) && Enabled(s, t) && Agrees(s.pcs[t], s.path)
    ensures DirInv(Step(s, t, ok))
  {
  }

  lemma StepKeepsInv(s: State, t: nat, ok: bool)
    requires Inv(s) && Enabled(s, t)
    ensures Inv(Step(s, t, ok))
  {
    StepKeepsLock(s, t, ok);
    StepKeepsAgreement(s, t, ok);
    StepKeepsDirs(s, t, ok);
  }

  /** Once written, the path stays. */
  lemma StepKeepsPath(s: State, t: nat, ok: bool)
    requires Inv(s) && Enabled(s, t) && s.path.Some?
    ensures Step(s, t, ok).path == s.path
  {
  }

  // ---------------------------------------------------------------- progress

  function Level(pc: Pc): nat {
    match pc
    case Start => 6
    case Waiting => 5
    case Holding => 4
    case Downloading(_) => 3
    case Removing(_) => 2
    case Leaving(_) => 1
    case Returned(_) => 0
  }

  function Work(pcs: seq<Pc>): nat {
    if |pcs| == 0 then 0 else Work(pcs[..|pcs| - 1]) + Level(pcs[|pcs| - 1])
  }

  lemma {:induction false} WorkUpdate(pcs: seq<Pc>, t: nat, pc: Pc)
    requires t < |pcs|
    ensures Work(pcs[t := pc]) == Work(pcs) - Level(pcs[t]) + Level(pc)
  {
    var n := |pcs| - 1;
    if t < n {
      assert pcs[t := pc][..n] == pcs[..n][t := pc];
      WorkUpdate(pcs[..n], t, pc);
    } else {
      assert pcs[t := pc][..n] == pcs[..n];
    }
  }

  lemma {:induction false} WorkAtStart(threads: nat)
    ensures Work(seq(threads, _ => Start)) == 6 * threads
  {
    if threads > 0 {
      var pcs: seq<Pc> := seq(threads, _ => Start);
      assert pcs[..threads - 1] == seq(threads - 1, _ => Start);
      WorkAtStart(threads - 1);
    }
  }

  lemma StepDoesWork(s: State, t: nat, ok: bool)
    requires Enabled(s, t)
    ensures Work(Step(s, t, ok).pcs) < Work(s.pcs)
  {
    WorkUpdate(s.pcs, t, Step(s, t, ok).pcs[t]);
  }

  /** As long as a thread has not returned, some thread can take a step. */
  lemma NoDeadlock(s: State, t: nat) returns (u: nat)
    requires Inv(s) && t < |s.pcs| && !s.pcs[t].Returned?
    ensures Enabled(s, u)
  {
    u := if s.pcs[t].Waiting? && s.holder.Some? then s.holder.value else t;
  }

  // ---------------------------------------------------------------- whole runs

  datatype Choice = Choice(thread: nat, ok: bool)

  /** The choices are possible one after the other. */
  ghost predicate IsRun(s: State, run: seq<Choice>)
    decreases |run|, 0
  {
    |run| > 0 ==>
      && IsRun(s, run[..|run| - 1])
      && Enabled(After(s, run[..|run| - 1]), run[|run| - 1].thread)
  }

  ghost function After(s: State, run: seq<Choice>): (after: State)
    requires IsRun(s, run)
    ensures |after.pcs| == |s.pcs|
    decreases |run|, 1
  {
    if |run| == 0 then s
    else
      var last := run[|run| - 1];
      Step(After(s, run[..|run| - 1]), last.thread, last.ok)
  }

  lemma {:induction false} RunKeepsInv(threads: nat, run: seq<Choice>)
    requires IsRun(Init(threads), run)
    ensures var s := After(Init(threads), run);
            Inv(s) && Work(s.pcs) + |run| <= 6 * threads
  {
    if |run| == 0 {
      InitInv(threads);
      WorkAtStart(threads);
    } else {
      var prefix, last := run[..|run| - 1], run[|run| - 1];
      RunKeepsInv(threads, prefix);
      StepKeepsInv(After(Init(threads), prefix), last.thread, last.ok);
      StepDoesWork(After(Init(threads), prefix), last.thread, last.ok);
    }
  }

  // ---------------------------------------------------------------- what the outcomes of calls decide

  /** Step `k` of the run is a download into a directory, and it goes well. */
  ghost predicate Succeeds(s: State, run: seq<Choice>, k: nat, d: Dir) {
    && k < |run| && IsRun(s, run[..k]) && run[k].thread < |s.pcs|
    && After(s, run[..k]).pcs[run[k].thread] == Downloading(d) && run[k].ok
  }

  /** The directories into which downloads succeed in a run, in order: choice by choice, those with a
      thread that is downloading and a call that goes well. */
  ghost function Successes(s: State, run: seq<Choice>): seq<Dir>
    requires IsRun(s, run)
  {
    if |run| == 0 then []
    else
      var prefix, last := run[..|run| - 1], run[|run| - 1];
      var pc := After(s, prefix).pcs[last.thread];
      Successes(s, prefix) + if pc.Downloading? && last.ok then [pc.dir] else []
  }

  /** One of the thread's own calls failed, to make the directory or to download into it. */
  ghost predicate FailedItself(s: State, run: seq<Choice>, t: nat)
    requires IsRun(s, run)
  {
    if |run| == 0 then false
    else
      var prefix, last := run[..|run| - 1], run[|run| - 1];
      var before := After(s, prefix);
      || FailedItself(s, prefix, t)
      || (last.thread == t && !last.ok
          && (before.pcs[t].Downloading? || (before.pcs[t].Holding? && before.path.None?)))
  }

  /** The path is that of the one download that succeeds, if there is one, and nothing else. */
  lemma {:induction false} PathIsDownloaded(threads: nat, run: seq<Choice>)
    requires IsRun(Init(threads), run)
    ensures var s, successes := After(Init(threads), run), Successes(Init(threads), run);
            && |successes| <= 1 && s.downloads == s.writes == |successes|
            && s.path == if |successes| == 0 then None else Some(successes[0])
  {
    if |run| > 0 {
      var prefix, last := run[..|run| - 1], run[|run| - 1];
      PathIsDownloaded(threads, prefix);
      RunKeepsInv(threads, prefix);
      StepSetsPath(After(Init(threads), prefix), last.thread, last.ok);
    }
  }

  /** A step sets the path exactly if it is a download that goes well. */
  lemma StepSetsPath(s: State, t: nat, ok: bool)
    requires PathInv(s) && Enabled(s, t)
    ensures var after, pc := Step(s, t, ok), s.pcs[t];
            if pc.Downloading? && ok then
              && s.path.None? && after.path == Some(pc.dir)
              && after.downloads == s.downloads + 1 && after.writes == s.writes + 1
            else after.path == s.path && after.downloads == s.downloads && after.writes == s.writes
  {
    assert Agrees(s.pcs[t], s.path);
  }

  lemma {:induction false} SuccessesAreSteps(s: State, run: seq<Choice>, d: Dir)
    requires IsRun(s, run)
    ensures d in Successes(s, run) <==> exists k :: Succeeds(s, run, k, d)
  {
    if |run| > 0 {
      var prefix := run[..|run| - 1];
      SuccessesAreSteps(s, prefix, d);
      forall k: nat
        ensures Succeeds(s, run, k, d) <==>
                  Succeeds(s, prefix, k, d) || (k == |prefix| && LastSucceeds(s, run, d))
      {
        if k <= |prefix| {
          assert prefix[..k] == run[..k];
        }
      }
      assert LastSucceeds(s, run, d) <==> Succeeds(s, run, |prefix|, d);
    }
  }

  ghost predicate LastSucceeds(s: State, run: seq<Choice>, d: Dir)
    requires IsRun(s, run) && |run| > 0
  {
    var last := run[|run| - 1];
    After(s, run[..|run| - 1]).pcs[last.thread] == Downloading(d) && last.ok
  }

  /** Read step by step: the path is `d` exactly if some step of the run downloads into `d` and goes
      well. */
  lemma PathIffSuccess(threads: nat, run: seq<Choice>, d: Dir)
    requires IsRun(Init(threads), run)
    ensures After(Init(threads), run).path == Some(d) <==> exists k :: Succeeds(Init(threads), run, k, d)
  {
    PathIsDownloaded(threads, run);
    SuccessesAreSteps(Init(threads), run, d);
  }

  /** The directories whose removal fails in a run. */
  ghost function FailedRemovals(s: State, run: seq<Choice>): set<Dir>
    requires IsRun(s, run)
  {
    if |run| == 0 then {}
    else
      var prefix, last := run[..|run| - 1], run[|run| - 1];
      var pc := After(s, prefix).pcs[last.thread];
      FailedRemovals(s, prefix) + if pc.Removing? && !last.ok then {pc.dir} else {}
  }

  /** Exactly the directories that could not be removed are left behind. */
  lemma {:induction false} LeakedIffNotRemoved(threads: nat, run: seq<Choice>)
    requires IsRun(Init(threads), run)
    ensures var s, failed := After(Init(threads), run), FailedRemovals(Init(threads), run);
            s.leaked == failed
  {
    if |run| > 0 {
      LeakedIffNotRemoved(threads, run[..|run| - 1]);
    }
  }

  /** So if every removal goes well there is never more than one directory. */
  lemma OneDirectoryIfRemoved(threads: nat, run: seq<Choice>)
    requires IsRun(Init(threads), run) && FailedRemovals(Init(threads), run) == {}
    ensures |After(Init(threads), run).dirs| <= 1
  {
    LeakedIffNotRemoved(threads, run);
    OneDirectory(threads, run);
  }

  /** A thread is on its way to returning no path, or has done so, exactly if one of its own calls
      failed: no other thread's failure makes it fail. */
  lemma {:induction false} FailsIffFailedItself(threads: nat, run: seq<Choice>, t: nat)
    requires IsRun(Init(threads), run) && t < threads
    ensures var pc := After(Init(threads), run).pcs[t];
            FailedItself(Init(threads), run, t) <==>
              pc.Removing? || pc == Leaving(None) || pc == Returned(None)
  {
    if |run| > 0 {
      var prefix, last := run[..|run| - 1], run[|run| - 1];
      FailsIffFailedItself(threads, prefix, t);
    }
  }

  /** If no call fails, all threads that are back have the same path, that of the download. */
  lemma AllSucceed(threads: nat, run: seq<Choice>) returns (d: Dir)
    requires IsRun(Init(threads), run) && threads > 0
    requires forall k | 0 <= k < |run| :: run[k].ok
    requires forall t | 0 <= t < threads :: After(Init(threads), run).pcs[t].Returned?
    ensures forall t | 0 <= t < threads :: After(Init(threads), run).pcs[t] == Returned(Some(d))
    ensures Successes(Init(threads), run) == [d]
  {
    OneDownload(threads, run);
    PathIsDownloaded(threads, run);
    forall t | 0 <= t < threads
      ensures After(Init(threads), run).pcs[t].result.Some?
    {
      NobodyFails(Init(threads), run, t);
      FailsIffFailedItself(threads, run, t);
    }
    d := After(Init(threads), run).pcs[0].result.value;
  }

  lemma {:induction false} NobodyFails(s: State, run: seq<Choice>, t: nat)
    requires IsRun(s, run) && forall k | 0 <= k < |run| :: run[k].ok
    ensures !FailedItself(s, run, t)
  {
    if |run| > 0 {
      NobodyFails(s, run[..|run| - 1], t);
    }
  }

  // ---------------------------------------------------------------- how runs end

  /** In every run at most one download succeeds, the path is written at most once, and all threads
      that return a path return the same one, which is the path that is stored. */
  lemma OneDownload(threads: nat, run: seq<Choice>)
    requires IsRun(Init(threads), run)
    ensures var s := After(Init(threads), run);
            && s.downloads <= 1 && s.writes <= 1
            && (forall t | 0 <= t < |s.pcs| ::
                  s.pcs[t].Returned? && s.pcs[t].result.Some? ==> s.pcs[t].result == s.path)
  {
    RunKeepsInv(threads, run);
  }

  /** When all threads have returned, the directories left are the one of the path and those whose
      removal failed. Until then there may be one more, being downloaded into. */
  lemma OneDirectory(threads: nat, run: seq<Choice>)
    requires IsRun(Init(threads), run)
    ensures var s := After(Init(threads), run);
            && |s.dirs| <= |s.leaked| + 1
            && ((forall t | 0 <= t < threads :: s.pcs[t].Returned?) ==>
                  s.dirs == s.leaked + PathDir(s.path) && |s.dirs| == |s.leaked| + s.downloads)
  {
    RunKeepsInv(threads, run);
    var s := After(Init(threads), run);
    assert |s.dirs| == |s.leaked| + |PathDir(s.path) + InFlight(s)|;
  }

  /** No run is longer than six steps a thread, and a run that cannot go on has all threads back. */
  lemma AllReturn(threads: nat, run: seq<Choice>)
    requires IsRun(Init(threads), run)
    ensures |run| <= 6 * threads
    ensures (forall t :: !Enabled(After(Init(threads), run), t)) ==>
              forall t | 0 <= t < threads :: After(Init(threads), run).pcs[t].Returned?
  {
    RunKeepsInv(threads, run);
    var s := After(Init(threads), run);
    if t :| 0 <= t < threads && !s.pcs[t].Returned? {
      var u := NoDeadlock(s, t);
    }
  }

  lemma StepOfLateThread(s: State, u: nat, ok: bool, t: nat)
    requires Inv(s) && Enabled(s, u) && s.path.Some?
    requires t < |s.pcs| && (s.pcs[t] == Start || s.pcs[t] == Returned(s.path))
    ensures var after := Step(s, u, ok);
            after.path == s.path && (after.pcs[t] == Start || after.pcs[t] == Returned(s.path))
  {
  }

  /** A thread that starts when the path is known returns that path, whatever happens meanwhile. */
  lemma {:induction false} LateThreadsSucceed(s: State, run: seq<Choice>, t: nat)
    requires Inv(s) && s.path.Some? && t < |s.pcs| && s.pcs[t].Start? && IsRun(s, run)
    ensures var after := After(s, run);
            && Inv(after) && after.path == s.path
            && (after.pcs[t] == Start || after.pcs[t] == Returned(s.path))
  {
    if |run| > 0 {
      var prefix, last := run[..|run| - 1], run[|run| - 1];
      LateThreadsSucceed(s, prefix, t);
      StepKeepsInv(After(s, prefix), last.thread, last.ok);
      StepOfLateThread(After(s, prefix), last.thread, last.ok, t);
    }
  }
}
