/**
 Kernel arguments: what the installer passes on when it overwrites an installed image
 (convertToInstallerKargs, convertToOverwriteKargs and overwriteOsImage in src/installer/installer.go)
 and what it applies to a new stateroot (applyInstallKargs in src/ops/ops.go).
 */
module Kargs {
  import opened Wrappers

  const APPEND := "--append-karg"
  const DELETE := "--delete-karg"
  const INSTALL_STATE_ROOT := "install"

  function InstallerKargs(kargs: seq<string>): seq<string> {
    if |kargs| == 0 then [] else [APPEND, kargs[0]] + InstallerKargs(kargs[1..])
  }

  /** The scan of convertToOverwriteKargs: a flag takes the argument after it, whatever that is. */
  function OverwriteKargs(args: seq<string>): seq<string> {
    if |args| < 2 then []
    else if args[0] == APPEND then ["--karg", args[1]] + OverwriteKargs(args[2..])
    else OverwriteKargs(args[1..])
  }

  /** The scan of applyInstallKargs: an argument taken by a flag is looked at as a flag as well. */
  function InstallKargs(args: seq<string>): seq<string> {
    if |args| < 2 then []
    else
      (if args[0] == APPEND then ["--append", args[1]]
       else if args[0] == DELETE then ["--delete-if-present", args[1]]
       else [])
      + InstallKargs(args[1..])
  }

  /** In a list of options with their values, the values of one option. */
  function Values(options: seq<string>, option: string): seq<string> {
    if |options| < 2 then []
    else (if options[0] == option then [options[1]] else []) + Values(options[2..], option)
  }

  method ConvertToInstallerKargs(kargs: seq<string>) returns (ret: seq<string>)
    ensures ret == InstallerKargs(kargs)
  {
    ret := [];
    for i := 0 to |kargs|
      invariant ret + InstallerKargs(kargs[i..]) == InstallerKargs(kargs)
    {
      assert kargs[i..][1..] == kargs[i + 1..];
      Associative(ret, [APPEND, kargs[i]], InstallerKargs(kargs[i + 1..]));
      ret := ret + [APPEND, kargs[i]];
    }
  }

  method ConvertToOverwriteKargs(args: seq<string>) returns (ret: seq<string>)
    ensures ret == OverwriteKargs(args)
  {
    ret := [];
    var i := 0;
    while i < |args|
      invariant i <= |args|
      invariant ret + OverwriteKargs(args[i..]) == OverwriteKargs(args)
    {
      assert args[i..][1..] == args[i + 1..];
      if args[i] == APPEND && i + 1 < |args| {
        assert args[i..][2..] == args[i + 2..];
        Associative(ret, ["--karg", args[i + 1]], OverwriteKargs(args[i + 2..]));
        ret := ret + ["--karg", args[i + 1]];
        i := i + 2;
      } else {
        i := i + 1;
      }
    }
  }

  /** What is passed to OverwriteOsImage: the installer arguments and then `kargs`. */
  method OverwriteArgs(installerArgs: seq<string>, kargs: seq<string>) returns (ret: seq<string>)
    ensures ret == OverwriteKargs(installerArgs + InstallerKargs(kargs))
  {
    var converted := ConvertToInstallerKargs(kargs);
    ret := ConvertToOverwriteKargs(installerArgs + converted);
  }

  /** The commands that are run, with their arguments. */
  method ApplyInstallKargs(installerArgs: seq<string>, applied: bool, finalized: bool)
    returns (ok: bool, commands: seq<seq<string>>)
    ensures var changes := InstallKargs(installerArgs);
            var first := ["rpm-ostree", "kargs", "--os", "install"] + changes;
            if changes == [] then ok && commands == []
            else
              && ok == (applied && finalized)
              && commands == if applied then [first, ["ostree", "admin", "finalize-staged"]] else [first]
  {
    var commandArgs := ["kargs", "--os", INSTALL_STATE_ROOT];
    var lastArgIndex := |installerArgs| - 1;
    ghost var changes := [];
    for i := 0 to |installerArgs|
      invariant commandArgs == ["kargs", "--os", INSTALL_STATE_ROOT] + changes
      invariant changes + InstallKargs(installerArgs[i..]) == InstallKargs(installerArgs)
    {
      assert installerArgs[i..][1..] == installerArgs[i + 1..];
      var arg := installerArgs[i];
      if arg == APPEND && i < lastArgIndex {
        Associative(changes, ["--append", installerArgs[i + 1]], InstallKargs(installerArgs[i + 1..]));
        Associative(["kargs", "--os", INSTALL_STATE_ROOT], changes, ["--append", installerArgs[i + 1]]);
        commandArgs := commandArgs + ["--append", installerArgs[i + 1]];
        changes := changes + ["--append", installerArgs[i + 1]];
      } else if arg == DELETE && i < lastArgIndex {
        var change := ["--delete-if-present", installerArgs[i + 1]];
        Associative(changes, change, InstallKargs(installerArgs[i + 1..]));
        Associative(["kargs", "--os", INSTALL_STATE_ROOT], changes, change);
        commandArgs := commandArgs + change;
        changes := changes + change;
      }
    }
    assert changes == InstallKargs(installerArgs);
    if |commandArgs| == 3 {
      return true, [];
    }
    Associative(["rpm-ostree"], ["kargs", "--os", INSTALL_STATE_ROOT], changes);
    assert ["rpm-ostree"] + ["kargs", "--os", INSTALL_STATE_ROOT]
        == ["rpm-ostree", "kargs", "--os", INSTALL_STATE_ROOT];
    commands := [["rpm-ostree"] + commandArgs];
    if !applied {
      return false, commands;
    }
    commands := commands + [["ostree", "admin", "finalize-staged"]];
    ok := finalized;
  }

  // ---------------------------------------------------------------- translating there and back

  /** Every kernel argument comes through, even one that looks like the flag. */
  lemma {:induction false} OverwriteUndoesInstaller(kargs: seq<string>)
    ensures Values(OverwriteKargs(InstallerKargs(kargs)), "--karg") == kargs
    ensures |OverwriteKargs(InstallerKargs(kargs))| == 2 * |kargs|
  {
    if |kargs| > 0 {
      var rest := InstallerKargs(kargs[1..]);
      assert InstallerKargs(kargs)[2..] == rest;
      assert OverwriteKargs(InstallerKargs(kargs))[2..] == OverwriteKargs(rest);
      OverwriteUndoesInstaller(kargs[1..]);
    }
  }

  /** The scan ends with a flag that has nothing left to take. */
  predicate Dangling(args: seq<string>) {
    if |args| == 0 then false
    else if args[0] != APPEND then Dangling(args[1..])
    else |args| == 1 || Dangling(args[2..])
  }

  /** A flag left dangling by the first part takes the first argument of the second. */
  lemma {:induction false} OverwriteConcat(a: seq<string>, b: seq<string>)
    ensures OverwriteKargs(a + b)
         == OverwriteKargs(a) + OverwriteKargs(if Dangling(a) then [APPEND] + b else b)
  {
    if |a| == 0 {
      assert a + b == b;
    } else if a[0] != APPEND {
      assert (a + b)[1..] == a[1..] + b;
      OverwriteConcat(a[1..], b);
    } else if |a| == 1 {
      assert a == [APPEND];
    } else {
      assert (a + b)[2..] == a[2..] + b;
      OverwriteConcat(a[2..], b);
      Associative(["--karg", a[1]], OverwriteKargs(a[2..]),
                  OverwriteKargs(if Dangling(a) then [APPEND] + b else b));
    }
  }

  /** Behind a dangling flag only flags come through unchanged. */
  lemma {:induction false} ShiftedByOne(kargs: seq<string>)
    ensures OverwriteKargs([APPEND] + InstallerKargs(kargs)) == OverwriteKargs(InstallerKargs(kargs))
            <==> forall i | 0 <= i < |kargs| :: kargs[i] == APPEND
  {
    if |kargs| > 0 {
      var args, rest := InstallerKargs(kargs), InstallerKargs(kargs[1..]);
      assert args[2..] == rest && args[1..] == [kargs[0]] + rest;
      assert ([APPEND] + args)[2..] == [kargs[0]] + rest;
      assert OverwriteKargs([APPEND] + args) == ["--karg", APPEND] + OverwriteKargs([kargs[0]] + rest);
      assert OverwriteKargs(args) == ["--karg", kargs[0]] + OverwriteKargs(rest);
      ShiftedByOne(kargs[1..]);
      if kargs[0] == APPEND {
        SameTail(["--karg", APPEND], OverwriteKargs([kargs[0]] + rest), OverwriteKargs(rest));
        assert kargs == [kargs[0]] + kargs[1..];
      } else {
        assert OverwriteKargs([APPEND] + args)[1] != OverwriteKargs(args)[1];
      }
    }
  }

  lemma SameTail(head: seq<string>, a: seq<string>, b: seq<string>)
    ensures head + a == head + b <==> a == b
  {
    assert (head + a)[|head|..] == a && (head + b)[|head|..] == b;
  }

  /**
   The kernel arguments follow, each as it was given, those of the installer arguments exactly when
   the installer arguments do not end in a dangling flag, or all kernel arguments read like the flag.
   */
  lemma OverwriteArgsIffNotDangling(installerArgs: seq<string>, kargs: seq<string>)
    ensures OverwriteKargs(installerArgs + InstallerKargs(kargs))
            == OverwriteKargs(installerArgs) + OverwriteKargs(InstallerKargs(kargs))
            <==> !Dangling(installerArgs) || forall i | 0 <= i < |kargs| :: kargs[i] == APPEND
  {
    var args := InstallerKargs(kargs);
    OverwriteConcat(installerArgs, args);
    if Dangling(installerArgs) {
      SameTail(OverwriteKargs(installerArgs), OverwriteKargs([APPEND] + args), OverwriteKargs(args));
      ShiftedByOne(kargs);
    }
  }

  /** A dangling flag does happen: it takes the flag meant for the kernel argument, which is lost. */
  lemma DanglingFlagLosesArgument()
    ensures OverwriteKargs([APPEND] + InstallerKargs(["quiet"])) == ["--karg", APPEND]
    ensures OverwriteKargs([APPEND]) + OverwriteKargs(InstallerKargs(["quiet"])) == ["--karg", "quiet"]
  {
    var args := InstallerKargs(["quiet"]);
    assert args == [APPEND, "quiet"] && args[2..] == [];
    assert ([APPEND] + args)[2..] == ["quiet"];
  }

  // ---------------------------------------------------------------- the two scans

  /** Two flags in a row, with an argument for the second to take. */
  predicate HasFlagPair(args: seq<string>) {
    exists i :: 0 <= i < |args| - 2 && args[i] == APPEND && args[i + 1] == APPEND
  }

  /** The flags the scan of applyInstallKargs acts on, with what they take. */
  function Appended(args: seq<string>): seq<string> {
    if |args| < 2 then [] else (if args[0] == APPEND then [args[1]] else []) + Appended(args[1..])
  }

  lemma {:induction false} ValuesAppended(args: seq<string>)
    ensures Values(InstallKargs(args), "--append") == Appended(args)
  {
    if |args| >= 2 {
      ValuesAppended(args[1..]);
      if args[0] == APPEND || args[0] == DELETE {
        assert InstallKargs(args)[2..] == InstallKargs(args[1..]);
      } else {
        assert InstallKargs(args) == InstallKargs(args[1..]);
      }
    }
  }

  lemma FlagPairSplit(args: seq<string>, n: nat)
    requires 0 < n <= |args| && n <= 2
    requires forall i | 0 <= i < n && i < |args| - 2 :: args[i] != APPEND || args[i + 1] != APPEND
    ensures HasFlagPair(args) <==> HasFlagPair(args[n..])
  {
  }

  /** What the two scans make of a flag and what it takes. */
  lemma SkippingScanOfFlag(args: seq<string>)
    requires |args| >= 2 && args[0] == APPEND
    ensures Values(OverwriteKargs(args), "--karg") == [args[1]] + Values(OverwriteKargs(args[2..]), "--karg")
  {
    assert OverwriteKargs(args)[2..] == OverwriteKargs(args[2..]);
  }

  lemma OtherScanOfFlag(args: seq<string>)
    requires |args| >= 2 && args[0] == APPEND
    ensures args[1] == APPEND && |args| > 2 ==> |Appended(args)| == 2 + |Appended(args[2..])|
    ensures args[1] != APPEND || |args| == 2 ==> Appended(args) == [args[1]] + Appended(args[2..])
  {
    var rest := args[1..];
    assert rest[1..] == args[2..];
    assert Appended(args) == [args[1]] + Appended(rest);
    if args[1] != APPEND && |args| > 2 {
      assert Appended(rest) == [] + Appended(rest[1..]);
    }
  }

  lemma ScansOfOther(args: seq<string>)
    requires |args| >= 2 && args[0] != APPEND
    ensures OverwriteKargs(args) == OverwriteKargs(args[1..]) && Appended(args) == Appended(args[1..])
    ensures HasFlagPair(args) <==> HasFlagPair(args[1..])
  {
    FlagPairSplit(args, 1);
  }

  lemma FlagPairAhead(args: seq<string>)
    requires |args| >= 2 && args[0] == APPEND
    ensures HasFlagPair(args) <==> (args[1] == APPEND && |args| > 2) || HasFlagPair(args[2..])
  {
    if args[1] != APPEND {
      FlagPairSplit(args, 2);
    }
  }

  /** The scan that skips what a flag takes sees no more flags, and as many only if it misses none. */
  lemma {:induction false} ScansCompared(args: seq<string>)
    ensures |Values(OverwriteKargs(args), "--karg")| <= |Appended(args)|
    ensures |Values(OverwriteKargs(args), "--karg")| == |Appended(args)| <==> !HasFlagPair(args)
    ensures !HasFlagPair(args) ==> Values(OverwriteKargs(args), "--karg") == Appended(args)
  {
    if |args| < 2 {
    } else if args[0] != APPEND {
      ScansOfOther(args);
      ScansCompared(args[1..]);
    } else {
      SkippingScanOfFlag(args);
      OtherScanOfFlag(args);
      FlagPairAhead(args);
      ScansCompared(args[2..]);
    }
  }

  /** Both scans append the same arguments exactly when no two flags in a row have a third argument
      behind them. */
  lemma ScansAgreeIffNoFlagPair(args: seq<string>)
    ensures Values(InstallKargs(args), "--append") == Values(OverwriteKargs(args), "--karg")
            <==> !HasFlagPair(args)
  {
    ValuesAppended(args);
    ScansCompared(args);
  }

  /** Two flags in a row and an argument: one scan appends the second flag only, the other both. */
  lemma FlagPairDivides(arg: string)
    requires arg != APPEND
    ensures Values(InstallKargs([APPEND, APPEND, arg]), "--append") == [APPEND, arg]
    ensures Values(OverwriteKargs([APPEND, APPEND, arg]), "--karg") == [APPEND]
  {
    var args := [APPEND, APPEND, arg];
    ValuesAppended(args);
    SkippingScanOfFlag(args);
    assert args[2..] == [arg] && args[1..] == [APPEND, arg] && args[1..][1..] == [arg];
    assert Appended([APPEND, arg]) == [arg] + Appended([arg]);
    assert Appended(args) == [APPEND] + Appended([APPEND, arg]);
  }

  /** The arguments behind delete flags. */
  function Deleted(args: seq<string>): seq<string> {
    if |args| < 2 then []
    else (if args[0] == "--delete-karg" then [args[1]] else []) + Deleted(args[1..])
  }

  /** What is applied: every argument behind an append flag is appended, every argument behind a delete flag
      deleted if present, each in order, and nothing else is passed on. */
  lemma {:induction false} AppliesAppendsAndDeletes(args: seq<string>)
    ensures Values(InstallKargs(args), "--append") == Appended(args)
    ensures Values(InstallKargs(args), "--delete-if-present") == Deleted(args)
    ensures |InstallKargs(args)| == 2 * (|Appended(args)| + |Deleted(args)|)
  {
    ValuesAppended(args);
    if |args| >= 2 {
      AppliesAppendsAndDeletes(args[1..]);
      if args[0] == APPEND || args[0] == DELETE {
        assert InstallKargs(args)[2..] == InstallKargs(args[1..]);
      } else {
        assert InstallKargs(args) == InstallKargs(args[1..]);
      }
    }
  }

  /** Each change is passed on at its flag's place: the scan of two parts is the scan of the first with one
      argument more, and then of the second. */
  lemma {:induction false} InstallConcat(a: seq<string>, b: seq<string>)
    requires |b| > 0
    ensures InstallKargs(a + b) == InstallKargs(a + [b[0]]) + InstallKargs(b)
  {
    if |a| == 0 {
      assert a + b == b && a + [b[0]] == [b[0]];
    } else {
      assert (a + b)[1..] == a[1..] + b && (a + [b[0]])[1..] == a[1..] + [b[0]];
      InstallConcat(a[1..], b);
      var change := if a[0] == APPEND then ["--append", (a + b)[1]]
                    else if a[0] == DELETE then ["--delete-if-present", (a + b)[1]] else [];
      assert (a + b)[1] == (a + [b[0]])[1];
      Associative(change, InstallKargs(a[1..] + [b[0]]), InstallKargs(b));
    }
  }

  /** The flags in the words the user writes. */
  lemma FlagsAsWritten(x: string, y: string)
    requires x != "--append-karg" && x != "--delete-karg"
    ensures InstallKargs(["--append-karg", x, "--delete-karg", y])
         == ["--append", x, "--delete-if-present", y]
    ensures InstallerKargs([x]) == ["--append-karg", x]
    ensures OverwriteKargs(["--append-karg", x]) == ["--karg", x]
  {
    var args := ["--append-karg", x, "--delete-karg", y];
    assert args[1..] == [x, "--delete-karg", y] && args[1..][1..] == ["--delete-karg", y];
    assert args[1..][1..][1..] == [y] && InstallKargs([y]) == [];
    assert InstallKargs(args[1..][1..]) == ["--delete-if-present", y];
    assert InstallKargs(args[1..]) == InstallKargs(args[1..][1..]);
    assert InstallerKargs([x][1..]) == [] && OverwriteKargs(["--append-karg", x][2..]) == [];
  }

  /** Nothing is run exactly when no flag has an argument behind it. */
  lemma {:induction false} NothingToApply(args: seq<string>)
    ensures InstallKargs(args) == []
            <==> forall i | 0 <= i < |args| - 1 :: args[i] != APPEND && args[i] != DELETE
  {
    if |args| >= 2 {
      NothingToApply(args[1..]);
      assert forall i | 0 <= i < |args| - 2 :: args[1..][i] == args[i + 1];
      assert forall i | 0 < i < |args| - 1 :: args[i] == args[1..][i - 1];
    }
  }
}
