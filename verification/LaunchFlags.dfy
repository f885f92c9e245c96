/** The flags that put the worker into its JSON mode: added at launch, removed for display. */
module LaunchFlags {

  const MODE := "--mode"
  const JSON := "json"
  const NO_SESSION := "--no-session"

  function LaunchArgs(extra: seq<string>): seq<string> {
    extra + [MODE, JSON, NO_SESSION]
  }

  /** They end in the three flags. */
  lemma LaunchArgsAre(extra: seq<string>)
    ensures LaunchArgs(extra)[..|extra|] == extra && LaunchArgs(extra)[|extra|..] == ["--mode", "json", "--no-session"]
  {
  }

  /** Without the pairs `--mode json` and without `--no-session`. */
  function Removed(args: seq<string>): seq<string> {
    if |args| == 0 then []
    else if args[0] == MODE && |args| > 1 && args[1] == JSON then Removed(args[2..])
    else if args[0] == NO_SESSION then Removed(args[1..])
    else [args[0]] + Removed(args[1..])
  }

  method RemoveJsonModeFlags(args: seq<string>) returns (filtered: seq<string>)
    ensures filtered == Removed(args)
  {
    filtered := [];
    var index := 0;
    assert args[0..] == args;
    while index < |args|
      invariant index <= |args| && filtered + Removed(args[index..]) == Removed(args)
    {
      ghost var rest := args[index..];
      if args[index] == MODE && index + 1 < |args| && args[index + 1] == JSON {
        assert rest[2..] == args[index + 2..];
        index := index + 2;
        continue;
      }
      assert rest[1..] == args[index + 1..];
      if args[index] == NO_SESSION {
        index := index + 1;
        continue;
      }
      assert filtered + ([args[index]] + Removed(args[index + 1..])) == filtered + [args[index]] + Removed(args[index + 1..]);
      filtered := filtered + [args[index]];
      index := index + 1;
    }
  }

  /** The argument is `--no-session`, or one of a pair `--mode json`. */
  predicate Dropped(args: seq<string>, i: nat)
    requires i < |args|
  {
    || args[i] == "--no-session"
    || (args[i] == "--mode" && i + 1 < |args| && args[i + 1] == "json")
    || (args[i] == "json" && i > 0 && args[i - 1] == "--mode")
  }

  /** The others from the i-th on, in order. */
  function Undropped(args: seq<string>, i: nat): seq<string>
    requires i <= |args|
    decreases |args| - i
  {
    if i == |args| then [] else (if Dropped(args, i) then [] else [args[i]]) + Undropped(args, i + 1)
  }

  lemma OneDropped(args: seq<string>, i: nat)
    requires i < |args|
    ensures Undropped(args, i) == if Dropped(args, i) then Undropped(args, i + 1) else [args[i]] + Undropped(args, i + 1)
  {
  }

  lemma RemovedAt(args: seq<string>, i: nat)
    requires i < |args|
    ensures Removed(args[i..])
         == if args[i] == MODE && i + 1 < |args| && args[i + 1] == JSON then Removed(args[i + 2..])
            else if args[i] == NO_SESSION then Removed(args[i + 1..])
            else [args[i]] + Removed(args[i + 1..])
  {
    var rest := args[i..];
    assert rest[1..] == args[i + 1..];
    if i + 1 < |args| {
      assert rest[1] == args[i + 1] && rest[2..] == args[i + 2..];
    }
  }

  lemma {:induction false} RemovedFrom(args: seq<string>, i: nat)
    requires i <= |args| && (0 < i < |args| ==> !(args[i - 1] == MODE && args[i] == JSON))
    ensures Removed(args[i..]) == Undropped(args, i)
    decreases |args| - i
  {
    if i < |args| {
      RemovedAt(args, i);
      OneDropped(args, i);
      if args[i] == MODE && i + 1 < |args| && args[i + 1] == JSON {
        OneDropped(args, i + 1);
        RemovedFrom(args, i + 2);
      } else {
        RemovedFrom(args, i + 1);
      }
    }
  }

  /** Exactly these are removed: a `--mode` with another value stays, and so does a `json` without one. */
  lemma ExactlyFlagsAreRemoved(args: seq<string>)
    ensures Removed(args) == Undropped(args, 0)
  {
    RemovedFrom(args, 0);
    assert args[0..] == args;
  }

  /** The arguments that are none of the three flags. */
  function Others(args: seq<string>): seq<string> {
    if |args| == 0 then []
    else (if args[0] == MODE || args[0] == JSON || args[0] == NO_SESSION then [] else [args[0]]) + Others(args[1..])
  }

  ghost predicate IsSubsequence(a: seq<string>, b: seq<string>) {
    |a| == 0 || (|b| > 0 && ((a[0] == b[0] && IsSubsequence(a[1..], b[1..])) || IsSubsequence(a, b[1..])))
  }

  /** Only flags are dropped, every `--no-session` is, and what is left keeps its order. */
  lemma {:induction false} OnlyFlagsAreRemoved(args: seq<string>)
    ensures Others(Removed(args)) == Others(args)
    ensures NO_SESSION !in Removed(args)
    ensures IsSubsequence(Removed(args), args)
    decreases |args|
  {
    if |args| > 0 {
      if args[0] == MODE && |args| > 1 && args[1] == JSON {
        OnlyFlagsAreRemoved(args[2..]);
        assert args[1..][1..] == args[2..];
        assert IsSubsequence(Removed(args), args[1..]);
      } else {
        OnlyFlagsAreRemoved(args[1..]);
        if args[0] != NO_SESSION {
          assert Removed(args)[1..] == Removed(args[1..]);
        }
      }
    }
  }

  /** Removing undoes adding: what is left of the launch arguments is what is left of the extra ones, even if
      those end in an unfinished `--mode`. */
  lemma {:induction false} RemovedAfterLaunch(extra: seq<string>)
    ensures Removed(LaunchArgs(extra)) == Removed(extra)
    decreases |extra|
  {
    var all := LaunchArgs(extra);
    if |extra| == 0 {
      assert all[2..] == [NO_SESSION] && |all[2..][1..]| == 0;
    } else if extra[0] == MODE && |extra| > 1 && extra[1] == JSON {
      assert all[2..] == LaunchArgs(extra[2..]);
      RemovedAfterLaunch(extra[2..]);
    } else {
      assert all[1..] == LaunchArgs(extra[1..]);
      assert |extra| == 1 ==> all[1] == MODE;
      RemovedAfterLaunch(extra[1..]);
    }
  }
}
