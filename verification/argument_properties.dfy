/**
 Consequences of the parser's behaviour, each proved through the reference
 description in `ArgumentReference`.
 */
module ArgumentProperties {
  import opened CaseFold
  import opened Arguments
  import opened ArgumentReference

  /** Before any `--patch`, an argument that is not `--update` terminates the process with 1. */
  lemma UnknownBeforePatchIsFatal(args: seq<string>, i: nat)
    requires i < |args|
    requires forall j :: 0 <= j <= i ==> !IsPatchFlag(args[j])
    requires !IsUpdateFlag(args[i])
    ensures Parse(args) == Exit(1)
  {
    ParseMatchesReference(args);
    assert FirstPatchFlag(args) > i;
  }

  /** Before any `--patch`, a second `--update` counts as unknown and terminates the process with 1. */
  lemma RepeatedUpdateBeforePatchIsFatal(args: seq<string>, i: nat, j: nat)
    requires i < j < |args|
    requires IsUpdateFlag(args[i]) && IsUpdateFlag(args[j])
    requires forall k :: 0 <= k <= j ==> !IsPatchFlag(args[k])
    ensures Parse(args) == Exit(1)
  {
    ParseMatchesReference(args);
    assert FirstPatchFlag(args) > j;
  }

  /** The list `args` with the argument at index `i` removed. */
  function Without(args: seq<string>, i: nat): (b: seq<string>)
    requires i < |args|
    ensures |b| == |args| - 1
    ensures forall k :: 0 <= k < i ==> b[k] == args[k]
    ensures forall k :: i <= k < |b| ==> b[k] == args[k + 1]
  {
    args[..i] + args[i + 1..]
  }

  /** Past the removed argument, path slots of the shorter list are those of the longer one shifted by one. */
  lemma {:induction false} PathFromShifted(args: seq<string>, i: nat, m: nat)
    requires i < |args|
    requires i <= m <= |args| - 1
    decreases |args| - m
    ensures PathFrom(Without(args, i), m) == PathFrom(args, m + 1)
  {
    var b := Without(args, i);
    if m + 1 < |b| {
      assert b[m] == args[m + 1] && b[m + 1] == args[m + 2];
      assert PathSlot(b, m) <==> PathSlot(args, m + 1);
      PathFromShifted(args, i, m + 1);
    }
  }

  /** Before the removed argument, the two lists have the same path, provided removing it
      makes no new `--patch` adjacent to a path. */
  lemma {:induction false} PathFromBeforeRemoval(args: seq<string>, i: nat, m: nat)
    requires 0 < i < |args|
    requires !IsPatchFlag(args[i - 1]) && !IsPatchFlag(args[i])
    requires m <= i
    decreases i - m
    ensures PathFrom(Without(args, i), m) == PathFrom(args, m)
  {
    var b := Without(args, i);
    if m == i {
      PathFromShifted(args, i, i);
      assert !PathSlot(args, i);
    } else {
      PathFromBeforeRemoval(args, i, m + 1);
      assert PathSlot(b, m) <==> PathSlot(args, m);
    }
  }

  /**
   Once a `--patch` has been seen, an argument that is neither a `--patch`
   nor the path after one, and that is not the only `--update`, is ignored:
   removing it does not change the outcome.
   */
  lemma IgnoredAfterPatch(args: seq<string>, i: nat)
    requires 0 < i < |args|
    requires exists j :: 0 <= j < i && IsPatchFlag(args[j])
    requires !IsPatchFlag(args[i - 1]) && !IsPatchFlag(args[i])
    requires IsUpdateFlag(args[i]) ==> exists j :: 0 <= j < |args| && j != i && IsUpdateFlag(args[j])
    ensures Parse(Without(args, i)) == Parse(args)
  {
    var b := Without(args, i);
    ParseMatchesReference(args);
    ParseMatchesReference(b);
    var p := FirstPatchFlag(args);
    assert p < i;
    assert FirstPatchFlag(b) == p by {
      assert b[p] == args[p];
    }
    assert p == 1 ==> b[0] == args[0];
    assert AnyUpdateFlag(b) == AnyUpdateFlag(args) by {
      if AnyUpdateFlag(args) {
        var j :| 0 <= j < |args| && IsUpdateFlag(args[j]);
        if j == i {
          j :| 0 <= j < |args| && j != i && IsUpdateFlag(args[j]);
        }
        if j < i { assert b[j] == args[j]; } else { assert b[j - 1] == args[j]; }
      }
      if AnyUpdateFlag(b) {
        var j :| 0 <= j < |b| && IsUpdateFlag(b[j]);
        if j < i { assert args[j] == b[j]; } else { assert args[j + 1] == b[j]; }
      }
    }
    PathFromBeforeRemoval(args, i, 0);
  }

  /** The argument after `--patch` is taken as the path and then examined again: here it also
      requests an update, or is a `--patch` that is ignored because a path is already set. */
  lemma ArgumentAfterPatchReexamined()
    ensures Parse(["--patch", "--update"]) == Proceed(true, "--update")
    ensures Parse(["--patch", "--patch"]) == Proceed(false, "--patch")
  {
  }

  /** An upper-case `--PATCH` is honoured like `--patch`. */
  lemma UpperCasePatchHonoured()
    ensures Parse(["--PATCH", "game.exe"]) == Proceed(false, "game.exe")
  {
    UpperCaseFlagsRecognised();
    var c := ["--PATCH", "game.exe"];
    ParseMatchesReference(c);
    assert PathSlot(c, 0);
    assert FoldChar(c[1][0]) != FoldChar(UpdateFlag[0]);
    assert !IsUpdateFlag(c[0]) && !IsUpdateFlag(c[1]);
  }

  /** After the path, an unknown argument and a repeated `--update` are ignored. */
  lemma LaterArgumentsIgnored()
    ensures Parse(["--patch", "game.exe", "--bogus", "--update", "--update"]) == Proceed(true, "game.exe")
  {
  }

  /** A `--patch` as the last argument sets no path: the run is update-only, or fails when
      no update was requested either. */
  lemma TrailingPatchSetsNoPath()
    ensures Parse(["--update", "--patch"]) == Proceed(true, "")
    ensures Parse(["--patch"]) == Exit(1)
  {
  }

  /** A repeated `--update`, or a bare path, before any `--patch` is fatal. */
  lemma FatalBeforePatch()
    ensures Parse(["--update", "--update"]) == Exit(1)
    ensures Parse(["game.exe", "--patch"]) == Exit(1)
  {
    assert FoldChar("game.exe"[0]) != FoldChar(UpdateFlag[0]);
    UnknownBeforePatchIsFatal(["game.exe", "--patch"], 0);
    RepeatedUpdateBeforePatchIsFatal(["--update", "--update"], 0, 1);
  }
}
