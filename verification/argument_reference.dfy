/**
 A description of what the parser accepts that does not follow its loop.

 Read as a whole, the loop's behaviour comes down to three facts about the
 argument list:
 - before the first `--patch`, the only argument allowed is a single `--update`;
 - an update is requested iff `--update` appears anywhere;
 - the path is the argument after the first `--patch` that is followed by a
   non-empty argument (a `--patch` followed by an empty argument sets an
   empty path, which a later `--patch` may still replace).
 `Expected` states the outcome from these facts, and `ParseMatchesReference`
 proves that it equals `Parse` on every argument list.
 */
module ArgumentReference {
  import opened CaseFold
  import opened Arguments

  /** The index of the first `--patch`, or the number of arguments when there is none. */
  function FirstPatchFlag(args: seq<string>): (p: nat)
    ensures p <= |args|
    ensures forall j :: 0 <= j < p ==> !IsPatchFlag(args[j])
    ensures p < |args| ==> IsPatchFlag(args[p])
  {
    if |args| == 0 then 0
    else if IsPatchFlag(args[0]) then 0
    else 1 + FirstPatchFlag(args[1..])
  }

  /** Nothing but one `--update` comes before the first `--patch`. */
  predicate PrefixAllowed(args: seq<string>)
  {
    var p := FirstPatchFlag(args);
    p == 0 || (p == 1 && IsUpdateFlag(args[0]))
  }

  /** Some argument at index `i` or later is `--update`. */
  predicate UpdateFrom(args: seq<string>, i: nat)
  {
    exists j :: i <= j < |args| && IsUpdateFlag(args[j])
  }

  /** Some argument is `--update`. */
  predicate AnyUpdateFlag(args: seq<string>)
  {
    UpdateFrom(args, 0)
  }

  /** Index `k` is a `--patch` followed by a non-empty argument. */
  predicate PathSlot(args: seq<string>, k: int)
  {
    0 <= k && k + 1 < |args| && IsPatchFlag(args[k]) && args[k + 1] != ""
  }

  /** The argument after the first path slot at index `i` or later, or empty when there is none. */
  function PathFrom(args: seq<string>, i: nat): string
    requires i <= |args|
    decreases |args| - i
  {
    if i + 1 >= |args| then ""
    else if PathSlot(args, i) then args[i + 1]
    else PathFrom(args, i + 1)
  }

  /** `PathFrom` is empty exactly when there is no path slot at `i` or later, and otherwise
      it is the argument after the first such slot. */
  lemma {:induction false} PathFromIsFirstSlot(args: seq<string>, i: nat)
    requires i <= |args|
    decreases |args| - i
    ensures PathFrom(args, i) == "" <==> forall k :: i <= k < |args| ==> !PathSlot(args, k)
    ensures PathFrom(args, i) != "" ==>
              exists k :: i <= k < |args| && PathSlot(args, k) && PathFrom(args, i) == args[k + 1] &&
                          forall j :: i <= j < k ==> !PathSlot(args, j)
  {
    if i + 1 < |args| && !PathSlot(args, i) {
      PathFromIsFirstSlot(args, i + 1);
    }
  }

  /** The path the parser is expected to pick from the whole argument list. */
  function PathArgument(args: seq<string>): string
  {
    PathFrom(args, 0)
  }

  /** The parse outcome stated from the three facts above. */
  function Expected(args: seq<string>): ParseOutcome
  {
    if !PrefixAllowed(args) then Exit(1)
    else if !AnyUpdateFlag(args) && PathArgument(args) == "" then Exit(1)
    else Proceed(AnyUpdateFlag(args), PathArgument(args))
  }

  /** From the first `--patch` on, the loop never stops early: it collects every later
      `--update` and, unless a path is already set, the path of the first later path slot. */
  lemma {:induction false} ScanAfterPatch(args: seq<string>, i: nat, st: ParseState)
    requires i <= |args|
    requires st.patch
    decreases |args| - i
    ensures Scan(args, i, st) ==
            Finished(ParseState(st.performUpdate || UpdateFrom(args, i),
                                if st.filePath != "" then st.filePath else PathFrom(args, i),
                                true))
  {
    if i < |args| {
      FlagsExclusive(args[i]);
      assert UpdateFrom(args, i) <==> IsUpdateFlag(args[i]) || UpdateFrom(args, i + 1) by {
        if UpdateFrom(args, i) {
          var j :| i <= j < |args| && IsUpdateFlag(args[j]);
          assert j == i || (i + 1 <= j < |args| && IsUpdateFlag(args[j]));
        }
      }
      var s := Step(args, i, st).state;
      ScanAfterPatch(args, i + 1, s);
    }
  }

  /** The parser and the reference description agree on every argument list. */
  lemma {:induction false} ParseMatchesReference(args: seq<string>)
    ensures Parse(args) == Expected(args)
  {
    var n := |args|;
    if n == 0 {
      assert !AnyUpdateFlag(args);
    } else {
      FlagsExclusive(args[0]);
      assert UpdateFrom(args, 0) <==> IsUpdateFlag(args[0]) || UpdateFrom(args, 1) by {
        if UpdateFrom(args, 0) {
          var j :| 0 <= j < n && IsUpdateFlag(args[j]);
          assert j == 0 || (1 <= j < n && IsUpdateFlag(args[j]));
        }
      }
      if IsPatchFlag(args[0]) {
        var s := Step(args, 0, Initial).state;
        ScanAfterPatch(args, 1, s);
      } else if IsUpdateFlag(args[0]) {
        var s1 := Step(args, 0, Initial).state;
        assert s1 == ParseState(true, "", false);
        if n > 1 {
          FlagsExclusive(args[1]);
          assert UpdateFrom(args, 1) <==> IsUpdateFlag(args[1]) || UpdateFrom(args, 2) by {
            if UpdateFrom(args, 1) {
              var j :| 1 <= j < n && IsUpdateFlag(args[j]);
              assert j == 1 || (2 <= j < n && IsUpdateFlag(args[j]));
            }
          }
          assert FirstPatchFlag(args) == 1 + FirstPatchFlag(args[1..]);
          if IsPatchFlag(args[1]) {
            assert args[1..][0] == args[1];
            var s2 := Step(args, 1, s1).state;
            assert Scan(args, 0, Initial) == Scan(args, 1, s1) == Scan(args, 2, s2);
            assert PathFrom(args, 0) == PathFrom(args, 1);
            ScanAfterPatch(args, 2, s2);
          } else {
            assert args[1..][0] == args[1];
            assert FirstPatchFlag(args) > 1;
            assert Step(args, 1, s1) == Abort;
            assert Scan(args, 0, Initial) == Scan(args, 1, s1) == Aborted;
          }
        } else {
          assert FirstPatchFlag(args) == 1 + FirstPatchFlag(args[1..]) == 1;
          assert Scan(args, 0, Initial) == Scan(args, 1, s1) == Finished(s1);
        }
      } else {
        assert FirstPatchFlag(args) >= 1;
      }
    }
  }
}
