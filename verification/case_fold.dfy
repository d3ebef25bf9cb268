/**
 Case-insensitive recognition of the two command-line flags.

 The program compares each argument with `--patch` and `--update` using the
 invariant culture, ignoring case. This module approximates that comparison
 with an ASCII case fold: upper-case letters 'A'..'Z' are folded to their
 lower-case forms and every other character is compared as it is. Both flag
 names are plain ASCII, so the approximation differs from the culture-aware
 comparison only for arguments containing non-ASCII characters, or ASCII
 control characters, that culture-aware comparison ignores or treats as
 equal to ASCII letters.
 */
module CaseFold {

  /** True iff `c` is an ASCII upper-case letter. */
  predicate IsUpper(c: char)
  {
    'A' <= c <= 'Z'
  }

  /** Folds one ASCII upper-case letter to lower case; every other character is unchanged. */
  function FoldChar(c: char): (d: char)
    // the folded form is never an upper-case letter
    ensures !IsUpper(d)
  {
    if IsUpper(c) then (c as int + 32) as char else c
  }

  /** Folding twice is folding once. */
  lemma FoldCharIdempotent(c: char)
    ensures FoldChar(FoldChar(c)) == FoldChar(c)
  {
  }

  /** Two characters fold alike exactly when they are equal or are the upper- and
      lower-case forms of one ASCII letter. */
  lemma FoldCharEqual(c: char, d: char)
    ensures FoldChar(c) == FoldChar(d) <==>
              c == d ||
              (IsUpper(c) && d as int == c as int + 32) ||
              (IsUpper(d) && c as int == d as int + 32)
  {
  }

  /** True iff `a` and `b` have the same length and agree character by character after folding. */
  predicate EqualsIgnoreCase(a: string, b: string)
  {
    |a| == |b| && forall i :: 0 <= i < |a| ==> FoldChar(a[i]) == FoldChar(b[i])
  }

  /** Equality up to case is an equivalence relation. */
  lemma EqualsIgnoreCaseIsEquivalence(a: string, b: string, c: string)
    ensures EqualsIgnoreCase(a, a)
    ensures EqualsIgnoreCase(a, b) ==> EqualsIgnoreCase(b, a)
    ensures EqualsIgnoreCase(a, b) && EqualsIgnoreCase(b, c) ==> EqualsIgnoreCase(a, c)
  {
  }

  const PatchFlag: string := "--patch"
  const UpdateFlag: string := "--update"

  /** The argument names the `--patch` option, in any letter case. */
  predicate IsPatchFlag(s: string)
  {
    EqualsIgnoreCase(s, PatchFlag)
  }

  /** The argument names the `--update` option, in any letter case. */
  predicate IsUpdateFlag(s: string)
  {
    EqualsIgnoreCase(s, UpdateFlag)
  }

  /** The spellings accepted as `--patch`: each character is the option name's character,
      or the upper-case form of that letter. */
  lemma PatchFlagSpelled(s: string)
    ensures IsPatchFlag(s) <==>
              |s| == |PatchFlag| &&
              forall i :: 0 <= i < |s| ==>
                s[i] == PatchFlag[i] || (IsUpper(s[i]) && s[i] as int + 32 == PatchFlag[i] as int)
  {
    if |s| == |PatchFlag| {
      forall i | 0 <= i < |s| {
        FoldCharEqual(s[i], PatchFlag[i]);
      }
    }
  }

  /** The spellings accepted as `--update`: each character is the option name's character,
      or the upper-case form of that letter. */
  lemma UpdateFlagSpelled(s: string)
    ensures IsUpdateFlag(s) <==>
              |s| == |UpdateFlag| &&
              forall i :: 0 <= i < |s| ==>
                s[i] == UpdateFlag[i] || (IsUpper(s[i]) && s[i] as int + 32 == UpdateFlag[i] as int)
  {
    if |s| == |UpdateFlag| {
      forall i | 0 <= i < |s| {
        FoldCharEqual(s[i], UpdateFlag[i]);
      }
    }
  }

  /** No argument is recognised as both options: the two names differ in length. */
  lemma FlagsExclusive(s: string)
    ensures !(IsPatchFlag(s) && IsUpdateFlag(s))
  {
  }

  /** Recognition depends only on the folded form: two arguments equal up to case are
      recognised alike. */
  lemma FlagsIgnoreCase(s: string, t: string)
    requires EqualsIgnoreCase(s, t)
    ensures IsPatchFlag(s) <==> IsPatchFlag(t)
    ensures IsUpdateFlag(s) <==> IsUpdateFlag(t)
  {
  }

  /** Upper- and mixed-case spellings of the options are recognised. */
  lemma UpperCaseFlagsRecognised()
    ensures IsPatchFlag("--PATCH") && IsPatchFlag("--Patch")
    ensures IsUpdateFlag("--UPDATE") && IsUpdateFlag("--UpDate")
    ensures !IsPatchFlag("-patch") && !IsPatchFlag("--patch ")
  {
  }
}
