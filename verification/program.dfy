/**
 The phase sequence of the patcher's entry point and the exit code it ends with.

 After parsing, the entry point runs up to four phases in a fixed order:
 checking for (and downloading) updated patch definitions, loading the
 definitions, detecting the game build, and applying the build's patches.
 The patch engine behind these phases is not part of this model; what each
 call to it does is an input here (`Collaborators`), and the model decides
 which phases run and which exit code the process ends with. A thrown
 exception is the `...Threw` outcome of the phase that threw it.
 */
module Program {
  import opened Arguments
  import opened ArgumentReference

  /** The update phase: no newer definitions, newer definitions downloaded, or an exception. */
  datatype UpdateOutcome = UpToDate | Downloaded | UpdateThrew

  /** Loading the definitions file, followed by the question whether any patch was loaded.
      Only the load itself is guarded against exceptions; the question is assumed to answer. */
  datatype LoadOutcome = Loaded(anyPatchesLoaded: bool) | LoadThrew

  /** Build detection: a supported build with its number of patches, no supported build, or an exception. */
  datatype BuildOutcome = Detected(patchCount: nat) | Unsupported | DetectThrew

  /** Applying the patches: the success flag of every result, in the order reported, or an exception. */
  datatype ApplyOutcome = Applied(successFlags: seq<bool>) | ApplyThrew

  /** What the patch engine answers in each phase, should that phase run. */
  datatype Collaborators = Collaborators(
    update: UpdateOutcome,
    load: LoadOutcome,
    build: BuildOutcome,
    apply: ApplyOutcome)

  datatype Phase = CheckUpdate | LoadDefinitions | DetectBuild | ApplyPatches

  /** A run of the program: the phases it entered, in order, and its exit code. */
  datatype Run = Run(phases: seq<Phase>, exitCode: int)

  /** The phases after the optional update, in the order they run. */
  const PatchPhases: seq<Phase> := [LoadDefinitions, DetectBuild, ApplyPatches]

  /** The number of results whose success flag is set, counted left to right as the
      patch loop does. */
  function Successes(flags: seq<bool>): (n: nat)
    ensures n <= |flags|
    ensures n == |flags| <==> forall i :: 0 <= i < |flags| ==> flags[i]
    ensures n == 0 <==> forall i :: 0 <= i < |flags| ==> !flags[i]
  {
    if |flags| == 0 then 0
    else Successes(flags[..|flags| - 1]) + (if flags[|flags| - 1] then 1 else 0)
  }

  /** The loop's count is the number of `true` results, whatever their order. */
  lemma {:induction false} SuccessesCountsTrue(flags: seq<bool>)
    ensures Successes(flags) == multiset(flags)[true]
  {
    if |flags| > 0 {
      var init := flags[..|flags| - 1];
      SuccessesCountsTrue(init);
      assert flags == init + [flags[|flags| - 1]];
      assert multiset(flags) == multiset(init) + multiset{flags[|flags| - 1]};
    }
  }

  /** Whether phase `ph` fails under the given answers of the patch engine. Loading fails
      when reading the definitions throws and also when no patch was loaded (that question
      is assumed to return normally); detection fails when it throws and also when it finds
      no supported build. */
  predicate Failed(env: Collaborators, ph: Phase)
  {
    match ph
    case CheckUpdate => env.update.UpdateThrew?
    case LoadDefinitions => env.load.LoadThrew? || !env.load.anyPatchesLoaded
    case DetectBuild => !env.build.Detected?
    case ApplyPatches => env.apply.ApplyThrew?
  }

  /** The patch phase ended with as many successes as the detected build has patches. */
  predicate AllCounted(env: Collaborators)
  {
    env.build.Detected? && env.apply.Applied? &&
    Successes(env.apply.successFlags) == env.build.patchCount
  }

  /**
   The phases that follow a successful parse, and the resulting exit code.
   A failing phase exits with 1 at once; with no path the run stops after
   the update with 0; otherwise it exits with 0 exactly when the number of
   successful patch results equals the build's patch count.
   */
  function RunPhases(performUpdate: bool, filePath: string, env: Collaborators): (r: Run)
    ensures r.exitCode == 0 || r.exitCode == 1
    // the update phase runs first, exactly when requested; then a prefix of the patch phases
    ensures exists m :: 0 <= m <= |PatchPhases| &&
              r.phases == (if performUpdate then [CheckUpdate] else []) + PatchPhases[..m]
    // definitions are loaded only when there is a path to patch
    ensures LoadDefinitions in r.phases ==> filePath != ""
    // every phase but the last one entered succeeded: nothing runs after a failure
    ensures forall k :: 0 <= k < |r.phases| - 1 ==> !Failed(env, r.phases[k])
    // success: no phase entered failed, and a patch phase entered counted every patch
    ensures r.exitCode == 0 <==>
              (forall k :: 0 <= k < |r.phases| ==> !Failed(env, r.phases[k])) &&
              (ApplyPatches in r.phases ==> AllCounted(env))
    // with a path, every phase must be entered for the run to succeed
    ensures filePath != "" && r.exitCode == 0 ==> ApplyPatches in r.phases
  {
    var updated := if performUpdate then [CheckUpdate] else [];
    // witnesses for the prefix of patch phases entered: none, or all of them
    assert updated == updated + PatchPhases[..0] && PatchPhases == PatchPhases[..3];
    if performUpdate && env.update.UpdateThrew? then
      assert updated[0] == CheckUpdate;
      Run(updated, 1)
    else if filePath == "" then
      Run(updated, 0)
    else if Failed(env, LoadDefinitions) then
      assert (updated + PatchPhases[..1])[|updated|] == LoadDefinitions;
      Run(updated + PatchPhases[..1], 1)
    else if Failed(env, DetectBuild) then
      assert (updated + PatchPhases[..2])[|updated| + 1] == DetectBuild;
      Run(updated + PatchPhases[..2], 1)
    else if Failed(env, ApplyPatches) then
      Run(updated + PatchPhases, 1)
    else
      Run(updated + PatchPhases, if AllCounted(env) then 0 else 1)
  }

  /** The whole entry point: parsing, then the phases. */
  function Execute(args: seq<string>, env: Collaborators): (r: Run)
    ensures r.exitCode == 0 || r.exitCode == 1
    // with no arguments, only the usage text is printed and the process exits with 1
    ensures |args| == 0 ==> r == Run([], 1)
    // the patch engine is consulted only after a successful parse
    ensures Parse(args).Exit? ==> r.phases == [] && r.exitCode == 1
  {
    match Parse(args)
    case Exit(code) => Run([], code)
    case Proceed(performUpdate, filePath) => RunPhases(performUpdate, filePath, env)
  }

  /** The phases' exit code, stated phase by phase: 0 exactly when a requested update did
      not throw, and, if a path was given, the definitions loaded some patch, a build was
      detected, applying did not throw, and the successes equal the build's patch count. */
  lemma ExitCodeZeroIff(performUpdate: bool, filePath: string, env: Collaborators)
    ensures RunPhases(performUpdate, filePath, env).exitCode == 0 <==>
              (performUpdate ==> env.update != UpdateThrew) &&
              (filePath != "" ==>
                 env.load == Loaded(true) &&
                 (exists count :: env.build == Detected(count) &&
                   exists flags :: env.apply == Applied(flags) && multiset(flags)[true] == count))
  {
    var r := RunPhases(performUpdate, filePath, env);
    if env.apply.Applied? {
      SuccessesCountsTrue(env.apply.successFlags);
    }
    if r.exitCode == 0 && filePath != "" {
      assert ApplyPatches in r.phases;
      var pre := if performUpdate then [CheckUpdate] else [];
      assert r.phases == pre + PatchPhases;
      assert r.phases[|pre|] == LoadDefinitions && r.phases[|pre| + 1] == DetectBuild;
      assert r.phases[|pre| + 2] == ApplyPatches;
    }
  }

  /** When the engine reports exactly one result per patch, the run succeeds exactly when
      every result is a success. */
  lemma OneResultPerPatch(performUpdate: bool, filePath: string, env: Collaborators)
    requires filePath != ""
    requires env.build.Detected? && env.apply.Applied?
    requires |env.apply.successFlags| == env.build.patchCount
    ensures RunPhases(performUpdate, filePath, env).exitCode == 0 <==>
              (performUpdate ==> env.update != UpdateThrew) &&
              env.load == Loaded(true) &&
              forall i :: 0 <= i < |env.apply.successFlags| ==> env.apply.successFlags[i]
  {
  }

  /** An update-only run never loads the definitions: it exits with 0 unless the update threw. */
  lemma UpdateOnlyRun(args: seq<string>, env: Collaborators)
    requires Parse(args) == Proceed(true, "")
    ensures Execute(args, env).phases == [CheckUpdate]
    ensures Execute(args, env).exitCode == (if env.update == UpdateThrew then 1 else 0)
  {
  }

  /** The whole program's exit code, stated on the argument list itself. */
  lemma ExecuteExitCodeZeroIff(args: seq<string>, env: Collaborators)
    ensures Execute(args, env).exitCode == 0 <==>
              PrefixAllowed(args) &&
              (AnyUpdateFlag(args) || PathArgument(args) != "") &&
              (AnyUpdateFlag(args) ==> env.update != UpdateThrew) &&
              (PathArgument(args) != "" ==>
                 env.load == Loaded(true) && AllCounted(env))
  {
    ParseMatchesReference(args);
  }
}
