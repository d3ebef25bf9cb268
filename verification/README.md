# EternalPatcher entry point — a verified model

EternalPatcher applies community-maintained binary patches to a game
executable. Its entry point (`EternalPatcher.Main`) does two things, and
both are modelled here:

1. **Argument parsing.** One left-to-right pass over the arguments keeps
   three variables: whether an update was requested, the executable path,
   and whether a `--patch` option has been seen. The pass has some quirks,
   and the model keeps them:
   - the first `--patch` that sets a path wins;
   - the argument after `--patch` becomes the path and is then examined
     again as an option in its own right;
   - an unknown argument, or a second `--update`, ends the process with
     exit code 1, but only before any `--patch` has been seen;
   - options are matched without regard to letter case.
2. **The phase sequence.** Up to four phases run in order: update the
   patch definitions, load them, detect the game build, and apply the
   build's patches. A failing phase ends the run with exit code 1. An
   update-only run ends with 0. A patching run ends with 0 exactly when
   the number of successful patch results equals the build's patch count.

The patch engine behind the phases (`Patcher`, `GameBuild`, `PatchResult`)
is not part of this model. Each call into it is an input: the
`Collaborators` record says what each phase would answer. The model decides
which phases run and the exit code. A call to the process exit routine is
modelled as a returned value: `Exit(code)` for parsing, and `Run(phases,
exitCode)` for the whole program.

Files:
- `case_fold.dfy` — module `CaseFold`: case-insensitive recognition of `--patch` and `--update`.
- `arguments.dfy` — module `Arguments`: the parsing loop (`Step`, `Scan`) and `Parse`.
- `argument_reference.dfy` — module `ArgumentReference`: a description of the parser's outcome that does not follow the loop, and the proof that `Parse` equals it.
- `argument_properties.dfy` — module `ArgumentProperties`: consequences of the parser's behaviour, and worked cases.
- `program.dfy` — module `Program`: the phases, the success count, the exit code, and `Execute` (parsing followed by the phases).

Two details of the parsing pass that the model keeps:
- Unknown arguments are fatal only before the first `--patch`. After it they are ignored (Program.cs:35-41).
- Of several `--patch` options, the first one followed by a non-empty argument sets the path. One followed by an empty argument sets an empty path, which a later `--patch` may still replace (Program.cs:21-28).

## Model

| member | source | states |
|---|---|---|
| CaseFold.PatchFlagSpelled | EternalPatcher/Program.cs:21 | An argument is recognised as `--patch` exactly when it has seven characters and each one is the character of `--patch` at that position or the upper-case form of that letter. This is an ASCII approximation of the invariant-culture ignore-case comparison. |
| CaseFold.UpdateFlagSpelled | EternalPatcher/Program.cs:30 | An argument is recognised as `--update` exactly when it has eight characters and each one is the character of `--update` at that position or the upper-case form of that letter. This is the same ASCII approximation. |
| CaseFold.EqualsIgnoreCaseIsEquivalence | EternalPatcher/Program.cs:21-30 | Equality up to letter case, as used for both comparisons, is reflexive, symmetric and transitive. |
| CaseFold.FoldChar | EternalPatcher/Program.cs:21-30 | The folded form of a character is never an upper-case ASCII letter. |
| CaseFold.FoldCharIdempotent | EternalPatcher/Program.cs:21-30 | Folding a character twice gives the same result as folding it once. |
| CaseFold.FoldCharEqual | EternalPatcher/Program.cs:21-30 | Two characters fold alike exactly when they are equal, or are the upper- and lower-case forms of one ASCII letter. |
| CaseFold.FlagsIgnoreCase | EternalPatcher/Program.cs:21-30 | Two arguments that are equal up to letter case are recognised alike as `--patch` and as `--update`. |
| CaseFold.UpperCaseFlagsRecognised | EternalPatcher/Program.cs:21-30 | `--PATCH`, `--Patch`, `--UPDATE` and `--UpDate` are recognised. Near-misses such as `-patch` and `--patch ` are not. |
| CaseFold.FlagsExclusive | EternalPatcher/Program.cs:21-30 | No argument is recognised as both options. |
| Arguments.Step | EternalPatcher/Program.cs:21-42 | One iteration never replaces a path that is already set. The flags only go from false to true. Once `--patch` has been seen, an iteration never terminates the process. A newly set path is always the argument right after a `--patch`. |
| Arguments.Scan | EternalPatcher/Program.cs:19-43 | Over the rest of the loop, a path once set survives to the end and the flags stay set. After a `--patch`, the loop always runs to completion. |
| Arguments.Parse | EternalPatcher/Program.cs:12-62 | Every exit taken while parsing uses code 1. No arguments gives exit 1. Parsing proceeds only when an update was requested or a path was given. |
| ArgumentReference.PathFromIsFirstSlot | EternalPatcher/Program.cs:21-28 | The chosen path is empty exactly when no `--patch` is followed by a non-empty argument. Otherwise it is the argument after the first such `--patch`. |
| ArgumentReference.ScanAfterPatch | EternalPatcher/Program.cs:19-43 | From a state where `--patch` has been seen, the loop ends without exiting. An update is requested iff `--update` occurs later or was already requested. An already-set path is kept; otherwise the path comes from the first later `--patch` with a non-empty successor. |
| ArgumentReference.ParseMatchesReference | EternalPatcher/Program.cs:12-62 | For every argument list, the parser's outcome equals the reference description. Before the first `--patch`, only a single `--update` is allowed. An update is requested iff `--update` appears anywhere. The path is the argument after the first `--patch` with a non-empty successor. With neither an update nor a path, the result is exit 1. |
| ArgumentProperties.UnknownBeforePatchIsFatal | EternalPatcher/Program.cs:35-41 | Before any `--patch`, an argument that is not `--update` makes parsing exit with 1. |
| ArgumentProperties.RepeatedUpdateBeforePatchIsFatal | EternalPatcher/Program.cs:30-41 | Before any `--patch`, a second `--update` makes parsing exit with 1. |
| ArgumentProperties.IgnoredAfterPatch | EternalPatcher/Program.cs:35-41 | Some arguments can be removed without changing the parse outcome. This holds for any argument after a `--patch` that is not itself a `--patch`, does not follow a `--patch`, and is not the only `--update`. |
| ArgumentProperties.ArgumentAfterPatchReexamined | EternalPatcher/Program.cs:19-33 | `--patch --update` gives path `--update` with an update requested. `--patch --patch` gives path `--patch`. |
| ArgumentProperties.UpperCasePatchHonoured | EternalPatcher/Program.cs:21-28 | `--PATCH game.exe` parses like `--patch game.exe`. |
| ArgumentProperties.LaterArgumentsIgnored | EternalPatcher/Program.cs:30-41 | After the path, an unknown argument and a repeated `--update` are ignored. |
| ArgumentProperties.TrailingPatchSetsNoPath | EternalPatcher/Program.cs:21-62 | A `--patch` as the last argument sets no path. `--update --patch` is an update-only run. `--patch` alone gives exit 1. |
| ArgumentProperties.FatalBeforePatch | EternalPatcher/Program.cs:30-41 | `--update --update` and `game.exe --patch` both give exit 1. |
| Program.Successes | EternalPatcher/Program.cs:144-157 | The success count never exceeds the number of results. It equals that number iff every result succeeded, and is 0 iff none did. |
| Program.SuccessesCountsTrue | EternalPatcher/Program.cs:150-155 | The loop's count equals the number of successful results, whatever their order. |
| Program.RunPhases | EternalPatcher/Program.cs:64-167 | The exit code is 0 or 1. The update phase runs first, exactly when requested. After it, a prefix of load, detect and apply runs. Loading happens only when a path was given. Nothing runs after a failed phase. The exit code is 0 iff no phase that ran failed and, when patches were applied, the success count equals the build's patch count. |
| Program.Execute | EternalPatcher/Program.cs:12-167 | No arguments gives exit 1 with no phase run. A parse that exits runs no phase. The exit code is 0 or 1. |
| Program.ExitCodeZeroIff | EternalPatcher/Program.cs:83-167 | The exit code is 0 exactly when three things hold. A requested update did not throw. If a path was given, loading found patches. If a path was given, a build was detected, applying did not throw, and the number of successful results equals the build's patch count. |
| Program.OneResultPerPatch | EternalPatcher/Program.cs:144-167 | When there is one result per patch, a patching run exits with 0 exactly when the update did not throw, patches were loaded, and every result succeeded. |
| Program.UpdateOnlyRun | EternalPatcher/Program.cs:64-95 | A run with an update and no path enters only the update phase and never loads definitions. It exits with 0 unless the update threw. |
| Program.ExecuteExitCodeZeroIff | EternalPatcher/Program.cs:12-167 | The whole program's exit code, stated on the argument list. It is 0 exactly when all of these hold: the arguments before the first `--patch` are at most one `--update`; some `--update` or path is present; a requested update did not throw; and if there is a path, every patch phase succeeded with a full success count. |

## Left out

- The patch engine: definition parsing, build detection, byte-pattern matching and patch application (`Patcher`, `GameBuild`, `PatchResult`) are not part of this model. Each phase's answer is an input, and the answers do not depend on one another. In the real program, a download can change what is later loaded.
- Console output (usage text, progress and error messages): formatting only, with no effect on control flow.
- Process termination: `System.Environment.Exit` is modelled as a returned value. The `return` statements after it are unreachable and not modelled.
- The `args == null` case: the runtime never passes null to the entry point. With the non-short-circuit `&` on line 17, `args.Length` would throw before the null test could take effect.
- Culture-aware comparison: `InvariantCultureIgnoreCase` is approximated by folding ASCII letters A–Z. Both option names are ASCII. The approximation can differ only on arguments containing non-ASCII characters, or ASCII control characters, that culture-aware comparison ignores or treats as equal to ASCII letters. For example, the culture-aware comparison ignores a trailing U+0001, so `--patch` followed by U+0001 counts as `--patch` in the program, while `IsPatchFlag` rejects it.
- Results printed before an exception in the patch phase: an exception while patching gives exit 1 whatever was counted, so those partial results are not modelled.
- Program.Successes: does not model wrap-around of the 32-bit `successes` counter. It would need more than 2^31 patch results.
- Engines returning extra results: the exit test compares the success count with the build's patch count, not with the number of results. If the engine returned more results than patches, a failure could go unnoticed. The engine is outside this model, so `OneResultPerPatch` assumes one result per patch instead of claiming this cannot happen.
- Program.RunPhases: assumes that `Patcher.AnyPatchesLoaded` (Program.cs:112) returns normally. That call sits outside every `try`, so an exception from it would end the process as an unhandled exception, not with exit code 1. The same holds for reading `gameBuild.Patches.Count` at Program.cs:167. The promise that the exit code is 0 or 1, here and in `Execute`, rests on these assumptions.
