/**
 The command-line parser of the patcher's entry point.

 The entry point keeps three variables: whether an update was requested,
 the path of the executable to patch, and whether a `--patch` option has
 been seen. It then walks the arguments once, left to right. `Step` is one
 iteration of that loop, `Scan` is the loop, and `Parse` adds the checks
 made before and after it. A call to the process exit routine is modelled
 as the value `Exit(code)`, which ends parsing.
 */
module Arguments {
  import opened CaseFold

  /** The loop variables: `performUpdate`, `filePath` and `patch`. */
  datatype ParseState = ParseState(performUpdate: bool, filePath: string, patch: bool)

  /** The values the variables hold before the first argument is read. */
  const Initial := ParseState(false, "", false)

  /** One iteration either terminates the process or continues with new variables. */
  datatype StepOutcome = Abort | Next(state: ParseState)

  /** The whole loop either terminates the process or runs to the end of the arguments. */
  datatype ScanOutcome = Aborted | Finished(state: ParseState)

  /** What parsing leaves behind: the process exits with `code`, or the phases run
      with the parsed options. */
  datatype ParseOutcome = Exit(code: int) | Proceed(performUpdate: bool, filePath: string)

  /**
   One iteration of the loop, for the argument at index `i`.

   A `--patch` is honoured only while no path is set; it takes the NEXT
   argument as the path when there is one, but does not skip it, so that
   argument is examined again by the following iteration. An `--update` is
   honoured only the first time. Anything else, including a repeated
   option, terminates the process while no `--patch` has been seen, and is
   ignored afterwards.
   */
  function Step(args: seq<string>, i: nat, st: ParseState): (r: StepOutcome)
    requires i < |args|
    // the path, once set, is never replaced: the first `--patch` with a path wins
    ensures r.Next? && st.filePath != "" ==> r.state.filePath == st.filePath
    // the two flags only ever go from false to true
    ensures r.Next? ==> (st.patch ==> r.state.patch) && (st.performUpdate ==> r.state.performUpdate)
    // once a `--patch` has been seen, no argument terminates the process
    ensures st.patch ==> r.Next?
    // a new path is only ever an argument that directly follows a `--patch`
    ensures r.Next? && r.state.filePath != st.filePath ==>
              IsPatchFlag(args[i]) && i + 1 < |args| && r.state.filePath == args[i + 1]
  {
    if IsPatchFlag(args[i]) && st.filePath == "" then
      Next(st.(patch := true, filePath := if i + 1 < |args| then args[i + 1] else st.filePath))
    else if IsUpdateFlag(args[i]) && !st.performUpdate then
      Next(st.(performUpdate := true))
    else if !st.patch then
      Abort
    else
      Next(st)
  }

  /** The loop over the arguments from index `i` on, starting from the variables `st`. */
  function Scan(args: seq<string>, i: nat, st: ParseState): (r: ScanOutcome)
    requires i <= |args|
    decreases |args| - i
    // a path, once set, survives to the end of the loop
    ensures r.Finished? && st.filePath != "" ==> r.state.filePath == st.filePath
    ensures r.Finished? ==> (st.patch ==> r.state.patch) && (st.performUpdate ==> r.state.performUpdate)
    // once a `--patch` has been seen the loop always runs to the end
    ensures st.patch ==> r.Finished?
  {
    if i == |args| then
      Finished(st)
    else
      match Step(args, i, st)
      case Abort => Aborted
      case Next(s) => Scan(args, i + 1, s)
  }

  /**
   The parsing part of the entry point: no arguments prints the usage text
   and exits with 1; so does an unknown argument before any `--patch`; and
   so does a run that requested neither an update nor gave a path.
   */
  function Parse(args: seq<string>): (r: ParseOutcome)
    // every exit taken while parsing reports failure
    ensures r.Exit? ==> r.code == 1
    ensures |args| == 0 ==> r == Exit(1)
    // the phases run only when there is something to do
    ensures r.Proceed? ==> r.performUpdate || r.filePath != ""
  {
    if |args| == 0 then
      Exit(1)
    else
      match Scan(args, 0, Initial)
      case Aborted => Exit(1)
      case Finished(st) =>
        if !st.performUpdate && st.filePath == "" then Exit(1)
        else Proceed(st.performUpdate, st.filePath)
  }
}
