# Models of the supporting tools of the MPTCP simulator

This project models the algorithms in the tools that surround the ns-3 MPTCP code and proves what
they promise. Each module follows one source file, or one component of it.

| module | source file | what it models |
|---|---|---|
| `Digraph`, `Topsort`, `Cycles` | `bindings/python/topsort.py` | Kahn's algorithm on a list that grows while it is read, its level-by-level variant, and the enumeration of all elementary cycles |
| `ShellSyntax`, `ShellTokens`, `ShellRefusals` | `waf-tools/shellcmd.py` | the token automaton that builds a pipeline, what its tokens mean character by character, and what it refuses |
| `ShellEval`, `ShellLaunches`, `ShellDisplay`, `Shell` | `waf-tools/shellcmd.py` | a reference evaluator, what its launches and its end are in terms of the node list alone, what `run` displays, and the class `Pipeline` that refines automaton and evaluator |
| `ShellPosix` | `waf-tools/shellcmd.py` | POSIX evaluation of the same node lists, to compare `run` with |
| `TestDriver`, `DriverInterrupt` | `test.py` | main thread, workers, two queues, poison pills and the interrupt flag as a step relation, and what an interrupt does to the results |
| `ConfigPaths` | `utils/print-introspected-doxygen.cc` | the recursive walk that records configuration paths |
| `Patchset`, `PatchText`, `CheckStyle` | `utils/check-style.py` | the unified-diff parser and printer: first as functions, with what each line of a diff means to them, then the patch objects that refine them |
| `BinaryStrings`, `GrayCode`, `Permutations` | `bindings/python/rad_util.py` | `binary_range`, `int2bin`, `bin2int`, `gray_encode`, `permutations` |
| `LargeTransfer` | `examples/tcp/tcp-large-transfer.cc` | the resumable writer of a periodic buffer |
| `Timeline` | `utils/grid.py` | binary searches on sorted ranges and events |

What is proved, in short:

* **Dependency graphs.** `topsort` and `topsort_levels` raise `CycleError` exactly when the relation
  has a cycle, and then leave the same `num_parents`: the largest set of nodes in which every node has a
  parent in the set, which is also the set of all nodes that can be reached from a cycle. When they
  succeed, every element appears once with its parents before it, and its level is the length of the
  longest path to it. `topsort` lists items in the order in which their last parent frees them. `find_cycles`
  terminates and yields every elementary cycle exactly once up to rotation, although it skips roots it has visited.
* **The shell.** `parse` can return exactly the well-formed pipelines, and refuses a line exactly if one
  of its asserts fails on a token or the line ends where a node has to begin. `run` performs exactly the
  opens, launches, waits and closes of a right-nested evaluator, with the same status. Said without that
  evaluator: each launch has the arguments, environment, directory and three streams of its own command, with the
  files opened just before; `run` stops at the first operator that does not let it go on, with the status of the
  last process. Whenever it returns, every file is closed and every process waited for exactly once. It returns
  a status for all exit codes if and only if no `cd` is last or without a directory. For such lines it does what
  sections 2.9.2 and 2.9.3 of the POSIX.1-2017 Shell Command Language say, for all exit codes, **if and only if**
  every pipe leads into a command (not a `cd`) that does not read a file instead, and all `&&` and `||` after the
  first command are the same.
* **The test driver.** In every state of every run each dispatched job is in exactly one place. Every
  run is finite. Runs cannot get stuck before the end if and only if there is a worker or no job. The
  counts add up, and without an interrupt they are the same for every schedule. Exit code 0 means that every
  job has run and returned 0, or was to be skipped; if a job still waits when the interrupt comes, the exit code is 1.
* **Configuration paths.** `Gather` restores its stacks and adds exactly the simple paths of the type
  graph, whose edges are pointers other than to Object, containers, registered children and both directions of an
  aggregation; its output is sorted and without repetition, so the order of the root objects does not matter.
* **Diffs.** A patch set survives writing and parsing if and only if no removed line starts with `-- `
  and no added line with `++ `. Every parse result is of this kind, so parse-write-parse equals parse. Whether a
  line ends in a newline does not matter. The objects that `parse_patchset` builds show the parser's state after
  every line, although the current chunk may belong to an earlier patch than the current one.

Where the code does something else than its comments say, or than a reader would expect, the model follows
the code:

* The comments at `src/mptcp/bindings/python/topsort.py:109` and `:227` say that everything left over has
  a child. The code keeps something else: everything left over has a *parent* that is left over
  (`LeftIsCore`). For the pairs `(x, x)` and `(x, y)`, `y` is left over and has no child (`ChildlessLeftover`). The
  comment is right exactly if no path leads from a cycle to a node without children
  (`LeftoversHaveChildrenIff`).
* `run` looks like a shell, but is not one. `a || cd x && b` never reaches `b` when `a` succeeds
  (`SkippedChdir`); `a | cd x && b` pipes `a` into `b` (`PipedChdir`); `a | b < f` does not read `f`
  (`PipedFile`). `ShellPosix.PosixIffAlike` says exactly which lines are safe.
* The verbose display of a stage leaves out the `<` of a piped command. Parsing the display gives the stage
  back exactly if there is none (`ShellDisplay.DisplayIff`). As the source reads `retval` before it is set
  when an operator follows, only a pipeline of one stage is displayed at all.
* A range query whose ends both fall into gaps is empty even if a range lies between them
  (`Timeline.RangeBetweenGaps`). `Timeline.ExactIff` says exactly when a query is exact.

In `ShellPosix`, `RunOf` is the result that `Shell.Pipeline.Run` is proved to have. The module takes `cd` to
succeed, and a shell to wait for all processes of a pipeline. In a pipeline of several commands it runs `cd`
in a subshell (section 2.12); as the difference to `run` lies in the event right after the last launch, it
does not depend on this.

## Model

| member | source | states |
|---|---|---|
| Digraph.CoreIsLargest | src/mptcp/bindings/python/topsort.py:108-112 | every set of nodes that all have a parent in the set lies within the core |
| Digraph.CoreIsSelfSupported | src/mptcp/bindings/python/topsort.py:108-112 | the core itself is such a set |
| Digraph.WalkBack | src/mptcp/bindings/python/topsort.py:108-112 | from any member of a self-supported set: an elementary cycle, and a simple path from it to that member |
| Digraph.CoreIsBehindCycles | src/mptcp/bindings/python/topsort.py:108-112 | a node is in the core iff a path leads to it from a node on a cycle |
| Digraph.CyclicIffCore | src/mptcp/bindings/python/topsort.py:108-112 | a relation has a closed walk iff its core is not empty, and iff it has an elementary cycle |
| Topsort.EdgeIffPair | src/mptcp/bindings/python/topsort.py:77-90 | the children map has an edge exactly for each pair |
| Topsort.SlotsArePairs | src/mptcp/bindings/python/topsort.py:77-90 | the open slots of x number the pairs into x whose parent is not done, duplicates included |
| Topsort.BuildMaps | src/mptcp/bindings/python/topsort.py:77-90 | num_parents has a key for every element and holds its number of pairs; children is the map of the relation |
| Topsort.KeysAtZero | src/mptcp/bindings/python/topsort.py:92-93 | the initial answer holds each element without parents once, in any order |
| Topsort.CloseSlot | src/mptcp/bindings/python/topsort.py:100-102 | handling one child closes exactly one slot, and that slot is the child's |
| Topsort.KnockDown | src/mptcp/bindings/python/topsort.py:100-103 | one parent's children are decremented and appended at zero; counts stay the numbers of unprocessed pairs, and no key is missing |
| Topsort.HandleParent | src/mptcp/bindings/python/topsort.py:96-106 | one turn of the growing-list loop keeps its invariant, and the list never outgrows the elements |
| Topsort.OrderAvoids | src/mptcp/bindings/python/topsort.py:96-112 | a parents-first order contains no member of a set whose members all have a parent in it |
| Topsort.LeftIsCore | src/mptcp/bindings/python/topsort.py:108-112 | when no node is free, what is left is the core |
| Topsort.LeftoversKeepCycles | src/mptcp/bindings/python/topsort.py:108-112 | the children map carried by CycleError has exactly the cycles of the whole relation |
| Topsort.LeftoversHaveChildrenIff | src/mptcp/bindings/python/topsort.py:108-111 | the comment holds iff no path leads from a cycle to a node without children |
| Topsort.ChildlessLeftover | src/mptcp/bindings/python/topsort.py:108-111 | for the pairs (x, x) and (x, y) y is left over and has no child |
| Topsort.QueuedIsFirstFreed | src/mptcp/bindings/python/topsort.py:92-103 | an answer whose items were appended one by one as the loops freed them is in that order: the last place where an item is a child of the list decides |
| Topsort.Topsort | src/mptcp/bindings/python/topsort.py:61-112 | CycleError iff the relation is cyclic, with the core's counts and children; otherwise all elements once, parents first; in both cases items without parents lead, and of two others the one whose last pair is handled first comes first |
| Topsort.KnockDownLevel | src/mptcp/bindings/python/topsort.py:221-223 | for any two maps: KeyError iff a child is no key; otherwise each count drops by the slots that were closed |
| Topsort.RemoveLevel | src/mptcp/bindings/python/topsort.py:217-224 | for any two maps: the items of the level are deleted from both, and their edges counted down, unless a child is missing |
| Topsort.NoneMissing | src/mptcp/bindings/python/topsort.py:217-224 | if num_parents counts the children map, no child is missing |
| Topsort.OneRound | src/mptcp/bindings/python/topsort.py:203-224 | one round finds no free node, or removes a level and shrinks num_parents, or ends in a KeyError, which right counts exclude |
| Topsort.LongPathExists | src/mptcp/bindings/python/topsort.py:203-224 | every item of level k ends a path of k edges |
| Topsort.NoLongerPath | src/mptcp/bindings/python/topsort.py:203-224 | no path to an item of level k has more than k edges |
| Topsort.LevelsMeasureDepth | src/mptcp/bindings/python/topsort.py:203-224 | so the level of an item is the length of the longest path that reaches it |
| Topsort.TopsortLevelsCore | src/mptcp/bindings/python/topsort.py:174-232 | for any two maps: terminates, yields no item twice and no empty level, and says what each ending leaves and what a KeyError comes from. If num_parents counts the children map: no KeyError, an error iff cyclic with the leftovers of topsort, levels are depths and flatten to a parents-first order |
| Topsort.TopsortLevels | src/mptcp/bindings/python/topsort.py:114-172 | the same from a pair list; without a cycle the levels hold exactly the elements of the pairs |
| Cycles.RotationSymmetric | src/mptcp/bindings/python/rad_util.py:735-775 | being a rotation is symmetric |
| Cycles.RotationTransitive | src/mptcp/bindings/python/rad_util.py:735-775 | being a rotation is transitive |
| Cycles.IsRotated | src/mptcp/bindings/python/rad_util.py:735-775 | true iff one sequence is a rotation of the other; IndexError iff both are empty |
| Cycles.IsDup | src/mptcp/bindings/python/topsort.py:371-376 | the duplicate test is true iff a rotation of the cycle has been yielded |
| Cycles.ClosedPath | src/mptcp/bindings/python/topsort.py:367-369 | closing a simple path at one of its nodes gives an elementary cycle |
| Cycles.CloseCycle | src/mptcp/bindings/python/topsort.py:367-378 | the cycle is yielded unless a rotation of it was, and the list stays free of rotations |
| Cycles.ExpandChildren | src/mptcp/bindings/python/topsort.py:362-385 | every child is closed or pushed, only reachable nodes are marked, and the stack weight grows by at most the children's |
| Cycles.ChildrenWeighLess | src/mptcp/bindings/python/topsort.py:355-385 | all extensions of a path weigh less than the path: the termination measure |
| Cycles.StillCovered | src/mptcp/bindings/python/topsort.py:355-385 | popping and expanding a path leaves no simple path from the root uncovered |
| Cycles.Expand | src/mptcp/bindings/python/topsort.py:355-385 | one turn of the stack loop keeps soundness and coverage and lowers the stack weight |
| Cycles.SearchFrom | src/mptcp/bindings/python/topsort.py:351-385 | one root expands all simple paths that start there |
| Cycles.AroundFrom | src/mptcp/bindings/python/topsort.py:362-385 | a path into a cycle yields a simple path that closes to a rotation of it |
| Cycles.ReachedIsFound | src/mptcp/bindings/python/topsort.py:346-349 | a cycle reachable from a searched root is found, so a visited node need not be a root |
| Cycles.AllFoundOnce | src/mptcp/bindings/python/topsort.py:346-385 | once all keys are reached, each elementary cycle is listed exactly once up to rotation |
| Cycles.FindCycles | src/mptcp/bindings/python/topsort.py:346-385 | yields only elementary cycles, each exactly once up to rotation; yields something iff the map is cyclic |
| ShellSyntax.MatchSetting | src/mptcp/waf-tools/shellcmd.py:23 | key=value with a word key and a value without spaces is read as that setting |
| ShellTokens.MatchEnvIff | src/mptcp/waf-tools/shellcmd.py:23 | a token is read as the setting (k, v) iff it is k=v, perhaps with a final newline, k of letters, digits and "_", v without white space, neither empty |
| ShellTokens.NoSetting | src/mptcp/waf-tools/shellcmd.py:23 | a token is no setting iff there are no such k and v |
| ShellTokens.ReadSettings | src/mptcp/waf-tools/shellcmd.py:137-140 | after any settings the environment has exactly their keys, each with the value of its last setting |
| ShellTokens.CommandLine | src/mptcp/waf-tools/shellcmd.py:137-178 | settings, a name and plain words parse to that one command with these arguments and this environment, None without settings |
| ShellTokens.OperatorsMean | src/mptcp/waf-tools/shellcmd.py:163-183 | what each operator after a command or a cd commits; a pipe makes stdout PIPE |
| ShellTokens.RedirectionsMean | src/mptcp/waf-tools/shellcmd.py:154-198 | which stream each redirection sets, and to what; the word after it is an argument again |
| ShellTokens.ChdirMeans | src/mptcp/waf-tools/shellcmd.py:143-186 | cd, a directory and "&&" commit a Chdir to that directory |
| ShellSyntax.StepKeepsGood | src/mptcp/waf-tools/shellcmd.py:135-198 | a step keeps the committed nodes well formed |
| ShellSyntax.ParseIsWellFormed | src/mptcp/waf-tools/shellcmd.py:135-200 | an accepted line is an alternation of nodes and operators; stdout is PIPE exactly before a Pipe, and a Chdir is last or before And |
| ShellSyntax.ParseCommand | src/mptcp/waf-tools/shellcmd.py:137-198 | the printed tokens of a command are read back as that command |
| ShellSyntax.ParsePrinted | src/mptcp/waf-tools/shellcmd.py:135-200 | the same for the rest of a pipeline after any committed nodes |
| ShellSyntax.RoundTrip | src/mptcp/waf-tools/shellcmd.py:135-200 | writing a well-formed pipeline as tokens (settings, argv, redirections, operators; the model's own printer) and parsing them gives it back, for any order of the settings |
| ShellSyntax.RangeOfParse | src/mptcp/waf-tools/shellcmd.py:135-200 | parse can return exactly the well-formed pipelines |
| ShellRefusals.StepRefuses | src/mptcp/waf-tools/shellcmd.py:136-198 | on which tokens an assert fails, state by state |
| ShellRefusals.RefusedIff | src/mptcp/waf-tools/shellcmd.py:135-200 | a line is refused iff an assert fails on one of its tokens, or it ends where a node has to begin |
| ShellRefusals.SameCommand | src/mptcp/waf-tools/shellcmd.py:153-198 | whatever tokens follow, a redirection stays as long as the command is not committed |
| ShellRefusals.SecondRedirectionFails | src/mptcp/waf-tools/shellcmd.py:158-198 | anywhere in a line: a command that has redirected a stream cannot redirect it again, nor pipe what goes to a file |
| ShellRefusals.BadChdirFails | src/mptcp/waf-tools/shellcmd.py:143-186 | wherever a node begins: cd after settings is refused, and so are two arguments of cd |
| ShellRefusals.UnfinishedFails | src/mptcp/waf-tools/shellcmd.py:199-200 | a line that ends after nothing, an operator, or any settings is refused |
| ShellDisplay.DisplayStage | src/mptcp/waf-tools/shellcmd.py:221-309 | the display that the loop of run builds for the first stage |
| ShellDisplay.DisplayCommand | src/mptcp/waf-tools/shellcmd.py:234-273 | the words of one command; the "<" of a piped one is left out |
| ShellDisplay.WordsMean | src/mptcp/waf-tools/shellcmd.py:234-273 | the words of a node: key=value for each key of its environment, its arguments, then its redirections |
| ShellDisplay.DisplayParses | src/mptcp/waf-tools/shellcmd.py:221-309 | the display of a stage parses to the stage without the files of its piped commands |
| ShellDisplay.DisplayIff | src/mptcp/waf-tools/shellcmd.py:221-309 | it parses to the stage itself iff no command after a pipe reads a file |
| ShellDisplay.HiddenFile | src/mptcp/waf-tools/shellcmd.py:241-247 | a, pipe, b with a "<" is displayed without it |
| ShellEval.StructureIsProper | src/mptcp/waf-tools/shellcmd.py:221-345 | a well-formed pipeline splits into stages with one And or Or between neighbours |
| ShellEval.RunnableIffWhole | src/mptcp/waf-tools/shellcmd.py:224-230 | no stage is cut short by a cd error iff no cd is last or without a directory |
| ShellPosix.RunOfPipe | src/mptcp/waf-tools/shellcmd.py:221-345 | run on a list with a plain first pipeline: its events, and then the rest if the operator lets it proceed |
| ShellPosix.BadPipeDiffers | src/mptcp/waf-tools/shellcmd.py:241-249 | a first pipeline that leads into a cd, or into a command with a file of its own, is run differently under all exit codes |
| ShellPosix.PipeIsReached | src/mptcp/waf-tools/shellcmd.py:221-345 | with equal operators such a pipeline is reached under some exit codes |
| ShellPosix.GoesOn | src/mptcp/waf-tools/shellcmd.py:311-345 | where run returns at an operator, POSIX goes on to the first operator that is different |
| ShellPosix.AlikeAgree | src/mptcp/waf-tools/shellcmd.py:221-345 | with plain pipes and equal operators after the first command, run and POSIX agree event by event |
| ShellPosix.Differ | src/mptcp/waf-tools/shellcmd.py:221-345 | for every other list there are exit codes under which they differ |
| ShellPosix.PosixIffAlike | src/mptcp/waf-tools/shellcmd.py:221-345 | agreement for all exit codes iff pipes are plain and operators after the first command equal |
| ShellPosix.SkippedChdir | src/mptcp/waf-tools/shellcmd.py:311-325 | a, or, cd x, and, b: when a succeeds run returns and POSIX runs b |
| ShellPosix.PipedChdir | src/mptcp/waf-tools/shellcmd.py:224-230 | a, pipe, cd x, and, b: one stage without an operator for run; different for all exit codes |
| ShellPosix.LeadingChdir | src/mptcp/waf-tools/shellcmd.py:224-230 | cd x, and, a, or, b: mixed operators, but agreement for all exit codes |
| ShellPosix.PipedFile | src/mptcp/waf-tools/shellcmd.py:241-249 | a, pipe, b with a "<": different for all exit codes |
| ShellEval.WholeReturns | src/mptcp/waf-tools/shellcmd.py:221-345 | a pipeline without a cd error always returns a status |
| ShellEval.ReachesEnd | src/mptcp/waf-tools/shellcmd.py:224-227 | a cd error is reached under some exit codes |
| ShellEval.ReturnsIffRunnable | src/mptcp/waf-tools/shellcmd.py:221-345 | a status for all exit codes iff no cd is last or without a directory |
| ShellEval.AuditStage | src/mptcp/waf-tools/shellcmd.py:292-303 | a stage waits for each process once and then closes each of its files once |
| ShellEval.AuditEval | src/mptcp/waf-tools/shellcmd.py:221-345 | every event is legal (a process uses open files and the process before it), and on return all files are closed and all processes waited for, once each |
| ShellLaunches.LaunchesMean | src/mptcp/waf-tools/shellcmd.py:241-290 | the k-th launch is the k-th command of the list with its arguments, environment and accumulated directory (None for "."); stdout and stderr are inherited, a pipe, the null device, merged, or a handle of that very file opened earlier; stdin is the process before after a pipe, else its file, else inherited; its files are opened just before it, and unless piped all earlier processes have been waited for |
| ShellLaunches.EndMeans | src/mptcp/waf-tools/shellcmd.py:311-345 | every command but the last launched lets the next node run; the last one does not, or ends the list, and gives the status; the cd errors come at the last node, or at a cd without a directory |
| ShellLaunches.RunMeans | src/mptcp/waf-tools/shellcmd.py:221-345 | both for a whole run: all its launches, and its end |
| Shell.Pipeline.constructor | src/mptcp/waf-tools/shellcmd.py:96-98 | starts empty |
| Shell.Pipeline.CommitCommand | src/mptcp/waf-tools/shellcmd.py:100-103 | appends and clears the current command; fails iff there is none |
| Shell.Pipeline.Parse | src/mptcp/waf-tools/shellcmd.py:120-200 | returns what the token automaton returns (its tokens are spelled out in ShellTokens); the fields hold the result, or after a failed assert what was committed before it and the command that had begun |
| Shell.Pipeline.ExecPipedCommands | src/mptcp/waf-tools/shellcmd.py:202-211 | waits for all in order; the result is the last exit code, and 0 for none |
| Shell.Pipeline.CloseFiles | src/mptcp/waf-tools/shellcmd.py:300-303 | closes all listed files but the null device |
| Shell.Pipeline.OpenOutFile | src/mptcp/waf-tools/shellcmd.py:45-49 | opens a file for writing, or gives the null device without opening it |
| Shell.Pipeline.OpenStdin | src/mptcp/waf-tools/shellcmd.py:241-249 | a piped command reads the process before it, whatever its own redirection says |
| Shell.Pipeline.OpenTarget | src/mptcp/waf-tools/shellcmd.py:251-273 | the four kinds of target of an output stream |
| Shell.Pipeline.LaunchCommand | src/mptcp/waf-tools/shellcmd.py:241-290 | opens its files in order and starts the process with the cwd and environment of the reference |
| Shell.Pipeline.Run | src/mptcp/waf-tools/shellcmd.py:213-345 | the events and the outcome are those of the right-nested evaluator, and its asserts cannot fail; each launch carries what its own command says, and the run stops where the exit codes and the operators say (RunsAs) |
| TestDriver.MainPlaces | src/mptcp/test.py:1575-1596 | a step of the main thread keeps every job in its one place and the queue in order |
| TestDriver.WorkerPlaces | src/mptcp/test.py:921-989 | so does a step of a worker |
| TestDriver.NextKeeps | src/mptcp/test.py:921-989 | every step, interrupt included, keeps the invariant |
| TestDriver.RunInv | src/mptcp/test.py:1313-1737 | the invariant holds in every state of every run |
| TestDriver.OnePlace | src/mptcp/test.py:921-989 | a dispatched job is in exactly one of input queue, a worker, output queue, collected; any other is nowhere |
| TestDriver.PillsComeLast | src/mptcp/test.py:1571-1578 | a worker exits only when all jobs are dispatched and none is queued |
| TestDriver.NextProgress | src/mptcp/test.py:921-989 | every step lowers a measure |
| TestDriver.RunBound | src/mptcp/test.py:1313-1737 | no run makes more steps than 6 per job and 4 per worker, and 6 more |
| TestDriver.NeverStuck | src/mptcp/test.py:1590-1737 | with a worker, or without jobs, a run that is not done can go on |
| TestDriver.RunOn | src/mptcp/test.py:1313-1737 | any run can be carried on until nothing can move |
| TestDriver.DeadlockFreeIff | src/mptcp/test.py:1313-1737 | all runs end with all joins done iff there is a worker or there are no jobs |
| TestDriver.AtTheEnd | src/mptcp/test.py:1590-1737 | every job is collected once, every worker has taken one pill, both queues are empty |
| TestDriver.TallyCounts | src/mptcp/test.py:1596-1619 | the counters number the reports of each verdict, and with the interrupted ones they add up |
| TestDriver.FinalCounts | src/mptcp/test.py:1800-1803 | the counts add up to the number of jobs, and the exit code is 0 iff every job passed or was skipped; DriverInterrupt.FinalTally says what each count is |
| DriverInterrupt.Starts | src/mptcp/test.py:935-958 | a job starts only from a worker that has it in hand, before the interrupt, and if it is not a skip |
| DriverInterrupt.Reports | src/mptcp/test.py:935-989 | a new report is interrupted only after the interrupt; otherwise its job was running, or is a skip in hand before the interrupt |
| DriverInterrupt.OnlyRealJobsRun | src/mptcp/test.py:944-958 | only a job that is not a skip ever runs |
| DriverInterrupt.ReportedHasRun | src/mptcp/test.py:935-989 | a report that is not interrupted is of a skip, or of a job that some earlier state of the run has running |
| DriverInterrupt.InterruptStays | src/mptcp/test.py:546-551 | the interrupt flag is never taken back |
| DriverInterrupt.NeverRun | src/mptcp/test.py:935-938 | a job that neither runs nor is reported when the interrupt comes never will be |
| DriverInterrupt.WaitingOnly | src/mptcp/test.py:921-938 | a job that waits is not running and has no report |
| DriverInterrupt.WaitingIsInterrupted | src/mptcp/test.py:935-938 | every report of a job that was queued or in hand after the interrupt is interrupted |
| DriverInterrupt.FinalTally | src/mptcp/test.py:1596-1619 | each counter is the number of finished jobs with that skip flag and return code: 0, 1, 2, or any other |
| DriverInterrupt.SuccessMeansRan | src/mptcp/test.py:1800-1803 | exit code 0 means that every job is a skip, or has run in some state and returned 0 |
| DriverInterrupt.InterruptFails | src/mptcp/test.py:1800-1803 | if a job still waits when the interrupt comes, the exit code is 1 |
| TestDriver.OrderDoesNotMatter | src/mptcp/test.py:1594-1619 | reports of the same jobs give the same counts in any order |
| TestDriver.SameCountsForAllSchedules | src/mptcp/test.py:1590-1619 | without an interrupt every schedule gives the counts of a sequential run |
| TestDriver.CollectResults | src/mptcp/test.py:1590-1619 | the collecting loop counts each verdict; exit code 0 iff all passed or were skipped |
| ConfigPaths.AttributeStepsIff | src/mptcp/utils/print-introspected-doxygen.cc:275-312 | a step over an attribute is a pointer other than to Object, under its name, or a container, under its name and "/[i]" |
| ConfigPaths.ChildStepsIff | src/mptcp/utils/print-introspected-doxygen.cc:315-330 | a step to a child is to a registered type that is a child, under its path name |
| ConfigPaths.AggregateStepsIff | src/mptcp/utils/print-introspected-doxygen.cc:331-366 | a step over an aggregation leads from either end to the other, under its path name |
| ConfigPaths.StepsIff | src/mptcp/utils/print-introspected-doxygen.cc:275-366 | the edges of the type graph are exactly these four kinds |
| ConfigPaths.RenderMore | src/mptcp/utils/print-introspected-doxygen.cc:211-221 | a path is written with a slash before each element |
| ConfigPaths.LessMeans | src/mptcp/utils/print-introspected-doxygen.cc:262 | entries are ordered by type, and then by the first character in which their paths differ, a prefix first |
| ConfigPaths.AvoidsIffSimple | src/mptcp/utils/print-introspected-doxygen.cc:229-240 | pushing a type while it is walked and refusing those pushed admits exactly the simple paths |
| ConfigPaths.WalkIsRecorded | src/mptcp/utils/print-introspected-doxygen.cc:266-367 | the walk records exactly the rendered simple paths that avoid the types being walked |
| ConfigPaths.WalkIsPaths | src/mptcp/utils/print-introspected-doxygen.cc:266-367 | from empty stacks: exactly the simple paths from the type |
| ConfigPaths.SortedIsUnique | src/mptcp/utils/print-introspected-doxygen.cc:257-264 | a strictly sorted output is determined by its elements |
| ConfigPaths.StaticInformation.RecordAggregationInfo | src/mptcp/utils/print-introspected-doxygen.cc:195-199 | appends one aggregation |
| ConfigPaths.StaticInformation.GetCurrentPath | src/mptcp/utils/print-introspected-doxygen.cc:211-221 | a slash before each element of the current path |
| ConfigPaths.StaticInformation.RecordOutput | src/mptcp/utils/print-introspected-doxygen.cc:223-227 | appends the type with the current path |
| ConfigPaths.StaticInformation.HasAlreadyBeenProcessed | src/mptcp/utils/print-introspected-doxygen.cc:229-240 | true iff the type is on the stack |
| ConfigPaths.StaticInformation.Get | src/mptcp/utils/print-introspected-doxygen.cc:242-255 | exactly the recorded paths of the type, in order |
| ConfigPaths.StaticInformation.DoGather | src/mptcp/utils/print-introspected-doxygen.cc:266-367 | terminates, restores both stacks and appends exactly the entries of the walk |
| ConfigPaths.StaticInformation.Gather | src/mptcp/utils/print-introspected-doxygen.cc:257-264 | the output is strictly sorted and holds the old entries and the simple paths from the type along the edges of StepsIff, and nothing else |
| ConfigPaths.StaticInformation.GatherAll | src/mptcp/utils/print-introspected-doxygen.cc:512-516 | after all roots: strictly sorted, exactly the simple paths of all roots |
| ConfigPaths.GatherOrderDoesNotMatter | src/mptcp/utils/print-introspected-doxygen.cc:512-516 | the same roots in any order and number give the same output |
| Patchset.DecimalRoundTrip | src/mptcp/utils/check-style.py:169-172 | int of the printed number is the number |
| PatchText.MatchRestIff | src/mptcp/utils/check-style.py:222-227 | a prefix expression reads v off a line iff the line is the prefix and v, perhaps with a final newline, and v has none |
| PatchText.NoRestIff | src/mptcp/utils/check-style.py:222-227 | it does not match iff the line is no such line |
| PatchText.DigitsMean | src/mptcp/utils/check-style.py:169-172 | int of digits is their decimal value |
| PatchText.MatchChunkIff | src/mptcp/utils/check-style.py:224 | a chunk header is four numbers in their frame, whatever follows it |
| PatchText.SidesMean | src/mptcp/utils/check-style.py:177-188 | an added line is on the destination side only, a removed one on the source side only, a context line on both |
| PatchText.FileHeaderMeans | src/mptcp/utils/check-style.py:231-240 | "--- " begins a patch of that source; "+++ " names the destination of the current one, and fails without one |
| PatchText.ChunkHeaderMeans | src/mptcp/utils/check-style.py:241-245 | a chunk header begins a chunk at its first and third number in the current patch, and fails without one |
| PatchText.TextMeans | src/mptcp/utils/check-style.py:246-263 | a sign and a text, with or without a newline, add that line to the current chunk, unless it is a file header |
| PatchText.OtherLinesFail | src/mptcp/utils/check-style.py:264 | a line with no known first character is refused |
| PatchText.StepNewline | src/mptcp/utils/check-style.py:230-264 | a line without its final newline is read as the line with it |
| PatchText.ParseNewline | src/mptcp/utils/check-style.py:221-265 | so two inputs that differ in final newlines only parse alike |
| Patchset.MatchHeader | src/mptcp/utils/check-style.py:193-195 | a written chunk header is read back as its two positions and the numbers of source and destination lines |
| Patchset.StepWrittenLine | src/mptcp/utils/check-style.py:157-163 | a written line is read back as itself, unless it starts with "--- " or "+++ " and is taken for a file header |
| Patchset.RoundTrip | src/mptcp/utils/check-style.py:193-265 | writing and parsing gives back every patch set without confusing lines |
| Patchset.WriteCounts | src/mptcp/utils/check-style.py:193-219 | how many file headers and how many lines the parser will see in a written patch set |
| Patchset.StepsCount | src/mptcp/utils/check-style.py:230-265 | parsing makes a patch of each file header and a line of each line that is no header |
| Patchset.RoundTripIff | src/mptcp/utils/check-style.py:157-265 | the round trip succeeds iff no removed line starts with "-- " and no added line with "++ " |
| Patchset.StepsKeepClear | src/mptcp/utils/check-style.py:230-265 | the parser never makes a confusing line |
| Patchset.ParseWriteParse | src/mptcp/utils/check-style.py:157-265 | on all accepted input, parse after write after parse equals parse |
| CheckStyle.PatchChunkLine.SetSrc | src/mptcp/utils/check-style.py:140-142 | the line becomes a removed line |
| CheckStyle.PatchChunkLine.SetDst | src/mptcp/utils/check-style.py:143-145 | the line becomes an added line |
| CheckStyle.PatchChunkLine.SetBoth | src/mptcp/utils/check-style.py:146-148 | the line becomes a context line |
| CheckStyle.PatchChunkLine.Write | src/mptcp/utils/check-style.py:157-165 | fails iff no setter was called; otherwise emits the line with its sign |
| CheckStyle.PatchChunk.Src | src/mptcp/utils/check-style.py:177-182 | the removed and context lines, in order |
| CheckStyle.PatchChunk.Dst | src/mptcp/utils/check-style.py:183-188 | the added and context lines, in order |
| CheckStyle.PatchChunk.AddLine | src/mptcp/utils/check-style.py:175-176 | appends one line |
| CheckStyle.PatchChunk.Write | src/mptcp/utils/check-style.py:193-197 | fails iff a line has no type; otherwise emits the header, with the counts of both sides, and then the lines |
| CheckStyle.Patch.AddChunk | src/mptcp/utils/check-style.py:204-205 | appends one chunk |
| CheckStyle.Patch.Write | src/mptcp/utils/check-style.py:215-219 | fails iff a line has no type; otherwise emits both file headers and then the chunks |
| CheckStyle.StartPatch | src/mptcp/utils/check-style.py:231-236 | a new patch object, and the others still show what they did |
| CheckStyle.StartChunk | src/mptcp/utils/check-style.py:241-245 | a new chunk object of the current patch becomes the current chunk |
| CheckStyle.StoreLine | src/mptcp/utils/check-style.py:246-263 | the line goes into the current chunk and no other, in whichever patch that chunk is |
| CheckStyle.ReadLine | src/mptcp/utils/check-style.py:246-263 | a line object that shows what the first matching line expression found, if any |
| CheckStyle.ParsePatchset | src/mptcp/utils/check-style.py:221-265 | the returned objects are new, separate, and show the patch set that Parse gives, whose lines PatchText spells out; the errors are the same |
| CheckStyle.WritePatchset | src/mptcp/utils/check-style.py:215-219 | fails iff a line has no type; otherwise the written lines parse to what the objects show iff no line is confusing |
| BinaryStrings.JoinValue | src/mptcp/bindings/python/rad_util.py:91-97 | the joined nibbles of hex(i) are binary digits of value i |
| BinaryStrings.ValueIsInjective | src/mptcp/bindings/python/rad_util.py:120-130 | equal length and equal bin2int mean equal strings |
| BinaryStrings.Int2BinFits | src/mptcp/bindings/python/rad_util.py:91-105 | ValueError iff n is at least 1 and i at least 2^n; otherwise digits whose bin2int is i, n of them, or all of them for n = 0 |
| BinaryStrings.ReverseCopy | src/mptcp/bindings/python/rad_util.py:644-647 | the digits in reverse |
| BinaryStrings.Increment | src/mptcp/bindings/python/rad_util.py:649-659 | the ripple carry adds one; the last toggle is the carry out |
| BinaryStrings.BinaryRange | src/mptcp/bindings/python/rad_util.py:632-660 | terminates with 2^bits strings (none for width 0); entry k is int2bin(k) and has bin2int k |
| GrayCode.GrayNeighbours | src/mptcp/bindings/python/rad_util.py:612-615 | the codes of i and i+1 differ in exactly one bit |
| GrayCode.DecodeEncode | src/mptcp/bindings/python/rad_util.py:612-615 | prefix parity undoes the encoding |
| GrayCode.EncodeDecode | src/mptcp/bindings/python/rad_util.py:612-615 | and the other way round |
| GrayCode.GrayBound | src/mptcp/bindings/python/rad_util.py:612-615 | i is below 2^n iff its code is |
| GrayCode.GrayIsBijection | src/mptcp/bindings/python/rad_util.py:612-615 | for every n a bijection on the numbers below 2^n |
| Permutations.PermutationsOf | src/mptcp/bindings/python/rad_util.py:310-326 | the recursive method computes the list of insertions that the lemmas below are about |
| Permutations.InsertEverywhere | src/mptcp/bindings/python/rad_util.py:319-322 | the first item is inserted at every place of a shorter list |
| Permutations.AllPermute | src/mptcp/bindings/python/rad_util.py:310-326 | every result is a rearrangement of the input |
| Permutations.AllFound | src/mptcp/bindings/python/rad_util.py:310-326 | every rearrangement is a result |
| Permutations.PermsCount | src/mptcp/bindings/python/rad_util.py:310-326 | there are n! results |
| Permutations.PermsDistinct | src/mptcp/bindings/python/rad_util.py:310-326 | with distinct items no result appears twice |
| LargeTransfer.BufferIsPeriodic | src/mptcp/examples/tcp/tcp-large-transfer.cc:49-54 | reading the buffer at an offset modulo its length continues the endless text |
| LargeTransfer.Continues | src/mptcp/examples/tcp/tcp-large-transfer.cc:199-217 | whatever is accepted from the right offset on continues the text |
| LargeTransfer.Flow.constructor | src/mptcp/examples/tcp/tcp-large-transfer.cc:82-87 | the buffer holds the alphabet over and over, and nothing has been sent |
| LargeTransfer.Flow.WriteUntilBufferFull | src/mptcp/examples/tcp/tcp-large-transfer.cc:199-217 | accepted bytes stay a prefix of the text within the total; without a refusal it stops when all is sent or no room is left, and closes |
| LargeTransfer.Flow.Transfer | src/mptcp/examples/tcp/tcp-large-transfer.cc:186-217 | after any callbacks, byte k of the stream is 97 + k mod 26, nothing sent is lost, and the total is not exceeded; without a refusal the socket is closed, and all is sent or no room is left |
| Timeline.TimelineDataRange.Search | src/mptcp/utils/grid.py:49-61 | an index of a range that contains the key, or -1 and on disjoint ranges none does |
| Timeline.TimelineDataRange.GetRangesBounds | src/mptcp/utils/grid.py:77-87 | on any list the bounds that two searches give; on disjoint ranges what they mean for each combination of hit and missed ends |
| Timeline.TimelineDataRange.GetRanges | src/mptcp/utils/grid.py:66-76 | on any list the slice between the same bounds |
| Timeline.HitIff | src/mptcp/utils/grid.py:49-61 | on disjoint ranges a key lies in one of them iff the search finds one |
| Timeline.BoundsAreWindow | src/mptcp/utils/grid.py:66-87 | on disjoint ranges the bounds show what meets the window, as far as its ends hit |
| Timeline.BoundsDetermineRanges | src/mptcp/utils/grid.py:66-87 | and no other slice would |
| Timeline.ExactIff | src/mptcp/utils/grid.py:66-87 | the query is exact iff both ends hit, or the missing end has no extra range on its side, or nothing meets the window |
| Timeline.RangeBetweenGaps | src/mptcp/utils/grid.py:69-70 | a range strictly inside the window is missed when both ends lie in gaps |
| Timeline.TimelineEvent.Search | src/mptcp/utils/grid.py:101-113 | the index of the first event not before the key |
| Timeline.TimelineEvent.GetEventsBounds | src/mptcp/utils/grid.py:120-123 | on any list the bounds that two searches give; on increasing events from the first not before start to the first not before end |
| Timeline.TimelineEvent.GetEvents | src/mptcp/utils/grid.py:116-119 | on any list the slice between the same bounds; on increasing events every event of the window, none before it, and at most one after it |
| Timeline.BoundsDetermineEvents | src/mptcp/utils/grid.py:116-123 | the window has only one pair of bounds |
| Timeline.WindowContents | src/mptcp/utils/grid.py:116-123 | what any such window contains |

## Left out

- The MPTCP and TCP sockets, the schedulers and the simulator core; mp-tcp-socket-base.cc is not part of this model.
- The scenarios under examples/ and scratch/, apart from the writer, and the ONNX and data-analysis code: calls into libraries whose code is not here.
- Cycles.FindCycles: models the generator run to its end; a consumer that changes a yielded list while the generator is suspended is not modelled.
- Dictionary order: any order of keys is allowed wherever a dictionary is read.
- shlex: Shell.Pipeline takes a list of tokens.
- ShellDisplay.DisplayStage: gives the display as a list of words; run joins them with blanks, and splitting a word that holds blanks is left out.
- Shell.Pipeline.Run: verbose printing is off, processes are given by their exit codes, open does not fail, and path joining is a parameter.
- ShellPosix.PosixIffAlike: compares on the node list; what parse has lost of a line by then (quoting, the order of `2>&1` and `>`) is not compared.
- Command and Chdir nodes are values: parse only changes the node in current_command, which no list holds yet.
- get_abbreviated_command: its branch for `||` is unreachable, and nothing else depends on it.
- In test.py run_job_synchronously is one step that gives the job's code; jobs are values named by their number, since a job is in one place at a time.
- The rest of test.py: waf configuration, the choice of tests, subprocesses, and all XML and HTML output.
- ConfigPaths.StaticInformation.RecordAggregationInfo: takes the two types; looking them up by name is left out.
- ConfigPaths.StaticInformation.DoGather: the path element of a child or an aggregated type (its name after find_and_replace) is a given function of the type.
- ConfigPaths.StaticInformation.Gather: std::sort and std::unique are replaced by an insertion sort and a scan; the type graph is finite and closed under its steps.
- The printing code of print-introspected-doxygen.cc.
- What the write methods of check-style.py have put out before they meet a line without a type.
- int2bin of negative numbers.
- What the queries of grid.py mean on overlapping or unsorted ranges, for a window whose start lies after its end, and for events that share a time.
- remove_trailing_whitespace_changes, uncrustify and the temporary files of check-style.py.
- The other functions of rad_util.py: floating point, or textbook material such as gcf and lcm.
- LargeTransfer.Flow.WriteUntilBufferFull: does not say that Close comes only after all bytes, because the loop also ends when the buffer is full.
- LargeTransfer.Socket.Send: refuses, or accepts at least one byte; a result of 0 is not modelled.
- Sorting, drawing, colours and zooming in grid.py; times are integers.
