/**
 The front end of package `parallel` (parallel/parallel.go): `Run` validates
 its arguments, sizes the worker pool and builds the job that its execution
 engine then runs; `Foreach` and `Map` decide the name and size they pass to
 `Run`. The engine itself (parallel/job.go) is not part of this model, so a
 run ends here with either a rejection or the job that would be executed.

 `defaultSize` stands for the package variable `defaultParallelSize`, which
 the source sets once from the number of CPUs.
 */
module Parallel {

  /** Why `Run` refuses a batch before building a job. */
  datatype RunError = EmptyName | EmptyTasks

  /** The job `Run` hands to the execution engine: a name, the tasks, and the number of workers. */
  datatype Job<Task> = Job(name: string, tasks: seq<Task>, parallelSize: int)

  /**
   The result of `Run` up to execution: a rejection, a run-time panic while
   the job is built (a channel with a negative buffer size), or the job that
   starts.
   */
  datatype Outcome<Task> = Rejected(error: RunError) | Panicked | Started(job: Job<Task>)

  /**
   The number of workers: the default, lowered to the task count, then
   lowered to the requested size when a request is given. `parallelSize` is
   the variadic argument of the source; only its first element is read.
   The result is the minimum of the candidates.
   */
  function ParallelSize(defaultSize: int, taskCount: nat, parallelSize: seq<int>): (size: int)
    ensures size <= defaultSize && size <= taskCount
    ensures |parallelSize| > 0 ==> size <= parallelSize[0]
    ensures size == defaultSize || size == taskCount || (|parallelSize| > 0 && size == parallelSize[0])
  {
    var useParallelSize := if taskCount < defaultSize then taskCount else defaultSize;
    if |parallelSize| > 0 && parallelSize[0] < useParallelSize then parallelSize[0] else useParallelSize
  }

  /**
   Validation and job construction. The name is checked before the tasks,
   so an empty name is reported even when the task list is empty too. The
   job's task channel is buffered by the worker count, and Go panics on a
   negative buffer size, so a negative count never reaches the engine.
   */
  function Run<Task>(defaultSize: int, name: string, tasks: seq<Task>, parallelSize: seq<int>): (r: Outcome<Task>)
    ensures name == [] ==> r == Rejected(EmptyName)
    ensures name != [] && tasks == [] ==> r == Rejected(EmptyTasks)
    ensures r.Panicked? <==>
      name != [] && tasks != [] && ParallelSize(defaultSize, |tasks|, parallelSize) < 0
    ensures r.Started? <==>
      name != [] && tasks != [] && ParallelSize(defaultSize, |tasks|, parallelSize) >= 0
    ensures r.Started? ==> r.job.name == name && r.job.tasks == tasks
    ensures r.Started? ==> r.job.parallelSize == ParallelSize(defaultSize, |tasks|, parallelSize)
  {
    if |name| == 0 then Rejected(EmptyName)
    else if |tasks| == 0 then Rejected(EmptyTasks)
    else
      var size := ParallelSize(defaultSize, |tasks|, parallelSize);
      if size < 0 then Panicked else Started(Job(name, tasks, size))
  }

  /** Without a request the size is the smaller of the default and the task count. */
  lemma DefaultSize(defaultSize: int, taskCount: nat)
    ensures ParallelSize(defaultSize, taskCount, [])
         == if defaultSize < taskCount then defaultSize else taskCount
  {
  }

  /**
   A request can only lower the size: the result is the smaller of the
   request and the unrequested size; further requested values are ignored.
   */
  lemma RequestOnlyLowers(defaultSize: int, taskCount: nat, p: int, rest: seq<int>)
    ensures ParallelSize(defaultSize, taskCount, [p] + rest) <= ParallelSize(defaultSize, taskCount, [])
    ensures ParallelSize(defaultSize, taskCount, [p] + rest)
         == if p < ParallelSize(defaultSize, taskCount, []) then p else ParallelSize(defaultSize, taskCount, [])
  {
  }

  /**
   For a non-empty batch with a request `p`, the size is at least one exactly
   when both the default and `p` are; nothing clamps a request `p <= 0`.
   */
  lemma SizePositive(defaultSize: int, taskCount: nat, p: int)
    requires taskCount >= 1
    ensures ParallelSize(defaultSize, taskCount, [p]) >= 1 <==> defaultSize >= 1 && p >= 1
    ensures defaultSize >= 1 && p <= 0 ==> ParallelSize(defaultSize, taskCount, [p]) == p
  {
  }

  /** A negative request for a valid batch makes `Run` panic instead of returning an error. */
  lemma NegativeRequestPanics<Task>(defaultSize: int, name: string, tasks: seq<Task>, p: int, rest: seq<int>)
    requires name != [] && tasks != [] && p < 0
    ensures Run(defaultSize, name, tasks, [p] + rest).Panicked?
  {
  }

  /**
   A started job has between one worker and one worker per task, provided
   the default is positive and any request is positive.
   */
  lemma JobSizeBounds<Task>(defaultSize: int, name: string, tasks: seq<Task>, parallelSize: seq<int>)
    requires defaultSize >= 1
    requires |parallelSize| > 0 ==> parallelSize[0] >= 1
    ensures Run(defaultSize, name, tasks, parallelSize).Started? ==>
      1 <= Run(defaultSize, name, tasks, parallelSize).job.parallelSize <= |tasks|
  {
  }

  // ---------------------------------------------------------------------------
  // A request of zero workers
  // ---------------------------------------------------------------------------

  /**
   As written, a request of zero passes validation and starts a job with no
   workers: the engine's worker loop runs zero times, its completion watcher
   closes the error channel at once, and the run reports success although
   no task was executed.
   */
  lemma ZeroRequestStartsIdleJob<Task>(defaultSize: int, name: string, tasks: seq<Task>)
    requires defaultSize >= 1 && name != [] && tasks != []
    ensures Run(defaultSize, name, tasks, [0]) == Started(Job(name, tasks, 0))
  {
  }

  /**
   The sizing with a request below one ignored, as if no request were given:
   with a positive default, a non-empty batch always gets at least one worker.
   */
  function ParallelSizeFixed(defaultSize: int, taskCount: nat, parallelSize: seq<int>): (size: int)
    ensures size <= defaultSize && size <= taskCount
    ensures |parallelSize| > 0 && parallelSize[0] >= 1 ==> size <= parallelSize[0]
    ensures defaultSize >= 1 && taskCount >= 1 ==> size >= 1
    ensures |parallelSize| == 0 || parallelSize[0] >= 1 ==>
      size == ParallelSize(defaultSize, taskCount, parallelSize)
  {
    if |parallelSize| > 0 && parallelSize[0] >= 1 then ParallelSize(defaultSize, taskCount, parallelSize)
    else ParallelSize(defaultSize, taskCount, [])
  }

  /** `Run` with the corrected sizing: with a positive default it never panics and never starts an idle job. */
  function RunFixed<Task>(defaultSize: int, name: string, tasks: seq<Task>, parallelSize: seq<int>): (r: Outcome<Task>)
    ensures name == [] ==> r == Rejected(EmptyName)
    ensures name != [] && tasks == [] ==> r == Rejected(EmptyTasks)
    ensures defaultSize >= 1 ==> (r.Started? <==> name != [] && tasks != [])
    ensures defaultSize >= 1 && r.Started? ==> 1 <= r.job.parallelSize <= |tasks|
    ensures r.Started? ==> r.job.name == name && r.job.tasks == tasks
  {
    if |name| == 0 then Rejected(EmptyName)
    else if |tasks| == 0 then Rejected(EmptyTasks)
    else
      var size := ParallelSizeFixed(defaultSize, |tasks|, parallelSize);
      if size < 0 then Panicked else Started(Job(name, tasks, size))
  }

  /**
   `Foreach` and `Map` request the default size, so for a positive default
   the correction does not change what they start.
   */
  lemma AdaptersUnaffected<Task>(defaultSize: int, name: string, tasks: seq<Task>)
    requires defaultSize >= 1
    ensures RunFixed(defaultSize, name, tasks, [defaultSize]) == Run(defaultSize, name, tasks, [defaultSize])
  {
  }

  // ---------------------------------------------------------------------------
  // Adapters
  // ---------------------------------------------------------------------------

  /** The name `Foreach` uses when none is given. */
  const DefaultTaskName: string := "\U{4EFB}\U{52A1}"

  /** The first given name, or the default one; only an explicitly given empty name is empty. */
  function ForeachTaskName(name: seq<string>): (taskName: string)
    ensures |name| > 0 ==> taskName == name[0]
    ensures taskName == [] <==> |name| > 0 && name[0] == []
  {
    if |name| > 0 then name[0] else DefaultTaskName
  }

  /**
   What `Foreach` hands to `Run`: one task per item (the task for item `i`
   calls the user function on it), its name, and the default as the request.
   It is refused only for no items, or for an explicitly given empty name;
   its job runs `min(default, items)` workers over the items in order.
   */
  function Foreach<T>(defaultSize: int, items: seq<T>, name: seq<string>): (r: Outcome<T>)
    ensures r.Rejected? <==> items == [] || (|name| > 0 && name[0] == [])
    ensures |name| > 0 && name[0] == [] ==> r == Rejected(EmptyName)
    ensures items == [] && !(|name| > 0 && name[0] == []) ==> r == Rejected(EmptyTasks)
    ensures r.Panicked? <==> !r.Rejected? && defaultSize < 0
    ensures r.Started? ==>
      && r.job.name == ForeachTaskName(name)
      && r.job.tasks == items
      && r.job.parallelSize == if defaultSize < |items| then defaultSize else |items|
  {
    Run(defaultSize, ForeachTaskName(name), items, [defaultSize])
  }

  /**
   The name `Map` hands to `Run`: a fixed prefix, the function's type, then
   the given name if any. It is never empty, and it ends with the given name.
   */
  function MapTaskName(funType: string, name: seq<string>): (taskName: string)
    ensures |taskName| > 0
    ensures |name| > 0 ==> |taskName| >= |name[0]| && taskName[|taskName| - |name[0]|..] == name[0]
  {
    var taskName := if |name| > 0 then name[0] else "";
    "\U{5E76}\U{884C}\U{5904}\U{7406} " + funType + " " + taskName
  }

  /**
   What `Map` hands to `Run`; `funType` stands for the Go type of the user
   function. Its name is never empty, so the only way `Map` is refused is an
   empty item list; its job runs `min(default, items)` workers.
   */
  function Map<T>(defaultSize: int, funType: string, items: seq<T>, name: seq<string>): (r: Outcome<T>)
    ensures r.Rejected? <==> items == []
    ensures items == [] ==> r == Rejected(EmptyTasks)
    ensures r.Panicked? <==> items != [] && defaultSize < 0
    ensures r.Started? ==>
      && r.job.name == MapTaskName(funType, name)
      && r.job.tasks == items
      && r.job.parallelSize == if defaultSize < |items| then defaultSize else |items|
  {
    Run(defaultSize, MapTaskName(funType, name), items, [defaultSize])
  }
}
