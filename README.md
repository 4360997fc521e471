# go-helper: sequence helpers and the parallel runner's front end, in Dafny

This project models two parts of the Go utility library `go-helper`.

- Package `fn`, in `slice/slice.go` and `slice/conditional.go`, holds generic helpers over slices and maps:
  - `Transform` maps a function over a slice.
  - `Unique` is documented as deduplication.
  - `AsMap` and `AsMap2` index a slice by one key or by two nested keys.
  - `Contains`, `ContainsFunc` and `ContainsAll` test membership.
  - `Intersection` computes a set intersection.
  - `Filter`, `Find` and `FindAll` search a slice.
  - `GroupToMap`, `GroupToMap2` and `GroupToMap3` group a slice by one, two or three keys.
  - `AddIfNotExist` appends the elements that are missing.
  - `If` is a ternary.
- Package `parallel` has a front end, `Run` in `parallel/parallel.go`. `Run` rejects an empty name or an empty task list. It then sizes the worker pool as the minimum of the default, the task count and an optional request, and builds the job. The adapters `Foreach` and `Map` choose the name and the size they pass to `Run`.

Layout:

- `slice_spec.dfy` (module `SliceSpec`) defines what the list-building helpers compute: `Select`, `Dedup`, `Common` and `Added`. It also proves their properties.
- `map_spec.dfy` (module `MapSpec`) does the same for the map-building helpers: `IndexBy`, `IndexBy2`, `GroupBy`, `GroupBy2` and `GroupBy3`.
- `slice.dfy` (module `Slice`) has one method per Go function, with the source's loop. Each method is proved against those definitions or states its result outright.
- `conditional.dfy` (module `Conditional`) models `If`.
- `parallel.dfy` (module `Parallel`) models `Run` up to job construction as pure functions, plus the arguments `Foreach` and `Map` pass to it. It also holds a corrected sizing, `ParallelSizeFixed` and `RunFixed`.

Go slices are `seq`s. A Go map used as a set (`map[T]struct{}`) is a `set`. Other maps are `map`s. Errors are kinds in a datatype (`RunError`), not message strings. A Go panic is the outcome `Panicked`.

In three places the code does something other than what its names and comments suggest. The model follows the code, and "## Findings" pairs each with a corrected definition:

- **Unique.** The code never writes `tmpMap`, so `Unique` returns its input unchanged.
- **ContainsAll.** The length shortcut returns false whenever `child` is longer than `parent`, even when `child` only repeats elements of `parent`.
- **Requested worker count.** `Run` uses a request below the computed size as it is. A negative request makes the channel allocation panic (`NegativeRequestPanics`). A request of zero starts a job with no workers (`ZeroRequestStartsIdleJob`).

One more behaviour follows from the code without being a defect: `Foreach` fails the name check when the caller passes an empty name explicitly (`Foreach`). Only its default name is guaranteed non-empty.

## Model

| member | source | states |
|---|---|---|
| Slice.Transform | slice/slice.go:7-13 | the result has the input's length and holds `transform(li[i])` at every index `i` |
| Slice.Unique | slice/slice.go:15-25 | as written, the result equals the input: same elements, same order, repeats kept |
| Slice.UniqueKeepsRepeats | slice/slice.go:15-25 | `Unique([1, 1])` is `[1, 1]`, which is not duplicate-free |
| Slice.UniqueFixed | slice/slice.go:15-25 | with each value recorded when first seen, the result is `Dedup(list)`: duplicate-free and with exactly the input's elements |
| SliceSpec.Dedup | slice/slice.go:15-25 | keeping first occurrences never makes a sequence longer |
| SliceSpec.DedupMembership | slice/slice.go:15-25 | deduplication keeps exactly the input's elements |
| SliceSpec.DedupDistinct | slice/slice.go:15-25 | the deduplicated sequence has no repeats |
| SliceSpec.DedupOfDistinct | slice/slice.go:15-25 | a sequence without repeats is returned unchanged |
| SliceSpec.DedupIdempotent | slice/slice.go:15-25 | deduplicating twice equals deduplicating once |
| Slice.AsMap | slice/slice.go:30-38 | the result is `IndexBy(slice, keyFunc)`: each item stored under its key, later items replacing earlier ones |
| MapSpec.IndexBy | slice/slice.go:30-38 | every item's key is in the map, and every stored item sits under its own key |
| MapSpec.IndexByKeys | slice/slice.go:30-38 | the map's keys are exactly the keys of the items |
| MapSpec.IndexByLastWins | slice/slice.go:30-38 | the value under a key is the last item with that key |
| Slice.AsMap2 | slice/slice.go:50-67 | the result is `IndexBy2(slice, keyFunc)`, with the inner map under `k1` created on first use |
| MapSpec.IndexBy2 | slice/slice.go:50-67 | every item's pair of keys leads to a stored item, and every stored item sits under its own pair of keys |
| MapSpec.IndexBy2Nested | slice/slice.go:50-67 | `k1` is present iff some item has first key `k1`, and the inner map under it is `AsMap` by second key of exactly those items |
| Slice.Contains | slice/slice.go:71-78 | true iff `target` occurs in the slice |
| Slice.ContainsFunc | slice/slice.go:82-89 | true iff some element satisfies the predicate |
| Slice.ContainsAll | slice/slice.go:93-113 | true for an empty `child`; false whenever `parent` is shorter than a non-empty `child`; otherwise true iff every element of `child` occurs in `parent` |
| Slice.ParentSet | slice/slice.go:101-105 | the set built from `parent` holds exactly its elements |
| Slice.AllIn | slice/slice.go:106-112 | the early-exit check is true iff every element of `child` is in the set |
| Slice.ContainsAllRejectsRepeats | slice/slice.go:93-113 | `ContainsAll([1], [1, 1])` is false although every element of `child` occurs in `parent` |
| Slice.ContainsAllFixed | slice/slice.go:93-113 | without the length shortcut, true iff every element of `child` occurs in `parent` |
| Slice.Intersection | slice/slice.go:117-133 | the result is `Common(a, b)`; deleting each collected element from `elementMap` is what keeps it from being collected twice |
| SliceSpec.Common | slice/slice.go:117-133 | the intersection is never longer than `b` |
| SliceSpec.CommonMembership | slice/slice.go:117-133 | an element is in the intersection iff it occurs in both `a` and `b` |
| SliceSpec.CommonDistinct | slice/slice.go:117-133 | each common element appears once |
| SliceSpec.CommonIsDedupOfSelect | slice/slice.go:117-133 | the intersection is the elements of `b` that occur in `a`, deduplicated, in order of first occurrence in `b` |
| SliceSpec.CommonEmpty | slice/slice.go:117-133 | the intersection is empty iff `a` and `b` share no element |
| Slice.Filter | slice/slice.go:138-150 | the result is `Select(slice, filterFunc)` |
| SliceSpec.Select | slice/slice.go:138-150 | the filtered sequence is at most as long as the input |
| SliceSpec.SelectMembership | slice/slice.go:138-150 | an element survives filtering iff it occurs in the input and satisfies the predicate |
| SliceSpec.SelectSatisfies | slice/slice.go:138-150 | every kept element satisfies the predicate |
| SliceSpec.SelectAppend | slice/slice.go:138-150 | filtering a concatenation concatenates the filtered parts, so relative order is kept |
| Slice.Find | slice/slice.go:156-164 | if found, the result is the element at the first index satisfying `matchFunc`, which heads `Select`; otherwise it is the zero value and no element matches |
| SliceSpec.SelectFirst | slice/slice.go:156-164 | the first matching element heads the filtered sequence |
| Slice.FindAll | slice/slice.go:170-184 | the result is `Select(slice, matchFunc)`, and `found` is true iff it is non-empty, which by `SelectEmpty` is iff some element matches |
| SliceSpec.SelectEmpty | slice/slice.go:181-183 | the filtered sequence is empty iff no element satisfies the predicate |
| Slice.GroupToMap | slice/slice.go:203-214 | the result is `GroupBy(list, keyFunc)` |
| MapSpec.GroupBy | slice/slice.go:203-214 | every item is in the group of its key, no group is empty, and every member of a group has that group's key |
| MapSpec.GroupByGroups | slice/slice.go:203-214 | a key has a group iff some item has that key, and its group is those items in input order |
| MapSpec.GroupBySizes | slice/slice.go:203-214 | the group lengths, summed over all keys, equal the number of items, so each item is placed once |
| Slice.GroupToMap2 | slice/slice.go:227-245 | the result is `GroupBy2(list, keyFunc)`, with the inner map under `k1` created on first use |
| MapSpec.GroupBy2 | slice/slice.go:227-245 | every item is in the group under its pair of keys |
| MapSpec.GroupBy2Nested | slice/slice.go:227-245 | `k1` is present iff some item has first key `k1`, and under it exactly those items are grouped by second key |
| MapSpec.GroupBy2Sizes | slice/slice.go:227-245 | over duplicate-free key lists covering the items' keys, the lengths of all groups add up to the number of items |
| Slice.GroupToMap3 | slice/slice.go:257-279 | the result is `GroupBy3(list, keyFunc)`, with the maps under `k1` and under `k1, k2` created on first use |
| MapSpec.GroupBy3 | slice/slice.go:257-279 | every item's triple of keys leads to a group |
| MapSpec.GroupBy3Nested | slice/slice.go:257-279 | `k1` is present iff some item has first key `k1`, and under it exactly those items are grouped two levels by their other keys |
| MapSpec.GroupBy3Sizes | slice/slice.go:257-279 | over duplicate-free key lists covering the items' keys, the lengths of all groups add up to the number of items |
| Slice.AddIfNotExist | slice/slice.go:283-295 | the result is `list` followed, in order, by the elements of `elem` absent from the original `list` (membership through `Contains`) |
| SliceSpec.Added | slice/slice.go:283-295 | the result is at most `len(list) + len(elem)` long |
| SliceSpec.AddedMembership | slice/slice.go:283-295 | the result starts with `list` and holds exactly the elements of `list` and `elem` |
| SliceSpec.AddedIdempotent | slice/slice.go:283-295 | adding the same elements again changes nothing |
| SliceSpec.AddedKeepsRepeatedNew | slice/slice.go:289-293 | a new element given twice is appended twice, because only the original list is consulted |
| Conditional.If | slice/conditional.go:4-9 | the result is one of the two values, and when they differ it is the first iff the flag holds |
| Conditional.IfTrue | slice/conditional.go:4-6 | a true flag yields the first value |
| Conditional.IfFalse | slice/conditional.go:7-8 | a false flag yields the second value |
| Conditional.IfSameBranches | slice/conditional.go:4-9 | with equal values the flag does not matter |
| Conditional.IfNegated | slice/conditional.go:4-9 | negating the flag and swapping the values gives the same result |
| Parallel.ParallelSize | parallel/parallel.go:19-27 | the size is the minimum of the default, the task count and the first requested size when given |
| Parallel.Run | parallel/parallel.go:11-35 | an empty name is rejected first, then an empty task list; a negative `ParallelSize` panics when the task channel is made; otherwise the job carries `name` and `tasks` unchanged and `ParallelSize` workers |
| Parallel.DefaultSize | parallel/parallel.go:19-22 | without a request the size is `min(default, len(tasks))` |
| Parallel.RequestOnlyLowers | parallel/parallel.go:23-27 | a request can only lower the size, to the request itself, and values after the first are ignored |
| Parallel.SizePositive | parallel/parallel.go:23-27 | for a non-empty batch the size is at least 1 iff the default and the request both are; with a positive default, a request `p <= 0` becomes the size unchanged |
| Parallel.NegativeRequestPanics | parallel/parallel.go:23-33 | a negative request for a named, non-empty batch makes `Run` panic instead of returning an error |
| Parallel.JobSizeBounds | parallel/parallel.go:19-32 | with a positive default and any request positive, a started job has between 1 and `len(tasks)` workers |
| Parallel.ZeroRequestStartsIdleJob | parallel/parallel.go:23-32 | with a positive default, a request of 0 passes validation and starts a job with 0 workers |
| Parallel.ParallelSizeFixed | parallel/parallel.go:19-27 | with a request below 1 ignored, a non-empty batch with a positive default gets at least 1 worker and at most `min(default, len(tasks))`; an absent or positive request gives the source's size |
| Parallel.RunFixed | parallel/parallel.go:11-35 | with the corrected sizing and a positive default, a job starts iff name and tasks are non-empty, with between 1 and `len(tasks)` workers |
| Parallel.AdaptersUnaffected | parallel/parallel.go:53 | for a positive default, `Foreach`'s and `Map`'s request of the default starts the same job with or without the correction |
| Parallel.ForeachTaskName | parallel/parallel.go:41-44 | the first given name if there is one, otherwise the default; it is empty iff an empty name is given explicitly |
| Parallel.Foreach | parallel/parallel.go:40-54 | `Foreach` is refused iff there are no items or an empty name is passed, with `EmptyName` for an explicitly empty name and `EmptyTasks` otherwise; it panics iff the arguments are valid and the default is negative; its job carries `ForeachTaskName(name)` and runs `min(default, len(items))` workers over the items |
| Parallel.MapTaskName | parallel/parallel.go:87 | the job name is never empty and ends with the given name |
| Parallel.Map | parallel/parallel.go:57-93 | `Map`'s name is never empty, so it is refused iff there are no items; it panics iff there are items and the default is negative; its job carries `MapTaskName(funType, name)` and runs `min(default, len(items))` workers over the items |

## Findings

| source | as written | input that shows it | evidently intended | confidence | as-written member | corrected member |
|---|---|---|---|---|---|---|
| slice/slice.go:15-25 | `tmpMap` is read but never written, so every element is appended | `Unique([1, 1])` returns `[1, 1]` | drop later repeats, keeping first occurrences (the comment says deduplicate) | not executed; high | Slice.UniqueKeepsRepeats | Slice.UniqueFixed |
| slice/slice.go:98-100 | returns false whenever `len(parent) < len(child)` | `ContainsAll([1], [1, 1])` returns false | true iff every element of `child` occurs in `parent` (the comment: parent contains all elements of child) | not executed; medium | Slice.ContainsAllRejectsRepeats | Slice.ContainsAllFixed |
| parallel/parallel.go:23-27 | a request below the computed size is used as it is, including 0 | `Run("job", tasks, 0)` with non-empty `tasks`: the job has 0 workers, so the worker loop (parallel/job.go:44) starts none, the watcher (parallel/job.go:58-62) closes the error channel at once, the dispatcher stays blocked on the unbuffered task channel, and `Run` returns nil without running any task | a request only lowers a positive worker count; a request below 1 is ignored | not executed; medium | Parallel.ZeroRequestStartsIdleJob | Parallel.RunFixed |

## Left out

- `SliceSort` (slice/slice.go:188-192) is not modelled. It only delegates to the standard library's unstable `sort.Slice`, which is not part of this model.
- parallel/job.go is not part of this model. It is the execution engine: the dispatcher and worker goroutines, channels, completion counting, failure aggregation, timing and logging. `Run` is modelled up to the job it would execute, so a run's task failures and its aggregate error are not modelled. What the engine does with a job of 0 workers is stated in "## Findings" from parallel/job.go:44 and 58-62, not proved.
- The job is modelled as a name, the tasks and a worker count. The source's channel fields are left out because the engine recreates them.
- Foreach and Map (parallel/parallel.go:46-51, 62-90) are modelled only by the arguments they pass to `Run`. Their task closures are left out because the closures run on goroutines. Map's result collection is left out because results arrive in completion order, which is nondeterministic. A job's task list is modelled by the items its tasks are bound to. This assumes the per-iteration loop variables of Go 1.22 and later, because the closures at parallel/parallel.go:48-50 and 68-75 capture the `range` variable `v`. The repository's Go version is not part of this model. Under Go 1.21 and earlier, all closures share one `v`, and the tasks run after the loop ends, so every task would call `fun` on the last item.
- `runtime.NumCPU()` is a call into the runtime. Its value, `defaultParallelSize`, is the parameter `defaultSize`.
- `%T` formatting is left out. The Go type name that `Map` formats into the job name is the parameter `funType`.
- Error messages are not modelled. They are the kinds `EmptyName` and `EmptyTasks`.
- Go's `==` on `comparable` keys is modelled as Dafny's equality, which is reflexive. For a floating-point key, Go's `NaN != NaN` is not modelled. In Go, a NaN element is never found by `Contains`, `ContainsAll`, `Intersection` or `AddIfNotExist`. In Go, every insertion under a NaN key adds a new map entry, in `AsMap`, `AsMap2`, and `GroupToMap`, `GroupToMap2`, `GroupToMap3`. Since Go 1.20 an interface type such as `any` satisfies `comparable`. When such a value holds a slice, a map or a function, Go's `==` and map hashing panic at run time. That panic is not modelled, for `Unique`, `AsMap`, `AsMap2`, `GroupToMap`, `GroupToMap2`, `GroupToMap3`, `Contains`, `ContainsAll`, `Intersection` and `AddIfNotExist`.
- The callbacks are modelled as pure, total Dafny functions: `transform`, `keyFunc`, `filterFunc`, `matchFunc`, the `match` predicate of `ContainsFunc` (the parameter `matches`) and `fun`. Three Go behaviours are therefore not captured:
  - A nil callback, or one that panics, makes the Go function panic. For example, `Transform(li, nil)` on a non-empty `li` panics, while the model always returns.
  - A callback with state or side effects can observe how often and in what order it is called. For example, `Find`, `Contains` and `ContainsFunc` stop calling it after the first match. The model does not state call counts or call order.
  - The lemmas that relate a stored item to its key rely on `keyFunc` returning the same key for the same item. `IndexBy`'s `key(r[k]) == k`, `IndexByKeys` and `GroupBy`'s "every member of a group has that group's key" are among them. A Go `keyFunc` with state is called once per item, and for it these need not hold.
- A panic's value and stack trace are not modelled. Only the fact of the panic is, as the outcome `Panicked`.
- `Find` takes Go's zero value of the element type as the parameter `zero`.
- Several Go details are not modelled because they have no functional content:
  - capacity hints;
  - the difference between a nil and an empty slice;
  - map iteration order;
  - possible sharing of the backing array between `AddIfNotExist`'s result and `list`.
- Lengths and sizes are unbounded integers. Go's `int` width is not a factor for slice lengths.
