# page: paging job, output algebra and selector-task builder in Dafny

This project models the deterministic core of the `page` scraping library (Go):

- **URL sets** (`Urls`): built from one URL, a list, or an integer range pushed
  through a format string, optionally stamped with a tag.
- **The paging job** (`PagingJob`): its URL list `Set`, the `Tags` map from URL
  to tag, the ordered `Tasks`, the `TaskAlias` table and the `Output` map from
  tag to a list of tuples. A task is a function from a document to tuples.
- **The worker** (`WorkerFunc`): one call per URL. It resolves the URL's tag,
  falling back to the URL itself. It runs every task in order and appends the
  results under the tag. A failed fetch leaves the output alone.
- **The output algebra**: `TaskN` at tuple, tuple-list and output level,
  `List`, `ListTaskN`, and the alias-resolving `Task`/`ListTask` wrappers.
- **The selector-task builder** (`SelectorJob`): `AddSelector`, `AddSubTask`
  (`Children`, `Find`), `AddSelectorTask` (`Text`, `Attr`) and `Alias`.
  The compiled task maps each matched element to a tuple and prunes the
  all-empty ones.

Documents (`Doc`) and matched elements (`Sel`) are type parameters. The
selection engine is a record of uninterpreted functions (`Selector.Engine`).
The builder is modelled twice. `Selector.SelectorTask` is a pure value-level
state machine whose functions carry the contracts. The class
`Selector.SelectorJob` holds that value and updates it in place, as the source
does. Map iteration order in `List`/`ListTaskN` is an explicit parameter
`order` that lists each tag once. Length and multiset results are proved
independent of it.

Two places where the code's evident intent and its letter differ; the model
follows the letter:

- The guard at sellector.go:91 shows `Alias` is meant to do nothing when there
  is no step to name. It tests for an empty step list only, but right after
  `AddSelector` the list holds the one pending step, so the name is bound to -1
  (see Findings).
- The worker appends a task's result when it is non-nil, not when it is
  non-empty. The model treats the two alike (see Left out).

Files: `wrappers.dfy` (Option), `output.dfy` (module `Outputs`), `page.dfy`
(module `Page`), `selector.dfy` (module `Selector`).

## Model

| member | source | states |
|---|---|---|
| `Outputs.TupleTaskN` | page.go:235-240 | slot i of the tuple when it has one, otherwise "" |
| `Outputs.TupleListTaskN` | page.go:242-250 | the result is no longer than the list and never contains ""; a value is in it iff it is non-empty and is slot i of some tuple |
| `Outputs.TupleListTaskNAppend` | page.go:242-250 | the non-empty values are kept in list order: the projection of a concatenation is the concatenation of the projections |
| `Outputs.Column` | page.go:228-230 | slot i of every tuple, one per tuple, in order |
| `Outputs.TaskN` | page.go:224-233 | a tag is a key iff its list is non-empty; under it, a sequence of the same length whose j-th element is slot i of the j-th tuple |
| `Outputs.List` | page.go:252-258 | for any tag iteration order: length is the total number of tuples over all tags and the multiset of tuples is the same |
| `Outputs.ListTaskN` | page.go:268-276 | length is the total number of tuples over all tags, for any tag iteration order |
| `Outputs.ListTaskNIsColumnOfList` | page.go:268-276 | ListTaskN is column i of List for the same iteration order |
| `Outputs.TupleTask` | page.go:208-214 | an unknown alias yields ""; a known one yields that slot, or "" past the end |
| `Outputs.TupleListTask` | page.go:216-222 | an unknown alias yields the empty list; a known one the tuple-list projection of its index |
| `Outputs.Task` | page.go:200-206 | an unknown alias yields the empty map; a known one the output projection of its index |
| `Outputs.ListTask` | page.go:260-266 | an unknown alias yields the empty list; a known one a list of one value per tuple in the output |
| `Outputs.Merge` | page.go:108-112 | the tag's list becomes its old value followed by the appended tuples; the tag gains an entry only when something is appended; every other tag is unchanged |
| `Outputs.MergeAppendOnly` | page.go:110 | the output only grows: each old list is a prefix of its new value |
| `Outputs.MergeTwice` | page.go:106-112 | appending two results one after the other is appending their concatenation |
| `Outputs.MergeTotal` | page.go:108-112 | a merge adds exactly the appended tuples to the total count and to the multiset of all tuples |
| `Outputs.MergeCommutes` | page.go:109-111 | two workers appending under different tags give the same output in either order |
| `Outputs.Arrive` | page.go:109-111 | the output after a sequence of locked appends (one task's result for one URL each), in arrival order: every list only grows, and a tag no append names keeps its list; each named tag's final list is `Outputs.ArriveFilesByTag` |
| `Outputs.ArriveFilesByTag` | page.go:109-111 | for every tag, its final list is its old list followed by the tuples of exactly the appends filed under that tag, in arrival order: no tuple lands under another tag and one tag's appends keep their order |
| `Outputs.ArriveKeepsEveryRow` | page.go:106-112 | whatever the order in which the locked appends of all workers arrive, the output holds exactly its old tuples plus every append's tuples |
| `Page.Urls.OnOne` | page.go:63-65 | the set holds exactly the one URL and no tag |
| `Page.Urls.OnMany` | page.go:67-71 | the set holds the given URLs in order and no tag |
| `Page.Urls.OnRange` | page.go:73-79 | exactly max(0, end-begin+1) URLs; the k-th is the format applied to begin+k; no tag |
| `Page.Urls.Tag` | page.go:81-84 | the tag is overwritten and the URLs are unchanged |
| `Page.Urls.AddTask` | page.go:153-157 | a fresh job over the set's URLs and tags with exactly the one task and nothing else |
| `Page.Urls.Text` | page.go:164-168 | a fresh job over the set's URLs and tags with exactly the whole-text task |
| `Page.Stamp` | page.go:132-136 | every URL of the list maps to the tag; other entries keep their value; the keys are the old keys plus the URLs |
| `Page.EffectiveTag` | page.go:101-104 | the recorded tag when it is non-empty, otherwise the URL itself |
| `Page.StampedUrlResolvesToTag` | page.go:130-137 | after a tagged set is merged, each of its URLs resolves to that tag, whatever tag it had before |
| `Page.RunTasks` | page.go:106-116 | the tuples all tasks yield on the document, task after task: none for no tasks, a single task's own result for one |
| `Page.RunTasksAppend` | page.go:106-116 | running a concatenation of task lists runs one list after the other |
| `Page.TextTask` | page.go:172-174 | a non-nil task that yields, on every document, exactly one tuple with one slot: the document's text |
| `Page.PagingJob.New` | page.go:121-128 | an empty job: no URLs, tasks, tags, aliases or output |
| `Page.PagingJob.Copy` | sellector.go:36 | a job with the same field values as the given one |
| `Page.PagingJob.AddRange` | page.go:130-137 | Set becomes the old Set followed by the set's URLs; Tags is stamped with the set's tag, or untouched when the tag is "" |
| `Page.PagingJob.AddTask` | page.go:159-162 | exactly one task is appended at the end; earlier tasks are unchanged |
| `Page.PagingJob.Text` | page.go:170-176 | exactly the whole-text task is appended at the end; earlier tasks are unchanged |
| `Page.WorkerFunc` | page.go:86-119 | on a fetch error the error is returned and Output is unchanged; on success no error, and Output is the old output merged with all tasks' results, in task order, under the effective tag; no other field changes |
| `Page.WorkerAddsItsRows` | page.go:101-112 | a successful worker call adds exactly its tasks' tuples to the total count and multiset |
| `Selector.Opened` | sellector.go:41-46 | the selector name and exactly one empty pending step, none finalised |
| `Selector.SelectorTask.AddSub` | sellector.go:98-107 | the pending step's chain gains `f` at its end; step count, earlier steps, name and extractor are unchanged; the builder shape is kept |
| `Selector.SelectorTask.Closed` | sellector.go:52-53 | the pending step gets the extractor; earlier steps are unchanged; in a well-formed builder every step then has an extractor |
| `Selector.SelectorTask.Finalize` | sellector.go:81-86 | the closed steps followed by a new empty step; the finalised count goes up by one |
| `Selector.Fold` | sellector.go:61-64 | an empty chain leaves the element as it is; a one-function chain applies that function |
| `Selector.FoldAppend` | sellector.go:61-64 | the sub-selection chain is applied left to right: a function added last is applied last |
| `Selector.Slots` | sellector.go:58-73 | one slot per step that has an extractor |
| `Selector.SlotsAppend` | sellector.go:60-73 | slots follow step order: later steps only add slots after earlier ones |
| `Selector.SlotsAt` | sellector.go:60-73 | with every step finalised, slot k is step k's extractor applied to the element narrowed by step k's chain |
| `Selector.Rows` | sellector.go:56-79 | no more tuples than matched elements; every tuple has one slot per extracting step and is not all-empty |
| `Selector.RowsAppend` | sellector.go:57-77 | tuples follow element match order |
| `Selector.RowsAt` | sellector.go:59-76 | element k contributes its tuple, in its place, iff at least one slot is non-empty, and nothing otherwise |
| `Selector.Compile` | sellector.go:56-79 | a non-nil task whose result on every document is Rows over the steps and the engine's matches for the selector |
| `Selector.CompiledTupleWidth` | sellector.go:51-88 | each tuple of the installed task has as many slots as finalised steps, is not all-empty, and there are at most as many tuples as matches |
| `Selector.AliasAsWritten` | sellector.go:90-96 | with no steps the table is unchanged; otherwise `name` is bound to the step count minus two and nothing else changes |
| `Selector.AliasBeforeAnyStep` | sellector.go:90-96 | right after AddSelector the code binds -1, which a tuple lookup cannot use (and a list or output lookup cannot once it holds a tuple) |
| `Selector.AliasChecked` | sellector.go:90-96 | binds the index of the latest finalised step, is a no-op while none is finalised, and never creates an unusable binding |
| `Selector.AliasAgreesAfterFinalize` | sellector.go:90-96 | once a step is finalised, the corrected and the as-written Alias agree |
| `Selector.AliasNamesLatestSlot` | sellector.go:90-96 | after AddSelectorTask(f), the alias index names the slot holding f's value, in every task compiled later |
| `Selector.ItemsScenario` | sellector.go:51-96 | ".item" with Text aliased "name" and Attr("href") aliased "link" over three matches, the middle one empty: two tuples, the source's Alias binds 0 and 1, and the "name" column is the two texts in match order |
| `Selector.FindIn` | sellector.go:118-120 | the sub-selection that maps every element to the engine's find-within for the given selector |
| `Selector.AttrOf` | sellector.go:131-134 | the extractor that yields the attribute's value when present and "" when absent |
| `Selector.SelectorJob.FromUrls` | sellector.go:26-32 | a fresh job over the set with one nil placeholder task and the selector opened |
| `Selector.SelectorJob.FromJob` | sellector.go:34-39 | a copy of the job with one nil placeholder task appended and the selector opened |
| `Selector.SelectorJob.AddSelector` | sellector.go:41-49 | the selector is opened with one empty step; exactly one placeholder task is appended |
| `Selector.SelectorJob.AddSubTask` | sellector.go:98-107 | the builder becomes AddSub(f) of its old value; the job is untouched |
| `Selector.SelectorJob.Children` | sellector.go:109-114 | adds exactly the children sub-selection |
| `Selector.SelectorJob.Find` | sellector.go:116-121 | adds exactly the find-within sub-selection for the given selector |
| `Selector.SelectorJob.AddSelectorTask` | sellector.go:51-88 | the builder is finalised with f; the task list keeps its length and earlier entries, and its last entry becomes the task compiled over the closed steps |
| `Selector.SelectorJob.Text` | sellector.go:123-128 | AddSelectorTask with the element-text extractor |
| `Selector.SelectorJob.Attr` | sellector.go:130-136 | AddSelectorTask with the attribute extractor, "" for a missing attribute |
| `Selector.SelectorJob.Alias` | sellector.go:90-96 | the alias table becomes AliasAsWritten of its old value |

## Left out

- Fetching and parsing (`GetPageBody`): the worker takes the fetch outcome, a document or an error message, as a parameter.
- The goquery engine (`Find`, `Children`, `Text`, `Attr`, `Each`): uninterpreted functions of `Selector.Engine`. `doc.Find(...).Each` is a sequence of matches in document order.
- `fmt.Sprintf`: a `sprintf` function parameter of `OnRange`.
- The mutex and parallel worker calls: one call is one sequential update. Interleavings are modelled only as arrival orders of whole contributions (`Outputs.Arrive`).
- Logging, `DebugWorker` tracing and the `log.Fatalf` on a failed job type assertion.
- `Run`, `Get`, `Out`, `UseWorker` and `Worker.AddRange`: they depend on the `Worker`/`Job` scaffolding, which is not part of this model. The `Task` wrappers take the alias table directly instead of downcasting `w.Job`.
- Map iteration order: `List`, `ListTaskN` and `ListTask` take the order as a parameter.
- nil versus empty slices: a task returning an empty but non-nil slice makes the source create an empty entry for the tag. `Outputs.Merge` creates an entry only when something is appended. A nil map or slice result is the empty value.
- Go's sharing between `sj.PagingJob = *pj` and the original job: maps and slice backing arrays are shared there. `Page.PagingJob.Copy` is a value copy.
- The double call of an extractor in the compiled closure: extractors are pure functions, so both calls agree.
- Integer overflow in `OnRange`: with `end` at the largest int the Go loop never ends. Integers are unbounded here.
- Panics are preconditions, stated only where the source actually indexes. These are: a negative index on a tuple (`OutputWithTag.TaskN` always reads it); a negative index on any tuple of a list (`OutputListWithTag.TaskN`, whose tuple lookup returns "" for a too large index); a negative or too large index on any tuple of an output (`PagingOutput.TaskN` and `ListTaskN` index the tuple directly); calling the nil placeholder task in `WorkerFunc`; and `AddSelectorTask`/`AddSubTask` on a selector job that was never opened. Empty lists and outputs accept any index.
- The compiled closure's sharing of the step list: in the source the closure installed by `AddSelectorTask` reads the builder's step array, which the next `AddSubTask`/`AddSelectorTask` writes into. While the closure is still the job's last task it is overwritten anyway, but if another task is appended in between (the promoted `AddTask`), the earlier closure stays in `Tasks` and later also emits the slot of the step that was pending when it was installed (its captured step list keeps the length it had then, so steps finalised after that one never reach it). `Selector.Compile` freezes the steps at the time of the call, so the model does not capture that later growth.
- `AddSelectorTask` and `AddSubTask` with a nil argument: Go accepts `AddSelectorTask(nil)`, which finalises a step that yields no slot (the `f != nil` test in the compiled closure), while `Alias` still counts that step, so every later alias index is shifted off its slot; `AddSubTask(nil)` panics only when the compiled task runs. Here extractors and sub-selections are total functions, so neither a slot-less finalised step nor that alias shift is modelled, and `Selector.AliasNamesLatestSlot` holds only for step lists without one.
- Outputs.ListTask: states the length of the result for a known alias, not its elements; the elements are those of `Outputs.ListTaskN`.

## Findings

| source | as written | input that shows it | evidently intended | confidence | as-written member | corrected member |
|---|---|---|---|---|---|---|
| sellector.go:90-96 | `Alias` skips only an empty step list and binds `len(steps) - 2` | `OnOne(u).AddSelector("p").Alias("x")` binds "x" to -1; a later `OutputWithTag.Task(w, "x")` evaluates `o[-1]` and panics, and so does a list or output lookup once it holds a tuple | `Alias` does nothing until a step has been finalised, as the guard at sellector.go:91 suggests | medium, not executed | `Selector.AliasAsWritten`, `Selector.AliasBeforeAnyStep` | `Selector.AliasChecked`, `Selector.AliasNamesLatestSlot` |
