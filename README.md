# TaskAssist in Dafny

A model of `TaskAssist.js`, the configuration holder of a gulp build. One `TaskAssist`
object keeps:

- a path store with two sections, `input` and `output`. Each section is one map. Its
  `root` key holds a string, and its other keys hold a path fragment or a list of fragments.
- a map of supported file extensions.
- a store of named option blocks that are updated by deep merge.
- two status cells, `mainTaskID` and `isWatching`.

The files:

- `js_value.dfy` (module `JsValue`): JavaScript values as a datatype (`undefined`, `null`,
  booleans, numbers, strings, arrays, records) and `typeof`.
- `deep_merge.dfy` (module `DeepMerge`): `objectMerge`. `Merge` is the pure recursive
  definition of the value the merge leaves in `base`. `ObjectMerge` is the source's key loop,
  which assigns one key at a time and recurses into nested records; it is proved equal to
  `Merge`. The lemmas cover the per-key rule, identity, idempotence, leaves of `add` winning
  and untouched paths of `base` surviving.
- `task_assist.dfy` (module `TaskAssist`): the class with fields `input`, `output`, `ext`,
  `options` and a `Status` object. It has `SetPath`, `GetPath`, the root getters,
  `SupportExt` and `SetOption`. `SetOption` is specified by the function `OptionsAfter`.

`path.join` from Node's path library is passed to `GetPath` as a function parameter `join`.
Nothing is assumed about it.

Two behaviours of the code a reader might not expect:

- A `null` in `add` does not overwrite a record in `base`. The test at TaskAssist.js:14-17
  admits `null` on both sides, and recursing into `null` visits no key, so the record
  survives (`NullKeepsBaseRecord`).
- For the same reason, a `null` in `base` merged with an empty record stays `null`.

## Model

| member | source | states |
|---|---|---|
| JsValue.TypeOf | TaskAssist.js:14-15 | `typeof` is "object" exactly for null, arrays and records, and "undefined" exactly for undefined |
| DeepMerge.Merge | TaskAssist.js:11-25 | objectMerge returns its base: the result is a record exactly when the base was one, and it again passes the non-array-object test |
| DeepMerge.ObjectMerge | TaskAssist.js:11-25 | the for…in loop that assigns base[key] key by key, recursing for nested records, returns exactly `Merge(base, add)` |
| DeepMerge.MergeAt | TaskAssist.js:12-22 | result keys are keys(base) ∪ keys(add); a key of add is the recursive merge when both values are non-array objects and add's value verbatim otherwise; keys only in base keep their values |
| DeepMerge.ArrayReplacedWhole | TaskAssist.js:16-21 | an array in add replaces base's value under that key whole, never element-wise |
| DeepMerge.NullKeepsBaseRecord | TaskAssist.js:14-19 | a null in add leaves a record in base unchanged |
| DeepMerge.MergeEmptyIsIdentity | TaskAssist.js:11-25 | merging an empty record never throws and changes nothing |
| DeepMerge.MergeableSelf | TaskAssist.js:11-25 | merging any record or null into itself never throws |
| DeepMerge.MergeSelf | TaskAssist.js:11-25 | merging a record into itself returns it unchanged |
| DeepMerge.MergeableAgain | TaskAssist.js:11-25 | a merge result accepts the same add again without throwing |
| DeepMerge.MergeIdempotent | TaskAssist.js:11-25 | merge is idempotent by value: merge(merge(b, a), a) = merge(b, a) |
| DeepMerge.AddLeafWins | TaskAssist.js:12-22 | every leaf of add (scalar, array or undefined, at any depth) is found at the same path in the result |
| DeepMerge.UntouchedPathKept | TaskAssist.js:12-24 | a path of base, at any depth, that add stops short of (add's record there lacks the next key) leads to the same value after the merge |
| TaskAssist.ParseDirection | TaskAssist.js:117-121 | the direction selects input iff it starts with "in", output iff it does not and starts with "out", and nothing otherwise |
| TaskAssist.JoinAll | TaskAssist.js:154 | the mapped list has the input's length and element i is join(root, segs[i]), in order |
| TaskAssist.EffectiveParam | TaskAssist.js:204 | an omitted (undefined) option block stands for an empty record; any other value is kept |
| TaskAssist.OptionsAfter | TaskAssist.js:204-216 | setOption stores param under name when none is stored or diff is exactly false, and objectMerge(old, param) otherwise; every other name is unchanged and no other name appears |
| TaskAssist.SetOptionRepeatIsIdempotent | TaskAssist.js:204-216 | repeating a setOption call with the default diff leaves the option store as it was |
| TaskAssist.SetOptionMergeOrReplace | TaskAssist.js:204-216 | setOption x {a:1} then x {b:2} gives {a:1, b:2}; with diff false the second call gives {b:2} |
| TaskAssist.Status.constructor | TaskAssist.js:82-85 | the status cells start as "" and false |
| TaskAssist.Status.SetMainTaskID | TaskAssist.js:91-95 | setting mainTaskID stores the value and leaves isWatching alone |
| TaskAssist.Status.SetIsWatching | TaskAssist.js:100-104 | setting isWatching stores the value and leaves mainTaskID alone |
| TaskAssist.TaskAssist.constructor | TaskAssist.js:39-85 | each section starts holding only its root; ext and options start empty; the status is fresh with its defaults |
| TaskAssist.TaskAssist.InputRootPath | TaskAssist.js:52-56 | inputRootPath is the string stored under the input section's root key |
| TaskAssist.TaskAssist.OutputRootPath | TaskAssist.js:57-61 | outputRootPath is the string stored under the output section's root key |
| TaskAssist.TaskAssist.AssignRootPath | TaskAssist.js:51-62 | assigning to a root alias changes neither root |
| TaskAssist.TaskAssist.SetPath | TaskAssist.js:115-127 | a direction starting "in" (or else "out") shallow-assigns newPath over that section only; the other section is unchanged; the roots track a given root; any other direction changes nothing and reports failure |
| TaskAssist.TaskAssist.GetPath | TaskAssist.js:138-162 | invalid direction gives undefined; raw gives the stored entry (undefined if absent); otherwise a string is joined with root and a list is mapped element-wise, in order, to join(root, fragment) |
| TaskAssist.TaskAssist.SupportExt | TaskAssist.js:173-176 | sets ext[type] to the value and changes no other label |
| TaskAssist.TaskAssist.SetOption | TaskAssist.js:204-216 | the option store becomes `OptionsAfter(old options, name, param, diff)` |
| TaskAssist.PathExamples | TaskAssist.js:115-162 | root "/src" then fragment "styles" resolve to join("/src", "styles"), or "styles" when raw; a list under "/dist" resolves element-wise; "bogus" gives undefined |

## Left out

- setTask (TaskAssist.js:185-193) is not modelled. It only calls a caller-supplied `setFunc`, or calls `gulp.task` with a bound function, and both are foreign code.
- The normalisation done by Node's `path.join` is not modelled. It is an arbitrary function parameter `join`.
- The `console.error` messages for an invalid direction are not modelled. Only the no-op and the `undefined` result are.
- The constructor's `__dirname` defaults are not modelled. Both roots are plain parameters.
- Aliasing is not modelled; the model uses value semantics. In the source, `setOption` stores `param` by reference and `objectMerge` shares nested records. Later merges can therefore mutate the caller's objects.
- for…in's visits to inherited properties are not modelled.
- Property reads that see inherited members are not modelled. For example, `options["toString"]` is not `undefined` in the source, so setOption takes the merge path there, while `OptionsAfter` replaces.
- Property enumerability flags are not modelled.
- getPath writing `option.raw` back into the caller's option object is not modelled.
- JavaScript numbers are modelled as integers. Floating point does not affect any branch here.
- DeepMerge.Merge: requires `Mergeable`. This excludes the input the source throws on: a `null` in base meeting a non-empty record in add, at any depth. It also requires both top-level arguments to be records or `null`, so it excludes calls that never throw: `objectMerge({a:1}, [3])` runs for…in over the array and gives `{a:1, "0":3}`.
- At the top level the source merges arrays index by index: `setOption('x', [1,2])` then `setOption('x', [3])` leaves `[3,2]`. Arrays are replaced whole only below the top level; the model does not cover the top-level case.
- DeepMerge.ObjectMerge: has the same `Mergeable` precondition as `Merge`. It excludes the throwing input, and also top-level arguments that are not records or `null` (arrays, strings, other primitives), which the source accepts without throwing.
- TaskAssist.TaskAssist.SetOption: on the merge path, both the stored block and `param` must be records or `null`. When either top-level value is an array, a string or another primitive, for…in walks array or string indices or assigns into a primitive. That case is not modelled.
- TaskAssist.OptionsAfter: has the same restriction as `SetOption`.
- TaskAssist.TaskAssist.GetPath: when `raw` is false, it requires the named entry to exist. The source passes `undefined` to `path.join`, which throws.
- TaskAssist.TaskAssist.SetPath: requires that a `root` given in `newPath` be a string. A section's root is always a string, and a non-string root is a caller error the source does not defend against.
- TaskAssist.Status.SetMainTaskID: takes a string, while the source's setter accepts any value.
- TaskAssist.Status.SetIsWatching: takes a boolean, while the source's setter accepts any value.
- The status getters are not separate members. They are the fields `mainTaskID` and `isWatching` themselves.
