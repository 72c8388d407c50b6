# streamAPI core in Dafny

This project models the core of the `streamAPI` library of pyAddict/Basics. That core is:

- the conditional helpers of `streamAPI/stream/streamHelper.py`: the `_IfThen` branch, the `ChainedCondition` builder, the `ListType`/`SetType` value containers of `group_by`, and `Supplier`;
- the pure helpers of `utility/utils.py`: `divide_in_chunk`, `get_file_name`, `filter_transform`, the attribute dictionary of `constructor_setter`, and `date_generator`;
- the Stream operations pinned down by `streamAPI/test/stream/stream/stream_test.py`: `reduce`, `mapping`, `batch`, `enumerate`, `group_by`, `zip`, `zip_longest`, `cycle`, `if_else` and `conditional`.

The project has four modules:

- `Common` holds the exceptions the code raises, the `Result` type that carries them, and the library's `Optional`.
- `StreamHelper` is the conditional machinery:
  - the `Branch` datatype and its `Apply`;
  - `Dispatch`, the first-match semantics of a chain of branches;
  - the classes `ChainedCondition`, `ListType`, `SetType` and `Supplier`, whose methods update their fields as the Python objects do.
- `Utils` holds the utility functions.
  - Loops in the source stay loops: `DivideInChunk` and `DateGenerator` are methods, proved against the specification functions `Chunks` and `SteppedRange`.
  - `SameNameAsConstructor` is a method of successive dictionary updates, each specified through `UpdateZip`.
  - The properties promised by the docstrings and tests are lemmas about those functions.
- `StreamOps` gives each Stream operation a specification function on finite sequences, with lemmas that state what the operation computes:
  - the value of each key of `mapping`;
  - the content of each `group_by` container;
  - the shape and the entries of `zip`, `zip_longest` and `cycle`;
  - the first-match dispatch of `conditional`.

  Each example of the stream tests is then proved as a lemma. The random-number tests of `if_else` and `conditional` are methods. Each method computes the counted pipeline and the test's own counting loop over an arbitrary input, and proves the two maps equal.

`ChainedCondition.otherwise` on a condition with no branch raises `AttributeError` (streamAPI/stream/streamHelper.py:227-228), so `Otherwise` returns `Err(AttributeError)`.

## Model

| member | source | states |
|---|---|---|
| StreamHelper.Branch.Apply | streamAPI/stream/streamHelper.py:126-127 | the branch yields a present Optional exactly when its predicate holds, and then its value is the transform of the element; otherwise EMPTY |
| StreamHelper.Dispatch | streamAPI/stream/streamHelper.py:258-264 | the result is the element itself or the transform of some branch whose predicate accepts it |
| StreamHelper.DispatchFirstMatch | streamAPI/stream/streamHelper.py:254-261 | applying the chain returns the transform of the first branch whose predicate holds |
| StreamHelper.DispatchNoMatch | streamAPI/stream/streamHelper.py:263-264 | when no predicate holds, the element itself is returned |
| StreamHelper.DispatchAppend | streamAPI/stream/streamHelper.py:201-212 | appending branches never changes the result for an element some earlier branch matches; for other elements the appended branches decide |
| StreamHelper.IfElseDispatch | streamAPI/stream/streamHelper.py:164-179 | the two-branch chain built by if_else returns if_(e) when the predicate holds and else_(e) otherwise |
| StreamHelper.NatToStringRoundTrip | streamAPI/stream/streamHelper.py:279-283 | the elif count written into the default name is the decimal rendering of that count (reading it back gives the count) |
| StreamHelper.DefaultNameOf | streamAPI/stream/streamHelper.py:266-283 | the "no condition" text is produced exactly for zero branches and the "'if' condition" text exactly for one |
| StreamHelper.DefaultNameTwoBranches | streamAPI/stream/streamHelper.py:275-283 | with two branches the name is "'if' then 1 elif condition" when the 'else' flag is clear and "'if' and 'else' condition" when it is set; the code as written never sets the flag (see Findings) |
| StreamHelper.ChainedCondition.DefaultName | streamAPI/stream/streamHelper.py:266-283 | the condition's own name reads "no condition" exactly when it has no branch and "'if' condition" exactly when it has one |
| StreamHelper.ChainedCondition.constructor | streamAPI/stream/streamHelper.py:158-162 | a new condition has no branches, is open, has the 'else' flag cleared and keeps the given name |
| StreamHelper.ChainedCondition.IfThen | streamAPI/stream/streamHelper.py:201-212 | on an open condition, appends one branch and returns the condition itself; on a closed one, fails with PipelineAlreadyClosed and leaves the branches alone |
| StreamHelper.ChainedCondition.Otherwise | streamAPI/stream/streamHelper.py:214-230 | closed → PipelineAlreadyClosed; no branch yet → AttributeError with nothing changed; otherwise appends an always-true branch and closes the condition |
| StreamHelper.ChainedCondition.OtherwiseMarkingElse | streamAPI/stream/streamHelper.py:214-230 | the same as Otherwise, and it also sets the 'else' flag that default_name reads |
| StreamHelper.ChainedCondition.Done | streamAPI/stream/streamHelper.py:232-239 | closes the condition; it returns the condition itself, or PipelineAlreadyClosed if it was already closed |
| StreamHelper.ChainedCondition.Apply | streamAPI/stream/streamHelper.py:241-264 | open → PipelineNotClosed; closed → the first-match dispatch of the element through the branches in order |
| StreamHelper.ChainedCondition.IfElse | streamAPI/stream/streamHelper.py:164-179 | a fresh closed condition whose branches are (predicate, if_) then (always-true, else_) |
| StreamHelper.IfElseNameAsWritten | streamAPI/stream/streamHelper.py:273-283 | a condition built by if_else names itself "'if' then 1 elif condition" |
| StreamHelper.IfElseNameIntended | streamAPI/stream/streamHelper.py:275-277 | with the 'else' flag set, the same condition names itself "'if' and 'else' condition" |
| StreamHelper.ListType.constructor | streamAPI/stream/streamHelper.py:51-52 | a new ListType container is empty |
| StreamHelper.ListType.Add | streamAPI/stream/streamHelper.py:54-55 | add appends: the new contents are the old ones followed by the value |
| StreamHelper.SetType.constructor | streamAPI/stream/streamHelper.py:64-65 | a new SetType container is empty |
| StreamHelper.SetType.Add | streamAPI/stream/streamHelper.py:67 | add inserts into the set; adding a value already present changes nothing |
| StreamHelper.Supplier.constructor | streamAPI/stream/streamHelper.py:91-92 | wraps the producer; no call has been made yet |
| StreamHelper.Supplier.Next | streamAPI/stream/streamHelper.py:98-99 | each pull calls the producer once and returns what that call produces |
| StreamHelper.Supplier.Take | streamAPI/stream/streamHelper.py:94-96 | the first n items of the endless iteration are the next n producer calls, in order |
| Utils.Chunks | utility/utils.py:266-267 | definition of the slices docs[i:i+n] for i in range(0, len, n); its properties are stated by ChunksFlatten, ChunksCount, ChunkAt and ChunkSizes |
| Utils.ChunksFlatten | utility/utils.py:266-267 | concatenating the chunks gives back the input |
| Utils.ChunksCount | utility/utils.py:266-267 | no chunks exactly for an empty input; otherwise the count is the ceiling of len/chunk_size |
| Utils.ChunkAt | utility/utils.py:266-267 | chunk i is the slice docs[i*n : i*n+n], clipped at the end |
| Utils.ChunkSizes | utility/utils.py:256-257 | every chunk but the last has exactly chunk_size elements, and the last has between 1 and chunk_size |
| Utils.DivideInChunk | utility/utils.py:254-267 | the whole input as one chunk when it fits; otherwise the chunks above for a positive size, ValueError for size 0, and nothing for a negative size |
| Utils.DivideInChunkExample | streamAPI/test/utility/utils_test.py:8-10 | range(2, 12) in chunks of 3 is (2,3,4), (5,6,7), (8,9,10), (11,) |
| Utils.Split | utility/utils.py:162 | str.split gives at least one piece, and no piece contains the separator |
| Utils.SplitCount | utility/utils.py:162 | there is exactly one more piece than there are separators in the string |
| Utils.SplitJoin | utility/utils.py:162 | joining the pieces with the separator gives back the string |
| Utils.JoinSplit | utility/utils.py:162 | splitting the join of separator-free pieces gives back the pieces |
| Utils.SplitPrefix | utility/utils.py:162 | a separator-free prefix merges into the first piece |
| Utils.SplitFirstIsPrefix | utility/utils.py:162 | the first piece is a prefix of the string, followed by the separator or the end of the string |
| Utils.PyIndex | utility/utils.py:162 | Python list indexing: defined exactly for -len <= at < len, counting from the end for negative indices, IndexError otherwise |
| Utils.GetFileName | utility/utils.py:155-162 | succeeds exactly when `at` indexes a path component (IndexError otherwise); the result is the part of that component before its first '.', so it holds neither '/' nor '.' |
| Utils.GetFileNameExamples | streamAPI/test/utility/utils_test.py:12-15 | 'a/b/c/d.text' gives 'd' at -1, 'c' at -2 and 'a' at 0, and IndexError at 4 |
| Utils.Filter | utility/utils.py:279 | Python `filter` keeps at most as many elements as it is given |
| Utils.Map | utility/utils.py:279 | map keeps the length and transforms each element in place |
| Utils.FilterAppend | utility/utils.py:279 | filtering distributes over concatenation |
| Utils.MapAppend | utility/utils.py:279 | mapping distributes over concatenation |
| Utils.FilterTransform | utility/utils.py:270-279 | filter_transform never yields more elements than it is given |
| Utils.FilterTransformAppend | utility/utils.py:270-279 | filter_transform of a concatenation is the concatenation of the two results |
| Utils.FilterTransformSingle | utility/utils.py:270-279 | one element is kept, transformed, exactly when it meets the condition |
| Utils.FilterTransformMembers | utility/utils.py:270-279 | y is in the result exactly when some element meeting the condition transforms to y |
| Utils.FilterTransformExample | streamAPI/test/utility/utils_test.py:39-43 | the odd numbers of range(10), each plus one, are (2, 4, 6, 8, 10) |
| Utils.UpdateZip | utility/utils.py:60 | dict.update(zip(keys, vals)): the keys are the old keys plus the zipped ones; untouched keys keep their values; with distinct names, each zipped key gets its paired value |
| Utils.PositionalNamesAt | utility/utils.py:60 | the names receiving positional arguments are args[1..len(args)], which are distinct when all names are |
| Utils.DistinctLastN | utility/utils.py:63 | the names paired with defaults are distinct when all names are |
| Utils.SameNameAsConstructor | utility/utils.py:52-71 | *args → VarArgPresent; otherwise the dictionary has exactly the positional, defaulted, keyword-only-default and keyword names, and values go by the order of updates: kwargs win, then keyword-only defaults, then defaults, then positional values |
| Utils.ConstructorSetterKwargsExample | streamAPI/test/utility/utils_test.py:17-23 | Foo(1, 2, p=4, q=10) gives {a:1, b:2, p:4, q:10} |
| Utils.ConstructorSetterKwOnlyNoKwargsExample | streamAPI/test/utility/utils_test.py:25-30 | Foo(1, 2, p=5, q=100) with keyword-only q and no **kwargs gives {a:1, b:2, p:5, q:100} |
| Utils.ConstructorSetterKwOnlyExample | streamAPI/test/utility/utils_test.py:32-37 | Foo(1, 2, p=5, q=100, r=9) gives {a:1, b:2, p:5, q:100, r:9} |
| Utils.PositionalDefaultAsWritten | utility/utils.py:60-64 | as written, Foo(1, 2, 7) with default p=3 gets p == 3 |
| Utils.SameNameAsConstructorIntended | utility/utils.py:52-71 | the same dictionary with defaults applied first, so a positionally passed value is never replaced by a default |
| Utils.PositionalDefaultIntended | utility/utils.py:60-64 | with the intended order, Foo(1, 2, 7) gets p == 7 |
| Utils.SteppedRange | utility/utils.py:246-249 | the generated days lie within [start, last] and strictly increase |
| Utils.SteppedRangeMembers | utility/utils.py:246-249 | a day is generated exactly when it lies in [start, last] and is a whole number of intervals after start |
| Utils.SteppedRangeSteps | utility/utils.py:246-249 | generation starts at start whenever start <= last, and consecutive days are one interval apart |
| Utils.DateGenerator | utility/utils.py:226-249 | AssertionError when start > end (inclusive) or start >= end (exclusive); otherwise the stepped days up to end, or up to end-1 when the end is excluded |
| Utils.DateGeneratorExample | streamAPI/test/utility/utils_test.py:49-54 | days 1 to 10 with interval 2 are 1, 3, 5, 7, 9 |
| StreamOps.FoldLeft | streamAPI/test/stream/stream/stream_test.py:12-26 | definition of the left fold reduce performs; its step is stated by FoldLeftSnoc |
| StreamOps.FoldLeftSnoc | streamAPI/test/stream/stream/stream_test.py:12-26 | the left fold of a sequence extended by x is op(previous fold, x) |
| StreamOps.Reduce | streamAPI/test/stream/stream/stream_test.py:15-26 | reduce is EMPTY exactly when the stream is empty and no initial point is given; an empty stream gives back the initial point, so `initial_point = v` yields `Of(v)` |
| StreamOps.ReduceSnoc | streamAPI/test/stream/stream/stream_test.py:12-26 | reducing s + [x] combines the reduction of s (or x alone when that is EMPTY) with x |
| StreamOps.ReduceExamples | streamAPI/test/stream/stream/stream_test.py:15-26 | sum(range(3, 9)) = 33; [] → EMPTY; [1] → 1; [1,2] → 3; with initial point 10: 10, 11, 13 |
| StreamOps.Mapping | streamAPI/test/stream/stream/stream_test.py:28-34 | definition of mapping as a store-or-resolve step per element; characterised by MappingSpec |
| StreamOps.MappingSnoc | streamAPI/test/stream/stream/stream_test.py:28-34 | one more element either adds its key or resolves the old value with the new one |
| StreamOps.MappingSpec | streamAPI/test/stream/stream/stream_test.py:28-34 | a key is present exactly when some element has it, and its value is the left fold under resolve of that key's values in stream order |
| StreamOps.MappingSquaresExample | streamAPI/test/stream/stream/stream_test.py:29-31 | [5,2,5,3,4] with squares and + gives {5:50, 2:4, 3:9, 4:16} |
| StreamOps.MappingParityExample | streamAPI/test/stream/stream/stream_test.py:33-34 | [1..6] by parity with + gives {1:9, 0:12} |
| StreamOps.MappingCounts | streamAPI/test/stream/stream/stream_test.py:117-118 | mapping(identity, 1, +) counts: each element is a key, and its value is its number of occurrences |
| StreamOps.CountOccurrences | streamAPI/test/stream/stream/stream_test.py:120-125 | the defaultdict counting loop yields, for each occurring key, its number of occurrences |
| StreamOps.CountsAgree | streamAPI/test/stream/stream/stream_test.py:127 | any map with those keys and counts equals the counting mapping |
| StreamOps.Batch | streamAPI/test/stream/stream/stream_test.py:36-38 | batch(n) loses and adds nothing: concatenating the batches gives the stream back, and there are none exactly for an empty stream |
| StreamOps.BatchExample | streamAPI/test/stream/stream/stream_test.py:36-38 | range(10) in batches of 3 is (0,1,2), (3,4,5), (6,7,8), (9,) |
| StreamOps.Enumerate | streamAPI/test/stream/stream/stream_test.py:40-42 | one pair per element, item i being (i, s[i]) |
| StreamOps.EnumerateFromAt | streamAPI/test/stream/stream/stream_test.py:40-42 | enumerate keeps the length, and item i is (start + i, s[i]) |
| StreamOps.EnumerateSpec | streamAPI/test/stream/stream/stream_test.py:40-42 | the counters are 0, 1, 2, …; dropping them gives the stream back |
| StreamOps.EnumerateExample | streamAPI/test/stream/stream/stream_test.py:40-42 | range(4, 10) enumerates to (0,4) … (5,9) |
| StreamOps.GroupByList | streamAPI/test/stream/stream/stream_test.py:44-52 | definition of group_by into ListType containers; characterised by GroupByListSpec |
| StreamOps.GroupBySet | streamAPI/test/stream/stream/stream_test.py:54-55 | definition of group_by into SetType containers; characterised by GroupBySetSpec |
| StreamOps.GroupByListSnoc | streamAPI/test/stream/stream/stream_test.py:44-52 | one more element is added to its key's list, creating the list if needed |
| StreamOps.GroupBySetSnoc | streamAPI/test/stream/stream/stream_test.py:54-55 | one more element is added to its key's set, creating the set if needed |
| StreamOps.GroupByListSpec | streamAPI/test/stream/stream/stream_test.py:44-52 | a key is present exactly when some element has it, and its list holds that key's mapped values in stream order, duplicates kept |
| StreamOps.GroupByListPlacesEveryElement | streamAPI/test/stream/stream/stream_test.py:44-52 | every element's mapped value is in the container of its key |
| StreamOps.GroupBySetSpec | streamAPI/test/stream/stream/stream_test.py:54-55 | with SetType the keys are the same, and each set holds exactly the values of the corresponding ListType list |
| StreamOps.GroupByListValueMapper | streamAPI/test/stream/stream/stream_test.py:48-49 | a value mapper leaves the keys alone and maps each container of the plain grouping |
| StreamOps.GroupByListValueMapperKeys | streamAPI/test/stream/stream/stream_test.py:48-49 | grouping with a value mapper has exactly the keys of the plain grouping |
| StreamOps.GroupByListStep | streamAPI/test/stream/stream/stream_test.py:44-52 | grouping one more element of the stream adds its mapped value to its key's list, creating the list on the key's first element |
| StreamOps.GroupBySetStep | streamAPI/test/stream/stream/stream_test.py:54-55 | the same for SetType: the value joins its key's set |
| StreamOps.GroupByListMod3Example | streamAPI/test/stream/stream/stream_test.py:45-46 | range(10) by x % 3 gives {0:[0,3,6,9], 1:[1,4,7], 2:[2,5,8]} |
| StreamOps.GroupByListSquaresExample | streamAPI/test/stream/stream/stream_test.py:48-49 | with squared values: {0:[0,9,36,81], 1:[1,16,49], 2:[4,25,64]} |
| StreamOps.GroupByListParityExample | streamAPI/test/stream/stream/stream_test.py:51-52 | [1,2,3,4,2,4] by parity into ListType gives {1:[1,3], 0:[2,4,2,4]} |
| StreamOps.GroupBySetParityExample | streamAPI/test/stream/stream/stream_test.py:54-55 | the same into SetType gives {1:{1,3}, 0:{2,4}} |
| StreamOps.MinLen | streamAPI/test/stream/stream/stream_test.py:57-62 | the length of the shortest input, attained by one of them |
| StreamOps.MaxLen | streamAPI/test/stream/stream/stream_test.py:64-98 | the length of the longest input, attained by one of them (0 for none) |
| StreamOps.Zip | streamAPI/test/stream/stream/stream_test.py:57-62 | definition of Python zip; characterised by ZipLength and ZipAt |
| StreamOps.ZipLongest | streamAPI/test/stream/stream/stream_test.py:64-98 | definition of zip_longest; characterised by ZipLongestLength and ZipLongestAt |
| StreamOps.StreamZip | streamAPI/test/stream/stream/stream_test.py:57-62 | Stream.zip is no longer than the stream or any other input |
| StreamOps.StreamZipLongest | streamAPI/test/stream/stream/stream_test.py:64-98 | Stream.zip_longest is at least as long as the stream and every other input |
| StreamOps.ZipLength | streamAPI/test/stream/stream/stream_test.py:57-62 | zip stops with the shortest input |
| StreamOps.ZipAt | streamAPI/test/stream/stream/stream_test.py:57-62 | row i holds the i-th element of every input, in argument order |
| StreamOps.ZipLongestLength | streamAPI/test/stream/stream/stream_test.py:64-98 | zip_longest runs to the longest input |
| StreamOps.ZipLongestAt | streamAPI/test/stream/stream/stream_test.py:64-98 | row i holds each input's i-th element, or the fill value once that input is exhausted |
| StreamOps.StreamZipAfter | streamAPI/test/stream/stream/stream_test.py:57-62 | `after` only moves the stream's element: first in each row when true, last when false; the length does not change |
| StreamOps.ZipLongestExtendsZip | streamAPI/test/stream/stream/stream_test.py:64-98 | zip_longest agrees with zip on every row zip produces |
| StreamOps.Zip3Rows4 | streamAPI/test/stream/stream/stream_test.py:57-62 | a three-way zip whose shortest input has four elements is the four rows of i-th elements |
| StreamOps.ZipAfterExample | streamAPI/test/stream/stream/stream_test.py:58-59 | [4,1,2,3] zipped with range(9) and range(2,9) gives (4,0,2) … (3,3,5) |
| StreamOps.ZipBeforeExample | streamAPI/test/stream/stream/stream_test.py:61-62 | the same with after=False gives (0,2,4) … (3,5,3) |
| StreamOps.ZipLongestExample | streamAPI/test/stream/stream/stream_test.py:65-74 | zip_longest with fill −1 gives the nine rows of the test |
| StreamOps.ZipLongestBeforeExample | streamAPI/test/stream/stream/stream_test.py:88-98 | zip_longest with after=False and fill None gives the nine rows of the test, with None as EMPTY |
| StreamOps.StreamCycle | streamAPI/test/stream/stream/stream_test.py:100-105 | one row per stream element, none when the cycled input is empty |
| StreamOps.CycleFrom | streamAPI/test/stream/stream/stream_test.py:100-105 | one pair per stream element |
| StreamOps.CycleFromAt | streamAPI/test/stream/stream/stream_test.py:100-105 | pair i combines s[i] with other[(j + i) mod len(other)] |
| StreamOps.CycleShape | streamAPI/test/stream/stream/stream_test.py:100-105 | cycle pairs s[i] with other[i mod len(other)], in the order `after` selects |
| StreamOps.CycleExamples | streamAPI/test/stream/stream/stream_test.py:100-105 | [4,1,2,3,9,0,5] cycled with range(3) gives the test's pairs, after and before |
| StreamOps.IfElseMap | streamAPI/test/stream/stream/stream_test.py:114-116 | if_else keeps the length and maps each element by if_ or else_, as the predicate decides |
| StreamOps.ConditionalMap | streamAPI/test/stream/stream/stream_test.py:143-146 | conditional fails with PipelineNotClosed exactly when the condition is open and the stream is not empty; otherwise it is the elementwise first-match dispatch |
| StreamOps.IfElseIsConditional | streamAPI/stream/streamHelper.py:164-179 | if_else is conditional with the two-branch ChainedCondition |
| StreamOps.Conditional | streamAPI/test/stream/stream/stream_test.py:143-146 | applying a ChainedCondition object element by element gives ConditionalMap of its branches and state |
| StreamOps.ConditionalTestDispatch | streamAPI/test/stream/stream/stream_test.py:137-162 | the three-branch chain classifies e as 10, 20 or 30, and otherwise as e (done) or −1 (otherwise) |
| StreamOps.IfElseTest | streamAPI/test/stream/stream/stream_test.py:107-127 | for every supplied sequence: `out` is the count (mapping with identity, 1, +) of the if_else pipeline over it; `target` has exactly the classes of the inputs as keys, each with its number of occurrences; and the two are equal |
| StreamOps.ConditionalTest | streamAPI/test/stream/stream/stream_test.py:129-204 | for every supplied sequence: `out` is the count of the conditional pipeline over it with the three-branch condition, closed by done or by otherwise(-1); `target` has exactly the expected classes as keys, each with its number of occurrences; and the two are equal |

## Left out

- `streamAPI/stream/stream.py` is not part of this model. The Stream operations are modelled on finite sequences, from the behaviour their tests state. Laziness, the stream's consumption state, the order in which iterators are drawn and parallel execution are not captured.
- `_IfThen.apply` wraps the transform's result in `Optional`. `streamAPI/stream/optional.py` is not part of this model; assuming `Optional(None)` is EMPTY, a transform returning None would make `apply` fall through to the next branch. The model keeps every transformed value, because None is not a value of the element type.
- `streamAPI/stream/decos.py` is not part of this model. `check_pipeline` is modelled as failing with PipelineAlreadyClosed and changing nothing on a closed condition. `close_pipeline` is modelled the same way: on an already closed condition `otherwise` and `done` fail with PipelineAlreadyClosed and change nothing (ChainedCondition.Otherwise, ChainedCondition.Done); on an open one it closes the condition after the wrapped call succeeds, so a failed `otherwise` changes nothing.
- `ChainedCondition.__str__`/`__repr__` and the user-given name are not modelled beyond the stored `name` field. `default_name` is modelled through `DefaultNameOf` and `ChainedCondition.DefaultName`.
- StreamHelper.DefaultNameOf: its contract pins down the zero- and one-branch texts. For more branches, the proved facts are the two-branch texts (DefaultNameTwoBranches) and that the count is written in decimal (NatToStringRoundTrip).
- `Supplier` is endless. The model exposes it through `Next` and a finite `Take`. The producer's side effects are made explicit: `produce(k)` is what its k-th call returns. In the `if_else`/`conditional` tests the random producer is an arbitrary finite input sequence, so the random generator and its reset are left out.
- Utils.DateGenerator: requires interval >= 1. The source loops forever for a zero or negative interval with start <= end. Dates are day numbers. `as_date` parsing, `timedelta` and calendars are left out.
- `cycle` with an empty second iterable is modelled as an empty result.
- `conditional` is modelled as raising when the first element is pulled. An empty stream therefore never raises.
- Utils.SameNameAsConstructor: the values of positional and defaulted names are stated only for constructors whose parameter names are distinct, as Python requires. The `constructor_setter` wrapper that assigns the dictionary to the instance uses reflection and is left out.
- Python tuples (rows of `zip`, `cycle` and `batch`) are modelled as sequences.
- A `Branch` maps the element type to itself, and `Zip`/`ZipLongest` combine inputs of one element type. In the source a transform may return another type and `zip` may combine iterables of different element types; the model does not capture that.
- `zip_longest` with a None fill value over integer inputs is modelled by lifting the inputs into `Optional`.
- Database connections, JSON/CSV I/O, file walking, logging, `execution_time`, `get_functions_clazz` and `utility/logger.py` are I/O or reflection and are not part of this model.

## Findings

| source | as written | input that shows it | evidently intended | confidence | as-written member | corrected member |
|---|---|---|---|---|---|---|
| utility/utils.py:60-64 | positional values are stored first and then overwritten by the defaults of the same parameters | `__init__(self, a, b, p=3)` called as `Foo(1, 2, 7)` stores p == 3 | a value passed positionally beats the parameter's default (p == 7) | not executed | Utils.PositionalDefaultAsWritten | Utils.SameNameAsConstructorIntended |
| streamAPI/stream/streamHelper.py:162 | `_else_called` is set to False in `__init__` and never set elsewhere, so `default_name` never reports an 'else' | `ChainedCondition.if_else(p, f, g)` names itself "'if' then 1 elif condition" | `otherwise` sets the flag, and the name is "'if' and 'else' condition" | not executed | StreamHelper.IfElseNameAsWritten | StreamHelper.ChainedCondition.OtherwiseMarkingElse |
