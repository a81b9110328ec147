# SolrNet: a verified model

SolrNet is a .NET client for the Solr search server. This project models the parts of it and of its test
support code that have a protocol, a mutable structure or a text format of their own, and proves what they
promise. `dafny verify dfyconfig.toml` checks everything.

**The lazy cell** (`LazyCell`, `LazySafety`, `LazyTheorems`, `LazyRuns`, `LazyLimits`, `LazyAgreement`,
`LazyObject`). `Lazy<T>` has three ways of sharing an initialisation: no lock, racing factories with one
publisher, and one call under a lock. It is a transition system over any number of threads in which each
access to a shared field is a step of its own: a reader's test of `inited` and its read of `value` are apart,
and so are `value = v` and `inited = true`. The monitor is re-entrant; the factory may return anything, throw
anything or read the cell again; the scheduler is arbitrary. Invariants over all runs give the safety of each
mode. `LazyLimits` and `LazyAgreement` say for the promises listed below in which modes and with how many
threads exactly they hold, with the runs that break them elsewhere. `LazyObject` is the class as its code runs
on one thread, each field access matched with a step of the system, so that a life of the object is a run of
the system.

**The profiler** (`CallTree`, `CallTrace`, `CallFailures`, `ProfileReport`, `Profiler`). An interceptor
grows a tree with parent links under a cursor, and stops and starts stopwatches around nested calls, some of
which throw. Its objects are kept equal to a value (an arena of nodes in the order of creation), on which the
laws are proved: time is conserved, the parent chain is the call stack, the tree equals the call trace. Code
may also clear the profiler, between calls or inside one. The profile is a copy on new objects. The report
groups and sorts it.

**Counted mock functions** (`MorocoCounter`, `MorocoFunc`, `MorocoMocks`, `MorocoSharing`, `MorocoOverlap`).
A counter with bounds, raced by its callers; and the combinators, of which some wrap a mock with its counter
and others take over only its delegates. Expressions over them, with mocks held in variables, are a datatype
with an evaluator, and what a call gives is read off the mock (`MorocoResults`). Overlapping calls of one mock
are a transition system, of which the evaluator is one run.

**Text formats** (`LocalParams`, `SortOrders`). Local params is a printer, proved against a reader for the
syntax page its documentation refers to. Sort order is a printer and a parser.

**The fluent builder** (`DslQueries`, `DslRuns`, `DslHistories`, `DslObjects`). Lists are objects: some calls
copy one, others hand on the receiver's. An open facet query is a single object that later builders share and
options change in place. A history makes each call on any builder made so far.

**Two loops** (`MockConnections`, `ReadStreams`). The parameter check of the mock connection, and reading a
stream to its end through a buffer that is used again.

## Where a promise does not hold

- `Lazy<T>` calls the factory at most once in every run exactly in ExecutionAndPublication, or without a lock
  on a single thread (`LazyLimits.OneFactoryCall`). The same condition decides whether reads made by a running factory
  never return (`LazyLimits.NestedReadsThrow`), and whether, unless a factory reads the cell, either all
  finished reads return or all throw (`LazyAgreement.ValueOrExceptionForAll`).
- The value is written at most once, all reads that return agree, and the value is final once `inited` is set,
  in every run exactly if there is a lock or at most one thread (`LazyAgreement.OneWrite`,
  `LazyAgreement.ReadersAgree`, `LazyAgreement.ValueIsFinal`). What holds in every mode is that later reads
  return some value (`LazyTheorems.LaterReadsNeverThrow`).
- A running factory is entered again in exactly one mode, PublicationOnly, which clears the factory field only
  after publication; this holds for every number of threads (`LazyLimits.FactoryNestsOnlyUncleared`).
- In the modes that run the factory once a value and an exception are both kept exactly when the factory read
  the cell (`LazySafety.ValueOrException`); a run that shows it is `LazyLimits.SwallowedReentrancy`.
- In every mode but PublicationOnly, with two or more threads, a read may get the exception "tries to access
  Value on this instance" although no factory has read the cell; under the lock it replaces the one that the
  factory threw (`LazyLimits.OwnExceptions`, `LazyLimits.WaiterReplaces`).
- The comment "exceptions are ignored" (SolrNet.Tests/Utils/Lazy.cs:125) means that none is kept in the cell:
  a read still throws what its own factory call threw (`LazySafety.PublicationOnlySafety`).
- Printed local params read back exactly when the keys and values are of a shape a caller can test
  (`LocalParams.Safe`): a backslash in a quoted value, a tab, line break or `}` in an unquoted one, and a quote
  at its start are each fatal for every value and every query text (`LocalParams.RoundTrip`).
- The documentation of the constructor of `SortOrder` says that it rejects a field name with spaces
  (SolrNet/SortOrder.cs:36); the code does not, and such an order never survives printing and parsing
  (`SortOrders.RoundTrip`).
- A call that clears the profiler while it runs, at whatever depth, ends in a NullReferenceException and leaves
  a null cursor; other calls do so only if the cursor is null already (`CallFailures.CallFails`).
- A string of white space is parsed as an order on the empty field, and that order is the only parsed one that
  printing and parsing change (`SortOrders.NormalForm`).
- The mock connection compares counts and one-way membership. That is a test for the same list in another
  order exactly when no actual parameter is repeated (`MockConnections.CheckIsPermutation`).
- A mock that names another one twice, such as `g + g`, can break every limit: with a maximum of one, a single
  call runs the function of `g` twice (`MorocoSharing.SharedOperand`). Where nothing else stops a call, the
  limits hold over every sequence of calls exactly when each counter and each function is used once
  (`MorocoSharing.LimitsNeedLinear`), which a caller ensures by naming nothing twice (`MorocoMocks.BuildLinear`).
- `+` bypasses the counter of its left operand exactly when the right operand does not contain it
  (`MorocoMocks.PlusBypassesLeft`).

## Model

| member | source | states |
|---|---|---|
| LazySafety.PublicationOnlySafety | SolrNet.Tests/Utils/Lazy.cs:122-139 | any number of threads, every interleaving: `value` is written at most once and with what a factory call returned, never with the default taken when the factory is gone; all reads that return agree; a read that throws throws what a factory call threw; no exception is kept; a missing factory means `inited` |
| LazySafety.PubRuns | SolrNet.Tests/Utils/Lazy.cs:84-139 | the inductive invariant of PublicationOnly holds of the cell and every thread in every reachable state |
| LazySafety.FactoryRunsOnce | SolrNet.Tests/Utils/Lazy.cs:84-161 | ExecutionAndPublication under every interleaving, and no lock on one thread: at most one factory call, `value` written only with its result, every read that returns gives it, on the unlocked path too; exceptions are the factory's or the cell's own |
| LazySafety.ValueOrException | SolrNet.Tests/Utils/Lazy.cs:141-161 | an initialised cell holds an exception exactly when the factory read the cell; if it did not, either all finished reads return or all throw; with the monitor free and the factory gone the cell is initialised or has an exception |
| LazySafety.RunRuns | SolrNet.Tests/Utils/Lazy.cs:84-161 | the inductive invariant of the modes that run the factory once, monitor depth and suspended factory call included, holds in every reachable state |
| LazyTheorems.LaterReadsReturn | SolrNet.Tests/Utils/Lazy.cs:87-92 | in PublicationOnly and ExecutionAndPublication with any number of threads, and without a lock on one: once `inited` is set, both fields are final, and every read that a thread starts from then on returns the value, even when `exception` is set |
| LazyTheorems.LaterReadsNeverThrow | SolrNet.Tests/Utils/Lazy.cs:87-92 | in every mode with any number of threads: from any state in which `inited` is set it stays set, and every read that an idle thread starts returns a value |
| LazyAgreement.OneWrite | SolrNet.Tests/Utils/Lazy.cs:106-161 | `value` is written at most once in every run if and only if there is a lock or at most one thread |
| LazyAgreement.ReadersAgree | SolrNet.Tests/Utils/Lazy.cs:84-161 | with at least two values in the type, all reads that return agree in every run if and only if there is a lock or at most one thread |
| LazyAgreement.ValueIsFinal | SolrNet.Tests/Utils/Lazy.cs:84-161 | with at least two values in the type, `inited` and `value` never change once `inited` is set, in every run and every continuation, if and only if there is a lock or at most one thread |
| LazyAgreement.ValueOrExceptionForAll | SolrNet.Tests/Utils/Lazy.cs:84-161 | as long as no factory reads the cell, either all finished reads return or all throw, in every run, if and only if there are no threads, the mode is ExecutionAndPublication, or there is no lock and one thread |
| LazyTheorems.NestedReadsEnd | SolrNet.Tests/Utils/Lazy.cs:106-159 | where the field is cleared before the call, with any number of threads, a read made by the running factory is one level deep, does not start the factory, is never kept waiting and gets closer to its end with each step; where the factory runs once it ends in an exception |
| LazyLimits.NestedReadsThrow | SolrNet.Tests/Utils/Lazy.cs:106-161 | for every mode: no read made by a running factory returns, in any run, if and only if there are no threads, the mode is ExecutionAndPublication, or there is no lock and one thread |
| LazyLimits.FactoryNestsOnlyUncleared | SolrNet.Tests/Utils/Lazy.cs:111-137 | for every mode and number of threads: over all runs the factory never runs inside itself if and only if the mode is not PublicationOnly or there are no threads |
| LazyLimits.NestsDeep | SolrNet.Tests/Utils/Lazy.cs:122-129 | in PublicationOnly every depth of nested factory calls is reached by some run |
| LazyTheorems.StepsShortenReads | SolrNet.Tests/Utils/Lazy.cs:84-168 | a read has no loop: unless it waits for the monitor or the factory, each step lowers an explicit bound |
| LazyTheorems.HolderIsNotWaiting | SolrNet.Tests/Utils/Lazy.cs:131-142 | a thread that waits for the monitor waits for another thread that is inside a read and is not itself waiting for the monitor |
| LazyLimits.OneFactoryCall | SolrNet.Tests/Utils/Lazy.cs:106-161 | every run starts the factory at most once if and only if there are no threads, the mode is ExecutionAndPublication, or there is no lock and one thread |
| LazyRuns.TwoStarts | SolrNet.Tests/Utils/Lazy.cs:107-112 | with two threads and no lock a run exists in which both are inside the factory |
| LazyLimits.OwnExceptions | SolrNet.Tests/Utils/Lazy.cs:84-161 | as long as no factory reads the cell, every read that throws gets what a factory call threw, in every run, if and only if the mode is PublicationOnly or there is at most one thread |
| LazyLimits.WaiterReplaces | SolrNet.Tests/Utils/Lazy.cs:141-159 | under the lock, a thread that waited while the factory threw replaces the kept exception by the cell's own and throws that |
| LazyLimits.SwallowedReentrancy | SolrNet.Tests/Utils/Lazy.cs:141-161 | with a factory that swallows the error of its own read, one read ends with the exception and the other with the value, and the cell keeps both |
| LazyObject.Lazy.constructor | SolrNet.Tests/Utils/Lazy.cs:72-79 | a new object is the initial state of the transition system; in PublicationOnly the factory must not read the cell, as such a read would not end |
| LazyObject.ReadMany | SolrNet.Tests/Utils/Lazy.cs:84-94 | in every mode, every one of any number of reads of a new cell answers what its factory is meant to give: its value, its exception, or for a factory that reads the cell what it does after a failed read; in PublicationOnly for a factory that does not read the cell |
| LazyObject.Lazy.Value | SolrNet.Tests/Utils/Lazy.cs:84-94 | the getter terminates; every read from outside answers what the factory given to the constructor is meant to give, and leaves exactly the fields of a cell whose factory has ended so; a read inside the factory answers the error of the cell; the read continues the object's run of the transition system, which ends with this answer |
| LazyObject.ReadMeans | SolrNet.Tests/Utils/Lazy.cs:84-168 | the fields before a read decide its answer and the fields after it; on a new cell and after any read the answer is what the factory is meant to give: the value, the kept exception, or in PublicationOnly the factory's exception again |
| LazyObject.Lazy.Get | SolrNet.Tests/Utils/Lazy.cs:87-92 | the tests and reads of the getter are the system's steps in the same order |
| LazyObject.Lazy.InitValue | SolrNet.Tests/Utils/Lazy.cs:101-168 | in each mode, from the fetch or the lock to the finished read it is a run of the system that leaves the monitor as deep as it was |
| LazyObject.Lazy.InitLocked | SolrNet.Tests/Utils/Lazy.cs:141-161 | the locked mode is a run of the system, with the value of another thread or through the factory |
| LazyObject.Lazy.Produce | SolrNet.Tests/Utils/Lazy.cs:122-129 | PublicationOnly outside the lock: the answer is what the factory in the field gives, a throw leaves all fields as they were, and it is a run of the system |
| LazyObject.Lazy.Share | SolrNet.Tests/Utils/Lazy.cs:131-133 | under the lock the value is published or dropped for the one that is there, as the system does |
| LazyObject.Lazy.Publication | SolrNet.Tests/Utils/Lazy.cs:134-138 | value, `inited`, factory, leaving the lock and reading back are steps of the system in that order |
| LazyObject.Lazy.Fail | SolrNet.Tests/Utils/Lazy.cs:147-158 | an exception is kept, the lock is left, and the same exception ends the read |
| LazyObject.Lazy.Initialise | SolrNet.Tests/Utils/Lazy.cs:146-159 | the factory in the field runs once with the field empty, and its value is stored or its exception kept; the field accesses are the system's steps in the same order, on the return path and on both exception paths |
| LazyObject.Lazy.TakeOut | SolrNet.Tests/Utils/Lazy.cs:150-152 | the factory field is empty before the factory runs, as in the system |
| LazyObject.Lazy.Record | SolrNet.Tests/Utils/Lazy.cs:153-167 | storing, setting `inited`, leaving the lock and reading back are steps of the system in that order |
| LazyObject.Lazy.Execute | SolrNet.Tests/Utils/Lazy.cs:152 | any factory body, with reads of the cell inside it, gives what its script says on the answers of those reads, is a run of the system that starts and ends inside the factory call, and terminates |
| LazyObject.Lazy.Guarantees | SolrNet.Tests/Utils/Lazy.cs:84-168 | over the life of an object all reads that returned agree with the fields; outside PublicationOnly there is at most one factory call, and a value beside an exception means that the factory read the cell; in PublicationOnly the value came from a factory call and no exception is kept |
| CallTree.CursorPathIsCallStack | SolrNet.Tests/Utils/ProfilerFacility.cs:55-70 | after any events the methods on the parent chain from the cursor are the calls in progress |
| CallTree.TimeConserved | SolrNet.Tests/Utils/ProfilerFacility.cs:55-70 | after any events the elapsed times of all nodes add up to the ticks that passed at call depth one or more |
| CallTree.EnterWellFormed | SolrNet.Tests/Utils/Node.cs:35-39 | adding a child under the cursor keeps parent and child links in agreement and the structure free of cycles |
| CallTrace.TreeEqualsTrace | SolrNet.Tests/Utils/ProfilerFacility.cs:55-70 | after any code, whichever calls throw and are caught, the cursor is back, its node has gained exactly the call forest of that code with its times, in order, and no older node has changed |
| CallTrace.WholeTree | SolrNet.Tests/Utils/ProfilerFacility.cs:55-86 | after clearing, the whole tree is the call forest |
| CallFailures.CallFails | SolrNet.Tests/Utils/ProfilerFacility.cs:55-70 | from any cursor that is not null, a call fails with a null cursor if and only if the profiler is cleared inside it, at whatever depth, and then it throws whatever its body does; otherwise it ends as its body does and the tree has gained the call |
| CallFailures.BodyRuns | SolrNet.Tests/Utils/ProfilerFacility.cs:55-86 | without a clearing, any code leaves exactly its calls and ends as it would by itself; with one, the cursor ends at a root or is null |
| CallFailures.ShownSinceClear | SolrNet.Tests/Utils/ProfilerFacility.cs:72-86 | code that clears the profiler between calls only makes no call fail, and the tree is exactly the calls since the last clearing |
| Profiler.Node.AddChild | SolrNet.Tests/Utils/Node.cs:35-39 | the children are the old ones and, last, a new node that points back to this one |
| Profiler.ProfilingInterceptor.constructor | SolrNet.Tests/Utils/ProfilerFacility.cs:51-53 | a new interceptor has the invariant and an empty tree |
| Profiler.ProfilingInterceptor.Pause | SolrNet.Tests/Utils/ProfilerFacility.cs:56-57 | afterwards no watch of the tree runs and every node shows the time it had |
| Profiler.ProfilingInterceptor.Resume | SolrNet.Tests/Utils/ProfilerFacility.cs:67-68 | afterwards exactly the cursor's watch runs, if it has one, and every node shows the time it had |
| Profiler.ProfilingInterceptor.Push | SolrNet.Tests/Utils/ProfilerFacility.cs:58-60 | the object graph stays equal to the arena, which has entered the call; the new node is the cursor |
| Profiler.ProfilingInterceptor.Pop | SolrNet.Tests/Utils/ProfilerFacility.cs:66 | the cursor's parent object is the parent in the arena |
| Profiler.ProfilingInterceptor.Begin | SolrNet.Tests/Utils/ProfilerFacility.cs:56-61 | the part before the call refines entering it and keeps the invariant that only the cursor's watch runs |
| Profiler.ProfilingInterceptor.Finish | SolrNet.Tests/Utils/ProfilerFacility.cs:65-68 | the part after the call, which stops the watch of its own call, refines leaving it, and fails exactly with a null cursor or at a root |
| Profiler.ProfilingInterceptor.Intercept | SolrNet.Tests/Utils/ProfilerFacility.cs:55-70 | an intercepted call, returning, throwing or failing for a null cursor, changes the objects as the call changes the cursor and the arena |
| Profiler.ProfilingInterceptor.Proceed | SolrNet.Tests/Utils/ProfilerFacility.cs:63 | arbitrary code with nested intercepted calls and clearings keeps the invariant and refines its effect on cursor and arena |
| Profiler.ProfilingInterceptor.Clear | SolrNet.Tests/Utils/ProfilerFacility.cs:84-86 | wherever the cursor is, it becomes a new root with nothing below it |
| Profiler.ProfilingInterceptor.GetProfile | SolrNet.Tests/Utils/ProfilerFacility.cs:72-76 | fails exactly for a null cursor; otherwise, at any time, the result is a tree of new, pairwise distinct nodes with correct parents that equals the tree below the cursor with the current times, and nothing that existed has changed |
| Profiler.ProfilingInterceptor.CopyNode | SolrNet.Tests/Utils/ProfilerFacility.cs:78-82 | the same for one node and a given parent |
| Profiler.ProfilingInterceptor.AddCopies | SolrNet.Tests/Utils/ProfilerFacility.cs:80 | the children are copied in order, each into objects of its own |
| Profiler.ProfileOf | SolrNet.Tests/Utils/ProfilerTests.cs:68-72 | the profile of a new profiler that watched some code is exactly the forest of its calls since it cleared the profiler, if at all and not in a call, with one child of the root per outermost call |
| ProfileReport.FlattenIsCallOrder | SolrNet.Tests/Utils/ProfilerTests.cs:50-55 | flattening lists all nodes but the root in the order in which their calls were entered |
| ProfileReport.ReportIsExact | SolrNet.Tests/Utils/ProfilerTests.cs:74-80 | the report lists each profiled method once with the sum of its times, in descending order, with equal sums in the order of the first calls, and the listed times add up to those of the profile |
| ProfileReport.ReportedTime | SolrNet.Tests/Utils/ProfilerTests.cs:68-80 | the report on some code that clears the profiler between calls or not at all accounts for exactly the ticks inside the calls made since |
| MorocoCounter.Counter.Incr | SolrNet.Tests/Utils/Moroco.cs:33-38 | every call is counted, a refused one too, and it is refused exactly when its own number exceeds the maximum |
| MorocoCounter.Counter.Verify | SolrNet.Tests/Utils/Moroco.cs:40-47 | the three overlapping tests pass if and only if the count lies between the ends that are present, and each failure has its exact condition |
| MorocoCounter.RaceIsFair | SolrNet.Tests/Utils/Moroco.cs:33-38 | n racing callers draw 1 to n without repeats or gaps, no more than the maximum ever get through, and in the end exactly min(n, maximum) have |
| MorocoFunc.InvokeFrame | SolrNet.Tests/Utils/Moroco.cs:144-147 | invoking changes no counter outside the function |
| MorocoFunc.InvokeBounded | SolrNet.Tests/Utils/Moroco.cs:144-147 | on a mock that uses each counter and each function once, one call keeps, at every layer, that what lies below was started no more often than the layer let through |
| MorocoFunc.InvokeVisits | SolrNet.Tests/Utils/Moroco.cs:144-147 | a call that returns has gone through every counter and every function of the mock |
| MorocoMocks.BuildLinear | SolrNet.Tests/Utils/Moroco.cs:317-376 | an expression that names each mock and each function once, over mocks that share nothing, builds a mock that uses each counter and each function once |
| MorocoMocks.BuildOrProper | SolrNet.Tests/Utils/Moroco.cs:317-376 | whatever is shared, the counter of a built mock does not occur below it |
| MorocoMocks.MockLimits | SolrNet.Tests/Utils/Moroco.cs:144-160 | for every mock that uses each counter and each function once, and every sequence of calls one after the other, the outermost counter counts them, no inner counter exceeds it, and no user function runs more often than the smallest maximum on its path |
| MorocoOverlap.OverlappingLimits | SolrNet.Tests/Utils/Moroco.cs:33-38 | for every such mock, any number of callers and every interleaving of their calls, finished or not: no inner counter exceeds the outermost one, and no user function runs more often than the smallest maximum on its path |
| MorocoOverlap.OverlapNeedsLinear | SolrNet.Tests/Utils/Moroco.cs:33-160 | if no maximum is below one, the guards accept an input and the user functions return: the limits hold for any number of callers in every interleaving if and only if each counter and each function is used once |
| MorocoOverlap.SafeStep | SolrNet.Tests/Utils/Moroco.cs:33-38 | every step keeps that what is counted below a layer, together with what callers inside may still start, stays within what the layer has let through |
| MorocoOverlap.AloneIsInvoke | SolrNet.Tests/Utils/Moroco.cs:144-147 | a call that nothing overlaps ends with the counts of the call evaluated as a whole |
| MorocoMocks.ExpressionLimits | SolrNet.Tests/Utils/Moroco.cs:144-160 | so it is, for calls one after the other, for every expression that names nothing twice |
| MorocoSharing.LimitsNeedLinear | SolrNet.Tests/Utils/Moroco.cs:144-160 | for every mock, if no maximum is below one, the guards accept an input and the user functions return: the limits hold over every sequence of calls if and only if each counter and each function is used once |
| MorocoSharing.InvokeOnce | SolrNet.Tests/Utils/Moroco.cs:144-147 | then a call after which no count exceeds one has gone through the whole mock, which shares nothing |
| MorocoSharing.SharedOperand | SolrNet.Tests/Utils/Moroco.cs:157-160 | for `g + g` with a maximum of one, one call runs the function of `g` twice |
| MorocoResults.CallThrows | SolrNet.Tests/Utils/Moroco.cs:144-147 | a call throws if and only if, in the order of the mock, a counter has passed its maximum, a guard refuses, or a user function throws on this input at its present count; a call that returns has counted exactly each of them |
| MorocoResults.CallGives | SolrNet.Tests/Utils/Moroco.cs:144-147 | a call that returns gives the result of the last leaf of the mock: what its user function returned on this input at its present count, the constant of `Return`, or the default |
| MorocoResults.NewIs | SolrNet.Tests/Utils/Moroco.cs:128-142 | a new mock has the given function or none, and both given bounds; null has no bounds and no function |
| MorocoResults.PlusIs | SolrNet.Tests/Utils/Moroco.cs:157-160 | `+` has the left bounds, comes to all that the left functions come to and then to the right operand, and the right operand decides the result |
| MorocoResults.PlusDecides | SolrNet.Tests/Utils/Moroco.cs:157-160 | a call of a sum throws if and only if its own counter has passed the left maximum, the left functions stop it, or the right operand does after them; otherwise it has gone through all of them and gives the result of the right operand |
| MorocoResults.ArgIs | SolrNet.Tests/Utils/Moroco.cs:317-349 | `Arg1` and `Arg2` keep the bounds and come to the guard and then to the whole inner mock, which decides the result |
| MorocoResults.ArgsCheck | SolrNet.Tests/Utils/Moroco.cs:351-353 | `Args` fails on any other arguments without counting or running anything of the wrapped mock, and otherwise gives what the wrapped mock gives |
| MorocoResults.ReturnIs | SolrNet.Tests/Utils/Moroco.cs:355-361 | `Return` keeps the bounds of the mock and all that its functions come to |
| MorocoResults.ExpectIs | SolrNet.Tests/Utils/Moroco.cs:373-376 | `Expect` has both bounds equal to the expected number and comes to the whole inner mock |
| MorocoMocks.PlusBypassesLeft | SolrNet.Tests/Utils/Moroco.cs:157-160 | `+` keeps the left operand's bounds, none for null; the right operand decides the result; and a call that succeeds leaves the left operand's counter alone if and only if the right operand does not contain it |
| MorocoResults.ReturnDecides | SolrNet.Tests/Utils/Moroco.cs:355-361 | a call throws if and only if its own counter has passed the maximum or the functions of the mock that `Return` was applied to stop it; otherwise it gives the value, after it has gone through all of them |
| MorocoMocks.ArgGuards | SolrNet.Tests/Utils/Moroco.cs:317-349 | a wrong argument is counted by the new layer only and reaches nothing below; a right one is the inner call |
| MorocoMocks.ExpectIsExact | SolrNet.Tests/Utils/Moroco.cs:373-376 | whatever the wrapped mock shares, exactly the first n calls reach it, and the counter verifies if and only if there were n calls |
| LocalParams.ToString | SolrNet/LocalParams.cs:42-58 | fails if and only if a value is null; otherwise, in front of any query text, a reader finds the params of the dictionary and that text if and only if the params are safe |
| LocalParams.RoundTrip | SolrNet/LocalParams.cs:42-58 | a printed non-empty list in front of any query text reads back as the same pairs and the same text if and only if all keys and values are safe |
| LocalParams.RoundTripEmpty | SolrNet/LocalParams.cs:43-44 | without params the text reads back as a plain query if and only if it does not begin like params |
| LocalParams.PrintedForms | SolrNet/LocalParams.cs:42-50 | to the letter: `{!`, the pairs with an equals sign each and one space between them, `}`; nothing for an empty list |
| LocalParams.QuotedForms | SolrNet/LocalParams.cs:52-58 | to the letter: a value without a space is printed as it is, one with a space between single quotes, with a backslash before each single quote |
| LocalParams.ValueReadsBack | SolrNet/LocalParams.cs:52-58 | before any separator, a quoted or plain value reads back exactly when it is safe, and as no other value otherwise |
| LocalParams.BackslashNeverReadsBack | SolrNet/LocalParams.cs:57 | quoting leaves backslashes alone, so from the first one on the text never reads back, whatever follows |
| LocalParams.LeadingQuoteBreaks | SolrNet/LocalParams.cs:55-56 | an unquoted value with a quote at its start never reads back, whatever follows |
| LocalParams.PrintIsInjective | SolrNet/Impl/QuerySerializers/LocalParamsSerializer.cs:27-29 | the printed params with the query behind them determine both, on safe params |
| SortOrders.WhiteCharacters | SolrNet/SortOrder.cs:28 | what separates words and is trimmed are the layout characters from tab to carriage return, the space, U+0085 and the Unicode separators, one by one |
| SortOrders.ParseReadsWords | SolrNet/SortOrder.cs:76-90 | a non-empty string is parsed by its first two words: splitting a trimmed string at runs of white space gives its words |
| SortOrders.TwoWords | SolrNet/SortOrder.cs:80-84 | with any amount and kind of white space around and between two words and anything after them, the first is the field and the second the direction, and the string is invalid if the second is no direction |
| SortOrders.OneWord | SolrNet/SortOrder.cs:77-86 | one word alone is an ascending order; null and the empty string give null |
| SortOrders.LayoutAndCase | SolrNet/SortOrder.cs:80-84 | every spelling of "asc" and "desc" with upper and lower case letters, in any layout, gives that direction |
| SortOrders.DirectionForms | SolrNet/SortOrder.cs:83 | a token is a direction if and only if it is a number in the range of 32 bits or a comma list of "asc" and "desc" in any case, letter by letter, and then which one |
| SortOrders.OtherWords | SolrNet/SortOrder.cs:83-89 | a word without a comma that is neither a number nor one of the names is no direction |
| SortOrders.PrintedForms | SolrNet/SortOrder.cs:66-68 | an order prints as the field, one space, and "asc", "desc" or the number, to the letter |
| SortOrders.OrderReadsBack | SolrNet/SortOrder.cs:66-83 | every 32-bit value of the direction, with a name or printed as a number, is parsed from what it prints as |
| SortOrders.RoundTrip | SolrNet/SortOrder.cs:66-90 | an order with any value of the direction survives printing and parsing if and only if its field is one word |
| SortOrders.NormalForm | SolrNet/SortOrder.cs:66-90 | a parsed order survives printing and parsing if and only if the string it came from was not blank |
| DslQueries.ChainHoldsClauses | SolrNet.DSL/Impl/DSLQuery.cs:25-31 | for every chain, the nested criteria hold after the start query exactly one query per clause, in call order |
| DslQueries.SingleClauses | SolrNet.DSL/Impl/DSLQueryBetween.cs:33-40 | to the letter: `Is` adds the field with its value, `Between` and `And` an inclusive range with the bounds in their order, `ByRange` the same, and `Exclusive` makes it exclusive |
| DslQueries.ClauseAdds | SolrNet.DSL/Impl/DSLQueryBy.cs:31-41 | a clause adds one query at the end and keeps all earlier ones |
| DslQueries.BoundsReplace | SolrNet.DSL/Impl/DSLQueryRange.cs:26-50 | `Exclusive` and `Inclusive` replace the last range and add nothing |
| DslRuns.ChainMeaning | SolrNet.DSL/Impl/DSLRun.cs:74-107 | for every chain of calls the orders, facets, highlighting and the open facet are those read off the calls |
| DslRuns.ChainOrders | SolrNet.DSL/Impl/DSLRun.cs:74-82 | the order list is all `OrderBy` calls in sequence |
| DslRuns.ChainFacets | SolrNet.DSL/Impl/DSLRun.cs:84-97 | the facet list is the facet calls since the last `OrderBy`, each field with exactly the options given right after it |
| DslRuns.ChainHighlight | SolrNet.DSL/Impl/DSLRun.cs:99-101 | the highlighting is the last one since the last `OrderBy` or `WithFacetField` |
| DslRuns.OptionUpdatesLast | SolrNet.DSL/Impl/DSLFacetFieldOptions.cs:30-58 | an option changes the last facet of the list and nothing else |
| DslHistories.FacetReadsOff | SolrNet.DSL/Impl/DSLFacetFieldOptions.cs:30-58 | for every history, builder and facet: limit, offset, prefix and minimum count are each that of the last option of its own kind that reached the facet query, absent without one; the sort flag is false exactly after some DontSortByCount, missing true exactly after some IncludeMissing |
| DslHistories.OpenIsLast | SolrNet.DSL/Impl/DSLFacetFieldOptions.cs:25-58 | the facet query that a builder gives options to is the last of its list |
| DslHistories.PathIsTyped | SolrNet.DSL/Impl/DSLRun.cs:74-107 | in every possible history each builder is reached by a chain of calls that can be written |
| DslHistories.StraightIsChain | SolrNet.DSL/Impl/DSLRun.cs:74-107 | in a history without branches a builder shows exactly what its chain means |
| DslObjects.DSLRun.OrderBy | SolrNet.DSL/Impl/DSLRun.cs:74-82 | a new builder with a new order list that ends with the order, and with neither facets nor highlighting; no existing object is changed |
| DslObjects.DSLRun.OrderByField | SolrNet.DSL/Impl/DSLRun.cs:74-77 | the same with an ascending order on the field |
| DslObjects.DSLRun.WithFacetField | SolrNet.DSL/Impl/DSLRun.cs:84-88 | a new builder that shares the order list and has a new facet list whose last facet is a new, open facet query; the highlighting is dropped; no existing object is changed |
| DslObjects.DSLRun.WithFacetQuery | SolrNet.DSL/Impl/DSLRun.cs:94-97 | a new builder that shares the order list and has a new facet list with the facet added; no existing object is changed |
| DslObjects.DSLRun.WithFacetText | SolrNet.DSL/Impl/DSLRun.cs:90-92 | the same for a query given as text |
| DslObjects.DSLRun.WithHighlighting | SolrNet.DSL/Impl/DSLRun.cs:99-101 | a new builder with this highlighting that shares both lists; no existing object is changed |
| DslObjects.DSLRun.Configure | SolrNet.DSL/Impl/DSLFacetFieldOptions.cs:30-58 | LimitTo sets the limit, DontSortByCount the sort flag, WithPrefix the prefix, WithMinCount the minimum count, StartingAt the offset, IncludeMissing the missing flag of the open facet query, and nothing else; no other object is changed; receiver and result share that object and both lists |
| DslObjects.Advance | SolrNet.DSL/Impl/DSLFacetFieldOptions.cs:30-58 | one step on any builder keeps all objects as the history says: an option reaches the object of the step that opened its receiver's facet query and no other, and a new builder holds its own path |
| DslObjects.RunHistory | SolrNet.DSL/Impl/DSLRun.cs:74-107 | for every history in which each call is made on any builder made so far, every builder ends with the orders and the highlighting of its own path, and shows each of its facets with all options given through any builder that had it open, in the order of time |
| DslObjects.RunChain | SolrNet.DSL/Impl/DSLRun.cs:74-107 | a single chain run on the objects ends with a builder that shows what the calls mean |
| MockConnections.MockConnection.Get | SolrNet.Tests/MockConnection.cs:55-61 | responds if and only if the counts agree and every parameter is expected; each failure has its condition |
| MockConnections.AcceptedIsPermutation | SolrNet.Tests/MockConnection.cs:57-59 | an accepted list without repeats is a permutation of the expectations |
| MockConnections.RepeatsFoolTheCheck | SolrNet.Tests/MockConnection.cs:57-59 | for every list with a repeat there are other expectations that accept it |
| MockConnections.CheckIsPermutation | SolrNet.Tests/MockConnection.cs:57-59 | every permutation is accepted; and nothing else is, whatever is expected, if and only if no parameter is repeated |
| ReadStreams.ReadFully | SolrNet.Tests/HttpTests.cs:35-45 | for every finite stream and every way its reads split it, the result is the whole stream, and the loop ends |

## Left out

- LazyObject.Lazy.Value: in PublicationOnly a factory that reads the cell on its only thread recurses without bound in the program too (LazyLimits.NestsDeep), so an object of that mode is made only with a factory that does not; the transition system has no such restriction.
- LazySafety.FactoryRunsOnce: for the mode without a lock only one thread is covered, because more break each part of it (LazyLimits.OneFactoryCall, LazyAgreement.OneWrite, LazyAgreement.ReadersAgree).
- LazyTheorems.HolderIsNotWaiting: a factory that itself waits for another thread is not modelled; under the lock it does deadlock with a thread that waits for the monitor.
- LazyCell: steps are sequentially consistent, so the memory barrier and hardware reordering are not modelled; neither are the constructors that use Activator, a null factory, an undefined mode, IsValueCreated and ToString.
- Profiler.ProfilingInterceptor.Intercept: entering and leaving a call take no time; the proxies, the kernel events and the container around the interceptor are not modelled, and one thread is assumed, as in the program.
- Profiler.Stopwatch: is a model of System.Diagnostics.Stopwatch on a clock in whole ticks; its own code is not part of this model.
- ProfileReport.ReportIsExact: adds ticks instead of milliseconds of type double.
- MorocoCounter.RaceIsFair: counts without the 64-bit overflow.
- MorocoSharing.LimitsNeedLinear: with a maximum below one, a guard that fails or a user function that throws, a call may stop before what is shared, so that the limits can hold then too.
- MorocoOverlap.OverlappingLimits: user functions do not call the mock that is calling them, and results, which nothing counts, are left out of the overlapping calls.
- MorocoMocks.Build: covers the functions of two arguments; those of other arities repeat them. `Args` is `Arg1` and then `Arg2`, `Stub` is a new function, and `&` applies its right operand; VerifyAll by reflection and the texts of failures are left out.
- LocalParams.RoundTrip: the reader follows the referenced syntax as far as printed text can use it; escapes such as `\n` for a line break and `$` references are not part of this model, and the dictionary is a sequence of pairs in its own order of enumeration.
- SortOrders.Parse: upper-casing is that of the ASCII letters, and white space is the Unicode set of the .NET versions that count U+180E.
- SortOrders.RoundTrip: a null field is not modelled.
- DslQueries.ChainHoldsClauses: bounds of ranges are strings; their types and their serialization are not modelled.
- DslObjects.RunHistory: Run, ToString, WithHighlightingFields and the connection are left out, and the facet query's EnumCacheMinDf, which no builder call sets.
- MockConnections.MockConnection.Get: the texts of the failures, the response document and a null parameter list are left out.
- ReadStreams.ReadFully: a read that fails with an I/O error is not modelled.
- Query, facet, document and field serializers, response parsers, mapping, the container, the executers and the HTTP connection: not modelled.
- Location and Money: their text forms rest on floating-point and decimal formatting.
- Plain data holders and enumerations: facts about them would follow from one body each.
