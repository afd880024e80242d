# usestruct call-chain analyzer, modelled in Dafny

`usestruct` is a Go static-analysis pass. It finds chains of calls that hand
the same group of parameters down from function to function. It reports each
maximal chain at its last function, suggesting a struct for the group:
"make struct with arguments: int, int, int, for call stack: a -> b -> c".

This project models the pass's core in `pkg/analyzer/analyzer.go` and the
small generic set in `pkg/analyzer/set.go`. The modules are:

- `Ast` (ast.dfy): the abstract input. A declaration is an optional receiver
  type, a name, parameter fields and the call sites of its body. A field is a
  resolved type string and a name count, where 0 means unnamed. A call site
  is an identifier, a selector or anything else.
- `Keys` (keys.dfy): `funcDeclToKey` and `callExprToKey`. The key is the only
  thing that matches a call site to a declaration.
- `Args` (args.dfy): argument multisets, a map from type to unit count.
  - The loops `initArgsMap`, `totalParams` and the min-intersection of
    `recurseCheckDeep` are methods. Each is proved equal to a function.
  - The total of a multiset is specified as the size of the multiset of units
    it denotes.
- `Strs` (strs.dfy): `strings.Join` and `sort.Strings`.
  - Strings are ordered character by character, which is the byte order Go
    uses for UTF-8 strings.
  - Two sorted lists with the same elements are equal. So the leaf message
    does not depend on Go's map iteration order.
- `Explorer` (explorer.dfy): what `recurseCheckDeep`, `getChains` and the
  root callback compute, as mutually recursive specification functions.
  Lemmas about them give the abandon conditions, the leaf result, the prefix
  and length bounds, and the revisit bound.
- `Reducer` (reducer.dfy): `isSubChainOf` (nested index loops) and
  `filterMaxChains` (sort, then a loop building `result` and `seen`).
- `Analyzer` (analyzer.dfy): class `ParamAnalyzer` with the fields `all` and
  `results`, which its methods update in place.
  - `AddNodeDecls` and `ProcessFuncDecls` are the two inspector passes.
  - `RecurseCheckDeep` and `GetChains` are mutually recursive methods, proved
    equal to the explorer functions.
  - `Run` is `run`. The field `info` numbers the type information of the
    current run.
- `GoSet` (goset.dfy): `set[T]` as a class. The nil set is `null`.

Where the code and its own tests disagree, the model follows the code:

- `isSubChainOf([], main)` is true for a non-empty `main`, because offset 0
  matches at once (`Reducer.EmptyIsSubChain`).
- The test at pkg/analyzer/filter_chains_test.go:99-107 is named "empty
  sub-chain returns true" and prints "expected true". Yet it fails when the
  result is not false, so as written it fails against the code.

The plugin builds one analyzer value (usestruct.go:71-75), and the host runs
it once per package. `run` installs the package's type information
(pkg/analyzer/analyzer.go:36) but only ever adds to `all` and `results`
(pkg/analyzer/analyzer.go:135 and 368); nothing clears them. The model keeps
both across runs, and numbers the type information by run. Each index entry
records the run that indexed it. A declaration left by an earlier package has
no parameter types under the current type information, so exploring it finds
nothing (`Explorer.StaleCalleeAbandons`). Every chain a run appends ends at a
declaration of its own package (`Analyzer.PackageLeaves`). The chains of
earlier runs stay in `results` and are reported again: see Findings.

## Model

| member | source | states |
|---|---|---|
| Keys.NamedTypeName | pkg/analyzer/analyzer.go:69-77 | one level of pointer is removed; a named type gives its bare name, any other type gives none |
| Keys.FuncDeclToKey | pkg/analyzer/analyzer.go:61-81 | nil declaration keys as ""; a receiver that is a named type T or a pointer to one gives "T.name"; any other declaration keys as its bare name |
| Keys.CallExprToKey | pkg/analyzer/analyzer.go:84-111 | an identifier gives (name, true); a selector on a named or pointer-to-named operand gives ("T.Sel", true); ok holds exactly in those two cases, and the key is "" when not ok |
| Keys.MethodKeysCoincide | pkg/analyzer/analyzer.go:67-77 | a call x.M on T or *T and a method M declared on T or *T have the same key, whichever side carries the pointer |
| Keys.FunctionKeysCoincide | pkg/analyzer/analyzer.go:80 | a call by bare name and a plain function of that name have the same key |
| Strs.Join | pkg/analyzer/analyzer.go:209-210 | joining a single part gives that part |
| Strs.Repeat | pkg/analyzer/analyzer.go:204-206 | n copies of the type, nothing else |
| Strs.RepeatCount | pkg/analyzer/analyzer.go:204-206 | the multiset of n copies of x holds x n times and nothing else |
| Strs.BelowTotal | pkg/analyzer/analyzer.go:208 | the string order compares any two strings |
| Strs.BelowAntisymmetric | pkg/analyzer/analyzer.go:208 | strings ordered both ways are equal |
| Strs.BelowTransitive | pkg/analyzer/analyzer.go:208 | the string order is transitive |
| Strs.InsertStr | pkg/analyzer/analyzer.go:208 | inserting into a sorted list keeps it sorted and adds exactly that element |
| Strs.SortStrings | pkg/analyzer/analyzer.go:208 | the result is sorted and a permutation of the input |
| Strs.SortedTail | pkg/analyzer/analyzer.go:208 | the tail of a sorted list is sorted |
| Strs.SortedHeads | pkg/analyzer/analyzer.go:208 | two sorted lists with the same elements start with the same element |
| Strs.SortedUnique | pkg/analyzer/analyzer.go:208 | two sorted lists with the same elements are equal |
| Strs.SortStringsCanonical | pkg/analyzer/analyzer.go:202-208 | sorting two lists with the same elements gives the same list, whatever order the map was iterated in |
| Args.ParamUnits | pkg/analyzer/analyzer.go:120-128 | the parameter units of a list: the sum over its fields of the name count, or 1 for an unnamed field |
| Args.ArgsMap | pkg/analyzer/analyzer.go:273-290 | the argument map of a list: starting from the empty map, each field in turn adds its units to its type |
| Args.AddField | pkg/analyzer/analyzer.go:283-287 | one iteration of initArgsMap: the field's type gains the field's units |
| Args.Intersect | pkg/analyzer/analyzer.go:180-185 | the types present in both maps, each at the smaller of its two counts |
| Args.Sum | pkg/analyzer/analyzer.go:293-299 | the total of a map is the number of parameter units it stands for |
| Args.FieldUnits | pkg/analyzer/analyzer.go:122-128 | a field contributes at least one unit and at least one per name |
| Args.ArgsMapCounts | pkg/analyzer/analyzer.go:273-290 | each type maps to the sum of the units of its fields; the keys are exactly the types that occur; every count is positive |
| Args.ExpandCount | pkg/analyzer/analyzer.go:202-207 | expanding a map lists each type as many times as its count |
| Args.UnitsAt | pkg/analyzer/analyzer.go:293-299 | the units of a map hold each type as many times as its count |
| Args.UnitsUpdate | pkg/analyzer/analyzer.go:287 | adding u units to a type adds u copies of it to the units |
| Args.SumAddField | pkg/analyzer/analyzer.go:283-287 | adding a field raises the total by that field's units |
| Args.SumRemove | pkg/analyzer/analyzer.go:295-297 | the total is one entry's count plus the total of the rest |
| Args.ArgsMapTotal | pkg/analyzer/analyzer.go:121-128 | the total of the argument map equals the parameter units that decide eligibility |
| Args.IntersectUnits | pkg/analyzer/analyzer.go:180-185 | the intersection's units are the multiset intersection of both operands, so its total is at most either total |
| Args.SumSingle | pkg/analyzer/analyzer.go:293-299 | a map with one type of count n has n units, all of that type |
| Args.SumEmpty | pkg/analyzer/analyzer.go:293-299 | the empty map totals 0 |
| Args.ArgsMapExamples | pkg/analyzer/args_test.go:16-30 | separate, grouped and mixed fields give {int:1,string:1,float64:1}, {int:3} and {int:2,string:1,float64:2} |
| Args.SubMultisetCard | pkg/analyzer/analyzer.go:180-185 | a sub-multiset is no larger |
| Args.CountParams | pkg/analyzer/analyzer.go:120-128 | the loop computes the parameter units of the list |
| Args.InitArgsMap | pkg/analyzer/analyzer.go:273-290 | the loop builds the argument map of the list |
| Args.TotalParams | pkg/analyzer/analyzer.go:293-299 | the loop computes the total of the map |
| Args.IntersectArgs | pkg/analyzer/analyzer.go:180-185 | the loop builds the map of types present in both, each at the smaller count |
| Explorer.Occurrences | pkg/analyzer/analyzer.go:244-249 | how many times a key occurs in a stack |
| Explorer.OccurrencesAppend | pkg/analyzer/analyzer.go:244-249 | appending y adds one occurrence of y and none of anything else |
| Explorer.ArgList | pkg/analyzer/analyzer.go:202-207 | the listed types are exactly the units of the map |
| Explorer.ExpandIsUnits | pkg/analyzer/analyzer.go:202-207 | the expansion is a listing of the units |
| Explorer.LeafArgs | pkg/analyzer/analyzer.go:202-208 | the message's types are sorted, one entry per unit, as many as the total |
| Explorer.LeafArgsSingle | pkg/analyzer/analyzer.go:202-208 | a leaf keeping only n units of t lists t n times |
| Explorer.LeafMessage | pkg/analyzer/analyzer.go:202-210 | a leaf's message: the surviving types sorted, one entry per unit, then the stack joined with " -> " |
| Explorer.FormatMessage | pkg/analyzer/analyzer.go:209-210 | the message is never empty |
| Explorer.FirstLongest | pkg/analyzer/analyzer.go:225-230 | the chosen chain is as long as every other, and strictly longer than every earlier one |
| Explorer.LeafShaped | pkg/analyzer/analyzer.go:211-215 | a leaf's own chain ends at its key, has a message and a call-free leaf |
| Explorer.ShapedShorterPrefix | pkg/analyzer/analyzer.go:152-153 | a result under a longer prefix also lies under its shorter prefix |
| Explorer.TypedArgs | pkg/analyzer/analyzer.go:156-177 | the units the parameter loop finds: the entry's own argument map under the type information it was indexed with, nothing under any other |
| Explorer.Explore | pkg/analyzer/analyzer.go:147-233 | a result is empty, or: its stack starts with the input stack plus the current key; it has at most len(stack) + maxRecursionDepth - depth + 1 keys; it ends at its leaf; the leaf has no calls and the message is not empty |
| Explorer.Branches | pkg/analyzer/analyzer.go:235-270 | every kept branch result has the same shape, under the new stack, one level deeper |
| Explorer.BranchAt | pkg/analyzer/analyzer.go:237-267 | a call site contributes at most one result, of that shape |
| Explorer.ExploreAbandons | pkg/analyzer/analyzer.go:148-189 | past the depth limit, or with fewer than 3 shared units, the result is empty |
| Explorer.StaleCalleeAbandons | pkg/analyzer/analyzer.go:156-189 | an entry indexed by an earlier run gives the empty result: a stale callee never extends a chain |
| Explorer.ExploreLeaf | pkg/analyzer/analyzer.go:201-215 | a function without call expressions, within the limit and sharing at least 3 units, yields its own stack; it is the leaf and the message lists the shared types sorted |
| Explorer.BranchesUnresolved | pkg/analyzer/analyzer.go:238-260 | call sites that are unresolved, or whose key is not indexed, contribute nothing |
| Explorer.UnresolvedCallsAbandon | pkg/analyzer/analyzer.go:201-222 | a body whose calls all fail to resolve gives the empty result, not a leaf |
| Explorer.ExploreRevisits | pkg/analyzer/analyzer.go:244-253 | if no key occurs more than twice in the stack, none does in the result |
| Explorer.BranchesRevisits | pkg/analyzer/analyzer.go:244-253 | the same bound for every branch result |
| Explorer.RootAt | pkg/analyzer/analyzer.go:354-369 | one root call site appends at most one chain; that chain starts at the root and has at most maxRecursionDepth + 1 keys |
| Explorer.RootCalls | pkg/analyzer/analyzer.go:354-370 | every appended chain starts at the root and is within the length bound |
| Explorer.RootResults | pkg/analyzer/analyzer.go:321-374 | the same for the whole callback; a declaration below the parameter minimum appends nothing |
| Explorer.AllRootResults | pkg/analyzer/analyzer.go:47 | the root callback's chains for every declaration of the package, in order |
| Explorer.ExploreLeafIndexed | pkg/analyzer/analyzer.go:147-233 | exploring an index entry gives the empty result or a chain whose leaf was indexed by the current run |
| Explorer.BranchesLeafIndexed | pkg/analyzer/analyzer.go:235-270 | the same for every branch result |
| Explorer.RootCallsLeafIndexed | pkg/analyzer/analyzer.go:354-370 | the same for every chain of a root's call sites |
| Explorer.AllRootResultsLeafIndexed | pkg/analyzer/analyzer.go:321-374 | the same for every chain of the second pass |
| Explorer.RootCallsRevisits | pkg/analyzer/analyzer.go:244-253 | from a root stack [k], no key occurs more than twice in any appended chain |
| Explorer.ThreeIntsArgs | pkg/analyzer/recurse_check_deep_test.go:14-31 | three int parameters give the map {int:3} |
| Explorer.ExploreTestAbandoned | pkg/analyzer/recurse_check_deep_test.go:88-114 | the cyclic, depth-limit and insufficient-parameter cases give the empty result |
| Explorer.LeafMessageExample | pkg/analyzer/analyzer.go:202-210 | a leaf keeping {int:3} under a -> b has the message "make struct with arguments: int, int, int, for call stack: a -> b" |
| Explorer.FormatMessageExample | pkg/analyzer/analyzer.go:209-210 | the message text for three ints and the stack a, b |
| Explorer.JoinIntsExample | pkg/analyzer/analyzer.go:210 | three ints join as "int, int, int" |
| Explorer.JoinStackExample | pkg/analyzer/analyzer.go:209 | the stack a, b joins as "a -> b" |
| Explorer.ExploreTestLeaf | pkg/analyzer/recurse_check_deep_test.go:115-123 | the successful case yields the stack a -> b, leaf b and that message |
| Explorer.CallOfM | pkg/analyzer/analyzer.go:95-103 | the call t.M() with t of type T and the method M on T both key as "T.M" |
| Explorer.RootCallingMParams | pkg/analyzer/analyzer.go:273-290 | root(a, b, c int) has the map {int:3} and 3 parameter units |
| Explorer.RootCallingMResults | pkg/analyzer/analyzer.go:341-369 | the root's results are those of its only call site |
| Explorer.StaleMethodExample | pkg/analyzer/analyzer.go:156-189 | with T.M indexed by the previous run, root(a, b, c int) calling t.M() finds no chain |
| Explorer.ExploreMethodM | pkg/analyzer/analyzer.go:201-215 | T.M indexed by the current run is a leaf under root with the stack root -> T.M |
| Explorer.CurrentMethodExample | pkg/analyzer/analyzer.go:354-369 | with T.M indexed by the current run, the root finds exactly the chain root -> T.M |
| Explorer.RootMMessage | pkg/analyzer/analyzer.go:202-210 | that chain's message is "make struct with arguments: int, int, int, for call stack: root -> T.M" |
| Explorer.FormatRootExample | pkg/analyzer/analyzer.go:209-210 | the message text for three ints and the stack root, T.M |
| Explorer.RootMessageText | pkg/analyzer/analyzer.go:210 | the format string with those two parts filled in |
| Explorer.JoinRootExample | pkg/analyzer/analyzer.go:209 | the stack root, T.M joins as "root -> T.M" |
| Reducer.IsSubChainOf | pkg/analyzer/analyzer.go:411-431 | the result is true iff sub is strictly shorter than main and occurs in it at some offset |
| Reducer.EmptyIsSubChain | pkg/analyzer/analyzer.go:412-428 | the empty stack lies inside exactly the non-empty stacks |
| Reducer.IsSubChainTestCases | pkg/analyzer/filter_chains_test.go:109-166 | longer and identical stacks are not sub-chains; b,c,d and a prefix and a suffix are; a,c,e is not |
| Reducer.SubChainTransitive | pkg/analyzer/analyzer.go:411-431 | a stack inside a stack inside a third lies inside the third |
| Reducer.InsertByLength | pkg/analyzer/analyzer.go:383-385 | inserting keeps the list longest-first and adds exactly that chain |
| Reducer.InsertedBelowHead | pkg/analyzer/analyzer.go:383-385 | a chain shorter than the head, inserted into the tail, leaves every element no longer than the head |
| Reducer.SortByLength | pkg/analyzer/analyzer.go:383-385 | the result is longest-first and a permutation of the input |
| Reducer.ContainsSuperChain | pkg/analyzer/analyzer.go:396 | true iff some kept stack contains the stack as a sub-chain |
| Reducer.JoinKey | pkg/analyzer/analyzer.go:401 | the dedupe key of a stack: its keys joined with "->" |
| Reducer.IsMaxChains | pkg/analyzer/analyzer.go:377-409 | what the reduction promises: no input gives no output; the output holds input chains with a message; it is longest-first; no output stack lies inside or repeats another; every input chain with a message is kept, or lies inside or repeats a kept one |
| Reducer.FilterMaxChains | pkg/analyzer/analyzer.go:377-409 | the output is a maximal-chain reduction of the input, in the sense of IsMaxChains |
| Reducer.VisitChain | pkg/analyzer/analyzer.go:390-405 | one iteration keeps the loop invariant: order, independence, the seen keys, and coverage of the visited chains |
| Reducer.SortedCoversInput | pkg/analyzer/analyzer.go:383-390 | coverage of the sorted list is coverage of the input |
| Reducer.KeepChain | pkg/analyzer/analyzer.go:396-405 | appending a chain that lies in no kept stack and has an unseen key keeps the invariant |
| Reducer.KeepIndependent | pkg/analyzer/analyzer.go:396-404 | such an append keeps the kept stacks independent |
| Reducer.KeepOrder | pkg/analyzer/analyzer.go:383-403 | such an append keeps the kept list longest-first |
| Reducer.KeepSeen | pkg/analyzer/analyzer.go:401-404 | the seen set stays the set of joined kept stacks |
| Reducer.AppendKept | pkg/analyzer/analyzer.go:403 | appending keeps what was covered and covers the new chain |
| Reducer.JoinKeyExamples | pkg/analyzer/analyzer.go:401 | the dedupe keys of a,b,c,d, of a,b,c and of a,b |
| Reducer.KeptSingle | pkg/analyzer/filter_chains_test.go:18-30 | an independent list that covers x and holds only x is [x] |
| Reducer.FilterMaxChainsTestCases | pkg/analyzer/filter_chains_test.go:11-56 | no input gives no output; of a chain without a message and one with, only the latter is kept; of a, b / a, b, c / a, b, c, d only the last is kept |
| Reducer.KeptOnlyParent | pkg/analyzer/filter_chains_test.go:32-56 | of a chain and two of its prefixes, only the chain is kept |
| Analyzer.IndexDecl | pkg/analyzer/analyzer.go:121-135 | one addNodeDecls step: a declaration below the minimum changes nothing; any other is stored under its key with the current run, replacing what was there |
| Analyzer.IndexDecls | pkg/analyzer/analyzer.go:113-139 | the first pass: the steps applied to the declarations in order |
| Analyzer.IndexDeclsConsistent | pkg/analyzer/analyzer.go:133-135 | every indexed declaration sits under its own key |
| Analyzer.IndexDeclsEntries | pkg/analyzer/analyzer.go:121-136 | every entry after the pass is an untouched earlier entry or an eligible declaration of the pass under its key, marked with the current run; no declaration below the minimum is inserted |
| Analyzer.IndexDeclsLastWins | pkg/analyzer/analyzer.go:133-135 | the last eligible declaration with a key is the one stored |
| Analyzer.PackageLeaves | pkg/analyzer/analyzer.go:35-47 | when every earlier entry comes from an earlier run, every chain the run's second pass finds ends at a declaration of this package |
| Analyzer.Diagnostics | pkg/analyzer/analyzer.go:51-55 | the reported pairs: the chains with a message and a leaf, in order |
| Analyzer.AllRootResultsStep | pkg/analyzer/analyzer.go:47 | results holding the chains of the first i declarations, plus those of the next one, hold the chains of the first i + 1 |
| Analyzer.AllRootResultsReportable | pkg/analyzer/analyzer.go:367-368 | every appended chain has a message and a leaf |
| Analyzer.DiagnosticsOfReportable | pkg/analyzer/analyzer.go:51-55 | reporting chains that all have a message and a leaf reports each one, in order |
| Analyzer.StaleChainsReported | pkg/analyzer/analyzer.go:50-55 | once results hold a chain, every later reduction reports something |
| Analyzer.NoResultsNoDiagnostics | pkg/analyzer/analyzer.go:50-55 | no results means no diagnostics |
| Analyzer.CountOccurrences | pkg/analyzer/analyzer.go:244-249 | the loop counts the occurrences of the key in the stack |
| Analyzer.ExpandArgs | pkg/analyzer/analyzer.go:202-207 | the loop lists exactly the units of the intersection |
| Analyzer.LongestChain | pkg/analyzer/analyzer.go:225-230 | the loop returns the first longest chain |
| Analyzer.ReportChains | pkg/analyzer/analyzer.go:51-55 | the loop reports the chains with a message and a leaf, in order |
| Analyzer.ParamAnalyzer.constructor | pkg/analyzer/analyzer.go:307-312 | an empty index, no results, no type information yet, the given settings |
| Analyzer.DefaultAnalyzer | pkg/analyzer/analyzer.go:302-304 | the default settings: at least 2 parameters, depth 10 |
| Analyzer.ParamAnalyzer.AddNodeDecl | pkg/analyzer/analyzer.go:113-139 | a declaration with enough units is stored under its key, marked with the current run; the rest of the index is unchanged; a declaration below the minimum changes nothing |
| Analyzer.ParamAnalyzer.AddNodeDecls | pkg/analyzer/analyzer.go:113-139 | the first pass leaves the index its declarations build on top of the old index |
| Analyzer.ParamAnalyzer.RecurseCheckDeep | pkg/analyzer/analyzer.go:147-233 | the method computes the explorer's result for the current index and run |
| Analyzer.ParamAnalyzer.GetChains | pkg/analyzer/analyzer.go:235-270 | the method computes the explorer's branch results |
| Analyzer.ParamAnalyzer.ProcessFuncDecl | pkg/analyzer/analyzer.go:321-374 | results grow by exactly the chains of this declaration's call sites; each has a message and a leaf |
| Analyzer.ParamAnalyzer.RootCallsOf | pkg/analyzer/analyzer.go:354-370 | the call-site loop collects exactly the root chains |
| Analyzer.ParamAnalyzer.RootCall | pkg/analyzer/analyzer.go:355-369 | one call site yields its root chain, if any; it has a message and a leaf |
| Analyzer.ParamAnalyzer.ProcessFuncDecls | pkg/analyzer/analyzer.go:321-374 | the second pass appends the chains of every declaration, in order |
| Analyzer.ParamAnalyzer.Run | pkg/analyzer/analyzer.go:35-58 | a new run's type information is installed; the index grows by this package's declarations, marked with the run; results grow by this package's chains, each ending at a declaration of this package; the diagnostics are those of a maximal-chain reduction of all results |
| Analyzer.ParamAnalyzer.RunFresh | pkg/analyzer/analyzer.go:35-58 | as Run, but from an empty index and no results |
| Analyzer.StaleRunWitness | pkg/analyzer/analyzer.go:35-58 | after results are non-empty, a run over no declarations still reports |
| Analyzer.FreshRunWitness | pkg/analyzer/analyzer.go:35-58 | with RunFresh, a run over no declarations reports nothing |
| GoSet.Set.constructor | pkg/analyzer/set.go:7 | a new set is empty and not nil |
| GoSet.Has | pkg/analyzer/set.go:34-41 | membership; always false on the nil set |
| GoSet.NewSet | pkg/analyzer/set.go:6-14 | a fresh set that has x iff x is among the arguments |
| GoSet.Add | pkg/analyzer/set.go:44-50 | a non-nil set gains the item and nothing else changes; adding a present item changes nothing; on nil it does nothing |
| GoSet.SetExamples | pkg/analyzer/set_test.go:8-67 | the cases of the set's tests: membership after NewSet and Add, the intersection {2, 3} of two sets, nil from an intersection with the nil set, no member in the nil set |
| GoSet.Intersection | pkg/analyzer/set.go:17-31 | nil iff either operand is empty; otherwise a fresh set of exactly the common elements; neither operand changes |

## Left out

- Type resolution: `TypeOf`, `ObjectOf` and the `ExprString` fallback are not modelled. Each field carries its resolved type string, and each receiver and selector operand carries its resolved type. Only which run's type information is current is modelled: a declaration indexed by an earlier run has no parameter types under it. Under that abstraction `initArgsMap` and the inline loop at pkg/analyzer/analyzer.go:156-177 compute the same map for a declaration of the current run, modelled once.
- For an entry of an earlier run, Go computes the explored key with the current type information, so a method keys by its bare name (pkg/analyzer/analyzer.go:152). The model uses the key computed with the entry's own types. The branch is abandoned before that key is used (pkg/analyzer/analyzer.go:187-189), so no result differs.
- `ast.Inspect`: a body is given as the list of its call expressions, in the order `ast.Inspect` visits them (depth first, an enclosing call before the calls in its arguments).
- The inspector-missing error and `pass.Reportf`: Run returns the diagnostics as (leaf declaration, message) pairs instead of reporting positions.
- `sync.RWMutex`: the index is plain state; no concurrency is modelled.
- `all` holds declarations, never nil, so the `calledFunc == nil` test at pkg/analyzer/analyzer.go:258 has no counterpart.
- Slice aliasing: `append(callStack, key)` at pkg/analyzer/analyzer.go:153 reuses the stack's backing array when it has spare capacity (a stack of length 3 has capacity 4; lengths 5 to 7 have capacity 8). Sibling call sites then write their keys into the same slot. An earlier sibling's `callStack` can change after its `msg` was formatted, and `filterMaxChains` may drop or merge the wrong chains. The model uses immutable sequences, so every chain keeps the stack its message names.
- Analyzer.ParamAnalyzer.Run: `sort.Slice` reorders `m.results` in place, which changes the order later runs see. The model leaves `results` in append order. The order among equal-length chains after the unstable sort is not promised, so FilterMaxChains states the properties of its output, not the exact list.
- Reducer.FilterMaxChains: where the Go function returns a nil slice, the model returns the empty sequence.
- Integer widths: counts and depths are unbounded integers; Go's `int` does not overflow at realistic sizes.
- pkg/analyzer/mocker.go and usestruct.go (plugin registration and settings decoding) are not part of this model.

## Findings

| source | as written | input that shows it | evidently intended | confidence | as-written member | corrected member |
|---|---|---|---|---|---|---|
| pkg/analyzer/analyzer.go:35-58 | `run` appends to `results` and never clears it, then reduces and reports every result gathered so far | one analyzer value used for two packages, where the first yields a chain and the second has no declarations: the second run reports the first package's chain again | each run reports only its own package's chains | medium, not executed | Analyzer.StaleRunWitness | Analyzer.ParamAnalyzer.RunFresh |
