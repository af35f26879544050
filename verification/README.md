# Verified model of nolu and xolu

A Dafny model of the parts of nolu/xolu that carry the most state: the in-memory graph, the JSON
tokeniser with its inline filter, the OQL-to-SQL translation, the ownership protocol (registry,
proposals, hotswap, tenant directory), the rate limiter and the location cache. `dafny verify
dfyconfig.toml` checks everything.

Code that updates objects in place is modelled by classes (`FlatGraph`, `Tokeniser`,
`MemoryRegistry`, `MemoryNegotiator`, `MemoryManager`, `TenantDirectory`, `RateLimiter`,
`LocationCache`), each proved against a specification on values; the run theorems are about that
specification. Go maps are iterated in an arbitrary order (`:|`), so every result holds for every
order. Timestamps, minted IDs and the answers of remote systems are parameters.

## What holds

* **Graph.** `FlatGraph.Valid` says that `out` and `in` mirror each other, that all endpoints exist,
  and that the type index, the tenant sets and all counters equal a recount; every mutator keeps it
  on every exit, including the relabel whose rollback fails too. In "error" mode no run of calls ever
  closes a cycle inside a tenant's scope. The three searches are correct for every iteration order.
  An edge is there exactly when the calls so far say so. A saved graph reloads as itself, in any replay
  order.
* **JSON.** The tokeniser succeeds exactly on inputs that start with a value of the grammar written
  out in `JsonGrammar`, and then emits that value's tokens; the word-at-a-time whitespace skip stops
  where the byte loop does; numbers, strings and white space are what positions and bytes alone say they
  are (`JsonLexical`); `SkipValue` is exact although it counts one kind of bracket; the filter
  decides by the last occurrence of each field.
* **OQL.** Splitting WHERE loses and adds nothing; exactly when filter and executor agree on a pushed
  term, and which fields keep their values in the extracted map the residual runs on, is known, and so
  when the whole scan accepts what the executor would. The emitted WHERE and HAVING, read with SQL's
  precedence inside the statement, have the source's three-valued truth value under every valuation; in
  the whole statement the k-th placeholder belongs to the k-th
  argument, the arguments are the statement's literals in order, and every clause reads back as the
  source's (`StatementReads`). If the database's elementary tests and native functions mean what the
  executor's do, the generated WHERE decides as the executor does (`StatementSelectsAsExecuted`).
* **Ownership.** A record, and every answer about it, is told by the calls accepted so far; so is a
  proposal (`RecordIsItsCalls`, `ProposalStands`). In every interleaving the version-checked remote registry refines the atomic one;
  histories are unbroken chains and balance with proposals; hotswap histories are paths of the
  documented diagram, a failed step is never completed and without failures all complete; the directory's drift from a recount is known exactly.
* **Bounds.** The rate limiter's exact burst bound, and when the cache may lose a live key.

## What does not hold, and exactly when it does

* Unscoped nodes can link any two tenants into a cycle of the whole graph; the whole graph stays acyclic
  exactly as long as at most one tenant is linked with unscoped nodes both ways (`WholeGraphAcyclicIff`).
* `CheckEdge` documents itself as returning the first error `AddEdge` would return
  (flat_graph.go:178-187). It does not look at malformed IDs; the two agree exactly when neither ID is
  malformed, unless the budget is used up to the last node (`CheckEdgePredictsAddEdgeIff`).
* An unscoped entity named like `00AB@x` is taken for a node of tenant 00AB
  (`UnscopedIdIsBareIffEntityIs`).
* Token offsets are 32-bit and wrap at 4 GiB (`OffsetsWrapAtFourGiB`).
* Packing names of up to eight bytes is called bijective (atom.go:17); two such names share an atom exactly
  when they differ in trailing zero bytes only (`ShortAtomsCollideIff`). Two predicates on one field share
  a slot and the filter then never passes (`FilterExtract`, `SharedFieldRejects`).
* A term pushed into the filter need not mean there what it means to the executor; exactly when it does is
  `CompiledAgreesIff`. The executor accepts some operators on a field that is absent or null, the filter
  none (`NilAcceptedIff`, `MissingFieldDisagrees`); `compileIn` says that all values of an IN list must be of one type
  family, and only keeps the type of the first one (`MixedListDisagrees`).
* The residual runs on the extracted map, where a later null leaves the earlier value
  (`LaterNullIsMissed`) and a qualified name is missing, because only its first part is collected
  (`QualifiedIsMissed`); a field is what it is in the whole object exactly when `ExtractedFieldIff` says.
* `compareValues` is transitive within one family of values and not across (`CompareIsTransitive`,
  `MixedTextsCycle`). A field name on the right of a comparison is bound as a text by the push-down and
  looked up by the executor (`BoundLiteralIff`).
* The two LIKE matchers agree exactly when the pattern has no wildcard between one leading and one
  trailing `%` (`MatchersAgreeIff`); the executor's matcher slices out of range exactly on the pattern `%`
  (`ExecutorAnswersIff`).
* `flattenAND` ignores the case of AND and the executor does not (`SplitKeepsMeaningIff`).
* A comparison operator spelled like a keyword does not read back (`ComparisonReadsIff`).
* A zero version is left out of the request, and the save is then unconditional: the remote registry
  refines the atomic one exactly when versions start above 0 (`RefinesIffVersionsStartAboveZero`).
* Proposing again under the ID of an accepted proposal forgets the acceptance
  (`HistoryIsConservedIff`).
* An abort is harmless exactly when no driver with an unchecked ending is in flight
  (`AbortIsSafeIff`); otherwise FAILED can be left and two hotswaps of one tenant can be under way
  (`UntimelyAbortRevivesAFailedHotswap`).
* Transfers within one directory key, and from a scoped to an unscoped owner, leave the directory's
  count one too high for good (`CountsAreRecountPlusDrift`, `DirectoryAgreesIff`); `Locate` is documented
  to return the largest entry and does not after a removal from the entry it points at
  (`LeaveKeepsLargestIff`, `LocateMissesTheLargest`); a cutover drops the tenant's name
  (`CutoverForgetsTheName`).
* The limiter's comment concedes a burst of twice the rate; the exact bound is one less
  (`AtMostTwiceTheRate`, `BoundIsMet`).
* `LocalRef.TenantName` is documented as not used for equality (identity.go:126-132), but `Transfer`
  compares whole references (`TenantNameDecidesTransfer`).
* A cutover lists once and then moves record by record: later arrivals stay behind although the hotswap
  becomes COMPLETE (`LateArrivalStaysBehindIff`).

## Model

| member | source | states |
|---|---|---|
| `TenantIds.PrefixTestDecidesTenant` | xolu/pkg/tenant/tenant.go:57-68 | for an ID and a non-empty prefix of a node, starting with the prefix is the same as belonging to that tenant |
| `TenantIds.ScopedIdCarriesItsTenant` | xolu/pkg/tenant/tenant.go:29-48 | the ID made for a non-zero tenant parses back to that tenant's prefix and is never malformed, whatever the entity name |
| `TenantIds.UnscopedIdIsBareIffEntityIs` | xolu/pkg/tenant/tenant.go:29-34 | an ID made for tenant 0 parses as unscoped exactly when the entity name does |
| `TenantIds.PrefixIsATenantNumber` | xolu/pkg/tenant/tenant.go:57-68 | an ID has a prefix exactly when it starts with four upper-case hex digits, which stand for a number below 65536, and an '@'; it is malformed exactly when it has an '@' but no such start |
| `TenantIds.DecimalReadsBack` | xolu/pkg/tenant/tenant.go:29-34 | the rendering of any number reads back as that number: a sign, digits, no leading zeros |
| `TenantIds.PrefixesAreDistinct` | xolu/pkg/tenant/tenant.go:36-48 | different tenants have different prefixes |
| `TenantIds.NodeIdsEqualIff` | xolu/pkg/tenant/tenant.go:26-34 | two node IDs are equal exactly when their numbers are and their entity names are once prefixed |
| `TenantIds.ScopedIdsAreDistinct` | xolu/pkg/tenant/tenant.go:26-34 | the ID of a non-zero tenant names one tenant, one entity and one number |
| `Digraph.EdgeClosesCycleIff` | xolu/pkg/graph/flat_graph.go:298-305 | adding an edge to an acyclic graph closes a cycle exactly when its target already reaches its source: what a cycle pre-check has to decide |
| `FlatGraphs.FlatGraph.constructor` | xolu/pkg/graph/flat_graph.go:64-84 | a new graph is empty, in the given mode, with all books in step |
| `FlatGraphs.FlatGraph.SetCycleCheckLimit` | xolu/pkg/graph/flat_graph.go:110-119 | a non-positive limit selects the default; nothing else changes |
| `FlatGraphs.FlatGraph.AddNode` | xolu/pkg/graph/flat_graph.go:423-483 | new, retyped, promoted, unchanged or refused as specified, with index, tenant sets and counters equal to a recount |
| `FlatGraphs.FlatGraph.WouldCreateCycle` | xolu/pkg/graph/flat_graph.go:306-342 | terminates, and for every order answers true if the source is reachable, false if it is not and the reachable set is below the limit, true above the limit |
| `FlatGraphs.FlatGraph.AddEdge` | xolu/pkg/graph/flat_graph.go:225-277 | the edge is added, found present, or refused for the first of: cross-tenant, malformed ID, other label, cycle; placeholders stay on failing exits; books in step throughout |
| `FlatGraphs.FlatGraph.RemoveEdge` | xolu/pkg/graph/flat_graph.go:279-296 | exactly that edge goes, from both halves and from the counters; a missing edge is no error |
| `FlatGraphs.FlatGraph.RemoveNode` | xolu/pkg/graph/flat_graph.go:127-176 | exactly the node and the edges touching it go, self-loops included, with all books in step |
| `FlatGraphs.FlatGraph.Relabel` | xolu/pkg/graph/flat_graph.go:379-416 | delete and re-add; it fails only when the cycle check of "error" mode refuses, and then reports whether the old label could be put back: if so the edges are as before, if not exactly that edge is gone, and everything is still in step |
| `FlatGraphs.FlatGraph.UpdateFromEntityForTenant` | xolu/pkg/graph/flat_graph.go:344-420 | on success the node points exactly at the nodes the entity's references name in the node's own tenant, each edge labelled by the last reference to it; on failure the error is a refused edge or relabelling (cycles only in "error" mode), every edge is an old or a new one, no other node's edges change, and no wanted old edge is lost but the one that could not be put back |
| `GraphRecords.TargetsAreTheNamedNodes` | xolu/pkg/graph/flat_graph.go:350-354 | the wanted targets are exactly the nodes the references name in the tenant, each with the label of the last reference that names it |
| `GraphRecords.TargetsStayInTheTenant` | xolu/pkg/graph/flat_graph.go:350-354 | every target of a scoped tenant's entity carries that tenant's own prefix and is never malformed |
| `FlatGraphs.FlatGraph.CheckEdge` | xolu/pkg/graph/flat_graph.go:188-217 | gives AddEdge's verdict on tenants, labels and cycles without changing anything |
| `FlatGraphs.FlatGraph.SearchCycle` | xolu/pkg/graph/flat_graph.go:793-844 | the iterative three-colour search terminates and finds a cycle exactly when the subgraph on the selected nodes has one |
| `FlatGraphs.FlatGraph.HasCycle` | xolu/pkg/graph/flat_graph.go:793-844 | true exactly when the graph has a directed cycle, for every iteration order |
| `FlatGraphs.FlatGraph.HasCycleForTenant` | xolu/pkg/graph/flat_graph.go:850-906 | refuses the empty prefix, and otherwise decides cycles of the subgraph induced by that prefix |
| `FlatGraphs.FlatGraph.FindPath` | xolu/pkg/graph/flat_graph.go:537-592 | a real path of minimum length; fails exactly when tenants differ, an endpoint is missing or no path of at most maxDepth edges exists |
| `FlatGraphs.FlatGraph.PathExists` | xolu/pkg/graph/flat_graph.go:594-640 | existence within maxDepth, and the minimum length |
| `FlatGraphs.FlatGraph.CompareSearches` | xolu/pkg/graph/flat_graph.go:537-640 | the two searches always report the same existence and the same length |
| `FlatGraphs.FlatGraph.Save` | xolu/pkg/graph/flat_graph.go:1010-1047 | the snapshot lists every node with its type and outgoing edges, the mode and the limit |
| `FlatGraphs.FlatGraph.Load` | xolu/pkg/graph/flat_graph.go:1049-1142 | succeeds exactly on known modes and loadable listings, in any replay order; otherwise the graph is untouched |
| `FlatGraphs.FlatGraph.SaveThenLoad` | xolu/pkg/graph/flat_graph.go:1010-1142 | saving and loading into any graph reports no error and rebuilds the saved graph, books included |
| `GraphSpec.StepKeeps` | xolu/pkg/graph/flat_graph.go:225-420 | every call, failing ones included, keeps the graph well-formed and, in "error" mode, every tenant's scope acyclic |
| `GraphSpec.EveryRunIsWellFormed` | xolu/pkg/graph/flat_graph.go:121-483 | after any run from the empty graph endpoints exist, no edge crosses tenants and an untyped node has no edges |
| `GraphSpec.EveryRunKeepsTenantsAcyclic` | xolu/pkg/graph/flat_graph.go:225-420 | in "error" mode, after any run, for every tenant prefix the nodes of that tenant and the unscoped ones form an acyclic subgraph |
| `GraphSpec.AcceptedEdgeKeepsScopeAcyclic` | xolu/pkg/graph/flat_graph.go:306-342 | skipping other tenants' nodes never hides a cycle of the asking node's own scope |
| `GraphSpec.CheckEdgePredictsAddEdgeIff` | xolu/pkg/graph/flat_graph.go:178-217 | off the exact budget, CheckEdge and AddEdge give the same verdict exactly when neither ID is malformed |
| `GraphSpec.AddEdgeEffect` | xolu/pkg/graph/flat_graph.go:225-277 | what AddEdge changes in types and edges for each outcome |
| `GraphLaws.EdgeIsThereIff` | xolu/pkg/graph/flat_graph.go:121-420 | after any run from the empty graph an edge is there with a label exactly when some accepted call said so and no call since took it away or relabelled it, provided no update of its source failed |
| `GraphLaws.StepLinksIff` | xolu/pkg/graph/flat_graph.go:121-420 | one call links an edge with a label exactly if it says so, or leaves one that it does not take away or relabel |
| `GraphLaws.TypeStaysUntilRemoved` | xolu/pkg/graph/flat_graph.go:438-452 | in every run a node keeps its type, once it has one other than the placeholder's, until it is removed |
| `GraphLaws.AddNodeAnswers` | xolu/pkg/graph/flat_graph.go:423-483 | refused as mistyped exactly when another type is settled and as malformed exactly when the ID is, without effect; accepted, the node has the wanted type and nothing else changes |
| `GraphRecords.LinkMirrors` | xolu/pkg/graph/flat_graph.go:272-276 | writing both halves of an edge, self-loops included, keeps `out` and `in` mirrored |
| `GraphRecords.UnlinkMirrors` | xolu/pkg/graph/flat_graph.go:279-296 | clearing both halves keeps them mirrored |
| `GraphRecords.NewNodeBooks` | xolu/pkg/graph/flat_graph.go:427-437 | tenant set and node counter equal a recount after a node is created |
| `GraphRecords.RetypeBooks` | xolu/pkg/graph/flat_graph.go:438-483 | type index and placeholder counter equal a recount after a change of type, promotion included |
| `GraphRecords.DropNodeBooks` | xolu/pkg/graph/flat_graph.go:127-176 | index, tenant set and counters equal a recount after a node is removed |
| `GraphSearch.BfsShortest` | xolu/pkg/graph/flat_graph.go:537-592 | when a node is taken from the queue its recorded depth is its distance |
| `GraphSearch.BfsExhausted` | xolu/pkg/graph/flat_graph.go:537-640 | an empty queue means no path within the depth limit |
| `GraphSearch.BackEdgeIsCycle` | xolu/pkg/graph/flat_graph.go:818-836 | a grey successor of the top of the stack closes a real cycle |
| `GraphSearch.AllBlackIsAcyclic` | xolu/pkg/graph/flat_graph.go:805-844 | when everything is black there is no cycle |
| `GraphSnapshot.SavedGraphReplays` | xolu/pkg/graph/flat_graph.go:1010-1142 | the replay of a well-formed graph's snapshot has the same types and edges |
| `GraphSnapshot.TypesReplayIff` | xolu/pkg/graph/flat_graph.go:1101-1112 | the replay rebuilds the types exactly when no edge touches an untyped node |
| `GraphSnapshot.LoadNodeStep` | xolu/pkg/graph/flat_graph.go:1101-1112 | replaying a node promotes the placeholder an earlier edge left for it, whatever the order |
| `WholeGraphCycles.TwoTenantsCanCloseACycle` | xolu/pkg/graph/flat_graph.go:226-236 | for any two tenants a run of accepted calls in "error" mode, from the empty graph, that links just those two with unscoped nodes both ways and closes a cycle |
| `WholeGraphCycles.OneTwoWayTenantStaysAcyclic` | xolu/pkg/graph/flat_graph.go:329-334 | if at most one tenant is both entered from and left to unscoped nodes, per-tenant acyclicity is whole-graph acyclicity |
| `WholeGraphCycles.WholeGraphAcyclicIff` | xolu/pkg/graph/flat_graph.go:225-342 | for any set of tenants allowed to be linked both ways: every reachable graph is acyclic as a whole exactly when the set has at most one |
| `Tokenisers.HasZeroIsExact` | xolu/pkg/jsonic/tokeniser.go:126-152 | the word trick finds a zero byte exactly when there is one |
| `Tokenisers.NoWhitespaceInChunk` | xolu/pkg/jsonic/tokeniser.go:126-152 | a chunk the word test passes starts with no whitespace byte |
| `Tokenisers.Tokeniser.SkipWS` | xolu/pkg/jsonic/tokeniser.go:112-124 | stops at the first byte that is not whitespace |
| `Tokenisers.Tokeniser.SkipWS8` | xolu/pkg/jsonic/tokeniser.go:126-152 | always stops exactly where the byte loop would |
| `Tokenisers.Tokeniser.ParseValue` | xolu/pkg/jsonic/tokeniser.go:166-190 | reads one value, appends exactly its tokens and stops at its end, or fails |
| `Tokenisers.Tokeniser.ParseObject` | xolu/pkg/jsonic/tokeniser.go:192-228 | reads an object member by member exactly as the grammar has it (a trailing comma is refused), appending its tokens, or fails |
| `Tokenisers.Tokeniser.ParseArray` | xolu/pkg/jsonic/tokeniser.go:230-256 | reads an array item by item exactly as the grammar has it, appending its tokens, or fails |
| `Tokenisers.Tokeniser.ParseString` | xolu/pkg/jsonic/tokeniser.go:258-277 | ends at the first unescaped quote; the token excludes the quotes |
| `Tokenisers.Tokeniser.ParseNumber` | xolu/pkg/jsonic/tokeniser.go:279-304 | the loose number syntax of the source, wider than section 6 of RFC 8259 |
| `Tokenisers.Tokeniser.ParseLiteralToken` | xolu/pkg/jsonic/tokeniser.go:306-318 | succeeds exactly when the literal is there |
| `Tokenisers.Tokeniser.Tokenise` | xolu/pkg/jsonic/tokeniser.go:79-85 | succeeds exactly when some value tree is derivable at the start, and then the tokens are the flattening of that tree |
| `JsonLexical.NumberIsLongest` | xolu/pkg/jsonic/tokeniser.go:279-304 | a number is the longest slice made of an optional minus, digits, an optional dot with digits and an optional e or E with an optional sign and digits, where any of the digits may be missing |
| `JsonLexical.StringEndsAtFirstPlainQuote` | xolu/pkg/jsonic/tokeniser.go:258-277 | a string ends at the first quote before which an even number of backslashes stands |
| `JsonLexical.SkipsWhiteSpace` | xolu/pkg/jsonic/tokeniser.go:112-124 | exactly space, tab, line feed and carriage return are skipped |
| `JsonLexical.ScalarBytes` | xolu/pkg/jsonic/tokeniser.go:166-190 | a scalar's bytes are a string between its quotes, a longest number, or one of the three words |
| `JsonLexical.SampleTokens` | xolu/pkg/jsonic/tokeniser.go:166-256 | the tokens of a small object, one by one with their offsets |
| `JsonParse.ParsesIffDerives` | xolu/pkg/jsonic/tokeniser.go:166-318 | the parser returns a tree exactly when the grammar derives it: sound, complete and unambiguous |
| `JsonGrammar.FlattenOrdered` | xolu/pkg/jsonic/tokeniser.go:154-164 | below 4 GiB all token ranges are in bounds and in order |
| `JsonGrammar.OffsetsWrapAtFourGiB` | xolu/pkg/jsonic/tokeniser.go:158-164 | a stored range is the real one exactly when it ends below 2^32 |
| `JsonNavigate.SkipValue` | xolu/pkg/jsonic/tokeniser.go:327-359 | from the first token of any embedded value it lands just past that value |
| `JsonNavigate.FlattenLevel` | xolu/pkg/jsonic/tokeniser.go:320-359 | in the tokens of a value either kind of bracket is balanced and never closes early, whatever the other kind does |
| `LikeMatching.MatchLikeRec` | xolu/pkg/jsonic/predicate.go:290-324 | terminates, and is true exactly when the text splits into parts as the pattern says |
| `LikeMatching.MatchLike` | xolu/pkg/jsonic/predicate.go:284-288 | the same for the whole text and pattern |
| `LikeMatching.LiteralBodyAgrees` | xolu/pkg/oql/executor.go:954-973 | on patterns whose only wildcards are a leading and a trailing `%` the simple matcher is the full one |
| `LikeMatching.MatchersAgreeIff` | xolu/pkg/oql/executor.go:954-973 | the two matchers agree on all texts exactly on those patterns |
| `LikeMatching.ExecutorAnswersIff` | xolu/pkg/oql/executor.go:954-973 | the executor's slices are in range, so that it answers, exactly on the patterns other than "%" |
| `JsonPredicates.ShortAtomsCollideIff` | xolu/pkg/jsonic/atom.go:16-31 | two names of up to eight bytes share an atom exactly when the longer is the shorter followed by zero bytes |
| `JsonPredicates.ShortAtomsAreInjective` | xolu/pkg/jsonic/atom.go:16-31 | names of up to eight bytes without a zero byte are told apart by their atoms |
| `JsonPredicates.EvalTokenValue` | xolu/pkg/jsonic/predicate.go:123-260 | a token matches exactly when it has the predicate's type and its value satisfies the predicate |
| `JsonPredicates.BytesOrder` | xolu/pkg/jsonic/predicate.go:262-279 | the order of texts is lexicographic: less exactly when a proper prefix, or smaller at the first differing byte |
| `JsonPredicates.TextPredicateMeans` | xolu/pkg/jsonic/predicate.go:163-181 | on text each operator is decided by that order or by equality, and IN is membership; other tokens never match |
| `JsonPredicates.NumberPredicateMeans` | xolu/pkg/jsonic/predicate.go:197-260 | on numbers each operator is decided by the values, and IN finds any listed number less than 1e-9 away and no other |
| `JsonPredicates.IntPredicateMeans` | xolu/pkg/jsonic/predicate.go:183-195 | an integer predicate is decided by the values, and only on numbers |
| `JsonPredicates.BoolPredicateMeans` | xolu/pkg/jsonic/predicate.go:211-225 | on true and false only = and != are answered |
| `JsonPredicates.NewPredicateSet` | xolu/pkg/jsonic/predicate.go:83-92 | each atom's slot belongs to the last predicate on it |
| `JsonFilter.FilterExtract` | xolu/pkg/jsonic/filter_extract.go:32-137 | on any tokenised object, with distinct atoms that identify their keys, or with short, zero-free and distinct names, passes exactly when the last occurrence of each field has the type and satisfies the predicate, and then returns the last value of each wanted field; with a shared slot it never passes |
| `JsonFilter.ShortNamesNeverClash` | xolu/pkg/jsonic/filter_extract.go:58-92 | with short, zero-free names and keys atoms identify keys, and two predicates share a slot only for one name |
| `JsonFilter.Walk` | xolu/pkg/jsonic/filter_extract.go:58-117 | one pass leaves each slot with the verdict on the last occurrence so far |
| `JsonFilter.TokenToGoValue` | xolu/pkg/jsonic/filter_extract.go:160-199 | strings and booleans by kind, numbers, objects and arrays decoded from their full slice; null, and a container that does not decode, give nothing |
| `PredicateCompiler.CompilePredicates` | xolu/pkg/oql/predicate_compiler.go:37-65 | each compilable flattened term, and nothing else, becomes a predicate, in order, and the residual holds exactly when all other terms do |
| `PredicateCompiler.CompileTerm` | xolu/pkg/oql/predicate_compiler.go:97-195 | compiles exactly the field-against-literal comparisons, plain literal IN lists and plain LIKEs, to the filter's own predicate |
| `PredicateCompiler.CompileIn` | xolu/pkg/oql/predicate_compiler.go:136-167 | compiles exactly the plain lists of literals, keeping every value in order and the type of the first |
| `PredicateCompiler.CompiledListMeans` | xolu/pkg/oql/predicate_compiler.go:136-167 | a compiled IN is about the named field, holds all its literals in order, and has the type of the first: text, number or boolean, and text if there is none |
| `PushDown.TermAccepts` | xolu/pkg/oql/predicate_compiler.go:97-195 | the executor's verdict on a compilable term is what its predicate asks of the field's value, reversed operands included |
| `PushDown.ReverseMeans` | xolu/pkg/oql/predicate_compiler.go:266-279 | reversing the operator compensates for swapping the operands |
| `PredicateCompiler.FlattenMeans` | xolu/pkg/oql/predicate_compiler.go:67-77 | the executor accepts exactly when every flattened AND is upper-case and all flattened terms hold |
| `PredicateCompiler.RebuildAnd` | xolu/pkg/oql/predicate_compiler.go:79-95 | the rebuilt expression holds exactly when all its terms do; nothing to rebuild gives nothing |
| `PredicateCompiler.SplitIsAPartition` | xolu/pkg/oql/predicate_compiler.go:37-65 | under every meaning of the terms, all flattened terms hold exactly when the pushed and the kept ones do |
| `PredicateCompiler.SplitKeepsMeaningIff` | xolu/pkg/oql/predicate_compiler.go:37-95 | pushed terms and residual together have the executor's meaning on a record exactly when every AND is upper-case or some term fails anyway |
| `PredicateCompiler.LowerCaseAndSplitsDifferently` | xolu/pkg/oql/predicate_compiler.go:67-77 | two true terms joined by "and": the executor rejects, the split accepts |
| `Executor.CompareFlips` | xolu/pkg/oql/aggregator.go:120-155 | swapping the operands of compareValues flips its sign, across nil, numbers, numeric text and printed forms |
| `ExecutorLaws.CompareMeans` | xolu/pkg/oql/aggregator.go:119-155 | nil comes first, two numbers or texts that parse as such compare by value, and everything else by its printed bytes, lexicographically |
| `ExecutorLaws.CompareIsTransitive` | xolu/pkg/oql/aggregator.go:119-155 | among values that all count as numbers, or of which none does, the comparison is transitive |
| `ExecutorLaws.MixedTextsCycle` | xolu/pkg/oql/aggregator.go:119-155 | the texts 2, 10 and 1a are each less than the next, in a circle |
| `ExecutorLaws.ComparisonMeans` | xolu/pkg/oql/executor.go:909-926 | each operator by the sign of the comparison; an unknown one holds of nothing |
| `ExecutorLaws.ConnectivesMean` | xolu/pkg/oql/executor.go:585-602 | AND, OR and NOT are conjunction, disjunction and negation |
| `ExecutorLaws.BetweenIsTwoComparisons` | xolu/pkg/oql/executor.go:609-614 | BETWEEN is the AND of its two comparisons, NOT BETWEEN its negation |
| `ExecutorLaws.InIsAnyEqual` | xolu/pkg/oql/executor.go:616-625 | IN is the OR of its equalities, false for no values, NOT IN its negation |
| `ExecutorLaws.NegatedTestsMean` | xolu/pkg/oql/executor.go:604-631 | IS NOT NULL is the negation of IS NULL, and NOT LIKE of LIKE wherever LIKE answers |
| `ExecutorLaws.AfterLastDotMeans` | xolu/pkg/oql/aggregator.go:450-466 | a field the record lacks is looked up under exactly what follows the last dot of its name |
| `PushDown.CompiledAgreesIff` | xolu/pkg/jsonic/predicate.go:123-260 | on an object, the filter and the executor agree on a compiled term exactly when it is aligned: absent or mistyped fields are ones the executor rejects too, numeric text compares alike both ways, booleans are not ordered, lists match by the field's own type, the LIKE matchers agree; number against number always agrees |
| `PushDown.NilAcceptedIff` | xolu/pkg/oql/aggregator.go:120-131 | of a field that is absent or null the executor accepts exactly `!=`, `<`, `<=`, and a LIKE that the printed nil matches; all of these the filter rejects |
| `WhereFilter.FilterWhere` | xolu/pkg/oql/executor.go:257-292 | a WHERE compiled, filtered over the tokens and finished by the residual on the extracted map accepts exactly what the executor accepts on the whole object, when AND is spelled in upper case, the pushed terms are aligned, the kept terms' fields are seen and the atoms tell the names apart; with two predicates in one slot nothing passes |
| `WhereFilter.ExtractedFieldIff` | xolu/pkg/jsonic/filter_extract.go:120-137 | the extracted map gives a field, plain or qualified, the value it has in the whole object exactly when the field is seen: it is wanted and its last value is neither null nor undecodable, or the object gives it no value at all |
| `WhereFilter.ExtractedMeans` | xolu/pkg/oql/executor.go:583-640 | a condition all of whose operands are seen, arguments of functions and arithmetic included, has the same verdict on the extracted map as on the whole object |
| `WhereFilter.BareWhereIsSeen` | xolu/pkg/oql/field_refs.go:18-118 | in a WHERE of undotted names, literals and scalar functions the collected fields are all the kept terms need, on an object where each is absent, last written with a plain value, or only ever null |
| `WhereFilter.ShortNamesTell` | xolu/pkg/jsonic/filter_extract.go:58-92 | among short, zero-free names and keys the atoms tell all names apart exactly when no two predicates are about one field |
| `WhereFilter.QualifiedIsMissed` | xolu/pkg/oql/field_refs.go:72-76 | `t.x IS NOT NULL` on an object with x: the executor accepts, but of `t.x` only t is extracted, and the residual rejects |
| `WhereFilter.BeforeFirstDotMeans` | xolu/pkg/oql/field_refs.go:72-76 | of a qualified name exactly what precedes its first dot is collected |
| `WhereFilter.LaterNullIsMissed` | xolu/pkg/jsonic/filter_extract.go:120-137 | `x IS NULL` on an object that writes x again as null: the executor accepts, and the extracted map still holds the earlier value |
| `PushDown.MissingFieldDisagrees` | xolu/pkg/jsonic/filter_extract.go:117-128 | `x != 5` on an object without x: the executor accepts, the filter does not |
| `PushDown.MixedListDisagrees` | xolu/pkg/oql/predicate_compiler.go:149-166 | `x IN ('a', 5)` on the number 5: the executor accepts, the filter does not |
| `PushDown.NumericTextDisagrees` | xolu/pkg/oql/aggregator.go:132-143 | `x < '9'` on the text 10: the filter accepts, the executor does not |
| `PushDown.SharedFieldRejects` | xolu/pkg/jsonic/predicate.go:83-92 | `x > 1 AND x < 5` on an object whose x is 3: both predicates hold and the executor accepts, but they share a slot and the filter passes nothing |
| `SqlGeneration.TranslatesIff` | xolu/pkg/oql/sqlgen_aggregate.go:193-330 | the WHERE translator succeeds exactly when all fields are columns and all other operands literals, whatever was bound before |
| `SqlGeneration.WhereInOrder` | xolu/pkg/oql/sqlgen_aggregate.go:193-330 | placeholders of a translated WHERE continue the numbering and arguments are only appended |
| `SqlReading.WhereReadsAsMeant` | xolu/pkg/oql/sqlgen_aggregate.go:193-330 | read with BETWEEN owning its AND, then NOT, AND, OR, the text has the source's truth value under every three-valued valuation of its tests |
| `SqlConditions.CondReads` | xolu/pkg/oql/sqlgen_aggregate.go:203-222 | a condition with bare ANDs and parenthesised ORs and negations reads, inside a larger text, as the tree it was made from |
| `SqlReading.ListReads` | xolu/pkg/oql/sqlgen_aggregate.go:290-308 | the IN list reads back as its literals, the empty list included |
| `SqlReading.ComparisonReadsIff` | xolu/pkg/oql/sqlgen_aggregate.go:223-245 | any accepted comparison, whatever was bound before it, reads back as itself exactly when its operator is not spelled like a keyword |
| `SqlWhole.GenerateAdaptedSQL` | xolu/pkg/oql/sqlgen_adapted.go:44-178 | succeeds exactly when the entity is adapted, every clause translates and TOP is plain; then the k-th placeholder is the k-th argument, the arguments are the statement's literals in order, and, unless a comparison operator is spelled like a keyword, the text reads back as the source's statement |
| `SqlWhole.StatementReads` | xolu/pkg/oql/sqlgen_adapted.go:83-170 | the text is SELECT, DISTINCT exactly if the source says so, and the source's clauses in order, each read from the text with the final arguments: columns, groups and order items one by one with every item's own direction, WHERE and HAVING with their truth values under every valuation, LIMIT bound to TOP's integer, and absent clauses absent |
| `SqlWhole.ItemsRead` | xolu/pkg/oql/sqlgen_adapted.go:146-160 | the items of a comma-separated clause, whatever more of the list follows, read back one by one with their directions |
| `SqlExecution.BoundLiteralIff` | xolu/pkg/oql/sqlgen_aggregate.go:333-353 | what is bound for an operand is what the executor evaluates it to, exactly when it is no field name or the field holds its own name as text |
| `SqlExecution.WhereMeansAsExecuted` | xolu/pkg/oql/sqlgen_aggregate.go:193-326 | on a row whose elementary tests answer as the executor's, the meaning of the generated WHERE is the executor's verdict on the record |
| `SqlExecution.StatementSelectsAsExecuted` | xolu/pkg/oql/sqlgen_adapted.go:96-114 | the WHERE of the generated text, read with the final arguments, is true on such a row exactly when the row is the tenant's and the executor accepts the record |
| `SqlExecution.ScalarMeansAsExecuted` | xolu/pkg/oql/sqlgen_scalar.go:24-110 | if the native functions and operators compute what the executor's do, an emitted scalar has on every row the executor's value |
| `SqlExecution.AggregateKeepsItsArgument` | xolu/pkg/oql/sqlgen_scalar.go:119-140 | an aggregate is emitted under its name with its own argument, and COUNT as COUNT(*) exactly for no argument or a single star |
| `SqlExecution.HavingMeansAsExecuted` | xolu/pkg/oql/sqlgen_adapted.go:217-280 | if the emitted scalars are worth what the executor makes of them, the meaning of the generated HAVING is the executor's verdict |
| `SqlStatement.StatementPlaceholdersInOrder` | xolu/pkg/oql/sqlgen_adapted.go:44-178 | in the whole statement the k-th placeholder from the left is bound to the k-th argument, and there are as many of each |
| `SqlStatement.StatementBindsItsLiterals` | xolu/pkg/oql/sqlgen_adapted.go:44-178 | the arguments are the statement's literals from left to right: none lost, doubled or swapped |
| `SqlStatement.StatementFiltersTenant` | xolu/pkg/oql/sqlgen_adapted.go:96-114 | in the statement's own text one condition stands between WHERE and the next clause, and under every valuation it reads, with the final arguments, as the tenant filter AND the source's condition, or the one that is there; no OR escapes the filter |
| `SqlStatement.GeneratesIff` | xolu/pkg/oql/sqlgen_adapted.go:44-178 | generation succeeds exactly when the entity is adapted, every clause translates and TOP is absent or a plain integer |
| `SqlStatement.FullyTranslatableGenerates` | xolu/pkg/oql/sqlgen_scalar.go:158-200 | isFullyTranslatable, an adapted entity and an absent or plain integer TOP guarantee generation |
| `SqlStatement.PushableIsAccepted` | xolu/pkg/oql/sqlgen_scalar.go:210-261 | whatever the WHERE test admits the WHERE translator accepts |
| `SqlStatement.ScalarIff` | xolu/pkg/oql/sqlgen_scalar.go:24-140 | whether a scalar translates does not depend on what was bound before, so a dry run decides it |
| `SqlStatement.ScalarInOrder` | xolu/pkg/oql/sqlgen_scalar.go:24-140 | placeholders of a scalar continue the numbering |
| `SqlTerms.ScalarReads` | xolu/pkg/oql/sqlgen_scalar.go:24-140 | every emitted scalar, whatever follows it in the statement, reads back as the source expression with its columns and functions by their native names and its literals bound |
| `SqlTerms.ArgumentsRead` | xolu/pkg/oql/sqlgen_scalar.go:50-66 | the argument list of a function reads back as its arguments in order, the empty list included |
| `SqlTerms.ItemReads` | xolu/pkg/oql/sqlgen_adapted.go:68-88 | each item of a comma-separated clause is emitted after the earlier ones and reads back as its own source expression |
| `SqlStatement.HavingIff` | xolu/pkg/oql/sqlgen_adapted.go:217-280 | the HAVING test and the HAVING translator agree exactly |
| `SqlStatement.HavingInOrder` | xolu/pkg/oql/sqlgen_adapted.go:217-280 | placeholders of HAVING continue the numbering |
| `SqlHaving.HavingReadsAsMeant` | xolu/pkg/oql/sqlgen_adapted.go:217-280 | HAVING, read back with the scalars of its comparisons, has the source's truth value under every three-valued valuation |
| `SqlHaving.StatementHavingReads` | xolu/pkg/oql/sqlgen_adapted.go:137-144 | in the statement's own text one condition stands between HAVING and the next clause, and under every valuation it reads, with the final arguments, as the source's HAVING |
| `SqlHaving.NoOperation` | xolu/pkg/oql/sqlgen_adapted.go:240-262 | a parenthesised condition is never mistaken for an arithmetic operation that goes on past it |
| `Registries.MemoryRegistry.Register` | pkg/registry/memory.go:48-83 | a new record with this owner and no history, announced once; a known ID is refused and nothing changes |
| `Registries.MemoryRegistry.Resolve` | pkg/registry/memory.go:96-108 | the current owner of an active record, and the right error otherwise |
| `Registries.MemoryRegistry.Transfer` | pkg/registry/memory.go:110-149 | refused unless active and held by From; otherwise one history entry and the new owner, announced once |
| `Registries.MemoryRegistry.Retire` | pkg/registry/memory.go:151-176 | retires an active record, announced once; refused otherwise |
| `Registries.MemoryRegistry.ListByInstanceAndTenant` | pkg/registry/memory.go:307-325 | exactly the active records of that tenant on that instance, each once |
| `Registries.AmendedKeepsChain` | pkg/registry/memory.go:122-138 | an accepted transfer extends the chain of owners without a gap |
| `Registries.ChainLinks` | pkg/registry/memory.go:122-138 | in a chain the first transfer leaves the first owner, each arrives where the next departs, the last arrives at the current owner |
| `Registries.TenantNameDecidesTransfer` | pkg/registry/memory.go:121-125 | with From equal to the owner up to the tenant name, a transfer of an active record goes through exactly when the names are equal |
| `RegistryLaws.RecordIsItsCalls` | pkg/registry/memory.go:48-176 | after any run a record is there exactly if a call on it was accepted; the accepted calls are a registration, transfers each from the owner of the moment, and at most one retirement, last; and the record says exactly what they said, and when |
| `RegistryLaws.AnswersByCalls` | pkg/registry/memory.go:48-176 | every answer, told by the calls accepted so far |
| `RegistryLaws.AnnouncesWhatItLeaves` | pkg/registry/memory.go:48-176 | an accepted call announces the record as it leaves it, under its own kind, and a refused one nothing |
| `RegistryRefinement.WritesAreASequentialRun` | pkg/registry/xolu.go:225-319 | in every interleaving the writes, in the order the store took them, are a sequential MemoryRegistry run of successes with the same records |
| `RegistryRefinement.LogIsExactlyTheSuccesses` | pkg/registry/xolu.go:225-319 | with no reply lost, exactly the successful calls wrote, once each |
| `RegistryRefinement.FailedCallsChangeNothing` | pkg/registry/xolu.go:225-319 | a call that is refused, conflicts or does not reach the store changes nothing |
| `RegistryRefinement.OneWinnerPerVersion` | pkg/xoluclient/extensions.go:56-90 | of all calls that saved over one version of one record at most one won |
| `RegistryRefinement.EveryConflictHasAWinner` | pkg/registry/xolu.go:259-268 | behind every conflict there is a write over the same version |
| `RegistryRefinement.NextKeeps` | pkg/registry/xolu.go:225-319 | every step of every call keeps the refinement |
| `RegistryRefinement.VersionZeroLosesATransfer` | pkg/registry/xolu.go:105-108 | with versions starting at 0 two transfers by the same owner both succeed and are no sequential run |
| `RegistryRefinement.RefinesIffVersionsStartAboveZero` | pkg/registry/xolu.go:105-108 | for growing versions that start at a given number, every interleaving is a sequential run exactly when that number is above 0 |
| `Negotiators.MemoryNegotiator.Propose` | pkg/transfer/memory.go:35-49 | stores the proposal as PROPOSED under its ID or a minted one, replacing whatever was there |
| `Negotiators.MemoryNegotiator.Accept` | pkg/transfer/memory.go:51-80 | only from PROPOSED and only if the registry transfer succeeds; otherwise neither proposal nor record changes |
| `Negotiators.MemoryNegotiator.Reject` | pkg/transfer/memory.go:82-98 | only from PROPOSED |
| `Negotiators.MemoryNegotiator.Cancel` | pkg/transfer/memory.go:100-115 | only from PROPOSED |
| `Negotiators.MemoryNegotiator.Complete` | pkg/transfer/memory.go:117-132 | only from ACCEPTED |
| `Negotiators.HistoryIsAChain` | pkg/registry/memory.go:48-176 | after any run each record's history leads without a gap from the owner it was registered with to the current one |
| `Negotiators.RetiredNeverChanges` | pkg/registry/memory.go:110-176 | however a run goes on, a retired record stays exactly as it was |
| `Negotiators.SettledStepIff` | pkg/transfer/memory.go:35-132 | one call changes a settled proposal exactly when it proposes again under the same ID |
| `Negotiators.SettledStaysSettled` | pkg/transfer/memory.go:35-132 | with fresh IDs a rejected, cancelled or completed proposal never changes |
| `Negotiators.AcceptedStep` | pkg/transfer/memory.go:117-132 | an accepted proposal can only complete |
| `Negotiators.HistoryIsConserved` | pkg/transfer/memory.go:51-80 | with fresh IDs a record's history is as long as its direct transfers plus its accepted and completed proposals |
| `Negotiators.HistoryIsConservedIff` | pkg/transfer/memory.go:35-80 | that balance holds exactly for the runs that never propose under the ID of a proposal that moved the record |
| `NegotiatorLaws.ProposalStands` | pkg/transfer/memory.go:35-132 | a proposal is known exactly if it was offered; the calls on it answered Done are none, a rejection, a cancellation, or an acceptance and perhaps a completion; and it stands where they lead, on the terms offered |
| `NegotiatorLaws.AnswersByCourse` | pkg/transfer/memory.go:51-132 | every answer, told by that course and, for an acceptance, by the registry |
| `NegotiatorLaws.AcceptanceMovesAsOffered` | pkg/transfer/memory.go:51-80 | an acceptance that succeeds moves the offered record from the offered owner to the offered one, with one history entry, and no other record |
| `NegotiatorLaws.NoAcceptanceAfterRefusal` | pkg/transfer/memory.go:82-115 | once rejected or cancelled, a proposal is not accepted before it is offered again |
| `Hotswaps.MemoryManager.Request` | pkg/hotswap/manager.go:44-110 | granted exactly when both instances answer, the ID is new and the source tenant has no hotswap under way; then REQUESTED, PREPARING and, on auto-advance, QUIESCING with its driver |
| `Hotswaps.MemoryManager.Confirm` | pkg/hotswap/manager.go:134-150 | only from PREPARING, and starts the quiesce driver |
| `Hotswaps.MemoryManager.Abort` | pkg/hotswap/manager.go:152-168 | from any non-terminal state, and starts a rollback driver |
| `Hotswaps.MemoryManager.StartTask` | pkg/hotswap/manager.go:208-420 | the first locked section of each driver: goes on only in the state it expects |
| `Hotswaps.MemoryManager.FinishTask` | pkg/hotswap/manager.go:248-432 | the last locked section of each driver: which endings look at the state again and which write blindly |
| `Hotswaps.MemoryManager.FailHotswap` | pkg/hotswap/manager.go:434-444 | writes ROLLING_BACK whatever the state, and starts a rollback driver |
| `Hotswaps.EveryRunFollowsTheDiagram` | pkg/hotswap/manager.go:44-444 | in every interleaving with timely aborts each history is a path of the diagram ending in the state, at most one hotswap per source instance and tenant name is under way, and whoever waits for a driver has one |
| `HotswapRuns.FailedStepIsNeverCompleted` | pkg/hotswap/manager.go:262-400 | in a timely run a migration, validation or cutover that ends badly and takes effect leaves the hotswap in ROLLING_BACK, and it is never COMPLETE afterwards |
| `HotswapRuns.CompleteWasEarned` | pkg/hotswap/manager.go:295-400 | in a timely run a hotswap that was ever CUTTING_OVER passed a validation, and one that is COMPLETE has since ended its cutover well |
| `HotswapRuns.SmoothRunCompletesIff` | pkg/hotswap/manager.go:44-394 | without aborts and failures, once all its drivers have run a hotswap is COMPLETE exactly when it was set going, by its request or by a confirmation, and otherwise still PREPARING |
| `Hotswaps.TerminalNeverLeft` | pkg/hotswap/manager.go:190-444 | COMPLETE and FAILED are never left, however such a run goes on |
| `Hotswaps.NextKeeps` | pkg/hotswap/manager.go:190-444 | every step with a safe abort keeps the invariant over histories, sources and drivers in flight |
| `Hotswaps.AbortIsSafeIff` | pkg/hotswap/manager.go:152-168 | an abort can be followed by a driver ending that leaves the diagram exactly when a running migration, a running cutover or a rollback is in flight |
| `Hotswaps.UntimelyAbortRevivesAFailedHotswap` | pkg/hotswap/manager.go:379-444 | a run with an abort while migrating after which FAILED is left and two hotswaps of one tenant are under way |
| `Cutovers.DriveCutover` | pkg/hotswap/manager.go:341-371 | lists the tenant's records and transfers each of them; undisturbed, none is refused, the registry is exactly the specified one, and each moved record keeps its entity type and local ID at the target, with one history entry from the old owner to the new |
| `Cutovers.CutoverMovesEveryone` | pkg/hotswap/manager.go:341-371 | the source is left empty, the target gains exactly its records, every other place is as it was |
| `Cutovers.CutoverKeepsChains` | pkg/hotswap/manager.go:347-371 | histories stay chains, one move longer for the moved records |
| `Cutovers.CutoverForgetsTheName` | pkg/hotswap/manager.go:354-359 | afterwards the directory finds the record under the target's number, so under its old name only if that is the same |
| `CutoverRuns.MoveGoesThroughIff` | pkg/hotswap/manager.go:348-370 | among other registry calls, one record's transfer goes through exactly when it is active and still where it was read |
| `CutoverRuns.UnlistedRecordsAreLeft` | pkg/hotswap/manager.go:341-371 | in every interleaving a record that was not listed ends as if the cutover had never run |
| `CutoverRuns.LateArrivalStaysBehindIff` | pkg/hotswap/manager.go:341-390 | so an unlisted record is at the source when the hotswap is COMPLETE exactly if it would be there without the cutover |
| `CutoverRuns.LateRegistrationExample` | pkg/hotswap/manager.go:341-390 | such a run, from the empty registry |
| `CutoverRuns.ListedRecordIsMovedFromAnywhere` | pkg/hotswap/manager.go:348-370 | a listed record that was moved elsewhere meanwhile is moved again, to the target |
| `Directories.TenantDirectory.UpdateByName` | pkg/registry/directory.go:328-335 | the name follows the candidate unless the current entry counts more |
| `Directories.TenantDirectory.RebuildByName` | pkg/registry/directory.go:339-344 | in any order every name gets one of its largest entries |
| `Directories.TenantDirectory.HandleEvent` | pkg/registry/directory.go:153-222 | after any event byName is defined exactly for the names in byKey and points into byKey, entries count at least one, and counts move as specified |
| `Directories.DirectoryAgreesIff` | pkg/registry/directory.go:153-222 | after a registry run whose events are handled once and in order, the directory agrees with a recount exactly when no successful transfer of the run was within one key or from scoped to unscoped |
| `Directories.CountsAreRecountPlusDrift` | pkg/registry/directory.go:153-222 | after any run each count is the number of active records at its key plus the misleading transfers out of it, and only positive counts are kept |
| `Directories.AgreeingKeys` | pkg/registry/directory.go:153-222 | then byKey holds exactly the keys with an active record |
| `Directories.TransferAgreesIff` | pkg/registry/directory.go:178-208 | after one transfer the counts still agree exactly when it is not within one key and not from scoped to unscoped |
| `Directories.FollowEvents` | pkg/registry/directory.go:93-125 | a directory that follows a stream has the stream's counts and is structurally sound |
| `Directories.EnterKeepsLargest` | pkg/registry/directory.go:325-335 | adding an entity keeps every name at a largest entry |
| `Directories.LeaveKeepsLargestIff` | pkg/registry/directory.go:325-335 | removing one keeps it exactly unless the entry pointed at stays, and had an equal |
| `Directories.LocateMissesTheLargest` | pkg/registry/directory.go:224-235 | five events after which the name leads to the smaller of two entries |
| `Directories.ScopedIff` | pkg/registry/directory.go:349-360 | a reference has a directory name exactly when its tenant is not 0 |
| `DirectoryLaws.RegistrationIsFiled` | pkg/registry/directory.go:153-177 | a registration counts one more under the owner's instance and its tenant's name, or number where it has none, and the name then leads there or to a larger entry; an unscoped owner changes nothing |
| `DirectoryLaws.TransferIsRefiled` | pkg/registry/directory.go:176-208 | a transfer between two names takes one from the old key and adds one at the new |
| `DirectoryLaws.RetirementIsTakenOff` | pkg/registry/directory.go:210-221 | a retirement takes one from its owner's key, and the entry with the last |
| `DirectoryLaws.FiledTogetherIff` | pkg/registry/directory.go:349-360 | two scoped owners of one instance share a key exactly when they go by one name, a nameless tenant's being its number |
| `RateLimiters.RateLimiter.Allow` | xolu/pkg/middleware/ratelimit.go:86-112 | opens a window, counts into it or refuses, with the remaining budget and the reset time of the window in force |
| `RateLimiters.RateLimiter.CleanupExpired` | xolu/pkg/middleware/ratelimit.go:70-80 | exactly the windows older than two window lengths go |
| `RateLimiters.AtMostTwiceTheRate` | xolu/pkg/middleware/ratelimit.go:17-19 | with a clock that never goes back, any closed interval one window long holds at most 2 * rate - 1 allowed requests of a key |
| `RateLimiters.RefusalIsEarned` | xolu/pkg/middleware/ratelimit.go:86-112 | a request is refused only if `rate` requests of its key were allowed within one window up to now |
| `RateLimiters.BoundIsMet` | xolu/pkg/middleware/ratelimit.go:86-112 | for every rate and window a run that reaches that bound |
| `RateLimiters.CleanupIsInvisible` | xolu/pkg/middleware/ratelimit.go:70-80 | whenever the sweeper runs, the same requests are allowed as if it never ran |
| `LocationCaches.LocationCache.constructor` | pkg/proxy/cache.go:32-45 | empty, with the defaults for a non-positive capacity or time to live |
| `LocationCaches.LocationCache.Get` | pkg/proxy/cache.go:48-66 | a hit moves to the front, an expired entry goes, a miss changes nothing |
| `LocationCaches.LocationCache.SetWithTTL` | pkg/proxy/cache.go:74-100 | the key is at the front with the new value and expiry; only a full cache without the key loses its last entry |
| `LocationCaches.LocationCache.Delete` | pkg/proxy/cache.go:103-111 | exactly that key goes |
| `CacheRuns.CapacityIsKept` | pkg/proxy/cache.go:48-111 | after any run keys are distinct and never more than the capacity |
| `CacheRuns.HitIsTheLastValueSet` | pkg/proxy/cache.go:48-111 | a hit returns the last value set for the key, neither deleted nor expired |
| `CacheRuns.HitWasSet` | pkg/proxy/cache.go:48-111 | a hit's value was set for its key by a call that no later one undid, no longer ago than its time to live |
| `CacheRuns.MissIsEarned` | pkg/proxy/cache.go:48-111 | a live key is missing only if at least `cap` distinct other keys were set or hit since its last use |

## Left out

- HTTP servers and clients, proxy forwarding, the NATS bus, subprocess calls, command-line tools and demos: input and output without state of their own; a remote call is a step with an arbitrary outcome.
- Locks and goroutines: each locked section is one step, and steps interleave arbitrarily.
- Extraction of references from entity data: the graph update takes the extracted references, or the duplicate-target error, as input.
- pkg/hotswap/xolu.go, the Redis and hashicorp caches, the deprecated persister, authentication, metrics and configuration.
- Planner thresholds and calibration: wall-clock timing.
- The SQLite engine, storage backends and the query parser: columns, native function names and printed forms of expressions are parameters, and expressions are a small datatype.
- SQLite's own comparison rules and functions: the SQL push-down and the executor are compared under the assumption that the elementary tests and the native functions mean the same in both.
- Escape sequences in JSON strings: the filter compares raw bytes, and the executor's records hold the raw bytes too.
- A panic of the executor's LIKE on the pattern `%` counts as no answer, which accepts nothing, rather than as the end of the query.
- Column aliases, decimal columns and their denormalisation.
- Number parsing and printing, text encoding, lower-casing and the rounding of floats: parameters of the filter and of the executor, or real arithmetic.
- The scalar functions and the arithmetic of a WHERE: parameters on evaluated operands, so a function of the clock is not captured.
- WhereFilter.FilterWhere: is about the object's own fields; the `_version` column that a scan adds to each record, and the tenant filter that runs before the residual, are not modelled, nor is the plain extraction that runs when no term compiles.
- Error texts and log lines: errors are a datatype.
- Subscriptions and dropped events: the directory handles every event once; bootstrap and InvalidateTenant are not modelled.
- MemoryNegotiator.Propose returns a pointer to the stored proposal: proposals are values here, so changes made through that pointer are not captured.
- The elements of the rate limiter's and the registry's maps are values, not pointers: no other code holds them.
- GraphSpec.CheckEdgePredictsAddEdgeIff: says nothing when the reachable set is exactly as large as the limit, because there the verdict depends on the order of iteration.
- GraphLaws.EdgeIsThereIff: says nothing of a node's edges after an entity update of that node failed half way, because which of the new edges were added then depends on the order of iteration.
- JsonFilter.FilterExtract, and with it WhereFilter.FilterWhere: for names longer than eight bytes its positive half assumes that each atom identifies its key among the object's keys; such atoms are hashes and can collide.
- JsonGrammar.FlattenOrdered: inputs of 4 GiB and more are excluded, because there the stored offsets wrap.
