# Verified models of the QConfig demo and client

The repository ships a configuration client in Java and, with its demo, two large script engines:
jQuery 1.11.1 with the Sizzle selector engine, and DataTables 1.10. This project models the parts of
them that are hard to get right and proves what they are for.

- **Selectors** (`Dom`, `Selector`, `MatcherCache`, `Select`, `NthChild`, `DocumentOrder`). A document is
  an ordered tree; a node is the path to it. Token lists are compiled to nested closures, modelled as a
  datatype, and proved equal to the declarative meaning of the combinators. The caches are mutable
  records on a heap, shared by many nodes, and proved to agree with the uncached meaning.
- **Callbacks, deferreds and queues** (`Callbacks`, `CallbackLaws`, `CallbackList`, `JQueryDeferred`,
  `DeferredLaws`, `When`, `FxQueue`). Re-entrant use is modelled by small steps: between two steps the list is
  at rest or inside the call of one callback, and any operation may come next. `Callbacks` is the state machine
  with its trace; `CallbackList` is the class with the closure variables, proved to follow it step by step.
  `CallbackLaws` and `DeferredLaws` say what every run does in terms of the steps its users take, without
  relying on what the machine writes down.
- **Tables** (`TableIndex`, `TableSort`, `TableSearch`, `Table`, `DataTable`, `Paging`, `ServerDraw`,
  `HeaderGrid`, `DataPath`). The rows and the two index arrays under adding, invalidating, removing, sorting
  and incremental searching; paging; the numbered request and reply protocol; the header grid; and the
  nested data paths.
- **Configuration changes** (`PropertiesChange`, `PropertiesManager`). The difference of two
  configurations, and a manager whose listeners rebuild the configuration from what they are sent.
- `Seqs` and `Wrappers` hold facts about filtering, duplicate-free and increasing sequences, and the optional value with a test the regular expressions share.

Where the code does not do what one would expect of it, the project gives a concrete case and the exact
condition:

- In XML a selector that looks up no seed may return nodes outside the context
  (`Select.WideningIsHarmlessOffXml`, `Select.XmlResultOutsideContext`).
- The ancestor-list comparison sorts the root of a detached tree after its descendants (`DocumentOrder.SortOrder`).
- A smart search throws when a word starts with a quote that is not closed (`TableSearch.SearchWords`,
  `TableSearch.LoneQuoteThrows`).
- A header row above one that starts no cell is drawn empty (`HeaderGrid.DetectAndDraw`).
- After a custom search function has been taken away, typing on shows the right rows only if the function held
  none back (`DataTable.TypeOnWithoutCustom`, `DataTable.CustomRemovalIsMissed`).
- A reply without its draw number may replace a later one (`ServerDraw.ShownInOrderIff`).
- A load made inside a callback serves the listeners still due out of order, and passes over a listener that is
  being registered (`PropertiesManager.EndsRightIff`, `PropertiesManager.NestedLoad`,
  `PropertiesManager.NestedLoadMisleads`, `PropertiesManager.RegistrationMisleads`).
- Writing `a.b` creates an absent `a`, of which paths such as `a.c[]` and `a[].d` can tell
  (`DataPath.OthersUnchanged`).
- A page that would start right behind the last row is drawn without rows (`Paging.NumberIsPage`).
- `previous` does not take back a `next` that moved while no rows are displayed, and a negative page number
  gives a negative start (`Paging.PreviousUndoesNext`, `Paging.ChangeIsNatural`).

## Model

| member | source | states |
|---|---|---|
| Selector.MatcherFromTokens | demo/src/main/webapp/js/jquery-1.11.1.js:2292-2345 | the loop over the tokens builds the closure that `Compiled` defines by recursion on the token list, with the same done names |
| Selector.ParseWritten | demo/src/main/webapp/js/jquery-1.11.1.js:2313-2341 | parsing the tokens of a selector that is written out gives its compounds and combinators back |
| Selector.WalkMeaning | demo/src/main/webapp/js/jquery-1.11.1.js:2117-2130 | the closure of a descendant or general-sibling combinator accepts a node iff some node the walk can reach qualifies and is accepted by the inner matcher |
| Selector.NearestMeaning | demo/src/main/webapp/js/jquery-1.11.1.js:2107-2115 | the closure of a child or adjacent combinator looks at the first qualifying node of the walk and no other |
| Selector.CombineMeaning | demo/src/main/webapp/js/jquery-1.11.1.js:1557-1562 | each combinator closure accepts a node iff a node in the relation of W3C Selectors Level 3, sections 8.1 to 8.3, is accepted by the inner matcher |
| Selector.NearestElementIsParent | demo/src/main/webapp/js/jquery-1.11.1.js:2102-2115 | in a document tree, walking up to the closest element stops at the parent |
| Selector.FoundationMeaning | demo/src/main/webapp/js/jquery-1.11.1.js:2299-2311 | the foundational matcher ties the leftmost compound to the context, as the leading combinator says or as a descendant |
| Selector.SimpleMeaning | demo/src/main/webapp/js/jquery-1.11.1.js:2316-2341 | appending a simple token to a selector means one more test on its last compound |
| Selector.RelativeMeaning | demo/src/main/webapp/js/jquery-1.11.1.js:2314-2315 | appending a combinator means: some node related to this one is selected by the selector so far |
| Selector.CompilerCorrect | demo/src/main/webapp/js/jquery-1.11.1.js:2292-2345 | for every token list without positional pseudos, context and node: the nested matcher accepts the node iff there are witnesses for all compounds, linked by the declared relations and tied to the context |
| MatcherCache.NodeCache.Call | demo/src/main/webapp/js/jquery-1.11.1.js:2102-2167 | calling any closure with the shared cache returns what the uncached meaning says, keeps every finished record of the run truthful, and stores only records of its own |
| MatcherCache.NodeCache.UncachedWalk | demo/src/main/webapp/js/jquery-1.11.1.js:2122-2130 | the branch for XML returns the uncached meaning |
| MatcherCache.NodeCache.CachedWalk | demo/src/main/webapp/js/jquery-1.11.1.js:2131-2151 | the branch that stores one mutable record on all nodes it visits returns the uncached meaning, although inner walks may overwrite any slot |
| MatcherCache.NodeCache.Visit | demo/src/main/webapp/js/jquery-1.11.1.js:2140-2148 | storing the shared record on a node and then running the inner matcher keeps the promise made for all nodes that hold the record |
| MatcherCache.NodeCache.CachedStep | demo/src/main/webapp/js/jquery-1.11.1.js:2132-2149 | one turn of that loop passes a node by, takes the verdict of an older record of the same closure, or visits the node, and either decides the walk or leaves its outcome as it was |
| MatcherCache.NodeCache.Run | demo/src/main/webapp/js/jquery-1.11.1.js:2371-2384 | a run of the super matcher returns, in order, the candidates some group accepts; records left by earlier runs play no part |
| MatcherCache.CompiledNamed | demo/src/main/webapp/js/jquery-1.11.1.js:2103-2105 | no two combinator closures of one compilation share a done name, and a closure has a larger name than those inside it |
| MatcherCache.Compile | demo/src/main/webapp/js/jquery-1.11.1.js:2457-2465 | compiling a group selector gives matchers of which one accepts a node iff one of the groups selects it |
| Select.SeedTokenMeaning | demo/src/main/webapp/js/jquery-1.11.1.js:2515-2540 | the full selector selects a node iff the seed token accepts it and the selector without that token selects it |
| Select.DroppingTheSeedToken | demo/src/main/webapp/js/jquery-1.11.1.js:2515-2540 | filtering by the seed token and then by the rest of the selector gives the same elements in the same order as the full selector |
| Select.SelectFromSeed | demo/src/main/webapp/js/jquery-1.11.1.js:2521-2552 | fetching the seed and testing it with the spliced selector returns exactly the elements below the context that the full selector selects, in document order |
| Select.SeedToken | demo/src/main/webapp/js/jquery-1.11.1.js:2515-2540 | the token looked up is the rightmost findable one of the last compound; none is found iff every findable token has a combinator after it |
| Select.SelectOne | demo/src/main/webapp/js/jquery-1.11.1.js:2513-2552 | with or without a seed the result is the list of candidates the full selector selects, in document order |
| Select.SelectedIsBelow | demo/src/main/webapp/js/jquery-1.11.1.js:2306-2311 | off XML and for a context other than the document every selected node lies below the context |
| Select.WideningIsHarmless | demo/src/main/webapp/js/jquery-1.11.1.js:2543-2552 | taking the candidates from the parent of the context, for a selector with a sibling combinator, changes no result unless the document is XML |
| Select.WideningIsHarmlessOffXml | demo/src/main/webapp/js/jquery-1.11.1.js:2543-2552 | for a context that is an element or the document, the wider candidates give the same results for every selector iff the document is not XML, the selector shows no sibling combinator, or the context has no parent |
| Select.XmlResultOutsideContext | demo/src/main/webapp/js/jquery-1.11.1.js:2543-2551 | in XML it can: a selector without seed returns a sibling of the context, which does not lie below it |
| NthChild.CycleTestIsExact | demo/src/main/webapp/js/jquery-1.11.1.js:1766-1768 | the closing test holds iff some n >= 0 gives a*n + b = position, for all integers a and b, zero and negative ones included |
| NthChild.ChildPosition | demo/src/main/webapp/js/jquery-1.11.1.js:1731-1764 | the counts from the front and from the back are the two positions of a child |
| NthChild.PositionIsCardinality | demo/src/main/webapp/js/jquery-1.11.1.js:1720-1764 | the position computed by counting is the number of siblings, up to the element, that are elements or bear its name |
| NthChild.SimpleMatches | demo/src/main/webapp/js/jquery-1.11.1.js:1705-1718 | :first-, :last- and :only-child and their of-type forms accept an element iff it is the only one of its kind among the siblings up to it, from the front, from the back, or from both |
| NthChild.PositionCache.Matches | demo/src/main/webapp/js/jquery-1.11.1.js:1720-1768 | in any order of queries within a run, cached or not, an element passes iff the number of siblings of its kind up to it, from the front or from the back, is in the cycle; the kind is every element, or for the of-type forms every node of the same name; the cache stays sound |
| NthChild.PositionCache.FromParentCache | demo/src/main/webapp/js/jquery-1.11.1.js:1720-1741 | seeking from the index cached on the parent, and once more from the start when it was past the element, finds the true position |
| NthChild.PositionCache.FromStart | demo/src/main/webapp/js/jquery-1.11.1.js:1747-1764 | seeking from either end finds the true position and caches only true positions |
| NthChild.PositionCache.BeginRun | demo/src/main/webapp/js/jquery-1.11.1.js:2359-2360 | a new run number makes all cached positions stale, whatever happened to the tree |
| DocumentOrder.BeforeIsTotal | demo/src/main/webapp/js/jquery-1.11.1.js:1353-1405 | of two different nodes exactly one comes before the other, and none before itself |
| DocumentOrder.BeforeIsTransitive | demo/src/main/webapp/js/jquery-1.11.1.js:1353-1405 | coming before is transitive |
| DocumentOrder.FirstDifference | demo/src/main/webapp/js/jquery-1.11.1.js:1379-1404 | of two nodes an ancestor comes first, and otherwise the one whose ancestor comes first among the children where the paths part |
| DocumentOrder.PreorderIsSorted | demo/src/main/webapp/js/jquery-1.11.1.js:1353-1405 | the preorder listing of a tree is strictly increasing |
| DocumentOrder.PositionsAgree | demo/src/main/webapp/js/jquery-1.11.1.js:1353-1405 | one node comes before another iff it stands earlier in the preorder listing |
| DocumentOrder.SiblingCheck | demo/src/main/webapp/js/jquery-1.11.1.js:963-972 | the sibling check returns the sign of document order for siblings and puts undefined first |
| DocumentOrder.SortOrder | demo/src/main/webapp/js/jquery-1.11.1.js:1353-1405 | comparing ancestor lists is the order named here for every two nodes of a tree: document order, and its reverse exactly where one node is a root that is no document |
| DocumentOrder.CompareAncestors | demo/src/main/webapp/js/jquery-1.11.1.js:1379-1404 | walking down both ancestor lists ends where they part, and the sibling check there is the sign of document order |
| DocumentOrder.SortsBeforeIsTotal | demo/src/main/webapp/js/jquery-1.11.1.js:1353-1405 | of two different nodes exactly one sorts before the other, for a root of either kind |
| DocumentOrder.SortsBeforeIsTransitive | demo/src/main/webapp/js/jquery-1.11.1.js:1353-1405 | the order of the comparison is transitive for a root of either kind |
| DocumentOrder.SortResults | demo/src/main/webapp/js/jquery-1.11.1.js:1487-1489 | sorting leaves the same nodes in the order of the comparison, for a root of either kind, and raises the flag if any node occurs twice |
| DocumentOrder.DropDuplicates | demo/src/main/webapp/js/jquery-1.11.1.js:1491-1500 | splicing the noted positions out from the last to the first removes every element equal to the one before it |
| DocumentOrder.SqueezeSorted | demo/src/main/webapp/js/jquery-1.11.1.js:1491-1500 | dropping repeats from a sorted list leaves a strictly increasing list with the same elements |
| DocumentOrder.UniqueSort | demo/src/main/webapp/js/jquery-1.11.1.js:1480-1507 | the result holds the same nodes, strictly increasing in document order, with a root that is no document last instead of first |
| Dom.PreorderIsComplete | demo/src/main/webapp/js/jquery-1.11.1.js:2357-2358 | the listing of the candidates contains exactly the nodes of the tree |
| Callbacks.StepKeeps | demo/src/main/webapp/js/jquery-1.11.1.js:3086-3248 | every operation, also one made by a callback during a round, keeps the invariant: rounds over are complete, the one going on has called a prefix of what it must call, and accepted fires are answered or queued in order |
| Callbacks.FiresBecomeRounds | demo/src/main/webapp/js/jquery-1.11.1.js:3111-3136 | for lists that are not "once": in every run the fires recorded as accepted, nested ones included, become rounds in the order they were made, calls of different rounds never interleave, and a finished round called each eligible addition once, in order, unless removed before its turn; `CallbackLaws.FiresAreAccepted` and `CallbackLaws.RoundsStart` say which fires are accepted and who is eligible |
| Callbacks.OnceReachable | demo/src/main/webapp/js/jquery-1.11.1.js:3127-3136 | for "once memory" lists: in every run the called additions followed by those to be called are all additions but the removed ones, in order |
| Callbacks.OnceMemory | demo/src/main/webapp/js/jquery-1.11.1.js:3086-3248 | for "once memory" lists at rest after their fire: every addition not removed before its turn was called exactly once, in addition order, with the data of the first fire |
| CallbackList.List.Fire | demo/src/main/webapp/js/jquery-1.11.1.js:3111-3118 | the closure variables after the start of a round are those of the state machine |
| CallbackList.List.Return | demo/src/main/webapp/js/jquery-1.11.1.js:3124-3135 | when a callback returns, the loop goes on as the state machine says, through the end of the round, the next queued fire, or disabling |
| CallbackList.List.Add | demo/src/main/webapp/js/jquery-1.11.1.js:3140-3167 | adding, during a round or at rest, with or without memory, changes the variables as the state machine says |
| CallbackList.List.Remove | demo/src/main/webapp/js/jquery-1.11.1.js:3171-3190 | removing all occurrences, with both firing variables following each splice, changes the variables as the state machine says |
| CallbackList.List.FireWith | demo/src/main/webapp/js/jquery-1.11.1.js:3224-3235 | a fire is dropped, queued or begun as the state machine says, which takes every fire of a list that may fire again |
| CallbackList.List.Lock | demo/src/main/webapp/js/jquery-1.11.1.js:3212-3218 | locking changes the variables as the state machine says |
| CallbackList.List.SpliceEach | demo/src/main/webapp/js/jquery-1.11.1.js:3173-3187 | the loop of remove takes out every occurrence, and the firing index ends where the element after the one being called stands |
| CallbackLaws.FiresAreAccepted | demo/src/main/webapp/js/jquery-1.11.1.js:3224-3235 | in every run the fires accepted are those made before the list is locked or disabled, in order; of a "once" list the first of them only |
| CallbackLaws.TakenUnlocked | demo/src/main/webapp/js/jquery-1.11.1.js:3224-3235 | for a run without locking these are the data of all fires of the run |
| CallbackLaws.RoundsStart | demo/src/main/webapp/js/jquery-1.11.1.js:3111-3118 | everything on the list is eligible in a round that answers a fire made at rest, with its data; in the round `add` starts, with the remembered data, it is what was just added; additions made during a round join it; rounds already over stay as they are |
| CallbackLaws.NextAnswer | demo/src/main/webapp/js/jquery-1.11.1.js:3127-3131 | when a round ends and a fire waits, the next round has its data, and again everything on the list is eligible |
| CallbackLaws.UndisturbedFire | demo/src/main/webapp/js/jquery-1.11.1.js:3111-3136 | a fire at rest that nothing else disturbs calls everything on the list once, in order, with its data, and is over after as many returns |
| CallbackLaws.PushMeaning | demo/src/main/webapp/js/jquery-1.11.1.js:3145-3156 | adding appends the functions given, in order, or for a "unique" list those it does not have yet, each at its first occurrence |
| CallbackLaws.NovelMeaning | demo/src/main/webapp/js/jquery-1.11.1.js:3145-3156 | these are exactly the functions given that are not on the list, each once, ordered by where they occur first |
| CallbackLaws.AdditionsAreNamed | demo/src/main/webapp/js/jquery-1.11.1.js:3140-3167 | in every run each addition carries the function it was made with, additions being numbered in order; a "unique" list never holds a function twice |
| CallbackLaws.EveryFunctionIsAdded | demo/src/main/webapp/js/jquery-1.11.1.js:3140-3167 | without the unique option the additions of a list that is not locked are all functions given to `add`, in order |
| CallbackLaws.DroppedExactly | demo/src/main/webapp/js/jquery-1.11.1.js:3171-3190 | in every run an addition counts as removed before its turn iff some `remove` of its function found the list enabled and the addition not yet called |
| CallbackLaws.RemovedStaysAway | demo/src/main/webapp/js/jquery-1.11.1.js:3171-3190 | what was so removed is neither on the list nor ever called |
| CallbackLaws.KeepIsFilter | demo/src/main/webapp/js/jquery-1.11.1.js:3173-3187 | removing keeps the other functions in order |
| CallbackLaws.NoAdditionIsLost | demo/src/main/webapp/js/jquery-1.11.1.js:3086-3248 | in every run, while the list is enabled, each addition was called, or removed before that, or is on the list; a list with memory at rest after a fire has called or lost to `remove` every addition |
| CallbackLaws.RemembersReachable | demo/src/main/webapp/js/jquery-1.11.1.js:3112-3115 | in every run a list with memory remembers from its first fire on, and only such a list replays |
| CallbackLaws.OnceIsSpent | demo/src/main/webapp/js/jquery-1.11.1.js:3127-3136 | a "once" list without memory is disabled when it is at rest after its fire |
| CallbackLaws.DisabledForever | demo/src/main/webapp/js/jquery-1.11.1.js:3202-3205 | after `disable` nothing is called, accepted or added any more, whatever follows |
| CallbackLaws.LockedForever | demo/src/main/webapp/js/jquery-1.11.1.js:3212-3218 | after `lock` no fire is accepted, and fires that were waiting are never answered, whatever follows |
| CallbackLaws.LockMeaning | demo/src/main/webapp/js/jquery-1.11.1.js:3212-3218 | a list that remembers a fire keeps its functions and its memory when it is locked; any other list is disabled |
| JQueryDeferred.InvStep | demo/src/main/webapp/js/jquery-1.11.1.js:3302-3325 | every step of a user keeps the invariant: while pending neither outcome list has called anything; after a settlement the list of the other outcome is disabled and the progress list locked; `DeferredLaws` says which settlement that is |
| JQueryDeferred.SettlesOnce | demo/src/main/webapp/js/jquery-1.11.1.js:3302-3319 | in every run, once a deferred has left pending its state never changes again and no further notify is answered by a round |
| JQueryDeferred.OutcomeIsDelivered | demo/src/main/webapp/js/jquery-1.11.1.js:3302-3319 | only the list of the state reached ever calls anything; at rest it has called every function added so far exactly once, in order, with the data it accepted; `DeferredLaws.OutcomeByEvents` says the same of the settlement asked for |
| DeferredLaws.ThreePlainLists | demo/src/main/webapp/js/jquery-1.11.1.js:3302-3325 | in every run the three lists of a deferred are what plain callback lists are after the steps meant for them, where the first settlement fires its own list past the functions of the deferred itself, disables the other list and locks the progress list, and later ones do nothing; the state is pending iff nobody has settled |
| DeferredLaws.FirstSettlementDecides | demo/src/main/webapp/js/jquery-1.11.1.js:3302-3325 | the state is resolved if the first settlement of the run is a `resolve`, and rejected if it is a `reject` |
| DeferredLaws.OutcomeByEvents | demo/src/main/webapp/js/jquery-1.11.1.js:3302-3325 | the list of the first settlement takes its data and nothing else; its additions are the functions of the deferred itself and those the users added, in order; at rest each was called once, in order, with these data; the other list takes no fire and calls nothing |
| DeferredLaws.NotifiesGetRounds | demo/src/main/webapp/js/jquery-1.11.1.js:3302-3325 | the progress list takes exactly the notifies made before the first settlement, in order; while the deferred is pending each of them has its round or waits for it |
| When.Master.constructor | demo/src/main/webapp/js/jquery-1.11.1.js:3340-3390 | after registering with plain values and deferreds, settled ones included, the master is resolved, rejected or undecided as the arguments demand, and the first rejected argument gives the reason |
| When.Master.OnDone | demo/src/main/webapp/js/jquery-1.11.1.js:3351-3364 | resolving an argument keeps this: the master resolves when the last one does, with the values in argument position; a decided master stays as it is |
| When.Master.OnFail | demo/src/main/webapp/js/jquery-1.11.1.js:3372-3380 | rejecting an argument rejects an undecided master with its reason and leaves a decided one alone |
| When.OutcomeIsDetermined | demo/src/main/webapp/js/jquery-1.11.1.js:3340-3390 | the master is resolved iff all arguments have values, and rejected iff some argument is rejected |
| When.MissingAfterUpdate | demo/src/main/webapp/js/jquery-1.11.1.js:3361-3362 | the counter of missing values goes down by one exactly when a waiting argument gets its value |
| FxQueue.Run | demo/src/main/webapp/js/jquery-1.11.1.js:3977-4010 | every run of enqueue and dequeue steps keeps the shape of the queue and the conservation of its functions |
| FxQueue.FirstInFirstOut | demo/src/main/webapp/js/jquery-1.11.1.js:3977-4010 | in every run functions start in the order of their enqueueing, none twice; on the fx queue the sentinel is at the head and nowhere else; the empty hook fires only when nothing is left |
| FxQueue.EnqueuedByEvents | demo/src/main/webapp/js/jquery-1.11.1.js:3958-3975 | the functions enqueued are those of the enqueue steps, in order |
| FxQueue.DequeueStarts | demo/src/main/webapp/js/jquery-1.11.1.js:3977-4010 | in every run a dequeue starts the function that has waited longest; if none waits it leaves the queue empty and fires the empty hook once |
| FxQueue.EnqueueStarts | demo/src/main/webapp/js/jquery-1.11.1.js:4025-4050 | in every run an enqueue on the idle fx queue starts its function at once; any other leaves it waiting |
| FxQueue.DequeuesDrain | demo/src/main/webapp/js/jquery-1.11.1.js:3977-4010 | after n dequeues in a row n more functions have started, in order, or all that waited |
| FxQueue.Queue.DequeueStep | demo/src/main/webapp/js/jquery-1.11.1.js:3977-4010 | a dequeue with its sentinel handling is the dequeue step of the model |
| FxQueue.Queue.EnqueueStep | demo/src/main/webapp/js/jquery-1.11.1.js:4025-4050 | enqueueing, with the immediate dequeue of an idle fx queue, is the enqueue step of the model |
| TableIndex.DeleteIndex | demo/src/main/webapp/js/jquery.dataTables.js:1399-1419 | one pass in place removes the target from the array and renumbers the rest, or only renumbers |
| TableIndex.DeletedOriginals | demo/src/main/webapp/js/jquery.dataTables.js:1399-1419 | deleting a row from an index array removes its original row and leaves all other originals where they were |
| TableIndex.RemovalsMeaning | demo/src/main/webapp/js/jquery.dataTables.js:6737-6759 | removing rows one by one, the list of rows being renumbered while it is walked, removes exactly the rows first meant |
| TableIndex.RemovesExactly | demo/src/main/webapp/js/jquery.dataTables.js:7636-7662 | removing any distinct rows in any order leaves exactly the rows not listed, in their order, and an index array that names the same rows in the same order as before |
| TableSort.Compare | demo/src/main/webapp/js/jquery.dataTables.js:4492-4514 | the comparator is negative iff the row comes first by the columns or, being equal in all of them, by its place before the sort; `TableSort.SortMeaning` says what coming first means for the keys |
| TableSort.TextLessMeaning | demo/src/main/webapp/js/jquery.dataTables.js:4500-4504 | a string is below another iff it is a proper prefix of it or has the lower character where they first differ |
| TableSort.LessMeaning | demo/src/main/webapp/js/jquery.dataTables.js:4500-4504 | a key is below another iff both are numbers and it is the lower one, or it is an empty cell and the other a number, or both are strings in this order |
| TableSort.StrictTotalOrder | demo/src/main/webapp/js/jquery.dataTables.js:4492-4514 | for columns whose keys are all numbers, minus infinity included, or all strings the comparator with its tie-break is a strict total order |
| TableSort.SortIsDetermined | demo/src/main/webapp/js/jquery.dataTables.js:4461-4515 | so there is exactly one sorted permutation |
| TableSort.SortMeaning | demo/src/main/webapp/js/jquery.dataTables.js:4492-4514 | in a sorted list, of two rows equal in the columns before the k-th, the earlier one is not above the later one in an ascending k-th column, and not below it in a descending one; rows equal in all columns stand as they stood before |
| TableSort.SortsCompose | demo/src/main/webapp/js/jquery.dataTables.js:4461-4515 | sorting by one list of columns and then by another equals one sort by the second list followed by the first |
| TableSort.SortRows | demo/src/main/webapp/js/jquery.dataTables.js:4490-4515 | a sort that asks only the comparator returns that permutation |
| TableSearch.SearchWords | demo/src/main/webapp/js/jquery.dataTables.js:2926-2930 | the loop over the tokens collects the words, and throws exactly when some token starts with a quote and is no quoted word; `TableSearch.TokensAreMatches` and `TableSearch.WordMeaning` say what tokens and words are |
| TableSearch.TokensAreMatches | demo/src/main/webapp/js/jquery.dataTables.js:2926 | the tokens are the matches, left to right, with nothing but spaces between them: a quote with some other characters and the next quote, or else a run of characters other than the space up to a space or the end |
| TableSearch.ReadingExists | demo/src/main/webapp/js/jquery.dataTables.js:2926 | every search has such a reading |
| TableSearch.WordMeaning | demo/src/main/webapp/js/jquery.dataTables.js:2926-2930 | the word of a token is the token, or what stands between the quotes of a quoted one without line breaks |
| TableSearch.MatchesAreRuns | demo/src/main/webapp/js/jquery.dataTables.js:2926 | in a search without quotes the tokens are exactly the maximal runs of characters other than the space |
| TableSearch.FindsMeaning | demo/src/main/webapp/js/jquery.dataTables.js:2912-2936 | a word is found iff somewhere the text reads like it, character by character, after the case folding of both |
| TableSearch.QuoteFreeSearch | demo/src/main/webapp/js/jquery.dataTables.js:2912-2936 | a smart search without quotes accepts a text iff the text reads, somewhere, like each maximal run of characters other than the space |
| TableSearch.OneWordSearch | demo/src/main/webapp/js/jquery.dataTables.js:2912-2936 | a smart search for one word without spaces and quotes accepts a text iff the text contains the word |
| TableSearch.LoneQuoteThrows | demo/src/main/webapp/js/jquery.dataTables.js:2926-2930 | the smart search that consists of one quote throws |
| TableSearch.QuoteFreeIsReadable | demo/src/main/webapp/js/jquery.dataTables.js:2926-2930 | a search without quotes never throws |
| TableSearch.WordsOfPrefix | demo/src/main/webapp/js/jquery.dataTables.js:2912-2936 | every word of a search, quoted or not, is or begins a word of the search typed on, as long as neither throws |
| TableSearch.TokenGrows | demo/src/main/webapp/js/jquery.dataTables.js:2926 | typing on leaves a token that can be read as it is, unless it is the last one, whose word may only grow |
| TableSearch.Monotone | demo/src/main/webapp/js/jquery.dataTables.js:2912-2936 | a text accepted by a search is accepted by every prefix of the search that does not throw, smart or not, with quoted words or without, whatever the case folding |
| Table.FilterData | demo/src/main/webapp/js/jquery.dataTables.js:2956-3013 | afterwards every row has a cached search text, each is right, and the answer says whether one was missing |
| Table.SettledAfterAdd | demo/src/main/webapp/js/jquery.dataTables.js:957-990 | a new row changes nothing of what is shown of the rows searched so far |
| Table.SettledAfterInvalidate | demo/src/main/webapp/js/jquery.dataTables.js:1434-1478 | neither does dropping the cache of a changed row |
| Table.SettledAfterCut | demo/src/main/webapp/js/jquery.dataTables.js:7636-7662 | nor does deleting a row and renumbering both arrays |
| Table.SearchesCombine | demo/src/main/webapp/js/jquery.dataTables.js:2740-2785 | the global search, the column searches and the custom searches, one after the other, are one filter by all of them |
| Table.NarrowingIsEnough | demo/src/main/webapp/js/jquery.dataTables.js:2860-2893 | narrowing what the previous, shorter search left gives what searching from the master array gives |
| Table.StaleIsRight | demo/src/main/webapp/js/jquery.dataTables.js:2868-2870 | a display that still shows custom searches taken away equals the one of the present searches iff those held back no row that the others accept |
| DataTable.Settings.AddData | demo/src/main/webapp/js/jquery.dataTables.js:957-990 | a row is appended with its node and its place in the master array; the invariant of the table is kept |
| DataTable.Settings.InvalidateRow | demo/src/main/webapp/js/jquery.dataTables.js:1434-1478 | one row changes and loses its cached text; the invariant is kept |
| DataTable.Settings.RemoveRows | demo/src/main/webapp/js/jquery.dataTables.js:7636-7662 | the rows left, both index arrays and the page start after removing any distinct rows; node numbers equal row positions, the master array is a permutation and the display lies within it without repetition |
| DataTable.Settings.Sort | demo/src/main/webapp/js/jquery.dataTables.js:4461-4515 | the master array becomes its one sorted permutation; by the first sort column it ascends or descends, read off the values of the rows |
| DataTable.Settings.FilterComplete | demo/src/main/webapp/js/jquery.dataTables.js:2740-2785 | it throws, and changes nothing, exactly when the search cannot be built; otherwise a row is displayed iff its text matches the search and the column searches and the applied custom searches accept it, in the order of the master array, also when the previous result was only narrowed; it shows the present searches iff the search is empty or starts over or the custom searches taken away held back no row |
| DataTable.Settings.ReDraw | demo/src/main/webapp/js/jquery.dataTables.js:2011-2042 | after sorting, the display is the filter of the newly sorted master array by all searches |
| DataTable.Settings.TypeSearch | demo/src/main/webapp/js/jquery.dataTables.js:2679-2697 | typing in the search box throws exactly when the search cannot be built; otherwise it goes to the first page with the display filtered by what was typed, and shows the present searches under the same exact condition |
| DataTable.Settings.Search | demo/src/main/webapp/js/jquery.dataTables.js:8524-8547 | the search method of the API throws exactly when the search cannot be built, and otherwise shows all present searches |
| DataTable.Settings.SearchColumns | demo/src/main/webapp/js/jquery.dataTables.js:8550-8576 | a column search shows all present searches |
| DataTable.TypeOnWithoutCustom | demo/src/main/webapp/js/jquery.dataTables.js:2860-2893 | for every table: after all custom searches have been taken away, typing on shows the present searches iff the old ones held back no row the longer search accepts |
| DataTable.CustomRemovalIsMissed | demo/src/main/webapp/js/jquery.dataTables.js:2860-2893 | such a table exists: after a custom search has been taken away, typing on does not bring back the row it had held back |
| Paging.OverflowRestoresRange | demo/src/main/webapp/js/jquery.dataTables.js:5108-5127 | the start ends between 0 and the number of rows, and before the last row if there is one |
| Paging.OverflowExact | demo/src/main/webapp/js/jquery.dataTables.js:5108-5127 | a full window stays where it is; any other becomes the window that ends with the last row, or starts at 0 if there are fewer rows than the page is long; showing all rows starts at 0 |
| Paging.WindowMeaning | demo/src/main/webapp/js/jquery.dataTables.js:13137-13155 | a window shows the rows from its start on, as many as the page is long |
| Paging.AfterIsMultiple | demo/src/main/webapp/js/jquery.dataTables.js:3392-3455 | the k-th page starts at k page lengths until the last page is reached |
| Paging.NumberIsPage | demo/src/main/webapp/js/jquery.dataTables.js:3392-3455 | asking for page n that starts before the last row gives the page reached by n times next, which shows exactly the rows from n to n + 1 page lengths; a page that would start right behind the last row shows none, and a later one is the first page |
| Paging.NextVisitsEveryRow | demo/src/main/webapp/js/jquery.dataTables.js:3392-3455 | repeating next from first gives consecutive disjoint windows that contain every row and end at the start that last computes |
| Paging.PreviousUndoesNext | demo/src/main/webapp/js/jquery.dataTables.js:3392-3455 | previous takes back a next that moved iff there are rows |
| Paging.ChangeIsNatural | demo/src/main/webapp/js/jquery.dataTables.js:3392-3455 | the start becomes negative iff a page with a negative number is asked for while there are rows |
| DataTable.Settings.PageChange | demo/src/main/webapp/js/jquery.dataTables.js:3392-3455 | the branches of the page change give the start of the page arithmetic: next moves to the end of the old window or stays on a window that ends with the last row, previous goes back one length but not below 0, first goes to 0, last shows the last row, an unknown action changes nothing, and the start becomes negative only for a page with a negative number |
| ServerDraw.InstalledIffLatest | demo/src/main/webapp/js/jquery.dataTables.js:2585-2624 | a reply is installed iff it answers the latest request or carries no number; the draw number stays, and drawing it, callbacks included, sends nothing |
| ServerDraw.InvRun | demo/src/main/webapp/js/jquery.dataTables.js:1910-1924 | in every interleaving request numbers strictly increase and the draw number is the latest one |
| ServerDraw.EveryDrawRequests | demo/src/main/webapp/js/jquery.dataTables.js:1910-1924 | in every run each draw sends one request, numbered in turn from 1, except the first one of a page that came with its data; replies, whatever drawing they cause, send none |
| ServerDraw.ShownInOrderIff | demo/src/main/webapp/js/jquery.dataTables.js:2585-2624 | for every interleaving: what is installed belongs each time to the latest request, and its number never goes down, iff no reply without its number answers a request that is no longer the latest |
| ServerDraw.ShownInOrder | demo/src/main/webapp/js/jquery.dataTables.js:2585-2624 | so if all replies echo their number, what is shown is in order in every interleaving of draws and late, reordered or repeated replies |
| ServerDraw.UnnumberedReplyOvertakes | demo/src/main/webapp/js/jquery.dataTables.js:2595-2602 | by which two requests and an unnumbered reply to the first one break the order |
| ServerDraw.Settings.AjaxUpdateDraw | demo/src/main/webapp/js/jquery.dataTables.js:2585-2624 | the fields after a reply are those of the protocol model |
| ServerDraw.Settings.DrawTable | demo/src/main/webapp/js/jquery.dataTables.js:1910-1924 | the fields after a draw are those of the protocol model |
| HeaderGrid.CornerIsFirstFree | demo/src/main/webapp/js/jquery.dataTables.js:2210-2216 | when all cells before a cell are in place, its column is the first free one of its row |
| HeaderGrid.FillCell | demo/src/main/webapp/js/jquery.dataTables.js:2246-2262 | one cell is copied over its whole box and nowhere else |
| HeaderGrid.DetectHeader | demo/src/main/webapp/js/jquery.dataTables.js:2204-2268 | for every header whose cells tile a grid the layout is that grid, and the row element noted for a layout row is the last one up to it that starts a cell |
| HeaderGrid.NotedElement | demo/src/main/webapp/js/jquery.dataTables.js:2246-2258 | a row that starts no cell continues all cells of the row above, so the element noted for it is the one noted there |
| HeaderGrid.LocalRow | demo/src/main/webapp/js/jquery.dataTables.js:1792-1805 | splicing the hidden columns out of a layout row from the last to the first leaves the columns listed as visible, in order; `HeaderGrid.VisibleMembers` says which these are |
| HeaderGrid.VisibleMembers | demo/src/main/webapp/js/jquery.dataTables.js:1792-1805 | the visible columns are exactly those flagged visible, in increasing order |
| HeaderGrid.SpanCounts | demo/src/main/webapp/js/jquery.dataTables.js:1824-1861 | the width left to a box is the number of its columns that are flagged visible |
| HeaderGrid.LocalRowDraws | demo/src/main/webapp/js/jquery.dataTables.js:1824-1861 | a row of the local grid draws each cell whose box starts in it and has a visible column, once, from left to right, with the height of the box and as many columns as are visible, and no other cell |
| HeaderGrid.LocalIsTiled | demo/src/main/webapp/js/jquery.dataTables.js:1792-1805 | after hiding any columns the rest of each cell is still a box, and the boxes tile the rows by the visible columns |
| HeaderGrid.DrawRow | demo/src/main/webapp/js/jquery.dataTables.js:1824-1861 | drawing a row of a tiled grid appends exactly the cells whose box starts in it, with the height and width of the box |
| HeaderGrid.DrawHead | demo/src/main/webapp/js/jquery.dataTables.js:1774-1864 | every row element ends with the cells whose box starts in that row of the local grid, but one above a row that starts no cell ends empty |
| HeaderGrid.CellStandsOnce | demo/src/main/webapp/js/jquery.dataTables.js:1824-1861 | each cell stands exactly once in the rows of a grid, in the row its box starts in |
| HeaderGrid.DrawnAsShown | demo/src/main/webapp/js/jquery.dataTables.js:1774-1864 | the row of the local grid is the header row without the cells whose columns are all hidden, each other cell with its rowspan and as many columns as are visible, the visible columns being those of `HeaderGrid.VisibleMembers` |
| HeaderGrid.DetectAndDraw | demo/src/main/webapp/js/jquery.dataTables.js:1774-1864 | detect then draw, for every header whose cells tile a grid and every choice of visible columns: a row draws each cell whose box starts in it and has a column flagged visible, once, with as many columns as are flagged, and no other cell, but a row above one without cells of its own ends empty; with no column hidden this gives the header back iff every row starts a cell or none does |
| DataPath.SplitJoin | demo/src/main/webapp/js/jquery.dataTables.js:1126-1131 | splitting a joined list of unescaped parts gives the parts back |
| DataPath.SplitEscapedJoin | demo/src/main/webapp/js/jquery.dataTables.js:1126-1131 | parts whose periods are escaped come back as they were after joining and splitting, empty ones skipped |
| DataPath.SplitBackslash | demo/src/main/webapp/js/jquery.dataTables.js:1126-1131 | any escaped character comes out as a period; before a line break the backslash stands for itself |
| DataPath.FetchData | demo/src/main/webapp/js/jquery.dataTables.js:1189-1241 | the loop with its recursion over the joined rest of the path reads what the path means, errors included |
| DataPath.DottedFetch | demo/src/main/webapp/js/jquery.dataTables.js:1230-1241 | a path of property names finds a value iff reading the properties one after the other leads to it past values that are there; it throws only for absent data |
| DataPath.FetchEachMeaning | demo/src/main/webapp/js/jquery.dataTables.js:1205-1222 | an array part reads every entry by itself, in order, and throws iff reading some entry does |
| DataPath.SetData | demo/src/main/webapp/js/jquery.dataTables.js:1292-1351 | the setter with its recursion over the joined rest of the path writes what the path means, errors included |
| DataPath.StoreEachMeaning | demo/src/main/webapp/js/jquery.dataTables.js:1306-1324 | writing through an array part writes every entry of the value into a fresh object, in order, and throws iff writing some entry does |
| DataPath.GetAfterSet | demo/src/main/webapp/js/jquery.dataTables.js:1290-1351 | over objects whose intermediates are objects or absent, get after set returns the value iff the value has the array shape the path asks for |
| DataPath.OthersUnchanged | demo/src/main/webapp/js/jquery.dataTables.js:1290-1351 | setting a dotted path never throws there, and a path that neither is a prefix of it nor reads through what it writes is unchanged iff no absent object was created of which an array part of that path can tell |
| DataPath.PartedByItems | demo/src/main/webapp/js/jquery.dataTables.js:1290-1351 | where the other path goes over the items of an object on the way, it reads the same if that object was there, and an empty array instead of undefined or an error if it was not |
| DataPath.PartedByName | demo/src/main/webapp/js/jquery.dataTables.js:1290-1351 | where two paths part by names before any array part of the one written, whatever array parts follow, the other reads the same as before, with the same exception |
| DataPath.ArraysAreReplaced | demo/src/main/webapp/js/jquery.dataTables.js:1306-1324 | a write through an array part replaces what was there: reading on from that property does not depend on the old data |
| DataPath.ReadsThroughValue | demo/src/main/webapp/js/jquery.dataTables.js:1290-1351 | reading on from a property that was written by a dotted path is reading the value written |
| PropertiesChange.MakeChange | client/src/main/java/qunar/tc/qconfig/client/PropertiesChange.java:18-35 | the constructor succeeds iff no key belongs to two kinds; then every key has the item of its kind, and there is a change iff something was added, deleted or modified |
| PropertiesChange.Diff | client/src/main/java/qunar/tc/qconfig/client/PropertiesChange.java:50-57 | the difference has an item for exactly the keys of either configuration: added, deleted, modified with both values, or unchanged as the two have it; there is a change iff they differ |
| PropertiesChange.IsChangeIffDifferent | client/src/main/java/qunar/tc/qconfig/client/PropertiesChange.java:41-44 | a key counts as changed iff the two configurations differ on it |
| PropertiesChange.DiffApplied | client/src/main/java/qunar/tc/qconfig/client/PropertiesChange.java:50-57 | applying the difference to the old configuration gives the new one, and applying it again changes nothing |
| PropertiesChange.EverythingAdded | client/src/main/java/qunar/tc/qconfig/client/PropertiesChangedManager.java:48-49 | the synthetic change is the difference from the empty configuration |
| PropertiesChange.ReplayedThenChanged | client/src/main/java/qunar/tc/qconfig/client/PropertiesChangedManager.java:46-56 | a listener sent everything first and a pending change afterwards still ends with the current configuration |
| PropertiesChange.OutOfOrder | client/src/main/java/qunar/tc/qconfig/client/PropertiesChangedManager.java:33-35 | a listener served a later change while an earlier one is still due ends with the right configuration iff the two touch no common key |
| PropertiesManager.InvRun | client/src/main/java/qunar/tc/qconfig/client/PropertiesChangedManager.java:25-56 | in a run without loads made inside a callback every step keeps every listener up to date or waiting to be called |
| PropertiesManager.ListenersFollow | client/src/main/java/qunar/tc/qconfig/client/PropertiesChangedManager.java:25-56 | for every run of loads and registrations without a load inside a callback, registrations inside a callback included, a listener that waits for no call has rebuilt the current configuration |
| PropertiesManager.LoadTells | client/src/main/java/qunar/tc/qconfig/client/PropertiesChangedManager.java:25-36 | in every run, also inside a callback: loading the present configuration changes nothing and calls nobody; loading another one calls every listener once, in the order of the list, with the difference |
| PropertiesManager.RegistrationTells | client/src/main/java/qunar/tc/qconfig/client/PropertiesChangedManager.java:46-56 | a registration sends the listener everything there is, once, before it is put on the list, and nothing if the configuration is empty |
| PropertiesManager.FinishDelivers | client/src/main/java/qunar/tc/qconfig/client/PropertiesChangedManager.java:25-56 | for every state, with loads and registrations nested in any way: in the end the configuration has stayed, the listeners being registered are on the list, and each listener has got the changes still due to it, innermost loop first |
| PropertiesManager.EndsRightIff | client/src/main/java/qunar/tc/qconfig/client/PropertiesChangedManager.java:25-56 | for every run whatsoever: once all callbacks have returned, a listener has rebuilt the configuration iff for each key the change delivered last among those due sets the present value, or none is due and the value is right already |
| PropertiesManager.NestedLoad | client/src/main/java/qunar/tc/qconfig/client/PropertiesChangedManager.java:25-56 | a load made inside any callback, of a loop or of a registration, in a run without earlier nested loads: once all callbacks have returned, a listener still being registered has rebuilt the new configuration iff it equals the old one, and any other iff the interrupted loop had not to call it any more or the two changes touch no common key |
| PropertiesManager.FinishAfterContinues | client/src/main/java/qunar/tc/qconfig/client/PropertiesChangedManager.java:33-35 | after enough returns all loops are finished, and then the state is the one that serves every listener still due |
| PropertiesManager.NestedLoadMisleads | client/src/main/java/qunar/tc/qconfig/client/PropertiesChangedManager.java:25-36 | it does happen: with two listeners and two values of one key the second listener ends with the first value |
| PropertiesManager.RegistrationMisleads | client/src/main/java/qunar/tc/qconfig/client/PropertiesChangedManager.java:46-56 | and in a registration: a listener that loads another configuration while it is told of the present one ends with the old one |
| PropertiesManager.PropertiesChangedManager.OnLoad | client/src/main/java/qunar/tc/qconfig/client/PropertiesChangedManager.java:25-36 | a load brings every listener to the new configuration; it calls each one once, in order, with the difference, and nobody if the configuration is the same |
| PropertiesManager.PropertiesChangedManager.AddPropertiesListener | client/src/main/java/qunar/tc/qconfig/client/PropertiesChangedManager.java:46-56 | a late listener is brought to the current configuration by one call, by none if that is empty, and is notified from then on |

## Left out

- MatcherCache.NodeCache.Run: set matchers, hence positional pseudos, and runs nested in runs as `:has` and `:not` make them: a surface with other semantics.
- MatcherCache.Compile: set matchers, tokenizing and the compiler cache; selectors start as token lists, and tags, classes, attributes and pseudos are abstract tests on nodes.
- Select.SelectOne: the shortcut for a leading ID, duplicate IDs, precompiled selectors, a given seed, and selectors of several groups, which look up no seed and go through `MatcherCache.Compile` and `MatcherCache.NodeCache.Run`.
- Selector.CompilerCorrect: stated for nodes of a tree in which every node with children, the root excepted, is an element.
- DocumentOrder.SiblingCheck: the shortcut by `sourceIndex`.
- DocumentOrder.SortOrder: nodes of two different trees, and `compareDocumentPosition`; the sort of a browser stands as an insertion sort that asks the comparator.
- Callbacks.StepKeeps: functions that throw, `stopOnFalse`, and `empty()`, during a round or at rest, are no steps; arguments and contexts are one datum; nested lists of functions given to `add` are flat.
- Callbacks.FiresBecomeRounds: stated for runs without `lock` and `disable`, which cut rounds short; `Callbacks.StepKeeps` covers them.
- Callbacks.OnceReachable: stated for runs without `lock` and `disable`, for the same reason.
- Callbacks.OnceMemory: stated for runs without `lock` and `disable`, for the same reason.
- CallbackLaws.EveryFunctionIsAdded: stated for runs without `lock` and `disable`, after which `add` may do nothing; `CallbackLaws.AdditionsAreNamed` covers them.
- JQueryDeferred.InvStep: `then`, `always` and `pipe`; a function of the user is never removed from a deferred's lists, as promises offer no such method.
- When.Master.constructor: progress values and contexts; a resolution with several arguments is one value.
- FxQueue.Run: replacing a queue by an array, `clearQueue`, `delay` and the animation itself; a started function's own dequeues are further steps of a run.
- TableSort.StrictTotalOrder: needs columns of one kind of key, as the comparison of numbers with strings, and of NaN, is no order in the script language.
- DataTable.Settings.Sort: the comparison without formatters, and the caches of sort values.
- TableSearch.Monotone: regular-expression searches, and texts with the line separators U+2028 and U+2029, which a smart search never matches across.
- DataTable.Settings.FilterComplete: regular-expression searches, and column searches that throw.
- Table.FilterData: how the cells of a row are decoded and joined to one text.
- Table.SearchesCombine: column and custom searches are abstract tests on the content of a row; a column search that throws is not modelled.
- DataTable.Settings.ReDraw: tables with sorting or filtering switched off.
- Paging.OverflowRestoresRange: the start need not be a multiple of the page length afterwards.
- ServerDraw: what the request and the reply carry besides their number, and errors of the transport.
- HeaderGrid: sanitising span attributes, the `unique` flag, attributes and widths of cells; `bIncludeHidden` is the case of no hidden column.
- DataPath.SetData: models the object graph by values, so updating in place and aliasing between the value set and the object are not captured.
- DataPath.FetchData: escapes inside paths after an array part, join strings, function notation, array indices and `length` used as names, properties inherited from prototypes, and the direct access used for a path of one plain name.
- PropertiesManager.PropertiesChangedManager.OnLoad: calls listeners that only follow and do not throw; re-entrant ones are covered by the runs of `PropertiesManager.ListenersFollow`.
- PropertiesManager.InvRun: runs with a load made inside a callback, in which the invariant may fail.
- PropertiesManager.ListenersFollow: runs with a load made inside a callback, for which `PropertiesManager.EndsRightIff` says who ends right.
- PropertiesManager.NestedLoad: runs with earlier nested loads, which `PropertiesManager.EndsRightIff` covers.
- Configuration formats, data access, uploads and feature switches: wrappers around libraries that are not part of this model.
- Networking, animation, layout measurement and the generated pages of the demo: user interface and browser behaviour.
