# Drivine, modelled

Drivine is a graph object manager: classes are mapped to nodes and relationships, and objects are loaded, changed and
saved through statements it writes for Neo4j, Memgraph, FalkorDB, Oracle, Postgres and SQLite. Its hard parts are
protocols and graph algorithms that live in generated statements. This project models what each statement means, as an
atomic step or a function over an abstract property graph, and proves what the protocols and algorithms keep. Where the
text of a statement is the algorithm, as in the label search and the keyset predicate, the text is modelled.

`dafny verify dfyconfig.toml` checks the whole project.

## The modules

**Optimistic locking.** A node's stamp is two tokens, one for its data and one for its relationships. `Stamps` holds the
stamp and what an object is handed back, as text and as values. `Graphs` holds the property graph and what each clause
does to it, `Effects` what that is of each relationship and node. `Statements` holds the object manager's statements as
lists of operations, `SavedViews` and `SavedLabels` what a save or a batch leaves stored of every row. `TokenRuns`
proves over every run of statements what a token speaks for, `TokenMarks` when one is replaced, `ObjectRuns` and
`HandedStamps` what happens to the stamps objects carry, `Updates` that `update` refines an atomic read-modify-write in
any interleaving, and `UpdateLoop` the same of `update` as the loop it is, with what it returns. A load may be handed a
stamp newer than its data: `TornLoads` holds what the save then compares, `TornUpdates` that with it an update still is
its change in one step, and `EditsComeBack` that a load of the node then gives what the change gave.

**Mapping.** `Mapping` says how an object is stored as properties and read back, `RoundTrip` that what is saved comes
back and no owner writes another's property, `MappingRules` each rule on its own, `MapperLoops` that the loops which do
it compute that, `SavedObjects` the same round trip through the save statement.

**Cascading delete.** `Cascades` holds the recursion over cyclic view models that the load, the save and the cascade
share, `CascadeLists` the builder of the cascade's lists, `CascadeLoads` and `CascadeCertain` when those hold what a
load does, `CascadeDepth` what its depth checks mean, `CascadeReuse` where they are not enough, and `OrphanWalk` which
nodes DELETE_ORPHAN keeps.

**Queries and indexes.** `Keyset` is paging by cursor, `LowerCopies` and `LowerCopyCatalog` the lowercased copies and
the rewrite to them, `LabelSearch` the search of a label in a JSON array's text, `PathSort` the insertion sort in a
`reduce`, `Walks` the unrolled multi-hop query.

**Construction and batching.** `Registry` is the cyclic cache of models with rollback, `RegistryFaults` why it refuses a
class, `Batches` the chunks of a saveAll, `BatchLocks` the locks it takes, `BatchOrder` what it writes last, and
`Contention` the retries of statements that are turned away.

`Truths`, `Orders` and `Wrappers` hold three-valued logic, the order of values, and the optional value.

## What was found

- `update` documents that it returns undefined when its node is deleted meanwhile
  (src/manager/StatelessGraphObjectManager.ts:507-508). `UpdateLoop.DocumentedUnlessDeleted` says exactly when it does:
  unless the last attempt loads a node that is then deleted, and either the object carries no stamp or no attempt is
  left. With none left it throws StaleObjectException, marked deleted, since the attempts are counted before the
  deletion is looked at; and not marked so where the save was turned away as contended, since then nothing looks for
  the node (`UpdateLoop.DeletedAtTheLastAttempt`). Without a stamp, as of any object of a class without a stamp field,
  the save merges, and makes the node again of what was changed alone (`UpdateLoop.UnstampedIsMadeAgain`).
- A cascade is documented to take what loading the view loads (src/backend/CascadeTargets.ts:46-55). A field of one
  node loads the first of what it matches, and the cascade takes all of it: `CascadeLoads.OneOfTwoIsLoaded` gives an
  input. The list holds what some order of matches would load (`CascadeLoads.TargetsAreLoadedInSomeOrder`). Whatever is
  listed first, it holds the nodes a load holds and no others if and only if a load certainly comes to each of them
  (`CascadeCertain.SameNodesIffCertain`), which a walk of the graph decides: over some match of a list, and over every
  match of a field of one node. Every load has a path for each way the cascade takes if and only if no field of one
  node on such a way has two matches (`CascadeLoads.LoadsAllIffOnlyMatches`).
- A saveAll is documented to take its locks in one order, so that batches over the same nodes do not wait for each
  other (src/manager/StatelessGraphObjectManager.ts:171-175, 635-638). Two things break it. A row locks the node its
  MERGE matches, and one of a subclass carries the labels of the class above
  (`BatchLocks.EmployeesAndPersonsDeadlock`). And a view, or a fragment with a property bag or a labels field, is a
  statement of its own, run after the rows in the order it was given in (`BatchLocks.BaggedFragmentsDeadlock`). No
  batches deadlock, and all can always finish, if and only if no node is merged on as a row under two class names and
  no class has objects that are statements of their own (`BatchLocks.NoDeadlockIffOneOrder`). The objects of each node
  are written in the order given if and only if no node is that of rows of two class names, or written both by a row
  and by a statement of its own (`BatchOrder.KeepsOrderIffApart`).
- An update of an object without a stamp checks nothing and loses what was written meanwhile
  (`Updates.UnstampedUpdateLoses`), as its documentation says.
- Two writes go unmarked: deleting a node leaves the links tokens of its neighbours, and the labels a save gives a node as
  a subtype leave its data token (`TokenRuns.DeletesGoUnmarked`, `TokenRuns.SubtypeLabelsGoUnmarked`). Without them a
  token determines its half of the node.
- Depth checks that all count 0 do not alone mean that nothing is left below. A pattern takes no stored relationship twice,
  so a relationship the way to a node has taken for another field is neither gone down again nor counted, and what hangs
  below it may stay behind. `CascadeReuse` gives a model and a graph. `CascadeDepth.ChecksMeanClosed` says exactly when
  nothing is left, and `CascadeDepth.ChecksMeanNothingLeft` gives a condition on the view models that is enough.
- The unrolled SQL walk has one row for each walk except over loops of an undirected relationship, which its table of steps
  lists twice (`Walks.OneRowUnlessLoops`). The query around it reads each node once, so no answer changes.
- The retry guard marks objects, and looks through ten errors: nested runs never multiply their attempts if and only if, of
  objects, each run's failure is wrapped in fewer, and, of bare values, there is but one run
  (`Contention.MultipliesExactly`). Otherwise a statement always turned away is executed `Contention.Executions` times.
- A node that holds a forbidden key under a prefixed bag's namespace has one property more than the bag reads, so the
  comparison of that bag with what was loaded refuses every save of it (`TornLoads.BagAsLoadedIsExact` gives the
  condition, `TornLoads.ForbiddenKeyIsRefused` a node). A packed field is compared as text, so a node that holds the
  value packed another way is refused too (`TornLoads.FieldAsLoadedIsExact`). A field that is neither initialized nor
  renamed, and that the load did not see, is not compared (`TornLoads.UndeclaredFieldsGoUncompared`).
- A keyset page selects no row that lacks a key where the null guard is on, and one that lacks it past the first differing
  key where it is off (`Keyset.SelectsWhatIsAfter` says both).

## Model

| member | source | states |
|---|---|---|
| Stamps.HalvesOf | src/model/Stamps.ts:25-32 | the data half of any text is what stands before its first colon, or all of it, and the links half what stands after that colon, if anything does |
| Stamps.HandedBackAsText | src/model/Stamps.ts:43-59 | the stamp an object is handed back, computed on texts with a colon between the tokens, is the one the rule on tokens gives: each token is the node's new one only if what it speaks for was as the object's stamp said |
| Stamps.CheckedAsText | src/backend/SaveStatementBuilder.ts:245-250 | comparing stamps by their first and last sixteen characters is comparing their tokens, the links token only when lists are replaced |
| Graphs.ChangesIsExact | src/backend/CypherStamps.ts:25-30 | the test of a write is true if and only if the write would change some property, clears of absent properties included |
| Graphs.UnchangedIsKept | src/backend/CypherStamps.ts:32-39 | clauses of which none tests as a change leave the node's properties and labels as they were, so a stamp is kept only over unchanged data |
| Graphs.SameIsCountedExactly | src/backend/EdgeStatements.ts:36-57 | counting the relationships that are already as wanted, against those there are, tells exactly whether writing the properties changes one |
| Statements.StatementsAreInOrder | src/backend/SaveStatementBuilder.ts:432-480 | every statement of the manager has made sure a row's node is there before it labels or joins it, and a relationship before it sets its properties |
| Effects.ReplacedDropsTheOthers | src/backend/SaveStatementBuilder.ts:380-404 | replacing a list takes exactly the relationships that lead over it to a node of its labels outside those kept, leaves every other as it was, and leaves each node's properties and labels |
| Effects.ReplacedDeletesUnreferenced | src/backend/SaveStatementBuilder.ts:404-415 | under DELETE_UNREFERENCED it deletes besides exactly those of the nodes so removed that nothing then refers to and the object does not hold |
| Effects.RelatedAgain | src/backend/EdgeStatements.ts:36-57 | relating nodes already related gives each such relationship the properties over those it has, and touches no other |
| Effects.RelatedAnew | src/backend/EdgeStatements.ts:36-57 | relating nodes not yet related, or by a create, adds one relationship with the properties and nothing else |
| Effects.UnrelatedDrops | src/backend/EdgeStatements.ts:60-73 | exactly the relationships of the type from the one node to the other go |
| Effects.UnrelatedAllDrops | src/backend/EdgeStatements.ts:92-113 | exactly the relationships of the type that touch the node, in the direction given, go |
| Effects.DeletedGo | src/backend/CypherBackend.ts:107-112 | deleted nodes go with exactly their relationships |
| Effects.PatchedHolds | src/backend/PatchStatements.ts:52-78 | a patched node holds what the patch sets, not what it clears, and all else as before; one the patch does not apply to is as it was |
| SavedViews.RowsAreStored | src/backend/SaveStatementBuilder.ts:432-480 | after a save, at any depth, the node of a row holds each property its last row gives it |
| SavedViews.RowsAreJoined | src/backend/SaveStatementBuilder.ts:432-480 | and a relationship leads from the node above it to it |
| SavedViews.RowsRelationshipsAreStored | src/backend/SaveStatementBuilder.ts:432-480 | each such relationship holds each property its row gives it, where no other row is of the same two nodes and type |
| SavedViews.ReplacedListIsExact | src/backend/SaveStatementBuilder.ts:380-411 | after a save that replaces a list by its rows, the field leads from the root to exactly the nodes of the rows, of those with its labels |
| SavedViews.RootIsStored | src/backend/SaveStatementBuilder.ts:182-235 | the root is there with its labels and holds what its clauses leave, where no row is the root |
| SavedViews.CreatedOnce | src/backend/SaveStatementBuilder.ts:219-233 | a create makes its root, with its labels and what it writes, where the node is not there, and changes nothing where it is |
| SavedLabels.RowsAreLabelled | src/backend/SaveStatementBuilder.ts:448-460 | after a save a related node of a subclass has the subclass's labels, whether the save made it or found it |
| SavedLabels.BagsAreStored | src/backend/SaveStatementBuilder.ts:515-536 | a related node with a property bag or a labels field is left as its own part writes it over what the rows left |
| SavedViews.BatchIsStored | src/backend/FragmentBatchStatement.ts:40-60 | after a batch each object's node holds each property of its last row |
| SavedObjects.SavedObjectComesBack | src/manager/StatelessGraphObjectManager.ts:1184-1228 | an object saved by the statement and loaded again has the fields it had, and each bag its entries over those the save leaves |
| TokenRuns.StatementKeeps | src/backend/CypherStamps.ts:32-48 | a node that carries a token the statement did not offer has the same properties, or the same relationships, after the statement as before, though one offered stamp is shared by every node of it |
| TokenRuns.DataTokenDeterminesProperties | src/backend/CypherStamps.ts:25-39 | over every run of saves, creates, patches, batches, edge operations and deletes, two moments at which a node carries one data token have the same stored properties |
| TokenRuns.DataTokenDeterminesLabels | src/backend/SaveStatementBuilder.ts:543-588 | the same of its labels, in runs in which no save gives a node labels as a subtype |
| TokenRuns.LinksTokenDeterminesRelationships | src/backend/CypherStamps.ts:41-48 | two moments at which a node carries one links token have the same incident relationships with the same properties, in runs that delete no node |
| TokenMarks.LinksTokenTellsEach | src/backend/CypherStamps.ts:41-48 | that told of each relationship: it starts or ends at the node at both moments or at neither, and is alike |
| TokenMarks.DataIsMarkedExactly | src/backend/CypherStamps.ts:25-39 | each operation gives a stamped node a new data token if and only if it writes the node, and a property it sets or clears, or a label it gives or takes, is not so already |
| TokenMarks.LinksAreMarkedExactly | src/backend/CypherStamps.ts:41-48 | each operation but a delete gives a stamped node a new links token if and only if a relationship that starts or ends at it is made, taken or changed |
| TokenMarks.MadeIsStamped | src/backend/CypherStamps.ts:32-39 | a node that is made, or is written without a stamp, carries the whole stamp offered |
| TokenRuns.PatchMarksExactly | src/backend/PatchStatements.ts:52-78 | a patch replaces the data token of a stamped node if and only if it changes one of its properties |
| TokenRuns.RelateMarksExactly | src/backend/EdgeStatements.ts:36-57 | relating two nodes replaces the links token of an end if and only if a relationship is made or changed |
| TokenRuns.DeletesGoUnmarked | src/backend/CypherBackend.ts:107-112 | a delete takes a neighbour's relationship and leaves its links token: why runs that delete are left out above |
| TokenRuns.SubtypeLabelsGoUnmarked | src/backend/SaveStatementBuilder.ts:432-480 | labels given as a subtype leave the data token: why runs with them are left out above |
| ObjectRuns.StaleStaysStale | src/model/Stamps.ts:43-59 | once an object's data token is not its node's, no run of statements, hand-backs and loads of other objects makes it equal again |
| ObjectRuns.StaleSavesAreRefused | src/backend/SaveStatementBuilder.ts:245-263 | and every checked save of it is refused and changes nothing |
| ObjectRuns.LinksTokenComesStale | src/model/Stamps.ts:54-58 | an object that held no links token is given one of an existing node only together with a data token the check refuses |
| ObjectRuns.CheckedSaveIsOverUnchanged | src/manager/StatelessGraphObjectManager.ts:1229-1239 | a checked save of an object goes on only over the properties its node held when the object, not stale, carried the data token it carries now |
| HandedStamps.HandedAre | src/manager/StatelessGraphObjectManager.ts:1229-1239 | a save hands a stamp to the objects of its root, of its rows at any depth and of the related nodes with parts of their own; a batch to each of its objects |
| HandedStamps.HandedIsCurrent | src/model/Stamps.ts:43-59 | an object handed a stamp carries its node's data token afterwards if and only if it was not stale before; and its links token then too, if it carried that before |
| HandedStamps.OthersKeepTheirs | src/manager/StatelessGraphObjectManager.ts:1229-1239 | no other object's stamp changes, and none does by a statement that is refused |
| HandedStamps.CurrentSaveGoesOn | src/backend/SaveStatementBuilder.ts:245-263 | the checked save of an object that carries its node's tokens is not refused for its stamp |
| Updates.ChangeIsWhatIsStored | src/manager/StatelessGraphObjectManager.ts:887-927 | writing what a change altered of the properties gives the changed properties, outside the ignored fields |
| Updates.SaveOfCurrentIsAtomic | src/backend/SaveStatementBuilder.ts:245-263 | a checked save that goes on over unchanged data is the change run once on what the node holds |
| Updates.UpdatesRefineAtomic | src/manager/StatelessGraphObjectManager.ts:511-540 | in every interleaving of any number of updates of fragments with any other statements, each save of an update that goes on is its change run once on what the node then holds, and loads and refused saves have no effect |
| Updates.RefusedIffMarked | src/backend/SaveStatementBuilder.ts:245-263 | the save of an update is refused if and only if the node is gone or no longer carries the data token it was loaded with |
| Updates.UnstampedUpdateLoses | src/backend/SaveStatementBuilder.ts:234-244 | without a stamp two updates of a counter that both loaded 0 leave 1 |
| UpdateLoop.Store.Update | src/manager/StatelessGraphObjectManager.ts:511-540 | the retry loop: it comes to what the specification of the attempts says, which the lemmas below tell of; a saved result had its effect with its last statement, on what the node then held, and any other outcome had no effect |
| UpdateLoop.UpdateEndsAsAttempted | src/manager/StatelessGraphObjectManager.ts:518-539 | what an update comes to, told by its last attempt alone, and each outcome if and only if: saved where that save went on, stale only where it was refused with no attempt left, none where the node was not there or, refused, was gone, the engine's failure where an unchecked save was turned away |
| UpdateLoop.StaleOnlyAtTheEnd | src/manager/StatelessGraphObjectManager.ts:531-538 | an update throws as stale only once every attempt is made |
| UpdateLoop.QuietAttemptSaves | src/manager/StatelessGraphObjectManager.ts:518-539 | an attempt that loads the node, and between whose load and save nothing is sent and nothing turned away, ends the update saved, whatever the attempts before met |
| UpdateLoop.RefusedIsTriedAgain | src/manager/StatelessGraphObjectManager.ts:531-538 | a checked save refused with an attempt left and the node still there: the update is that of the next attempt |
| UpdateLoop.DeletedIsGivenUp | src/manager/StatelessGraphObjectManager.ts:531-538 | and none is returned from that attempt where the node is then found to be deleted |
| UpdateLoop.RefusedOnceIsSaved | src/manager/StatelessGraphObjectManager.ts:531-538 | refused once, by a write between the first load and its save, and then left alone, it is saved at the second attempt |
| UpdateLoop.DocumentedUnlessDeleted | src/manager/StatelessGraphObjectManager.ts:531-538 | none is returned exactly when there is no such node or it is deleted meanwhile, if and only if the last attempt's node is not deleted meanwhile, or its object carried a stamp and an attempt was left; and what is returned, thrown or made where it is deleted |
| UpdateLoop.DeletedAtTheLastAttempt | src/manager/StatelessGraphObjectManager.ts:532-534 | a node deleted during the last attempt: it throws as stale, marked deleted unless the save was turned away |
| UpdateLoop.UnstampedIsMadeAgain | src/backend/SaveStatementBuilder.ts:234-244 | a node deleted while an object without a stamp is changed is made again, of the changed properties alone |
| UpdateLoop.Store.Attempt | src/manager/StatelessGraphObjectManager.ts:519-532 | one load, change and save, with other writers' statements between the load and the save, which the engine may turn away |
| UpdateLoop.Store.SendSave | src/manager/StatelessGraphObjectManager.ts:1184-1228 | the save of what an earlier moment held goes on as the change in one step, or runs not at all |
| UpdateLoop.Store.Turn | src/manager/StatelessGraphObjectManager.ts:518-539 | one turn of the loop: an attempt and, refused, the look for the node, and whether to go on; a checked save that is turned away is as a stale one, without the look, and an unchecked one throws |
| UpdateLoop.Store.Send | src/manager/StatelessGraphObjectManager.ts:1184-1228 | one statement runs whole with a fresh stamp, or finds its root stale and runs not at all |
| UpdateLoop.SavedIsAtomic | src/manager/StatelessGraphObjectManager.ts:511-540 | a save that goes on with the stamp of an earlier moment of the run is the change on what the node then holds |
| TornLoads.FieldAsLoadedIsSound | src/backend/SaveStatementBuilder.ts:274-350 | a field that passes the comparison would be loaded now as it was loaded |
| TornLoads.FieldAsLoadedIsExact | src/backend/SaveStatementBuilder.ts:274-350 | a field passes if and only if it would be loaded alike and, packed and held by the node, is the same text |
| TornLoads.BagAsLoadedIsExact | src/backend/SaveStatementBuilder.ts:274-350 | a property bag passes if and only if it would be loaded alike and the node holds no forbidden key in its namespace |
| TornLoads.LabelsAsLoadedIsExact | src/backend/SaveStatementBuilder.ts:274-350 | the labels field passes if and only if it would be read alike |
| TornLoads.PassingIsLoadedAlike | src/backend/SaveStatementBuilder.ts:265-350 | a node that passes every comparison would now be loaded as the object the change was given, in every compared field, bag and label |
| TornLoads.ChangedFieldIsRefused | src/backend/SaveStatementBuilder.ts:286-306 | a node on which a field that the class initializes, renames or gives an empty collection, or that the load found, would now load otherwise does not pass |
| TornLoads.IncomparableGoesUncompared | src/backend/SaveStatementBuilder.ts:888-899 | a value the store cannot compare refuses no save, as long as the node holds one |
| TornLoads.ForbiddenKeyIsRefused | src/backend/SaveStatementBuilder.ts:307-330 | a node that holds a key no load takes under a bag's prefix does not pass, though nothing was changed |
| TornUpdates.TornUpdateIsAtomic | src/backend/SaveStatementBuilder.ts:251-263 | in any run, however the load and the later read of held keys were torn, a checked save with the fields compared that goes on is the change of the loaded object run once on what the node then holds, its fields, bags and labels, for every change that goes by fields the class initializes or renames or the load found |
| TornUpdates.ReadIsExact | src/backend/CypherGrammar.ts:52-59 | a read that began after the stamp and ended before the save read what the node holds, if the stamp is still its own |
| TornUpdates.PassingIsSeenAlike | src/backend/SaveStatementBuilder.ts:265-350 | what the change was given is what a load would now give it |
| EditsComeBack.EditComesBack | src/manager/StatelessGraphObjectManager.ts:887-927 | after that step a load gives each field what the change gave it, a null one as absent, each prefixed bag exactly its entries, and a flat bag its entries over those the node held |
| EditsComeBack.LabelsComeBack | src/backend/SaveStatementBuilder.ts:543-588 | and the labels field reads what the change gave it: a closed one exactly, an open one with what others labelled the node besides; labels the field does not read are as they were |
| TornUpdates.StampAloneLosesTornUpdates | src/backend/CypherGrammar.ts:52-59 | a run in which the stamp alone does not give it: a load reads a count before another write and the stamp after, and its save loses a count; with the root compared it is refused |
| TornLoads.UndeclaredFieldsGoUncompared | src/backend/SaveStatementBuilder.ts:286-294 | a field neither initialized, renamed nor loaded is not compared |
| Mapping.AdmittedIsExact | src/model/ModelRegistry.ts:503-526 | two bags pass the check of namespaces if and only if no property name lies in both |
| MappingRules.AdmittedAreApart | src/model/ModelRegistry.ts:503-526 | a class's bags are admitted if and only if one at most is flat and no property name lies in two prefixed ones |
| RoundTrip.FieldsComeBack | src/mapper/GraphObjectMapper.ts:190-225 | every field saved is loaded back equal, packed and Set fields included; a null one comes back absent under CLEAR and as the node held it under IGNORE |
| RoundTrip.OwnNameIsLoaded | src/mapper/GraphObjectMapper.ts:25-37 | a field the class declares in any way, under a name that is no other's, is loaded from that name, and no flat bag takes it |
| RoundTrip.UndeclaredIsFlat | src/mapper/GraphObjectMapper.ts:143-171 | a property no field declares, not in a prefixed bag's namespace nor forbidden nor reserved, goes to the flat bag |
| MappingRules.WrittenAre | src/backend/SaveStatementBuilder.ts:749-771 | a save writes the property of each field but the stamp, the transient ones, the bags and the labels, a null one under CLEAR alone |
| MappingRules.ReadAre | src/mapper/GraphObjectMapper.ts:204-219 | a property is loaded into the field renamed to it, or of its name and not renamed, and never where it is reserved, or the field forbidden or transient |
| MappingRules.PackedIsText | src/backend/SaveStatementBuilder.ts:773-781 | a packed value is stored as text, a set that is not packed as the list of its items |
| MappingRules.AbsentIsAsInitialized | src/mapper/GraphObjectMapper.ts:227-246 | a field the node holds nothing for has its initializer, or the empty list or Set it is declared with, or none |
| MappingRules.GivenAre | src/backend/SaveStatementBuilder.ts:812-839 | what a bag is given to store is each entry of the object's field that holds a value |
| MappingRules.RefusedUnlessItComesBack | src/backend/SaveStatementBuilder.ts:842-873 | an entry of a flat bag is refused exactly where a load would not give it back to the bag, or a field of the object is stored under its name |
| MappingRules.TransientIsDropped | src/mapper/GraphObjectMapper.ts:25-37 | a property under a transient field's name goes to no bag and no field |
| RoundTrip.BagsComeBack | src/mapper/GraphObjectMapper.ts:143-171 | a bag comes back as what the object held over what the node held and the save left |
| RoundTrip.ClearedBagsComeBackExactly | src/backend/SaveStatementBuilder.ts:812-839 | a prefixed bag saved under CLEAR with the held keys comes back exactly |
| RoundTrip.EntriesStayTheirOwn | src/backend/SaveStatementBuilder.ts:842-873 | no entry of a bag is written under a name a field of the object is stored under, nor under another bag's |
| MapperLoops.PropsOf | src/backend/SaveStatementBuilder.ts:749-771 | the loop over the fields gives the properties the model says, skipped fields left out and renamed ones renamed |
| MapperLoops.Enter | src/backend/SaveStatementBuilder.ts:820-831 | the loop over a bag's entries gives each under its namespace, or refuses when a flat bag does not own one |
| MapperLoops.ClearHeld | src/backend/SaveStatementBuilder.ts:832-836 | the held keys of a bag that it no longer has are cleared, and no other |
| MapperLoops.BagEntries | src/backend/SaveStatementBuilder.ts:812-839 | the loop over the bags gives what the model says is written, or refuses exactly when an entry is not its bag's |
| MapperLoops.TakeBags | src/mapper/GraphObjectMapper.ts:143-171 | the loop that splits a node's properties gives each bag its entries and leaves the fields the rest, forbidden keys dropped |
| MapperLoops.ReadFields | src/mapper/GraphObjectMapper.ts:204-219 | the loop over the rest gives each known field its value, unpacked where it is packed |
| MapperLoops.Properties | src/mapper/GraphObjectMapper.ts:190-225 | the whole load gives every field and every bag what the model says is loaded |
| OrphanWalk.DistinctIs | src/backend/CypherBackend.ts:148-150 | the reduce leaves each target once and the root not at all |
| OrphanWalk.StepsFinish | src/backend/CypherBackend.ts:153-155 | as many steps as there are targets are enough for the frontier walk, each of which reads holders among the newly kept alone |
| OrphanWalk.KeptIsWhatMustStay | src/backend/CypherBackend.ts:138-155 | a target is kept if and only if a chain of holders leads to it from one that something outside the cascade refers to |
| OrphanWalk.KeptIsLeast | src/backend/CypherBackend.ts:138-155 | the kept nodes are the least set with those referred to from outside that is closed under being held by a kept node |
| OrphanWalk.OrphansAre | src/backend/CypherBackend.ts:156 | the orphans are the targets but the root and what is kept |
| OrphanWalk.OrphansAreUnheld | src/backend/CypherBackend.ts:138-161 | told of the graph alone: a target other than the root is an orphan if and only if no chain of followed relationships among the targets leads to it from one related to a node that is neither the root nor given |
| OrphanWalk.RelatedToTheRootAlone | src/backend/CypherBackend.ts:150-153 | a target related to the root alone is an orphan |
| OrphanWalk.OrphansHangOnNothing | src/backend/CypherBackend.ts:138-161 | over the graph and what the cascade of a view follows: each orphan is one the cascade takes, related to the root and to what it takes alone, and whatever holds it over a followed relationship is the root or an orphan |
| Cascades.StepTakesOne | src/backend/CascadeTargets.ts:96 | each step down a cyclic view model takes one from the sum over its relationships of maxDepth less their occurrences on the path, which ends the load, the cascade and the save |
| Cascades.AllVisitsAre | src/backend/CascadeTargets.ts:88-119 | the recursion meets exactly the ways down writable relationships within every maxDepth, with the pattern that spells each way, and exactly the ways one step too far into a view's own class |
| Cascades.WayIs | src/backend/CascadeTargets.ts:88-119 | a way is one if and only if each of its relationships is of the view it has come to, is declared writable, reaches over one hop, and has been taken fewer times than its maxDepth |
| Cascades.WayBeyondIs | src/backend/CascadeTargets.ts:96-107 | a way one step too far is one if and only if the way before the last step is a way and the last is a writable relationship of its view, taken as often as its maxDepth allows, into that view itself |
| Cascades.FitsIs | src/backend/ViewProjector.ts:101-124 | a pattern fits stored relationships if and only if each, at its place, is of the step's type and direction, and leads to a node of its labels that meets its view's requirements |
| Cascades.PathsAreWays | src/backend/ViewProjector.ts:101-137 | the paths down a loaded view through what a save writes are those ways, taken over relationships that fit each step's labels and requirements, each the first its field matches where the field is of one node |
| CascadeLoads.CascadeTakesWhatLoadTakes | src/backend/CascadeTargets.ts:46-55 | whatever the engine lists first, the flat list holds every node that ends a writable path of the load on which no stored relationship is taken twice, and no other where no field of one node on the way has two matches |
| CascadeLoads.LoadsAllIffOnlyMatches | src/backend/ViewProjector.ts:124-136 | every load has a path for each way the cascade takes, whatever is listed first, if and only if no field of one node on such a way has two matches |
| CascadeLoads.TargetsAreLoadedInSomeOrder | src/backend/CascadeTargets.ts:122-136 | the flat list holds a node if and only if some order of matches an engine may list in loads it |
| CascadeLoads.OneOfTwoIsLoaded | src/backend/ViewProjector.ts:136 | two nodes a field of one matches: the cascade takes both and no load holds both |
| CascadeCertain.CertainIffAlwaysLoaded | src/backend/ViewProjector.ts:101-137 | a node is in every load, whatever is listed first, if and only if a load certainly comes to it: over some match of a list, over every match of a field of one node |
| CascadeCertain.SameNodesIffCertain | src/backend/CascadeTargets.ts:46-55 | the flat list holds the nodes a load holds and no others, whatever is listed first, if and only if a load certainly comes to each node of the list |
| CascadeCertain.TwiceIsCertain | src/backend/ViewProjector.ts:136 | two relationships to one node: a field of one has two matches, and every load holds the node all the same |
| Cascades.SaveGoesTheSameWays | src/backend/SaveStatementBuilder.ts:419-430 | the parts a save writes are nested along exactly the ways the cascade follows |
| CascadeLists.CascadeTargets.View | src/backend/CascadeTargets.ts:88-119 | the builder's recursion gives the lists of its visits and notes each in followed, beyond, beyondViews and views |
| CascadeLists.CascadeTargets.Relationship | src/backend/CascadeTargets.ts:89-117 | one relationship of it: read-only left, too deep noted, else followed and gone below |
| CascadeLists.CascadeTargets.Cascade | src/backend/CascadeTargets.ts:75-86 | the whole cascade: targets, checks with the lists of their views, and what nodes are held by |
| CascadeLists.CascadeTargets.FillWithin | src/backend/CascadeTargets.ts:77 | each check is given the lists of the roots of its own view |
| CascadeLists.OnceHoldsEach | src/backend/CascadeTargets.ts:78-80 | each type and direction followed is among the holders once |
| CascadeLists.ChecksAre | src/backend/CascadeTargets.ts:96-107 | the checks are those of a view's relationships into its own class, one level below their maxDepth |
| CascadeLoads.ListHoldsWhatLoadTakes | src/backend/CascadeTargets.ts:46-55 | the same of the list the builder gives |
| CascadeDepth.ChecksMeanClosed | src/backend/CypherBackend.ts:165-185 | with every check at 0, the nodes taken of a view are closed under its relationship to its own class if and only if the relationships a way would take a second time lead to such nodes |
| CascadeDepth.ChecksMeanNothingLeft | src/backend/CascadeTargets.ts:35-45 | with every check at 0 nothing of the view is left below, where each relationship of that type the cascade follows leads into the view, or out of it where taken the other way |
| CascadeDepth.NothingIsLeftAtAnyDepth | src/backend/CypherBackend.ts:165-185 | and so along a walk of any length: bounded unrolling is unbounded reachability |
| CascadeReuse.ChecksAloneAreNotEnough | src/backend/CypherBackend.ts:165-185 | a model and a graph for which every check counts 0, a node is taken as one of the view, and a part of a part of it is no target at all |
| Keyset.RefusedUnlessItFits | src/dsl/QueryRenderer.ts:134-163 | a cursor is refused unless it has a value of each term of an order by the root's properties, in turn, without skip |
| Keyset.RenderedSelectsWhatIsAfter | src/dsl/QueryRenderer.ts:134-182 | the predicate an accepted cursor is rendered as selects a row if and only if it comes after the cursor, and with the null guard only if it holds every key |
| Keyset.SelectsWhatIsAfter | src/dsl/QueryRenderer.ts:164-181 | the leading bound with the branches selects a row if and only if it comes after the cursor at the first key that differs, and with the null guard only if it holds every key |
| Keyset.SelectedIsFollowing | src/dsl/QueryRenderer.ts:129-133 | on comparable rows the predicate is the lexicographic order in mixed directions, defined on its own |
| Keyset.PagesAreTheWholeList | src/dsl/QueryRenderer.ts:134-182 | with a last key no two rows share, the pages of any limit of at least 1 read to the end hold every row once, in the order |
| LowerCopies.CopiesAreSet | src/model/LowerCopies.ts:38-52 | the clause puts each copy in step with its property and touches nothing else |
| LowerCopies.WriteKeepsStep | src/backend/SaveStatementBuilder.ts:208-217 | a save through a model that keeps the copy puts no node out of step |
| LowerCopies.SavedHolds | src/backend/SaveStatementBuilder.ts:208-217 | a save leaves each property that is no copy as it sets it, without what it clears, and all else as it was |
| LowerCopies.CopyIsFound | src/dsl/LowerCopyLookups.ts:32-48 | the rewritten path leads to the copy of the property the original path led to |
| LowerCopies.RootPropertyIs | src/dsl/QueryRenderer.ts:460-473 | a path leads to a property of the root if and only if each field but the last leads to the same node, and the last to a property of it |
| LowerCopies.ComparisonsAreRewritten | src/dsl/LowerCopyLookups.ts:23-50 | exactly the comparisons that ignore case of a property of the root whose copy is filled in, with a text that is not empty, are made comparisons of the copy, of the same kind |
| LowerCopies.ComparisonsSay | src/dsl/QueryRenderer.ts:382 | a comparison is of a whole text, or of a part standing somewhere in it, lowercased or as it is, and unknown of a node without the text |
| LowerCopies.KeepsANode | src/dsl/QueryRenderer.ts:225-245 | an AND keeps a node all of its conditions keep, an OR one some keeps, a NOT one of which some condition is false |
| LowerCopies.RewriteKeepsTheAnswer | src/dsl/LowerCopyLookups.ts:23-50 | on a node in step the rewritten condition has the same three-valued result in any nesting of AND, OR and NOT |
| LowerCopies.WhereIsTheCondition | src/dsl/QueryRenderer.ts:120-127 | the condition written out without its outer parentheses has the same result |
| LowerCopies.ConjunctsAreNoAnds | src/dsl/QueryRenderer.ts:120-127 | and no part of it is an AND in parentheses |
| LowerCopyCatalogs.FilledIsInStep | src/schema/LowerCopyCatalog.ts:54-64 | one batch puts the chosen nodes in step and leaves every other copy |
| LowerCopyCatalogs.Database.Fill | src/schema/LowerCopyCatalog.ts:54-64 | it writes no more than the batch, and fewer only when every node of the label is then in step, whatever was saved before it |
| LowerCopyCatalogs.LowerCopyCatalog.FillOne | src/schema/LowerCopyCatalog.ts:207-224 | the do-while over batches ends, with saves between any two of them, and then the copy is recorded |
| LowerCopyCatalogs.LowerCopyCatalog.FillIn | src/schema/LowerCopyCatalog.ts:202-225 | after it every node of the label has every copy asked for, and those the store did not record yet, or with `again` all, are filled in and recorded; it fails if and only if the record is read and cannot be, and then changes nothing |
| LowerCopyCatalogs.LowerCopyCatalog.FilledIn | src/schema/LowerCopyCatalog.ts:174-186 | a copy is said to be filled in if and only if this manager recorded it, the reading gone by holds it, or, where nothing was read before, the store records it and can be read; never on a label one of whose nodes lacks it, however old the reading |
| LowerCopyCatalogs.LowerCopyCatalog.FilledAmong | src/schema/LowerCopyCatalog.ts:189-200 | of the properties exactly those so said of on one of the labels, each in step there |
| LowerCopyCatalogs.LowerCopyCatalog.EndReading | src/schema/LowerCopyCatalog.ts:234-257 | a background read that succeeds is what is gone by from then on, one that fails leaves what was read last, and either way the catalog stays true |
| LowerCopyCatalogs.LookupIsTheSame | src/dsl/LowerCopyLookups.ts:12-22 | a query rewritten for the copies the catalog knows finds the same nodes |
| LabelSearch.SerializedLabel | src/backend/oracle/OracleGraph.ts:284-295 | the loop writes a label as JSON_SERIALIZE does |
| LabelSearch.EscapesAreRead | src/backend/oracle/OracleGraph.ts:267-294 | what each character is written as reads, as JSON reads strings (section 7 of RFC 8259), as that character; and which are written with a letter, and which by their code |
| LabelSearch.EscapesAreACode | src/backend/oracle/OracleGraph.ts:267-294 | no character is written as the start of what another is, so the writing can be read back |
| LabelSearch.SearchedIs | src/backend/oracle/OracleGraph.ts:261-265 | the trims take one bracket at each end and the needle's commas stand between labels; for no labels `,,"` is left |
| LabelSearch.SearchIsExact | src/backend/oracle/OracleGraph.ts:249-265 | the needle occurs in the text if and only if the label is one of the list, whatever characters they hold, the label `,` and the empty list included |
| PathSort.BeforeIsNotAfter | src/backend/ViewProjector.ts:299-304 | the three-valued test of the two filters is never undecided and is the order of keys |
| PathSort.SortIsStable | src/backend/ViewProjector.ts:296-309 | the reduce gives a sorted, stable permutation: texts before numbers ascending and after them descending, no key last both ways |
| PathSort.DistinctKeepsFirst | src/backend/ViewProjector.ts:166-170 | the pass after it lists each node once, in the order of first places |
| PathSort.SingleIsOfFirstKey | src/backend/ViewProjector.ts:143-172 | a path of one node holds the first reached of those with a first key |
| Walks.Reached | src/backend/oracle/OracleViews.ts:49-66 | the nested loops give a branch for each length, each step joined to the one before and each pair told apart |
| Walks.RowsAreTrails | src/backend/oracle/OracleViews.ts:42-66 | the rows of a branch are exactly the walks of its length that take no relationship twice |
| Walks.OneRowUnlessLoops | src/backend/sql/SqlViews.ts:139-146 | there is one row for each walk if and only if the relationship is directed or the table holds no loop of its type |
| Walks.SameAsCypher | src/backend/ViewProjector.ts:96-99 | the rows reach the nodes the Cypher form of 1 to depth hops reaches |
| Walks.ReachesWithinDepth | src/backend/oracle/OracleViews.ts:42-66 | and of the nodes other than the start exactly those some walk, of any kind, leads to within the depth |
| Registry.ModelRegistry.View | src/model/ModelRegistry.ts:116-142 | an outermost call succeeds if and only if the class is in the largest set of classes that are in order and refer to one another alone; then everything cached is; refused, it leaves both caches as they were; it ends on cyclic models |
| Registry.ModelRegistry.Build | src/model/ModelRegistry.ts:123-129 | a view is cached before its relationships are resolved and valid once they are |
| Registry.ModelRegistry.RelationshipFragment | src/model/ModelRegistry.ts:105-114 | a relationship fragment is cached once its target is, and logged while a view is built |
| Registry.ModelRegistry.Related | src/model/ModelRegistry.ts:401-414 | what a field holds is resolved by its kind, and refused when it has none |
| Registry.ModelRegistry.CheckRelationships | src/model/ModelRegistry.ts:396-399 | it resolves every relationship and path, or refuses |
| Registry.ModelRegistry.RollBack | src/model/ModelRegistry.ts:130-135 | taking out what the log names restores the two caches, entries logged twice included |
| Registry.BuildableIsLargest | src/model/ModelRegistry.ts:226-251 | the classes of some closed set in order are one such set, and every other is within it |
| RegistryFaults.OkIsFaultless | src/model/ModelRegistry.ts:226-251 | a class is in order if and only if none of the faults the source throws for is its own: no kind, its own declaration, a target or root or field or path that cannot be told or is of the wrong kind, relationship fragments deeper than 1 |
| RegistryFaults.BuildableUnlessItLeadsToAFault | src/model/ModelRegistry.ts:116-142 | and can be built if and only if no chain of references leads from it to a class with a fault, on cyclic models too |
| Batches.SortIsStable | src/manager/StatelessGraphObjectManager.ts:171-185 | the sort is a stable permutation in the order of the texts |
| Batches.LockOrderedIsOrdered | src/manager/StatelessGraphObjectManager.ts:171-185 | the rows of the ordered groups, one after another, are in the order of class name and then id |
| Batches.Grouped | src/manager/StatelessGraphObjectManager.ts:658-674 | the loop puts each fragment with its class and the others apart, keeping every one, those of one class and id in order |
| Batches.Chunked | src/manager/StatelessGraphObjectManager.ts:188-208 | the nested loops keep every row once, in place and with its class, in chunks of 1 to size rows, each ended only where the part that comes next does not fit |
| Batches.SaveAll | src/manager/StatelessGraphObjectManager.ts:652-690 | the batch as statements: every object once, no chunk too large, rows in the order of class name and id across chunks, the last of two objects of one class and id still last |
| BatchLocks.NoDeadlockIffOneOrder | src/manager/StatelessGraphObjectManager.ts:635-638 | saveAlls never come to wait for one another in a circle, however many run at once and however far they have come, and all can always finish, if and only if no node is merged on as a row under two class names and no class has objects that are statements of their own |
| BatchLocks.BaggedFragmentsDeadlock | src/manager/StatelessGraphObjectManager.ts:658-690 | objects 1 and 2 of a class with a property bag, given in two orders: the two saveAlls come to wait for each other |
| BatchLocks.EmployeesAndPersonsDeadlock | src/backend/FragmentBatchStatement.ts:52-57 | a class and one below it: two batches in their order that come to wait for each other |
| BatchOrder.KeepsOrderIffApart | src/manager/StatelessGraphObjectManager.ts:652-690 | every saveAll writes the objects of each node in the order given, the last still last, if and only if no node is that of rows of two class names and none is written both by a row and by a statement of its own |
| BatchLocks.SomeCanGoOn | src/backend/FragmentBatchStatement.ts:40-53 | while one is unfinished, one can take its next lock, where each node has one place in the order |
| BatchLocks.AllFinish | src/manager/StatelessGraphObjectManager.ts:967-986 | where the models are so, all can be run to their ends from wherever they have come |
| BatchLocks.OpposedDeadlock | src/manager/StatelessGraphObjectManager.ts:171-175 | two batches each of which first writes a node the other writes later can come to wait for each other, whatever else they write |
| Contention.FindCause | src/manager/Contention.ts:17-25 | the loop finds a matching failure among the first ten causes, if there is one |
| Contention.Runs.WhenNotContended | src/manager/Contention.ts:115-135 | the attempt loop is the run the function describes, marks included |
| Contention.OneRun | src/manager/Contention.ts:115-135 | one run executes its statement until it succeeds, is refused otherwise, or has been turned away six times, throws its first failure, and marks it, as run again too where it ran more than once |
| Contention.NestedRunsDoNotMultiply | src/manager/Contention.ts:68-82 | however many runs there are inside one another, the statement is executed as often as by one alone, whatever it throws |
| Contention.AlwaysSixTimes | src/manager/Contention.ts:107-114 | a statement always turned away is executed exactly six times |
| Contention.MultipliesExactly | src/manager/Contention.ts:76-105 | whatever a statement throws of a kind, nested runs execute it as often as one, if and only if, of objects, each failure is wrapped in fewer errors than a run looks through, and, of bare values, there is but one run |
| Contention.AlwaysRun | src/manager/Contention.ts:115-135 | how often nested runs execute a statement that is always turned away, whichever of them cannot see what the one inside threw |
| Contention.UnseenRunsMultiply | src/manager/Contention.ts:97-105 | where none can, each run around multiplies by six |

## Left out

- Vector and full-text search, raw Cypher and SQL, regular expressions and the Cypher reader: they lean on engines or on a grammar.
- Connections, drivers, transactions across calls, logging and schema statements: input and output.
- Engine lock managers: each statement is one atomic step, with the root's lock held from its check to its write.
- The stamps of related and batch nodes that are read before their locks: what objects are handed back is proved as if they were read with the write.
- Stored stamps that are not two tokens: they count as none, and the model has them as none.
- The randomness of tokens: the stamps a statement offers are ones the store was never given.
- Values no comparison decides, such as lists that hold null, temporal values and stored undefined: values are numbers, texts and lists of them.
- The text of statements, but for the label needle and the keyset predicate: quoting, aliases, parameter names and hints.
- JSON packing: a pair of functions that undo one another on stored values.
- The `object` kind of an empty collection given to an absent field, and class-transformer's own conversions.
- Depth overrides of a load: the load is compared with the cascade and the save at the declared depths.
- What a view requires of a root: a predicate of the view and the node, whichever it is.
- Identity of cached models: the registry's caches hold classes, so two models built of one class are one.
- Known subtypes of fragments, and the view or fragment a node is loaded as by its labels.
- Conditions across relationships and on nodes: they are left alone by the rewrite, and are opaque to the model.
- A `not` of no conditions is written `NOT ()`, which no engine reads; the model gives it the value of NOT true.
- Oracle's reading of an empty text as null, which the rewrite avoids by leaving comparisons with it alone.
- A thrown null or undefined, and causes that lead back to themselves: a failure's causes are a finite chain.
- The pauses between attempts, and what code counts as turned away: a predicate of the failure.
- Batches inside a caller's transaction, where other statements take locks in an order of their own, and on FalkorDB, where each statement is a transaction.
- Nodes that share the id of a row and its labels: a row is merged on one node.
- Failures of a save other than contention and staleness: they are thrown.
- Ids of one class that are distinct but read alike as text, and two classes of one name: a row's place is its class name and the text of its id.
- The record an open labels field keeps of what it wrote (`__drivine.labels.*`): no test of a change looks at it, and the labels it lets a save take away are as they were read.
- UpdateLoop.Store.Update: its change is a function of the root's properties; the lists of a view it replaces or grows are not part of it.
- Updates.UpdatesRefineAtomic: it speaks of updates of fragments that loaded a stamp; without one see Updates.UnstampedUpdateLoses, and the lists of a view are not part of it.
- TornUpdates.TornUpdateIsAtomic: of a view it speaks of the root, as the check does.
- CascadeDepth.ChecksMeanNothingLeft: the condition on the models is sufficient; whether it is needed depends on what other ways reach the nodes, and CascadeDepth.ChecksMeanClosed is exact for each graph.
- RoundTrip.FieldsComeBack: a Set comes back as the set of its items, the order it had being no part of it.
- Walks.OneRowUnlessLoops: the table of relationships is a list of rows, as a query without an order may give them in any.
