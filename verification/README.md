# stack-deploy in Dafny

stack-deploy deploys stacks of applications on Mesos and Marathon. This project models the
parts of it that are hard to get right and proves what they guarantee:

- **The stack scheduler** (`Scheduler*.dfy`, `Deployment.dfy`). `Stack.Run` launches an
  application as a goroutine once its dependencies are running and consumes the results from a
  buffered channel. The protocol is a transition system: every iteration order, completion
  order, application failure and storage failure is a choice of the action sequence, and the
  theorems hold for all sequences. The class `Deployment` is the code itself; its methods take
  only steps of that system. Application IDs need not be unique unless a theorem says so.
- **Run-once tasks and placement** (`Constraints.dfy`, `RunOnce.dfy`, `RunOnceObjects.dfy`,
  `AllInstances.dfy`). Staging, resource offers and status updates drive contexts that place
  tasks under LIKE, UNLIKE, UNIQUE, CLUSTER and GROUP_BY. Contexts and runner exist as values,
  for theorems over all event sequences, and as objects whose methods are proved to take those
  steps.
- **The stack repository and inheritance** (`Repository.dfy`, `Inheritance.dfy`, `Bracketings.dfy`). Stacks are
  stored, removed and fetched over parent links, with a database that may fail at any statement;
  a query whose rows the code iterates over may also stop early without the code noticing.
- **Variables** (`Variables.dfy`, `Substitution.dfy`). Three tiers of variables, their
  storage in the same database, and `${key}` replacement in any map order.

Regular expressions are the sets of strings that they match, `strconv.Atoi` and the regular
expression compiler are parameters of parsing, UUIDs are arguments and numbers such as CPU shares
are reals. What the outside world answers is a parameter too: which application's run succeeds,
which save of the state, and which statement of the database (`Faults.dfy`), by its number. Orders
that the code does not fix are chosen nondeterministically.

## Results worth knowing

- The documentation promises that a run blocks until the stack deploys or an error occurs. The
  code can also wait for ever. `DeploysIffNobodyWaits` says exactly when, from what can be seen
  before the run: some applications wait for each other or for something outside the stack, the
  stack is empty, or the skip patterns match more often than there are applications. Nothing in
  the code looks for the first; `TwoCycleHangs` shows it for two applications that depend on each other.
- A run returns an error exactly when an application was reported as failed, a state could not be
  saved, or a malformed pattern is reached before the earlier ones fill the channel (`FailedIff`,
  `Deploy`), and then at once.
- GROUP_BY balances a list exactly while its length is at most `groups * (2^31 - 1)`; beyond
  that the minimum, which starts at 2^31-1, is misread as zero and one group too many opens.
- Merging stacks is associative exactly when no stack removes a scheduler key that the first of
  the three has set (for applications in all three): merged with the middle stack first, the
  removal is lost. `BracketingsAgreeIff` is the law for chains of any length: all bracketings
  agree exactly when no scheduler key is removed by its last mention while an earlier value
  stands and another definition of the application lies between the two.
- `hostname UNIQUE` can place two tasks on one host when the host name is empty or when the
  first task is in TASK_STARTING, because such tasks are left out of the comparison. `SlipsIff`
  gives the guard of the launches that break a rule, for every kind of rule, and
  `PlacementIffInRuns` shows that in every run a rule is kept exactly when no launch met it.
- The query for the children of a stack that is removed is read without looking at its error. If
  it stops early, forced and unforced removal can delete a stack and leave a child behind
  (`CutQueryLeavesOrphan`); a removal keeps the forest exactly when no row was deleted after a
  query that had left out a child. The orphan then lets in a cycle of parents
  (`OrphanLetsCycleIn`). A fetch ends exactly when neither the stack nor an ancestor of it is on
  a cycle (`FetchEndsIff`).
- Forced removal ends exactly when the stack is on no cycle of parent links (`RemovalEndsIff`). On
  a cycle the recursion comes back to the same stack before any stack of the cycle is deleted
  (`CycleComesBack`); the in-memory storage, which looks for no parent, accepts a stack that is
  its own (`SelfParentNeverFinishes`). Parents that are not stored do removal no harm.
- Reloaded variables are silently incomplete exactly when the read stopped early
  (`WholeIffAllRead`). After a save that broke off, a key can come back with a less specific
  value (`LessSpecificComesBack`); `SurvivesBreakIff` says which lookups survive.
- Replacing variables one after the other does not depend on the map's order exactly when no value
  can open the placeholder of another variable that is replaced, in full or cut off by its end
  (`OrderIndependentIff`). The command lists are resolved once per variable; such passes can be
  repeated without effect exactly when values do not open their own placeholders either
  (`SettlesIff`).
- A lost or failed task of an earlier staging fails the application that was staged under its ID
  since (`StaleUpdateFails`); `FailureIsTrueIff` tells the two cases apart.

## Model

| member | source | states |
|---|---|---|
| `SchedulerInvariants.ReachableInv` | framework/stack.go:123-171 | In every state of every run the status map, the channel, the goroutines and the history agree; marking and launch passes are complete; every status stands for one match or one launch |
| `SchedulerTheorems.LaunchSafety` | framework/stack.go:197-210 | Over a whole run each ID is launched at most once and never when skipped, and at each launch every dependency had been skipped or reported successful before |
| `SchedulerTheorems.DeployedMeansAllSucceeded` | framework/stack.go:146-165 | With unique IDs, a nil return means that every application that no pattern skips has reported success itself |
| `SchedulerTheorems.ChannelSafety` | framework/stack.go:129-165 | When no application matches two skip patterns, sends never exceed the capacity, no sender ever blocks, also after an error return, and the channel is closed only when nobody will send |
| `SchedulerTheorems.AtMostOneMatchFits` | framework/stack.go:177-195 | That hypothesis implies that the patterns match at most as often as there are applications |
| `SchedulerTheorems.MarkingBlocksIff` | framework/stack.go:177-195 | A failure-free run that cannot go on is stuck while marking exactly when the skip patterns match more often than there are applications |
| `SchedulerTheorems.DeploysLeastSet` | framework/stack.go:144-168 | Every failure-free run that cannot go on, with patterns that match at most as often as there are applications, has running exactly the least set of IDs that holds the skipped ones and each application whose dependencies it holds |
| `SchedulerTheorems.ReturnsIffAllRunning` | framework/stack.go:162-170 | Such a run returns nil exactly when the stack is not empty and that set is all of it; otherwise it waits for ever |
| `SchedulerTheorems.EmptyStackNeverReturns` | framework/stack.go:146-170 | The run of an empty stack never returns nil |
| `SchedulerTheorems.OrderIndependence` | framework/stack.go:144-168 | Two such runs whose patterns fit in the channel, whatever their iteration and completion orders, end with the same applications running and the same outcome |
| `SchedulerOutcomes.FailedIff` | framework/stack.go:140-161 | In every run a failed report, a failed save or a malformed pattern ends the run with an error at once, and nothing else does; nothing is launched while a pattern is malformed |
| `SchedulerOutcomes.EndFailedIff` | framework/stack.go:140-171 | A run that is over, waits or is blocked has failed exactly when a report was a failure, a save failed or a malformed pattern came before the channel could be full |
| `SchedulerOutcomes.StatusesInOrder` | framework/stack.go:129-219 | In every run the statuses consumed followed by those in the channel are those of the skipped applications followed by the goroutines' results in the order in which they ended: none is lost, repeated, overtaken or changed |
| `SchedulerProgress.RunsAreBounded` | framework/stack.go:140-168 | Every run of every stack, failing or not, takes at most a fixed number of steps computed from the stack and the patterns |
| `SchedulerProgress.NeverStarves` | framework/stack.go:146-168 | While the run of a non-empty acyclic stack waits and nothing has failed, something is in flight or queued |
| `SchedulerProgress.NeverStuck` | framework/stack.go:146-168 | From every point of such a run, with patterns that match at most as often as there are applications, a step without failure is possible until nil is returned |
| `SchedulerProgress.AcyclicStackDeploys` | framework/stack.go:146-168 | Every maximal run without failures of a non-empty acyclic stack whose patterns fit returns nil with all applications running, after consuming at most one status per application if none matches two patterns |
| `SchedulerProgress.EveryRunCompletes` | framework/stack.go:140-171 | Every run without failures can be continued without failures until it cannot go on, so what is proved of such runs is about runs that exist |
| `SchedulerProgress.DeploysIffNobodyWaits` | framework/stack.go:110-168 | A failure-free run of any stack returns nil exactly when the stack is not empty, the patterns match at most as often as there are applications, and there is no set of applications, none skipped, each depending on a member of the set or on something outside the stack |
| `SchedulerProgress.TwoCycleHangs` | framework/stack.go:110-121 | Two applications that depend on each other, which validation does not look for: a run that completes waits for ever with nothing launched |
| `StackDeployment.Deployment.IsDependencySatisfied` | framework/application.go:111-121 | The loop answers whether all dependencies are running |
| `StackDeployment.Deployment.AllApplicationsRunning` | framework/stack.go:221-231 | The loop answers whether all applications are running |
| `StackDeployment.Deployment.VisitApplication` | framework/stack.go:199-208 | One iteration is one step of the protocol and stages the application exactly when its ID is unknown and its dependencies run |
| `StackDeployment.Deployment.RunApplications` | framework/stack.go:197-210 | A pass in any order, while goroutines end, adds exactly the IDs that were ready at its start, also when applications share an ID |
| `StackDeployment.Deployment.MarkMatching` | framework/stack.go:185-191 | Marks exactly the IDs in the pattern's language as running; blocks only when the patterns match more often than there are applications |
| `StackDeployment.Deployment.MarkSkippedApps` | framework/stack.go:177-195 | Afterwards exactly the IDs that some pattern matches are in the status map, as running; a malformed pattern is an error, and a full channel blocks |
| `StackDeployment.Deployment.FinishOne` | framework/stack.go:212-219 | One of the goroutines in flight ends, leaves the set and sends exactly its application's result |
| `StackDeployment.Deployment.ReceiveOne` | framework/stack.go:146-167 | Consumes the oldest status: a failure or a state that cannot be saved returns an error; otherwise the application is running, and nil is returned exactly when all are, else launching goes on |
| `StackDeployment.Deployment.Await` | framework/stack.go:146 | Waits for a status while goroutines end; none comes only when the channel is empty and nothing is in flight |
| `StackDeployment.Deployment.Validate` | framework/stack.go:110-121 | Answers whether every application is valid, in any order |
| `StackDeployment.Deployment.Run` | framework/stack.go:123-171 | An invalid application or no answer from Marathon gives an error and changes nothing; otherwise exactly three stack variables are set and the run ends as `Deploy` says |
| `StackDeployment.Deployment.Deploy` | framework/stack.go:140-171 | Ends for every stack: with an error exactly for one of the three reasons, with nil when all are running, or in a state from which it would wait for ever; when all patterns, applications and saves are good it returns nil exactly when the stack can deploy |
| `StackDeployment.NilIffNobodyWaits` | framework/stack.go:123-171 | Without failures the code returns nil exactly when the stack is not empty, the patterns match at most as often as there are applications, and no applications wait for each other or for something outside the stack |
| `Constraints.UniqueMatches` | constraints/constraints.go:159-167 | The scan answers whether the value is new |
| `Constraints.CountValues` | constraints/constraints.go:210-213 | The counting loop computes the true multiplicity of every value |
| `Constraints.MinimumCount` | constraints/constraints.go:219-227 | The minimum loop computes the true minimum, and zero exactly when no count is below 2^31-1 |
| `Constraints.GroupByMatches` | constraints/constraints.go:209-231 | Accepts exactly a new value while groups are missing, else, on lists shorter than 2^31-1, exactly a least used one |
| `Constraints.LeastUsedAccepted` | constraints/constraints.go:209-231 | That is what the constraint means, and the minimum is misread only on longer lists |
| `Constraints.CheckConstraint` | constraints/constraints.go:27-29 | Dispatches to the five kinds of constraint |
| `Constraints.GroupByBalance` | constraints/constraints.go:209-231 | A list built from accepted values has min(k, d) distinct values, each used floor(k/d) or ceil(k/d) times, exactly when k is at most d * (2^31 - 1), with d = max(1, groups) |
| `Constraints.GroupByMeansBalanced` | constraints/constraints.go:209-231 | Up to that length the lists that GROUP_BY builds are exactly those all of whose prefixes are balanced |
| `Constraints.UniqueMeansDistinct` | constraints/constraints.go:159-167 | Lists that UNIQUE builds are exactly the lists without repetition |
| `Constraints.ClusterMeansSame` | constraints/constraints.go:183-189 | Lists that CLUSTER builds are exactly those with one value, the named one if there is a name |
| `Constraints.LikeMeansAll` | constraints/constraints.go:120-147 | Lists that LIKE or UNLIKE builds are exactly those whose values all match or all do not |
| `Constraints.ParsedMeaning` | constraints/constraints.go:31-66 | Which value lists the constraint parsed from each keyword builds, with and without an argument |
| `Constraints.ParsesIff` | constraints/constraints.go:31-66 | An entry parses exactly when its keyword is known and its argument is there and readable where one is needed |
| `Constraints.ParseConstraints` | constraints/constraints.go:77-101 | Succeeds exactly when every entry parses; each attribute gets its constraints in order and never an empty list |
| `Constraints.RulesForJoins` | constraints/constraints.go:77-101 | The rules of an attribute are those of its entries, in their order |
| `Constraints.OfferAttributes` | constraints/constraints.go:241-254 | Gives the host name overlaid by the last non-empty text of each attribute |
| `Constraints.LastTextCounts` | constraints/constraints.go:241-254 | The last non-empty text of an attribute is its value |
| `Constraints.NoTextNoValue` | constraints/constraints.go:241-254 | Without one only the host name has a value |
| `TaskIds.RoundTrip` | mesosrunners/run_once_runner.go:96-118 | A printed task ID parses back to its application and host exactly when neither has a pipe |
| `TaskIds.ParseIff` | mesosrunners/run_once_runner.go:96-118 | Any ID parses to what stands before its first and between its first two pipes, and the code panics exactly when these are missing |
| `TaskIds.UuidsTellApart` | mesosrunners/run_once_application_context.go:75-85 | Tasks of one application on one host have different IDs if their UUIDs differ |
| `RunOnceContexts.LaunchKeeps` | mesosrunners/run_once_application_context.go:75-85 | Launching on an accepted offer conserves instances and leaves the context live |
| `RunOnceContexts.AcceptsIff` | mesosrunners/run_once_application_context.go:51-73 | An offer is accepted exactly when an instance is left, all rules are met, and processors and memory suffice |
| `RunOnceContexts.UpdateKeeps` | mesosrunners/run_once_application_context.go:87-110 | An update conserves instances, sends failure exactly on LOST, FAILED and ERROR, sends success exactly when all instances are done, and otherwise leaves the context live |
| `RunOnceContexts.VerdictsIff` | mesosrunners/run_once_application_context.go:87-110 | An update sends failure exactly on LOST, FAILED and ERROR, and success exactly on FINISHED or KILLED when nothing is left and every task is finished or killed |
| `RunOnceContexts.FailureIsTrueIff` | mesosrunners/run_once_application_context.go:87-110 | The context that sends a failure holds a lost or failed task exactly when the update was for one of its own tasks |
| `RunOnceContexts.SetStateHitsFirst` | mesosrunners/run_once_application_context.go:167-176 | An update changes the first task with the ID and nothing when the ID is unknown |
| `RunOncePlacement.PlacementGuarantees` | mesosrunners/run_once_application_context.go:178-211 | What accepted placements mean for the tasks of a context under each kind of rule |
| `RunOncePlacement.SlipsIff` | mesosrunners/run_once_application_context.go:199-211 | A launch that a rule allows breaks it exactly when it meets the guard: for UNIQUE a task with the same value that is overlooked, for CLUSTER an overlooked first task with another value, LIKE and UNLIKE are never broken; for GROUP_BY the guard is that the value would be refused next to all tasks, which needs an overlooked one, and what that means for the groups is in `PlacementIff` and `Constraints.GroupByMeansBalanced` |
| `RunOncePlacement.PlacementIff` | mesosrunners/run_once_application_context.go:178-211 | Over the whole life of a context a rule's promise holds exactly when no launch met the guard |
| `RunOncePlacement.EmptyHostnamesDefeatUnique` | mesosrunners/run_once_application_context.go:199-211 | A concrete context and offer without host name that UNIQUE takes twice |
| `RunOncePlacement.StartingDefeatsUnique` | mesosrunners/run_once_application_context.go:202-208 | A concrete context in which a TASK_STARTING update lets UNIQUE take a host twice |
| `RunOnceRunners.RunOnceConservation` | mesosrunners/run_once_runner.go:39-94 | In every run, for every context: instances left plus tasks is the number staged, at most one verdict is sent, success only when all instances are finished or killed; registered contexts have not reported, are not complete and hold no lost or failed task |
| `RunOnceRunners.RegisteredIsUnfinished` | mesosrunners/run_once_runner.go:79-94 | In every run a registered context has an instance left or a task neither finished nor killed, and no task lost, failed or in error |
| `RunOnceRunners.OneOfferOneTask` | mesosrunners/run_once_runner.go:58-77 | An offer launches one task on one accepting context if there is one, and changes nothing else |
| `RunOnceRunners.LaunchesFit` | mesosrunners/run_once_runner.go:58-77 | In every run each task of each context was launched on an offer of the run with at least its application's processors and memory, and has that offer's attributes |
| `RunOnceRunners.RetiredStayFrozen` | mesosrunners/run_once_runner.go:79-94 | Over any continuation of a run the contexts that had left the runner stay as they were, so none reports again |
| `RunOnceRunners.ContextsAreConserved` | mesosrunners/run_once_runner.go:39-94 | In every run registered and retired contexts are as many as there were stagings with instances |
| `RunOnceRunners.PlacementOverRuns` | mesosrunners/run_once_runner.go:58-77 | In every run with host names and without TASK_STARTING updates every context keeps all its placement rules |
| `RunOnceRunners.PlacementIffInRuns` | mesosrunners/run_once_runner.go:58-94 | In every run, whatever its events, each rule of each context keeps its promise exactly when none of the context's launches met the guard |
| `RunOnceRunners.Routing` | mesosrunners/run_once_runner.go:79-103 | An update for a launched task of a pipe-free application ID never panics, reaches the context registered under that ID and touches no other |
| `RunOnceRunners.StaleUpdateFails` | mesosrunners/run_once_runner.go:79-94 | A run in which an ID is staged again and the lost task of the first staging fails the second context, which has launched nothing |
| `RunOnceObjects.ApplicationContext.OtherTasksAttributes` | mesosrunners/run_once_application_context.go:199-211 | Collects the non-empty values of the tasks that are not starting |
| `RunOnceObjects.ApplicationContext.CheckConstraints` | mesosrunners/run_once_application_context.go:178-197 | Accepts exactly when every rule is met, whatever the order of attributes |
| `RunOnceObjects.ApplicationContext.Matches` | mesosrunners/run_once_application_context.go:51-73 | Accepts exactly when an instance is left, the rules are met and processors and memory suffice; each refusal names the first test that fails |
| `RunOnceObjects.ApplicationContext.LaunchTask` | mesosrunners/run_once_application_context.go:75-85 | Takes the launch step: one instance fewer, and one staging task with the offer's attributes and a fresh ID |
| `RunOnceObjects.ApplicationContext.AllTasksFinished` | mesosrunners/run_once_application_context.go:149-165 | Answers whether nothing is left and every task is finished or killed |
| `RunOnceObjects.ApplicationContext.UpdateTaskState` | mesosrunners/run_once_application_context.go:167-176 | Sets the state of the first task with the ID |
| `RunOnceObjects.ApplicationContext.StatusUpdate` | mesosrunners/run_once_application_context.go:87-110 | Panics without a change on a malformed ID; else sets the state of the first task with the ID and sends failure on LOST, FAILED and ERROR, success when the last task is finished or killed, and otherwise nothing |
| `RunOnceObjects.Runner.StageApplication` | mesosrunners/run_once_runner.go:39-56 | Takes the staging step |
| `RunOnceObjects.Runner.ResourceOffer` | mesosrunners/run_once_runner.go:58-77 | One of the contexts that accept gets the offer; none only when none accepts |
| `RunOnceObjects.Runner.StatusUpdate` | mesosrunners/run_once_runner.go:79-94 | Takes the update step, ignores IDs that are not registered and panics exactly on malformed ones |
| `AllInstances.OtherSlavesAttributes` | framework/application.go:464-474 | Collects the non-empty values of the picked slaves |
| `AllInstances.CheckSlave` | framework/application.go:444-462 | Answers whether the slave has all constrained attributes and meets all constraints |
| `AllInstances.CalculateAllInstances` | framework/application.go:427-442 | Returns the number of slaves picked one by one, or the activated slaves without constraints |
| `AllInstances.OfferShowsValue` | framework/mesos_state.go:111-117 | An offer that lists a slave's attributes shows the value that the slave reports |
| `AllInstances.ChecksAgree` | framework/application.go:444-462 | The slave-side and the offer-side checks give the same answer |
| `AllInstances.AllAgreesWithPlacement` | framework/application.go:427-474 | In every run of the runner that stages the application with the counted instances and offers each slave once in list order, with harmless updates in between, tasks are launched on exactly the slaves that were counted and no instance is left |
| `AllInstances.NoneCountedNoneStaged` | mesosrunners/run_once_runner.go:39-44 | If no slave was counted, nothing is registered or launched in such a run |
| `AllInstances.UniqueCountIsExact` | framework/application.go:427-462 | With UNIQUE on one attribute and stateless rules the count is the number of distinct values among qualifying slaves |
| `AllInstances.UniqueCountIgnoresOrder` | framework/application.go:434-441 | Permuting the slave list does not change that count |
| `Forests.NoCycle` | framework/storage.go:112-120 | A chain of parent links that ends never returns to its start |
| `Forests.DeleteForestIff` | framework/storage.go:241-243 | Deleting one row of a forest keeps the forest exactly when the row has no child |
| `Forests.RemovalEndsIff` | framework/storage.go:372-397 | The recursion of a forced removal ends exactly when the stack is on no cycle of parent links |
| `Forests.CycleComesBack` | framework/storage.go:376-381 | On a cycle the nested calls come back to the stack that they began with, each for a child of the one before |
| `Forests.SelfParentNeverFinishes` | framework/storage.go:307-315 | A stack that is its own parent: the forced removal never ends |
| `Removals.HistoriesKeepForest` | framework/storage.go:167-244 | In every history of stores of non-empty names and removals, each completed or broken off by a fault at any statement, every table is a forest as long as no row is deleted after a query that had left out a child |
| `Forests.EndsIff` | framework/storage.go:112-120 | The parent links from a name end exactly when none of the names that they meet is on a cycle |
| `Forests.StoreForestIff` | framework/storage.go:307-315 | Storing a new stack keeps the forest exactly when its name is not empty and its parent, if any, is stored |
| `Forests.PrunedForest` | framework/storage.go:218-244 | Removing a whole subtree keeps the forest |
| `Removals.ForestKeptIff` | framework/storage.go:218-244 | Deleting rows of a forest keeps the forest exactly when no row has lost its parent |
| `Removals.ForcedForestIff` | framework/storage.go:218-244 | A forced removal that removes the subtrees of the children it was told of keeps the forest exactly when it was told of all of them |
| `Removals.CutQueryLeavesOrphan` | framework/storage.go:222-234 | A table of two rows and an answer without the child: the removal of the parent leaves a child whose parent is gone |
| `Repository.CassandraStorage.StoreStack` | framework/storage.go:167-199 | Without a failed statement it stores exactly when the name is new and the parent, if named, exists, and says which is wrong otherwise; with one it changes nothing and reports the fault or a missing parent; storing keeps a forest exactly when the name is not empty |
| `Repository.CassandraStorage.RemoveStack` | framework/storage.go:201-216 | Without a failed statement it answers exactly by what is stored and names all children. When no deleted row's query had left out a child, forced removal deletes exactly the stack and its descendants, and unforced removal just a stack without children; whatever the queries answer and wherever the database fails, only rows of the subtree are gone, after each single deletion too, and a forest is kept exactly when no deleted row's query had left out a child; what is then seen, part-way too, is a step of the histories |
| `Repository.CassandraStorage.QueryChildren` | framework/storage.go:222-236 | The answer is all children if no step of the iterator fails, and else any part of them, because its error is not looked at |
| `Repository.CassandraStorage.RemoveChildren` | framework/storage.go:224-234 | Deletes the subtrees of the children in the answer, in any order; the whole of them unless a query below was cut |
| `Repository.CassandraStorage.RemoveRow` | framework/storage.go:218-244 | The recursion ends; removes the stack and exactly its subtree unless a query was cut, or refuses and names some of the children |
| `Repository.CassandraStorage.GetStack` | framework/storage.go:95-123 | When the links from the stack end, merges the stacks from the oldest ancestor down to the one asked for, or fails exactly when a statement does, or else misses exactly when a stack of the lineage is not stored; in a forest only the one asked for can be missing |
| `Repository.FetchEndsIff` | framework/storage.go:95-123 | The recursion of a fetch ends exactly when neither the stack nor an ancestor of it is on a cycle of parent links, where a row with the empty name takes no part |
| `Repository.EmptyNameFetchEndsIff` | framework/storage.go:95-123 | The same for the empty name, which is fetched like any other but never as a parent |
| `Repository.ForestFetchEnds` | framework/storage.go:112-120 | So in a forest every fetch ends |
| `Repository.OrphanLetsCycleIn` | framework/storage.go:167-199 | After a cut query the lost parent can be stored again below its orphan, and then fetching it does not end |
| `Repository.LineageIsUnique` | framework/storage.go:112-120 | A stack has one lineage, so the result is determined |
| `Repository.InMemoryStorage.StoreStack` | framework/storage.go:307-315 | Stores any new name without looking for the parent; keeps a forest exactly when the parent is stored and the name is not empty |
| `Repository.InMemoryStorage.RemoveStack` | framework/storage.go:317-324 | On every table where the recursion ends, forced removal deletes exactly the stack and its descendants; unforced removal, on every table, deletes a stack without children and otherwise changes nothing |
| `Repository.InMemoryStorage.RemoveChildren` | framework/storage.go:375-387 | Ranging over the map while the recursion deletes from it still removes exactly the children's subtrees |
| `Repository.InMemoryStorage.RemoveEntry` | framework/storage.go:372-397 | Removes exactly the subtree, or refuses without a change |
| `Inheritance.MergeSchedulerInPlace` | framework/stack.go:78-88 | Overwrites or removes scheduler keys, in any order |
| `Inheritance.MergeApplication` | framework/stack.go:67-97 | The setters lay the child's non-empty fields over the parent's |
| `Inheritance.Stack.Merge` | framework/stack.go:56-99 | Takes the child's name and merges application by application, in any order |
| `Inheritance.InheritanceClosedForm` | framework/stack.go:56-99 | Along a chain of any length each application has the most derived non-empty value of each merged field, scheduler keys are decided one by one, and the other fields are those of the oldest definition |
| `Inheritance.SchedulerClosedForm` | framework/stack.go:78-88 | A scheduler key is decided by the most derived later definition that mentions it, where an empty string removes it, and else by the oldest |
| `Inheritance.MergeAssociativeIff` | framework/stack.go:56-99 | Merging three stacks is associative exactly when, in applications that all three define, the last removes no scheduler key of the first |
| `Inheritance.AnyBracketing` | framework/stack.go:56-99 | A chain in which no stack after the first removes a scheduler key can be merged in any bracketing |
| `Bracketings.BracketingsAgreeIff` | framework/stack.go:56-99 | All bracketings of any chain agree exactly when there is no application and scheduler key whose last mention removes it, with an earlier value that stands and another definition of the application between them |
| `Variables.AllAgreesWithGet` | framework/variables.go:60-106 | Lookup through the tiers and through the combined map agree on every key |
| `Variables.VariablesObject.SetStackVariable` | framework/variables.go:39-44 | Sets a key of the stack tier only |
| `Variables.VariablesObject.SetArbitraryVariable` | framework/variables.go:46-51 | Sets a key of the arbitrary tier only |
| `Variables.VariablesObject.SetGlobalVariable` | framework/variables.go:53-58 | Sets a key of the global tier only |
| `Variables.VariablesObject.GetVariable` | framework/variables.go:60-80 | Answers as the combined map does |
| `Variables.VariablesObject.AllVariables` | framework/variables.go:91-106 | The three overwriting loops give every key the value that lookup gives |
| `Variables.Overlay` | framework/variables.go:93-95 | One overwriting loop, in any order |
| `Variables.StateStorage.SaveTier` | framework/state_storage.go:37-64 | Writes one tier's rows, or those of exactly the keys written before a fault |
| `Variables.StateStorage.SaveStackVariables` | framework/state_storage.go:36-59 | Writes global, arbitrary and stack rows so that the most specific wins; it stops exactly at a failed statement and leaves exactly the rows written until then, a later tier only after the whole of the earlier ones |
| `Variables.SurvivesBreakIff` | framework/state_storage.go:36-64 | After a save that broke off, a reload answers a lookup as the object does exactly when the answering value was written or the value below it, of a less specific tier written or from before, is the same |
| `Variables.BrokenLookup` | framework/state_storage.go:36-64 | What a reload answers then for every key |
| `Variables.LessSpecificComesBack` | framework/state_storage.go:36-59 | A concrete save that breaks off after the global tier and brings back the global value of an overridden key |
| `Variables.StateStorage.GetStackVariables` | framework/state_storage.go:86-107 | Reads all rows of the stack and zone into their tiers, in any order, if no step fails, and else may stop early unnoticed: a lookup then answers the stored value exactly when its row was read, and after a complete read the object is the whole stored one |
| `Variables.BrokenSaveIsFragment` | framework/state_storage.go:36-59 | What a broken-off save leaves is a fragment of the object's variables, as the histories allow |
| `Variables.LoadedTiersAreDisjoint` | framework/state_storage.go:86-107 | After reloading each key is in one tier only |
| `Variables.SaveThenLoad` | framework/state_storage.go:36-64 | A complete save makes a reload answer every lookup as the object does |
| `Variables.SaveThenLoadTiers` | framework/state_storage.go:36-107 | After a complete save each key comes back in the most specific tier that had it, and in no other |
| `Variables.LookupSurvivesStorage` | framework/state_storage.go:36-107 | After any interleaving of sets, saves and broken-off saves that ends in a complete save, a reload answers every lookup as the object did at that save |
| `Variables.TruncatedLookup` | framework/state_storage.go:86-107 | After such a history every lookup in whatever part of the rows was read gives the value at that save, or nothing exactly when its row was not read |
| `Variables.WholeIffAllRead` | framework/state_storage.go:86-107 | All lookups survive exactly when all rows were read |
| `Substitution.ReplaceFills` | framework/application.go:232-246 | Replacing one key in a rendered template fills exactly its placeholders |
| `Substitution.OnePassSubstitutes` | framework/application.go:228-257 | When no value can open the placeholder of another variable that is replaced, one pass in any map order equals simultaneous substitution |
| `Substitution.OrderDoesNotMatter` | framework/application.go:228-257 | When no value can open a placeholder of a variable that is replaced, its own included, the same holds if variables are taken several times |
| `Substitution.OrderIndependentIff` | framework/application.go:231-246 | The map's order, which takes each variable once, shows in no well-formed template exactly when no value can open the placeholder of another variable that is replaced |
| `Substitution.SettlesIff` | framework/application.go:251-255 | The order does not show and a second pass, in any order, changes nothing exactly when no value can open a placeholder, its own included |
| `Substitution.InertIsHarmless` | framework/application.go:228-257 | Values that contain no opening of a placeholder and do not end in a dollar sign, JSON among them, can open none |
| `Substitution.ResolvingIsIncremental` | framework/application.go:228-257 | Resolving with some variables and later with more equals resolving with all |
| `Substitution.PlaceholderValuesShowTheOrder` | framework/application.go:231-232 | A concrete value that holds a placeholder makes the order visible |
| `Substitution.CheckIsExact` | framework/application.go:554-561 | With values of that kind the check fails exactly when a placeholder whose key stands on one line is undefined |
| `VariableResolution.ResolveCommands` | framework/application.go:278-284 | Replaces every variable in every command, in some order |
| `VariableResolution.ApplicationTexts.ResolveVariables` | framework/application.go:228-257 | Replaces every variable once, in some order, in every text of the application; the command lists are resolved by exactly as many such passes as there are variables |
| `VariableResolution.TimesIsOften` | framework/application.go:251-255 | These passes replace each variable at least once in every command |
| `VariableResolution.ResolvesTemplate` | framework/application.go:228-246 | The text that one pass of the code makes of a template is the simultaneous substitution, whatever order it took |
| `VariableResolution.ResolvesTemplateOften` | framework/application.go:251-255 | So is what the repeated passes make of the command lists |
| `VariableResolution.EnsureResolved` | framework/application.go:515-552 | Passes exactly when no text is unresolved |

## Left out

- HTTP server, client, command line and authentication: I/O without laws of its own.
- Task runners, Marathon, the Mesos driver, cron, YAML, regular expressions and UUIDs: libraries and external services, modelled as parameters or nondeterministic results.
- Shell commands, sleeping and health polling inside an application's run: a run either succeeds or fails.
- Saving application and stack statuses: operations that may fail.
- Layer assembly and fetching from the in-memory storage: the latter hands out the stored objects themselves and resolves no parents.
- Checking single tasks for unresolved variables: the code passes a map item that its type switch does not look into.
- Docker conversion, launch command, environment and label building, and reading a plain number of instances: only easy claims.
- StackDeployment.Deployment.Run: what makes a single application valid is a parameter; a goroutine ends between two steps of the main loop; variables that applications set while they run are not modelled.
- Removals.HistoriesKeepForest: names are not empty, because an empty name reads as no parent in every other row; `Repository.CassandraStorage.StoreStack` says what it does.
- Repository.CassandraStorage.RemoveStack: a forced removal begins off a cycle of parents, because the recursion does not end on one; the fetch likewise.
- Substitution.OrderIndependentIff: keys hold no dollar sign or brace, and the literal stretches of templates open no placeholder, because a text has no unique reading as a template otherwise.
- Substitution.CheckIsExact: values that open a placeholder themselves are left out, because what the check sees then depends on the text that follows.
- AllInstances.AllAgreesWithPlacement: one staged application, so that no other context competes for the offers.
- Inheritance.Stack.Merge: application records are values, so sharing of one record by two stacks is not modelled; fetching unmarshals every stack afresh. The child is another object than the parent.
- RunOnceObjects.ApplicationContext.LaunchTask: the driver's error is not modelled, because it changes nothing in the context.
- VariableResolution.ApplicationTexts.ResolveVariables: the five command lists are one field, and task values are texts.
