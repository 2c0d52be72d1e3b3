# ShellWeGo: verified model of the stateful core

This project models the parts of ShellWeGo whose correctness does not follow from reading one function, and proves
properties of them over every input, every run or every reachable state. `dafny verify dfyconfig.toml` checks all of it.

Components that update state in place are classes whose methods carry the loops of the source; each method is tied to a
specification function or relation, and the theorems are about those. Code made of expressions is functions.

| Component | Files | What is proved |
|---|---|---|
| Edge router | `Router`, `RouterTheorems`, `RouterMatching`, `RouterPriorities` | The three indexes are exact images of a log of registrations in every run; in runs that add fresh ids and remove only unshared wildcard patterns, they answer as a plain scan of the table does, order and ties included; where a priority decides the answer and where it does not |
| Desired state and convergence | `Daemon`, `Reconciler`, `CreatedVms`, `Vmm` | The command fold keeps exactly the wanted apps; VMs are created as listed; a pass converges at once or never; the cap under interleaved starts is exceeded by at most k − 1, and that bound is reached |
| Metering and invoicing | `Metering`, `Usage`, `Invoicing`, `LineSelection`, `Pricing`, `UsageBilling`, `CreditRuns` | Windows partition time; the usage ledger balances over every run; invoices balance; for every log, which lines count an event, and exactly when usage is billed once; what usage costs each tier; when a run of invoices spends credits more than once |
| Dunning | `Dunning`, `DunningRuns`, `RetryTimes`, `DunningCharges` | Retries are bounded, spaced and run out; exactly when a row is retried; when the worker charges a paid invoice; its passes are legal runs |
| Codecs | `Der`, `Pem`, `Base64`, `KeyFraming`, `Utf8`, `ImageRef`, `CodecVectors` | Round trips in both directions against decoders and printers written from the standards, with the exact inputs on which they hold; the parsers slice within bounds on every input |
| IP allocator | `Ipam` | Soundness of every reachable table, which addresses are handed out and in what order, exhaustion by pigeonhole, and packing under a peak |
| Retention and eviction | `Snapshots`, `ImageCache` | What survives, what may be deleted, conservation of storage, idempotence |
| Upstream selection | `Upstreams`, `SharedTurns` | Which upstream each strategy picks, how even the shared counter is, what the connection counts are, and which places a route reaches when other routes share it |

`Sorting`, `Totals`, `Sets`, `Division`, `Powers`, `Bytes`, `Identifiers` and `Wrappers` are shared by these modules.

## Where the code does not do what one would expect

Each is kept as the code has it, shown by a lemma or by the contract of the method, and bounded by an exact condition.

* Removing a route drops every wildcard entry with one of its patterns. Another route with the same pattern stays in the
  table and is never answered by that pattern again (`SharedPatternLosesTheOtherRoute`), which happens exactly when
  patterns are shared (`RemovalStaysTidyIff`).
* The host matcher accepts the bare suffix of a wildcard, the wildcard index refuses it (`BareSuffixIsRefused`,
  `ScanAnswersIff`).
* Route priority orders host-free routes only (`HostFreeAnswerIsBest`): a host route is answered over a host-free one of
  higher priority (`HostBeatsPriority`), and the answer has the highest priority of all matching routes exactly under
  the condition of `HighestPriorityIff`. Registering in descending order of priority avoids this, and is necessary where
  routes can be asked for in pairs (`DescendsIff`). A route's `enabled` flag is never read (`EnabledIsIgnored`).
* A full node never exchanges one app for another, though the wanted list would fit: creation comes first and fails
  (`PassGetsStuck`, `FullNodeNeverSwaps`, and `ConvergesFirstOrNever` for the condition).
* Flushed usage is in the store twice (`FlushedUsageIsStoredTwice`), and an event without a resource name makes a flush
  lose other counters (`NamelessEventLosesOthers`); a flush can lose a named counter iff such an event came since the
  flush before (`FlushLosesIff`, `NextFlushLosesIff`).
* The last query window may run past the end, so adjacent queries count usage twice unless the windows end at the seam
  (`ExactUpToEndIff`, `AdjacentQueriesAddIff`).
* A line counts every key that its own begins, and asks for a name up to its first colon only. So a resource name that is
  a prefix of another is billed for both (`PrefixNameIsBilledTwice`), and so are names that agree up to a colon
  (`ColonNamesAreBilledTwice`). Exactly when usage is billed once is `SelectedOnceIff` and `UsageIsBilledOnceIff`.
* A colon in a customer's id bills their usage to another customer (`ColonBillsAnother`): exactly when that one's id, free
  of colons, and a colon begin it (`BillsAnotherIff`). Their own lines count their usage all together or not at all
  (`ColonIdIsBilledOnceIff`).
* A failed payment is charged again after its invoice was paid (`PaidInvoiceIsChargedAgain`); when that happens in a pass
  is `PassChargesPaidIff`, in a run `RunChargesPaidIff`.
* `generate_invoice` does not take the credits it applies from the customer's balance, so two invoices may apply the same
  credits (`TwoInvoicesApplyCreditsTwice`, `CreditsSpentOnceIff`).
* DER contents of 64 KiB and more lose the high part of their length (`LongContentIsLost`, `RoundTripIff`).
* A key with a field of 2^32 octets or more does not survive its framing (`FramingRoundTripIff`). Unwrapping a key whose
  authentication code is right but whose nonce is not twelve octets long panics; the model has an outcome for it
  (`WrongNoncePanicsIff`).
* Behind an explicit registry, the tag of a name without a slash is taken for part of the name (`TagOfBareNameIsLost`,
  `ParseIsNormalFormIff`).
* The round-robin counter is shared by all routes, so a route whose turns come at a stride that is not coprime to its
  number of upstreams starves some of them (`SharedCounterStarves`, `PlaceIsReachedIff`, `AllReachedIffCoprime`). Across
  the 64-bit wrap turns are fair only for powers of two (`FairForPowersOfTwoIff`, `AlwaysReachedIff`).
* An app that asks for the address it already has is refused (the contract of `Ipam.AllocateSpecific`).

## Model

| member | source | states |
|---|---|---|
| `Routing.Router.constructor` | crates/shellwego-edge/src/router.rs:31-39 | An empty router, its indexes the images of an empty log |
| `Routing.Router.AddRoute` | crates/shellwego-edge/src/router.rs:42-74 | A valid route enters the table and one registration the log; an invalid one changes nothing and its first error is returned; every index stays the image of the log |
| `Routing.Router.IndexHosts` | crates/shellwego-edge/src/router.rs:48-61 | The matcher loop pushes the id once per host matcher, exact hosts and wildcards apart, in matcher order |
| `Routing.Router.IndexHost` | crates/shellwego-edge/src/router.rs:49-60 | One host of a matcher: an exact host's list or the wildcard list takes the id, the other stays |
| `Routing.Router.RemoveRoute` | crates/shellwego-edge/src/router.rs:77-100 | The route leaves the table; its own entries leave the exact and priority indexes, and all entries with its wildcard patterns leave the wildcard index; an unknown id is an error and changes nothing |
| `Routing.Router.UnindexHosts` | crates/shellwego-edge/src/router.rs:80-87 | The removal loop filters the id out of its hosts' lists and its patterns out of the wildcard list, whoever owns the entries |
| `Routing.Router.MatchRequest` | crates/shellwego-edge/src/router.rs:103-137 | The first stored match in exact, then wildcard, then priority index order, as a function of table and log in any state |
| `Routing.Router.FirstOf` | crates/shellwego-edge/src/router.rs:105-113 | The loop over one host's ids returns the first stored route that matches |
| `Routing.Router.MatchWildcards` | crates/shellwego-edge/src/router.rs:116-124 | The loop over the wildcard index returns the first strict wildcard hit that matches |
| `Routing.Router.MatchHostFree` | crates/shellwego-edge/src/router.rs:127-134 | The loop over the priority list returns the first matching route without a host matcher |
| `Routing.Router.Clear` | crates/shellwego-edge/src/router.rs:224-229 | Table and all indexes are empty |
| `Routing.DetachImages` | crates/shellwego-edge/src/router.rs:80-90 | Filtering each index as a removal does gives exactly the indexes of the log with that removal applied |
| `RoutingTheorems.FirstInIsFirst` | crates/shellwego-edge/src/router.rs:103-137 | The reference scan of a tier returns the first hit of the table, or says that there is none |
| `RoutingTheorems.IndexRefinesScan` | crates/shellwego-edge/src/router.rs:103-137 | While every route is indexed as added, the indexes answer exactly as the scan of the table, order and priority ties included |
| `RoutingTheorems.ScanAnswersIff` | crates/shellwego-edge/src/router.rs:205-221 | There is an answer iff some stored route satisfies all its matchers and is not reached by bare wildcard suffixes alone |
| `RoutingTheorems.BareSuffixIsRefused` | crates/shellwego-edge/src/router.rs:205-221 | A route whose one host is a wildcard matches its bare suffix and is not answered for it |
| `RoutingTheorems.AnswersAreSound` | crates/shellwego-edge/src/router.rs:103-137 | In every state, reachable or not, an answered route is stored and satisfies all its matchers |
| `RoutingTheorems.DetachTidy` | crates/shellwego-edge/src/router.rs:85 | A removal leaves all other registrations intact iff no other route carries one of the removed patterns |
| `RoutingTheorems.RemovalStaysTidyIff` | crates/shellwego-edge/src/router.rs:77-100 | From agreement of index and table, a removal keeps it iff no other route shares a wildcard pattern with the removed one |
| `RoutingTheorems.AdditionStaysTidyIff` | crates/shellwego-edge/src/router.rs:42-74 | From agreement, an accepted addition keeps it iff the id is fresh |
| `RoutingTheorems.AddThenRemoveIff` | crates/shellwego-edge/src/router.rs:42-100 | While every route is indexed as added, adding and then removing a route restores the whole state, ranking ties included, iff its id was fresh and its patterns unshared |
| `RoutingTheorems.AddThenRemoveKeepsAnswers` | crates/shellwego-edge/src/router.rs:42-137 | In every state, reachable or not, adding and then removing a route whose id is not in the table leaves the answer to every request unchanged, if no stored route has a wildcard entry under one of its patterns |
| `RoutingTheorems.SharedPatternLosesTheOtherRoute` | crates/shellwego-edge/src/router.rs:85 | Of two routes with one pattern, removing the first leaves the second stored, matching and never answered |
| `RoutingTheorems.CarefulRunsStayTidy` | crates/shellwego-edge/src/router.rs:42-100 | Every run that adds fresh ids and removes unshared patterns keeps index and table in agreement |
| `RoutingTheorems.RouterRefinesScan` | crates/shellwego-edge/src/router.rs:42-137 | After every such run the router answers as a scan of the live routes in registration order, and answers iff one of them matches by more than its bare suffix |
| `RoutingMatches.WildcardMeaning` | crates/shellwego-edge/src/router.rs:205-221 | The pattern *.d matches exactly the hosts that end with a dot and d |
| `RoutingMatches.PlainHostMeaning` | crates/shellwego-edge/src/router.rs:205-214 | Any other pattern matches exactly the host that it is |
| `RoutingMatches.MatchersByExample` | crates/shellwego-edge/src/router.rs:185-202 | One request against each of the other kinds of matchers and a near miss of each; regexes are asked of host and path and fail if they do not compile |
| `RoutingMatches.RefusedIff` | crates/shellwego-edge/src/router.rs:140-172 | Each refusal of a route, in the order of the checks; a route is taken iff none applies |
| `RoutingMatches.HostFreeMatchIsAnswered` | crates/shellwego-edge/src/router.rs:127-134 | If a route without a host matcher matches, perhaps one with a host regex, the request is answered |
| `RoutingMatches.ExactHostIsAnswered` | crates/shellwego-edge/src/router.rs:103-113 | If a route for exactly the host matches, it is answered or one for exactly the host registered before it |
| `RoutingMatches.RunAnswersHostFreeMatch` | crates/shellwego-edge/src/router.rs:42-137 | The former of the router after every run that adds fresh ids and removes unshared patterns |
| `RoutingMatches.RunAnswersExactHost` | crates/shellwego-edge/src/router.rs:42-137 | The latter of the router after every such run |
| `RoutingPriorities.EnabledIsIgnored` | crates/shellwego-edge/src/router.rs:103-137 | In every state and however the enabled flags are set, the same route is answered |
| `RoutingPriorities.SortedAnswerIsBest` | crates/shellwego-edge/src/router.rs:62-67 | The first hit in priority order has the highest priority of all hits of its tier and is the first registered of those; without a hit there is none |
| `RoutingPriorities.HostFreeAnswerIsBest` | crates/shellwego-edge/src/router.rs:127-134 | A host-free answer has the highest priority of all host-free routes that match, ties going to the earliest registration |
| `RoutingPriorities.ScanAnswersAt` | crates/shellwego-edge/src/router.rs:103-137 | Every answer is the first registered hit of its host tier, or the best host-free hit, and no tier before it has a hit |
| `RoutingPriorities.HighestPriorityIff` | crates/shellwego-edge/src/router.rs:103-137 | Some matching route outranks the answer iff one that the walk passes over does: for a host-free answer only routes reached by bare suffixes, for a host answer later routes of the tier and all outside it |
| `RoutingPriorities.HostBeatsPriority` | crates/shellwego-edge/src/router.rs:105-134 | Of two routes a hit in a host tier is answered over a matching host-free route of higher priority, whichever was registered first |
| `RoutingPriorities.DescendingAnswersHighest` | crates/shellwego-edge/src/router.rs:103-137 | If priorities descend along the tiers, and within a host tier along the registrations, the answer to every request that reaches no route by a bare suffix alone has the highest priority of all matching routes |
| `RoutingPriorities.DescendsIff` | crates/shellwego-edge/src/router.rs:103-137 | That order is necessary too, if every pair of routes that breaks it has a request that only the two match |
| `RoutingPriorities.RunAnswersHighest` | crates/shellwego-edge/src/router.rs:42-137 | The same of the router after every run that adds fresh ids and removes unshared patterns |
| `RoutingPriorities.RunAnswersByPriorityIff` | crates/shellwego-edge/src/router.rs:42-137 | Both after every run that adds fresh ids and removes unshared patterns: which route is answered, and when another outranks it |
| `Vmm.VmmManager.CheckCapacity` | crates/shellwego-agent/src/vmm/mod.rs:158-173 | The first half of start: configuration bounds first, then the cap, read under its own lock |
| `Vmm.VmmManager.InsertVm` | crates/shellwego-agent/src/vmm/mod.rs:243-342 | The second half of start: refuses an app that runs already, inserts only when the launch succeeds |
| `Vmm.VmmManager.Start` | crates/shellwego-agent/src/vmm/mod.rs:158-181 | Both halves with nothing between them |
| `Vmm.VmmManager.Stop` | crates/shellwego-agent/src/vmm/mod.rs:436-471 | The app's entry is gone; an app that was not running is an error |
| `Vmm.VmmManager.ListRunning` | crates/shellwego-agent/src/vmm/mod.rs:474-487 | Each running app once, in arbitrary order |
| `Vmm.StepStaysWithinCap` | crates/shellwego-agent/src/vmm/mod.rs:158-181 | Running VMs and pending starts together never reach cap plus starts in flight |
| `Vmm.CapOvershootIsBounded` | crates/shellwego-agent/src/vmm/mod.rs:158-181 | Over every interleaving of at most k starts in flight with any stops, at most cap + k - 1 VMs run |
| `Vmm.OneVmPerApp` | crates/shellwego-agent/src/vmm/mod.rs:243-313 | A running VM is replaced by no start; only a stop of its app touches its entry |
| `Vmm.CapOvershootIsTight` | crates/shellwego-agent/src/vmm/mod.rs:158-181 | For every positive cap and every k some interleaving reaches cap + k - 1 |
| `DesiredState.Daemon.HandleMessage` | crates/shellwego-agent/src/daemon.rs:122-159 | Schedule appends a skeleton unless listed, terminate removes every entry of the app, anything else changes nothing |
| `DesiredState.Daemon.Contains` | crates/shellwego-agent/src/daemon.rs:132 | Whether some entry has the id |
| `DesiredState.WantedMeaning` | crates/shellwego-agent/src/daemon.rs:125-151 | An app is wanted iff it was scheduled and not terminated after that |
| `DesiredState.FoldIsFaithful` | crates/shellwego-agent/src/daemon.rs:122-159 | After any commands the list is duplicate-free and holds exactly the wanted apps, as skeletons, in the order they became wanted |
| `Reconciling.Reconciler.Reconcile` | crates/shellwego-agent/src/reconciler.rs:60-102 | State and result of a pass: the create phase, its abort on the first error, the remove phase, the change count |
| `Reconciling.Reconciler.CreateMissing` | crates/shellwego-agent/src/reconciler.rs:70-84 | The create loop stops at the first failing app and keeps what it created before |
| `Reconciling.Reconciler.RemoveExtra` | crates/shellwego-agent/src/reconciler.rs:87-93 | The remove loop stops exactly the VMs that ran before the pass and are not listed, and counts them |
| `Reconciling.Reconciler.CreateMicrovm` | crates/shellwego-agent/src/reconciler.rs:104-180 | Preparation, then the two halves of start; the VM is added iff all succeed |
| `Reconciling.CreatingExtends` | crates/shellwego-agent/src/reconciler.rs:70-84 | The create phase keeps what ran, adds only listed apps, adds all of them unless it fails, and counts them |
| `Reconciling.CreatesUpToTheCap` | crates/shellwego-agent/src/reconciler.rs:70-84 | With m apps missing, the phase creates all of them if they fit and else exactly cap - running before it fails |
| `Reconciling.PassConverges` | crates/shellwego-agent/src/reconciler.rs:60-102 | If running and desired together fit under the cap, one pass makes running equal desired, keeps the VMs wanted before and returns creations plus removals |
| `Reconciling.SettledPass` | crates/shellwego-agent/src/reconciler.rs:60-102 | A pass over a converged node changes nothing and returns 0 |
| `Reconciling.PassGetsStuck` | crates/shellwego-agent/src/reconciler.rs:60-102 | Otherwise the pass fills the node to the cap, removes nothing and fails |
| `Reconciling.StuckStaysStuck` | crates/shellwego-agent/src/reconciler.rs:60-102 | A pass after such a pass fails again and changes nothing |
| `Reconciling.ConvergesFirstOrNever` | crates/shellwego-agent/src/reconciler.rs:60-102 | Over any number of passes the list is reached by the first pass iff running and desired fit together, and else never |
| `Reconciling.CommandsConverge` | crates/shellwego-agent/src/daemon.rs:122-159 | Every list that commands can build meets the premises of the dichotomy on a host where only the cap fails |
| `Reconciling.FullNodeNeverSwaps` | crates/shellwego-agent/src/reconciler.rs:70-93 | A node of capacity one that runs a never comes to run b instead |
| `CreatedVms.CreatedIff` | crates/shellwego-agent/src/reconciler.rs:104-180 | An app gets a VM iff preparation succeeds, memory is 32 to 32768 MB, CPU shares are 64 to 16384, its files exist, the cap is not reached, the app runs none and the launch succeeds; else the first of these that fails is the error |
| `CreatedVms.CreatedAsListed` | crates/shellwego-agent/src/reconciler.rs:151-155 | Every VM the create phase adds was listed and has the listed memory and CPU shares |
| `CreatedVms.PassLeavesListed` | crates/shellwego-agent/src/reconciler.rs:60-102 | Whatever a pass ran into, the VMs it leaves ran before unchanged or were created as listed |
| `CreatedVms.ConvergedAsListed` | crates/shellwego-agent/src/reconciler.rs:60-102 | A converging pass leaves one VM for each listed app, sized as listed where it had to create it |
| `CreatedVms.CommandedVms` | crates/shellwego-agent/src/daemon.rs:122-159 | Every VM that passes over a list built from commands create has 128 MB and 1024 CPU shares |
| `CreatedVms.FailedVolumesComeLast` | crates/shellwego-agent/src/reconciler.rs:87-102 | A pass whose volumes fail has done all the rest, and returns their error |
| `CreatedVms.FirstFailureEnds` | crates/shellwego-agent/src/reconciler.rs:70-84 | The first app that cannot be created gives the error; what is missing before it was created, nothing after it |
| `Metering.MetricsStore.Insert` | crates/shellwego-billing/src/metering.rs:123-155 | An event with customer and resource is appended to the buffer of its key; others are refused in that order |
| `Metering.MetricsStore.SumWindow` | crates/shellwego-billing/src/metering.rs:269-278 | The sum over all buffers whose key starts with the prefix is the sum of the selected events, whatever the order |
| `Metering.MetricsStore.Query` | crates/shellwego-billing/src/metering.rs:211-291 | The while loop returns the points of the windows from start until end is reached and terminates |
| `Metering.QueryIsExactIff` | crates/shellwego-billing/src/metering.rs:260-291 | For every log, negative quantities included: the points sum to at least the selected events up to the end of the last window, and to exactly those iff no window's sum is negative |
| `Metering.QueryIsExact` | crates/shellwego-billing/src/metering.rs:260-291 | Without negative quantities the points of a query sum to exactly the selected events up to the end of its last window |
| `Metering.PointsAreWindows` | crates/shellwego-billing/src/metering.rs:264-288 | The points are exactly the grid windows with a positive sum, in order, each with its sum |
| `Metering.GridIsDivisibility` | crates/shellwego-billing/src/metering.rs:264-287 | The window grid is the arithmetic one |
| `Metering.ExactUpToEndIff` | crates/shellwego-billing/src/metering.rs:260-291 | A query counts exactly the events before end, for every log of nonnegative quantities, iff its step divides the interval |
| `Metering.AdjacentQueriesAddIff` | crates/shellwego-billing/src/metering.rs:260-291 | Totals of [a,b) and [b,c) add up to that of [a,c), for every log of nonnegative quantities, iff the step divides b - a |
| `Metering.WindowLengths` | crates/shellwego-billing/src/metering.rs:432-440 | A second, 60 seconds, 60 minutes, 24 hours, 30 days |
| `Metering.OneEventIsOnePoint` | crates/shellwego-billing/src/metering.rs:260-291 | The query for a single event has one point, at the start of the window that holds it |
| `Metering.StoredIff` | crates/shellwego-billing/src/metering.rs:123-155 | An event is stored iff it names customer and resource; the customer is missed first |
| `Usage.RealtimeCounter.Increment` | crates/shellwego-billing/src/metering.rs:495-504 | The counter of customer and resource grows by the amount, all others stay |
| `Usage.RealtimeCounter.FlushAll` | crates/shellwego-billing/src/metering.rs:543-561 | Returns every counter and leaves none |
| `Usage.UsageMeter.RecordUsage` | crates/shellwego-billing/src/lib.rs:611-643 | Refuses no customer and negative quantities; else the counter grows first and the store takes the event if it names its resource |
| `Usage.UsageMeter.FlushCounters` | crates/shellwego-billing/src/lib.rs:994-1009 | Empties the counters and stores one event each, up to the first one without a name, in arbitrary order; succeeds iff all are named |
| `Usage.LedgerBalances` | crates/shellwego-billing/src/lib.rs:611-643 | Over every run, per customer and resource: recorded = pending + flushed + dropped, and stored = recorded + flushed |
| `Usage.NamedRunsDropNothing` | crates/shellwego-billing/src/lib.rs:994-1009 | When every event names its resource, flushes lose nothing |
| `Usage.FlushedUsageIsStoredTwice` | crates/shellwego-billing/src/lib.rs:994-1009 | Then the store holds twice what was recorded, less what is still pending |
| `Usage.NamelessEventLosesOthers` | crates/shellwego-billing/src/lib.rs:1000-1006 | A witness: one event without a resource name, and a flush drops another resource's counter |
| `Usage.FlushLosesIff` | crates/shellwego-billing/src/lib.rs:994-1009 | Of any counters and a named one among them: some order of the flush leaves it out of the store iff a nameless counter is present |
| `Usage.NextFlushLosesIff` | crates/shellwego-billing/src/lib.rs:994-1009 | Over every run: the next flush can lose a named counter iff some counter took an event without a resource name, which the store refuses, since the flush before |
| `Usage.RunIsNonNegative` | crates/shellwego-billing/src/lib.rs:611-643 | The store and the counters of every run hold nonnegative quantities only |
| `Usage.RefusedIff` | crates/shellwego-billing/src/lib.rs:611-643 | Usage is refused iff it names no customer or its quantity is negative, in that order |
| `Usage.FlushedAtOnce` | crates/shellwego-billing/src/lib.rs:994-1009 | A flush stores each counter it visits as one event with its pending quantity and the time of the flush |
| `Invoicing.BillingSystem.GetResourceTypes` | crates/shellwego-billing/src/metering.rs:309-319 | The second fields of the customer's buffered keys, each key once, in arbitrary order: a name is listed iff some such key holds it |
| `Invoicing.BillingSystem.PriceUsage` | crates/shellwego-billing/src/lib.rs:674-699 | One line per resource with positive usage, at the fallback price |
| `Invoicing.BillingSystem.CollectLines` | crates/shellwego-billing/src/lib.rs:671-700 | The lines of all resource types and the total of their amounts |
| `Invoicing.BillingSystem.GetUsage` | crates/shellwego-billing/src/lib.rs:650-727 | Errors in the order of the checks; else the lines with the tier's discount line and the reduced subtotal |
| `Invoicing.BillingSystem.GenerateInvoice` | crates/shellwego-billing/src/lib.rs:734-787 | One invoice is stored and returned: its lines sum to the subtotal, total + credit = subtotal, total is never negative, credit is bounded by the customer's cents; errors store nothing, and the customer's credits stay as they are |
| `Invoicing.BillingSystem.NewInvoice` | crates/shellwego-billing/src/lib.rs:745-781 | The invoice settled against the customer's credits, due the payment terms after the end of the period |
| `Invoicing.ApplyCredits` | crates/shellwego-billing/src/lib.rs:745-753 | total + credit = subtotal, total is subtotal less available credit or zero |
| `Invoicing.DiscountedIsBalanced` | crates/shellwego-billing/src/lib.rs:703-717 | Line amounts with the discount line sum to the subtotal, which stays between zero and the undiscounted sum |
| `Invoicing.LinesArePositive` | crates/shellwego-billing/src/lib.rs:674-700 | Lines never sum to less than zero |
| `Invoicing.LinesWeighEventsIff` | crates/shellwego-billing/src/lib.rs:674-700 | For every log: line quantities sum to at least every covered event times the number of lines that select it, and to exactly that iff no month of a line has a negative sum |
| `Invoicing.LinesWeighEvents` | crates/shellwego-billing/src/lib.rs:674-700 | Without negative quantities, line quantities sum to every covered event times the number of lines whose prefix query selects it |
| `Pricing.PriceList` | crates/shellwego-billing/src/lib.rs:1231-1241 | The six listed prices |
| `Pricing.UnlistedPrice` | crates/shellwego-billing/src/lib.rs:1231-1241 | Every other resource costs 0.01 a unit |
| `Pricing.LinesArePriced` | crates/shellwego-billing/src/lib.rs:674-700 | Every usage line costs its quantity times the price of its resource, and its quantity is the month's total |
| `Pricing.LinesCost` | crates/shellwego-billing/src/lib.rs:674-700 | For nonnegative quantities, the lines together cost the price of all usage that each of them selects |
| `Pricing.SubtotalAfterDiscount` | crates/shellwego-billing/src/lib.rs:703-717 | The subtotal is all, 95%, 90%, 80% or 85% of the lines, by tier |
| `Pricing.DiscountIsLast` | crates/shellwego-billing/src/lib.rs:703-717 | The discount is one line behind the others, without a price; Free has none |
| `Pricing.SummaryCosts` | crates/shellwego-billing/src/lib.rs:650-727 | A customer pays the tier's part of the price of what the lines select |
| `Pricing.OneEventCosts` | crates/shellwego-billing/src/lib.rs:650-727 | One event in the period costs its quantity at the price of its resource, less the tier's discount |
| `Pricing.CpuHoursCost` | crates/shellwego-billing/src/lib.rs:650-727 | q CPU hours come to 0.025 q on the free tier and to 0.02 q on the enterprise tier |
| `Pricing.TotalAfterCredits` | crates/shellwego-billing/src/lib.rs:745-753 | An invoice comes to its subtotal less a hundredth of the credits, and never to less than nothing |
| `LineSelection.TypesOfListed` | crates/shellwego-billing/src/metering.rs:309-319 | The resource types of a customer: every key with the customer's id and a colon in front, up to its next colon |
| `LineSelection.TypesAreRecordedIff` | crates/shellwego-billing/src/metering.rs:309-319 | They are the customer's recorded names, each once, iff every key that the id and a colon begin is the customer's own, under a name without colons |
| `LineSelection.SelectedIff` | crates/shellwego-billing/src/metering.rs:269-278 | For every log, whatever names and other ids hold: some line of a customer with a colon-free id selects an event iff the id and a colon begin the event's key |
| `LineSelection.SelectedOnceIff` | crates/shellwego-billing/src/metering.rs:269-278 | Exactly one line does iff moreover no other listed key, cut at its second colon, begins the event's key |
| `LineSelection.BillsAnotherIff` | crates/shellwego-billing/src/metering.rs:269-278 | A line of a customer with a colon-free id selects another customer's event iff that one's id begins with this one's and a colon |
| `LineSelection.ColonIdSelections` | crates/shellwego-billing/src/metering.rs:269-319 | For a customer whose id holds a colon, an event is selected by all lines if the key of the id and its own second field begins the event's, else by none |
| `LineSelection.ColonIdIsBilledOnceIff` | crates/shellwego-billing/src/metering.rs:269-319 | Such a customer's own event is selected once iff that field begins its resource name and one key is listed |
| `LineSelection.ColonIdIsBilled` | crates/shellwego-billing/src/lib.rs:650-727 | Such a customer's lines sum to the usage behind that field times the number of listed keys |
| `LineSelection.ColonBillsAnother` | crates/shellwego-billing/src/metering.rs:309-319 | A witness: usage of a:x is a line of a under the name x |
| `LineSelection.UsageIsBilledOnceIff` | crates/shellwego-billing/src/lib.rs:650-727 | For every log of nonnegative quantities and every colon-free customer id: the lines count the customer's covered usage at least once, and exactly once iff all usage there whose key the id and a colon begin is the customer's own and no other listed key's line selects it |
| `LineSelection.NameIsSelectedOnceIff` | crates/shellwego-billing/src/metering.rs:269-278 | Where no colon gets in the way, an event is selected once iff no other recorded name begins its own |
| `LineSelection.NamesAreBilledOnceIff` | crates/shellwego-billing/src/lib.rs:650-727 | Where no colon gets in the way, usage is billed once iff no recorded name is a proper prefix of one with usage there |
| `LineSelection.PrefixNameIsBilledTwice` | crates/shellwego-billing/src/metering.rs:269-278 | Of two recorded names, one a proper prefix of the other, the longer's usage is selected by at least two lines |
| `LineSelection.ColonNamesAreBilledTwice` | crates/shellwego-billing/src/metering.rs:309-319 | Of two recorded names that agree up to a colon, each one's usage is selected by at least two lines |
| `UsageBilling.LineHoldsRecordedAndFlushed` | crates/shellwego-billing/src/lib.rs:611-700 | After every run, a line over all of its time holds the sum, over all customers and resources whose stored key its own begins, of what was recorded and what was flushed |
| `UsageBilling.LineHoldsItsOwn` | crates/shellwego-billing/src/lib.rs:611-700 | So it holds its own recorded and flushed usage alone if its key begins no other stored one |
| `CreditRuns.SettledAmounts` | crates/shellwego-billing/src/lib.rs:745-753 | Over any invoices settled against the same credits, each applies the lesser of its subtotal and all of them |
| `CreditRuns.CreditsSpentOnceIff` | crates/shellwego-billing/src/lib.rs:734-787 | Over any invoices of unchanged credits: the credits applied stay within the credits iff there are none, or they cover all the subtotals together, or at most one subtotal is positive |
| `CreditRuns.TwoInvoicesApplyCreditsTwice` | crates/shellwego-billing/src/lib.rs:745-753 | Any two invoices that each reach the customer's credits apply twice the credits |
| `Dunning.BillingTables.MarkInvoicePaid` | crates/shellwego-billing/src/lib.rs:1503-1531 | A known invoice becomes Paid, an unknown one changes nothing |
| `Dunning.BillingTables.HandlePaymentFailure` | crates/shellwego-billing/src/lib.rs:1533-1552 | Only a Draft invoice changes, to Open |
| `Dunning.BillingTables.ProcessPayment` | crates/shellwego-billing/src/lib.rs:794-844 | An unknown invoice is an error, a paid one is not charged; else one new payment row, and the invoice is Paid on success |
| `Dunning.BillingTables.SelectEligible` | crates/shellwego-billing/src/lib.rs:1025-1035 | Exactly the failed rows with retries left whose backoff has elapsed, each once |
| `Dunning.BillingTables.RetryFailedPayments` | crates/shellwego-billing/src/lib.rs:1021-1123 | A pass retries the rows selected at its start, each from its selected state, and updates payments, invoices and suspensions |
| `Dunning.BillingTables.RetryRow` | crates/shellwego-billing/src/lib.rs:1053-1177 | One retry: success closes row and invoice; failure counts, sets the backoff and suspends at the maximum |
| `DunningRuns.StepKeepsInv` | crates/shellwego-billing/src/lib.rs:1021-1123 | Every payment, webhook, selection and retry step keeps the invariant over rows, queue and suspensions |
| `DunningRuns.RunKeepsInv` | crates/shellwego-billing/src/lib.rs:1021-1177 | The invariant holds in every reachable state of the interleaved runs |
| `DunningRuns.PassIsRun` | crates/shellwego-billing/src/lib.rs:1021-1123 | The tables the worker's loop leaves after k rows are those of a selection and k retry steps; which of these are legal is `DunningCharges.PassIsLegal` |
| `DunningRuns.RetriesAreBoundedAndSpaced` | crates/shellwego-billing/src/lib.rs:1078-1095 | Retry counts and attempts never exceed the maximum; attempt n comes at least 60 * (2^n - 2) seconds after the first |
| `RetryTimes.FailedRowWaits` | crates/shellwego-billing/src/lib.rs:1078-1095 | A failed row with retries left is due again exactly from 60 * 2^n seconds after the end of failed charge n |
| `RetryTimes.SelectedIffWaited` | crates/shellwego-billing/src/lib.rs:1025-1035 | In every reachable state a selection takes exactly the failed rows with retries left that are new, or whose last retry, the n-th, ended 60 * 2^n seconds ago |
| `RetryTimes.FirstFailureIsSelected` | crates/shellwego-billing/src/lib.rs:794-844 | A payment that fails at first is in the next selection, one that succeeds is not |
| `RetryTimes.RowsComeFromPayments` | crates/shellwego-billing/src/lib.rs:794-844 | In every reachable state each row is for the invoice and customer of the payment that wrote it |
| `RetryTimes.InvoiceAfterStep` | crates/shellwego-billing/src/lib.rs:1503-1552 | Where each step takes a known invoice: to Paid by what pays it, from Draft to Open by a failure reported for it, nowhere otherwise |
| `DunningRuns.SuspendedIffExhausted` | crates/shellwego-billing/src/lib.rs:1104-1113 | While no customer record is overwritten, a customer is suspended iff configured so and some row of theirs has used up its retries |
| `DunningRuns.SucceededRowsAreFinal` | crates/shellwego-billing/src/lib.rs:1025-1035 | No step changes or charges a succeeded row |
| `DunningRuns.InvoicesOnlyAdvance` | crates/shellwego-billing/src/lib.rs:1503-1552 | Each step leaves an invoice, pays it, or moves Draft to Open |
| `DunningRuns.PaidIsFinal` | crates/shellwego-billing/src/lib.rs:1503-1552 | No sequence of payments, webhooks and retries moves an invoice out of Paid |
| `DunningRuns.RetriesRunOut` | crates/shellwego-billing/src/lib.rs:1078-1095 | The remaining retries of failed rows strictly decrease with each retry and grow only by a new failed payment, by exactly the maximum |
| `DunningRuns.RetriesPerFailure` | crates/shellwego-billing/src/lib.rs:1021-1123 | Over every run the worker charges at most max_retries times per failed first payment |
| `DunningRuns.PaidInvoiceIsChargedAgain` | crates/shellwego-billing/src/lib.rs:1025-1062 | A witness: for every invoice and customer, a run in which the worker charges a row whose invoice was paid in the meantime |
| `DunningCharges.PassChargesPaidIff` | crates/shellwego-billing/src/lib.rs:1025-1062 | A pass charges some row whose invoice is paid by then iff a selected row's invoice was paid before the pass, or two selected rows are for one known invoice and charging the earlier one succeeds |
| `DunningCharges.RunPaysIff` | crates/shellwego-billing/src/lib.rs:1503-1531 | Over every run an invoice is paid iff it is in the table and was paid at the start or by a successful payment, webhook or retry |
| `DunningCharges.RetryChargesPaidIff` | crates/shellwego-billing/src/lib.rs:1053-1062 | Over every run, payments and webhooks interleaved: a retry charges a row of a paid invoice iff that invoice is in the table and was paid at the start or by an earlier step |
| `DunningCharges.RunChargesPaidIff` | crates/shellwego-billing/src/lib.rs:1021-1123 | A run charges some row of a paid invoice iff some retry of a row comes after its known invoice was paid |
| `DunningCharges.PassIsLegal` | crates/shellwego-billing/src/lib.rs:1021-1123 | For charges whose times do not run backwards, the worker's pass is a legal run of its selection and retries |
| `DunningCharges.PassExtendsRun` | crates/shellwego-billing/src/lib.rs:1021-1123 | From every reachable state, the tables `retry_failed_payments` leaves are those of a legal continuation of the run |
| `DunningCharges.SucceededRowsStay` | crates/shellwego-billing/src/lib.rs:1025-1035 | Whatever legal steps follow, a succeeded row is neither changed nor charged |
| `Der.DerTagLength` | crates/shellwego-edge/src/tls.rs:1274-1287 | Tag and length octets as the writer pushes them, high bits beyond two octets lost |
| `Der.DerWrap` | crates/shellwego-edge/src/tls.rs:1289-1293 | Tag, length octets, content |
| `Der.LengthRoundTrip` | crates/shellwego-edge/src/tls.rs:1274-1287 | Below 65536 the length octets are read back by the rules of sections 8.1.3 and 10.1 of ITU-T X.690, bytes behind them untouched |
| `Der.DecodeEncode` | crates/shellwego-edge/src/tls.rs:1295-1322 | The decoder returns the tree that was encoded and leaves trailing bytes, for every tree of the leaf, sequence and set encoders below 64 KiB |
| `Der.EncodeDecode` | crates/shellwego-edge/src/tls.rs:1295-1322 | Within 64 KiB whatever the decoder accepts is the writer's encoding of what it returns: lengths are minimal, encodings unique |
| `Der.RoundTripIff` | crates/shellwego-edge/src/tls.rs:1274-1287 | The round trip holds with any trailing bytes iff the content is shorter than 65536 |
| `Der.LongContentIsLost` | crates/shellwego-edge/src/tls.rs:1281-1285 | From 65536 bytes of content on, decoding never returns the tree, whatever bytes follow its encoding |
| `Der.EncodingIsPrefixFree` | crates/shellwego-edge/src/tls.rs:1295-1322 | Equal extensions of two encodings mean equal trees: the encoding is injective and no encoding a prefix of another |
| `CodecVectors.TreeOctets` | crates/shellwego-edge/src/tls.rs:1295-1322 | The octets of one tree of each kind |
| `CodecVectors.LengthOctetsByExample` | crates/shellwego-edge/src/tls.rs:1274-1287 | The length octets at each change of form |
| `Pem.SplitIsNormalForm` | crates/shellwego-edge/src/tls.rs:1330-1351 | For every text, splitting, joining by fullchain_pem and splitting again gives the same leaf, chain and certificates |
| `Pem.JoinedBlocksAreRecovered` | crates/shellwego-edge/src/tls.rs:1330-1351 | Every list of trimmed blocks with a begin and no end marker is recovered from its joined text, leaf first |
| `Pem.FullchainIsLaid` | crates/shellwego-edge/src/tls.rs:1452-1457 | The text fullchain_pem writes for a split chain, block by block |
| `Pem.BlocksAreNormal` | crates/shellwego-edge/src/tls.rs:1330-1342 | What splitting keeps is trimmed, opened and holds no end marker |
| `Pem.BlocksOfText` | crates/shellwego-edge/src/tls.rs:1330-1342 | Splitting recovers the blocks of any text that lays them out between white space |
| `CodecVectors.TwoCertificates` | crates/shellwego-edge/src/tls.rs:1330-1351 | Two certificates in any white space come apart into leaf and chain, each with its markers on lines of their own |
| `CodecVectors.WhiteSpace` | crates/shellwego-edge/src/tls.rs:1334-1336 | The 25 characters that trimming removes |
| `Base64.DecodeEncode` | crates/shellwego-storage/src/encryption.rs:213 | Decoding inverts the padded encoding of section 4 of RFC 4648 |
| `Base64.EncodeDecode` | crates/shellwego-storage/src/encryption.rs:216-219 | Every accepted text is the one the encoder writes: padding and unused bits are canonical |
| `CodecVectors.Alphabet` | crates/shellwego-storage/src/encryption.rs:213 | The alphabet of table 1 of RFC 4648 |
| `CodecVectors.KnownEncodings` | crates/shellwego-storage/src/encryption.rs:213 | Four of the vectors of section 10 of RFC 4648 |
| `KeyFraming.ToBase64` | crates/shellwego-storage/src/encryption.rs:199-214 | The buffer built step by step is the framed key, then encoded |
| `KeyFraming.ParseFrame` | crates/shellwego-storage/src/encryption.rs:221-254 | Parsing the frame of a key whose lengths fit in 32 bits returns the key |
| `KeyFraming.FrameParse` | crates/shellwego-storage/src/encryption.rs:221-254 | Every accepted octet string is the frame of the key it parses to, and that key's lengths fit |
| `KeyFraming.FramingRoundTripIff` | crates/shellwego-storage/src/encryption.rs:199-254 | The round trip, as octets and as text, holds iff the three lengths are below 2^32 |
| `KeyFraming.TextsAndKeysCorrespond` | crates/shellwego-storage/src/encryption.rs:199-254 | A text is accepted as a key iff the key fits and the text is the one to_base64 writes for it |
| `CodecVectors.KnownFrame` | crates/shellwego-storage/src/encryption.rs:199-214 | The octets of one key: id, nonce and ciphertext, each behind its length |
| `CodecVectors.KnownLength` | crates/shellwego-storage/src/encryption.rs:201-203 | Lengths are four octets, the high one first |
| `CodecVectors.LocalId` | crates/shellwego-storage/src/encryption.rs:76-87 | Generated keys carry the id local |
| `Utf8.ValidIffText` | crates/shellwego-storage/src/encryption.rs:230-231 | The octets accepted as a key id are exactly the encodings of sequences of Unicode scalar values |
| `KeyFraming.WrapDek` | crates/shellwego-storage/src/encryption.rs:133-142 | Ciphertext followed by the authentication code over it |
| `KeyFraming.UnwrapInvertsWrap` | crates/shellwego-storage/src/encryption.rs:144-162 | Unwrapping accepts exactly the wrapped form of keys of at least sixteen octets, under a nonce of twelve |
| `KeyFraming.WrongNoncePanicsIff` | crates/shellwego-storage/src/encryption.rs:144-162 | A rightly coded key of sufficient size stops the program iff its nonce is not twelve octets long |
| `KeyFraming.GenerateDek` | crates/shellwego-storage/src/encryption.rs:76-87 | The wrapped key with its nonce under the id local |
| `KeyFraming.StoredKeyUnwraps` | crates/shellwego-storage/src/encryption.rs:76-95 | A generated key written as text, read back and unwrapped is the data key again |
| `ImageRef.RegistryIsFound` | crates/shellwego-registry/src/pull.rs:153-164 | What precedes the first slash is the registry if it looks like a host |
| `ImageRef.DigestIsFound` | crates/shellwego-registry/src/pull.rs:170-176 | What follows the last at sign is the digest |
| `ImageRef.TagIsFoundIff` | crates/shellwego-registry/src/pull.rs:177-191 | A tag is found iff the name before it has a slash |
| `ImageRef.PrintedReferenceIsParsedIff` | crates/shellwego-registry/src/pull.rs:152-210 | Exactly the references that survive printing and parsing |
| `ImageRef.ParseIsNormalFormIff` | crates/shellwego-registry/src/pull.rs:152-210 | Parsing, printing and parsing again gives the same four fields iff the text is not a registry followed by a name without slash and digest |
| `ImageRef.TagOfBareNameIsLost` | crates/shellwego-registry/src/pull.rs:177-188 | For every registry, bare name and tag: the tag becomes part of the repository and the reference is latest |
| `ImageRef.ShorthandIsForTheHub` | crates/shellwego-registry/src/pull.rs:160-167 | A text without a registry parses as its Docker Hub form written out |
| `ImageRef.BareNameForm` | crates/shellwego-registry/src/pull.rs:152-210 | A bare name is library/name on the hub's registry at its latest tag |
| `ImageRef.HubForm` | crates/shellwego-registry/src/pull.rs:152-210 | A user's image with a tag is on the hub's registry |
| `ImageRef.RegistryForm` | crates/shellwego-registry/src/pull.rs:152-210 | A first segment with a dot or a colon, or localhost, is the registry; docker.io stands for the hub's |
| `ImageRef.DigestForm` | crates/shellwego-registry/src/pull.rs:170-176 | With a digest behind the last at sign the reference is that digest |
| `Ipam.Ipam.constructor` | crates/shellwego-network/src/ipam.rs:21-34 | The subnet of an address: its whole block, inside the 32-bit space, nothing leased |
| `Ipam.Ipam.Allocate` | crates/shellwego-network/src/ipam.rs:37-59 | Idempotent per app; else the lowest free usable address; fails iff the app has none and as many are leased as the subnet can serve |
| `Ipam.Ipam.AllocateSpecific` | crates/shellwego-network/src/ipam.rs:62-89 | Errors in the order of the checks; else the app holds the requested address instead of its old one |
| `Ipam.Ipam.Release` | crates/shellwego-network/src/ipam.rs:92-95 | The app's lease is gone, all others stay |
| `Ipam.Ipam.List` | crates/shellwego-network/src/ipam.rs:108-111 | Every lease once |
| `Ipam.UsableSize` | crates/shellwego-network/src/ipam.rs:21-34 | A subnet serves its size less the distinct reserved addresses |
| `Ipam.ExhaustedIff` | crates/shellwego-network/src/ipam.rs:47-58 | No address is free iff as many apps hold one as the subnet can serve (pigeonhole) |
| `Ipam.RunsStaySound` | crates/shellwego-network/src/ipam.rs:37-95 | In every reachable state addresses are distinct, inside the subnet and not reserved |
| `Ipam.ReservedStayFree` | crates/shellwego-network/src/ipam.rs:37-95 | In no reachable state is the network address, the one after it or the last of the subnet held |
| `Ipam.OthersAreGranted` | crates/shellwego-network/src/ipam.rs:62-89 | An address nobody holds is free iff it lies between those |
| `Ipam.NextInOrder` | crates/shellwego-network/src/ipam.rs:46-56 | Where just the first k of these are held, the next of them is the lowest free one, and there is none after the last |
| `Ipam.AllocatedInOrder` | crates/shellwego-network/src/ipam.rs:37-59 | Apps that only ask for any address get the third address of the subnet, then the fourth, and so on |
| `Ipam.FirstFitIsLow` | crates/shellwego-network/src/ipam.rs:46-56 | The lowest free address has no more usable addresses below it than there are leases |
| `Ipam.RunsStayPacked` | crates/shellwego-network/src/ipam.rs:37-59 | If no more than `peak` apps hold an address at once and none asks for a particular one, only the lowest `peak` usable addresses are ever handed out |
| `Snapshots.SnapshotManager.Store` | crates/shellwego-agent/src/snapshot.rs:403-404 | The snapshot is kept under its own id |
| `Snapshots.SnapshotManager.DeleteSnapshot` | crates/shellwego-agent/src/snapshot.rs:784-822 | The entry goes before the table is written, whether or not the write succeeds |
| `Snapshots.SnapshotManager.TotalStorageUsed` | crates/shellwego-agent/src/snapshot.rs:981-984 | The sum of the kept sizes |
| `Snapshots.SnapshotAdds` | crates/shellwego-agent/src/snapshot.rs:981-984 | A stored snapshot adds its size |
| `Snapshots.SnapshotManager.GroupByApp` | crates/shellwego-agent/src/snapshot.rs:999-1003 | Each app's snapshots, each once, in arbitrary order |
| `Snapshots.SnapshotManager.SelectFrom` | crates/shellwego-agent/src/snapshot.rs:1013-1017 | Of a sorted group: what lies past keep_count and is older than the cutoff |
| `Snapshots.SnapshotManager.Select` | crates/shellwego-agent/src/snapshot.rs:1005-1018 | The doomed snapshots of all groups, each once |
| `Snapshots.SnapshotManager.GcOldSnapshots` | crates/shellwego-agent/src/snapshot.rs:991-1029 | Only doomed snapshots go; on success all of them, counted; a failed write stops the run after the entry it belongs to |
| `Snapshots.EnoughRemain` | crates/shellwego-agent/src/snapshot.rs:1012-1017 | Whether or not the run was cut short, every app keeps min(keep_count, its count) |
| `Snapshots.OnlyOldSurplusGoes` | crates/shellwego-agent/src/snapshot.rs:1012-1017 | What is deleted is older than the cutoff, and keep_count snapshots of its app at least as new survive |
| `Snapshots.DoomedMeansSurplus` | crates/shellwego-agent/src/snapshot.rs:1005-1017 | Retention without the sort: deleted if keep_count others are newer, only if keep_count others are at least as new |
| `Snapshots.StorageDrops` | crates/shellwego-agent/src/snapshot.rs:981-1029 | A collection frees the sizes of the entries that went and no more than the doomed ones hold; one that succeeds frees exactly the sizes of all doomed snapshots |
| `Snapshots.SecondRunFindsNothing` | crates/shellwego-agent/src/snapshot.rs:991-1029 | A second run with the same limits deletes nothing, in whatever order it meets the snapshots |
| `ImageCache.LayerCache.List` | crates/shellwego-registry/src/cache.rs:485 | Every image once, in arbitrary order |
| `ImageCache.LayerCache.Gc` | crates/shellwego-registry/src/cache.rs:472-530 | Total before = total after + bytes freed, whichever destroys fail; the victims are tried oldest first up to the first that cannot be started, and exactly those destroyed are gone; at or below keep_recent nothing happens |
| `ImageCache.LayerCache.Stats` | crates/shellwego-registry/src/cache.rs:533-552 | Sums over the index; the hit rate is 1 iff some image was pulled, else 0 |
| `ImageCache.ImageAdds` | crates/shellwego-registry/src/cache.rs:536-542 | Each image adds its own bytes, layers and pulls to the sums; an empty cache has none |
| `ImageCache.IndexIsShared` | crates/shellwego-registry/src/cache.rs:485-496 | Victims and recent images share out the index, no victim used later than a recent image |
| `ImageCache.EnoughRemain` | crates/shellwego-registry/src/cache.rs:472-530 | Whichever destroys fail, at least min(count, keep_recent) images remain |
| `ImageCache.OnlyOldImagesGo` | crates/shellwego-registry/src/cache.rs:485-526 | An image is removed only if its destroy succeeded and keep_recent images used no less recently remain |
| `ImageCache.CleanRunKeepsMostRecent` | crates/shellwego-registry/src/cache.rs:472-530 | If every destroy succeeds, exactly min(count, keep_recent) remain and none was used before a removed one |
| `Upstreams.ConnectionPool.FetchAdd` | crates/shellwego-edge/src/proxy.rs:241-245 | Returns the counter and adds one, wrapping at 2^64 |
| `Upstreams.ConnectionPool.IncrementActive` | crates/shellwego-edge/src/proxy.rs:955-958 | One more active connection |
| `Upstreams.ConnectionPool.DecrementActive` | crates/shellwego-edge/src/proxy.rs:961-966 | One less, not below zero, others unchanged |
| `Upstreams.PoolCounts` | crates/shellwego-edge/src/proxy.rs:955-966 | Over every sequence of calls a pool's counts are those of the events |
| `Upstreams.ActiveIsBalance` | crates/shellwego-edge/src/proxy.rs:955-966 | The count of an upstream is the largest balance of begun less ended connections of any stretch up to now |
| `Upstreams.ActiveIsOpen` | crates/shellwego-edge/src/proxy.rs:955-966 | Where no connection ends before it begins, it is those begun less those ended |
| `Upstreams.HttpProxy.MinByConnections` | crates/shellwego-edge/src/proxy.rs:246-253 | The first upstream with the fewest active connections |
| `Upstreams.HttpProxy.SelectUpstream` | crates/shellwego-edge/src/proxy.rs:231-272 | Fails iff no upstream is healthy; else a healthy one of the route in the strategy's place, and only the two round-robin strategies move the counter, by one turn |
| `Upstreams.TurnsAreFair` | crates/shellwego-edge/src/proxy.rs:241-245 | Over any m consecutive turns without wrap, each of n healthy upstreams is picked floor(m/n) or ceil(m/n) times |
| `Upstreams.AnswersAreFair` | crates/shellwego-edge/src/proxy.rs:231-272 | Of m consecutive answers for one route without wrap, each of its n healthy upstreams, listed once, is floor(m/n) or ceil(m/n) |
| `Upstreams.FairAcrossWrapIff` | crates/shellwego-edge/src/proxy.rs:241-245 | Across the wrap this holds for all stretches iff n divides 2^64 |
| `Upstreams.FairForPowersOfTwoIff` | crates/shellwego-edge/src/proxy.rs:241-245 | So exactly if n is a power of two |
| `SharedTurns.PlaceIsReachedIff` | crates/shellwego-edge/src/proxy.rs:239-245 | With a fixed stride k between a route's turns and no wrap, or one that n divides away: place u of n is reached within n turns iff gcd(k, n) divides its distance from the first |
| `SharedTurns.AllReachedIffCoprime` | crates/shellwego-edge/src/proxy.rs:239-245 | Under the same premise all n healthy upstreams are reached within n turns iff k and n are coprime |
| `SharedTurns.SharedCounterStarves` | crates/shellwego-edge/src/proxy.rs:239-245 | A place at another remainder by gcd(k, n) is picked in no turn before the counter wraps, and in none at all if the divisor divides 2^64 |
| `SharedTurns.AlwaysReachedIff` | crates/shellwego-edge/src/proxy.rs:239-245 | From every counter, wrapping or not, all n are reached within n turns iff k is coprime to n and n divides 2^64 |

## Left out

* Firecracker, ZFS, QUIC, HTTP, ACME, Stripe and SQL calls: they are outcomes given as parameters, or maps.
* Floating point and decimal rounding, infinities and NaN: quantities, prices and amounts are exact reals.
- Invoicing.BillingSystem.GetUsage: prices are the fallback table, because database pricing is a lookup; the descriptions, units, currency and numbers of lines and invoices are not part of this model.
* The database paths of metering and invoicing: usage is modelled without a pool; dunning, which does nothing without a pool, over tables with one.
* Dates and durations outside the range of their types: times are unbounded integers. In dunning a backoff date first leaves the range after attempt 37, which by `RetriesAreBoundedAndSpaced` comes more than 250,000 years after the first.
* Integer widths of sizes and counts: `usize` is 64 bits, sums of sizes do not overflow, and the number of VMs fits the 32 bits it is cast to.
- DunningRuns.SuspendedIffExhausted: `register_customer` and `update_customer` (crates/shellwego-billing/src/lib.rs:452-496) overwrite a customer's status and are not steps, so it holds only while no one updates a customer.
- Usage.RealtimeCounter.FlushAll: one atomic step; the source walks the map and clears it afterwards (crates/shellwego-billing/src/metering.rs:543-561), so an increment in between is lost, which the ledger does not show.
- Dunning.BillingTables.ProcessPayment: one atomic step; the source checks the status and charges in separate awaits (crates/shellwego-billing/src/lib.rs:794-844), so two calls at once may both charge.
- DunningRuns.RetriesPerFailure: writes to the tables succeed, because the source ignores failing ones; there is one worker, and amounts and currencies are not part of this model.
* `restore_from_snapshot` inserts without the cap check and is not a step of the runs that bound it; a process left behind by a failed launch is not counted.
- Reconciling.Reconciler.Reconcile: nothing else changes the VM map during a pass; the drift check, which always answers no, and the network policies, which do nothing, are not steps.
- Vmm.VmmManager.InsertVm: preparing the directory, spawning, configuring and starting are one outcome.
* Freshness of generated ids: UUIDs are parameters that do not repeat.
* The regex engine is a parameter; the ciphers and the keyed hash are parameters with the laws of an authenticated cipher. UTF-8 validity and base64 are written out.
- KeyFraming.WrapDek: the random key and nonce are parameters.
* The certificate request: only the DER layer is modelled, over the trees its encoders build; which fields a request holds, and their order, is not claimed.
* Changes between the selection and the deletion of a collection run: `gc_old_snapshots` releases its lock in between, here one run is one call. Files and datasets behind a snapshot or image are not part of this model.
- Snapshots.SnapshotManager.GcOldSnapshots: the cutoff is a parameter instead of the clock less the hours given.
* `ipnetwork`, `base64` and `regex` are not part of the repository; a subnet is its first address and size as those crates define them. Prefixes of 32 panic in `Ipam::new`.
* The idle connections of the pool, health checks, circuit breakers, middleware and upstream weights, which the selection never reads.
- Upstreams.HttpProxy.SelectUpstream: the number drawn for the random strategy is a parameter.
* Command line, configuration, HTML invoices, log and metric export, WebSocket forwarding, the certificate resolver and the file store: no property that spans operations.
