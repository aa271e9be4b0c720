# Orb: protocols, paging, observer and codecs

A Dafny model of the parts of the Orb server whose correctness spans several functions or several server
instances, with proofs about every run and every input. `dafny verify dfyconfig.toml` checks the project.

| file | what it models |
|---|---|
| `GetOrInit.dfy`, `GetOrInitCall.dfy` | agreement on a configuration value through a store with only Get and Put: n interleaved callers as a state machine, and one call as an imperative method |
| `TaskManager.dfy`, `TaskRunner.dfy` | the task manager's permit (lease) protocol: n instances as a state machine over a shared clock and store, and one instance's `run`, `shouldRun` and `updatePermit` as an object |
| `Paging.dfy`, `ActivityClient.dfy` | ActivityPub paging: the page numbers the server links to, and the client iterators that walk those links while the list grows and fetches fail |
| `Observer.dfy`, `ObserverService.dfy`, `Errors.dfy` | the observer: processing of anchor and DID messages, ack and nack by error class, suppression of duplicates through the link store |
| `Vocab.dfy`, `VocabShapes.dfy`, `VocabRoundTrip.dfy`, `VocabResults.dfy`, `VocabMeaning.dfy`, `VocabObjects.dfy` | the ActivityStreams JSON codec over an abstract JSON value: the codec, which JSON it reads and gives back unchanged, which values survive it, the results for the code's field tables, what each property of a document becomes, and the loops |
| `ByteStrings.dfy`, `Cbor.dfy`, `Hashlink.dfy`, `DataUri.dfy`, `Linkset.dfy`, `AnchorString.dfy` | the content-addressed codecs, byte by byte |
| `CertPool.dfy`, `Lifecycle.dfy` | the certificate pool and the service lifecycle under interleaving, and as objects |

How the model is built:

- A protocol is a step relation: `Enabled` and `Apply` give one atomic access to a store, a lock, a flag or
  the clock, `Runs` and `Exec` give whole runs, and an inductive invariant is kept by every step. Fields marked
  as history are only written, never read by a step.
- Code that changes state is an object or a method with loops. Its contract ties it to a function of the old
  state, and the results about whole runs are proved about that function.
- What the code asks of libraries and providers is a parameter: the clock, whether a fetch, Get or Put
  succeeds, the answers of the observer's providers, SHA-256 (any function with 32-byte results) and gzip (any
  pair of functions of which the second inverts the first).
- Where the documentation or an expectation and the code disagree, the model follows the code, and says with a
  run or an input that it fails and with a lemma exactly when it holds:
  - a leader that is on time keeps the permit if and only if followers decide in the second of their Get
    (`LeadershipHoldsIffPrompt`); one second later, and one of them can take it (`LateFollowerTakesOver`);
  - following `prev` ends at page 0 if and only if there is an item or the walk starts there (`PrevWalkDescends`);
  - a document comes back from unmarshalling and marshalling unchanged if and only if nothing in `additional`
    disturbs a struct field (`RemarshalIsStable`); a property named as a field in another case does
    (`CapitalIdGainsAnId`, `CapitalTypeIsAType`), and a number under `cid` cannot be read at all
    (`NumericCidCannotBeReadBack`);
  - Get keeps the promise of its comment if and only if no certificate is pending (`GetKeepsItsPromise`); one can be
    pending because another Get is refreshing the pool or has failed to (`ConcurrentGetIsStale`,
    `FailedLoadLosesCertificates`);
  - a redelivered anchor overwrites a newer reference if and only if its hashlink has not been saved
    (`StaleDeliveryRewritesIffNotSaved`, `NoRollback`), which a crash can cause (`CrashedDeliveryRollsBack`);
  - a link of a linkset counts if and only if it is not taken for a duplicate of an earlier one
    (`LinkIsWrittenIffNotDropped`, `SecondLinkCanBeLost`);
  - `Link.Validate`, which gives the related references to the check of the replies, agrees with a check of the
    replies if and only if there are none, the first decodes, or the link is invalid anyway
    (`RepliesAreValidatedIff`, `UndecodableReplyValidates`).

## Model

| member | source | states |
|---|---|---|
| GetOrInit.Agreement | cmd/orb-server/startcmd/start.go:1560-1605 | In every run of n concurrent callers in which each Put lands less than the timeout after the read that found the key missing, all successful calls return the same bytes, which stay the stored value for the rest of the run |
| GetOrInit.RoundsBounded | cmd/orb-server/startcmd/start.go:1567-1604 | Without any timing assumption no call enters the function more than n + 1 times, because each mismatch is paid for by another caller's only Put |
| GetOrInit.RoundsBoundedWhenTimely | cmd/orb-server/startcmd/start.go:1567-1604 | Under the timing assumption no call enters the function more than three times, whatever n |
| GetOrInit.LatePutBreaksAgreement | cmd/orb-server/startcmd/start.go:1588-1604 | For every timeout there is a run with one late Put in which two calls return different values |
| GetOrInit.InvStep | cmd/orb-server/startcmd/start.go:1560-1605 | Every step keeps the invariant: a caller stores at most once, and its rounds are bounded by the Puts it has seen |
| GetOrInit.TimedInvStep | cmd/orb-server/startcmd/start.go:1560-1605 | Every timely step keeps the invariant that nobody returns before the key has settled and that what was returned is what is stored |
| GetOrInit.ReturnedStays | cmd/orb-server/startcmd/start.go:1582-1584 | What a call has returned is never revised |
| GetOrInit.ReturnsOnlyTheUnchanged | cmd/orb-server/startcmd/start.go:1570-1586 | A caller returns only by finding, at least the timeout after its read, the value it has read unchanged; otherwise it starts over |
| GetOrInitCall.Call | cmd/orb-server/startcmd/start.go:1560-1605 | Whatever other instances store and wherever an access fails, the result, the store, the events used up and the accesses made are those of `CallOutcome`, about which the next three rows speak; the call ends, since every further round consumes an event |
| GetOrInitCall.CallIsARun | cmd/orb-server/startcmd/start.go:1560-1605 | For every sequence of events, what a call does at the store is, access by access, a run of the state machine in which this caller takes the steps of its rounds, and which ends with the caller having returned exactly the result, failed, or been unable to initialise; so agreement holds of calls |
| GetOrInitCall.CallReturnsTheStored | cmd/orb-server/startcmd/start.go:1562-1604 | A successful call ends with a Get, a sleep and a Get that both saw the value it returns, with nothing of its own in between; the value is stored, and was there, is its own or another instance's; each error has its cause |
| GetOrInitCall.UndisturbedCallReturns | cmd/orb-server/startcmd/start.go:1560-1605 | Undisturbed, a call returns the present value, or else initialises it |
| GetOrInitCall.ConfigStore.Advance | cmd/orb-server/startcmd/start.go:1562-1575 | Between two accesses another instance may store a value or the access may fail; nothing else changes the entry |
| GetOrInitCall.ConfigStore.Get | cmd/orb-server/startcmd/start.go:1562-1575 | A Get sees what is stored after the event before it, or fails with it |
| GetOrInitCall.ConfigStore.Put | cmd/orb-server/startcmd/start.go:1598-1600 | A Put overwrites whatever is stored by then, or fails and stores nothing |
| GetOrInitCall.UndisturbedCall | cmd/orb-server/startcmd/start.go:1560-1605 | The steps of an undisturbed caller exist in the state machine and return the same value as the call |
| TaskManager.LaunchesAreSpaced | pkg/taskmgr/taskmgr.go:164-196 | In every run, a launch on any instance whose permit read follows the permit write of an earlier launch comes at least the task interval after it, in whole-second time |
| TaskManager.AtomicLaunchesAreSpaced | pkg/taskmgr/taskmgr.go:164-196 | If no launch falls between a check's read and its write, any two launches in the cluster are at least the task interval apart |
| TaskManager.RacingLaunches | pkg/taskmgr/taskmgr.go:164-196 | Without that, two instances can launch at the same instant, for every configuration |
| TaskManager.AgeIsSecondDifference | pkg/taskmgr/taskmgr.go:219-226 | The truncated age of a permit is exactly the difference of whole-second stamps |
| TaskManager.DecisionIsSpaced | pkg/taskmgr/taskmgr.go:228-266 | Whoever decides to run, holder or not, finds a permit at least the task interval old |
| TaskManager.SpacingStep | pkg/taskmgr/taskmgr.go:152-293 | Every step of every instance keeps the spacing invariant |
| TaskManager.LeadershipIsStable | pkg/taskmgr/taskmgr.go:152-267 | Once an instance has written the permit with the others quiet, and completes a check at least every S + 1 seconds, the permit names it for the rest of every run and every launch is its own, if each follower decides in the second of its Get or on the permit that is still stored |
| TaskManager.LeadershipHoldsIffPrompt | pkg/taskmgr/taskmgr.go:199-267 | For every S and T in whole seconds: leadership is stable in all on-time runs in which followers decide at most D seconds after their Get if and only if D is zero |
| TaskManager.LateFollowerTakesOver | pkg/taskmgr/taskmgr.go:199-267 | For every S and T there is a run with the leader on time and one follower one second late in which the follower takes the permit |
| TaskManager.FollowerStandsBack | pkg/taskmgr/taskmgr.go:243-266 | A follower that decides in the second of its Get, or on the permit that is still stored, finds an on-time leader's permit too young |
| TaskManager.LeaderStep | pkg/taskmgr/taskmgr.go:152-293 | Every admissible step keeps the leader's invariant, and only the leader's grants launch |
| TaskManager.HandleNeverOverlaps | pkg/taskmgr/taskmgr.go:306-319 | Whatever goroutines call it, the handle of one registration never runs twice at once, and while it runs the flag is set |
| TaskRunner.Manager.Run | pkg/taskmgr/taskmgr.go:152-196 | One check leaves exactly the outcome of `CheckOutcome` under the task's key, errors included, and leaves the permits of all other tasks alone |
| TaskRunner.Manager.DecideToRun | pkg/taskmgr/taskmgr.go:199-267 | The decision for a missing, malformed, own and foreign permit, also said in whole seconds: the holder runs at the interval, anybody else takes over after both intervals, whatever the status |
| TaskRunner.Manager.UpdatePermit | pkg/taskmgr/taskmgr.go:269-293 | The permit names the instance, the status and the current second; a failed Put changes nothing |
| TaskRunner.CheckOutcome | pkg/taskmgr/taskmgr.go:152-267 | A launch goes with a permit written in the same second; a foreign permit within the limit is left alone; a failing Put launches nothing |
| TaskRunner.CheckLaunchesIffDue | pkg/taskmgr/taskmgr.go:152-267 | For every stored permit, clock and answer of the store: a check launches if and only if the task is not running, the store works and the task is due in whole seconds; what permit is left and which error is reported in every case |
| TaskRunner.DueDecides | pkg/taskmgr/taskmgr.go:219-266 | The decision on the truncated age is the one in whole seconds, also for stamps in the future |
| TaskRunner.DeadHolderIsReplaced | pkg/taskmgr/taskmgr.go:243-261 | In the state machine an idle instance that finds another's permit older than both intervals, whatever its status, takes it and launches the task |
| TaskRunner.UninterruptedTask | pkg/taskmgr/taskmgr.go:182-193 | The goroutine's steps run the handle if the flag was free, leave the flag as it was, and an idle permit of the current second |
| TaskRunner.Manager.RunTask | pkg/taskmgr/taskmgr.go:182-193 | The same for the object, with a failing Put |
| TaskRunner.Registration.Run | pkg/taskmgr/taskmgr.go:306-315 | The handle runs only if the flag was free |
| TaskRunner.UninterruptedCheck | pkg/taskmgr/taskmgr.go:152-196 | The object and the state machine agree on the permit and the launches of an uninterrupted check |
| TaskRunner.PermitKeysDiffer | pkg/taskmgr/taskmgr.go:295-297 | Different tasks have different permit keys |
| Paging.NextWalkCoversTheList | pkg/activitypub/resthandler/resthandler.go:156-176 | Following next from the first page visits every page once in order, and the pages' items put together are the whole list |
| Paging.NextWalkContents | pkg/activitypub/resthandler/resthandler.go:254-271 | From any page k on, the walk yields exactly the items from k * pageSize on |
| Paging.PageCount | pkg/activitypub/resthandler/resthandler.go:292-314 | The number of pages is the item count divided by the page size, rounded up |
| Paging.HighestPageAtLeast | pkg/activitypub/resthandler/resthandler.go:304-314 | Page k is not beyond the last page if and only if it starts before the end of the list |
| Paging.PrevWalkDescends | pkg/activitypub/resthandler/resthandler.go:254-271 | Following prev from any page, even past the end, visits every lower page once and ends; it ends at page 0 if and only if there is an item or the walk starts there |
| Paging.DescendingMirrorsAscending | pkg/activitypub/resthandler/resthandler.go:254-290 | On the same page, prev and next of a descending collection are next and prev of the ascending one |
| ActivityClient.ForwardIteratorIsACursor | pkg/activitypub/client/client.go:529-624 | After any mix of Next, NextPage before the end, SetNextIndex in range, growth of the list and failed fetches, a fresh forward iterator returns the list's item at position `numProcessed`, or ErrNotFound exactly when the items of the collection are processed |
| ActivityClient.NextReturnsTheFlatItem | pkg/activitypub/client/client.go:554-575 | For both orders: an aligned iterator returns the flat list's element at `numProcessed` and stays aligned; an error changes nothing |
| ActivityClient.FetchKeepsAligned | pkg/activitypub/client/client.go:581-624 | Fetching the next page continues the flat list where the old page ended, and the page is not empty while there are items to process |
| ActivityClient.AlignedUnderGrowth | pkg/activitypub/client/client.go:529-624 | Growth of the server's list does not move the iterator; in reverse it does not change what is walked |
| ActivityClient.NextFixesTheWalk | pkg/activitypub/client/client.go:554-649 | In reverse, the first page read fixes the prefix that is walked back, for good |
| ActivityClient.CallsKeepAligned | pkg/activitypub/client/client.go:529-624 | Every sequence of calls in range keeps the iterator aligned with the flat list |
| ActivityClient.IteratorKnowsItsPlace | pkg/activitypub/client/client.go:525-624 | In both orders, after any mix of calls, the item Next returns stands on the page that the iterator then names as the current one, at the index just passed; going forward page and index give the number of items processed |
| ActivityClient.NextItemIsWhereItSays | pkg/activitypub/client/client.go:554-575 | One call of Next |
| ActivityClient.FetchLocates | pkg/activitypub/client/client.go:614-617 | The page behind the next link becomes the current one, with its items |
| ActivityClient.NextPageBehindTheLast | pkg/activitypub/client/client.go:538-552 | With no next link the rest of the page counts as processed, Next returns nothing any more, and the iterator stays aligned if and only if nothing was skipped |
| ActivityClient.ServedCurrent | pkg/activitypub/resthandler/resthandler.go:156-208 | A page names itself, also when it was asked for without a number |
| ActivityClient.NewCursorIsAligned | pkg/activitypub/client/client.go:279-299 | A fresh iterator of either order stands at the start of its flat list, for every collection size including zero |
| ActivityClient.ForwardReadsTheCollection | pkg/activitypub/client/util.go:37-56 | Reading everything forward yields exactly the items the collection had, in order, however the list grew |
| ActivityClient.ReverseReadsTheWalkedPrefix | pkg/activitypub/client/util.go:37-56 | Reading everything in reverse yields the first N elements of the walked prefix backwards, element by element |
| ActivityClient.ReadBackItems | pkg/activitypub/client/client.go:638-649 | Read in reverse up to the first m items, the i-th activity returned is item m - 1 - i of the list |
| ActivityClient.ReverseReadsTheCollection | pkg/activitypub/client/client.go:279-299 | That prefix ends with the collection's last page L as it was when read: min((L + 1) * pageSize, n) items |
| ActivityClient.ServedForward | pkg/activitypub/resthandler/resthandler.go:156-208 | A page served is a slice of the list with a link to the next slice unless the list ends there |
| ActivityClient.ServedBackward | pkg/activitypub/resthandler/resthandler.go:156-208 | A page served going backward is, reversed, the matching slice of the reversed list |
| ActivityClient.CollectActivities | pkg/activitypub/client/client.go:600-612 | The loop over a page's items collects its activities, in reverse order for the reverse iterator, and skips everything else |
| ActivityClient.IdsOfConcat | pkg/activitypub/client/client.go:600-612 | Collecting goes piece by piece, so exactly the activities are kept, in order |
| ActivityClient.IdsOfOne | pkg/activitypub/client/client.go:602-612 | An activity is kept, anything else is passed over |
| ActivityClient.ActivityIterator.FromCollection | pkg/activitypub/client/client.go:279-299 | The iterator starts at the first or the last page with the collection's item count |
| ActivityClient.ActivityIterator.SetNextIndex | pkg/activitypub/client/client.go:529-532 | The new state; an index within the page keeps the iterator aligned |
| ActivityClient.ActivityIterator.GetNextPage | pkg/activitypub/client/client.go:581-624 | The new state and error for no link, a failed fetch, an empty page and a page; the current page is the one behind the old link |
| ActivityClient.ActivityIterator.NextPage | pkg/activitypub/client/client.go:538-552 | The rest of the page counts as processed, unless the fetch failed; which error, and when; the page returned is the one behind the old link |
| ActivityClient.ActivityIterator.Next | pkg/activitypub/client/client.go:554-575 | The new state and result are those the cursor results are proved about |
| ActivityClient.ReadActivities | pkg/activitypub/client/util.go:37-56 | With the list growing before every call: the flat list from the current position on, cut at `maxItems` and at the collection's item count |
| ActivityClient.ReadCollection | pkg/activitypub/client/client.go:252-299 | Server and client together: forward the collection as it was at the start, in reverse the first N elements of the reversed prefix that ends with page L |
| Observer.NoLostAnchor | pkg/observer/observer.go:220-249 | Over every run of anchor and DID deliveries, provider failures, crashes, redeliveries and link changes by others: when a delivery ends with a nil result a did-anchor bulk write of its anchor has succeeded, now or earlier, unless others had saved that very hashlink |
| Observer.NoLostDidAnchor | pkg/observer/observer.go:251-294 | The same for each anchor of a DID message, except those that fail with a persistent error |
| Observer.NackedExactlyOnTransient | pkg/observer/pubsub.go:211-230 | A message with a single-link linkset is nacked exactly when a transient error occurs anywhere in the chain of the error that stopped it |
| Observer.FirstFailureDecides | pkg/observer/observer.go:240-248 | For a linkset of any length the result is the error of the first link that fails, and nil exactly when none does |
| Observer.DidNackedExactlyOnTransient | pkg/observer/observer.go:276-293 | A DID message is nacked exactly when one of its anchors fails with a transient error |
| Observer.DidMessageNackedIff | pkg/observer/pubsub.go:193-230 | A DID message is nacked if and only if the DID has a colon and either its anchors could not be read for a transient reason or one of them fails transiently; a nil result means that they were read and none did |
| Observer.UnreadAnchorFails | pkg/observer/observer.go:230-236 | If the linkset cannot be read, nothing is changed and the error decides between ack and nack |
| Observer.EachErrorStops | pkg/observer/observer.go:308-400 | Whichever step of processing fails first, nothing is written, saved or posted, and its error is the cause of the result |
| Observer.SuccessfulAnchor | pkg/observer/observer.go:394-414 | If nothing fails, the anchor becomes the latest one of all its suffixes, its link is saved, and a 'Like' naming the anchor and the local hashlink is posted if it is attributed to somebody |
| Observer.FailureStopsTheRest | pkg/observer/observer.go:240-246 | What has been done when a link fails is what the links before it have done |
| Observer.TransientFailureStopsTheRest | pkg/observer/observer.go:276-291 | The same for the first anchor of a DID that fails transiently |
| Observer.DidPartsExactly | pkg/observer/observer.go:296-305 | A DID is taken apart at its last colon if and only if it has one, and nothing is lost |
| Observer.EveryLikeIsEarned | pkg/observer/observer.go:394-411 | Over every run a 'Like' is only sent for an anchor whose bulk write has succeeded |
| Observer.DidPostsNothing | pkg/observer/observer.go:276-291 | Processing a DID posts nothing |
| Observer.SavedAnchorIsIgnored | pkg/observer/observer.go:366-392 | Once an anchor is saved and unless its link is deleted, any later delivery of it without new operations leaves the did-anchor map, the link store and the outbox as they are, whatever happened in between |
| Observer.SavedStays | pkg/observer/observer.go:569-578 | Over every run a saved link stays saved unless somebody deletes it |
| Observer.NoRollback | pkg/observer/observer.go:366-400 | Once an anchor is saved, over every run in which its link is not deleted and its redeliveries bring no new operation, it never again becomes the latest anchor of a suffix |
| Observer.StaleDeliveryRewritesIffNotSaved | pkg/observer/observer.go:366-400 | A delivery without new operations that does not fail makes the anchor the latest one of its suffixes again if and only if its hashlink is not saved |
| Observer.CrashedDeliveryRollsBack | pkg/observer/observer.go:394-411 | A crash after the bulk write, a newer anchor, and the redelivery: the suffix names the old anchor again |
| Observer.LinkIsWrittenIffNotDropped | pkg/observer/observer.go:240-248 | In a linkset of any length that is processed without an error, a link writes its suffixes, saves and likes if and only if not (it brings no new operation and the hashlink was saved at the start or by an earlier link); otherwise it does nothing |
| Observer.SuffixesAfterLinkset | pkg/observer/observer.go:240-248 | After such a linkset a suffix names the anchor if a link that is not dropped has it, and is unchanged otherwise |
| Observer.EffectsOfLinkset | pkg/observer/observer.go:240-248 | The effects of a linkset are those of its links in order |
| Observer.SecondLinkCanBeLost | pkg/observer/observer.go:240-248 | A second link without new operations leaves its suffix alone, with a nil result, once the first has saved the hashlink |
| Observer.ForeignLinkHidesAnAnchor | pkg/observer/observer.go:366-385 | If others have saved the hashlink, a delivery without new operations ends with nil although no bulk write was made |
| Observer.LinksWriteFirst | pkg/observer/observer.go:394-411 | Processing a linkset never saves a link before the bulk write of the same anchor |
| Observer.RunKeepsLinksWritten | pkg/observer/observer.go:308-414 | Over every run, each saved link belongs to an anchor whose bulk write succeeded, or was put by others |
| ObserverService.Service.ProcessAnchor | pkg/observer/observer.go:308-414 | The effects, their order and the error are those of the function the run results are proved about |
| ObserverService.Service.HandleAnchor | pkg/observer/observer.go:220-249 | The loop over the links, stopping at the first error |
| ObserverService.Service.ProcessDID | pkg/observer/observer.go:251-294 | The loop over a DID's anchors, stopping only at a transient error; a failed read of the anchors is the result |
| ObserverService.Service.IsAnchorEventProcessed | pkg/observer/observer.go:580-600 | Searching only the links with the anchor's hash finds the hashlink exactly when it is saved |
| ObserverService.Service.SaveAnchorLinkAndPostLike | pkg/observer/observer.go:449-505 | The link is saved even if the 'Like' is not posted, and the other way round |
| ObserverService.Service.HandleAnchorMessage | pkg/observer/pubsub.go:174-191 | Acked or nacked by the class of the result; an unreadable message is acked and changes nothing |
| ObserverService.Service.HandleDIDMessage | pkg/observer/pubsub.go:193-209 | The same for a DID message, nacked exactly if its anchors cannot be read or one of them fails, for a transient reason |
| Errors.IsTransientInChain | pkg/errors/errors.go:26-41 | An error is transient if and only if a transient wrapper occurs somewhere in its chain |
| VocabResults.RemarshalIsStable | pkg/activitypub/vocab/objecttype.go:303-332 | For every well-formed object, activity, collection, ordered collection or anchor event whose document gives no field in two spellings: the document can be unmarshalled if and only if the value is readable, and then marshalling the result gives the same document if and only if the value is settled; no reserved key is left in `additional` |
| VocabResults.FixedPoints | pkg/activitypub/vocab/util.go:75-107 | For every variant and every such document that can be read: it comes back unchanged if and only if it is normal, which is said by its shape |
| VocabResults.CapitalIdGainsAnId | pkg/activitypub/vocab/objecttype.go:303-332 | An object with `Id` in `additional` holds no reserved key, yet its document comes back with an `id` as well |
| VocabResults.OtherCaseGainsAField | pkg/activitypub/vocab/objecttype.go:303-332 | So for every header field in another case with any value that is not zero |
| VocabResults.CapitalTypeIsAType | pkg/activitypub/vocab/objectproperty.go:170-216 | A document with `Type` is typed, so it is not a document variant |
| VocabResults.UndisturbedIsSettled | pkg/activitypub/vocab/objecttype.go:303-332 | If no property of `additional`, here or inside, is taken for a field, the value is settled |
| VocabResults.NumericCidCannotBeReadBack | pkg/activitypub/vocab/objecttype.go:303-332 | An object with a number under `cid` in `additional` holds no reserved key, yet its document cannot be unmarshalled |
| VocabResults.VariantRoundTrip | pkg/activitypub/vocab/objectproperty.go:137-264 | A property whose type classifies to its variant can be read back if and only if it is readable, and then comes back as that variant with the same typed fields, through any nesting; its JSON is the same if and only if it is settled |
| VocabMeaning.TypesDecide | pkg/activitypub/vocab/objectproperty.go:194-213 | With the names written out: which types make a collection, an ordered collection, an activity (nine of them), an anchor event or a plain object, and which wins |
| VocabMeaning.ActivityDecodes | pkg/activitypub/vocab/objectproperty.go:242-252 | An object with one of the nine activity types is decoded as an activity with its actor, target, object and result |
| VocabMeaning.TypedObjectDecodes | pkg/activitypub/vocab/objectproperty.go:170-216 | Which variant any other typed object is decoded as, and what is left in `additional` |
| VocabMeaning.ActivityKeepsItsFields | pkg/activitypub/vocab/activitytype.go:20-25 | An activity keeps actor, target, object and result, and nothing else |
| VocabMeaning.CollectionKeepsItsFields | pkg/activitypub/vocab/collection.go:20-26 | A collection keeps current, first, last, totalItems (zero if missing) and items |
| VocabMeaning.OrderedCollectionKeepsItsFields | pkg/activitypub/vocab/collection.go:145-147 | An ordered collection also keeps orderedItems |
| VocabMeaning.AnchorEventKeepsItsFields | pkg/activitypub/vocab/anchoreventtype.go:24-26 | An anchor event keeps its object |
| VocabMeaning.ObjectKeepsItsFields | pkg/activitypub/vocab/objecttype.go:69-84 | Every variant keeps the fourteen fields of an object, each as its kind says |
| VocabMeaning.TagDecodes | pkg/activitypub/vocab/tagproperty.go:79-103 | A tag of type Link keeps its reference and relationship, any other is an object |
| VocabMeaning.ReservedExactly | pkg/activitypub/vocab/vocab.go:119-147 | Reserved are exactly the fields of objects, collections and activities but for cid, generator and tag, and parent and index |
| VocabMeaning.SpellingsOfItems | pkg/activitypub/vocab/collection.go:20-26 | Which spellings of a name are taken for the field |
| VocabResults.UnmarshalRemovesReserved | pkg/activitypub/vocab/objecttype.go:308-332 | Unmarshalling any document leaves no reserved property in `additional` and keeps every other property |
| VocabShapes.ObjectComesBack | pkg/activitypub/vocab/util.go:75-107 | For any sound field tables: merging the structs decoded from a document with its unreserved rest gives back the document if and only if it is normal, by induction over the JSON |
| VocabShapes.ReadsExactly | pkg/activitypub/vocab/urlproperty.go:52-135 | A field is read if and only if its JSON has the shape of the field's kind, to any depth |
| VocabShapes.TagComesBack | pkg/activitypub/vocab/tagproperty.go:66-103 | A tag comes back unchanged if and only if it is a bare link or a normal object |
| VocabShapes.DecodedByType | pkg/activitypub/vocab/objectproperty.go:170-216 | How an object decodes, by the names it gives as its type in any case |
| VocabRoundTrip.EntityReturns | pkg/activitypub/vocab/activitytype.go:69-79 | Every typed field of every variant comes back, by induction over the nesting |
| VocabRoundTrip.EntityIsNormal | pkg/activitypub/vocab/activitytype.go:69-79 | A value's own document is normal if and only if the value is settled, by induction over the nesting |
| VocabRoundTrip.EntityReads | pkg/activitypub/vocab/collection.go:105-171 | A value's own document decodes if and only if what `additional` contributes to struct fields has their shape, here and inside |
| VocabShapes.NamesComeBack | pkg/activitypub/vocab/typeproperty.go:30-59 | The one-or-many codec gives back an array of names if and only if it has no null and not exactly one element |
| VocabResults.VocabularyIsSound | pkg/activitypub/vocab/objecttype.go:69-84 | In the code's tables no property is taken for two fields, every count is reserved, and the type is a list of names |
| VocabResults.MisclassifiedObjectGainsACount | pkg/activitypub/vocab/objectproperty.go:170-216 | A plain object typed as a collection comes back as a collection and its document gains a count |
| VocabObjects.DocumentMap.MergeWith | pkg/activitypub/vocab/vocab.go:149-157 | The loop merges in place, fields already present winning |
| VocabObjects.DocumentMap.DeleteReserved | pkg/activitypub/vocab/objecttype.go:308-332 | The loop deletes exactly the reserved properties |
| VocabObjects.Is | pkg/activitypub/vocab/typeproperty.go:84-96 | True if and only if at least one type is given and all the given types are present |
| VocabObjects.IsAny | pkg/activitypub/vocab/typeproperty.go:98-111 | True if and only if one of the given types is present |
| VocabObjects.ClassifyTypes | pkg/activitypub/vocab/objectproperty.go:170-216 | The switch on the type property computes the classification the round trips are stated about, here with the names written out |
| VocabObjects.ReservedPropertiesAreReserved | pkg/activitypub/vocab/vocab.go:119-147 | The list of reserved properties is the set used in the proofs |
| Hashlink.HashLinkRoundTrip | pkg/hashlink/hashlink.go:80-133 | For every content and list of links, parsing the created hashlink returns the resource hash of the content and the same links if and only if the links are UTF-8 and within the decoder's limit |
| Hashlink.ResourceHashAgrees | pkg/hashlink/hashlink.go:228-236 | On every string that parses, the two ways of getting at the resource hash agree |
| Hashlink.AcceptedHashLink | pkg/hashlink/hashlink.go:103-133 | A string is accepted if and only if it is the prefix, a valid resource hash and at most one part of metadata from which links can be read, and the result says which |
| Hashlink.AcceptedResourceHash | pkg/hashlink/hashlink.go:276-292 | A resource hash is valid if and only if it decodes to the code 0x12, a length and that many bytes |
| Hashlink.HashLinkBytes | pkg/hashlink/hashlink.go:80-149 | The bytes of a resource hash and of a hashlink |
| Hashlink.ReadLinks | pkg/hashlink/hashlink.go:170-194 | Links are read only from one CBOR map, as the texts that stand with its last key 15 |
| Hashlink.MetadataExample | pkg/hashlink/hashlink.go:152-167 | The five bytes of the metadata of one link |
| Hashlink.LinksRoundTrip | pkg/hashlink/hashlink.go:152-194 | Links come back from the metadata made of them exactly when they are UTF-8 and within the limit |
| Hashlink.EncodeRoundTrip | pkg/hashlink/hashlink.go:44-60 | The default decoder inverts the default encoder at every length, and the encoding never holds ':' |
| Hashlink.ResourceHashIsValid | pkg/hashlink/hashlink.go:276-292 | A created resource hash is a valid multihash of the expected code |
| Hashlink.CollectStrings | pkg/hashlink/hashlink.go:239-274 | The loop returns the strings of an array of strings and fails on anything else |
| Cbor.HeadRoundTrip | pkg/hashlink/hashlink.go:152-167 | A CBOR head (section 3 of RFC 8949) decodes to its major type and argument, for every 64-bit argument |
| Cbor.TextsRoundTrip | pkg/hashlink/hashlink.go:152-194 | A sequence of text strings decodes to itself if and only if all are UTF-8 |
| Cbor.ItemsByMajor | pkg/hashlink/hashlink.go:170-194 | What an item is by its major type, and what is refused |
| ByteStrings.RawRoundTrip | pkg/hashlink/hashlink.go:46-59 | Unpadded base64 is inverted at every length, for both alphabets |
| ByteStrings.StdRoundTrip | pkg/datauri/datauri.go:110-131 | Padded base64 is inverted at every length |
| ByteStrings.AlphabetIs | pkg/hashlink/hashlink.go:46-59 | The symbols of both alphabets, as in sections 4 and 5 of RFC 4648 |
| ByteStrings.EncodedExample | pkg/datauri/datauri.go:110-131 | An encoding with padding, and one with the symbols of the URL alphabet |
| ByteStrings.DecodesExactly | pkg/hashlink/hashlink.go:49-59 | A string is decoded if and only if it consists of symbols and its length is not one more than a multiple of four |
| ByteStrings.EncodedIsValid | pkg/hashlink/hashlink.go:170-194 | The encoding of any code points is valid UTF-8 |
| ByteStrings.ValidIsEncoded | pkg/hashlink/hashlink.go:170-194 | Any valid UTF-8 is the encoding of code points |
| DataUri.DataUriRoundTrip | pkg/datauri/datauri.go:36-108 | A data URI is made exactly for the two media types and decodes to the same bytes, for every content |
| DataUri.DataUriIs | pkg/datauri/datauri.go:36-89 | The text of a data URI |
| DataUri.MediaTypesAre | pkg/datauri/datauri.go:24-30 | The two media types and the scheme, letter by letter |
| DataUri.DecodeRejects | pkg/datauri/datauri.go:62-108 | Another scheme, a body without a comma and any other media type are refused |
| DataUri.EscapeExample | pkg/datauri/datauri.go:78-89 | How a space and a slash are escaped |
| DataUri.UnescapeExample | pkg/datauri/datauri.go:92-108 | Hexadecimal digits in either case, and incomplete escapes |
| DataUri.EscapeRoundTrip | pkg/datauri/datauri.go:78-108 | Query escaping is inverted for every byte string and leaves nothing that ends a URL or splits the URI |
| Linkset.AnchorRefRoundTrip | pkg/linkset/linkset.go:270-287 | The anchor is the hashlink of the data and the reference's content is the data, exactly for the two media types |
| Linkset.BuiltLinkValidates | pkg/linkset/linkset.go:163-195 | A link built from an anchor reference validates if and only if it has an author and a profile and its related content, if any, can be decoded |
| Linkset.NewLinkHolds | pkg/linkset/linkset.go:231-242 | The accessors of a new link return what it was made of |
| Linkset.ValidationErrors | pkg/linkset/linkset.go:163-195 | Which check fails with which error, in which order |
| Linkset.ValidatedAnchorIsTheHash | pkg/linkset/linkset.go:455-476 | The anchor of any validated link with an original is the hashlink of the decoded original |
| Linkset.RepliesAreValidatedIff | pkg/linkset/linkset.go:163-195 | The code agrees with a validation whose last check is on the replies if and only if there are none, the first decodes, or the link is invalid anyway; it never rejects a link that one accepts |
| Linkset.UndecodableReplyValidates | pkg/linkset/linkset.go:190-195 | A link built from an anchor reference validates with a reply that has no content to decode |
| AnchorString.ParseOfPrinted | pkg/anchor/util/anchordata.go:30-57 | Parsing the printed form returns the same data if and only if the count is positive and the URI has no '.' |
| AnchorString.PrintOfParsed | pkg/anchor/util/anchordata.go:30-57 | Printing the parse of any accepted string gives back that string |
| CertPool.PoolAgrees | internal/pkg/tlsutil/certpool.go:49-133 | After every step of concurrent Add and Get the subject index is exact; and with the flag clear and the lock free, the installed pool is the base and all queued certificates if and only if none is pending: queued since the last swap, not in the pool, and waiting for a Get that has cleared the flag or whose load failed |
| CertPool.GetKeepsItsPromise | internal/pkg/tlsutil/certpool.go:46-63 | In every run, when a Get returns, its pool holds every certificate queued by a call of Add that had returned before the Get began if and only if none of those is pending; a Get that refreshed the pool always keeps the promise |
| CertPool.QuietPoolIsCurrent | internal/pkg/tlsutil/certpool.go:49-133 | The pool is current when the flag is clear, the lock free, no Get between clearing and swapping, and no load has failed since the last swap |
| CertPool.InvStep | internal/pkg/tlsutil/certpool.go:49-133 | Every step of every caller keeps the invariant: the pool holds what the last swap installed, and with the flag clear every certificate of a returned Add is installed, waited for, or lost to a failed load |
| CertPool.EnqueueAllKeepsIndex | internal/pkg/tlsutil/certpool.go:78-84 | Queuing keeps every subject's list equal to the positions of its certificates |
| CertPool.ListedMeansQueued | internal/pkg/tlsutil/certpool.go:122-127 | With an exact index, searching the subject's list finds a certificate if and only if it is queued |
| CertPool.FreshExactly | internal/pkg/tlsutil/certpool.go:111-148 | What is added is exactly the pointers that are not nil and not queued, each once |
| CertPool.AddedExactly | internal/pkg/tlsutil/certpool.go:66-88 | After Add exactly the old and the given certificates are queued, and adding them again queues nothing |
| CertPool.FailedLoadLosesCertificates | internal/pkg/tlsutil/certpool.go:49-63 | A run in which a load fails and the next Get, begun after Add had returned, returns a pool without the certificate, with nothing under way |
| CertPool.ConcurrentGetIsStale | internal/pkg/tlsutil/certpool.go:46-63 | A run in which a Get begun after Add had returned returns a pool without the certificate while another Get is refreshing |
| CertPool.RemoveDuplicates | internal/pkg/tlsutil/certpool.go:135-148 | The loop keeps every pointer where it first occurs |
| CertPool.Pool.FilterCerts | internal/pkg/tlsutil/certpool.go:110-133 | The nested loops keep exactly what `Fresh` says |
| CertPool.Pool.Add | internal/pkg/tlsutil/certpool.go:66-88 | The queue, the index and the flag after Add; the invariant is kept |
| CertPool.Pool.SwapCertPool | internal/pkg/tlsutil/certpool.go:90-108 | The new pool is the base and all queued certificates, or unchanged if the base cannot be loaded |
| CertPool.Pool.Get | internal/pkg/tlsutil/certpool.go:49-63 | Called one at a time, Get returns the base and the certificates up to the last swap: all of them if it swaps, or if no load has failed since the last swap |
| Lifecycle.HooksRunOnce | pkg/lifecycle/lifecycle.go:86-120 | Under every interleaving each hook runs at most once, the stop hook only after the start hook has returned, and the state only moves forward |
| Lifecycle.InvRun | pkg/lifecycle/lifecycle.go:86-120 | Over every run at most one caller is in the start section, and only in the state Starting |
| Lifecycle.UninterruptedStart | pkg/lifecycle/lifecycle.go:86-100 | The steps of one uninterrupted Start lead to Started with the hook run once |
| Lifecycle.UninterruptedStop | pkg/lifecycle/lifecycle.go:103-115 | The steps of one uninterrupted Stop lead from Started to Stopped with the hook run once, and do nothing in any other state |
| Lifecycle.Service.Start | pkg/lifecycle/lifecycle.go:86-100 | The start hook runs only from the state NotStarted |
| Lifecycle.Service.Stop | pkg/lifecycle/lifecycle.go:103-115 | The stop hook runs only from the state Started |

## Left out

- TaskManager: one task with one registration; stamping and writing a permit are one step; `RegisterTask`, the ticking loop and the order in which tasks are checked are not modelled, and nothing is claimed about the permit's status, which the code never reads.
- GetOrInit: the stored value is opaque; a decoding error of the returned bytes counts as a failed call, and the store has no deletes.
- GetOrInitCall.Call: a failed Put is taken to have stored nothing; the state machine also has the case that it did.
- TaskRunner.Manager.Run: the goroutine it starts is a method of its own, `RunTask`, and steps of the state machine.
- Iterators started from a page: `reverseSort` compares positions, so its effect depends on the sort's internals; the forward case starts counting at zero in the middle of a list.
- `referenceIterator` and `ReadReferences`: the same walk without positions, which would only add easier members.
- Collections sorted in descending order are covered by the page numbers, not by the client's walk.
- ActivityClient: page URLs are abstracted to page numbers, a response that cannot be unmarshalled is a failed fetch, and all items of the list are activities where the flat list is concerned.
- Observer: partial writes inside one failing bulk write, several instances inside `processAnchor` at the same time, error messages, proof monitoring and metrics; a saved link is taken to print as the hashlink it was parsed from.
- Observer.NoLostAnchor: speaks of the bulk write of the anchor, not of each link's suffixes, which `SuffixesAfterLinkset` gives.
- Vocab: two spellings of one field in one JSON object, of which Go takes the one that comes last in the text and merges object-valued fields; the results are stated for documents without them (`Unambiguous`), since a JSON value here has no order.
- Vocab: an object property with no variant set, which cannot be marshalled, contexts that are not strings, actors and collection pages.
- Vocab: numbers are integers of any size, and URLs and times are opaque text that parses and prints as it was.
- Cbor: tags, floats, simple values and indefinite lengths; the decoder's element limit is a parameter.
- DataUri: URLs other than opaque ones without query and fragment; gzip itself.
- Linkset: JSON of links, `Items`, `Via`, `Up` and `Linkset()`; an anchor URL with a query or fragment.
- CertPool.PoolAgrees: says nothing while an Add holds the lock, since it sets the flag just before it releases the lock.
- CertPool: loading the system pool is a success with a fixed base or a failure; certificates are equal if subject and raw bytes are.
- Custom encoders, decoders and multihash codes of hashlinks, and `ToString`.
- Accessors, constructors and options of the vocabulary types.
- HTTP endpoints and signatures, authorization, witness policies, the verifiable-credential and VCT libraries, key management, content-addressed storage, IPFS, MongoDB, command line, logging, metrics: thin layers over libraries with no property of this kind.
