# StaleSecretWatch: a verified model

StaleSecretWatch is a Kubernetes operator. It keeps a ledger of the hashes of watched secrets in a ConfigMap, and once
a day it lists the secrets that have not been modified for too long, in the status of its custom resource and in a
Slack message. This project models its reconciler in Dafny and proves what holds of every call, every pass and every
run.

Check everything with `dafny verify dfyconfig.toml`.

## How the model is laid out

The four parts, and what is proved of each:

1. **The hash ledger.** `ConfigData` has the operator's own objects: namespaces holding secrets, scanned linearly and
   edited in place through the reference a scan returns. Each method is proved against the value-level ledger of
   `Ledger`, which refines a finite map from (namespace, name) to record. `HashPass` is one pass with its loops over the
   watch map in any order and with any failing call; `PassLaws` says that a pass is all or nothing, that the order of
   visits does not matter, and that a second pass stores the same bytes; `LedgerRuns` covers whole runs of passes.
2. **The daily check.** `Resources` is the versioned store (an update is accepted only when it carries the current
   version), and `DailyCheck` the protocol on it as a state machine: any number of reconcilers with arbitrarily stale
   copies, other writers, lost requests and lost replies, and a clock that never goes backwards. Its main theorem is the
   rate limit, and `Limit` says exactly when it can be broken. `Cluster` gives one reconciler's calls in the middle of
   everybody else's actions, `DailyChecks` is the code of the check in terms of those calls, and `Reconcile` the whole
   pass, against the description of a pass in `PassSpec`; the history of actions they leave is a run of the protocol, so
   the theorems about runs apply to them (`Reconcile.PassesObeyTheLimit`). Every effective action of a reconciler is on
   record as a deed, and every message it tries to send in an outbox, so that what a pass reports is all it has done.
3. **The report.** `Report` has the 64-bit arithmetic of the staleness test, the status and the message; `RunReport`
   joins it to the runs of the ledger: the message of the day names exactly the secrets a stored pass has seen whose
   latest modification is too long ago.
4. **Selection and hashing.** `Text` is comma-separated lists and the grammar of an exclude entry, `WatchList` the
   selection of secrets, and `HashInput` the bytes that are hashed.

`Clock` writes out 64-bit wrap-around and saturation, and reduces a formatted time to its whole second.

## Parameters

What the operator does not decide is quantified over: which calls fail, what each read returns and how old the version
is, what others do between two calls, the order in which a map is walked, the clock, the digest, and whether Slack is
configured and reachable. A write can fail before it reaches the store, be refused by it, or take effect and have its
reply lost.

## What the code does, where one might expect otherwise

- Exact for thresholds up to 106751 days only; beyond that the 64-bit product wraps or saturates and for some instants
  the test is wrong (`Report.ExactThresholds`, an if-and-only-if over all thresholds the webhook admits).
- The last history entry is not always the current hash: a secret that goes A, B, A leaves A, B.
  `LedgerRuns.LastEntryIsCurrent` gives the exact condition, `LedgerRuns.RotatedBackIsNotLast` the example.
- Only values are hashed, not their names or boundaries: renaming a key goes unseen (`HashInput.RenamedKeyIsInvisible`).
  Taking the names and the lengths as the shape of the data, all data of one shape are told apart from all data of
  another if and only if the shapes are equal or their total lengths differ (`HashInput.ShapesToldApart`).
- The write of the ledger reads again and then overwrites, so of two passes that overlap the later write can drop what
  the earlier one had seen, even of a secret that both have seen. `LedgerRuns.OverlapIsSequentialIff` says exactly when
  nothing is lost: for every secret the first saw, either the second saw it too, the hashes new to the first open the list
  of those new to the second, and a new entry has the same creation and type either way; or the second did not see it,
  and the first saw only known hashes and the known date. The theorems about runs are for passes that do not overlap.
- An object sent for creation still carries the version of an earlier read, which the server refuses. So a ConfigMap that
  vanishes during a pass is not brought back by that pass
  (internal/controller/stalesecretwatch_controller.go:163, 406 and 536).
- A pass's own condition writes can defeat its stamp: the copy it stamps was read before them, so the stamp is refused
  whenever one of them made a new version. A pass that adds the finalizer reads the resource again first, and is then
  defeated by its announcement instead. An undisturbed pass that reaches the daily check stamps if and only if it finds
  the annotation due and these conditions were in place before it: PrepareWatchlist, ReconcileComplete and, where the
  resource had the finalizer, ReconcileStarted, or FinalizerAdded where it did not (`Reconcile.Reconcile` through
  `PassSpec.Undisturbed`, `PassSpec.QuietPassIsDue`). Undisturbed means that nobody else acts, no call fails and reads
  are fresh; time goes on.
- The stamp is taken before the hour is looked at, so outside the hours from 10 to 20 UTC a check stamps and does not
  notify (internal/controller/stalesecretwatch_controller.go:640-649).
- The rate limit rests on the annotation never falling behind the last stamp. Others may write it as they like as long as
  they leave it as it is or no earlier than that stamp (`DailyCheck.RateLimit`). An accepted write lets the limit be
  broken if and only if it sets the annotation before the last stamp, during the day of that stamp (`Limit.WriteBreaksIff`;
  `Limit.LimitBreaksIff` for any state). One such write lets two reconcilers notify at the same instant
  (`DailyCheck.ForeignWriteDefeatsTheLimit`), and two stamps less than a day apart always mean one
  (`DailyCheck.CloseStampsNeedAForeignWrite`).
- A failed hashing pass ends the reconcile pass without an error and without asking to come back, because the error
  returned is an older one, and nil (internal/controller/stalesecretwatch_controller.go:171-176).
- The comparison with a newly made error never holds, so missing credentials are an error like any other
  (internal/controller/stalesecretwatch_controller.go:665).
- The delay computed with a `false` outcome of the daily check is dropped; the pass returns in ten minutes
  (internal/controller/stalesecretwatch_controller.go:184-193).
- A ConfigMap that has never been written decodes for the hashing pass (`HashPass.Loaded`, `LedgerRuns.SecondPassRecords`)
  but not for the report (`Report.Status.UpdateSecretStatuses`;
  internal/controller/stalesecretwatch_controller.go:321 and 407).
- A failure to add the finalizer is ignored and the pass goes on
  (internal/controller/stalesecretwatch_controller.go:120).
- The comment on the namespace field promises a comma-separated list (api/v1beta1/stalesecretwatch_types.go:25), but its
  pattern has no comma (line 26), so an admitted value names one namespace (`Text.NamespacePatternIsOneField`). The
  model follows the code, which splits. An empty field in such a list, as a trailing comma leaves, looks for secrets in
  every namespace, and makes a pass fail exactly when one of them is eligible there
  (`WatchList.EmptyFieldSelectsEverything`, `PassLaws.EmptyFieldFailsThePass`).

## Model

| member | source | states |
|---|---|---|
| Clock.Wrap | internal/controller/stalesecretwatch_controller.go:327 | The value a 64-bit product keeps: in range, congruent to the exact one, and equal to it when that fits. |
| Clock.FormatParse | internal/controller/utils.go:88-90 | A time written as text and read back loses less than a second and never moves forward. |
| ConfigData.Secret.UpdateOrAppendSecretData | internal/controller/stalesecretwatch_controller.go:468-480 | The history gains the hash exactly when it was not there, at the end; the date is replaced; nothing else changes. |
| ConfigData.ConfigData.SecretDataExists | internal/controller/stalesecretwatch_controller.go:483-494 | The scan returns the object at the first place the key occurs, and null exactly when the ledger has no such key. |
| ConfigData.ConfigData.AddSecretData | internal/controller/stalesecretwatch_controller.go:497-518 | One row is appended, to the first bucket of the namespace or to a new bucket at the end; every other row stays. |
| ConfigData.ConfigData.EditSecret | internal/controller/stalesecretwatch_controller.go:431-432 | The edit through the returned reference changes one row of the whole structure and nothing else. |
| ConfigData.ConfigData.RecordVisit | internal/controller/stalesecretwatch_controller.go:431-439 | One turn of the hashing loop is one upsert of the value-level ledger. |
| ConfigData.ConfigData.Decode | internal/controller/stalesecretwatch_controller.go:403-412 | Decoding builds a fresh object structure that shows the stored value, no object occurring twice. |
| Ledger.PutLookup | internal/controller/stalesecretwatch_controller.go:483-494 | Overwriting the record a scan found changes the lookup of that key and of no other, even with repeated names in the slices. |
| Ledger.InsertLookup | internal/controller/stalesecretwatch_controller.go:497-518 | After a miss, appending is insertion into the map: the new key is found, all other lookups stay. |
| Ledger.UpsertUpdatesMap | internal/controller/stalesecretwatch_controller.go:431-439 | An upsert of the nested slices is one update of the finite map from (namespace, name) to record. |
| Ledger.UpsertKeepsUnique | internal/controller/stalesecretwatch_controller.go:431-439 | No upsert ever makes two rows share a (namespace, name) pair. |
| Ledger.UpsertKeepsPlaces | internal/controller/stalesecretwatch_controller.go:497-518 | An upsert moves no row; a new one comes last in the bucket of its namespace, and a bucket is opened, at the end, only for a namespace that has none. |
| Ledger.MapShowsEveryRow | internal/controller/configmap_structure.go:19-38 | With unique keys nothing is hidden: every row is what the lookup of its key finds. |
| Ledger.ApplyLookup | internal/controller/stalesecretwatch_controller.go:420-441 | After any list of visits an entry depends only on what was seen of its own key, in order. |
| Ledger.PassIsConfluent | internal/controller/stalesecretwatch_controller.go:420-441 | For a fixed snapshot, every order of visits and every duplication in the lists gives the same map, described without any order. |
| Ledger.SecondPassIsIdle | internal/controller/stalesecretwatch_controller.go:431-434 | Visiting again what was visited leaves the ledger identical, down to the place of every row. |
| HashInput.AscendingIsUnique | internal/controller/utils.go:62-66 | A set of names has one ascending enumeration. |
| HashInput.LessIsFirstDifference | internal/controller/utils.go:66 | One name comes before another if and only if, at the first place where they differ, it has ended or has the smaller character. |
| HashInput.AscendingIsCanonical | internal/controller/utils.go:62-71 | Writing the values along any ascending enumeration of the keys gives the bytes of a definition that neither enumerates nor sorts. |
| HashInput.SortStrings | internal/controller/utils.go:66 | The result ascends and has the same names. |
| HashInput.CalculateHash | internal/controller/utils.go:58-75 | Whatever order the map yields its keys in, the hash is the digest of the canonical bytes: equal maps, equal hashes. |
| HashInput.ValuesInKeyOrder | internal/controller/utils.go:68-71 | In the bytes that are hashed every value stands whole, right after the values of all names that come before its own. |
| HashInput.RenamedKeyIsInvisible | internal/controller/utils.go:69-71 | Different data that feed the same bytes: names are not hashed. |
| HashInput.SameShapeIsFaithful | internal/controller/utils.go:69-71 | With the same names and the same length under each, equal bytes if and only if equal data: the half of the next row in which the shapes agree. |
| HashInput.ShapesToldApart | internal/controller/utils.go:58-75 | For any two shapes (names with lengths), every two data of these shapes that differ feed different bytes, if and only if the shapes are equal or their total lengths differ. |
| HashInput.CanonicalLength | internal/controller/utils.go:68-71 | The number of bytes fed is the sum of the lengths of the values. |
| Text.JoinSplit | internal/controller/utils.go:49 | Splitting loses nothing and leaves no separator in a field. |
| Text.SplitJoin | internal/controller/utils.go:49 | Fields without a separator come back from their join. |
| Text.TrimMargins | internal/controller/utils.go:51 | Trimming takes away exactly the margins of white space around a core. |
| Text.AnyTrimmedIsMembership | internal/controller/utils.go:50-55 | The scan answers yes if and only if some field trims to the value. |
| Text.GrammarRoundTrip | api/v1beta1/stalesecretwatch_types.go:37-39 | For every string of the grammar, splitting and trimming recovers exactly the listed names, in order. |
| Text.GrammarIsUnambiguous | api/v1beta1/stalesecretwatch_types.go:37-39 | However a list of names is spaced, the string lists those names and no others. |
| Text.ContainsIsMembership | internal/controller/utils.go:48-56 | For every string of the grammar, the test holds if and only if the value is one of the listed names. |
| Text.NamespacePatternIsOneField | api/v1beta1/stalesecretwatch_types.go:25-27 | A value the pattern admits is a single field, equal to itself when trimmed, despite the promised comma list. |
| WatchList.PrepareWatchList | internal/controller/stalesecretwatch_controller.go:557-620 | The result is the expected watch list, and there is one if and only if none of the listings it takes fails; otherwise it stops at the first that does. |
| WatchList.SelectNamespaces | internal/controller/stalesecretwatch_controller.go:562-575 | All listed namespaces for "all", otherwise the trimmed fields. |
| WatchList.ListSecrets | internal/controller/stalesecretwatch_controller.go:578-615 | The outer loop stops at the first listing that fails, and otherwise reflects every selected namespace, each as often as it is named. |
| WatchList.AddEligible | internal/controller/stalesecretwatch_controller.go:584-614 | The survivors of one listing are appended in order under their namespace; other lists stay and none is empty. |
| WatchList.IsExcluded | internal/controller/stalesecretwatch_controller.go:604-610 | The flag is set if and only if some entry of that namespace names the secret. |
| WatchList.WatchListIsExact | internal/controller/stalesecretwatch_controller.go:562-618 | A secret is listed under a namespace if and only if the namespace is selected and an eligible secret of that name exists: listed there (under the empty name, anywhere), of a type that is not skipped, and excluded by no entry. |
| WatchList.AllWatchesTheCluster | internal/controller/stalesecretwatch_controller.go:562-569 | With "all", a secret is watched if and only if the cluster lists its namespace, its type is neither of the two skipped ones, and no entry for that namespace names it. |
| WatchList.NameWatchesItself | internal/controller/stalesecretwatch_controller.go:570-575 | With any other value the pattern admits, the same of the one namespace of that name. |
| WatchList.ListWatchesItsNames | internal/controller/stalesecretwatch_controller.go:570-575 | With a comma-separated list, the same of the namespaces it names. |
| WatchList.KeptPlaces | internal/controller/stalesecretwatch_controller.go:584-614 | The names kept of a listing are those of its wanted secrets, each once, in listing order. |
| WatchList.CountIsCardinality | internal/controller/stalesecretwatch_controller.go:578 | A namespace is listed as often as the selection names it. |
| WatchList.ExcludedByGrammar | internal/controller/stalesecretwatch_controller.go:605-609 | With entries of the grammar, excluded means being among the names an entry of that namespace lists. |
| WatchList.ListingOrderIsKept | internal/controller/stalesecretwatch_controller.go:578-614 | Each list is its listing filtered, in order, and a namespace without survivors has no list. |
| WatchList.ExcludingMoreOnlyRemoves | internal/controller/stalesecretwatch_controller.go:604-613 | A larger exclude list never adds a secret, under any namespace. |
| WatchList.EmptyFieldSelectsEverything | internal/controller/stalesecretwatch_controller.go:571-580 | There is a list under the empty name if and only if an empty field is selected and some secret of any namespace is eligible there. |
| HashPass.Loaded | internal/controller/stalesecretwatch_controller.go:405-416 | A pass has a ledger to start from if and only if the load works and what is stored is not bytes that do not decode; a missing or never written one is empty. |
| HashPass.ObserveSecret | internal/controller/stalesecretwatch_controller.go:428-436 | What a pass records of a secret: the digest of its canonical bytes, its creation, its type, and the time of its last managed-field entry or else its creation. |
| HashPass.ConfigMapStore.CreateOrUpdateConfigMap | internal/controller/stalesecretwatch_controller.go:531-554 | The stored ledger is replaced as a whole or left as it is; the call fails when it was not replaced, when the object has vanished, or when only the reply was lost. |
| HashPass.HashNamespace | internal/controller/stalesecretwatch_controller.go:421-440 | The inner loop either records every secret of the list, in order, or stops at the first read that fails. |
| HashPass.HashAll | internal/controller/stalesecretwatch_controller.go:419-441 | For some order of the namespaces the in-memory ledger has taken exactly the visits of that order; it fails exactly when one of its reads fails. |
| PassLaws.FlattenIsInOrder | internal/controller/stalesecretwatch_controller.go:420-421 | Every name of every list is visited once, list after list and in the order of each. |
| HashPass.CalculateAndStoreHashedSecrets | internal/controller/stalesecretwatch_controller.go:402-465 | For some order of the namespaces, the stored ledger is the loaded one with exactly those visits applied, written once, whatever others have stored since the load; or, if anything before the write failed or nothing was watched, what others have left. |
| PassLaws.PassIsDetermined | internal/controller/stalesecretwatch_controller.go:402-465 | Whether a pass over a snapshot writes and whether it succeeds, and the map it leaves, depend on the snapshot and the watch list and not on any order. |
| PassLaws.PassIsOrderIndependent | internal/controller/stalesecretwatch_controller.go:420-441 | Two orders of the same pass both fail or both store the same map. |
| PassLaws.SecondPassStoresTheSame | internal/controller/stalesecretwatch_controller.go:402-465 | A further pass over an unchanged cluster stores the same rows in the same layout, in any order and with any failures, also when the reply to the first write was lost. |
| PassLaws.PassIsAllOrNothing | internal/controller/stalesecretwatch_controller.go:405-464 | A pass leaves the stored object alone, or records every watched secret, its hash in the history and its date current, and every other entry unchanged. It has written exactly when it watches anything and succeeds, or would have but for a lost reply. |
| PassLaws.EmptyFieldFailsThePass | internal/controller/stalesecretwatch_controller.go:422-426 | With an empty field in the namespace list, one eligible secret anywhere makes every pass fail; when all else is in order a pass succeeds if and only if there is none. |
| LedgerRuns.RunAppliesTrace | internal/controller/stalesecretwatch_controller.go:402-465 | After any run the ledger is the trace of stored visits applied to an empty one, and always decodes. |
| LedgerRuns.RunKeepsKeysUnique | internal/controller/stalesecretwatch_controller.go:483-518 | In every reachable ledger each (namespace, name) pair has one row. |
| LedgerRuns.RunKeepsBuckets | internal/controller/stalesecretwatch_controller.go:506-517 | In every reachable ledger each namespace has one bucket. |
| LedgerRuns.CreatedIsStored | internal/controller/stalesecretwatch_controller.go:122-144 | There is a ConfigMap if and only if it has been created since it was last deleted. |
| LedgerRuns.UndisturbedPassRecords | internal/controller/stalesecretwatch_controller.go:405-464 | Once the ConfigMap exists, written or not, a pass whose calls all succeed leaves an entry for every secret it watches, dated and hashed by a read of this pass. |
| LedgerRuns.SecondPassRecords | internal/controller/stalesecretwatch_controller.go:122-144 | In particular the pass after the one that created the ConfigMap does. |
| LedgerRuns.FirstOccurrencesIsDeduplication | internal/controller/stalesecretwatch_controller.go:469-478 | What de-duplication by first occurrence means: the same hashes, none twice, in order of first appearance. |
| LedgerRuns.EntrySummarizesRun | internal/controller/stalesecretwatch_controller.go:418-518 | Over every run an entry's history is the first-occurrence de-duplication of the hashes seen since the ConfigMap was last deleted, its date the latest seen, its creation and type the first seen; there is an entry exactly when something was seen. |
| LedgerRuns.UnwatchedNeverEnters | internal/controller/stalesecretwatch_controller.go:420-441 | A secret that no pass watches has no entry, over every run. |
| LedgerRuns.ExcludedNeverEnters | internal/controller/stalesecretwatch_controller.go:604-613 | A secret excluded throughout a run never enters the ledger. |
| LedgerRuns.AbandonedEntryIsFrozen | internal/controller/stalesecretwatch_controller.go:420-441 | Once a secret is no longer watched, no later pass changes its entry. |
| LedgerRuns.LastEntryIsCurrent | internal/controller/stalesecretwatch_controller.go:470-478 | The last history entry is the current hash if and only if every hash since the current one first appeared had been seen by then. |
| LedgerRuns.RotatedBackIsNotLast | internal/controller/stalesecretwatch_controller.go:470-478 | Rotation away and back leaves a history that ends with the other hash. |
| LedgerRuns.OverlapLosesNothing | internal/controller/stalesecretwatch_controller.go:531-551 | Of two passes that loaded the same ledger, the later write leaves the entry of a secret, seen by either or both, as passes one after the other would, if and only if nothing of it is lost: the exact condition on what each saw. |
| LedgerRuns.OverlapIsSequentialIff | internal/controller/stalesecretwatch_controller.go:402-551 | When one pass writes between another's load and write, the stored ledger is, as a map, that of passes one after the other if and only if no secret loses anything. |
| LedgerRuns.OneListSuffices | internal/controller/stalesecretwatch_controller.go:469-478 | Learning two streams of hashes one after the other leaves the history that the second alone leaves, if and only if the news of the first is a prefix of the news of the second. |
| Report.ExactUpToLimit | internal/controller/stalesecretwatch_controller.go:326-345 | Up to 106751 days the computed test is the exact one over unbounded integers, saturating differences included. |
| Report.ExactThresholds | internal/controller/stalesecretwatch_controller.go:326-345 | For every admitted threshold, the computed test is exact for all instants if and only if the threshold is at most 106751 days. |
| Report.FlatIsInOrder | internal/controller/stalesecretwatch_controller.go:329-330 | The walk meets every row of every bucket exactly once, in the order of buckets and rows. |
| Report.StatusesInOrder | internal/controller/stalesecretwatch_controller.go:345-356 | The status list has one item for each stale row and for no other, in that order. |
| Report.Status.UpdateSecretStatuses | internal/controller/stalesecretwatch_controller.go:319-361 | The status list grows by the in-order filter of the flattened ledger by staleness, the count by its length; it fails exactly when the data do not decode or a time does not parse. |
| Report.PrepareSlackMessage | internal/controller/slack.go:106-154 | Two opening blocks, the all-clear or the warning with one block per entry in order, and a closing divider. |
| Report.NotifySlack | internal/controller/slack.go:78-103 | One send is attempted exactly when credentials are present, and none otherwise; the text is the all-clear exactly when the list is empty. |
| Report.DailyReport | internal/controller/stalesecretwatch_controller.go:650-670 | Whatever the status held before, list, count and message show the same stale part of the ledger; what it returns as its attempt is all it sends, and that is nothing when the ledger cannot be evaluated. |
| RunReport.FlatIsLookup | internal/controller/stalesecretwatch_controller.go:329-330 | The walk over the nested slices meets exactly the entries the lookup knows. |
| RunReport.RunIsReadable | internal/controller/stalesecretwatch_controller.go:331-338 | No ledger that passes have written ever stops the evaluation on a time. |
| RunReport.MessageShowsStale | internal/controller/slack.go:125-143 | A detail block is in the message if and only if some stale entry of the ledger has that content. |
| RunReport.AnnouncesStaleEntries | internal/controller/stalesecretwatch_controller.go:329-345 | In a ledger with unique keys a secret is announced if and only if the entry the lookup finds is stale, for every threshold. |
| RunReport.EachIsAnnouncedOnce | internal/controller/slack.go:86-143 | Every announced secret has exactly one detail block, and the count is the number of secrets announced. |
| RunReport.MessageTellsTheRun | internal/controller/stalesecretwatch_controller.go:319-361 | After any run of passes the message names a secret if and only if a stored pass has seen it and its latest modification is further than the threshold from now. |
| RunReport.DetailTellsWhatWasSeen | internal/controller/stalesecretwatch_controller.go:346-354 | Type and creation in a detail block are those first seen, the modification time that last seen. |
| RunReport.SuccessMeansNothingStale | internal/controller/slack.go:86-94 | The all-clear is sent if and only if the message names no secret. |
| RunReport.AbandonedSecretIsStillJudged | internal/controller/stalesecretwatch_controller.go:329-345 | A secret excluded or deleted after it was recorded goes on being judged by the entry it left, for every threshold. |
| Resources.TypeNamesDiffer | internal/controller/stalesecretwatch_controller.go:109-179 | The five condition types a pass sets have different names, so that none overwrites another. |
| Resources.SetConditionIsIdleIffPresent | internal/controller/stalesecretwatch_controller.go:297-302 | Setting a condition changes nothing if and only if it is already there, its transition time aside. |
| Resources.SetConditionFrame | internal/controller/stalesecretwatch_controller.go:297-302 | Upsert by type: the condition holds afterwards, other types keep theirs, and a transition time moves only with the status. |
| Resources.SetConditionDates | internal/controller/stalesecretwatch_controller.go:297-302 | A condition that is new or changes its status takes the date given; any other keeps its own. |
| DailyCheck.ApplyKeepsInv | internal/controller/stalesecretwatch_controller.go:623-731 | Every step of every reconciler and of everybody else keeps the protocol's invariant. |
| DailyCheck.RunKeepsInv | internal/controller/stalesecretwatch_controller.go:623-731 | In every run each notification attempt follows a stamp of its own, stored by the same reconciler over a version that was due, inside the hours that notify. |
| DailyCheck.AnnotationPersists | internal/controller/stalesecretwatch_controller.go:716-731 | Between two stamps the annotation is what the first one stored, as long as only stamps change it. |
| DailyCheck.DueExactly | internal/controller/stalesecretwatch_controller.go:625-638 | The guard opens if and only if a whole day has passed since the annotation; the saturation of the difference never matters. |
| DailyCheck.DefaultInstants | internal/controller/stalesecretwatch_controller.go:626-634 | A missing annotation stands for the beginning of 2024, an unreadable one for that of 1970. |
| DailyCheck.YearsFollow | internal/controller/stalesecretwatch_controller.go:628 | What the beginning of a year is, by the rule of leap years. |
| DailyCheck.WindowExactly | internal/controller/stalesecretwatch_controller.go:644-649 | The hours that notify are those from 10:00 to before 21:00 UTC of any day. |
| DailyCheck.DueIsADayLater | internal/controller/stalesecretwatch_controller.go:635 | An annotation no earlier than a stamp is not due again until 86400 whole seconds after it. |
| DailyCheck.NextStampIsADayLater | internal/controller/stalesecretwatch_controller.go:635-642 | Two successive stamps are at least 86400 seconds apart as stored, if the annotation found due was no earlier than the first. |
| DailyCheck.StampsAreDaysApart | internal/controller/stalesecretwatch_controller.go:635-642 | As long as the annotation never falls behind the stamps, stamps i and j are at least (j - i) days apart as stored, so truncation to seconds never accumulates. |
| DailyCheck.NoticesFitStamps | internal/controller/stalesecretwatch_controller.go:640-663 | There are never more notification attempts than stamps. |
| DailyCheck.RateLimit | internal/controller/stalesecretwatch_controller.go:625-663 | In any run in which nothing but stamps sets the annotation to a time before the last stamp, with any number of reconcilers, other writers, stale reads and refused updates, N stamps span more than N - 1 days less one second, and so do N attempts measured from the first stamp. |
| Limit.LimitBreaksIff | internal/controller/stalesecretwatch_controller.go:625-642 | From any reachable state, a stamp too soon after the last can be stored without a further harmful write if and only if the annotation is behind the last stamp and the day of that stamp is not over, or a stamp of that day is on its way. |
| Limit.WriteBreaksIff | internal/controller/stalesecretwatch_controller.go:625-642 | One accepted write by somebody else makes that possible if and only if it sets the annotation before the last stamp during that stamp's day. |
| DailyCheck.CloseStampsNeedAForeignWrite | internal/controller/stalesecretwatch_controller.go:635-642 | With any writers at all, stamps less than a day apart prove that somebody else set the annotation back in between. |
| DailyCheck.ForeignWriteDefeatsTheLimit | internal/controller/stalesecretwatch_controller.go:625-642 | One foreign write and two reconcilers stamp and notify at the same instant. |
| DailyCheck.UndisturbedCheck | internal/controller/stalesecretwatch_controller.go:623-663 | A due check inside the hours that notify, left alone for one instant, stores one stamp and makes one attempt. |
| DailyCheck.WakeIsNeverEarly | internal/controller/stalesecretwatch_controller.go:694-697 | Any wake at or after the planned one passes the 24-hour guard against the stamp just stored. |
| DailyCheck.RunKeepsLegalLog | internal/controller/stalesecretwatch_controller.go:197-229 | Every stored version follows legally from the one before. |
| DailyCheck.DeletionIsFinal | internal/controller/stalesecretwatch_controller.go:113-117 | An object once marked for deletion stays marked and gains no finalizer while it exists. |
| Cluster.Cluster.UpdateStatusCondition | internal/controller/stalesecretwatch_controller.go:288-316 | What is written is the object immediately before the write with that single condition upserted, dated within the call, whatever others did in between; without success nothing was written, or this was and only its reply was lost. When the calls are answered and one of five attempts is left alone, it succeeds unless the object was removed. |
| Cluster.Cluster.WriteDailyStatus | internal/controller/stalesecretwatch_controller.go:671-689 | It commits on its first attempt or on none, and over exactly the version it read, so it never overwrites a concurrent writer; undisturbed it succeeds exactly when the resource exists. |
| Cluster.Cluster.RetryInVain | internal/controller/stalesecretwatch_controller.go:682-684 | Once the version carried is behind it stays behind: no retry is accepted, and all five attempts are made unless a call fails or the object is removed. |
| Cluster.Cluster.RemoveFinalizer | internal/controller/stalesecretwatch_controller.go:197-229 | What is written takes this operator's finalizer off the then latest object and keeps everything else, under any conflicts; without success nothing was written or only the reply was lost. When the calls are answered and one of five attempts is left alone, it succeeds unless the object was removed. |
| Cluster.Cluster.SendFinalizer | internal/controller/stalesecretwatch_controller.go:240-241 | When accepted the latest object gains the finalizer, at most once, and nothing else changes. |
| Cluster.Cluster.AddFinalizer | internal/controller/stalesecretwatch_controller.go:232-253 | All it may write is the finalizer and the condition that announces it, each over the then latest object. The copy the pass goes on with agrees in all but finalizers with the version it carries; a copy that has the finalizer is left alone; undisturbed, a missing one makes exactly one version, which is the copy, followed by the announcing condition. |
| DailyChecks.PassGuard | internal/controller/stalesecretwatch_controller.go:625-638 | The guard lets the check through exactly when the annotation of the copy is due at the clock read. |
| DailyChecks.UpdateLastCheckedAnnotation | internal/controller/stalesecretwatch_controller.go:716-731 | One attempt to stamp, and nothing else: a stamp reported is a new one and the only one; without one, at most a stamp whose reply was lost; undisturbed it is stored if and only if no version was stored since the copy was read, and then changes the annotation alone. |
| DailyChecks.TakeStamp | internal/controller/stalesecretwatch_controller.go:625-642 | Guard and stamp: no stamp when the annotation is not due, and never more than one attempt. |
| DailyChecks.ScheduleNext | internal/controller/stalesecretwatch_controller.go:694-697 | The returned delay, counted from the present clock, is the wake-up the protocol plans on the stamp of this check: a day, less at most the time the call has taken. |
| DailyChecks.WriteReport | internal/controller/stalesecretwatch_controller.go:671-689 | All it may write is the list the message was made from, and its length as the count, over the then latest object; on success a stored version has both; undisturbed it succeeds if and only if the resource exists. |
| DailyChecks.RecordAndPlan | internal/controller/stalesecretwatch_controller.go:671-697 | The status is written, and if so the next day planned; undisturbed, both are. |
| DailyChecks.Announce | internal/controller/stalesecretwatch_controller.go:650-670 | The message and the status in hand are one evaluation of the stored ledger, at an instant between the reading of the hour and the attempt; the attempt is all that is sent and the only notification made; undisturbed, it is made if and only if the ledger is readable and the credentials are present. |
| DailyChecks.PerformDailyChecks | internal/controller/stalesecretwatch_controller.go:623-713 | The stamps and notifications of a check are exactly those it reports, a stamp whose reply was lost aside. A notification is made only on a stamp this call has stored, inside the hours that notify, and carries the report of the stored ledger at an instant of this call; a check that ends well has stored that report and sleeps on that stamp, a day at most. It is never an error not to be due, or to be outside the hours. Undisturbed it stamps if and only if it finds the annotation due and its copy is current, notifies if and only if the hour it reads, the ledger and the credentials allow it, fails if and only if it is due and either the stamp is refused or, inside the hours, the message cannot be made or delivered, and leaves the store as it is unless it stamps. |
| PassSpec.CompletedPassSettles | internal/controller/stalesecretwatch_controller.go:109-179 | After a completed pass, with or without the addition of the finalizer, all conditions are in place. |
| PassSpec.SettledIsFixpoint | internal/controller/stalesecretwatch_controller.go:109-179 | Setting the three again leaves the list as it is if and only if they were in place. |
| PassSpec.QuietPassIsDue | internal/controller/stalesecretwatch_controller.go:109-184 | With or without the finalizer, the version an undisturbed pass has in hand is still the latest at the daily check if and only if the conditions it sets from then on were in place. |
| PassSpec.ReachedContent | internal/controller/stalesecretwatch_controller.go:109-184 | By the daily check an undisturbed pass has changed the resource in its conditions and the finalizer, and in nothing else. |
| PassSpec.PassLeavesSettled | internal/controller/stalesecretwatch_controller.go:85-194 | An undisturbed pass that gets through leaves finalizer and conditions in place, and the selection as it was. |
| PassSpec.SecondPassChangesNothing | internal/controller/stalesecretwatch_controller.go:85-194 | A second undisturbed pass over an unchanged cluster, whose annotation is not due, leaves the resource with its version, the stamps, the notifications, the ledger and the outbox exactly as they are. |
| Reconcile.GetReady | internal/controller/stalesecretwatch_controller.go:122-167 | Either the expected watch list with the ledger untouched, or an error, or a newly created empty ConfigMap and a request to come back at once; undisturbed, which of the three depends only on whether the ConfigMap exists and the listings work. |
| Reconcile.CreateConfigMap | internal/controller/stalesecretwatch_controller.go:125-144 | Undisturbed, a missing ConfigMap is created, empty, and the pass asks to come back at once. |
| Reconcile.HandleDeletion | internal/controller/stalesecretwatch_controller.go:113-117 | On success the object read, if it still exists, is without this operator's finalizer; on success or failure, all the call may have done is that one removal. |
| Reconcile.HashAndCheck | internal/controller/stalesecretwatch_controller.go:169-193 | Exactly one hashing pass; if it fails the pass ends without error and without asking to come back; otherwise the daily check, and ten minutes when it made no attempt. Its stamps, notifications and messages are those it reports. |
| Reconcile.Reconcile | internal/controller/stalesecretwatch_controller.go:85-194 | The whole pass under any interference. A pass that reads a deletion mark never stamps, notifies or touches the ledger, and writes at most its first condition and the removal of its own finalizer; any other writes, besides one stamp, only its named conditions, the finalizer and the report, each over the then latest object. The ledger takes nothing, an empty creation, or one hashing pass over the watch list of the stored version in use. Stamps, notifications and messages are exactly those reported, a stamp whose reply was lost aside; an attempt rests on a stamp of this pass and reports the ledger at an instant of it; the returned delay is counted on that stamp. Undisturbed, everything is determined: how far it gets by what it finds (no resource, a deletion mark, no ConfigMap, a listing that fails), when it stamps, notifies and fails, and what it leaves in the store. |
| PassSpec.PassIsLedgerEvent | internal/controller/stalesecretwatch_controller.go:122-176 | A pass continues any run of the ledger by nothing, by the creation of the ConfigMap, or by the hashing pass of the selection it works on, so the theorems about runs apply. |
| PassSpec.PassSkipsExcluded | internal/controller/stalesecretwatch_controller.go:604-613 | A pass leaves alone the entry of a secret that the resource it works on excludes. |
| Reconcile.PassesObeyTheLimit | internal/controller/stalesecretwatch_controller.go:85-194 | Whatever passes a reconciler runs among others who never set the annotation back behind the last stamp, the rate limit holds. |
| Reconcile.WokenPassIsDue | internal/controller/stalesecretwatch_controller.go:694-697 | A pass woken no earlier than it asked finds the guard open against the very stamp it sleeps on. |

## Left out

- Cluster.Cluster.WriteDailyStatus: how long a retry waits is not modelled.
- HashPass.ConfigMapStore.CreateOrUpdateConfigMap: a change by others between the second look and the write shows only as a refused write.
- LedgerRuns.EntrySummarizesRun: is about passes that do not overlap; what overlapping passes lose is stated separately.
- Reconcile.Reconcile: during a pass others change the ConfigMap only between the load and the write of the hashing pass.
- Reconcile.PassesObeyTheLimit: the passes run on one resource; others are actions of the protocol, not calls of the same methods.
- Kubernetes itself: the client, its cache, watches, queues and the manager. The model keeps a versioned store with stale reads, conflicts and failing calls.
- The object being removed and created anew appears as an action of others; names and identities of objects do not.
- SHA-256 and its hexadecimal form: a parameter, of which nothing is assumed.
- JSON: the stored field is an encoded ledger, empty, or bytes that do not decode; encoding never fails.
- The text of times (RFC 3339, section 5.6): a formatted time is its whole second or unreadable; instants are unbounded.
- A managed-field entry without a time, on which the operator would stop.
- The sort is an insertion sort; only that its result ascends and has the same names is used.
- Slack over HTTP, environment variables and the name of the cluster: whether credentials are present and whether the send goes through.
- Wording and styling of messages, events and logs: no behaviour rests on them. The reason and the message of a condition are one token for each type of the operator's own.
- The admission webhook, except that it admits thresholds of at least one day.
- `GetNextFiveMinutes` and commented-out code: not called by the reconciler.
- That a check eventually falls into the hours from 10 to 20 UTC: it depends on wake times the code does not decide.
- Generated code, manifests and build files.
