# Mail Portal: verified models

Dafny models of the parts of the mail portal where the most can go wrong, with proofs about them.
`dafny verify dfyconfig.toml` checks everything. There are three groups.

## Inbound mail durability

One inbound message passes through three programs that share an R2 bucket, two Queues and a mailbox:
the SMTP handler (`receiveEmail`), the Queue and dead-letter consumers, and the five-minute
reconciler. They coordinate by compare-and-swap on one receipt object with twelve states, a
create-only raw archive, an active-recovery marker, and the acknowledgement of Queue deliveries.

- `InboundStore` is the shared state of one message and the meaning of every binding call on it. A
  call is a value. A bounded call whose caller gave up stays in `late` and may take effect at any
  later time, or never, because the race behind a timeout does not cancel the work.
- `InboundIngress`, `InboundQueue`, `InboundReconciler` and `EmergencyHandoff` are the programs. Each
  is a program counter that stops at every binding call: `Call` is the call it stops at, `Resume`
  where it goes with the answer. Every call may succeed, fail without effect, or fail after effect.
- `InboundProtocol` interleaves one SMTP handler with any number of Queue attempts, deadline wrappers,
  reconciler passes and background handoffs, and with what the environment does: the Queue delivers,
  moves and expires messages, the mailbox owner deletes, the storage damages an object, the provider
  accepts, the emergency consumer writes. Its inductive invariant is proved by rely and guarantee: what
  an actor knows is stable under every step of the others.
- `InboundSafety` draws the conclusions over all runs. `Settled` means the message is live or deleted
  mail, accepted by the provider, rejected at SMTP, or provably damaged; `Durable` adds emergency
  authority.
- `InboundRelease` looks back along a run: whoever acknowledges a primary delivery or deletes the active
  marker has read a terminal receipt before, and the world has borne it out since.
- `InboundOverwrite` holds two runs from the start: stored mail ends with a `forwarded` receipt, and the
  active marker goes while the receipt says `archived`.
- `InboundRecovery` runs one reconciler pass alone: it ends well on every exact archive whose pointer may be
  forwarded, and on every other one exactly when a condition on what it finds holds. `InboundLimits` shows
  that the others are reached.
- `Receipts` and `ArchivePointer` compare the receipt validators of two programs with each other and
  with what is written, and the pointer the handler builds with the one the reconciler recovers. `Mail`, the
  size bounds and the recipient of a message as the protocol goes by them, is tied to the texts there.
- `RawArchive`, `RecentSweep` and `RawSweep` are the imperative parts: the raw archive retry loop, the
  two minute lanes with their shared budget, and the exhaustive sweep with its cursors and counters.

Findings:

- The receipt order (`deleted`, `rejected` and `forwarded` are final, `stored` only becomes `deleted`) is
  kept by every projection writer that could read the receipt it replaces. Three writers break it:
  `writeReceipt` when the stored body cannot be read as valid; `beginEmergencyForward`, which turns `stored`
  and `deleted` back into `forward_pending`; and the acceptance writer `commitForwardedReceipt`, which turns
  `stored`, `deleted` and `rejected` into `forwarded`. For every replacement of a receipt by any actor, late
  or not, `ReplacementKeepsOrderExactly` says exactly when the order is kept, and `OrderHoldsExactly` says
  so of whole runs. Runs show both kinds of overwriting, and one reconciler pass repairs the first kind.
- The active marker may go without a terminal receipt in one case: the acceptance commit reports success
  although its receipt write was lost, and the SMTP handler then deletes the marker. Left undisturbed, the
  marker goes with a `forwarded` receipt if and only if the write applies, the receipt is `forwarded` already,
  or the provider's reference can be formed, because the commit is then made a second time
  (`InboundRelease.AcceptanceClearsExactly`). The write stays lost without a reference, or when the second
  commit is not waited for (`AcceptanceMayClearEarly`, and from the start `InboundOverwrite.MarkerMayGoEarly`).
  The accepted emergency marker stays behind as authority.
- The handler archives a message before it looks at its size or its recipient. No pointer can be rebuilt from
  the archive of an empty or oversized message or of one with a blank recipient: a pass retains it as invalid.
  An archive whose recipient is no address has a pointer that no handoff takes. A run leads to each such
  archive without a receipt, and a pass on it does not end well (`InboundLimits.ArchivedMessageEndsExactly`).
- A pass on a damaged archive rebuilds the pointer from the damaged object. That is not the pointer in the
  receipt or in an emergency marker, which the pass then cannot read or take for its own. It ends well exactly
  when it can start a handoff for the rebuilt pointer (no other marker is there, or the raw object or a
  readable receipt vouches for it), when no receipt exists and the mailbox knows the message, or when an
  earlier pass wrote the receipt with the rebuilt pointer and it speaks for itself; otherwise it fails and
  changes nothing (`InboundRecovery.OtherArchiveEndsExactly`). The same lemma covers archives stored
  without a SHA-256, whose handoff is always refused: they end well exactly when the mailbox row is live
  and no other receipt stands in the way.
- A `forward_pending` receipt with the code `INGRESS_RECOVERY_REQUIRED`, which the emergency forward
  writes and the reconciler accepts, is not valid to the Queue consumer.

## Managed inline images

`HtmlText`, `HtmlTags` and `HtmlProjection` are the tag scanner of `projectHtml`; the loops over
positions are proved to compute the list of constructs the text is the concatenation of. `HtmlNesting`
shows that the stack accepts exactly the balanced bodies. `InlineImages` and `InlineImageRemoval` are
the text edit for the reading that is meant: removing an image takes out exactly its tags, and what is left
is meant to be read as the other constructs exactly when every stray `<` still starts nothing.
`InlineImageStray` is a body where one does. `InlineImageMapping` matches images with attachments.

U+0130 is the one character whose lower case is longer. The scanner looks for the end of raw text in the
lower-cased body, from a position of the body, so behind such a character the place it finds lies too far on. `LoopReader` is
the loop's own reading of a body, misplaced search included, and every loop is proved equal to it on every
body. `HtmlSearch` says where the search lands, for every body, and compares that reading with the one that
is meant: on balanced bodies the loop reads the same constructs if and only if each search it makes is
right, which a search is when no U+0130 stands in front of the end of that raw text, and is not when one
does and nothing before its start looks like that end. `HtmlDotted` is a balanced body, U+0130 followed by
an empty script, that the loop refuses.

A removal moves the search, too. `InlineImageReread` is about the loop's own reading before and after: on a
body where each search is right, the loop reads what is left as the other constructs if and only if no stray
`<` starts something and each search in the text left is right. A caller can check beforehand that no closing
tag of a script or a style stands behind a U+0130; then the same is so after the removal. `InlineImageShift` is
a body without strays where each search is right and a removal still fails: behind 39 times U+0130, the
search lands on the right place by way of a comment, and misses it in the shorter text, which is refused.

## Codecs, orders and lists

`MailSearch`, `SearchPrinter` and `SearchRoundTrip` are the search query parser, the printer of search
filters, and their round trip; `SearchInjective` shows that different filters are printed differently, also
where the round trip fails. `AttachmentKinds` compares the SQL generated for attachment kinds with
the classifier, and says on which rows they differ. `AddressOrder` compares code point order with the
order of UTF-8 bytes (sections 1 and 3 of RFC 3629). `Base64Url` and `ChangeFeed` are the cursor codec (section 5 of RFC 4648) and the
pages chained by it. `Recipients` and `RecipientLists` split recipient text and de-duplicate what is
sent. `AttachmentFilename` bounds file names. `Characters`, `Numerals` and `Wrappers` are shared.

Texts are sequences of Unicode scalar values. Lengths count UTF-16 units (`Units`), scalar values or
UTF-8 bytes (`ByteLength`), as the code does in each place. In the search query and the recipients,
lower-casing is a parameter; so are normalization forms, `JSON.parse`, `Number` and `Date.parse`, each with
the hypotheses it needs. Elsewhere `Characters.Lower` lower-cases ASCII letters and U+0130 and leaves other
letters alone.

## Assumptions

- Binding calls fail by rejecting, not by throwing; naming and getting the mailbox stub does not fail.
- The first settlement of a disposition wins, and a closed scope settles nothing
  (`workers/lib/inbound-work-deadline.ts:24`).
- Every successful put gets a fresh etag. Digests are abstract and injective.
- A raw object, once exact, may be damaged but is not replaced by another exact one. What is rebuilt from a
  damaged object is another pointer than the original one, since the object has another etag and version.
- The admission policy of a pass admits only mailboxes that are addresses
  (`workers/inbound-reconciliation.ts:962-970`, and `ArchivePointer.NormalizedIsAddress`).
- The emergency consumer marks acceptance only when the provider accepted, removes its marker only when
  the message is settled, and writes only receipts that are true. It is not modelled beyond that.
- The clock of the sweeps does not go back. A listing is in key order and sees what is there.

## Model

| member | source | states |
|---|---|---|
| InboundStore.PerformKeeps | workers/inbound-email.ts:487-583 | a call that takes effect, issued by someone entitled to it, keeps the shared invariant and the guarantee everybody relies on |
| InboundStore.PerformTells | workers/inbound-queue.ts:667-711 | what an answer teaches holds in the state the answer comes from |
| InboundStore.KnowledgeIsStable | workers/inbound-queue.ts:837-895 | what an actor knew of receipts, etags and truths stays known whatever the others do |
| InboundStore.AbandonKeeps | workers/inbound-email.ts:149-172 | giving up on a bounded call changes nothing anybody relies on |
| InboundStore.TakeLateKeeps | workers/inbound-queue.ts:443-464 | a call that takes effect after its caller gave up keeps the invariant and never rejects the sender |
| EmergencyHandoff.TaskResumes | workers/lib/emergency-forward.ts:732-909 | every answer leads a handoff, an acceptance, or the second commit with the provider's reference to a place where it knows what it needs, the repair of another pointer's marker included; it reports success only when somebody is durably responsible |
| EmergencyHandoff.TaskMayCall | workers/lib/emergency-forward.ts:1333-1438 | a handoff or either commit of an acceptance writes only what is true and clears the emergency marker only when the message is settled |
| InboundIngress.IngressResumes | workers/inbound-email.ts:1695-2361 | whatever a call answers, the handler goes on to a place whose knowledge holds; it returns only rejected or safe |
| InboundIngress.IngressMayCall | workers/inbound-email.ts:1588-1693 | the handler enqueues only pinned archives, writes only true receipts and clears the marker only when settled |
| InboundQueue.ItemResumes | workers/inbound-queue.ts:1038-1664 | every answer leads the consumer to a place where it knows what it needs; it reaches its acknowledgement only with a settled message |
| InboundQueue.ItemMayCall | workers/inbound-queue.ts:938-986 | a receipt is finalised and the marker cleared only when the world bears it out |
| InboundQueue.AttemptResumes | workers/inbound-queue.ts:1735-1806 | an attempt keeps its knowledge whether or not its disposition is already used |
| InboundReconciler.ReconcilerResumes | workers/inbound-reconciliation.ts:1188-1881 | every answer leads a pass to a place where it knows what it needs, whether or not a pointer can be rebuilt from the archive |
| InboundReconciler.ReconcilerMayCall | workers/inbound-reconciliation.ts:1994-2105 | a pass writes only true receipts over ones it read, enqueues only pinned archives, and clears the marker only when the message is settled |
| InboundProtocol.NextKeeps | workers/inbound-email.ts:1695-2361 | every step of every actor and of the environment keeps the inductive invariant of the whole system |
| InboundSafety.NoSilentLoss | workers/inbound-email.ts:1695-2361 | in every later state of every run, a message whose handler returned without rejecting is delivered or deleted mail, accepted by the provider, damaged, under emergency authority or marked; it is rejected at most once |
| InboundSafety.ReleaseIsJustified | workers/inbound-queue.ts:740-810 | along every run, the marker, a primary delivery and emergency authority go only when the message is settled, a dead-letter delivery only when somebody is durably responsible; which receipt proves it is what InboundRelease states |
| InboundSafety.StepReleases | workers/inbound-queue.ts:1911-1979 | the same for one step of one actor from any state of the inductive invariant |
| InboundRelease.AcknowledgementIsProven | workers/inbound-queue.ts:938-986 | in every run, a primary delivery is acknowledged only by a consumer that read a terminal receipt in an earlier step of the run, and in that state or a later one it was borne out: stored by a live row of the right authority, deleted by the tombstone for its pointer, forwarded by the provider, rejected by SMTP, a mismatch by a damaged archive |
| InboundRelease.MarkerReleaseIsProven | workers/inbound-reconciliation.ts:1994-2105 | in every run, whoever deletes the active marker has such a proof of its own, or is the SMTP handler after an emergency marker recorded a provider acceptance; a deletion that takes effect late was issued with such a proof |
| InboundRelease.RunsKeepProof | workers/inbound-queue.ts:740-810 | along every run, whatever an actor claims to have read or proven, it has read or proven at a moment of that run |
| InboundRelease.AcceptanceClearsExactly | workers/lib/emergency-forward.ts:1333-1438 | if nobody else moves, the handler's deletion of the active marker after an acceptance is backed by a forwarded receipt if and only if the receipt write applies, the receipt was forwarded already, or the provider's reference can be formed |
| InboundRelease.AcceptanceMayClearEarly | workers/lib/emergency-forward.ts:1333-1438 | if the receipt write of an acceptance commit loses and the receipt is not forwarded, a run follows, without a provider reference or with a second commit that is not waited for, in which the active marker goes, and the receipt, terminal or not, and the emergency marker stay as they were |
| InboundSafety.ClosedScopeIsInert | workers/lib/inbound-work-deadline.ts:24-66 | an item that runs on after its deadline settles nothing |
| InboundSafety.ReceiptTellsTruth | workers/inbound-queue.ts:1578-1654 | in every state of every run each receipt state is borne out: stored by a row, deleted by the tombstone, forwarded by acceptance, rejected by the one rejection, mismatch by a damaged archive |
| InboundSafety.MailboxMovesForward | workers/inbound-queue.ts:1275-1334 | no step takes the mailbox from deleted to live or from live to empty |
| InboundSafety.RowWasLive | workers/inbound-queue.ts:812-835 | a row that is not empty was live at some moment of the run |
| InboundSafety.StoredWasLive | workers/inbound-reconciliation.ts:346-371 | a stored receipt means the row was live at some moment of the run |
| InboundSafety.QueueTestIsStronger | workers/inbound-queue.ts:740-810 | on archives that may be queued, what the consumer's authority test proves, the reconciler's test proves; they differ exactly on stored receipts whose live row has another authority |
| InboundSafety.ReplacementIsOrdered | workers/inbound-queue.ts:837-895 | whoever replaces a receipt, late or not, held its current etag, and so replaces the body it read |
| InboundSafety.ReplacementKeepsOrderExactly | workers/inbound-queue.ts:837-895 | every replacement of a receipt, by any actor, late or not, keeps the order if and only if its writer, whether it could read, and the two states are in the table KeepsOrder |
| InboundSafety.OrderHoldsExactly | workers/inbound-reconciliation.ts:1429-1537 | in every run from a state of the invariant, each receipt follows from the one before if and only if each replacement is one that keeps the order |
| InboundSafety.ReceiptsAdvance | workers/inbound-reconciliation.ts:1429-1537 | then, however many writers race, deleted, rejected and forwarded never change and stored becomes only deleted |
| InboundSafety.FinalReceiptsStay | workers/lib/emergency-forward.ts:732-909 | as long as the emergency consumer writes nothing, writers could read and no acceptance replaces a rejection, forwarded and rejected never change, whatever handoffs race |
| InboundSafety.WriteKeepsOrderExactly | workers/inbound-queue.ts:837-895 | a Queue receipt write keeps the order if and only if the body was readable or the new state follows anyway |
| InboundSafety.HandoffKeepsOrderExactly | workers/lib/emergency-forward.ts:732-909 | the receipt write of an emergency handoff keeps the order if and only if the receipt is neither stored nor deleted and, without an acceptance on the marker, a final one was readable, and with one, it is not rejected |
| InboundSafety.AcceptanceKeepsOrderExactly | workers/lib/emergency-forward.ts:1221-1248 | the acceptance commit makes every receipt forwarded; it keeps the order if and only if it was none of stored, deleted and rejected |
| InboundSafety.DeadlineMayDemoteStored | workers/inbound-queue.ts:1712-1733 | from any state of the invariant with a stored receipt of the original pointer, no emergency marker, and an unsettled attempt whose deadline is still ahead, there is a run that takes the receipt back to forward_pending |
| InboundSafety.ForwardMayOverwrite | workers/lib/emergency-forward.ts:1333-1438 | from any state in which the handler is about to forward an exact archive whose pointer may be forwarded, there is a run that makes the receipt, whatever it says, forwarded and leaves the mailbox as it is |
| InboundOverwrite.StoredMailMayBecomeForwarded | workers/inbound-email.ts:1588-1693 | for every admissible message there is a run from the start that reaches a stored receipt and goes on to a forwarded one while the row is still live |
| InboundOverwrite.MarkerMayGoEarly | workers/lib/emergency-forward.ts:1333-1438 | for every admissible message, with and without a provider reference, there is a run from the start after which the active marker is gone, the receipt says archived and the mailbox is empty |
| InboundRecovery.Finish | workers/inbound-reconciliation.ts:1188-1881 | a pass run alone always ends, with its handoff |
| InboundRecovery.SoloStepDescends | workers/inbound-reconciliation.ts:1188-1881 | every step of a pass or of its handoff comes closer to the end |
| InboundRecovery.FinishEndsWell | workers/inbound-reconciliation.ts:1889-1954 | from any place of a pass on an exact archive that may be forwarded, holding what the place needs, the pass ends well |
| InboundRecovery.NoArchiveIsStuck | workers/inbound-reconciliation.ts:1188-1881 | on an exact archive whose pointer may be forwarded, for all twelve receipt states, none or a garbled one, every mailbox truth, emergency marker, policy and age, a pass ends in a terminal proof, a handoff, a send or a handoff younger than fifteen minutes; skipped means the first or the last |
| InboundRecovery.PassEndsWellExactly | workers/inbound-reconciliation.ts:1188-1881 | in every state a run can reach, one undisturbed pass ends well if and only if a pointer can be rebuilt from what is archived and ShouldEndWell holds: a handoff of it can start, or the mailbox knows the message and there is no receipt, or a receipt with this pointer speaks for itself |
| InboundRecovery.OtherArchiveEndsExactly | workers/inbound-reconciliation.ts:758-801 | on an archive without a SHA-256, a damaged one whose metadata make a pointer, or an exact one whose pointer may not be forwarded, a pass ends well if ShouldEndWell holds, and otherwise fails and changes nothing |
| InboundRecovery.HandoffEndsExactly | workers/lib/emergency-forward.ts:732-909 | an undisturbed handoff is done if its pointer may be forwarded (a SHA-256, an address, a size within bounds) and no other pointer's marker is in the way, or a receipt or the raw object vouches for it; otherwise it fails and changes nothing |
| InboundRecovery.TruthIsRestored | workers/inbound-reconciliation.ts:1429-1537 | on an exact archive whose pointer can be rebuilt, one pass brings a forward_pending, dead-lettered or quarantined receipt back to stored or deleted when the mailbox says so |
| InboundRecovery.WeakHandoffFails | workers/lib/emergency-forward.ts:176-201 | a handoff of a pointer without a SHA-256 fails and changes nothing |
| InboundRecovery.WeakArchiveEndsWellOnlyByALiveRow | workers/inbound-reconciliation.ts:992-1069 | a pass on an archive without a SHA-256 whose pointer can be rebuilt ends well if and only if the row is live and no other receipt stands in the way; otherwise it fails and changes nothing |
| InboundLimits.ArchivedMessageEndsExactly | workers/inbound-email.ts:1695-2361 | for every message, within bounds or not, a run leads to an exact archive without a receipt; a pass on it ends well if and only if the pointer may be forwarded, and as invalid if and only if none can be rebuilt |
| Receipts.ValidatorsAgreeExactly | workers/inbound-queue.ts:565-665 | the Queue's and the reconciler's checks of receipt details agree if and only if the receipt is misshapen or its code is none of a listed few |
| Receipts.WrittenReceiptsAreValid | workers/inbound-reconciliation.ts:462-569 | every receipt that is written is valid to the reconciler, and to the Queue consumer if and only if it is not a handoff for ingress recovery |
| ArchivePointer.RawKeyNamesItsIngress | workers/lib/inbound-raw-key.ts:19-54 | reading the ingress id off a raw key gives back the id it was built from, for every minute of the calendar |
| ArchivePointer.MailboxIsTheRecipient | workers/inbound-email.ts:816-842 | both ways of naming the mailbox give the trimmed lower-case recipient |
| ArchivePointer.RecoveredPointerIsTheOriginal | workers/inbound-reconciliation.ts:758-801 | the pointer recovered from the archive is the handler's if and only if the size is within bounds and the recipient is not empty; it is never a different one |
| ArchivePointer.LimitsAreThese | workers/lib/emergency-forward.ts:176-201 | a pointer can be rebuilt, and may be handed off, exactly when the size bounds and the recipient that the protocol model goes by say so |
| ArchivePointer.NormalizedIsAddress | workers/inbound-email.ts:816-842 | a recipient that the handler can normalize is an address to the emergency forward |
| RawArchive.PersistRawWithRetry | workers/inbound-email.ts:254-360 | what is returned is under the key and exactly this message, in at most 10 attempts, with 5,550 to 11,100 ms of sleep before giving up and 20 timeouts plus 11,100 ms in all; a free key fails only if no attempt was answered |
| RawArchive.JitteredBackoff | workers/inbound-email.ts:141-147 | a delay is positive and between half of its maximum and the maximum, whatever the random sample |
| RawArchive.Attempt | workers/inbound-email.ts:242-252 | one attempt never changes an object that is there and answers with what is under the key |
| RawArchive.RawKey.BoundedPut | workers/inbound-email.ts:149-172 | a put under a deadline may fail before or after its effect, and never replaces an object |
| RecentSweep.CoverageIsStable | workers/inbound-reconciliation.ts:2192-2276 | coverage outlives time, late arrivals and other programs' markers |
| RecentSweep.BeginningKeepsCoverage | workers/inbound-reconciliation.ts:2192-2276 | starting to list a minute keeps coverage |
| RecentSweep.PageKeepsCoverage | workers/inbound-reconciliation.ts:2192-2276 | moving past a marked page, or to the next minute after the last page, keeps coverage |
| RecentSweep.PassedMeansMarked | workers/inbound-reconciliation.ts:2278-2345 | a key that landed before its minute closed to the lane, in a passed minute, has a marker |
| RecentSweep.Bucket.MarkPage | workers/inbound-reconciliation.ts:2192-2276 | a page that is done has a marker for every parseable key and cost at most one scan per key |
| RecentSweep.Bucket.ListAndMark | workers/inbound-reconciliation.ts:2192-2276 | one listing call either fails or moves the position on over marked keys only |
| RecentSweep.Bucket.ScanLane | workers/inbound-reconciliation.ts:2192-2276 | a lane never goes back, never beyond the last closed minute plus one, stays in budget, and stops only at that minute, in a page or with the budget spent |
| RecentSweep.Bucket.ReadCursor | workers/inbound-reconciliation.ts:2128-2159 | a stored cursor always passes the reader's check that it is not in the future |
| RecentSweep.Bucket.RunLane | workers/inbound-reconciliation.ts:2161-2184 | a lane's run keeps both lanes covered even when its cursor write is lost or reported failed after its effect |
| RecentSweep.Bucket.DiscoverRecentRawArchives | workers/inbound-reconciliation.ts:2278-2345 | both lanes together scan at most 64 keys in 64 listing calls, cursors do not go back, coverage is kept |
| RecentSweep.Bucket.Runs | workers/inbound-reconciliation.ts:2278-2345 | over any number of runs with anything in between, every timely key of a passed minute has a marker |
| RecentSweep.Bucket.RecentSweepCovers | workers/inbound-reconciliation.ts:2278-2345 | in any valid state a timely parseable key of a minute that a lane has passed has a marker; the backstop lane is timely for 60 minutes longer |
| RecentSweep.Bucket.ListedMeansMarked | workers/inbound-reconciliation.ts:2192-2276 | whatever was there when a passed minute was listed has a marker |
| RawSweep.Counters.Add | workers/inbound-reconciliation.ts:1889-1954 | exactly one counter of an outcome goes up |
| RawSweep.Sweep.ReconcileOneArchive | workers/inbound-reconciliation.ts:1889-1954 | an archive is counted once, as one outcome or one failure, and ledgered only if it failed |
| RawSweep.Sweep.ReconcilePage | workers/inbound-reconciliation.ts:2514-2600 | every key of a page is handled or left over, each scan is logged, and a page is complete exactly when nothing is left over |
| RawSweep.Sweep.SweepActive | workers/inbound-reconciliation.ts:2370-2512 | the active cursor is held when an archive of its page stays without a ledger entry |
| RawSweep.Sweep.ReconcileInboundArchives | workers/inbound-reconciliation.ts:2370-2657 | scanned is the sum of the outcomes and the failures; the raw cursor moves only past keys that were handled or belong to the run's active page |
| HtmlText.TagEnd | shared/inline-image-mappings.ts:95-110 | the tag end is one past the first `>` outside quotes |
| HtmlText.TagEndIsLocal | shared/inline-image-mappings.ts:95-110 | a tag end depends on nothing but the tag's own characters |
| HtmlText.RawTextClose | shared/inline-image-mappings.ts:112-125 | jumping from candidate to candidate finds the least position at which the raw text ends |
| HtmlTags.ParseAttributes | shared/inline-image-mappings.ts:127-187 | the loop collects the first value of every attribute, and refuses a relevant one that occurs twice |
| HtmlTags.MarkupIsLocal | shared/inline-image-mappings.ts:189-280 | what is read depends only on the characters that make it up, unless it is a stray `<` |
| HtmlTags.ItemIsLocal | shared/inline-image-mappings.ts:189-280 | the same inside raw text |
| HtmlTags.RawTextEndsWithItsTag | shared/inline-image-mappings.ts:112-125 | in raw text nothing but a closing tag is found |
| HtmlProjection.ProjectHtml | shared/inline-image-mappings.ts:189-280 | on every body the loop ends and yields the tags of the constructs its reader reads, or the refusal; the ranges are ordered, disjoint and bracketed |
| HtmlSearch.SearchLandsExactly | shared/inline-image-mappings.ts:112-125 | for every body, the search in the lower-cased body ends at the least place from its start on which a closing tag of the body lands, moved by the U+0130 in front of it |
| HtmlSearch.IsRightExactly | shared/inline-image-mappings.ts:112-125 | it finds the end of the raw text where it is if and only if that end is where the first closing tag lands |
| HtmlSearch.UnmovedIsRight | shared/inline-image-mappings.ts:112-125 | it does whenever no U+0130 stands in front of the end of the raw text |
| HtmlSearch.MovedIsWrong | shared/inline-image-mappings.ts:112-125 | it does not when one does and nothing in front of the search's start closes that raw text |
| HtmlSearch.LoopReadsWhatIsMeantExactly | shared/inline-image-mappings.ts:189-280 | if each search is right, the loop reads the constructs that are meant and finds their tags; on a balanced body it reads them if and only if each search is right |
| HtmlSearch.NoneMovedReadsRight | shared/inline-image-mappings.ts:189-280 | each search is right on every body with no U+0130 in front of anything that closes a script or a style |
| HtmlSearch.SearchableIsRight | shared/inline-image-mappings.ts:189-280 | so it is on bodies without U+0130 and on bodies that mention neither script nor style |
| HtmlDotted.DottedTextMisleads | shared/inline-image-mappings.ts:112-125 | behind one U+0130 the search from the end of a tag lands exactly one place too far, or finds nothing where there is nothing |
| HtmlDotted.DottedBodyIsRefused | shared/inline-image-mappings.ts:189-280 | U+0130 followed by an empty script is a balanced body, and the loop refuses it as malformed |
| HtmlNesting.NestingIsBalance | shared/inline-image-mappings.ts:189-280 | the stack accepts a list of constructs if and only if it is balanced by the usual grammar |
| HtmlNesting.AcceptedBodyIsBalanced | shared/inline-image-mappings.ts:189-280 | a body that is meant to be accepted is the concatenation of a balanced list of constructs |
| HtmlNesting.ProjectedTagsFit | shared/inline-image-mappings.ts:189-280 | the tags that are meant have ordered, disjoint ranges inside the text |
| HtmlNesting.LoopAcceptsBalanced | shared/inline-image-mappings.ts:189-280 | a body the loop accepts, wherever its searches land, is the concatenation of the constructs it reads, and they are balanced |
| HtmlNesting.LoopTagsFit | shared/inline-image-mappings.ts:189-280 | the tags the loop finds have ordered, disjoint ranges inside the text |
| InlineImages.AuthoredInlineImages | shared/inline-image-mappings.ts:298-332 | on every body, the images are those of the tags the loop finds in front of a forwarded message, with disjoint ranges in order |
| InlineImages.CutFromTheEnd | shared/inline-image-mappings.ts:344-358 | removing ranges from the last to the first removes each at its original place |
| InlineImages.RemoveManagedInlineImageNodes | shared/inline-image-mappings.ts:344-358 | on every body, the result is the body without the ranges of that image, or the body itself if its images cannot be told |
| InlineImages.ImagesAreAsMeant | shared/inline-image-mappings.ts:298-358 | where each search for the end of raw text is right, the images found and the text left are those that are meant |
| InlineImageRemoval.CutIsKept | shared/inline-image-mappings.ts:344-358 | cutting the ranges is dropping the constructs |
| InlineImageRemoval.KeptIsRead | shared/inline-image-mappings.ts:344-358 | a reader that sees only what is in front of it, as is meant, reads what is left as the constructs that were kept if and only if its strays stay strays |
| InlineImageRemoval.StrayMarkup | shared/inline-image-mappings.ts:189-280 | a `<` starts nothing if and only if a `>` follows outside quotes and neither a name nor a declaration nor a comment starts there |
| InlineImageRemoval.RemovalIsExact | shared/inline-image-mappings.ts:344-358 | in the reading that is meant, removal takes exactly the image's tags out; the rest reads as the other constructs if and only if its strays stay; then it is accepted and its images are the others in order |
| InlineImageRemoval.WithoutStraysNothingChanges | shared/inline-image-mappings.ts:344-358 | that is the case whenever every `<` outside comments and raw text starts a construct |
| InlineImageRemoval.RemovalIsIdempotent | shared/inline-image-mappings.ts:344-358 | in the reading that is meant, removing an image twice is removing it once, and it is gone |
| InlineImageReread.RemovalIsReadExactly | shared/inline-image-mappings.ts:344-358 | on a body the loop accepts with each search right, it reads what a removal leaves as the other constructs if and only if their strays stay strays and each search in the text left is right; then it accepts it and finds the other images in order |
| InlineImageReread.NoneMovedStays | shared/inline-image-mappings.ts:344-358 | if no closing tag of raw text stands behind U+0130 and the strays stay, the same is so of the text left |
| InlineImageReread.RemovalStaysRight | shared/inline-image-mappings.ts:344-358 | then the loop accepts the text left, finds the other images in order, and a second removal changes nothing |
| InlineImageStray.RemovalMayBreakTheBody | shared/inline-image-mappings.ts:344-358 | a body with one image that is accepted before the removal and refused after it |
| InlineImageShift.RemovalMayShiftTheEnd | shared/inline-image-mappings.ts:112-125 | a body with one image, no stray and each search right, that is accepted before the removal and refused after it |
| InlineImageMapping.RepeatsNone | shared/inline-image-mappings.ts:360-372 | true if and only if no content id occurs twice |
| InlineImageMapping.ByContentId | shared/inline-image-mappings.ts:373-381 | the attachments by content id, if and only if no two share one |
| InlineImageMapping.MapImages | shared/inline-image-mappings.ts:360-390 | accepted if and only if each image occurs once and belongs to the one attachment of its id, which is ready, inline and an image; otherwise the answer is the first fault in the order of the checks, of the first image that has one |
| InlineImageMapping.ValidateInlineImageMappings | shared/inline-image-mappings.ts:360-390 | the same for the images the loop finds in a body |
| InlineImageMapping.MappingIsAsMeant | shared/inline-image-mappings.ts:360-390 | where each search for the end of raw text is right, the answer is about the images that are meant |
| MailSearch.Lex | shared/mail-search.ts:46-96 | the character loop yields the tokens between white space outside quotes, or the first error |
| MailSearch.ParseSearchQuery | shared/mail-search.ts:121-205 | the loop yields the terms, phrases, filters, flags and dates of the tokens in order |
| SearchPrinter.CanonicalValues | shared/ai-search-interpreter.ts:146-172 | accepts exactly the lists of at most eight distinct canonical values |
| SearchPrinter.EscapedIsRead | shared/ai-search-interpreter.ts:224-226 | the lexer reads an escaped value back, whatever it contains |
| SearchPrinter.JoinIsRead | shared/ai-search-interpreter.ts:232-262 | the lexer cuts the printed query into exactly the printed pieces |
| SearchRoundTrip.ParsingUndoesPrinting | shared/ai-search-interpreter.ts:232-279 | what was printed parses back to the very same filters if and only if no phrase reads as an operator and the folders are in lower case |
| SearchRoundTrip.SomePhrasesAreMislaid | shared/ai-search-interpreter.ts:264-279 | the phrase `is:read` is printed and read back as a flag |
| SearchInjective.JoinIsInjective | shared/ai-search-interpreter.ts:232-262 | the printed text tells its pieces, in order |
| SearchInjective.PrintingIsInjective | shared/ai-search-interpreter.ts:232-262 | different filters are printed differently, whatever phrases and folders they hold |
| AttachmentKinds.ClassifyMailboxAttachment | shared/mailbox-attachments.ts:148-158 | the first kind that lists the MIME type, else the first that lists the extension, else other |
| AttachmentKinds.MailboxAttachmentKindSql | shared/mailbox-attachments.ts:333-349 | the generated clauses, MIME types first |
| AttachmentKinds.PlainLike | shared/mailbox-attachments.ts:333-349 | a pattern without wildcards matches exactly the text up to ASCII case |
| AttachmentKinds.ExtensionLike | shared/mailbox-attachments.ts:143-146 | the suffix pattern matches exactly the names with that extension |
| AttachmentKinds.GeneratedSqlClassifies | shared/mailbox-attachments.ts:333-349 | for every ASCII name and MIME type padded only by blanks, and for NULL, the CASE generated from any tables equals the classifier |
| AttachmentKinds.MailboxSqlClassifies | shared/mailbox-attachments.ts:76-127 | the same for the tables of the application |
| AttachmentKinds.SqlClassifiesExactly | shared/mailbox-attachments.ts:333-349 | on ASCII rows, the CASE generated from any such tables differs from the classifier if and only if white space other than blanks hides a listed MIME type or extension from the query and the rest does not make up for it |
| AttachmentKinds.MailboxSqlClassifiesExactly | shared/mailbox-attachments.ts:76-127 | the same for the tables of the application |
| AttachmentKinds.TabsTellThemApart | shared/mailbox-attachments.ts:139-141 | for example, padded by a tab, a listed MIME type has its kind to the classifier and none to the query |
| AttachmentKinds.PatternMatchesContaining | shared/mailbox-attachments.ts:160-169 | a query is refused if and only if its bytes and its wild cards are more than 48; otherwise the pattern matches exactly the names that contain the query, up to ASCII case |
| AddressOrder.CompareCanonicalMailAddresses | shared/mail-people.ts:200-211 | the loop decides by the first difference, a proper prefix first |
| AddressOrder.CodePointOrderIsByteOrder | shared/mail-people.ts:195-211 | the comparison has the sign of the comparison of the UTF-8 encodings |
| AddressOrder.CompareIsAntisymmetric | shared/mail-people.ts:200-211 | the order is antisymmetric and zero only on equal addresses |
| AddressOrder.CompareIsTransitive | shared/mail-people.ts:200-211 | the order is transitive, strictly so if either step is strict |
| AddressOrder.SummariesAreOrdered | shared/mail-people.ts:456-471 | each of the three sort orders is transitive |
| AddressOrder.ValidatePage | shared/mail-people.ts:473-514 | accepts exactly the pages within the limit, without repeated people, with the right domains and with neighbours in order, whose next cursor, if any, follows a full page and names its last person |
| AddressOrder.AcceptedPageAscends | shared/mail-people.ts:473-514 | any two people of an accepted page are strictly ascending |
| AddressOrder.CursorEndsThePage | shared/mail-people.ts:500-514 | everybody on an accepted page comes before the place its cursor names, but for the last person, who is there |
| Base64Url.BytesToBase64Url | shared/mailbox-attachments.ts:184-188 | the loop over the array yields the encoding that both decoders undo |
| Base64Url.DecodeBase64Url | shared/base64url.ts:6-21 | fills a fresh array with the decoded bytes, or refuses |
| Base64Url.PaddingsAgree | shared/mailbox-attachments.ts:190-194 | the two padding formulas agree on every length |
| Base64Url.DecodersAgree | shared/mailbox-attachments.ts:190-194 | the two decoders are the same function on the URL alphabet, refusals included |
| Base64Url.DecodeUndoesEncode | shared/base64url.ts:6-21 | both decoders undo the encoder, for every byte string |
| Base64Url.EncodeIsInjective | shared/mailbox-change-feed.ts:62-66 | different byte strings are encoded differently |
| Base64Url.EncodedLength | shared/mailbox-change-feed.ts:62-66 | an encoding has at most four symbols for each byte |
| ChangeFeed.CursorsRoundTrip | shared/mailbox-change-feed.ts:68-98 | every safe non-negative integer has a cursor of at most 256 characters, and no other string decodes to it |
| ChangeFeed.CursorsAreDistinct | shared/mailbox-change-feed.ts:68-71 | different sequences have different cursors |
| ChangeFeed.ValidateChangePage | shared/mailbox-change-feed.ts:210-236 | accepts exactly the pages that rise from the cursor they follow and name where they end |
| ChangeFeed.ChainedPagesRise | shared/mailbox-change-feed.ts:210-236 | pages chained by their cursors rise together, and the last cursor is the last change |
| ChangeFeed.ChainedPagesIncrease | shared/mailbox-change-feed.ts:210-236 | so no change is repeated or out of order, for any number of pages |
| Recipients.RecipientSeparatorPositions | shared/recipient-addresses.ts:37-64 | the positions of the separators outside quotes, comments and brackets |
| Recipients.SeparatorsRise | shared/recipient-addresses.ts:37-64 | they are positions of separators, in order |
| Recipients.PartsRebuildTheText | shared/recipient-addresses.ts:66-74 | the untrimmed parts with the separators between them are the text |
| Recipients.SplitAddressList | shared/recipient-addresses.ts:66-74 | the trimmed parts that are not empty, in order |
| Recipients.BlankCommentsDescends | shared/recipient-addresses.ts:81-89 | a pass over the comments that changes anything takes a parenthesis away |
| Recipients.WithoutNamesAndComments | shared/recipient-addresses.ts:81-89 | the fixpoint loop ends, keeps the length, only writes blanks, and leaves nothing to blank |
| Recipients.ParseRecipientText | shared/recipient-addresses.ts:100-122 | the recipients of the parts in order |
| Recipients.SendableRecipients | shared/recipient-addresses.ts:129-143 | each field's addresses that no field before, and nothing before in it, has, whatever lower-casing does |
| Recipients.FreshIsDistinct | shared/recipient-addresses.ts:129-143 | what is kept has distinct keys and, with what was known, all keys |
| Recipients.SentOnceInTheMostVisibleField | shared/recipient-addresses.ts:129-143 | each field keeps exactly the first address with each key that no more visible field has, in the order given; keys are distinct within and across the fields, and nobody is lost |
| RecipientLists.JoinedListIsParsedBack | shared/recipient-addresses.ts:100-122 | parsing a comma-joined list of bare addresses gives the list |
| AttachmentFilename.TakeBoundedCharacters | shared/attachment-filename.ts:12-27 | the loop computes the prefix that TakeIsLongest characterises |
| AttachmentFilename.TakeIsLongest | shared/attachment-filename.ts:12-27 | a prefix within both bounds, and no longer prefix is |
| AttachmentFilename.BoundedFilename | shared/attachment-filename.ts:29-49 | computes the name that BoundedIsLongest characterises |
| AttachmentFilename.BoundedIsLongest | shared/attachment-filename.ts:29-49 | it fits, is a prefix of the stem followed by the extension whenever that qualifies, and no longer prefix fits |
| AttachmentFilename.FittingNameStays | shared/attachment-filename.ts:29-49 | a name that fits is left alone |
| AttachmentFilename.SafeAttachmentStorageFilename | shared/attachment-filename.ts:108-129 | computes the name, or the refusal, that StorageNameFits characterises |
| AttachmentFilename.StorageNameFits | shared/attachment-filename.ts:108-129 | refused if and only if the prefix leaves no room; otherwise not empty, at most 255 characters, and 1,024 bytes with the prefix |
| AttachmentFilename.StorageNameIsIdempotent | shared/attachment-filename.ts:108-129 | naming a stored file again under the same prefix changes nothing |

## Left out

- InboundIngress, InboundQueue, InboundReconciler, EmergencyHandoff: the programs are values that step
  from call to call, not methods, because what is proved is about interleavings inside them.
- EmergencyHandoff.TaskResumes: marker leases, and marker objects that do not parse, are not modelled; a
  marker is absent or names a pointer, and a repair compares the marker by value, where the code compares
  etags. A quarantine because the mailbox was unavailable counts as
  forward-eligible.
- EmergencyHandoff.TaskMayCall: the text of the provider's reference is not modelled; the second commit it
  leads to is. `PutAccepted` is one unconditional atomic write, where the code reads the marker, creates it or
  rereads it, and makes up to four compare-and-swap attempts, and may report failure or throw
  (`workers/lib/emergency-forward.ts:1277-1331` and `:1356-1384`).
- InboundReconciler.ReconcilerResumes: the raw object's own checksum is not told apart from the rest of what
  makes it intact.
- HtmlSearch.LoopReadsWhatIsMeantExactly: the equivalence is about constructs; about tags it goes one way,
  because different constructs can have the same tags.
- AttachmentKinds.GeneratedSqlClassifies: asks for ASCII padded by blanks, because SQLite's `lower` and
  `trim` do less than the classifier's. The generated SQL is an expression tree, not its text.
- Receipts.ValidatorsAgreeExactly: the timestamp, pointer and identity checks, which both validators make
  alike, are not modelled.
- Receipts.WrittenReceiptsAreValid: the same.
- RecentSweep.Bucket.ReadCursor: a cursor is a minute and a page; its canonical text and the etag check of
  the reader are not modelled.
- RawSweep.Sweep.ReconcileOneArchive: the outcome of the archive is arbitrary.
- RawSweep.Sweep.SweepActive: clearing markers and keys of the index that do not parse are not modelled.
- RawSweep.Sweep.ReconcileInboundArchives: which outcome an archive has is arbitrary here; it is what
  InboundReconciler is about. The repair and cleanup sweeps of the same run are not modelled.
- AttachmentKinds.MailboxAttachmentKindSql: the clauses are an expression tree; the SQL text and its quoting
  are not modelled.
- AddressOrder.ValidatePage: the shape checks of each person's fields are not modelled, and cursors are
  decoded by a parameter.
- ChangeFeed.ValidateChangePage: the shape checks of each change's other fields are not modelled.
- Letters outside ASCII, other than U+0130, in `Characters.Lower`: the runtime maps them one to one, which
  among content ids matters only for the Kelvin sign.
- RecentSweep.Bucket.RunLane: two overlapping sweeps appear as a lost or failed cursor write.
- Malformed Queue pointers, which are quarantined and acknowledged without any of the above.
- The emergency consumer and its marker repair: an environment with the contract above.
- `claimAndEnqueue` is one call whose failure makes the handoff fail.
- The terminal ledger of dead letters, anomalies, failure ledgers, logs and telemetry: no effect on
  who is responsible for a message.
- Derived-content inspection is an arbitrary boolean.
- MIME parsing and mailbox storage, SHA-256, R2 and Queue internals, real clocks and random numbers.
- Lone surrogates: texts are scalar values. Error texts and log codes.
- The `localeCompare` of ISO dates on People pages is a comparison of instants.
- Cursors of People lists and attachment lists: the same codec with shape checks read off one branch.
- Shape checks of requests and responses, routing, authentication, sending, and the user interface.
