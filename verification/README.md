# Verification of the hamr dev server

This project models the logic of the dev server under `internal/devserver` and proves what it
promises. It has five groups of modules.

**Stripe mock money.** `StripeStore` holds the stored objects, `Ledger` and `Balances` the two
separately written ledger folds and the conservation of money across them, `StripeOps` and
`Checkout` what every operation does to the store as a value. `StripeInvariant` proves what every
operation keeps, `StripeMoney` what it does to each balance, `StripeRuns` and `StripeTheorems` lift
both to every run of operations, `StripeLaws` states what pairs of operations come to, and
`StripePromises` what an accepted request has done. `StripeRequests` and `CheckoutRequests` say when
a request is accepted and what is stored for it in terms of the request alone, `StripeFigures` what
it does to every balance in figures read off the request and the old store, `LedgerLines` which
lines a ledger shows. `StripeBooks` says when money is conserved over the accounts that exist,
`StripeCases` gives runs with a result a caller might not expect. `StripeMock` is the mock itself,
an object whose maps are updated in place, loop by loop and branch by branch; each method keeps the
object valid and is proved against the operation on the store's value. The times and ids a request
draws are arguments; ids are new. A reader of a checkout sees two instants, the one at which a typed
code is applied and the one at which it is redeemed.

**Build scheduler.** `WatchRules` and `DependencyGraph` treat the dependency relation, Kahn's
algorithm in both its copies and the graph's completion channels; `Builds` the initial build, the
scan for the next rule and a whole drain; `SchedulerProtocol` the interleaving of producers, token
channel and scheduler, one atomic step at a time.

**Compose port reconciliation.** `ComposeInspect` reads a running stack, `PortWalk` walks stopped
services to free ports under an oracle for the operating system, `PortPairing` and `PortMatching`
pair declared ports with live publishers, `PortResolution` says what that comes to,
`ComposeOverride` and `OverrideFile` relate the shift list and the override file.

**Codecs and mirrors.** `BracketTree`, `BracketForm` and `BracketDecode` decode Stripe's bracket
form keys into trees, `BracketOrders` says when the order of the keys does not matter and
`BracketEncoding` that decoding inverts encoding; `TextLines`, `Mbox`, `MboxReading` and `Inbox`
write, cut and read the mbox file (Appendix A of RFC 4155) and keep it the mirror of the bounded
inbox.

**Concurrent buffers and protocols.** `SseClient` delivers events to a racing consumer, `SseBroker`
interleaves broadcasts with subscriptions, `Idempotency` is the run-once protocol with waiters and
panics, `TailBuffer` the ring buffer of process output.

`Wrappers`, `Seqs`, `Sorting`, `MapSums` and `AsciiCase` are shared helpers.

Where the code differs from what its comments or a caller might expect, the code is modelled and
the difference is stated as a lemma:

- A payment intent's `Stripe-Account` header is not validated, so money can end on the balance of an
  account that does not exist (`UnknownAccountKeepsMoney`). Which requests take money off the books
  of the accounts that exist is stated exactly by `BooksKeptIff`, and for whole runs by
  `ConservedOverKnownAccounts`.
- `transfer_data[amount]` may exceed what is captured (`TransferExceedsCharge`,
  `TransferExceedsCapture`), and exactly then overdraws the charge at the platform's cost
  (`ShareWithinCapture`, `ShareWithinAmount`).
- Reactivating a promotion code can leave two working codes with one text (`TwoCodesOneText`), and
  does exactly when another working code has it (`ActivateKeepsTextsUnique`).
- Bracket keys that use one container both as map and as list, or as a leaf as well, decode to one
  tree, to another or not at all depending on the order in which the map yields them
  (`MixedKeysDependOnOrder`, `SignedIndexDependsOnOrder`); well written keys decode alike in every
  order exactly if they do neither (`DecodesAlikeIff`).
- A bracket key that appends to a list below a list it has appended, such as `a[][]`, panics
  (`NestedAppendCrashes`; exactly when, `CrashesIff`).
- A body line ending in a stray carriage return does not survive the mbox file (`StrayCRIsLost`; no
  other body is changed beyond its line ends, `SettledIsClosed`), and one ending in four changes
  again at the second save (`SecondSaveLosesMore`, `SecondSaveIsIdentity`).
- A stale override file is kept, without any shift being reported, while a running service cannot be
  matched (`MergeIsOverride`, `StaleFileKept`).
- The reset at the thousandth idempotency key lets one key's handler run twice at once and complete
  twice, but only in runs with more than a thousand distinct keys (`TwoRunIffOverLimit`,
  `TwoCompleteIffOverLimit`).

## Model

| member | source | states |
|---|---|---|
| DependencyGraph.ValidateWatch | internal/devserver/config.go:677-711 | a rule list is accepted exactly when every rule is in order, every dependency is known and there is no cycle; otherwise the error is the fault of the first rule that is not, or else the first unknown dependency, or else the cycle |
| DependencyGraph.FaultsAre | internal/devserver/config.go:677-705 | a rule is in order if it has a name that is free, a watch pattern, and a cmd or run; the error for the first that is not names the first of these it lacks |
| DependencyGraph.DetectCycles | internal/devserver/config.go:756-795 | for unique names and known dependencies, repeated ones allowed, the list is accepted if and only if no rule reaches itself |
| WatchRules.StuckMeansCycle | internal/devserver/config.go:786-794 | rules that all wait for one another contain a cycle, so a run of the algorithm that gets stuck has found one |
| DependencyGraph.Graph.constructor | internal/devserver/graph.go:25-38 | a new graph has the rules' dependencies and every completion channel closed |
| DependencyGraph.Graph.SnapshotDeps | internal/devserver/graph.go:42-66 | the channels a wait snapshots are those of the listed dependencies; all are closed exactly when no dependency is running |
| DependencyGraph.Graph.MarkRunning | internal/devserver/graph.go:70-80 | opens a fresh channel for an idle rule, leaves a running one and all others alone |
| DependencyGraph.Graph.MarkDone | internal/devserver/graph.go:83-95 | closes the rule's channel, at most once, and no other |
| DependencyGraph.Graph.TopologicalOrder | internal/devserver/graph.go:99-135 | the order has no repeats and puts dependencies first; it is a permutation of all rules if and only if the graph is acyclic |
| DependencyGraph.Drain | internal/devserver/graph.go:116-134 | the queue loop shared by both algorithms: what it outputs is ordered, and complete exactly on acyclic graphs |
| WatchRules.TopologicalIsAcyclic | internal/devserver/graph.go:97-99 | a graph with a dependencies-first order of all rules has no cycle |
| WatchRules.ReachesBefore | internal/devserver/graph.go:97-99 | in such an order every transitive dependency stands before its dependents |
| Builds.InitialBuild | internal/devserver/devserver.go:793-844 | the failed set is exactly the rules whose command fails or that reach one whose command fails; the commands run are exactly those of rules without a failed transitive dependency, in order |
| Builds.FailedAndRan | internal/devserver/devserver.go:793-844 | a rule has failed if its command reports an error or it depends, directly or not, on one whose command does; run are, in order, the commands of the rules that depend on none |
| Builds.SkippedIffBrokenDep | internal/devserver/devserver.go:798-815 | a rule has a failed direct dependency if and only if it has a broken transitive one |
| Builds.PickNext | internal/devserver/devserver.go:958-989 | a scan takes the first dirty rule none of whose dependencies is dirty and removes only it; finding none leaves the set as it was |
| Builds.PickedHasCleanDeps | internal/devserver/devserver.go:972-986 | the rule picked has no dirty transitive dependency |
| Builds.PicksGoForward | internal/devserver/devserver.go:958-989 | the rule picked is the first dirty one of the order, so that without new events the next one picked stands behind it |
| Builds.EmptyScanMeansClean | internal/devserver/devserver.go:991-993 | a scan of a topological order finds nothing only if the dirty set is empty |
| Builds.DrainDirty | internal/devserver/devserver.go:944-996 | without new events a drain ends having run every dirty rule exactly once, each behind its dirty dependencies |
| Builds.HandleEvent | internal/devserver/devserver.go:995-995 | handling an event never blocks on a dependency, since the scheduler runs one rule at a time, and leaves nothing running |
| SchedulerProtocol.RunsKeepInvariant | internal/devserver/devserver.go:909-998 | no lost wakeup under any interleaving of producers and scheduler: a non-empty dirty set implies a token, a producer about to send, or an active scheduler; a dirty rule carries its newest event |
| SchedulerProtocol.QuietMeansServed | internal/devserver/devserver.go:1020-1030 | whenever all are idle without a token the dirty set is empty and every rule's newest event has been taken out to be run |
| SchedulerProtocol.NoChangeIsLost | internal/devserver/devserver.go:427-435 | in every run in which a change comes in and all are idle without a token in the end, its rule has been started after the change |
| SchedulerProtocol.ProducersAreFree | internal/devserver/devserver.go:1020-1030 | a producer waits for nobody: it can insert any rule in any state and offer its token next |
| SchedulerProtocol.PicksAreClean | internal/devserver/devserver.go:958-989 | in every run, whenever a rule is started no transitive dependency of it is dirty |
| SchedulerProtocol.SettlesInTime | internal/devserver/devserver.go:427-435 | without new events every schedule is quiet within a bound computed from the state |
| SchedulerProtocol.NeverStuck | internal/devserver/devserver.go:909-998 | as long as somebody is to look at the dirty set, a step other than an insert or a shutdown is enabled |
| BracketForm.SplitBracketKey | internal/devserver/stripemock_form.go:43-65 | the loop returns the specified segments or the error for malformed keys |
| BracketForm.SplitJoin | internal/devserver/stripemock_form.go:43-65 | splitting the bracket spelling of a path gives the path back |
| BracketForm.JoinSplit | internal/devserver/stripemock_form.go:43-65 | a key that splits is the spelling of its segments, so distinct keys have distinct paths |
| BracketForm.SetBracketPath | internal/devserver/stripemock_form.go:71-140 | walking down, growing and writing slices back through the tree comes to setting the leaf recursively, same errors and same panics included, appending segments among them |
| BracketForm.WriteBackLeads | internal/devserver/stripemock_form.go:144-178 | writing back by a path puts the container where the path has led, unless a segment has appended to a list on the way: then it panics |
| BracketForm.CrashesIff | internal/devserver/stripemock_form.go:71-140 | a write panics exactly when a segment that appends to a list is followed by one that indexes a list |
| BracketTree.IndexIs | internal/devserver/stripemock_form.go:201-213 | a segment is an index if it is digits that fit 64 bits, signed or not, but not negative; the empty one is the place behind the last |
| BracketTree.DigitsAreDecimal | internal/devserver/stripemock_form.go:201-213 | digits are read in base ten |
| BracketOrders.ConflictErrs | internal/devserver/stripemock_form.go:96-140 | a path that runs into a string, or into a list with a segment that is no index, is an error; a path of one segment replaces whatever is there |
| BracketOrders.AppendsInOrder | internal/devserver/stripemock_form.go:96-118 | the values of a key that ends in empty brackets come to stand in a list in their order |
| BracketOrders.NestedAppendCrashes | internal/devserver/stripemock_form.go:144-178 | the form a[][]=v panics |
| BracketTree.SetHolds | internal/devserver/stripemock_form.go:71-140 | a path that agrees with those a tree holds is set without error, and the tree then holds one more |
| BracketTree.HoldsUnique | internal/devserver/stripemock_form.go:24-39 | a set of paths with their values is held by one tree only |
| BracketTree.HoldsGet | internal/devserver/stripemock_form.go:24-39 | every held value is found at its path |
| BracketDecode.DecodeBracketForm | internal/devserver/stripemock_form.go:24-39 | decodes as visiting the keys in some order does, errors and panics included; a form whose keys split and use every container one way and none as a leaf decodes without error, in every visiting order, to a tree holding each key's last value at its path |
| BracketDecode.DecodedIsUnique | internal/devserver/stripemock_form.go:24-39 | no visiting order yields another tree, and every value is read back at its path |
| BracketOrders.DecodesAlikeIff | internal/devserver/stripemock_form.go:24-39 | a form of well written keys decodes without error and to the same tree in every visiting order if and only if its paths use every container one way and none as a leaf |
| BracketOrders.MixedKeysDependOnOrder | internal/devserver/stripemock_form.go:24-39 | the form a[0]=v&a[b]=w fails in one order and decodes in the other |
| BracketOrders.SignedIndexDependsOnOrder | internal/devserver/stripemock_form.go:201-213 | the form a[0]=v&a[+1]=w decodes to a list in one order and to a map in the other |
| BracketEncoding.LeafPathsAgree | internal/devserver/stripemock_form.go:71-140 | the leaf paths of a tree of non-empty maps and lists always agree |
| BracketEncoding.DecodeInvertsEncode | internal/devserver/stripemock_form.go:24-39 | decoding any bracket encoding of such a tree, in any visiting order, gives the tree |
| Balances.OwnerBearsCharge | internal/devserver/stripemock_ledger.go:42-47 | a charge stands on its owner's ledger and on no other, the owner's application fee on the platform's, and what the two get comes to the charge less the processing fee |
| LedgerLines.LedgerShows | internal/devserver/stripemock_ledger.go:53-176 | the lines of a ledger, the platform's or an account's, are exactly these, kind, time, source, amount and fee: charges where they were made with their fees, application fees on the platform's, refunds with the fee handed back, both sides of transfers and reversals, disputes with the fee of 2000 and what was won back, payouts |
| StripeFigures.FeeBackInFigures | internal/devserver/stripemock_ledger.go:166-171 | with the flag on, a refund hands back its share of the application fee, rounded down, and all of it if all is refunded; without it nothing |
| StripeMock.StripeMock.PlatformLedger | internal/devserver/stripemock_ledger.go:53-98 | the loops over the maps, in any order, append exactly the platform's entries; a newer entry never stands behind an older one, and of two at one time the greater source comes first |
| StripeMock.StripeMock.ConnectedLedger | internal/devserver/stripemock_ledger.go:102-139 | the same for one connected account |
| StripeMock.BalanceOf | internal/devserver/stripemock_ledger.go:31-37 | the loop's map holds the net of the entries in every currency |
| StripeMock.StripeMock.PlatformBalance | internal/devserver/stripemock_ledger.go:31-37 | the platform's balance per currency, from its ledger |
| StripeMock.StripeMock.ConnectedBalance | internal/devserver/stripemock_ledger.go:178-182 | an account's balance per currency, from its ledger |
| Ledger.NetOfSeq | internal/devserver/stripemock_ledger.go:31-37 | the net of a ledger depends on its entries only, not on their order |
| Balances.BalanceByParts | internal/devserver/stripemock_ledger.go:53-182 | each of the two folds adds up what the single objects contribute |
| Balances.MoneyIsConserved | internal/devserver/stripemock_ledger.go:53-182 | the balances of the platform and of all accounts that hold anything come to captured charges less processing fees, refunds, dispute withdrawals and fees, won amounts back, less payouts that did not fail; transfers, reversals, application fees and their refunds cancel |
| StripeFigures.StepInFigures | internal/devserver/stripemock_ledger.go:53-182 | an accepted request changes the balance of every account in every currency by a figure that is read off the request and the objects stored before it; a refused one changes none |
| StripeFigures.RunInFigures | internal/devserver/stripemock_ledger.go:53-182 | after any run of requests a balance is the sum of the figures of those accepted |
| StripeLaws.FeesBackWithinFee | internal/devserver/stripemock_ledger.go:166-171 | however often a charge is refunded in part, the application fee handed back never exceeds the one taken |
| StripeMock.StripeMock.CreatePaymentIntent | internal/devserver/stripemock_paymentintent.go:111-151 | accepted exactly for a positive amount, a currency, a fee within the amount and a destination that exists, if any; stores an intent that says what was asked for, without a charge; otherwise refuses without change |
| StripeMock.StripeMock.ConfirmPaymentIntent | internal/devserver/stripemock_paymentintent.go:187-230 | moves an unconfirmed intent, and no other, to processing or requires_capture, with the payment method named, its own or else a test card; otherwise refuses without change |
| StripeMock.StripeMock.CapturePaymentIntent | internal/devserver/stripemock_paymentintent.go:240-333 | accepted exactly for an intent that waits for its capture and no more than its amount; it succeeds with one new charge of what is asked for, or else of all of it, and with one new transfer exactly if it has a destination: of what is asked for or of the rest after the fee, never negative; otherwise it refuses without change |
| StripeLaws.ShareWithinCapture | internal/devserver/stripemock_paymentintent.go:299-320 | a capture overdraws its charge, and the platform pays the difference, if and only if transfer_data.amount exceeds what the request captures |
| StripeInvariant.CreateIntentKeeps | internal/devserver/stripemock_paymentintent.go:111-151 | creation keeps every invariant of the stored objects |
| StripeInvariant.CaptureIntentKeeps | internal/devserver/stripemock_paymentintent.go:240-333 | capture keeps every invariant of the stored objects |
| StripeTheorems.OneChargePerIntent | internal/devserver/stripemock_paymentintent.go:240-333 | in every reachable store an intent has at most one charge, one exactly when it has succeeded, and a transfer exactly when it also has a destination |
| StripeCases.TransferExceedsCapture | internal/devserver/stripemock_paymentintent.go:299-320 | a run in which 500 are sent on of 100 captured: the charge is overdrawn by 400 and the platform by 433 |
| StripeCases.UnknownAccountKeepsMoney | internal/devserver/stripemock_paymentintent.go:125-125 | nothing checks the account an intent is made as: a run that leaves 941 on the balance of an account that does not exist |
| StripeBooks.BooksKeptIff | internal/devserver/stripemock_paymentintent.go:125-125 | books that balance over the platform and the accounts that exist still do after an operation if and only if the charge it is about is made as one of these, is in another currency or leaves nothing on its account, and an account that joins brings no money along |
| StripeBooks.ConservedOverKnownAccounts | internal/devserver/stripemock_paymentintent.go:125-125 | over the accounts that exist, money is conserved all through a run if and only if every accepted operation meets that condition |
| StripeBooks.KnownAccountsHoldAll | internal/devserver/stripemock_paymentintent.go:125-125 | in particular it is if every intent is made as the platform or as an account that exists by then |
| StripeMock.StripeMock.CompletePaymentIntent | internal/devserver/stripemock_paymentintent_page.go:96-204 | the outcome buttons: success gives the intent its one charge, over all of it, and the transfer where due; failure only marks it |
| StripeLaws.ShareWithinAmount | internal/devserver/stripemock_paymentintent_page.go:148-176 | a success overdraws its charge, and the platform pays the difference, if and only if transfer_data.amount exceeds the amount |
| StripeCases.TransferExceedsCharge | internal/devserver/stripemock_paymentintent_page.go:148-176 | a run in which an intent of 1000 sends 5000 on: the charge is overdrawn by 4000 and the platform by 4059 |
| StripeMoney.SettleMovesMoney | internal/devserver/stripemock_paymentintent_page.go:122-176 | settling credits the charge's owner net of both fees, the platform with the application fee, and moves the share to the destination; no other balance changes |
| StripeMock.StripeMock.RefundCharge | internal/devserver/stripemock_refund.go:202-290 | accepted exactly for an undisputed charge, named directly or by its intent, with something left, and no more than that; one new refund of what is asked for, or of all that is left if nothing is, so that all refunds stay within what was captured; with reverse_transfer the transfer gives back as much, or what it has left; otherwise it refuses without change |
| StripeRequests.RefundRequest | internal/devserver/stripemock_refund.go:202-290 | the same of the operation on the store: when a refund is accepted, of how much of which charge it then is, what it reverses, and the status of a refusal |
| StripeMoney.RefundMovesMoney | internal/devserver/stripemock_refund.go:202-290 | a refund changes the balances by its amount at the charge's owner, the fee handed back between platform and owner, and the reversed part between destination and platform |
| StripeInvariant.ApplyRefundKeeps | internal/devserver/stripemock_refund.go:202-290 | a refund keeps every invariant, among them that the refund objects add up to what the charge says was refunded |
| StripeLaws.NothingGivenBackTwice | internal/devserver/stripemock_refund.go:228-246 | refunds and dispute of a charge together never exceed what was captured; a disputed charge cannot be refunded |
| StripeFigures.FeeInFigures | internal/devserver/stripemock_balance.go:21-34 | the processing fee is nothing on nothing, and otherwise 1.5% and 20 on pounds and euros and 2.9% and 30 on any other currency, the percentage rounded to the nearest unit |
| StripeMock.StripeMock.TransferFunds | internal/devserver/stripemock_transfer.go:52-117 | accepted exactly for a positive amount, a capable destination that exists, and a source charge of that currency with as much left or else as much on the platform's balance; one new transfer of what is asked for, which leaves neither below zero; otherwise a refusal without change |
| StripeMock.StripeMock.Available | internal/devserver/stripemock_transfer.go:123-131 | the loop computes captured less refunds less what transfers have drawn |
| StripeRequests.TransferTakes | internal/devserver/stripemock_transfer.go:123-131 | a transfer takes its amount from what its source charge has left to send on, and from no other |
| StripeRequests.ReversalRestores | internal/devserver/stripemock_transfer.go:123-131 | a reversal puts what it reverses back on it |
| StripeRequests.UntouchedIsAvailable | internal/devserver/stripemock_transfer.go:123-131 | a charge nothing has been sent on from has all of it left that is not refunded |
| StripeMock.StripeMock.ReverseFunds | internal/devserver/stripemock_transfer.go:154-205 | accepted exactly up to what is left of the transfer; one more reversal of what is asked for, or of all that is left, or a refusal without change |
| StripeLaws.TransferLeavesPlatformSolvent | internal/devserver/stripemock_transfer.go:91-96 | a transfer that draws on no charge never takes the platform below zero |
| StripeLaws.ReversalUndoesTransfer | internal/devserver/stripemock_transfer.go:154-205 | transfer and full reversal restore every balance and leave nothing to reverse |
| StripeMock.StripeMock.RaiseDispute | internal/devserver/stripemock_dispute.go:65-109 | accepted exactly for an undisputed charge of a succeeded intent with something left; one new dispute over all of that, or a refusal without change |
| StripeMock.StripeMock.SettleDispute | internal/devserver/stripemock_dispute.go:114-141 | an open dispute, and no other, is closed as won or lost, once |
| StripeLaws.DisputeCosts | internal/devserver/stripemock_dispute.go:65-141 | a won dispute costs the charge's owner exactly the fee of 2000, a lost one what was left of the charge as well; nobody else pays |
| StripeMock.StripeMock.PayoutAccountBalance | internal/devserver/stripemock_dispute.go:191-221 | pays out the first currency, in sorted order, with a positive balance: that balance becomes zero and no other changes |
| StripeLaws.PayOutEmpties | internal/devserver/stripemock_dispute.go:191-221 | it is refused only for unknown accounts or ones holding nothing; otherwise it leaves nothing in that currency and touches no other balance |
| StripeMock.StripeMock.AddPayout | internal/devserver/stripemock_payout.go:88-134 | accepted exactly for a positive amount in a currency and the platform or a known account; a pending payout of that amount to that account, whose balance falls by it, or a refusal without change |
| StripeMock.StripeMock.CompletePayoutAs | internal/devserver/stripemock_payout_page.go:87-122 | a pending payout becomes paid, or fails and is back on the balance, once |
| StripeLaws.FailedPayoutCostsNothing | internal/devserver/stripemock_payout_page.go:104-122 | a payout that fails leaves every balance as it was before the payout |
| StripeMock.StripeMock.AddCoupon | internal/devserver/stripemock_coupon.go:153-260 | accepted exactly if it is of one kind and a possible size, an explicit percent_off of zero being refused, and its id is free; stores what was asked for, not redeemed yet |
| Checkout.DiscountWithinSubtotal | internal/devserver/stripemock_coupon.go:68-77 | a discount lies between zero and the subtotal |
| CheckoutRequests.DiscountInFigures | internal/devserver/stripemock_coupon.go:68-77 | a percentage takes off the nearest unit to that share of the subtotal, a half rounded up; an amount takes off itself, or the subtotal if that is less, in its own currency only |
| StripeMock.StripeMock.RemoveCoupon | internal/devserver/stripemock_coupon.go:132-145 | deletes a coupon that is there and nothing else; every other coupon and the sessions that hold it stay as they are |
| StripeLaws.DeletedCouponRefusesPayment | internal/devserver/stripemock_coupon.go:133-135 | an open session that still holds a deleted coupon is refused at payment |
| StripeMock.StripeMock.AddPromotionCode | internal/devserver/stripemock_coupon.go:345-395 | accepted exactly for a coupon that exists while no active code has its text; stores what was asked for, so no two working codes come to share a text |
| StripeMock.StripeMock.UpdatePromotionCode | internal/devserver/stripemock_coupon.go:321-334 | puts a known code to work or out of it, its text, coupon and counter untouched; no two working codes share a text afterwards exactly if none did and no other working code has this one's; an unknown code is refused |
| StripeLaws.CreateKeepsTextsUnique | internal/devserver/stripemock_coupon.go:386-391 | creation never puts a second code with the same text to work |
| StripeLaws.ActivateKeepsTextsUnique | internal/devserver/stripemock_coupon.go:320-327 | reactivation does so if and only if no other working code has the text: nothing checks |
| StripeCases.TwoCodesOneText | internal/devserver/stripemock_coupon.go:320-334 | a run that creates a code, puts it out of work, creates it again and puts the first one back: two working codes with one text |
| StripeMock.StripeMock.FindPromotionCode | internal/devserver/stripemock_coupon.go:476-484 | a match, an active one if any match is active, whatever the map order |
| CheckoutRequests.FindsText | internal/devserver/stripemock_coupon.go:476-484 | the text of a match is the one looked for up to the case of letters, and an inactive one is found only if no active one matches |
| StripeMock.StripeMock.DiscountSession | internal/devserver/stripemock_coupon.go:490-523 | resolves coupon, code id or typed text and applies the discount as the operation on the store does, or refuses |
| CheckoutRequests.DiscountRequest | internal/devserver/stripemock_coupon.go:490-523 | it applies exactly if the code, if there is one, is active and it and the coupon are within their limits and deadlines, the deadline itself included, and the coupon is a percentage or in the session's currency; the session then has this discount alone, of what the coupon takes off |
| StripeMock.StripeMock.RedeemDiscounts | internal/devserver/stripemock_coupon.go:531-552 | counts every discount once after checking it again; with one discount a refusal changes nothing |
| StripeInvariant.RedeemKeeps | internal/devserver/stripemock_coupon.go:531-552 | redemptions never exceed their maximum |
| StripeLaws.RejectedOnlyPastDeadline | internal/devserver/stripemock_coupon.go:490-552 | a typed code that applied fails redemption later if and only if now is past a deadline, the code's or the coupon's |
| StripeMock.StripeMock.CompleteSession | internal/devserver/stripemock_mcp.go:36-185 | paid, declined or cancelled, a session that was open; a payment counts one redemption on its coupon and code and creates intent and charge over what is left; every rejection leaves everything as it was |
| CheckoutRequests.PaymentRequest | internal/devserver/stripemock_mcp.go:70-170 | a paid session has its own discount or that of the code typed; what that leaves of the subtotal is charged, in the session's currency, by one succeeded intent of the platform, and nothing is if nothing is left |
| CheckoutRequests.RejectionRequest | internal/devserver/stripemock_mcp.go:70-150 | a payment is rejected if and only if the code typed does not apply or a discount can no longer be redeemed |
| CheckoutRequests.OutcomesOfCheckout | internal/devserver/stripemock_mcp.go:36-70 | an outcome that is none gets status 400, an unknown session 404, one not open any more 409; a declined card changes nothing and cancelling closes the session unpaid |
| StripeMock.StripeMock.ExpireCheckoutSession | internal/devserver/stripemock_mcp.go:189-209 | an open session is closed unpaid, any other left alone |
| StripeLaws.PaidCheckoutCounts | internal/devserver/stripemock_mcp.go:70-170 | a paid session counts one redemption on its coupon and code and on no others, and creates intent and charge, over what is left, only for a positive total |
| StripeLaws.ClosedForGood | internal/devserver/stripemock_mcp.go:48-52 | in every run a session that has left open never changes again |
| StripeInvariant.CompleteCheckoutKeeps | internal/devserver/stripemock_mcp.go:36-185 | completion keeps every invariant, the discount within the subtotal among them |
| StripeRuns.RunsKeepInvariant | internal/devserver/stripemock_mcp.go:36-185 | in every store any run of operations reaches: one charge per succeeded intent, captured positive and at most the amount, nothing given back beyond it, transfers where due and never negative, redemptions within their maximum, discounts within the subtotal |
| StripeRuns.StepMovesMoney | internal/devserver/stripemock_ledger.go:7-9 | one operation changes every recomputed balance by exactly its effect; a refused one changes none |
| StripeRuns.RecomputedIsRunning | internal/devserver/stripemock_ledger.go:7-9 | after any run the balance recomputed from the objects is the one kept up to date operation by operation |
| StripeTheorems.RunsConserveMoney | internal/devserver/stripemock_ledger.go:7-9 | conservation after any run |
| StripeMock.StripeMock.ValidateLineItems | internal/devserver/stripemock.go:494-515 | accepts items of one currency and none recurring, and adds them up |
| CheckoutRequests.SubtotalAdds | internal/devserver/stripemock.go:494-515 | the subtotal of items adds up over parts of the list |
| CheckoutRequests.SubtotalOfOne | internal/devserver/stripemock.go:494-515 | one item comes to its unit amount times its quantity, once if that is not positive |
| StripeMock.StripeMock.CreateCheckoutSession | internal/devserver/stripemock.go:339-418 | accepted exactly for items of one currency, none recurring, and at most one discount, which applies and excludes codes to be typed; stores an open, unpaid session over the subtotal with what the coupon takes off; otherwise refuses without change |
| ComposeInspect.CanonKeepsKey | internal/devserver/composeinspect.go:71-88 | however a host is spelled, a declared binding and the publisher docker reports for it have the same key |
| ComposeInspect.KeysCollide | internal/devserver/composeinspect.go:71-88 | two addresses have one key exactly if port and host are the same, the local machine and all of its addresses counting as one host, however it is written |
| ComposeInspect.LiveAndAdopted | internal/devserver/composeinspect.go:166-205 | a row of an entry is live if its service has a name, it publishes a port and the state is running, in letters of either case; the entry is adopted if it runs and is healthy or has no health check |
| ComposeInspect.InterpretComposePS | internal/devserver/composeinspect.go:166-205 | adopted services, owned keys and publishers are exactly those of the running, respectively healthy, entries; a binding reported per address family is kept once; the owned keys are the publishers' |
| ComposeOverride.StateShiftsForServices | internal/devserver/composeinspect.go:276-301 | the drift of the selected services, one record per binding found elsewhere |
| PortMatching.ResolvedPortsForService | internal/devserver/composeinspect.go:325-393 | bins, matching and sorting give the specified pairing, whatever order the maps come in; a binding whose container port is declared and published once has the port of that publisher; the rest are paired only if as many publishers are left, each with another one, in the order of the declared host ports |
| PortResolution.ResolvedResolves | internal/devserver/composeinspect.go:325-393 | the pairing comes to the same, said of the bindings and the rows of compose ps alone |
| PortPairing.PairingIsInjective | internal/devserver/composeinspect.go:325-393 | only declared bindings are paired, each with a publisher of the same service, and no publisher twice |
| PortPairing.PermutationHasNoDrift | internal/devserver/composeinspect.go:325-393 | when the publishers are the declared ports in any order and none is random, every binding is paired with its own port |
| PortWalk.ProbeFreePort | internal/devserver/portwalk.go:87-129 | the port found is the first or one of the maxAttempts from it, is not taken and was answered free, and all before it were taken or in use; if none is found all of those were, or an attempt at one of them failed otherwise; port 0 is asked of the system once |
| PortWalk.WalkService | internal/devserver/composeports.go:287-325 | one service's walk under the oracle |
| PortWalk.WalkComposeServices | internal/devserver/composeports.go:276-329 | for any answers of the system: probed bindings sit in their windows with pairwise distinct keys disjoint from the owned ones, all others are unchanged, and the shifts are exactly the ports that moved |
| PortWalk.EveryPortTried | internal/devserver/composeports.go:276-329 | a binding moves in its host port only and by less than maxAttempts; it stays if docker picks its port or the project holds it; a port found for it was answered free and every one passed over was held, handed out or in use; if none was found all it could try were, or an attempt failed otherwise |
| PortWalk.MovesReport | internal/devserver/composeports.go:316-325 | the shift records name, in order, exactly the bindings whose port has moved, each with the declared port as the old and the other one as the new |
| PortWalk.PlacedNeverCollide | internal/devserver/composeports.go:282-290 | no two ports handed out collide, on whatever service |
| OverrideFile.WriteComposeOverride | internal/devserver/composeports.go:365-409 | exactly the affected services are emitted |
| ComposeOverride.CombinedComposeShifts | internal/devserver/devserver.go:1426-1433 | walk shifts followed by the running services' drift |
| ComposeOverride.ServicesNeedingWalk | internal/devserver/devserver.go:1456-1465 | the services that do not run |
| ComposeOverride.ShiftsAreTheDifference | internal/devserver/devserver.go:1413-1433 | walk shifts and drift together are exactly the bindings whose port in the override differs from the declared one, one record each |
| ComposeOverride.ApplyPath | internal/devserver/devserver.go:1363-1394 | the apply path as a whole: for unique service names the combined shift list is the difference between declared ports and override |
| ComposeOverride.AllOrRunning | internal/devserver/devserver.go:1330-1360 | asking about all services or only the running ones gives the same drift |
| ComposeOverride.AdoptPathAgrees | internal/devserver/devserver.go:1330-1360 | the adopt path's shifts are the difference to its override as well |
| ComposeOverride.OverrideServices | internal/devserver/devserver.go:1557-1583 | every service gets its live, walked or declared ports |
| ComposeOverride.OverrideGives | internal/devserver/devserver.go:1557-1583 | a running service has the ports its publishers were resolved to and the declared ones of bindings that were not; a stopped one has those it was walked to, or else the declared ones |
| OverrideFile.UnmatchedRunningServices | internal/devserver/devserver.go:1500-1520 | the running services with a declared port no publisher was found for |
| OverrideFile.UnmatchedIs | internal/devserver/devserver.go:1500-1520 | a service is warned about exactly if it runs and has a declared binding no container port settles while the numbers of bindings and publishers left differ |
| OverrideFile.ManageComposeOverride | internal/devserver/devserver.go:1484-1496 | what is written, kept or removed |
| OverrideFile.MergeIsOverride | internal/devserver/devserver.go:1484-1496 | base merged with the file left on disk gives every service its override ports if and only if something moved, or all running services were matched, or the file there before was harmless |
| OverrideFile.StaleFileKept | internal/devserver/devserver.go:1491-1493 | a concrete case in which a stale file is kept although no shift is reported |
| Inbox.StatusReplaced | internal/devserver/mailmock_mbox.go:139-143 | the status change puts the new status and a note that is not empty behind the id and leaves out the old ones; every other header line stays, in order |
| Mbox.EscapeRoundTrip | internal/devserver/mailmock_mbox.go:192-205 | unquoting undoes quoting on every line, and no quoted line opens an entry |
| Mbox.EscapeBody | internal/devserver/mailmock_mbox.go:192-205 | the loop quotes exactly the lines of the form >*From |
| Mbox.QuotableIs | internal/devserver/mailmock_mbox.go:192-205 | the lines quoted are those of any number of arrows, or none, followed by From and a blank |
| Mbox.WriteMessage | internal/devserver/mailmock_mbox.go:93-170 | the stream is the message's lines: header in CRLF, quoted body in LF, one blank line at the end |
| Mbox.MessageText | internal/devserver/mailmock_mbox.go:93-170 | the same byte by byte: opening line, header lines and the blank line behind them end in CRLF, the quoted body lines and the blank line behind them in LF |
| Mbox.WriteInbox | internal/devserver/mailmock_mbox.go:42-71 | the file is the messages' texts one behind the other |
| Mbox.SplitEntries | internal/devserver/mailmock_mbox.go:417-443 | the loop cuts the file before exactly those From lines that come first or behind a blank line |
| Mbox.EntriesAre | internal/devserver/mailmock_mbox.go:417-443 | the entries one behind the other are the lines of the file; each but the first begins with a From line behind a blank one, and no such line stands inside an entry |
| Mbox.SplitConcatenation | internal/devserver/mailmock_mbox.go:417-443 | cutting entries put one behind the other gives exactly those entries |
| MboxReading.WrittenEntries | internal/devserver/mailmock_mbox.go:417-443 | the entries of a written file are its messages, whatever their bodies hold |
| MboxReading.Unescape | internal/devserver/mailmock_mbox.go:743-769 | unquotes every line, dropping one more carriage return |
| MboxReading.ReadInbox | internal/devserver/mailmock_mbox.go:386-412 | reads the entries that parse, in order |
| MboxReading.ParsesTo | internal/devserver/mailmock_mbox.go:447-460 | an entry parses exactly if something stands behind its opening line; its header ends at the first blank line, and every header line is unquoted |
| MboxReading.BlockParses | internal/devserver/mailmock_mbox.go:447-460 | an entry parses to its mail, the body settled |
| MboxReading.ReadBackWritten | internal/devserver/mailmock_mbox.go:386-412 | reading a written inbox gives its mails back in order with their headers, each body settled |
| MboxReading.SettledIsClosed | internal/devserver/mailmock_mbox.go:604-610 | a body comes back LF-normalised with one final newline added if it was non-empty and lacked one, if and only if no line of it ends in a stray carriage return |
| MboxReading.StrayCRIsLost | internal/devserver/mailmock_mbox.go:743-769 | a body of one carriage return comes back as an empty line |
| MboxReading.SecondSaveLosesMore | internal/devserver/mailmock_mbox.go:743-769 | of four carriage returns one comes back, and none after a second save |
| MboxReading.SecondSaveIsIdentity | internal/devserver/mailmock_mbox.go:604-610 | a second save and load changes nothing if and only if no line of the normalised body ends in four carriage returns; a body without stray ones is written as before |
| Inbox.MailMock.LoadFromDisk | internal/devserver/mailmock.go:167-188 | loads what was saved, drops the oldest over the cap and cuts the file down to match |
| Inbox.NewestAre | internal/devserver/mailmock.go:167-188 | of more messages than the cap the newest stay, in order |
| Inbox.MailMock.Append | internal/devserver/mailmock.go:279-301 | adds a message behind the others, evicting the oldest at the cap; the file stays the mirror |
| Inbox.MailMock.Delete | internal/devserver/mailmock.go:329-344 | removes the first message with the id, or nothing |
| Inbox.MailMock.Clear | internal/devserver/mailmock.go:347-356 | empties inbox and file |
| Inbox.MailMock.SetStatus | internal/devserver/mailmock.go:364-385 | marks the first message with the id as failed or delayed, or changes nothing |
| Inbox.StatusChanges | internal/devserver/mailmock.go:364-385 | a status change keeps the id, the body and the opening line and puts the new status into the header |
| Inbox.FileHoldsMessages | internal/devserver/mailmock.go:274-301 | after any operations, reading the file gives back the messages in memory in order; one without stray carriage returns comes back LF-normalised and closed |
| SseClient.Client.Take | internal/devserver/sse.go:313-335 | the consumer receives the oldest queued event |
| SseClient.Client.Deliver | internal/devserver/sse.go:313-335 | with the consumer running between any two steps: an event that is not output is enqueued by its own delivery and never dropped; output displaces nothing and is dropped only on a buffer of sixteen that was full; a queued event is lost only to a state change whose delivery began on a full buffer, and it is the oldest |
| SseClient.EvictFirst | internal/devserver/sse.go:326-335 | eviction keeps what is received and queued a subsequence of what was delivered, in order |
| SseBroker.RunsKeepInvariant | internal/devserver/sse.go:270-306 | invariants of subscriptions, cancellations and broadcasts under the lock, in every run |
| SseBroker.NothingSentOnClosed | internal/devserver/sse.go:270-306 | nothing is sent on a closed channel, no channel is closed twice, and a broadcast reaches exactly the clients there when it began that do not exclude the event, once each |
| SseBroker.NeverStuck | internal/devserver/sse.go:297-306 | a broadcast under way always has a step to take that leaves it less to do |
| Idempotency.RunsKeepInvariant | internal/devserver/stripemock_events.go:130-179 | the entries, the record and the waiters stay consistent in every run, panics included |
| Idempotency.RunsOnce | internal/devserver/stripemock_events.go:130-179 | between two resets a key's handler never runs twice at once and completes at most once; done is closed exactly once when its request ends; all replays of an entry are the same |
| Idempotency.RetryAfterPanic | internal/devserver/stripemock_events.go:161-171 | after a panic the next request with the key runs the handler again; after a completion it waits for the recorded response |
| Idempotency.NeverStuck | internal/devserver/stripemock_events.go:161-173 | a waiter replays the response of its own entry's request, or an error 500 after a panic, within three steps of that request |
| Idempotency.SettlesInTime | internal/devserver/stripemock_events.go:161-179 | without new requests every waiter is released within a bound, whether handlers return or panic |
| Idempotency.EveryoneIsReleased | internal/devserver/stripemock_events.go:161-179 | without new requests every schedule ends within that bound, and not before every waiter is released and every done has been closed exactly once |
| Idempotency.TwoRunIffOverLimit | internal/devserver/stripemock_events.go:141-146 | runs with n distinct keys can have one key's handler run twice at once if and only if n exceeds the thousand entries at which the record is reset |
| Idempotency.TwoCompleteIffOverLimit | internal/devserver/stripemock_events.go:141-146 | and likewise of one key's handler completing twice |
| Idempotency.FewKeysRunOnce | internal/devserver/stripemock_events.go:141-146 | with at most a thousand distinct keys no key's handler ever runs twice at once or completes twice |
| TailBuffer.Buffer.Write | internal/devserver/process.go:39-66 | a write of any size keeps the ring the tail of everything written |
| TailBuffer.Buffer.String | internal/devserver/process.go:68-79 | the last size bytes of everything written since the last reset |
| TailBuffer.Buffer.Reset | internal/devserver/process.go:81-86 | forgets everything |
| TailBuffer.WriteAll | internal/devserver/process.go:39-79 | after any sequence of writes since a reset the string is the tail of them all |

## Left out

- HTTP handling, JSON, HTML pages, webhook delivery, persistence of the Stripe mock, logging: input and output around the modelled state changes.
- YAML and TOML parsing, docker calls and real sockets: the parsed values and an oracle for probes stand in their place.
- 64-bit wrap-around of amounts and ports: integers are unbounded.
- Floating-point rounding of percent discounts: percentages are exact rationals, rounded half away from zero.
- Case folding beyond ASCII in promotion codes, compose states and health values.
- Subscriptions, trials, prices, customers and the clock: checkout is modelled for mode=payment with inline prices.
- Collisions of random ids: an operation is only asked about ids that are not in use.
- Account creation beyond the set of ids, and v2 capabilities, which are one boolean argument of a transfer.
- Metadata, descriptions, receipt e-mails and coupon durations of Stripe objects: nothing modelled depends on them.
- BracketDecode.DecodeBracketForm: says of forms with empty-bracket append keys only what one visiting order makes of them; the values of a single such key are appended in their order, but next to another key of the same list they come before or after it as the map yields the keys.
- BracketOrders.DecodesAlikeIff: does not cover forms with empty segments, indices with leading zeros or beyond 64 bits, or keys without a value.
- StripeBooks.KnownAccountsHoldAll: is a sufficient condition on the requests alone; the exact one is ConservedOverKnownAccounts.
- Aliasing of Go slices inside the bracket tree and of pointers inside the Stripe maps: values are written back instead.
- Builds.InitialBuild: does not model cancellation of the context between two commands.
- Builds.PickNext: does not model a rule name that is missing from the configuration, since order and rules come from the same one.
- MIME multipart bodies, attachments and the decoding of header fields: a header is a list of opaque lines, a body is a single text or HTML part.
- Mbox.SplitEntries: does not model the scanner's limit of ten megabytes per line.
- Inbox.MailMock.Append: disk writes succeed; a failed write, which is only reported, is not modelled.
- Entries of an mbox file the mail mock did not write, beyond being skipped when nothing follows the opening line.
- Profiles of compose services and the choice between adopt and apply path, which depend on docker's answer alone.
- SseClient.Client.Deliver: takes the client's send mutex as given, so deliveries to one client follow one another; the broker's lock is modelled in SseBroker.
- Idempotency.RunsOnce: requests without a key or with another method than POST, which bypass the protocol, are not modelled.
- Stripe CLI listening, proxy, tunnel, console, TUI, reload script, log rings, password gate and MCP access map.
