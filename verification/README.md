# Peable: models and proofs

Dafny models of the parts of the payment platform that are algorithms or protocols
rather than plumbing, and proofs of what they promise. `dafny verify dfyconfig.toml`
checks all of it.

| file | what it models |
|---|---|
| `CanonicalJson.dfy`, `CanonicalUniqueness.dfy` | the sorted-key JSON text that idempotent requests are hashed over, and a decoder for it |
| `Idempotency.dfy` | requests that share a key, as interleaved atomic steps over one row |
| `ResponseCapture.dfy` | the capture of a handler's answer, stored before it is written |
| `ExpandPaths.dfy`, `ExpandObjects.dfy` | `expand[]`: the paths and their trie, and the batched in-place expansion over aliased objects |
| `Csv.dfy`, `Display.dfy` | the CSV reader and the exact arithmetic of display amounts |
| `MethodTree.dfy` | the namespace tree of the generated client |
| `LiveStream.dfy` | one live tail stream: queue, cursor, bounded memory, replay |
| `Keyset.dfy` | keyset paging in both directions |
| `PayerKey.dfy` | the rate-limit key of a client address |
| `WebhookSigner.dfy` | the webhook signature header, with several secrets |
| `Coins.dfy`, `CoinSelection.dfy`, `Payment.dfy` | the coin set, coin selection, sending a payment, the balance |
| `Mdx.dfy` | code spans, escaped prose and fences |
| `Receiver.dfy` | the webhook receiver example's queue and drain |
| `Text.dfy`, `Numerals.dfy`, `Sequences.dfy`, `Paths.dfy`, `Results.dfy` | strings, numerals, lists, paths, options and results |

Code that changes state is a class or a method with a loop, proved against a
specification function or state machine; what the source promises is then proved of
that function over all inputs or all runs. Where a class stands for JavaScript objects
that refer to each other, the objects are cells of an arena and a reference is an index.

## Where the code and its promises part

Each of these is a lemma with a concrete case, beside the exact condition under which
the promise holds.

- Two different bodies can hash alike: a number that overflows to infinity reads as
  `null`, and `-0` as `0` (`OverflowCollides`, `UniqueIffUnmistakable`).
- A second `res.json` during the store attempt is written before the first answer
  (`SecondAnswerOvertakes`, `AnswerIsFirstIff`).
- A resumed stream loses rows when a live signal is queued before its replay, or when
  more than a hundred rows lie behind the cursor (`LateReplayLosesRow`,
  `LongAbsenceLosesRow`, `ResumeIsLosslessIff`).
- A CSV line that ends in a bare line feed takes a carriage return off its last field,
  quoted or not (`LineFeedTakesReturn`, `LineKeepsRecordIff`).
- The dollar round trip is exact for all amounts at rates of at most a million USD per
  FAIR, the bound included, and at no higher rate (`RoundTripLosesCent`, `RoundTripIff`).
- The span of an empty string, two backticks, swallows the prose up to a later pair
  (`EmptyCodeSwallows`, `CodeCutsProseIff`).
- A code span's padding does not save a value with line breaks, or one that already
  begins and ends in spaces (`BreaksAndSpacesAreLost`, `CodeRendersIff`).
- The pattern takes for code spans what is none, and leaves it unescaped
  (`UnclosedRunHidesProse`, `PatternIsRealIff`).
- The fee check compares the outputs with the selected coins, not with the transaction's
  inputs, so a builder that drops an input passes it (`DroppedInputPasses`,
  `QuotedFeeIsTakenIff`).
- Nothing compares the outputs with the recipients, so a builder can pay someone else
  (`RecipientIsNotPaid`, `RecipientsArePaidIff`).
- The pending balance is off, and can be negative, when repeats of an outpoint disagree:
  it misses what the last spendable repeats are worth beyond the last ones of all
  (`NegativePending`, `PendingIsTheRestIff`).
- `maxSendable`, documented as the largest sendable amount, is too low when a coin is
  worth less than its own bytes, and too high when discovery repeats an outpoint
  (`SmallCoinHidesMoney`, `RepeatedCoinInflates`, `MaxSendableIff`, `RepeatsInflateIff`).

## Model

| member | source | states |
|---|---|---|
| `CanonicalJson.DecodeCanonical` | packages/backend/src/lib/idempotency.ts:66-73 | the canonical text of any value, whatever follows it that does not go on with a number, decodes to the value's normal form: keys sorted, undefined fields gone, scalars as JSON writes them |
| `CanonicalJson.UnescapeText` | packages/backend/src/lib/idempotency.ts:67-72 | every string of UTF-16 units reads back from its JSON escape, lone surrogates and control characters included |
| `CanonicalUniqueness.CanonicalIff` | packages/backend/src/lib/idempotency.ts:62-73 | two values have one canonical text exactly when they are equal up to key order, undefined fields and the scalars JSON writes alike |
| `CanonicalUniqueness.UniqueIffClean` | packages/backend/src/lib/idempotency.ts:62-73 | a text names its value alone among clean values, scalars compared as they are, exactly when the value holds no overflowed number, no NaN, no negative zero and no stray undefined |
| `CanonicalUniqueness.UniqueIffUnmistakable` | packages/backend/src/lib/idempotency.ts:62-73 | a text names its value alone among all values exactly when nothing in the value is written as `null` or as `0`, the texts several scalars share |
| `CanonicalUniqueness.NormalIsClean` | packages/backend/src/lib/idempotency.ts:66-73 | the normal form is a well-formed clean value equal to the original up to what JSON does not tell apart |
| `CanonicalUniqueness.OverflowCollides` | packages/backend/src/lib/idempotency.ts:66-73 | `[1e999]` and `[null]`, and `-0` and `0`, share a text though they differ |
| `CanonicalUniqueness.HashInputIff` | packages/backend/src/lib/idempotency.ts:75-80 | the texts two requests are hashed over agree exactly when the bodies do, an absent or null body being `{}` |
| `Idempotency.RunKeeps` | packages/backend/src/lib/idempotency.ts:197-258 | every interleaving of claims, reads, replies, writes, lease ends, expiries and sweeps keeps: at most one stored answer at any point, claim ids never shared, attempts bounded, and the live row equal to the history's answer |
| `Idempotency.StepKeeps` | packages/backend/src/db/idempotency/idempotencyKeyRepository.ts:84-189 | each atomic step over the store keeps that invariant, a takeover of a dead lease and failed writes included, the release on `finish` among them |
| `Idempotency.StoredOncePerWindow` | packages/backend/src/lib/idempotency.ts:197-258 | between two stored answers the key has expired: at most one handler run has its answer stored in a window |
| `Idempotency.ServedWasStored` | packages/backend/src/lib/idempotency.ts:239-242 | what a request is served is exactly the status and body stored for the same method, path and hash in the same window |
| `Idempotency.LaterRequests` | packages/backend/src/lib/idempotency.ts:223-248 | while a live record exists, a later request that differs ends only in 400, and one that agrees with a completed record only in that record's answer; neither runs |
| `Idempotency.OneHandlerAtATime` | packages/backend/src/db/idempotency/idempotencyKeyRepository.ts:63-128 | with no lease end and no expiry, two handlers never run at once, and the running one owns the row |
| `Idempotency.RecordDecides` | packages/backend/src/lib/idempotency.ts:120-142 | an answer below 500 with a body completes the row of its request, any other gives the key back |
| `Idempotency.OwnStepsEnd` | packages/backend/src/lib/idempotency.ts:213-257 | in every reachable state a request's own next step brings it nearer to its one outcome, which it reaches in at most six |
| `Idempotency.OthersDoNotMove` | packages/backend/src/lib/idempotency.ts:197-258 | no step of another request, and no clock step, changes where a request stands |
| `ResponseCapture.Capture.Json` | packages/backend/src/lib/idempotency.ts:120-142 | the wrapped `res.json`, as a step on the captured state |
| `ResponseCapture.Capture.StoreSettled` | packages/backend/src/lib/idempotency.ts:128-140 | the end of the store attempt, failed or not, writes the waiting answer |
| `ResponseCapture.Capture.Finished` | packages/backend/src/lib/idempotency.ts:144-150 | the `finish` event releases a claim that nothing has settled |
| `ResponseCapture.OneStoreCallThenTheAnswer` | packages/backend/src/lib/idempotency.ts:115-151 | over every sequence of answers, settlings and finishes: one store call exactly when an answer or finish happened, decided by the first of them; the first body is written once and only after the attempt settled; later bodies pass through in order |
| `ResponseCapture.CompletesExactly` | packages/backend/src/lib/idempotency.ts:120-150 | at most one complete-or-release is issued, exactly one once either event happens, and it is a complete exactly for a first answer below 500 with a body |
| `ResponseCapture.SecondAnswerOvertakes` | packages/backend/src/lib/idempotency.ts:120-142 | a second `res.json` before the store settles is written before the captured first answer |
| `ResponseCapture.WritesInOrder` | packages/backend/src/lib/idempotency.ts:120-142 | every body in its order: the captured one goes out where the store attempt settles, between the later answers that came before and after that |
| `ResponseCapture.AnswerIsFirstIff` | packages/backend/src/lib/idempotency.ts:120-142 | the captured answer is the first body written exactly when its attempt settles before another `res.json`; nothing is written exactly when neither follows; otherwise a later answer comes first |
| `ExpandPaths.ValidatePath` | packages/backend/src/lib/expand.ts:407-445 | a path is accepted exactly when it is under `data.` on a list, has one to four non-empty fields, and each is expandable in the type the previous one reaches; every refusal is for the reason it names |
| `ExpandPaths.Trie.Child` | packages/backend/src/lib/expand.ts:465-468 | one `??=` step: the child exists afterwards at its path and nothing else is new |
| `ExpandPaths.Trie.Insert` | packages/backend/src/lib/expand.ts:464-468 | walking a path down adds exactly its prefixes to the trie's paths |
| `ExpandPaths.BuildNodes` | packages/backend/src/lib/expand.ts:451-471 | the nodes of the tree under a trie node are exactly the recorded paths below it |
| `ExpandPaths.BuildFits` | packages/backend/src/lib/expand.ts:407-471 | a trie of expandable paths of bounded length is a tree in which every field is registered where it stands and named once |
| `ExpandPaths.ParseExpand` | packages/backend/src/lib/expand.ts:451-471 | the paths are refused exactly when one is not acceptable, with the first such path's error; otherwise the tree's nodes are exactly the prefixes of the paths, at most four deep, each field expandable in the type it stands on |
| `ExpandObjects.FittingTree` | packages/backend/src/lib/expand.ts:484-486 | an accepted tree is registered at every node, so the not-registered error has no input |
| `ExpandObjects.ViewFrame` | packages/backend/src/lib/expand.ts:478-507 | what an object shows does not change while the cells behind it do not, shared or not |
| `ExpandObjects.Expander.Ids` | packages/backend/src/lib/expand.ts:488-490 | the ids read are exactly those the holders name under the field, each once |
| `ExpandObjects.Expander.LoadAll` | packages/backend/src/lib/expand.ts:491 | one read gives each readable id a new object and changes nothing else |
| `ExpandObjects.Expander.Assign` | packages/backend/src/lib/expand.ts:492-502 | ids are replaced in place for all holders exactly when every one was read, repeated holders being skipped the second time |
| `ExpandObjects.LevelReadable` | packages/backend/src/lib/expand.ts:493-502 | a batch is readable at a field exactly when what its ids produced is readable under the subtree |
| `ExpandObjects.ExpandStep` | packages/backend/src/lib/expand.ts:484-506 | one turn of the loop extends the fields that show what each object alone shows, aliased objects included |
| `ExpandObjects.Expander.Expand` | packages/backend/src/lib/expand.ts:478-507 | the in-place batch succeeds exactly when the tree is registered and every object alone is readable; then every root shows its own naive recursive expansion, other cells are unchanged, and the number of reads is the number of fields in the tree |
| `ExpandObjects.ExpandResponse` | packages/backend/src/lib/expand.ts:451-507 | parse then expand: refused paths read nothing, accepted ones never reach an unregistered field, and the result is as above |
| `Csv.CsvRecords` | packages/sdk/src/display.ts:95-130 | the index loop computes the state machine's records, and throws where it does |
| `Csv.ReadsEverySpelling` | packages/sdk/src/display.ts:95-130 | any spelling of lines within the limit, whichever fields are quoted, CRLF or LF, with or without a last line ending, is read as its records, blank ones dropped |
| `Csv.ReadsBackQuoted` | packages/sdk/src/display.ts:95-130 | the reader inverts the printer that quotes every field and ends rows in CRLF (section 2 of RFC 4180), embedded commas, quotes and line breaks included |
| `Csv.LineKeepsRecordIff` | packages/sdk/src/display.ts:117-128 | a record survives its line exactly when the line ends in CRLF or its last field does not end in a carriage return |
| `Csv.LineFeedTakesReturn` | packages/sdk/src/display.ts:117-128 | a quoted field that ends in a carriage return, on a line that ends in a line feed, is read without it |
| `Display.DecimalReadsBack` | packages/sdk/src/display.ts:44-65 | `fraction(decimal(n, d))` is exactly the rounding of n/d, and succeeds exactly when the rounding is positive and its print fits the 80 characters |
| `Display.DecimalIsClose` | packages/sdk/src/display.ts:44-65 | a rate printed and read is within half a unit of its last place of the rate |
| `Display.FormatReadsBack` | packages/sdk/src/display.ts:267-273 | the printed digits of an amount read back to exactly units over ten to the decimals |
| `Display.FormatInjective` | packages/sdk/src/display.ts:267-273 | two amounts of one currency print alike only when they are equal |
| `Display.TargetIsNearest` | packages/sdk/src/display.ts:275-327 | the destination units are the integer nearest the exact rational amount, a tie rounded up, for every pair of currencies |
| `Display.TargetMonotone` | packages/sdk/src/display.ts:275-327 | a larger amount never converts to less |
| `Display.ConvertShowsNearest` | packages/sdk/src/display.ts:276-328 | a conversion that shows an amount was asked a canonical amount within the limit, used fresh rates, a fresh ECB reference for euros too, and shows the exact amount rounded once |
| `Display.RoundTrip` | packages/sdk/src/display.ts:310-327 | USD to FAIR to USD at one rate is the identity on every amount at rates up to a million USD per FAIR |
| `Display.RoundTripFails` | packages/sdk/src/display.ts:310-327 | above that rate some amount, at most the rate's numerator, does not come back |
| `Display.RoundTripLosesCent` | packages/sdk/src/display.ts:310-327 | at three million USD per FAIR one cent comes back as none |
| `Display.RoundTripIff` | packages/sdk/src/display.ts:310-327 | the round trip is exact for all amounts at exactly the rates of at most a million USD per FAIR |
| `Display.RoundTripShown` | packages/sdk/src/display.ts:276-328 | the same on the texts a caller passes and sees, within the 30-digit limit |
| `MethodTree.ClientTree.Declare` | packages/sdk/scripts/generate-resources.ts:187-215 | a route is refused exactly when its path is not a method's, lies on, above or under a declared one, or has no spec, with the error that says which; otherwise the tree holds exactly one method more |
| `MethodTree.ResolveIff` | packages/sdk/scripts/generate-resources.ts:112-120 | walking a dotted path finds a method exactly where the tree holds one |
| `MethodTree.FreeEnd` | packages/sdk/scripts/generate-resources.ts:198-211 | a walk that meets no method and ends on a free name is apart from every declared path |
| `MethodTree.BuildTree` | packages/sdk/scripts/generate-resources.ts:181-218 | the routes are accepted exactly when every carried path has two or more identifier segments, none equals or is a proper prefix of another, and each has a spec; then each dotted path finds the one route declared there and nothing else, and the specs are in route order; the root never holds a method |
| `MethodTree.PrefixFreeIff` | packages/sdk/scripts/generate-resources.ts:198-211 | prefix-freeness by position is prefix-freeness of the multiset of routes |
| `MethodTree.OrderDoesNotMatter` | packages/sdk/scripts/generate-resources.ts:181-218 | acceptance does not depend on the order of the routes |
| `LiveStream.Stream.SendRow` | packages/backend/src/lib/liveStream.ts:126-138 | `send` as a step: the cursor moves, a sent or filtered row is not written, the memory drops its oldest |
| `LiveStream.Stream.EndTask` | packages/backend/src/lib/liveStream.ts:141-158 | the head task's read settles: a live row or a replay is sent row by row |
| `LiveStream.Stream.EnqueueTask` | packages/backend/src/lib/liveStream.ts:139-145 | a signal joins the queue behind every task before it |
| `LiveStream.Stream.CloseStream` | packages/backend/src/lib/liveStream.ts:178-184 | the close of the response as a step on the stream; what it silences is stated by ClosedStaysSilent |
| `LiveStream.ClosedStaysSilent` | packages/backend/src/lib/liveStream.ts:122-124 | after the close nothing more reaches the response in any run, whatever is queued or signalled |
| `LiveStream.RunKeeps` | packages/backend/src/lib/liveStream.ts:119-145 | in every run the memory is exactly the last min(1000, written) rows, and two writes of one row have at least a thousand other writes between them |
| `LiveStream.ReplayFirst` | packages/backend/src/lib/liveStream.ts:146-149 | when the replay is the first task, the matching ones of the at most hundred rows after the cursor are written first, oldest first, and none of them again among the first thousand and one writes, whatever is queued behind it |
| `LiveStream.ReplayedIff` | packages/backend/src/lib/liveStream.ts:146-149 | a matching row is in the replay exactly when it is among the hundred behind the cursor |
| `LiveStream.ResumeIsLosslessIff` | packages/backend/src/lib/liveStream.ts:146-171 | a resume writes every matching row after the client's cursor exactly when each was signalled before the replay ran or is among the hundred behind the cursor the signals left |
| `LiveStream.LateReplayLosesRow` | packages/backend/src/lib/liveStream.ts:146-171 | a concrete resume in which a live signal runs first and a row after the client's cursor is never written |
| `LiveStream.LongAbsenceLosesRow` | packages/backend/src/lib/liveStream.ts:146-149 | a concrete resume with a hundred and one rows behind the cursor, the last of which is never written |
| `LiveStream.ResumeBehindRuns` | packages/backend/src/lib/liveStream.ts:141-158 | that resume is a run of the queue with the signals ahead of the replay |
| `Keyset.CreatedPredicates` | packages/backend/src/db/keyset.ts:70-78 | a row meets the pushed `created` conditions exactly when the whole second it shows is in the range asked for |
| `Keyset.Conditions` | packages/backend/src/db/keyset.ts:88-92 | a row meets the pushed conditions exactly when its second is in the range and its key is on the asked side of each cursor |
| `Keyset.ReverseInPlace` | packages/backend/src/db/keyset.ts:100 | `reverse()` in place |
| `Keyset.Finish` | packages/backend/src/db/keyset.ts:97-102 | the overflow row is cut, a backward page is reversed, and `hasMore` tells that there was one |
| `Keyset.PageIsNearest` | packages/backend/src/db/keyset.ts:88-104 | a page is the rows in scope nearest the cursor, newest first in either direction, and `hasMore` holds exactly when rows remain in that direction |
| `Keyset.WalkIsExact` | packages/backend/src/db/keyset.ts:17-21 | following `after` with each page's last id visits every row in scope exactly once, newest first, while the table changes only at and above the cursor |
| `Keyset.WalkBackIsExact` | packages/backend/src/db/keyset.ts:23-31 | following `before` with each page's first id visits every row above the cursor exactly once and leaves them newest first, while the table changes only at and below the cursor |
| `Keyset.BackIsPreviousPage` | packages/backend/src/db/keyset.ts:23-31 | from any page of a walk, `before` alone at the first row of the next page gives that page again in the same order, and `hasMore` holds exactly when rows precede it |
| `PayerKey.SpellingParses` | packages/backend/src/lib/faircoinPayerLimit.ts:97-124 | every spelling of RFC 4291, section 2.2 (full, compressed, embedded dotted quad, either case, with a zone) parses to its eight hextets |
| `PayerKey.MaskedIff` | packages/backend/src/lib/faircoinPayerLimit.ts:127-138 | two addresses have the same masked form exactly when the top 56 bits of their 128-bit numbers agree |
| `PayerKey.KeyOfV6` | packages/backend/src/lib/faircoinPayerLimit.ts:83-94 | an IPv6 client's key is the dotted IPv4 address it maps, or its masked prefix; the fallbacks are never taken |
| `PayerKey.KeyOfV4` | packages/backend/src/lib/faircoinPayerLimit.ts:83-85 | an IPv4 client is its own key |
| `PayerKey.SamePayerIff` | packages/backend/src/lib/faircoinPayerLimit.ts:66-94 | two clients have one key exactly when they are one payer: the same IPv4 host in whichever spelling, or IPv6 addresses with the same top 56 bits |
| `WebhookSigner.ParseHeader` | packages/shared-types/src/webhookSigner.ts:36-53 | the loop gives the last integer `t` and every `v1` in order, or nothing when either is missing |
| `WebhookSigner.VerifyWebhook` | packages/shared-types/src/webhookSigner.ts:76-97 | the nested loop is true exactly when the header parses, the clock is within the tolerance, and some non-empty secret's signature equals some `v1` as bytes |
| `WebhookSigner.UnhexHex` | packages/shared-types/src/webhookSigner.ts:59-64 | decoding the hex of bytes gives the bytes |
| `WebhookSigner.HeaderReadsBack` | packages/shared-types/src/webhookSigner.ts:20-53 | the parser inverts the header the signer prints, one signature a secret |
| `WebhookSigner.VerifiesIff` | packages/shared-types/src/webhookSigner.ts:20-97 | a signed header verifies with any received body exactly when the clock is within the tolerance and some non-empty secret of the receiver gives the digest one of the signer's gave |
| `WebhookSigner.OneSharedSecret` | packages/shared-types/src/webhookSigner.ts:66-75 | during a rotation one shared non-empty secret is enough |
| `WebhookSigner.PayloadInjective` | packages/shared-types/src/webhookSigner.ts:3-10 | the signed payload fixes both the time and the body |
| `Coins.KeyIff` | packages/pay/src/wallet/utxo-set.ts:233-235 | the map key names one outpoint, whatever the transaction id holds |
| `Coins.CollectKeeps` | packages/pay/src/wallet/utxo-set.ts:59-69 | a set filled from a list has each outpoint of the list exactly once, with coins of the list |
| `Coins.UTXOSet.Add` | packages/pay/src/wallet/utxo-set.ts:66-69 | adding an outpoint replaces its coin in place or appends it |
| `Coins.UTXOSet.GetBalance` | packages/pay/src/wallet/utxo-set.ts:96-102 | the balance is the sum over the set |
| `CoinSelection.LargestAreMost` | packages/pay/src/wallet/utxo-set.ts:139-193 | no choice of k coins is worth more than the k largest |
| `CoinSelection.SelectCoins` | packages/pay/src/wallet/utxo-set.ts:139-193 | coins are taken largest first until they cover the amount and their own fee, the fewest that do; what is left is change unless it would not pay for spending it, and then fee; it fails exactly when no choice of confirmed coins can pay |
| `CoinSelection.Select` | packages/pay/src/wallet/coin-selection.ts:99-156 | selection fails exactly for an amount that is not positive or that no choice of the confirmed coins can pay; otherwise distinct confirmed coins worth amount + fee + change, change zero or above dust, and a fee that pays for the bytes and at most the dust threshold more; the second coverage check never fires |
| `CoinSelection.EstimateSend` | packages/pay/src/wallet/coin-selection.ts:210-244 | a quote never fails: fee and total are those of the one selection when the amount is positive and some choice of the confirmed coins covers it, insufficient funds are reported exactly when none does, and `maxSendable` is the worth of all of them less their fee |
| `CoinSelection.QuoteIsTheBill` | packages/pay/src/wallet/coin-selection.ts:210-244 | whatever is selected for the amount at that rate costs the quoted fee and total |
| `CoinSelection.MaxSendableIff` | packages/pay/src/wallet/coin-selection.ts:210-225 | whatever was discovered, `maxSendable` is the most that can be sent exactly when what repeated outpoints add to it makes up for what coins below the worth of their bytes take from it, or, when nothing can be sent, when the discovered coins are worth no more than their fee |
| `CoinSelection.BestIsMost` | packages/pay/src/wallet/utxo-set.ts:139-193 | what can be sent is exactly what all coins leave beside their fee, plus what the small ones but the largest lose |
| `CoinSelection.MaxSendableOnceIff` | packages/pay/src/wallet/coin-selection.ts:210-225 | with no repeated outpoint, it is exact exactly when every coin but the largest is worth the bytes that spend it, or nothing can be sent |
| `CoinSelection.RepeatsInflateIff` | packages/pay/src/wallet/coin-selection.ts:210-225 | when every coin is worth its bytes and something can be sent, it is exact exactly when each repeat is worth just its bytes |
| `CoinSelection.SmallCoinHidesMoney` | packages/pay/src/wallet/coin-selection.ts:198-225 | a concrete wallet that can send more than its `maxSendable` |
| `CoinSelection.RepeatedCoinInflates` | packages/pay/src/wallet/coin-selection.ts:213-225 | a coin that was discovered twice is counted twice in `maxSendable` |
| `Payment.ResolveRecipients` | packages/pay/src/payment.ts:352-373 | a request is accepted exactly when it has one of the two forms, one to fifty recipients, positive amounts and no address twice; a refusal is for the reason it names |
| `Payment.SpendableMembers` | packages/pay/src/payment.ts:427-438 | exactly the confirmed discovered coins, as deep as was asked, are spendable |
| `Payment.SignEveryInput` | packages/pay/src/payment.ts:474-497 | in place, each input is signed with the key and script of the selected coin of its own outpoint; it fails exactly when an input is not selected or not the wallet's |
| `Payment.BuildAndSign` | packages/pay/src/payment.ts:200-227 | what an arbitrary builder returns is used exactly when the change address is owned, its outputs leave the quoted fee of the selected coins, and every input can be signed |
| `Payment.SendPayment` | packages/pay/src/payment.ts:172-237 | whatever the builder returns, a broadcast is of its transaction, with every input a selected coin signed with its own key and outputs worth exactly the amount asked and the change; nothing is held back but what the wallet cannot pay or a check refuses; the keys are wiped on every exit |
| `Payment.RecipientsArePaidIff` | packages/pay/src/payment.ts:163-227 | of any broadcast, what goes elsewhere and beyond the amounts is the change and what recipients miss; so every recipient gets at least its amount exactly when the first two are the change, exactly its amount when none gets more besides, and a single recipient gets it exactly when no more than the change goes elsewhere |
| `Payment.RecipientIsNotPaid` | packages/pay/src/payment.ts:163-227 | a concrete wallet, request and builder whose payment passes every check, is broadcast, and pays the recipient nothing |
| `Payment.QuotePayment` | packages/pay/src/payment.ts:246-279 | a quote is refused exactly for a bad rate, depth or count or a failed discovery; otherwise it is the estimate over the spendable coins; the keys are wiped on every exit |
| `Payment.InsufficientIff` | packages/pay/src/payment.ts:239-279 | insufficient funds are quoted exactly when the wallet cannot pay the request |
| `Payment.QuotedIsPaid` | packages/pay/src/payment.ts:254-267 | whatever is broadcast costs the fee that was quoted at the same rate, and its coins are the quoted total and the change |
| `Payment.QuotedFeeIsTakenIff` | packages/pay/src/payment.ts:440-459 | of any broadcast, the network takes the quoted fee exactly when inputs named twice are worth as much as the selected coins left out; with no input named twice it takes at most the quoted fee, and exactly it when only worthless coins are left out |
| `Payment.DroppedInputPasses` | packages/pay/src/payment.ts:450-459 | a concrete wallet, request and builder: the broadcast drops an input, passes every check, and its outputs are worth more than its inputs |
| `Payment.ReadBalance` | packages/pay/src/payment.ts:287-311 | spendable and total are sums over outpoints, pending is their difference, and the keys are wiped on every exit |
| `Payment.PendingIsTheRestIff` | packages/pay/src/payment.ts:295-307 | for any discovery, pending is the worth of the outpoints that are not spendable, each once, less what the spendable ones are overstated by; so it is that worth exactly when they are not, and negative exactly when they are by more |
| `Payment.PendingIsTheRest` | packages/pay/src/payment.ts:295-307 | when repeats of an outpoint agree on its value, pending is the worth of the outpoints that are not spendable, each once, and so never negative |
| `Payment.NegativePending` | packages/pay/src/payment.ts:295-307 | two disagreeing repeats that make the pending balance negative |
| `Mdx.EscapePlain` | scripts/api-docs/mdx.ts:29-35 | the successive replacements escape character by character: none touches what an earlier one wrote |
| `Mdx.WriteProse` | scripts/api-docs/mdx.ts:17-36 | the loop over the matches writes prose escaped and code spans as they are |
| `Mdx.NextMatchText` | scripts/api-docs/mdx.ts:15-25 | a match stands for exactly what the string holds there |
| `Mdx.MatchAtCode` | scripts/api-docs/mdx.ts:15-49 | the pattern's match at a non-empty code span is that span, whatever follows it |
| `Mdx.ProseAroundCode` | scripts/api-docs/mdx.ts:27-49 | prose around a non-empty code span: the text before is escaped, the span untouched, and what follows is read on its own |
| `Mdx.ProseLeavesCode` | scripts/api-docs/mdx.ts:27-49 | between texts without backticks every code span, the empty one too, is left as it is |
| `Mdx.CodeCutsProseIff` | scripts/api-docs/mdx.ts:43-49 | a span keeps what follows it apart from itself exactly when its content is not empty |
| `Mdx.EmptyCodeSwallows` | scripts/api-docs/mdx.ts:43-49 | after the span of an empty string a later pair of backticks leaves the prose between unescaped |
| `Mdx.HeadingOfCode` | scripts/api-docs/mdx.ts:68-71 | a heading that is one code span reads as its content, less exactly the white space at both ends |
| `Mdx.CodeRendersIff` | scripts/api-docs/mdx.ts:43-49 | by section 6.1 of CommonMark, `code(v)` shows v exactly when v is not empty, has no line break and is not wrapped in spaces |
| `Mdx.PatternSpansNext` | scripts/api-docs/mdx.ts:15-25 | the places of the pattern's matches are those of the loop's matches, one behind the other |
| `Mdx.PatternIsRealIff` | scripts/api-docs/mdx.ts:15-25 | the pattern's matches are the code spans of section 6.1 of CommonMark exactly when, read from the left, every run of backticks that opens is closed by the next run long enough and that one is as long, a single backtick alone staying open |
| `Mdx.UnclosedRunHidesProse` | scripts/api-docs/mdx.ts:15-36 | three backticks, prose and one backtick hold no code span, yet the prose, braces included, is left unescaped |
| `Mdx.BreaksAndSpacesAreLost` | scripts/api-docs/mdx.ts:43-49 | a value with a line break, and one wrapped in spaces, are not shown as they are |
| `Mdx.MarksNotInBody` | scripts/api-docs/mdx.ts:61-66 | the run of backticks a fence uses occurs nowhere in its body |
| `Mdx.FenceReadsBackIff` | scripts/api-docs/mdx.ts:61-66 | by section 4.5 of CommonMark, the fenced block reads back as its language, trimmed, and its very body exactly when the language is one line without backticks and no carriage return is in the body |
| `Receiver.Server.Receive` | examples/webhooks-receiver/server.ts:48-54 | a delivery as a step: an accepted id is a duplicate, any other is queued and drained |
| `Receiver.Server.Resume` | examples/webhooks-receiver/server.ts:61-72 | the end of a handler, failed or not, and the loop up to its next await |
| `Receiver.HandledInOrderOnce` | examples/webhooks-receiver/server.ts:27-72 | over every interleaving each id is accepted once, events are handled in acceptance order, and when no drain is active the queue is empty |
| `Receiver.EveryDeliveryIsAccepted` | examples/webhooks-receiver/server.ts:48-54 | every delivered id is among the accepted events |
| `Receiver.EveryEventIsHandled` | examples/webhooks-receiver/server.ts:57-72 | no accepted event is stranded: as many handler ends as it waits for handle it, whatever is delivered meanwhile |

## Left out

- HMAC-SHA256, SHA-256, key derivation, the transaction builder, the signer and the loaders of `expand[]` are functions the theorems quantify over; a signature is taken to depend on the unsigned transaction, as its signature hash does.
- `Number(s)` in the webhook header is a function from strings to the integers it reads; the theorems ask only that it reads the printed timestamp back, so a timestamp that prints with an exponent is outside them.
- Number::toString of ECMA-262 is not modelled: a finite number in `canonicalJson` is named by the text it prints, and different numbers by different texts.
- Strings are sequences of Dafny characters, except in the canonical JSON, where they are UTF-16 code units because surrogates matter there.
- The rows of the `expand[]` registry: the proofs hold for every registry that, like the source's record over the type union, has a row for every type.
- The order of keys in the method tree's maps, which the renderer follows; specs keep the order of the routes.
- `specOf`, `objectShape`, `kindOf` and `inputIsOptional`: a route's spec is given or refused by a function the theorems quantify over.
- The 60-second lease and the 24-hour window are steps that the store's clock may take at any time between others; `createdAt` is not modelled.
- `findMerchantByAppEnvironment`, the header pattern of the key and the replay headers: glue around `claimAndRun`.
- `readDisplayRates` and `readEcbReference`: fetching and the choice of columns; instants are integers of milliseconds instead of parsed dates.
- Heartbeats, the stream's lifetime, the `ready` frame and the hub that signals rows; a live stream starts with its cursor resolved and its queue holds what was signalled.
- A bitwise mask of a hextet is written as the difference with the remainder by a power of two, and shifts as division and remainder.
- What `isIPv6` accepts is the grammar of the spellings; addresses that are neither IPv4 nor IPv6 are their own key and are not compared.
- `hextet` parsing outside that grammar is modelled as the code has it, but no property is stated of it.
- Coin control, `getMasternodeUTXOs`, and a selection without a dust threshold.
- Discovery's gap scan and the derivation of a change address: the wallet's coins, keys and next change address are given.
- The number of confirmations is an integer; a fee rate is a real, and NaN or infinity is no rate.
- Code spans are read by section 6.1 of CommonMark alone: backslash escapes, autolinks and HTML tags that come before a backtick are not modelled.
- The Markdown table, cell, slug and front matter helpers; escapes and entities in the info string of a fence.
- Signature verification in front of the receiver's queue; a delivery is one that passed it.
- React, Expo and Electron screens, Express wiring, SQL, rate limiters, provider clients and CLI commands.
