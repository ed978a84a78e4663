# Verification model of AlmsTins' stateful libraries

AlmsTins is an Astro web application. Most of it is pages; the parts that are easy to get wrong are a handful of
libraries: the once-only mails of the Agentics door, the self-serve agent keys, exact sums of transaction amounts, the
gate in front of the private Agent Vault, the admin page's statistics, address activity, and the cancelling of
subscriptions before an account is deleted. This project models them in Dafny, one module a library (two for the admin
page: AgenticsAnalytics builds it, AgenticsPage says what it shows), and proves what their comments, tests and callers
rely on, for every input and every run. Where the code does less than its comments
say, the model follows the code, a lemma names an input that shows it, and another says exactly when the promise holds.

`dafny verify dfyconfig.toml` checks everything.

## How the code is modelled

- **Statements and objects.** A table is a field of a class (`Signups.rows`, `KeyTable.rows`) that guarded UPDATEs
  reassign, one atomic step each; caches, refused requests and running sums are fields of classes; loops that update
  variables are loops with invariants. Each method is proved against a function of the old state, and the theorems are
  about those functions.
- **Runs.** The mails (`OnceOnlyMail`) and the keys (`AgentKeys`) are state machines. A run is any list of actions; an
  action that is not possible changes nothing. So a theorem over all lists is a theorem over all interleavings of any
  number of processes, with crashes, timeouts and statements whose reply is lost after they were applied. A batch's
  pass and a visit that nothing interrupts are shown to be such runs.
- **Time.** Columns written with `stamp` hold whole seconds. `Stamps` builds the text itself, from the calendar up, and
  shows that comparing texts is comparing seconds in the years 0 to 9999, and no longer from year 10000 on. The clock
  does not run back. Reading the clock and claiming are one step; `ClaimOnAnOldClockReading` shows that this matters.
- **What the outside answers** is a parameter: replies of the database, the mail server, DNS, explorers, Stripe,
  `app.ts`, the geoblock and the session store. A statement that throws may have been applied, a send that throws may
  have sent its mail, and one that ran out of time may still arrive. sha256 is injective and minted keys are new.
- **Text** is a sequence of Unicode scalar values, lower-casing is ASCII.

## The main operations

Methods are proved against functions that compute the same. What each main operation does is then said without those
functions, on inputs, rows and results as they are, hardest first:

1. The opening email, over runs: `SecondSoonExactly`, `StandingDeliveryIsAloneExactly`, `AnotherOpeningExactly`; what
   one step of a run can do is exactly `OpeningIsClaimedExactly` and `OpeningMovesExactly`.
2. The agent keys, over runs: `RevokedOrDeletedIsFinal`, `ReturnedKeyLivesExactly`, `KeyHashIsWrittenOnce`,
   `AnswersAreFresh`; one step is exactly `ActivationMovesExactly`, `AnswersExactly`, `RevokeIsAStep`, `DeleteIsAStep`.
3. `summarizeAddressHistory`: `TotalsSayWhatMoved`, `EveryRowHasItsTotal`, `SortedTotals`, `DatesAreOfTheEnds`.
4. Which paths the gate covers: `VaultPagesAreGated`, `PetroTinsIsGated` and `KindsOfPathExactly`, on a decoding that
   reads exactly the UTF-8 escapes (`EscapesAreReadBack`, `OnlySpellingsAreRead`).
5. `onRequest`, over both passes: `VaultLetsInTheOwnerExactly` with the owner spelled out (`OwnerByCharacter`),
   `TwoPassSafety`, `HiddenLooksUnknown`, `OrdinaryAnswersExactly`, `GeoblockStopsExactly`.
6. `sendOpeningNotices`: `SelectOldest`, `PassEndsExactly`, `CallAccounts`, `OwnerIsNeverMailed`.
7. `summarizeAgentics`: all of AgenticsPage.
8. `cancelTenantStripeSubscriptions`: its own contract, and `RetriesComeToAnEnd`.
9. `evmActivity` and `esploraActivity`: `EveryTransferIsListed`, `EveryNetIsListed`.
10. `welcomeOnFirstVisit`: `VisitAnswersExactly`, `VisitIsAProtocolRun`, `AnotherLetterExactly`, `WelcomeMovesExactly`.

## What the proofs found

- `claimWelcome` and `welcomeOnFirstVisit` speak of one letter. At any moment of any run another letter can still go
  out exactly when the row is missing or not marked, or a call holds a claim it has not sent for
  (`AnotherLetterExactly`): so a mark alone does not end it (`UnguardedReleaseSendsTwice`), and without one a delivered
  letter is sent again (`UnmarkedLetterIsSentAgain`). One letter is sure when every call ends while its claim is fresh
  and every delivered letter is marked (`AtMostOneWelcome`).
- `sendOpeningNotices` says two calls at once cannot send an email twice. They can when a send throws although its mail
  went out: the claim is given back, and a second email follows in the same millisecond (`RefusedMailIsSentAgain`). A
  delivery whose claim stands has no second one within 15 minutes exactly unless its call is about to give it back while
  the account is untold (`StandingDeliveryIsAloneExactly`); after a claim that was given back too, a second one can
  follow in that time exactly when a later claim in it has delivered or has its mail ahead, or the untold row is free or
  its last claim is being given back (`SecondSoonExactly`). After the 15 minutes a timed-out mail that arrived is sent
  again (`TimedOutMailIsSentAgain`). Another opening email can still go out, at any time, exactly when the row is
  missing or untold, a call holds a claim it has not sent for, or a timed-out mail may arrive (`AnotherOpeningExactly`);
  there is at most one when every mail that goes out is marked while its claim is fresh (`AtMostOneOpening`).
- `remaining` of an opening report is `waiting - sent - noEmail` plus the sent that could not be marked, and, which its
  counters do not show, minus the accounts without an address whose mark was applied but reported as failed
  (`CallAccounts`, `FailedMarkRetires`).
- `startAgentKey` says one pending row per tenant and domain; this holds throughout a run exactly when every insert
  still finds none pending (`OnePendingExactly`).
- Of two racing activations that both answer ok with a plaintext key, one key is dead (`LosersKeyIsReturnedDead`). A
  returned key lives exactly when its UPDATE was applied to a row still pending, until that row is revoked or deleted
  (`ReturnedKeyLivesExactly`).
- A lookup in flight during an account deletion can put a forgotten key back into the cache, for at most its 60 seconds
  (`LookupInFlightOutlivesForget`). Forgetting a key whose row is gone is final exactly when no lookup that read it is
  under way (`ForgettingIsFinalExactly`).
- A deletion that could not cancel every subscription can be tried again: of the subscriptions live at the start exactly
  those are left that no call and nobody else ended, and no more calls can confirm a cancel of one than there were
  (`RetriesComeToAnEnd`).
- `isAgenticsVaultPath` says no spelling of a Vault path can pass as the door. A path Astro routes below
  /dashboard/agentics/ does so exactly when, fully decoded, only slashes follow there before a `?` or `#`
  (`VaultPagesAreGated`). A name with an escaped `?` first is an example (`EscapedCutPassesAsTheDoor`); it routes
  nowhere today, as the dynamic routes there are `reports/[id]` and `tins/[id]`, behind plain names.
  Every spelling of a page whose address begins with a plain name is covered (`EverySpellingOfAVaultPageIsGated`).
- A token with 0 decimals is printed as if it had 18 (`TokenAmountIsExactly`, `UnitTokenIsMisread`); an EVM transfer to
  oneself is listed as money out, so native items add up to what was gained less what was moved to oneself
  (`NativeItemsAddUp`).
- The admin page's address and the address the opening email goes to differ when the first member's address is not
  valid and a later one's is (`PageAgreesWithTheEmail`, `LaterAddressIsShown`), and for an account
  that is in neither of the two tables the page takes its tenants from.
- The order of the rows can change the admin page only where first memberships with a valid address tie on
  `created_at` and `id` with different addresses (`RowOrderChangesNothingExactly`); membership ids are the table's
  primary key, so it never does (`RowOrderNeverShows`).
- An order of rows can change an address history only through a NUL in a chain name or rows that tie for the first or
  last sort key with different dates (`OrderIndependentExactly`).

## Model

| member | source | states |
|---|---|---|
| Stamps.StampText | src/lib/agenticsSignup.ts:98-99 | In the years 0 to 9999 the ISO text cut to 19 characters with its T replaced is date, blank, clock, with leading zeros |
| Stamps.StampOrderIsSecondOrder | src/lib/agenticsSignup.ts:98-99 | Two stamps compare as texts, and are equal, exactly as the whole seconds they were made of, for all years 0 to 9999 |
| Stamps.StampOrderEndsWithYear9999 | src/lib/agenticsSignup.ts:99 | From year 10000 on every stamp sorts before every earlier one |
| Stamps.GuardByAge | src/lib/agenticsSignup.ts:144-149 | A guard `column < stamp(now - window)` never passes at an age of at most the window, and always from one second more: a takeover is impossible at 900 s and certain from 901 s |
| SignupTable.Signups.RegisterSignup | src/lib/agenticsSignup.ts:106-120 | Only the first call makes the row, marked told exactly when the vault is open; a row that is there is left as it is |
| SignupTable.Signups.SetCountry | src/lib/agenticsSignup.ts:134-136 | The first known country stays, and nothing else changes |
| SignupTable.Signups.SetLastSeen | src/lib/agenticsSignup.ts:137-140 | last_seen_at moves only when an hour old, and nothing else changes |
| SignupTable.Signups.TouchSignup | src/lib/agenticsSignup.ts:131-141 | Two UPDATEs, the second only once the first is through, each of which may be lost or throw after it was applied; false exactly when one threw, and no other account changes |
| SignupTable.Signups.ClaimWelcome | src/lib/agenticsSignup.ts:144-151 | True exactly when the letter is unsent and the claim free or stale, and then only claimed_at of that row changes |
| SignupTable.Signups.MarkWelcomed | src/lib/agenticsSignup.ts:157-164 | Marks the letter sent, and the account told when the letter says the vault is open; nothing else changes |
| SignupTable.Signups.ReleaseWelcome | src/lib/agenticsSignup.ts:167-173 | Clears whatever claim stands while the letter is unsent, and does nothing once it is sent |
| SignupTable.Signups.ClaimOpening | src/lib/agenticsSignup.ts:261-268 | True exactly when the account is untold and the claim free or stale, and then only open_claimed_at of that row changes |
| SignupTable.Signups.MarkOpened | src/lib/agenticsSignup.ts:270-273 | Marks the account told and nothing else |
| SignupTable.Signups.ReleaseOpening | src/lib/agenticsSignup.ts:294-301 | Clears only a claim of the given second, or any claim when no time is given, and only while the account is untold |
| OnceOnlyMail.OpeningIsClaimedExactly | src/lib/agenticsSignup.ts:261-268 | One step of the machine can add an opening claim exactly while the account is untold and the row free or claimed more than 900 s ago; the row then bears its stamp, and its call may or may not hear of it |
| OnceOnlyMail.OpeningMovesExactly | src/lib/agenticsSignup.ts:393-425 | What one step can make of an opening claim is exactly: stop; from held, mark for want of an address, give back, send with the mail arrived, lost or still to arrive; try the mark up to three times; give back once |
| OnceOnlyMail.WelcomeIsClaimedExactly | src/lib/agenticsSignup.ts:144-151 | The same of the welcome letter's claim |
| OnceOnlyMail.WelcomeMovesExactly | src/lib/agenticsSignup.ts:225-241 | What one step can make of a welcome claim is exactly: stop; send; mark once, and give back when that throws; give back once |
| OnceOnlyMail.DeliveredOpeningsAreApart | src/lib/agenticsSignup.ts:261-301 | In every run any opening claim after one that was not given back was taken more than CLAIM_STALE_MS after it, even when marks fail and sends time out; so two that deliver are, unless the first was given back after its mail went out |
| OnceOnlyMail.SecondSoonExactly | src/lib/agenticsSignup.ts:393-425 | After any run a delivered claim, given back or not, can get a second delivery on a claim at most CLAIM_STALE_MS later exactly when such a claim has delivered or has its mail ahead, or that time is not over and the untold row is free or its last claim is being given back |
| OnceOnlyMail.StandingDeliveryIsAloneExactly | src/lib/agenticsSignup.ts:289-301 | After any run a delivered claim that was not given back can get a second delivery on a claim at most CLAIM_STALE_MS later exactly when its call is about to give it back, the account is untold and that time is not over |
| OnceOnlyMail.AtMostOneOpening | src/lib/agenticsSignup.ts:360-368 | In every run in which every call whose mail goes out marks the account while its claim is fresh, an account gets at most one opening email |
| OnceOnlyMail.AnotherOpeningExactly | src/lib/agenticsSignup.ts:393-425 | After any run another opening email can go out exactly when the row is missing or untold, a call holds a claim it has not sent for, or a timed-out mail may still arrive |
| OnceOnlyMail.RefusedMailIsSentAgain | src/lib/agenticsSignup.ts:408-418 | A run in which a send throws although its mail went out, the claim is given back and a second email is delivered in the same millisecond |
| OnceOnlyMail.TimedOutMailIsSentAgain | src/lib/agenticsSignup.ts:411-414 | A run in which a timed-out mail arrives and the retry at 901 s delivers a second one |
| OnceOnlyMail.ReleaseLeavesOtherClaims | src/lib/agenticsSignup.ts:289-301 | Under the run invariant a guarded release leaves the stamp of every other live claim on the row |
| OnceOnlyMail.ReleaseNeverClearsAnother | src/lib/agenticsSignup.ts:289-301 | In every run, a call giving its claim back never clears a claim another call took over from it |
| OnceOnlyMail.MarksAreForever | src/lib/agenticsSignup.ts:157-164 | No continuation of a run unsets welcomed_at, opened_notified_at or the country, or claims for a mail already marked |
| OnceOnlyMail.ToldWithoutTheOpeningEmail | src/lib/agenticsSignup.ts:101-120 | An account first registered with the vault open, or whose letter said so, is never claimed for the opening email afterwards |
| OnceOnlyMail.VisitsWriteAtMostHourly | src/lib/agenticsSignup.ts:122-141 | In every run any n writes of last_seen_at in a row span more than n - 1 hours |
| OnceOnlyMail.AtMostOneWelcome | src/lib/agenticsSignup.ts:144-173 | If every call ends while its claim is fresh and every delivered letter is marked, an account gets at most one letter, whatever else a run does |
| OnceOnlyMail.AnotherLetterExactly | src/lib/agenticsSignup.ts:213-242 | After any run another letter can go out exactly when the row is missing or not marked welcomed, or a call holds a claim it has not sent for |
| OnceOnlyMail.UnguardedReleaseSendsTwice | src/lib/agenticsSignup.ts:166-173 | A run in which a slow failing call releases a claim taken over from it, and two later calls deliver and mark two letters in one second |
| OnceOnlyMail.UnmarkedLetterIsSentAgain | src/lib/agenticsSignup.ts:226-241 | A run in which a letter goes out, its mark throws, the claim is released and a second letter goes out at once |
| OnceOnlyMail.ClaimOnAnOldClockReading | src/lib/agenticsSignup.ts:397-398 | With the clock read long before the UPDATE, a claim can carry another live claim's stamp and be cleared by its release |
| OpeningBatch.SelectOldest | src/lib/agenticsSignup.ts:381-388 | Picks untold, free accounts, oldest signup first and then by id; one is left out only when the limit is reached with older ones |
| OpeningBatch.PassEndsExactly | src/lib/agenticsSignup.ts:393-425 | How a pass ends, case by case, from what was claimed, looked up, sent and marked; it changes no row but its own, and none whose id spells the owner's in any case |
| OpeningBatch.OwnerIsNeverMailed | src/lib/agenticsSignup.ts:396 | Whatever a call does, no row whose id spells the owner's is changed by it |
| OpeningBatch.MarkOpenedWithRetries | src/lib/agenticsSignup.ts:276-287 | At most three tries, stopping at the first that does not throw |
| OpeningBatch.WorkOnRow | src/lib/agenticsSignup.ts:397-423 | The claim, lookup, send, mark and release of one account, in every way they can fail, and how the pass is counted |
| OpeningBatch.RunPass | src/lib/agenticsSignup.ts:393-423 | A pass skips the owner in any letter case, and touches no other account |
| OpeningBatch.WorkThrough | src/lib/agenticsSignup.ts:393-425 | The loop stops starting at the deadline and counts each pass once |
| OpeningBatch.SendOpeningNotices | src/lib/agenticsSignup.ts:372-427 | A dry run changes nothing; a real one works through the oldest accounts up to the deadline and reports how many passes ended each way |
| OpeningBatch.ReportCountsPasses | src/lib/agenticsSignup.ts:389-426 | The four counters are the numbers of passes that ended sent, failed, timed out and without an address |
| OpeningBatch.WhoIsTold | src/lib/agenticsSignup.ts:276-287 | Exactly which passes leave the account told: no address, or sent with one try of the mark applied, or failed when the mark threw after it was applied |
| OpeningBatch.PassTakesOne | src/lib/agenticsSignup.ts:393-425 | A pass takes at most its own account off the waiting list, and exactly when it leaves it told; no other row changes |
| OpeningBatch.WaitingFalls | src/lib/agenticsSignup.ts:251-258 | After any number of passes the waiting count has fallen by the sent and the accounts without an address, less the sent never marked, plus the failed that were marked |
| OpeningBatch.TalliesAreDisjoint | src/lib/agenticsSignup.ts:389-426 | The four outcome counts together are at most the number of passes |
| OpeningBatch.CallAccounts | src/lib/agenticsSignup.ts:372-427 | remaining = waiting - sent - noEmail + sent but never marked - failed but marked, and the four counts sum to at most the limit, which is at most 200 |
| OpeningBatch.FailedMarkRetires | src/lib/agenticsSignup.ts:402-418 | An account without an address whose mark is applied but throws: one waiting, one failed, none without an address, none remaining |
| OpeningBatch.CleanCallRetires | src/lib/agenticsSignup.ts:360-371 | A call in which nothing fails or is held retires exactly min(limit, waiting) accounts and leaves none held |
| OpeningBatch.RepeatedCallsReachZero | src/lib/agenticsSignup.ts:360-371 | n such calls in a row retire exactly min(n * limit, waiting) accounts, so repeated calls reach zero |
| OpeningBatch.PassIsAProtocolRun | src/lib/agenticsSignup.ts:393-425 | An uninterrupted pass is a run of the mail protocol that takes a claim exactly when it can: the claim's mail is delivered exactly when the send returned or threw with the mail out, it is marked at the first try applied, and given back exactly when the pass failed and the release was applied |
| WelcomeVisit.WelcomeOnFirstVisit | src/lib/agenticsSignup.ts:213-242 | The row and answer of a visit in every way its statements, both of touchSignup's too, and its send can fail; other accounts are untouched and the call never throws |
| WelcomeVisit.VisitAnswersExactly | src/lib/agenticsSignup.ts:213-242 | What a visit answers: no-email and already exactly when registered without an address or with the letter taken, sent exactly when it was claimed, went out and was marked; a row that is there keeps its source, and one is made where there is none unless the insert was lost |
| WelcomeVisit.SendLetter | src/lib/agenticsSignup.ts:225-241 | From the claim on: released after any failure, kept and marked after a send |
| WelcomeVisit.VisitIsAProtocolRun | src/lib/agenticsSignup.ts:213-242 | An uninterrupted visit, also one whose register throws, is a run of the mail protocol; `sent` means delivered and marked, and `failed` hides a delivery exactly when the mark threw or the send threw with the mail on its way |
| Decimals.ParseAcceptsExactly | src/lib/addressHistory.ts:46-53 | The accepted texts are exactly digits, or digits, a point and digits, once trimmed |
| Decimals.TrimTakesTheEnds | src/lib/addressHistory.ts:49 | Trimming takes the white space off both ends, all of it and nothing more |
| Decimals.AddIsExact | src/lib/addressHistory.ts:55-59 | Adding scaled integers adds the rational numbers they denote |
| Decimals.ParseOfFormat | src/lib/addressHistory.ts:48-67 | Parsing a printed value gives the normal form of the value |
| Decimals.NormalizeKeepsValue | src/lib/addressHistory.ts:55-67 | The normal form denotes the same number |
| Decimals.NormalFormIsUnique | src/lib/addressHistory.ts:55-67 | Two normal forms of one number are equal |
| Decimals.SameValueSameNormalForm | src/lib/addressHistory.ts:55-67 | Two scaled integers have one normal form exactly when they denote one number |
| Decimals.FormatIsCanonical | src/lib/addressHistory.ts:61-67 | Two values print the same text exactly when they denote the same number |
| Decimals.RoundTrip | src/lib/addressHistory.ts:48-67 | Printing a parsed text is idempotent and keeps its value, whatever leading and trailing zeros it had |
| AddressHistory.Sum.Add | src/lib/addressHistory.ts:76-81 | One more value joins the sum; once one is unreadable the sum stays unknown |
| AddressHistory.Sum.Result | src/lib/addressHistory.ts:83-87 | The text for all values added so far |
| AddressHistory.ResultIsExact | src/lib/addressHistory.ts:71-88 | A sum prints the given text when there are no values, the empty text exactly when one is unreadable, and else the exact rational sum |
| AddressHistory.ResultOfPermutation | src/lib/addressHistory.ts:71-88 | The text does not depend on the order of the values |
| AddressHistory.Group.Take | src/lib/addressHistory.ts:108-121 | A row counts once and its two amounts join the side it is on, as 0 when it failed; no other group changes |
| AddressHistory.Group.Result | src/lib/addressHistory.ts:129-139 | A group's total prints its four sums and its count |
| AddressHistory.SummarizeAddressHistory | src/lib/addressHistory.ts:102-143 | The loop over rows and groups gives the summary of which the next four lemmas say what it means row by row |
| AddressHistory.TotalsSayWhatMoved | src/lib/addressHistory.ts:106-140 | A total counts the rows of its chain and asset; received prints the exact sum of those with direction in, sent of those with out or lost, in amount and in USD; failed rows count as 0, and the text is empty exactly when one cannot be read or, in USD, none moved that way |
| AddressHistory.EveryRowHasItsTotal | src/lib/addressHistory.ts:106-115 | Every row is spoken of by exactly one total |
| AddressHistory.ConcernsExactly | src/lib/addressHistory.ts:108 | Without a NUL in a chain's name, the rows a total speaks of are exactly those of its chain and asset |
| AddressHistory.DatesAreOfTheEnds | src/lib/addressHistory.ts:123-126 | The two dates are of rows with the least and the greatest sort key, and empty without a sort key |
| Ordering.LessByCharacter | src/lib/addressHistory.ts:123-126 | One text is before another exactly when, after what they share, it ends or has the smaller character |
| AddressHistory.EveryTotalIsExact | src/lib/addressHistory.ts:102-140 | Each total stands for the rows of one group and prints the exact sum of each side, failed rows as zero; empty exactly when a counted value is unreadable or a USD side has no rows |
| AddressHistory.CountsAddUp | src/lib/addressHistory.ts:102-140 | The group counts add up to the number of rows |
| AddressHistory.SortedTotals | src/lib/addressHistory.ts:129-140 | The totals are those of the groups, by chain and then by asset |
| AddressHistory.EarliestIsLeast | src/lib/addressHistory.ts:123-126 | The first date is of a row with the least sort key, and there is none exactly when no row has one |
| AddressHistory.LatestIsGreatest | src/lib/addressHistory.ts:123-126 | The last date is of a row with the greatest sort key, and there is none exactly when no row has one |
| AddressHistory.ChainsWithoutNulNeverClash | src/lib/addressHistory.ts:108 | Rows of different chain or asset never share a group key when no chain has a NUL |
| AddressHistory.NulInAChainCanClash | src/lib/addressHistory.ts:108 | Two rows with a NUL in a name that share a key, so that their order shows |
| AddressHistory.OrderIndependentExactly | src/lib/addressHistory.ts:102-143 | Permuting the rows changes nothing exactly when no group key clashes and the rows that tie for the first or the last sort key agree on the date |
| AgentKeys.KeyTable.StartAgentKey | src/lib/agentKeys.ts:86-107 | Alone, a start uses a pending row of the tenant and domain again, or makes exactly one with the new challenge and no hash; nothing else changes |
| AgentKeys.KeyTable.ActivateAgentKey | src/lib/agentKeys.ts:113-135 | A key is issued exactly on a DNS match while the row is the tenant's and pending; the row is then active with the key's hash and authenticates, and no other row changes |
| AgentKeys.KeyTable.RevokeAgentKey | src/lib/agentKeys.ts:147-154 | True exactly for a row of the tenant that is not revoked yet; that row is then revoked, with its hash and all else as it was, and no other row changes |
| AgentKeys.ActivationMovesExactly | src/lib/agentKeys.ts:113-135 | What one step can make of an activation is exactly: matched or refused by DNS; once matched, issued or lost with the next new token; returned while its row is there |
| AgentKeys.AnswersExactly | src/lib/agentKeys.ts:162-177 | An authentication can be answered exactly: with none for a text of another form, from a cache entry that has not expired, or by a lookup that has read the table |
| AgentKeys.KeyHashIsWrittenOnce | src/lib/agentKeys.ts:113-135 | In every concurrent run key_hash is written at most once a row, by a call of the row's own tenant, after a DNS match on the row's own domain and challenge, and what the row has is what was written |
| AgentKeys.RowsOnlyForward | src/lib/agentKeys.ts:127-154 | In every run a row goes from pending to active to revoked or away; revoked and deleted are final, even for a revoke between the DNS check and the UPDATE |
| AgentKeys.OneKeyPerRow | src/lib/agentKeys.ts:127-135 | Of all the plaintext keys racing activations return for one row, at most one ever authenticates |
| AgentKeys.MintedKeyLivesExactly | src/lib/agentKeys.ts:127-135 | Right after the UPDATE the key a call minted authenticates, as any row, exactly when the UPDATE was applied and the row was still the tenant's and pending |
| AgentKeys.ReturnedKeyLivesExactly | src/lib/agentKeys.ts:113-154 | In every run a key a call minted authenticates at a later moment exactly when its UPDATE was applied to a row still pending and that row has been neither revoked nor deleted since |
| AgentKeys.AnswersAreFresh | src/lib/agentKeys.ts:162-184 | In every run each answer, cached or not, is the table's own at a moment less than the cache time and one lookup's duration before it |
| AgentKeys.RevokedKeysStop | src/lib/agentKeys.ts:156-184 | A revoked or deleted key stops authenticating within the cache time and one lookup's duration |
| AgentKeys.RevokeIsAStep | src/lib/agentKeys.ts:147-154 | In a run a revoke leaves the row revoked, whatever its status was, if it is the tenant's, and touches neither its hash nor any other row |
| AgentKeys.DeleteIsAStep | src/lib/agentKeys.ts:187-191 | In a run deleting an account removes its rows and no other |
| AgentKeys.RevokedOrDeletedIsFinal | src/lib/agentKeys.ts:147-198 | In every run, from the moment a tenant revokes its row or deletes its account, no token authenticates as that row at any later state, and no answer names it past 60 seconds and one lookup |
| AgentKeys.ForgottenReturnsExactly | src/lib/agentKeys.ts:162-198 | In every run a dead id that no cached hit names can come back into the cache, and into an answer, exactly when a lookup that read it is still to store it |
| AgentKeys.ForgettingIsFinalExactly | src/lib/agentKeys.ts:187-198 | In every run a forgotten id whose row is gone is named by no cached hit and no answer ever after exactly when no lookup that read it was under way |
| AgentKeys.KeyCache.AuthenticateAgentKey | src/lib/agentKeys.ts:162-177 | Unshaped texts and fresh entries change nothing; otherwise the table's answer is returned and cached for the cache time |
| AgentKeys.KeyCache.ForgetAgentKeys | src/lib/agentKeys.ts:192-198 | The deleting loop leaves exactly the entries that name no forgotten id |
| AgentKeys.OnePendingExactly | src/lib/agentKeys.ts:85-107 | At most one pending row per tenant and domain throughout a run exactly when every insert still finds none pending |
| AgentKeys.RacingStartsLeaveTwoPending | src/lib/agentKeys.ts:94-105 | A run of two racing starts that leaves two pending rows for one domain |
| AgentKeys.LosersKeyIsReturnedDead | src/lib/agentKeys.ts:127-135 | A run of two racing activations that both answer ok with a key, one of which never authenticates |
| AgentKeys.LookupInFlightOutlivesForget | src/lib/agentKeys.ts:168-198 | A run in which a lookup in flight puts a deleted key back into the cache after it was forgotten |
| AgenticsPath.DecodeOfConcat | src/lib/agenticsAccess.ts:65-75 | Decoding a text that decodes, followed by another, is decoding each: no escape reaches across |
| AgenticsPath.EscapesAreReadBack | src/lib/agenticsAccess.ts:67-75 | Every text, escaped octet by octet in UTF-8, in small or capital hex digits, decodes to itself |
| AgenticsPath.OnlySpellingsAreRead | src/lib/agenticsAccess.ts:67-75 | And only such spellings decode: a decoded piece is a plain character or the UTF-8 spelling of its character |
| AgenticsPath.DecodeUriKeepsExactly | src/lib/agenticsAccess.ts:54-64 | decodeURI, as the router uses it, leaves an escaped character as it is exactly when it is one of the eleven reserved ones |
| AgenticsPath.NormalizeAgenticsPath | src/lib/agenticsAccess.ts:65-81 | The loop of at most three rounds, left early at a failure or a fixpoint, and the tidying after it |
| AgenticsPath.ThreeKindsOfPath | src/lib/agenticsAccess.ts:89-102 | No path is both the door and the Vault, or PetroTins and either |
| AgenticsPath.KindsOfPathExactly | src/lib/agenticsAccess.ts:84-102 | The door, the Vault and PetroTins are exactly these normal forms, each prefix written out |
| AgenticsPath.PlainPathIsNormal | src/lib/agenticsAccess.ts:65-81 | A path without escapes, cuts, capitals, backslashes or slashes too many is its own normal form |
| AgenticsPath.SeenOfSpelling | src/lib/agenticsAccess.ts:54-75 | Where one decodeURI of a path begins with plain text, what the gate sees begins with it too, followed by the rest of the spelling fully decoded |
| AgenticsPath.VaultPagesAreGated | src/lib/agenticsAccess.ts:93-102 | A path Astro routes below /dashboard/agentics/, also with one slash too many, is Vault exactly when the rest, fully decoded, keeps a character other than slashes before any ? or #, and the door exactly when not |
| AgenticsPath.VaultApiIsGated | src/lib/agenticsAccess.ts:43-102 | Every spelling Astro routes to /api/agentics or below is Vault |
| AgenticsPath.PetroTinsIsGated | src/lib/petroTinsAccess.ts:39-72 | Every spelling Astro routes to a PetroTins page or endpoint, or below one, is a PetroTins path |
| AgenticsPath.DoorIsTheDoor | src/lib/agenticsAccess.ts:84-91 | Every spelling Astro routes to exactly /dashboard/agentics is the door |
| AgenticsPath.EverySpellingOfAVaultPageIsGated | src/lib/agenticsAccess.ts:54-64 | Every spelling of a Vault page whose address begins with a plain name, whatever follows it, is Vault and not the door |
| AgenticsPath.EscapedCutPassesAsTheDoor | src/lib/agenticsAccess.ts:93-97 | /dashboard/agentics/%3Fx keeps its escape in Astro's router and passes as the door |
| AgenticsPath.NormalizingTwice | src/lib/agenticsAccess.ts:65-81 | Normalizing is idempotent on a path exactly when its normal form has nothing left to decode or cannot be decoded |
| AgenticsPath.FixpointIsNormal | src/lib/agenticsAccess.ts:67-75 | It is idempotent whenever the loop ended with nothing left to decode |
| AgenticsPath.FourLayersAreNotIdempotent | src/lib/agenticsAccess.ts:67-75 | /%25252541 normalizes to /%41, and that to /a |
| AgenticsGate.Middleware.PetroTinsRefusal | src/lib/petroTinsAccess.ts:180-183 | A refusal is a bodiless 404, remembered with its session flag by the PetroTins gate only |
| AgenticsGate.Middleware.AgenticsRefusal | src/lib/agenticsAccess.ts:182-185 | A refusal is a bodiless 404, remembered with its session flag by the Vault gate only |
| AgenticsGate.Middleware.Refuse | src/middleware.ts:75-95 | A refusal goes through app.ts for a viewer with a session, and is remembered exactly when it is reached |
| AgenticsGate.Middleware.OnRequest | src/middleware.ts:43-137 | Answer, what ran and what is remembered, for every answer of the geoblock, the sessions, the legacy table, app.ts and the page |
| AgenticsGate.VaultPageIsTheOwners | src/lib/agenticsAccess.ts:164-174 | With the flag false, any pass on a Vault path but a refused request's 404 render runs a page for the owner alone, and app.ts only for a viewer with a session |
| Owner.OwnerByCharacter | src/lib/owner.ts:22-24 | The owner is exactly the id of the owner's length that agrees with it at every index but for the case of ASCII letters |
| AgenticsGate.VaultLetsInTheOwnerExactly | src/lib/agenticsAccess.ts:164-174 | With the flag false, a first pass on a Vault path lets in exactly the viewers that are no demo and whose tenant id spells the owner's, character by character; their page then runs unless app.ts or a legacy address answers first, and no page runs for anyone else |
| AgenticsGate.PetroTinsLetsInTheOwnerExactly | src/lib/petroTinsAccess.ts:162-172 | The same of PetroTins paths |
| AgenticsGate.GeoblockStopsExactly | src/middleware.ts:46-64 | A block outside /_astro/, /assets/ and the two icons is the whole answer and nothing else runs or is remembered; otherwise the geoblock changes nothing |
| AgenticsGate.OrdinaryAnswersExactly | src/middleware.ts:106-137 | What is sent where no gate has a say, case by case: the legacy answer, the rewritten page, the public page with or without headers, what app.ts makes of the page, or the login page |
| AgenticsGate.SecurityHeadersAre | src/middleware/securityHeaders.ts:27-51 | Seven security headers on every answer that gets them, and Strict-Transport-Security in production alone |
| AgenticsGate.OwnersPageKeepsItsVary | src/lib/agenticsAccess.ts:191-199 | The Vary of the owner's page keeps all it named, and gains Cookie only where that was missing |
| AgenticsGate.RoutedVaultPageIsTheOwners | src/lib/agenticsAccess.ts:54-64 | Every Vault page below /dashboard/agentics/ that Astro routes, however its address is spelled, runs for a viewer signed in as the owner alone |
| AgenticsGate.OpenVaultNeverDecides | src/lib/agenticsAccess.ts:165 | With the flag true, over any passes on any requests, the Vault gate decides none and remembers nothing, and no answer depends on the session it would ask for |
| AgenticsGate.AppMattersExactly | src/middleware.ts:106-137 | What app.ts does shows in a pass exactly when a viewer with a session is refused or sent the 404 page, or one let in asks for a page neither public nor legacy; where it then cannot be loaded no page runs, and a public page always runs |
| AgenticsGate.GeoblockFailsOpen | src/middleware.ts:46-64 | A geoblock that throws, and an asset path, answer as if nothing were blocked |
| AgenticsGate.HeadersOnTheWayOut | src/middleware.ts:99-104 | Every 404 but the geoblock's own leaves unstored and unindexed, and the owner's answers private and varying by cookie |
| AgenticsGate.MemoryIsTheLastRefusal | src/lib/agenticsAccess.ts:158-185 | After any passes the gate remembers of a request exactly the flag of its last refusal |
| AgenticsGate.TwoPassSafety | src/lib/agenticsAccess.ts:157-185 | Over any passes on any requests, a 404 render happens only on a Vault request refused before, with the session flag of the last refusal, and reaches app.ts only if that flag is true |
| AgenticsGate.AppAfterRefusal | src/middleware.ts:83-96 | On a request refused before, app.ts runs only with a session flag that is true, or for a viewer decided afresh to be the owner |
| AgenticsGate.SignedOutSeesThe404Page | tests/agentics/ownerOnlyGate.test.ts:94-114 | A signed-out visitor of a hidden path is sent the 404 page and app.ts runs in neither pass |
| AgenticsGate.HiddenLooksUnknown | tests/agentics/ownerOnlyGate.test.ts:85-114 | Any refused viewer with a session is sent exactly what the same viewer is sent on a path that does not exist, whatever app.ts answers |
| AddressActivity.AmountIsExact | src/lib/etherscan.ts:353-362 | The printed amount denotes exactly the value over its power of ten, also for negative values and no decimals |
| AddressActivity.NetSide | src/lib/addressActivity.ts:165-178 | One pass over inputs or outputs gives the address's own value and one other address |
| AddressActivity.CounterpartyIsAnother | src/lib/addressActivity.ts:167-178 | The counterparty is another address on that side, and empty exactly when there is none |
| AddressActivity.ItemIsTheNet | src/lib/addressActivity.ts:162-190 | A transaction gives an item exactly when its net is not zero, of the right sign, for exactly the net |
| AddressActivity.NettingConserves | src/lib/addressActivity.ts:161-190 | Before truncation the signed sum of the items is exactly what was paid to the address less what was spent from it |
| AddressActivity.EsploraActivity | src/lib/addressActivity.ts:147-193 | The netting loop, the sort and the cut give the list EveryNetIsListed speaks of; unavailable when the explorer could not be read |
| AddressActivity.EveryNetIsListed | src/lib/addressActivity.ts:147-193 | One item for each transaction in which what the address got and what it spent differ, and no other: in or out by the sign, for exactly the difference, with the transaction's hash and time; the newest 25 of these |
| AddressActivity.EvmActivity | src/lib/addressActivity.ts:75-145 | The merge of two lists, either of which may fail, gives the list EveryTransferIsListed speaks of; unavailable only when both fail |
| AddressActivity.EveryTransferIsListed | src/lib/addressActivity.ts:99-145 | One item for each native row with a readable value that is not zero and each token row with a readable value that name the address, and no other; each with its row's hash, time, direction and other end, in the chain's coin or the token's own symbol; the newest 25 of these, one list alone when the other failed |
| AddressActivity.RowsAreListedExactly | src/lib/addressActivity.ts:99-138 | A row gives an item exactly when it names the address with a readable value, a native one only for a value not zero; out exactly when the address sent it, with the other end as counterparty |
| AddressActivity.NewestAreKept | src/lib/addressActivity.ts:191-192 | The result is the stable newest-first top 25: nothing dropped is newer than anything kept, ties keep their order, and it is truncated exactly when something was dropped |
| AddressActivity.TokenAmountIsExactly | src/lib/addressActivity.ts:122-128 | A token amount is exact at the token's own decimals exactly unless it has 0 decimals and moved something |
| AddressActivity.UnitTokenIsMisread | src/lib/addressActivity.ts:122-128 | One unit of a token with 0 decimals is listed as a quintillionth |
| AddressActivity.NativeItemsAddUp | src/lib/addressActivity.ts:99-116 | Native items add up to what the address gained less what it moved to itself |
| AccountBilling.Stripe.Begin | src/lib/accountDeleteBilling.ts:62-70 | Each call to Stripe may fail, and comes after whatever others did meanwhile |
| AccountBilling.CancelSubscriptionNow | src/lib/accountDeleteBilling.ts:84-91 | Normal return means the subscription has ended, by this cancel or another, also when the cancel threw |
| AccountBilling.ConsiderAll | src/lib/accountDeleteBilling.ts:54-60 | The live list gains exactly the returned subscriptions that have not ended and are not labeled with another tenant |
| AccountBilling.ListCustomers | src/lib/accountDeleteBilling.ts:62-64 | After the loop every subscription of the stored customers, not another tenant's, has ended or is in the live list, whatever others did between the calls |
| AccountBilling.RetrieveStored | src/lib/accountDeleteBilling.ts:69-71 | The same for the stored subscription ids |
| AccountBilling.FindLive | src/lib/accountDeleteBilling.ts:38-71 | The three searches together miss nothing but what has ended, list only what was live, pointed at and not another tenant's at the start or came since, and ask for no cancel |
| AccountBilling.CancelAll | src/lib/accountDeleteBilling.ts:73-76 | Cancels in order up to the first that cannot be confirmed, every one before which has ended; without one, every live subscription has ended, and nothing ends but by this or by others |
| AccountBilling.CancelTenantStripeSubscriptions | src/lib/accountDeleteBilling.ts:33-77 | On normal return every subscription whose customer a row stores, whose id a row stores or whose indexed label is the tenant, and whose label is absent, empty or the tenant, is canceled or expired; each id asked was one of these and had another status at the start, each once, and all asked but the last have ended even when it throws; without failures it returns normally, and without a key exactly when nothing is stored |
| AccountBilling.RetryFindsTheRest | src/lib/accountDeleteBilling.ts:10-15 | Of what one call set out to end, the next is left with exactly the rest: without what others ended, every id asked before the last, and the last if that was carried out; fewer once one cancel is confirmed |
| AccountBilling.RetriesComeToAnEnd | src/lib/accountDeleteBilling.ts:10-15 | After any number of calls, failed or not, with any stored rows and index in each: of any subscriptions live at the start, such as the account's, exactly those are left that neither a call nor anyone else ended, and no more calls confirmed a cancel of one than there were of them |
| AccountBilling.LiteralReadsBack | src/lib/accountDeleteBilling.ts:7-8 | The search literal denotes the text it was made of and ends where it ends: no inner quote or backslash closes it early or escapes its end |
| AccountBilling.LiteralsTellTenantsApart | src/lib/accountDeleteBilling.ts:7-8 | Two tenants' literals are never the same text |
| AgenticsAnalytics.Fill | src/lib/agenticsAnalytics.ts:109-147 | One table's loop, making an account for each tenant that is not the owner |
| AgenticsAnalytics.AccountsAre | src/lib/agenticsAnalytics.ts:109-147 | The accounts are those some table names, without the owner, each as the last row of each table says |
| AgenticsAnalytics.AccountShows | src/lib/agenticsAnalytics.ts:125-147 | An account shows what its last rows say, and zero or nothing without one: bots, wallets, addresses, checks and usd are theirs, sent and received make up the transfers unless more were sent than there are, and a country shows only as two capitals |
| AgenticsAnalytics.FirstMembers | src/lib/agenticsAnalytics.ts:150-159 | The loop keeps each account's best membership so far |
| AgenticsAnalytics.FirstMemberIsLeast | src/lib/agenticsAnalytics.ts:149-160 | The address shown is of the least membership by (created_at, id) among those with a valid address, and none exactly when none is valid |
| AgenticsAnalytics.SetEmails | src/lib/agenticsAnalytics.ts:160 | The addresses are set on exactly the accounts that have a best membership |
| AgenticsAnalytics.CountHours | src/lib/agenticsAnalytics.ts:162-188 | The loop over the hours fills the two arrays, the daily maps and the accounts' recent events |
| AgenticsAnalytics.TenantsOnAre | src/lib/agenticsAnalytics.ts:182-185 | A day counts exactly the accounts with a kept row of that day, each once |
| AgenticsAnalytics.SortAccounts | src/lib/agenticsAnalytics.ts:190-194 | Whatever order the map lists them in, the accounts come out in one order |
| AgenticsAnalytics.SortCountries | src/lib/agenticsAnalytics.ts:196-203 | Counting and sorting give the countries in one order |
| AgenticsAnalytics.SummarizeAgentics | src/lib/agenticsAnalytics.ts:108-225 | All loops together give the page; what it says row by row is in the lemmas of AgenticsPage |
| AgenticsPage.PageListsExactly | src/lib/agenticsAnalytics.ts:109-123 | The page lists each tenant that some table names, but for the owner in any spelling, once, and no one else |
| AgenticsPage.LastIsLast | src/lib/agenticsAnalytics.ts:125-147 | What counts of a table for a tenant is its last row of the tenant, and nothing exactly when it has none |
| AgenticsPage.AccountsShowTheirRows | src/lib/agenticsAnalytics.ts:125-147 | Every number, time and country of a listed account is that of the last row of its table, or nothing without one, also received as transactions less sent, at least 0 |
| AgenticsPage.AccountsShowTheirAddress | src/lib/agenticsAnalytics.ts:149-160 | The address is of a membership that no other with an address precedes by time and then id; none exactly when no membership has text, one @ and text without white space |
| AgenticsPage.AccountsAreInOrder | src/lib/agenticsAnalytics.ts:190-194 | The accounts come by the later of last activity and last visit, else signup, the latest first, then by tenant |
| AgenticsPage.CountriesAreCounted | src/lib/agenticsAnalytics.ts:196-203 | Each country of an account once, with the number of its accounts; the unknown last, then the most accounts first, then by name |
| AgenticsPage.TotalsAddUp | src/lib/agenticsAnalytics.ts:205-218 | Each total is the sum over the accounts listed; active is with an event in the last seven days, and with agents is with a bot |
| AgenticsPage.HoursAreCharted | src/lib/agenticsAnalytics.ts:162-221 | Each bar is the events of the rows in it: of listed accounts, of the last 30 days and today, by hour of the day, by weekday counted from Sunday 7 January 2024, by each of the last 14 days with the accounts that had any, and by account for the hours that end in the last seven days |
| AgenticsAnalytics.ActivityConserves | src/lib/agenticsAnalytics.ts:162-188 | byHour and byWeekday sum to the same number of events, which bounds both the daily sum and the sum of the accounts' recent events |
| AgenticsAnalytics.TotalsAreTheTablesSums | src/lib/agenticsAnalytics.ts:205-218 | With one row a tenant each total is the sum of its table's rows without the owner's, and there are as many accounts as tenants named |
| AgenticsAnalytics.CountriesPartition | src/lib/agenticsAnalytics.ts:196-203 | Each country once, with the number of accounts there, which add up to all accounts; accounts and countries are sorted |
| AgenticsAnalytics.OwnerRowsChangeNothing | src/lib/agenticsAnalytics.ts:108-123 | Dropping the owner's rows from every table changes no number of the page |
| AgenticsAnalytics.RowOrderChangesNothingExactly | src/lib/agenticsAnalytics.ts:149-203 | With one row a tenant in the grouped tables, no order of any table's rows changes the page exactly when in every account the first memberships with a valid address that tie on created_at and id have one address |
| AgenticsAnalytics.RowOrderNeverShows | src/lib/agenticsAnalytics.ts:149-203 | With distinct membership ids, as the table has them, and one row a tenant in the grouped tables, no order of any table's rows changes the page |
| AgenticsAnalytics.PageAgreesWithTheEmail | src/lib/agenticsSignup.ts:303-314 | For any memberships and users the page's query joins, also memberships without a user and tenants it does not ask for: the page's address is emailOfTenant's exactly when the earliest membership's user has a valid address and the page asks for the tenant, or that user has none and no membership the page asks for has one |
| AgenticsAnalytics.LaterAddressIsShown | src/lib/agenticsAnalytics.ts:149-160 | Two memberships, the first without a valid address: the page shows the second one's and emailOfTenant gives none |

## Left out

- OpeningBatch.WorkOnRow: no other process acts between the statements of one pass, because what a batch reports is about one call; interleavings with other calls are the runs of OnceOnlyMail.
- OpeningBatch.SendOpeningNotices: no other process acts between its passes either, so `CallAccounts` and what follows from it are of a call that runs alone.
- OpeningBatch.PassIsAProtocolRun: speaks of an uninterrupted pass; what calls do to each other between their statements is what the runs of OnceOnlyMail are about, with one action a statement.
- WelcomeVisit.VisitIsAProtocolRun: speaks of an uninterrupted visit, likewise.
- AccountBilling.CancelTenantStripeSubscriptions: promises nothing of a subscription that only search could have found and search does not show yet, because its index lags behind; each list or search is one call here, not a series of pages.
- AgenticsAnalytics.SummarizeAgentics: amounts are integers and an hour is one that exists, because `Number`, floating point and `Date.parse` leniency are not modelled; times come as the texts `toIso` gives, and `localeCompare` compares character by character, like `<`.
- AgenticsGate.Middleware.OnRequest: does not follow an exception thrown by a page or by `app.ts` itself, because both are answers here; the legacy table, the public-path list and the geoblock's rule are answers too.
- AgenticsPath.NormalizeAgenticsPath: lower-cases ASCII only and has no lone surrogates, because a URL's path is ASCII; what a fuller lower-casing would change cannot spell the prefixes.
- AgentKeys.KeyCache.AuthenticateAgentKey: the lazy `last_used_at` touch, the trimming of the text and the hash itself are left out, because no answer depends on them once sha256 is injective.
- AgentKeys.KeyTable.StartAgentKey: takes a domain already normalized, because `normDomain` is a pure filter before the claim.
- Astro's router beyond one `decodeURI` and one dropped slash, and its rendering beyond the merge its stand-in in the repository shows.
- Which cookies and tokens make a session: a gate sees the viewer or none, and none too where resolving fails.
- SQL text, table creation and migrations; `created_at` is given.
- The wording and rendering of mails, the text of the two policy headers, the waits between tries, `siteUrl` and `cleanSource`.
- Account deletion of signup rows while mail calls are under way.
- `listAgentKeys`, `loadAgenticsAnalytics` with its `unavailable` list, the explorers' paging, and address detection.
- Everything else in the repository: copy, React components, prices, taxes and imports.
