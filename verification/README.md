# Verified models of the FBeds portal's client protocols, validators, codecs and tenant analyser

A Dafny project that models the parts of the repository where state, text and untrusted input meet, and proves what
they promise. `dafny verify dfyconfig.toml` checks everything. One module a component:

- **Search session** (`SearchRun`, `SearchPage`, `SearchSession`, `AuthGate`). The agent portal's handlers are methods of
  class `Portal`; every stretch between two awaits is one atomic step of a transition system whose requests in flight
  carry the generation and the list they captured. Replies come back in any order, late, or never. The sign-in gate is
  the same kind of system with an epoch, in which a sign-in is submitted in one step and answered in a later one.
- **Tenant analyser** (`TenantFilter`). `literalNamesTenant` over an expression datatype, against an oracle semantics:
  an opaque piece is a site that may or may not name the tenant.
- **Browser storage** (`BrowserStorage`, `AccountSession`, `UriText`, `RecentSearches`). A class with the storage's own
  index order, the loops that delete from the storage they index, and the bounded recent-search list against an unbounded history.
- **Amendments** (`Amendment`, `AmendmentLaws`, `AmendmentMoney`, `AmendmentForm`, `AmendmentFormLaws`). The validator over a
  JSON datatype, the approval, and the dialog that prints a booking and reads back the difference.
- **Text codecs** (`Text`, `Money`, `Csv`, `BookingExport`, `Statement`, `StatementColumns`, `StatementTabs`, `PriceGrid`,
  `PriceGridLaws`, `Deals`, `DealLaws`, `DealApi`, `GuestPrices`). Printers and readers, and what survives the way through
  both.
- **Calendar and layout** (`Calendar`, `StayCalendar`, `RoomSalesPaint`, `Occupancy`, `BookingColumns`).
- `Common`, `Permutations`, `Sorting`: small shared functions.

Where the source loops over mutable variables the model is a method proved equal to a specification function, and the
promises are lemmas about that function; where the source is an expression the model is a function.

## What the proofs found

- *Refresh notice.* The notice "still the previous successful search" can be untrue in three ways. An unavailable supplier
  keeps any list that is on screen, also one that never succeeded (the notice appears when the answer has no message of its
  own); a search whose reply was written can still throw when it is remembered, which raises the notice over its own new list;
  and the sort below raises it over a list that is gone or new. It is true in all other cases and only then
  (`SearchSession.NoticeIsTrueIff`, with `NoticeOverAFailedList`, `NoticeOverANewList`, `SortLosesTheList` and
  `SortNoticeOverANewList` as runs).
- *Sort on the home page.* The form of the home page runs the edit and the new search in one handler, so the search captures
  the list that the edit has just taken down. When the supplier is then unavailable nothing is written and no list is left,
  not even the failed one that a first search shows (`SearchSession.SortLosesTheList`). Every other request that may write
  has captured the list on screen (`SearchSession.CapturedIsOnScreenIff`).
- *Sign-in gate.* Retry stays enabled while a sign-in is on its way. A login that succeeds while a restore is awaited takes
  the epoch from it, and then nothing takes the loading screen down again (`AuthGate.StuckForGood`, with `StuckRun` as a
  run). Loading is exact in the runs without such a login and in no other (`AuthGate.LoadingIsExactIff`).
- *Clearing an account.* Clearing one account can take keys of another, in three ways (`AccountSession.LongerIdsCollide`,
  `ShorterIdsCollide`, `ColonIdsCollide`). `AccountSession.LeavesAloneIff` says exactly between which ids this happens for some
  tenant, with tenant ids as `encodeURIComponent` writes them; between ids without dots and colons it never does.
- *Export amounts.* The formatter that slices digit text differs from the one that divides exactly on leading zeros in
  front of the whole part and on negative zero (`Money.SlicingAgreesWithDivision`). A negative amount is exported behind
  an apostrophe (`BookingExport.AmountsReadBack`).
- *Statement columns.* The order of columns can matter exactly when all four names are present and one of them stands
  twice, because the first one is taken (`StatementColumns.OrderNeverMattersIff`).
- *Spreadsheet paste.* A block pasted without a final newline loses its last row exactly when that row, below others, is
  a single empty cell (`PriceGridLaws.BareBlockReadsBackIff`).
- *Deal form.* A fixed-amount deal whose currency is not a three-letter upper-case code can be built but does not load back;
  every other deal the form builds does (`DealLaws.BuiltLoadsBackIff`). The form lets through stays of up to 9999 nights
  where the service takes 365 (`DealApi.LongStayIsRefused`), among a few other things; what it builds is taken exactly when
  the conditions of `DealApi.BuiltIsTakenIff` hold. Every deal the service keeps loads back, unless it keeps an empty text
  as description or note (`DealApi.StoredLoadsBackIff`).
- *Tab-separated statements.* A row is trimmed before it is split, and its outer tabs are white space: a record that begins
  with an empty cell is read from its first filled one, so its columns shift (`StatementTabs.KeepsPlacesIff`).
- *Occupancy totals.* The totals of a search describe one room when the rooms are alike and all rooms otherwise, so the
  roster built from them has as many guests as were entered exactly when the rooms are alike
  (`Occupancy.TotalsAccountForEveryGuest`).
- *Stay calendar.* `parse` refuses the real days of the years 0 to 99, which `Date.UTC` takes for 1900 to 1999
  (`StayCalendar.ParseIsReal`).
- *Tenant analyser.* Its documentation asks for the key to be pinned last, behind a spread; the verdict does not look at
  the order of properties (`TenantFilter.OrderDoesNotMatter`). A spread behind four others is never answered
  "no", whatever stands there (`DeepSpreadIsNeverNo`).

## Model

| member | source | states |
|---|---|---|
| `SearchSession.Portal.NoteCriteriaEdit` | apps/agent/components/agent-portal.tsx:158-167 | An edit advances the generation, clears the list, both notices and both busy flags, and nothing else. |
| `SearchSession.Portal.BeginSearch` | apps/agent/components/agent-portal.tsx:214-239 | A search starts only when none runs; it carries the new generation and the list of the render it was started from. |
| `SearchSession.Portal.ChangeSort` | apps/agent/components/agent-portal.tsx:390-397 | A sort picked on the home page is an edit, and over a list also a search, which carries the list that the edit has taken down. |
| `SearchSession.Portal.FinishSearch` | apps/agent/components/agent-portal.tsx:240-291 | The whole screen after a reply, a reply that cannot be remembered, a failure or a thrown request; a stale one changes nothing. |
| `SearchSession.Portal.BeginPage` | apps/agent/components/agent-portal.tsx:331-336 | A page jump starts only over a list, with no page or search in flight. |
| `SearchSession.Portal.FinishPage` | apps/agent/components/agent-portal.tsx:337-353 | A current page reply replaces the hotels and keeps the list's request; a failed one keeps the list. |
| `SearchSession.Portal.BeginLoadMore` | apps/agent/components/agent-portal.tsx:354-361 | Loading more starts only where the list says there is more. |
| `SearchSession.Portal.FinishLoadMore` | apps/agent/components/agent-portal.tsx:362-389 | A current reply grows the captured list; a reply with nothing new and more to come is a failure. |
| `SearchSession.EveryRun` | apps/agent/components/agent-portal.tsx:153-389 | The inductive invariant: who may write, what the writer captured, and where every shown hotel came from, after every run. |
| `SearchSession.SearchingIsExact` | apps/agent/lib/search-attempt.ts:15-32 | In every run `searching` is shown exactly while one search in flight carries the current generation; there is never a second. |
| `SearchSession.OnlyTheCurrentWriterWrites` | apps/agent/lib/search-attempt.ts:25-32 | Only an edit or a request with the current generation ever changes the list; late replies change nothing on screen. |
| `SearchSession.CapturedIsOnScreenIff` | apps/agent/components/agent-portal.tsx:390-397 | In every run the request that may write captured the list on screen, iff it is not a search started by a sort picked over a list; then it captured a list and none is on screen. |
| `SearchSession.FailureKeepsTheList` | apps/agent/lib/search-refresh.ts:10-17 | A throw before the reply is written, or an unavailable supplier after a list was captured, leaves the list on screen as it was; that is the captured list iff no such sort started the search, and otherwise none is left. |
| `SearchSession.SortLosesTheList` | apps/agent/components/agent-portal.tsx:390-397 | A run in which a sort picked over a list meets an unavailable supplier: no list, no first-failure list, and the notice over nothing. |
| `SearchSession.SortNoticeOverANewList` | apps/agent/components/agent-portal.tsx:240-291 | A run in which such a sort succeeds but cannot be remembered: the notice stands over its own list. |
| `SearchSession.NoticeIsTrueIff` | apps/agent/components/agent-portal.tsx:240-291 | After any outcome the notice about the previous successful list is up iff a list was there, or a sort took it down to start the search, and the outcome raises it; it is then true iff no such sort started the search, the throw did not come after the new list was written and the last reply that wrote the list since the last edit had succeeded. |
| `SearchSession.ListIsTheLastWrite` | apps/agent/components/agent-portal.tsx:153-389 | In every run the list on screen is what the last writing request since the last edit left, with its status. |
| `SearchSession.NoticeStands` | apps/agent/components/agent-portal.tsx:214-291 | In every run the notice stands exactly from the search that raised it to the next edit or search. |
| `SearchSession.NoticeOverAFailedList` | apps/agent/lib/search-refresh.ts:3-17 | A run of two unavailable answers without a message of their own, after which the notice stands over a list that never succeeded. |
| `SearchSession.NoticeOverANewList` | apps/agent/lib/recent-searches.ts:188-196 | A run of two successful searches, the second of which cannot be remembered, after which the notice stands over the second one's own list. |
| `SearchSession.RepliesReplaceTheListIff` | apps/agent/lib/search-refresh.ts:10-17 | Every reply of a search replaces the list with its own, also when remembering it throws afterwards, unless the supplier was unavailable and a list is on screen or a sort picked over a list started the search; then nothing is written. |
| `SearchSession.SearchingClearsNotice` | apps/agent/components/agent-portal.tsx:214-292 | While a search runs no refresh notice is up, in every run. |
| `SearchSession.EditReleases` | apps/agent/components/agent-portal.tsx:158-167 | After an edit a search can start at once and nothing that was in flight can write any more. |
| `SearchSession.ShownHotelsAreSourced` | apps/agent/components/agent-portal.tsx:331-389 | Every shown hotel came in a reply to the list's own request, its recorded search id is that reply's, and ids stay distinct if pages are. |
| `SearchSession.GrowthIsConservative` | apps/agent/components/agent-portal.tsx:369-383 | Loading more never drops, moves or re-attributes a hotel, and keeps the request and the window start. |
| `SearchPage.AppendHotelPage` | apps/agent/lib/search-page.ts:1-9 | Shown hotels keep their places and the list grows by exactly the ids that were missing, once each. |
| `SearchPage.NewHotelsAreNew` | apps/agent/lib/search-page.ts:1-9 | The added hotels are new, distinct, and cover every incoming id. |
| `AuthGate.Gate.RestoreSession` | apps/agent/components/agent-auth-gate.tsx:22-26 | A restore takes the next epoch and shows loading. |
| `AuthGate.Gate.AcceptSignIn` | apps/agent/components/agent-auth-gate.tsx:42-46 | A sign-in takes the next epoch and shows the identity with booking off. |
| `AuthGate.Gate.OnExpired` | apps/agent/components/agent-auth-gate.tsx:62-72 | Expiry under a signed-in agent drops the identity and advances the epoch. |
| `AuthGate.Gate.FinishRestore` | apps/agent/components/agent-auth-gate.tsx:26-39 | The screen after the answer to a restore, by kind of answer; one with an older epoch changes nothing. |
| `AuthGate.Gate.FinishSignIn` | apps/agent/components/agent-auth-gate.tsx:47-54 | The identity after the answer to a sign-in: the server's own, or the sign-in with booking off; one with an older epoch changes nothing. |
| `AuthGate.EveryRun` | apps/agent/components/agent-auth-gate.tsx:22-72 | In every run at most one session answer can still be taken, an awaited restore shows loading over no identity, and until a sign-in is confirmed its identity is shown with booking off. |
| `AuthGate.LoadingIsExactIff` | apps/agent/components/agent-auth-gate.tsx:22-55 | Loading is shown exactly while one restore carries the newest epoch, and never over an identity, iff no login signed in while a restore was awaited. |
| `AuthGate.StuckForGood` | apps/agent/components/agent-auth-gate.tsx:37-55 | Once such a login came, nothing that happens later takes the loading screen down. |
| `AuthGate.StuckRun` | apps/agent/components/entrance/agent-entrance.tsx:35-60 | A run in which a failed restore, a submitted sign-in, Retry, and then the login leave the loading screen over a signed-in agent with nothing in flight. |
| `AuthGate.ExpiryIsFinal` | apps/agent/components/agent-auth-gate.tsx:59-72 | After an expiry no late session answer brings an identity back; only a login that succeeds later signs in. |
| `TenantFilter.LiteralNamesTenant` | tools/tenant-filter-check.ts:61-89 | The loop with its flag and early returns answers the verdict of the oracle semantics, and terminates. |
| `TenantFilter.VerdictIsExact` | tools/tenant-filter-check.ts:61-89 | True iff the tenant is named whatever the opaque pieces hold, false iff it never is, dynamic iff they decide. |
| `TenantFilter.OrderDoesNotMatter` | tools/tenant-filter-check.ts:63-88 | Rearranging or repeating properties, or AND members at any depth, does not change the verdict. |
| `TenantFilter.PinnedTenantPasses` | tools/tenant-filter-check.ts:74-76 | A literal with the key passes wherever the key stands and whatever is spread beside it. |
| `TenantFilter.CompositeKeys` | tools/tenant-filter-check.ts:76 | A composite key names the tenant iff tenantId is one of its underscore-separated parts. |
| `TenantFilter.SpreadBound` | tools/tenant-filter-check.ts:65-72 | Along a chain of literals exactly four nested spreads are followed; behind a fifth the answer is dynamic, never false. |
| `TenantFilter.DeepSpreadIsNeverNo` | tools/tenant-filter-check.ts:65-72 | In every literal and for every resolver, a spread that lies where the bound is reached is never answered false. |
| `TenantFilter.WhereFinding` | tools/tenant-filter-check.ts:159-171 | No finding iff every branch of the filter certainly names the tenant; missing-filter iff nothing is opaque and a branch never does. |
| `BrowserStorage.SessionStorage.SetItem` | apps/agent/lib/recent-searches.ts:195 | Writing a key keeps every other value and its place; a new key is the last one. |
| `BrowserStorage.SessionStorage.RemoveItem` | apps/agent/lib/recent-searches.ts:203-206 | Removing a key moves the later keys down by one and changes nothing else. |
| `AccountSession.RemoveMatching` | apps/agent/lib/recent-searches.ts:203-206 | The downward loop removes exactly the matching keys although the storage shifts under it. |
| `AccountSession.ClearRecentSearches` | apps/agent/lib/recent-searches.ts:198-207 | Removes one tenant's searches, or the plain ones with those of every tenant, and nothing else. |
| `AccountSession.ClearAccountSession` | apps/agent/lib/recent-searches.ts:219-230 | Removes exactly the account's keys and leaves every other key with its value. |
| `AccountSession.OwnKeysAreCleared` | apps/agent/lib/recent-searches.ts:40-42 | Everything an account keeps is among the cleared keys, for every tenant. |
| `AccountSession.OtherSearches` | apps/agent/lib/recent-searches.ts:202-206 | A search key of another account, plain or of a tenant, is taken exactly when it reads as this account's plain key or as one of its tenants. |
| `AccountSession.OtherMarkups` | apps/agent/lib/client-markup.ts:41 | A markup key of another account is taken exactly when it ends in a colon and this id. |
| `AccountSession.TenantKeysDiffer` | apps/agent/lib/recent-searches.ts:40-42 | Two tenants of an account never share a search key. |
| `AccountSession.LeavesAloneIff` | apps/agent/lib/recent-searches.ts:219-230 | Over all tenants, clearing one account leaves every key of another alone iff neither id after a colon ends the other so, the other id followed by .tenant. does not begin with this one so followed, and where it is the other way round what this one has more is never written for a tenant. |
| `AccountSession.UnescapedIdsMeetIff` | apps/agent/lib/recent-searches.ts:40-42 | For an id in which encodeURIComponent escapes nothing the search keys meet iff one id followed by .tenant. begins the other so followed. |
| `AccountSession.SpacedIdsDoNotMeet` | apps/agent/lib/recent-searches.ts:40-42 | Two ids, one with a space, that are nested so but whose search keys never meet. |
| `UriText.DecodedOfEncoded` | apps/agent/lib/recent-searches.ts:41 | A tenant id as encodeURIComponent writes it reads back as the id. |
| `AccountSession.PlainIdsAreLeftAlone` | apps/agent/lib/recent-searches.ts:219-230 | Between ids without dots and colons no other account loses a key. |
| `AccountSession.LongerIdsCollide` | apps/agent/lib/recent-searches.ts:202-206 | An account whose id begins with the cleared id and .tenant. loses its plain searches. |
| `AccountSession.ShorterIdsCollide` | apps/agent/lib/recent-searches.ts:202-206 | An account with a shorter id loses the searches of a tenant with a dotted id. |
| `AccountSession.ColonIdsCollide` | apps/agent/lib/recent-searches.ts:219-230 | An account whose id ends in a colon and the cleared id loses its markup. |
| `RecentSearches.RememberRecentSearch` | apps/agent/lib/recent-searches.ts:188-196 | The stored list after remembering a search, and no other key touched. |
| `RecentSearches.DeleteRecentSearch` | apps/agent/lib/recent-searches.ts:181-186 | The stored list after deleting a search; an empty list removes the key. |
| `RecentSearches.StoredReadsBack` | apps/agent/lib/recent-searches.ts:124-179 | An accepted search is stored as a valid entry that reads back unchanged. |
| `RecentSearches.StoredKeepsIdentity` | apps/agent/lib/recent-searches.ts:97-118 | Storing does not change the identity. |
| `RecentSearches.EveryRun` | apps/agent/lib/recent-searches.ts:124-196 | After any mix of remembers and deletes the list read is a prefix of the unbounded history, in recency order, distinct, at most eight. |
| `RecentSearches.RememberedAreTheNewest` | apps/agent/lib/recent-searches.ts:188-196 | Without deletes it is exactly the first eight of that history. |
| `RecentSearches.RecentIsFirstEightDistinct` | apps/agent/lib/recent-searches.ts:188-196 | So it is the first eight of everything remembered, newest first, deduplicated by identity. |
| `RecentSearches.DeleteRemovesIt` | apps/agent/lib/recent-searches.ts:181-186 | Deleting with the search that was remembered removes it. |
| `Amendment.ValidateAmendmentProposal` | packages/contracts/src/booking-amendment.ts:69-129 | Accepted, with the canonical proposal, iff the input obeys every rule and changes something; nothing-would-change is the only issue of a good input and of no other. |
| `AmendmentLaws.RevalidationChangesNothing` | packages/contracts/src/booking-amendment.ts:69-129 | Validating an accepted proposal again gives the same proposal and changes. |
| `AmendmentLaws.SoundReadsBack` | packages/contracts/src/booking-amendment.ts:99-123 | Any sound proposal is accepted as input; only its rooms are put in order. |
| `AmendmentLaws.ListingOrderDoesNotMatter` | packages/contracts/src/booking-amendment.ts:103-121 | Permuting rooms, fields, or any room's ages gives the same proposal. |
| `AmendmentLaws.SecondApplicationChangesNothing` | packages/contracts/src/booking-amendment.ts:125-128 | Against the booking it produced, on whatever later day, a proposal is refused, and only because nothing would change. |
| `AmendmentLaws.OtherRoomsAreKept` | apps/api/src/booking-ops/booking-amendment.ts:155-157 | Rooms that are not listed, and the order of rooms, are left alone. |
| `AmendmentLaws.AppliedDates` | apps/api/src/booking-ops/booking-amendment.ts:142-151 | The amended stay is real and has the nights the validator reported. |
| `AmendmentMoney.ValidateApproval` | packages/contracts/src/booking-amendment.ts:133-157 | Accepted iff the sell is positive, a given net is no larger, and a given deadline is readable. |
| `AmendmentMoney.BuildApproval` | apps/admin/lib/booking-amendment-ui.ts:55-67 | What was typed is recorded exactly, nothing rounded; a blank net is sent as unknown. |
| `AmendmentMoney.FactsAddUp` | packages/contracts/src/booking-amendment.ts:160-170 | Over any series of approvals the recorded differences add up to what the price moved, none is zero, and net and markup are both known and sum to the first price plus the differences, or both unknown. |
| `AmendmentMoney.DeadlineIsTheLastWord` | packages/contracts/src/booking-amendment.ts:172-176 | After any series of approvals the free-cancellation deadline is what the last one that spoke of it recorded, or unknown; an earlier one never comes back. |
| `AmendmentMoney.DifferenceIsExact` | packages/contracts/src/booking-amendment.ts:160-164 | The printed difference is the exact signed amount and its direction is its sign. |
| `AmendmentForm.BuildAmendmentProposal` | apps/admin/lib/booking-amendment-ui.ts:22-44 | Nothing to send iff no part of the form was edited; otherwise the canonical proposal of the edited parts, or errors. |
| `AmendmentFormLaws.SameAgesText` | apps/admin/lib/booking-amendment-ui.ts:32 | Printed age lists agree up to spacing exactly when the ages agree up to order. |
| `AmendmentFormLaws.ReadPrintedRoom` | apps/admin/lib/booking-amendment-ui.ts:30-37 | A printed room is skipped exactly when it is the booking's room, and otherwise reads back. |
| `AmendmentFormLaws.DiffThenPatch` | apps/admin/lib/booking-amendment-ui.ts:13-44 | For any reachable target the dialog finds nothing exactly when target equals booking; otherwise its proposal is accepted and applying it gives the target. |
| `Money.ParseIsExact` | apps/admin/lib/minor-units.ts:26-39 | The parser answers m iff the text is a decimal the currency can hold, m is exactly it, and m is a safe integer. |
| `Money.ParseOfPrinted` | apps/admin/lib/minor-units.ts:31-49 | A printed amount reads back iff it is a safe integer; above that nothing is read. |
| `Money.EditRoundTrip` | apps/admin/lib/minor-units.ts:41-49 | The editable text reads back as the same amount for every currency precision. |
| `Money.CommaGroups` | apps/admin/lib/minor-units.ts:14-24 | The grouped whole part has groups of three after a first of one to three. |
| `Money.MinorToMajorIsDecimal` | apps/admin/lib/booking-amendment-ui.ts:49-53 | Stripping the grouped display leaves the sign and the plain decimal. |
| `Money.GroupedRoundTrip` | apps/admin/lib/booking-amendment-ui.ts:49-53 | The stripped display parses back to the same amount. |
| `Money.SlicingAgreesWithDivision` | packages/contracts/src/booking-export.ts:24-34 | Slicing and dividing print the same decimal exactly without such leading zeros and negative zero, for every exponent. |
| `Money.ExportAgreesWithFormatter` | packages/contracts/src/booking-export.ts:21-34 | The same for the export's own exponent table. |
| `Money.PercentRoundTrip` | apps/admin/lib/promotions.ts:18-24 | The percent codec loses nothing below 100 percent and reads nothing from there on. |
| `Money.SignedPercentRoundTrip` | apps/admin/lib/derivation.ts:15-27 | The signed percent codec is exact up to 9999.99 percent either way. |
| `Money.SignedMoneyRoundTrip` | apps/admin/lib/derivation.ts:29-42 | A signed adjustment survives the editor exactly up to its limit. |
| `Csv.Fields` | apps/admin/lib/statement-csv.ts:8-23 | The character loop with its quote flag and skipped index computes the quote state machine. |
| `Csv.PrintedRowReadsBack` | packages/contracts/src/booking-export.ts:36-42 | Reading a comma-joined row of printed cells gives the cleaned, guarded, trimmed text of every cell, in order (RFC 4180 section 2). |
| `Csv.PlainRecordIsSplit` | apps/admin/lib/statement-csv.ts:8-23 | A record without quotes reads as a plain split, trimmed. |
| `Csv.CellIsOneLine` | packages/contracts/src/booking-export.ts:39 | No printed cell holds a carriage return or line feed. |
| `Csv.CellNeverRuns` | packages/contracts/src/booking-export.ts:40 | What a reader gets never starts a formula, with or without leading white space. |
| `Csv.KeptVerbatimIff` | packages/contracts/src/booking-export.ts:37-41 | A text is exported as it is iff it has no line break, no control character and would not run. |
| `BookingExport.BookingExportCsv` | packages/contracts/src/booking-export.ts:96-102 | The file is the mark, the header line and one printed line for each row, ended by CRLF; net columns only when the caller may see them. |
| `BookingExport.ExportReadsBack` | packages/contracts/src/booking-export.ts:96-102 | Read line by line the file is the table: one line more than rows, each with as many fields as columns, each field the cell's shown text. |
| `BookingExport.AmountsReadBack` | packages/contracts/src/booking-export.ts:36-42 | An exported amount reads back exactly when it is not negative, else behind an apostrophe. |
| `Statement.ParseStatementCsv` | apps/admin/lib/statement-csv.ts:30-54 | The row loop computes the lines of the accepted records and the problems of the others, after choosing the delimiter and checking the header. |
| `Statement.ReadRecord` | apps/admin/lib/statement-csv.ts:40-50 | A record is accepted iff it fits the header and is a good line; otherwise the first fault is reported. |
| `Statement.ProblemsNameRefusedRows` | apps/admin/lib/statement-csv.ts:39-51 | The problems name exactly the refused rows, in increasing order, and with the lines account for every row. |
| `Statement.EveryRowIsKept` | apps/admin/lib/statement-csv.ts:39-51 | Every row is exactly one line or one problem, at its place among its kind, with the amount as written. |
| `Statement.PasteIsConserved` | apps/admin/lib/statement-csv.ts:30-54 | Lines and row problems together are the data rows; the limit is the only other problem, reported iff over 5000 lines; all lines are good. |
| `StatementColumns.PasteIsTheTable` | apps/admin/lib/statement-csv.ts:31-36 | Reading the paste of a plain table, with commas or semicolons, is importing the table. |
| `StatementColumns.ColumnsMayMove` | apps/admin/lib/statement-csv.ts:34-43 | Moving the columns consistently leaves lines and problems unchanged, unless a wanted name stands twice. |
| `StatementColumns.OrderNeverMattersIff` | apps/admin/lib/statement-csv.ts:35 | For a header, column order never matters iff a wanted name is missing or each stands once. |
| `StatementTabs.TabPasteIsWhatIsSeen` | apps/admin/lib/statement-csv.ts:31-43 | Reading the paste of a plain table with tabs is importing its rows without the empty cells at their ends, blank rows skipped. |
| `StatementTabs.KeepsPlacesIff` | apps/admin/lib/statement-csv.ts:31-43 | Every column of such a row is read from its own place iff its first cell is filled or all are empty. |
| `StatementTabs.TabPasteIsTheTable` | apps/admin/lib/statement-csv.ts:31-43 | With the first column filled in every row and a named last column, the paste is the table, as with the other delimiters. |
| `PriceGridLaws.TrailingNewlineAddsNoRow` | apps/admin/lib/calendar-tools.ts:6-11 | A copied block with a final newline reads back whole, for every newline style. |
| `PriceGridLaws.BareBlockReadsBackIff` | apps/admin/lib/calendar-tools.ts:7-11 | Without it the block reads back iff its last row is not a dropped empty cell. |
| `PriceGrid.ApplyPaste` | apps/admin/lib/calendar-tools.ts:58-71 | The nested loops compute the pasted map. |
| `PriceGrid.PasteIsTheRectangle` | apps/admin/lib/calendar-tools.ts:58-71 | With distinct plans and dates every grid cell is the pasted value if the clipped rectangle covers it, and otherwise what it was. |
| `PriceGrid.PasteKeepsTheRest` | apps/admin/lib/calendar-tools.ts:58-71 | Without that condition too, no text outside the rectangle changes. |
| `PriceGrid.BuildGridEdit` | apps/admin/lib/calendar-tools.ts:30-56 | The edit is all rates of the grid's cells when there are 1 to 366, nothing otherwise; problems are listed once each, with the limit last. |
| `PriceGridLaws.CellIsClassifiedOnce` | apps/admin/lib/calendar-tools.ts:37-52 | A rate for a cell is sent iff the cell is priced and is then that cell's; a problem naming it is reported iff it is that cell's; untouched and unchanged cells give neither. |
| `PriceGridLaws.RatesAreOfDistinctCells` | apps/admin/lib/calendar-tools.ts:37-52 | No plan and date is sent twice. |
| `PriceGridLaws.RateIsTheTypedPrice` | apps/admin/lib/calendar-tools.ts:40-50 | A sent amount is positive and exactly the typed decimal, differs from the baseline text, and carries its version token. |
| `Deals.BuildTerms` | apps/admin/lib/hotel-deal-form.ts:60-116 | Exactly the faults of the draft are reported, and the terms are built iff there is none. |
| `DealLaws.LoadThenBuild` | apps/admin/lib/hotel-deal-form.ts:34-116 | For every deal within the form's limits, of all seven kinds, loading and building reports nothing and returns the deal. |
| `DealLaws.LoadsBackIff` | apps/admin/lib/hotel-deal-form.ts:34-116 | Loading terms and building again returns them without a fault exactly when they are within the form's limits. |
| `DealLaws.BuiltLoadsBackIff` | apps/admin/lib/hotel-deal-form.ts:34-116 | Build, load, build gives the same terms without a fault, iff a fixed amount names its currency by a code. |
| `DealApi.BuiltIsTakenIff` | apps/api/src/supply/deal-model.ts:68-181 | The service takes what the form built iff the nights and amounts are within its limits and the fields that the form does not check are as it wants them. |
| `DealApi.LongStayIsRefused` | apps/api/src/supply/deal-model.ts:117-118 | A stay of 400 nights for one paid night that the form builds from its own draft and the service refuses. |
| `DealApi.StoredLoadsBackIff` | apps/admin/lib/hotel-deal-form.ts:34-116 | Every deal the service keeps loads into the form and is built again as it is, iff it keeps no empty text as description or note. |
| `DealLaws.WordsOfJoined` | apps/admin/lib/hotel-deal-form.ts:51 | A printed word list reads back as the words. |
| `GuestPrices.BuildGuestPricesInput` | apps/admin/lib/guest-prices.ts:14-32 | Accepted iff every line is complete, at most one is an extra adult and no two child bands share an age; a shared age is always reported. |
| `GuestPrices.NeighboursSuffice` | apps/admin/lib/guest-prices.ts:29-30 | Sorted neighbours apart means all pairs apart, also among bands that end before they start. |
| `GuestPrices.NeighboursNecessary` | apps/admin/lib/guest-prices.ts:29-30 | Among proper bands the neighbour check reports nothing else. |
| `GuestPrices.AgeMatchesOneLine` | apps/admin/lib/guest-prices.ts:14-32 | In an accepted input an age matches at most one line, and no band passes 17. |
| `GuestPrices.LoadedLinesAreKept` | apps/admin/lib/guest-prices.ts:9-10 | Loading stored lines and building again gives the same lines. |
| `Calendar.EcmaDayFromYear` | apps/admin/lib/room-sales-paint.ts:41 | The day count of a year is the closed form of ECMA-262 section 21.4.1.3. |
| `Calendar.NextIsSuccessor` | apps/admin/lib/room-sales-paint.ts:41 | Consecutive calendar days have consecutive numbers, over months, leap days and years. |
| `Calendar.DayOrder` | apps/admin/lib/room-sales-paint.ts:35 | For real days, string order is day order. |
| `Calendar.InclusiveStayDates` | apps/admin/lib/room-sales-paint.ts:34-44 | The loop returns the days from the first to the last when there are at most 62, and nothing otherwise. |
| `Calendar.StayDatesAreTheRange` | apps/admin/lib/room-sales-paint.ts:34-44 | They are exactly the real days between the ends. |
| `Calendar.StayDatesAreConsecutive` | apps/admin/lib/room-sales-paint.ts:34-44 | Each is the calendar successor of the one before. |
| `StayCalendar.ParseIsReal` | apps/agent/lib/stay-calendar.ts:7-14 | Exactly the real days from year 100 on are read, as midnight UTC. |
| `StayCalendar.NightCountIsDistance` | apps/agent/lib/stay-calendar.ts:16-21 | Nights are counted iff both days are real and in order; the count is the calendar distance. |
| `StayCalendar.MonthGridIsTheMonth` | apps/agent/lib/stay-calendar.ts:33-44 | Whole Monday-first weeks of consecutive days, no more than needed, whose in-month cells are exactly the month's days. |
| `StayCalendar.PickIsTakenIff` | apps/agent/lib/stay-calendar.ts:46-60 | A check-out is taken iff it makes 1 to 30 real nights and is not past; only the picked end changes. |
| `RoomSalesPaint.PaintStroke` | apps/admin/lib/room-sales-paint.ts:65-81 | The loop over targets computes the stroke, records one undo step iff something changed, and extends the caller's stroke set. |
| `RoomSalesPaint.TouchAllCell` | apps/admin/lib/room-sales-paint.ts:65-81 | Every cell the stroke enters has the mode and cap; every other is exactly as it was. |
| `RoomSalesPaint.ChangedIff` | apps/admin/lib/room-sales-paint.ts:65-81 | A stroke counts as a change iff some entered cell did not already have mode and cap. |
| `RoomSalesPaint.FillIsExact` | apps/admin/lib/room-sales-paint.ts:83-93 | A fill sets exactly the selected rooms on the selected nights and no other cell. |
| `RoomSalesPaint.FillErrors` | apps/admin/lib/room-sales-paint.ts:83-93 | A fill is accepted or refused with each of its errors exactly when: painting blocked, then a range that is not 1 to 62 real days in order, then no room or night selected; a refused one changes nothing. |
| `RoomSalesPaint.FoundIffPresent` | apps/admin/lib/room-sales-paint.ts:65-81 | In a well-formed draft looking up a room and night finds a cell exactly when that cell is in the draft. |
| `RoomSalesPaint.EveryRun` | apps/admin/lib/room-sales-paint.ts:65-103 | Every run keeps cells unique, with a cap of 1 to 9999 exactly on limited cells, in the draft and in every undo snapshot. |
| `RoomSalesPaint.UndoTakesBack` | apps/admin/lib/room-sales-paint.ts:95-99 | A stroke is recorded iff it changes something, and one undo gives back cells, history and settings. |
| `RoomSalesPaint.UndoRestores` | apps/admin/lib/room-sales-paint.ts:95-99 | Undoing as often as the history grew restores the draft from before any series of strokes. |
| `Occupancy.BuildRoomStays` | apps/agent/lib/occupancy.ts:32-48 | Accepted iff there are 1 to 8 rooms within limits with every age chosen and the aggregate fits; else the first problem in room order. |
| `Occupancy.BuildRoster` | apps/agent/lib/checkout.ts:10-17 | The nested loops list the guests of the specification. |
| `Occupancy.RoomListsItsGuests` | apps/agent/lib/checkout.ts:10-17 | Each room lists exactly its adults, then its children with ages in order. |
| `Occupancy.RosterKeysDistinct` | apps/agent/lib/checkout.ts:10-17 | Guest keys are distinct. |
| `Occupancy.ExactlyOneLead` | apps/agent/lib/checkout.ts:19 | Exactly one guest is the lead. |
| `Occupancy.OccupancyIsConserved` | apps/agent/lib/occupancy.ts:32-69 | For accepted supported stays the roster built from the totals lists every room's own guests, and as many as the stays sum to. |
| `Occupancy.TotalsAccountForEveryGuest` | apps/agent/lib/occupancy.ts:42-47 | The limit refuses mixed rooms only; the totals are one room's for rooms alike and all rooms' otherwise, ages in room order; the roster from the totals has as many guests as were entered iff the rooms are alike. |
| `BookingColumns.NormalizeColumns` | apps/admin/lib/booking-ui.ts:102-112 | The filter with its seen set restores the known columns, once each, between the two fixed ones. |
| `BookingColumns.RestoredIsALayout` | apps/admin/lib/booking-ui.ts:102-112 | Whatever was stored, a layout is restored. |
| `BookingColumns.LayoutIsRestored` | apps/admin/lib/booking-ui.ts:102-112 | A stored layout is restored as it is. |
| `BookingColumns.EveryRun` | apps/admin/lib/booking-ui.ts:114-130 | Every run of moves and toggles keeps a layout: no column twice, Booking # first, Actions last. |
| `BookingColumns.MovingBackUndoes` | apps/admin/lib/booking-ui.ts:114-122 | An effective move is undone by the move back. |
| `BookingColumns.EveryOrderIsReachable` | apps/admin/lib/booking-ui.ts:114-122 | Any order of the same columns is reached by moves alone. |

## Left out

Assumptions of the models:

- A throw in the search handler comes before its reply is written or when the search is remembered; a sign-in that leaves for its return path is a login without an identity.
- React: state that a handler reads is the state of its render, and every event is handled after the last one was rendered; a portal belongs to one tenant; toasts, effects and rendering are not modelled.
- Form criteria: `handleSearch` starts from criteria that were already checked, and a sort whose criteria are refused is only an edit; the criteria rules themselves are not modelled.
- `Intl`: the number of fraction digits of a currency is a parameter, for every value.
- `JSON.parse` and `JSON.stringify` are taken as inverse on stored lists; a stored value is a list of records or unreadable, and records are modelled with the fields the source names.
- `encodeURIComponent` throws on lone surrogates, which are no characters here; the getters behind identifier resolution in the analyser are a parameter.
- Letter case is that of ASCII letters; characters are code points, not UTF-16 units.
- Dates lie in four-digit years, and impossible calendar days passed as strings are excluded, because engines differ on them; the business day `today` is a parameter.
- Weekday numbers of a deal are 0 to 6, where sorting as text is sorting as numbers.
- Object keys: maps are keyed by their texts; names inherited from `Object.prototype` are not modelled.
- The key of a grid problem is its plan, date and message; ids and dates that contain the separator are not distinguished further.
- In an amendment form the position numbers of rooms are whole numbers and room labels are not modelled.

Not modelled:

- `applyOverride`, filters and the URL state of the portal, and the calls that fetch: only replies as events.
- Raw-SQL, unscoped-client and create-data findings of the analyser, and its file walking.
- `buildPromotionsInput`, `buildDerivationInput`, `headerAmendment`, `rosterErrors`, `parseCcEmails` and the listing helpers: field-by-field checks without a property across functions.
- `issuesToCsv`: a second, simpler CSV printer.
- `shiftMonth`, `monthLabel`, summaries, previews, labels and messages: texts for people.
- `openAmendment`, ledger checks and the database writes around an approved amendment: only what the booking becomes is modelled.
- The service's own list of faults of a deal, and how it stores one: only which deals it takes, and the form in which it keeps them.
- `buildCreateInput` and `buildReplaceInput` of deals: they drop the empty fields of the built terms.
- `clearPaintMode`, owner, deadline and reason texts of the paint draft, beyond what blocks painting.
