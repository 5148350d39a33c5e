# fastappcard member store, modelled in Dafny

fastappcard is a single-page app for a shop that tracks customers ("members")
and their vouchers. Each record holds the following:

- a name and a phone;
- a used flag, a voucher type (none, electronic, paper) and a VIP flag;
- a birthday month ("" or "1".."12");
- a note, an id and a creation time.

This project models the logic under the screens.

- **The record store** (`Store.MemberStore`) holds the member list and the
  store name. Its operations are:
  - add records, update and delete by id, clear everything;
  - import a JSON file;
  - merge a shared link;
  - produce a share link, with its length guard.

  Each method's new state is tied to a pure function of the old state, and
  the lemmas next to it prove what those functions promise.
- **The add dialog** (`AddMembers`):
  - The batch path walks the parsed candidates once. It keeps a set of phones
    already seen and a duplicate counter, which is the `for` loop of
    `DedupeCandidates`. The loop is proved against a prefix-recursive
    reference definition, and the outcome is then classified.
  - The single-record form adds a record or saves an edit, behind a
    duplicate-phone guard that depends on the mode.
- **The derived views**: the search filter, the active count, the current
  month, and the birthday list with its count. The birthday list is sorted
  with unused members first (`BirthdayList`). It is proved to equal the
  stable partition of its input.
- **The row handlers** (`MemberRow`): each builds a partial update that
  touches one field. The model also covers the month buttons and the badge
  rules.
- **Persistence**: a snapshot goes to a per-user cloud entry when someone is
  signed in, and to two local-storage keys otherwise.
- **The demonstration account service** (`MockBackend`): sign-in with any
  non-empty credentials, and per-account snapshots kept in browser storage.
  The app does not use it (App.tsx and components/LoginModal.tsx import the
  Supabase service instead), and `Store.Persistence` does not write to it.
- **The record types** and their tables (`Types`), plus the JavaScript string
  built-ins the rules depend on (`JsString`: `trim`, `toLowerCase`,
  `includes`, `Number#toString`).

### Inputs to the model

Outside effects are parameters:

- The text parser's answer for a batch is the `parsed` sequence.
- `confirm` answers are booleans.
- Generated ids and clock readings are the functions `freshId` and `clock`.
- A cloud save's success is a boolean.
- JSON parsing is a `Doc` value or `None`.
- JSON serialisation and URL compression are `encode`/`decode` functions.

### De-duplication scope

Phone de-duplication applies only to the batch path of the add dialog
(components/AddMembersModal.tsx:76-87). A file import (App.tsx:266-270) and a
shared-link merge (App.tsx:171-172) prepend whatever they receive.

### An unreachable message

The dialog's "無法解析有效資料" branch (components/AddMembersModal.tsx:113-114)
can never run. Every parsed candidate is either accepted or counted as a
duplicate, so a non-empty parse always produces one of the other two
messages. `AddMembers.SubmitBatch` proves that its outcome is never
`NothingValid`.

## Model

| member | source | states |
|---|---|---|
| Types.ParseVoucherType | types.ts:1-7 | only the three names NONE, ELECTRONIC and PAPER read back as a voucher type, each as the type of that name |
| Types.VoucherTypeNameRoundTrip | types.ts:1-7 | the name table and the reader are inverse, so the type has exactly three distinct values |
| Types.VoucherTypeLabel | types.ts:9-13 | every voucher type has a (non-empty) label |
| Types.VoucherTypeColor | types.ts:15-19 | every voucher type has a (non-empty) colour class |
| Types.TablesDistinguishTypes | types.ts:9-19 | both tables give different types different entries |
| Types.ApplyPatchLaws | App.tsx:202 | the object spread with an empty update is the identity, and spreading the same update twice equals spreading it once |
| Types.Stamp | App.tsx:193-197 | a stamped record is its draft plus exactly the given id and creation time |
| Types.ApplyPatch | App.tsx:202 | Object spread of an update over a record: the fields the update supplies replace the record's, the rest are kept; properties in Types.ApplyPatchLaws |
| JsString.TrimStartSpec | components/AddMembersModal.tsx:73 | leading trim removes a whitespace prefix and stops at the first non-whitespace character |
| JsString.TrimEndSpec | components/AddMembersModal.tsx:73 | trailing trim removes a whitespace suffix and stops at the last non-whitespace character |
| JsString.Trim | components/AddMembersModal.tsx:73 | definition of `trim` as leading then trailing whitespace removal; properties in JsString.TrimIsCore, JsString.TrimEmptyIff and JsString.TrimIdempotent |
| JsString.TrimIsCore | components/AddMembersModal.tsx:73 | `trim` returns a slice of the input with only whitespace around it, and it neither starts nor ends with whitespace |
| JsString.TrimEmptyIff | components/AddMembersModal.tsx:63 | a text trims to "" exactly when it is all whitespace |
| JsString.TrimIdempotent | components/AddMembersModal.tsx:73 | trimming twice is trimming once |
| JsString.LowerChar | App.tsx:298 | the result is never an ASCII capital; a capital becomes the lower-case letter at the same place in the alphabet; every other character is kept |
| JsString.ToLower | App.tsx:298 | the lowered text has the same length and no ASCII capital left, each character is lowered in place, and a text without capitals is returned unchanged |
| JsString.ToLowerIdempotent | App.tsx:298 | lowercasing twice is lowercasing once |
| JsString.Includes | App.tsx:298-299 | definition of `includes` as a contiguous occurrence; properties in JsString.IncludesBasics |
| JsString.IncludesBasics | App.tsx:298-299 | every string includes "" and itself, and nothing longer than itself |
| JsString.DigitChar | App.tsx:307 | a digit prints as the character with that digit's value |
| JsString.NatToString | App.tsx:307 | the decimal text of a number is non-empty, all digits, with no leading zero |
| JsString.NatToStringRoundTrip | App.tsx:307 | reading the decimal text back gives the number |
| JsString.NatToStringInjective | services/mockBackend.ts:26 | different numbers print differently |
| Seqs.Filter | App.tsx:219 | `filter` never lengthens a list |
| Seqs.FilterCons | App.tsx:219 | filtering a list with a given first element keeps that element exactly when it is accepted, followed by the filtered rest |
| Seqs.FilterMembers | App.tsx:219 | an element survives `filter` exactly when it is in the list and accepted |
| Seqs.FilterAllKept | App.tsx:308 | everything `filter` keeps is accepted |
| Seqs.FilterIsSubsequence | App.tsx:295-303 | `filter` keeps the relative order of what it keeps |
| Seqs.FilterKeepsAll | App.tsx:302 | when every element is accepted, `filter` is the identity |
| Seqs.FilterDropsAll | components/BirthdayModal.tsx:28-31 | when no element is accepted, `filter` gives [] |
| Seqs.FilterConcat | components/BirthdayModal.tsx:28-31 | `filter` distributes over concatenation |
| Seqs.FilterSplit | components/BirthdayModal.tsx:28 | a filter and its complement together hold exactly the input as a multiset |
| Seqs.FilterNarrows | App.tsx:308-309 | filtering by another test first leaves no more elements |
| Seqs.Count | App.tsx:305 | the count is at most the length, and zero exactly when no element is accepted |
| MemberRow.ToggleUsed | components/MemberRow.tsx:22 | the update is for this record's id, carries `isUsed` and nothing else, and flips it |
| MemberRow.ToggleVip | components/MemberRow.tsx:23 | the update is for this record's id, carries `isVip` and nothing else, and flips it |
| MemberRow.SetType | components/MemberRow.tsx:24 | the update is for this record's id, always carries `voucherType` and nothing else, and sets it, also when the type is unchanged |
| MemberRow.ChooseMonth | components/MemberRow.tsx:177 | the update always carries the month and nothing else; choosing a non-empty month selects it exactly when it was not already selected, and otherwise clears it |
| MemberRow.TogglesAreInvolutions | components/MemberRow.tsx:22-23 | flipping used or VIP twice restores the record |
| MemberRow.ChooseMonthTwice | components/MemberRow.tsx:177 | pressing the same month twice restores a month that was unset or that month, and clears any other month |
| MemberRow.Months | components/MemberRow.tsx:27 | the month buttons are "1" to "12" in order |
| MemberRow.ChooseMonthKeepsRange | types.ts:38 | a month button keeps `birthdayMonth` "" or one of "1".."12" |
| MemberRow.Badges | components/MemberRow.tsx:67-102 | a used record shows only the used badge; otherwise each set status shows its badge, a birthday badge only for the record's own month, and the placeholder shows, alone, exactly when no status is set; the badges come in row order (used, VIP, voucher type, birthday, placeholder), each at most once |
| BirthdayList.Insert | components/BirthdayModal.tsx:28-31 | one insertion step of the stable sort under the comparator; properties in BirthdayList.InsertUsed and BirthdayList.InsertUnused |
| BirthdayList.SortedMembers | components/BirthdayModal.tsx:28-31 | definition of the sorted copy; properties in BirthdayList.SortIsStablePartition and BirthdayList.BirthdayOrdering |
| BirthdayList.UnusedFirst | components/BirthdayModal.tsx:27 | reference order: the unused records, then the used ones, each in input order; the sort is proved equal to it in BirthdayList.SortIsStablePartition |
| BirthdayList.Compare | components/BirthdayModal.tsx:29-30 | the comparator is 0 for equal used flags, negative when only `b` is used, and positive when only `a` is used |
| BirthdayList.InsertUsed | components/BirthdayModal.tsx:29-30 | a used record inserted into an ordered list goes after every unused record and in front of the used ones |
| BirthdayList.InsertUnused | components/BirthdayModal.tsx:29-30 | an unused record is inserted at the front |
| BirthdayList.SortStepUsed | components/BirthdayModal.tsx:28-31 | inserting a used head into the ordering of the tail gives the ordering of the whole list |
| BirthdayList.SortStepUnused | components/BirthdayModal.tsx:28-31 | inserting an unused head into the ordering of the tail gives the ordering of the whole list |
| BirthdayList.SortIsStablePartition | components/BirthdayModal.tsx:28-31 | the sort gives the unused records in input order followed by the used records in input order |
| BirthdayList.SortIsPermutation | components/BirthdayModal.tsx:28 | the sorted list is a permutation of its input, of the same length, and empty exactly when the input is |
| BirthdayList.SortPutsUnusedFirst | components/BirthdayModal.tsx:29-30 | no used record comes before an unused one |
| BirthdayList.SortKeepsGroupOrder | components/BirthdayModal.tsx:29 | the unused group and the used group each keep their input order |
| BirthdayList.BirthdayOrdering | components/BirthdayModal.tsx:28-61 | the sorted list is a permutation of the input with the same count, empty exactly when the input is, with no used record before an unused one, and each group in input order |
| AddMembers.PhoneKey | components/AddMembersModal.tsx:73 | definition of the de-duplication key, the trimmed phone |
| AddMembers.ToDraft | components/AddMembersModal.tsx:90-98 | definition of the draft a kept candidate becomes; properties in AddMembers.AcceptedFields |
| AddMembers.Accepted | components/AddMembersModal.tsx:72-99 | reference definition of the accepted drafts; the loop is proved equal to it in AddMembers.DedupeCandidates, properties in AddMembers.KeptIndices, AddMembers.AcceptedKeysFresh and AddMembers.AllKeysCovered |
| AddMembers.Duplicates | components/AddMembersModal.tsx:72-99 | reference definition of the duplicate count; properties in AddMembers.CountIdentity and AddMembers.KnownKeysAllDuplicates |
| AddMembers.CountIdentity | components/AddMembersModal.tsx:72-99 | accepted plus duplicates equals the number of candidates |
| AddMembers.NoFilterAcceptsAll | components/AddMembersModal.tsx:76-89 | with filtering off there are no duplicates and every candidate becomes a draft, in order |
| AddMembers.KeptIndices | components/AddMembersModal.tsx:89-98 | the accepted drafts are the drafts of the candidates that are not dropped |
| AddMembers.KeptInOrder | components/AddMembersModal.tsx:72-99 | kept candidates appear in input order, and every candidate that is not dropped is kept |
| AddMembers.AcceptedFields | components/AddMembersModal.tsx:90-98 | each accepted draft has its candidate's name, untrimmed phone, month and note (both defaulting to ""), is unused, has no voucher type and is not VIP |
| AddMembers.AcceptedKeysFresh | components/AddMembersModal.tsx:76-89 | with filtering on, no accepted trimmed phone is among the existing ones and no two accepted drafts share one |
| AddMembers.DraftKeys | components/AddMembersModal.tsx:73 | the key list of some drafts: one key per draft, each its trimmed phone and already in trimmed form, so trimming it again changes nothing; used by AddMembers.AllKeysCovered |
| AddMembers.AllKeysCovered | components/AddMembersModal.tsx:76-89 | with filtering on, every key of the batch ends up either among the existing phones or among the accepted keys |
| AddMembers.KnownKeysAllDuplicates | components/AddMembersModal.tsx:76-81 | with filtering on, a batch of known keys adds nothing and counts every candidate as a duplicate |
| AddMembers.DedupeCandidates | components/AddMembersModal.tsx:68-99 | the loop computes the reference accepted list and duplicate count; accepted plus duplicates is the batch size; with the filter off nothing is a duplicate; with it on, accepted keys are new and pairwise distinct |
| AddMembers.SubmitBatch | components/AddMembersModal.tsx:62-120 | blank text is ignored exactly; an empty parse cannot be parsed; otherwise the accepted drafts are added when there are any, and otherwise every candidate is a duplicate; the "nothing valid" message never happens |
| AddMembers.TwoNewRecordsAdded | components/AddMembersModal.tsx:72-99 | two new distinct phones into an empty list: 2 accepted, 0 duplicates |
| AddMembers.DefaultFilter | components/AddMembersModal.tsx:42-55 | the duplicate check defaults to on when adding and off when editing |
| AddMembers.SubmitSingle | components/AddMembersModal.tsx:122-163 | a submit is refused exactly when the check is on and the phone is taken and, for an edit, changed; an edit otherwise passes exactly name, phone and note; an add passes one draft with default status |
| AddMembers.EditDefaultNeverRefused | components/AddMembersModal.tsx:42 | with the default setting an edit is never refused |
| Store.Stamped | App.tsx:192-197 | each new record is its draft with the `i`-th generated id and clock reading |
| Store.UpdateById | App.tsx:202 | definition of update by id; properties in Store.UpdateByIdLaws |
| Store.UpdateByIdLaws | App.tsx:201-203 | update keeps length and order, changes only the records with the id (to the spread of the update), does nothing for an unknown id or an empty update, and is idempotent |
| Store.ToggleUsedThroughStore | App.tsx:201-203 | tapping "used" through the store flips the tapped record and gives every record sharing its id the same new flag, changing nothing else |
| Store.DeleteById | App.tsx:219 | definition of delete by id; properties in Store.DeleteByIdLaws |
| Store.DeleteByIdLaws | App.tsx:218-220 | delete keeps exactly the records with another id, in order, and removes as many as carry the id |
| Store.Normalise | App.tsx:256-263 | the payload rule fails (throws) exactly on `null` |
| Store.NormaliseLaws | App.tsx:259-263 | normalising an exported document gives the snapshot back; a bare array has no store name; an object without a members array gives nothing |
| Store.ExportDoc | App.tsx:230 | the exported value holds the store name and the members; Store.NormaliseLaws reads it back |
| Store.KeepOrGenerateIds | App.tsx:266-269 | definition of the file import's ids; properties in Store.IdAssignmentLaws |
| Store.RegenerateIds | App.tsx:171 | definition of the shared link's ids; properties in Store.IdAssignmentLaws |
| Store.IdAssignmentLaws | App.tsx:266-269 | a file import changes only missing ids and keeps present ones; a list with all ids is imported unchanged; a shared-link merge replaces every id |
| Store.AdoptStoreName | App.tsx:271 | definition of the store-name rule; properties in Store.AdoptStoreNameLaws |
| Store.AdoptStoreNameLaws | App.tsx:271 | a non-empty current name is kept, an empty one becomes the incoming name, and adopting twice is adopting once |
| Store.ExportImportRoundTrip | App.tsx:229-278 | exporting a non-empty list whose records have ids and importing it into a fresh store imports every record and gives the same list and store name; an exported empty list is refused as a content mismatch |
| Store.SharedLinkStoreNameAsWritten | App.tsx:173 | the shared-link name rule as written, with the first render's name; exhibited by Store.SharedLinkOverwritesStoreName |
| Store.SharedLinkOverwritesStoreName | App.tsx:173 | the shared-link handler as written replaces a set store name "Shop A" with the link's "Shop B", which the adoption rule keeps |
| Store.MatchesTerm | App.tsx:296-302 | definition of the search test; properties in Store.SearchLaws |
| Store.FilteredMembers | App.tsx:295-303 | definition of the search result; properties in Store.SearchLaws |
| Store.SearchLaws | App.tsx:295-303 | search keeps order, shows all for an empty term, keeps exactly the matching records, and finds every record by its own phone and by its own name |
| Store.ActiveCount | App.tsx:305 | definition of the active count; properties in Store.CountLaws |
| Store.CurrentMonth | App.tsx:307 | the current month's text is the month button of that index, so it is a valid birthday month |
| Store.BirthdayMembers | App.tsx:308 | definition of this month's birthday records; properties in Store.CountLaws and Store.ParsedMonthOutsideRange |
| Store.ActiveBirthdayCount | App.tsx:309 | definition of the birthday badge count; properties in Store.CountLaws |
| Store.CountLaws | App.tsx:305-309 | birthday count ≤ active count ≤ list length; the active count is 0 exactly when every record is used; the birthday badge shows exactly when an unused record has its birthday this month |
| Store.ParsedMonthOutsideRange | components/AddMembersModal.tsx:96 | a parsed month "04" is stored as it is, lies outside the documented range of types.ts:38, and the record is in no month's birthday list |
| Store.ExistingPhoneNumbers | App.tsx:306 | definition of the phone set as written, the untrimmed stored phones; exhibited by Store.PaddedPhoneReimported |
| Store.ExistingPhoneKeys | App.tsx:306 | the corrected phone set, the trimmed stored phones; properties in Store.ReimportAllDuplicates |
| Store.TrimPadded | components/AddMembersModal.tsx:73 | a phone with a leading space trims to the bare number |
| Store.PaddedPhoneReimported | App.tsx:306 | with the untrimmed phone set, a batch phone with a leading space is accepted again after it was imported; with the trimmed set it is a duplicate |
| Store.ReimportAllDuplicates | components/AddMembersModal.tsx:72-99 | with the trimmed phone set, importing a batch a second time adds nothing and counts every record as a duplicate |
| Store.MemberStore.constructor | App.tsx:22-23 | the store starts with no records and no store name |
| Store.MemberStore.AddRecords | App.tsx:192-199 | the new records go in front of the old ones, which are kept in order; the store name is unchanged |
| Store.MemberStore.Update | App.tsx:201-203 | the list becomes the update by id of the old list |
| Store.MemberStore.Delete | App.tsx:218-220 | the list becomes the old list without the id |
| Store.MemberStore.ClearAll | App.tsx:222-227 | a confirmed clear empties list and name; a declined one changes nothing |
| Store.MemberStore.ImportFile | App.tsx:250-278 | a parse failure or `null` is a format error; an empty payload is a content mismatch; a decline changes nothing; a confirmed import prepends the payload with ids kept or generated and applies the adoption rule |
| Store.MemberStore.MergeSharedLink | App.tsx:150-185 | a readable, non-empty, confirmed link prepends its records with new ids and applies the adoption rule; anything else changes nothing |
| Store.MemberStore.ShareLink | App.tsx:280-293 | no records means nothing to share; otherwise the link is the page address with the encoded `{storeName, members}`, refused when longer than 8000 |
| Store.MemberStore.SubmitBatch | components/AddMembersModal.tsx:62-120 | against the stored trimmed phones: blank text is ignored exactly; an empty parse cannot be parsed; otherwise the accepted drafts with their duplicate count are added when there are any, and otherwise every candidate is a duplicate; "nothing valid" never happens; an addition prepends the stamped drafts, and anything else changes nothing |
| Store.MemberStore.SubmitSingle | App.tsx:205-211 | an edit updates the original record by id with the form's patch, an add prepends one record, a refusal changes nothing |
| Store.WriteLocal | App.tsx:102-103 | definition of the two guest writes; properties in Store.LocalRoundTrip |
| Store.LoadLocal | App.tsx:47-54 | definition of the guest load; properties in Store.LocalRoundTrip |
| Store.LocalRoundTrip | App.tsx:47-54 | a guest write is read back as written, touches no other key, and repeating it changes nothing |
| Store.Persistence.constructor | App.tsx:92-105 | the persistence targets start as given |
| Store.Persistence.Persist | App.tsx:92-105 | with a user the snapshot goes to that user's cloud entry (a failed save changes nothing) and local storage is untouched; without one both local keys are written and the cloud is untouched |
| MockBackend.CloudKey | services/mockBackend.ts:10-11 | an account's key is never one of the two guest-data keys it shares the browser storage with (App.tsx:12-13), and the username can be read back from it |
| MockBackend.CloudKeyInjective | services/mockBackend.ts:11 | different usernames have different keys |
| MockBackend.Login | services/mockBackend.ts:15-30 | a login is rejected exactly when the username or password is empty; otherwise the user has the given username and a token made from the time |
| MockBackend.Register | services/mockBackend.ts:33-35 | registering has exactly the login contract |
| MockBackend.LoginTokens | services/mockBackend.ts:24-27 | logins at different times get different tokens, and the password does not affect the result |
| MockBackend.FetchFrom | services/mockBackend.ts:38-56 | definition of a fetch; properties in MockBackend.SaveFetchLaws |
| MockBackend.SaveInto | services/mockBackend.ts:59-68 | definition of a save; properties in MockBackend.SaveFetchLaws |
| MockBackend.SaveFetchLaws | services/mockBackend.ts:38-68 | a save is fetched back as saved, leaves other users' data as it was, and is idempotent; a missing or unreadable entry fetches the empty snapshot |
| MockBackend.MockCloud.constructor | services/mockBackend.ts:10-11 | the account store starts with the given storage |
| MockBackend.MockCloud.FetchUserData | services/mockBackend.ts:38-56 | a fetch returns the saved snapshot, or the empty one for a missing or unreadable entry |
| MockBackend.MockCloud.SaveUserData | services/mockBackend.ts:59-68 | a save always succeeds and overwrites exactly this user's entry |

## Left out

- The text parser (services/geminiService.ts) calls a generative-AI service. Its answer is an input. The voucher parser `parseVoucherFromText` (services/geminiService.ts:91-93), with its fallback to the electronic type, is not on the batch path and is not modelled.
- JSON parsing and serialisation and the LZString URL compression are foreign libraries.
  - A parsed value is a `Doc`, and the app's serialisers are `encode` parameters.
  - MockBackend keeps the snapshot itself in its `Entry`, not its JSON text. MockBackend.SaveFetchLaws therefore takes for granted that serialising a snapshot and parsing the text gives the snapshot back (services/mockBackend.ts:45,63).
  - Records inside an imported file are taken to be well-formed members. A value that is not, for example a non-string store name, is not modelled.
- services/supabaseService.ts is the real cloud backend, and its remote behaviour cannot be seen. A cloud save is modelled as a write to a per-username entry with a success flag. Loading cloud data on sign-in (App.tsx:78-89) is not modelled.
- Timing is not modelled: the one-second debounce of persistence, the `setTimeout` delays, and the order in which asynchronous steps finish. Persistence is one direct write of a given snapshot. The race between the initial load and a shared-link merge is not modelled.
- Ids and timestamps come from oracle functions. No claim is made that ids are unique: a file import keeps the ids it finds, and these may collide.
- `confirm`, `alert`, the clipboard and `prompt` are booleans and outcome values. The clipboard's fallback prompt is not modelled.
- Export (App.tsx:229-243) is modelled only as the shape of its payload (`ExportDoc`). The file download and its file name are not.
- The logout reload (App.tsx:124-136) reads the same keys as the guest load, `Store.LoadLocal`. Its exception on unreadable stored text is not modelled.
- JsString.LowerChar: lowercases ASCII letters only. JavaScript's full Unicode case mapping is not modelled.
- JsString.ToLower: inherits LowerChar's ASCII-only lowering.
- Store.MatchesTerm: compares names through the ASCII-only ToLower. For example, the app finds the name "Élise" by the term "é", but the model does not.
- Store.SearchLaws: is stated over the same ASCII-only name comparison as Store.MatchesTerm.
- Store.MemberStore.ShareLink: measures the URL in code points. JavaScript counts UTF-16 code units; the two agree on the ASCII text that URL compression and a page address produce.
- Store.MemberStore.SubmitBatch: uses the trimmed phone set. The app passes the untrimmed one; see Findings.
- Store.MemberStore.MergeSharedLink: applies the store-name rule to the current name. The app tests a stale one; see Findings.
- The documented month range of types.ts:38 ("" or "1".."12") is kept only by the month buttons (MemberRow.ChooseMonthKeepsRange). The batch path copies the parser's month unchecked (components/AddMembersModal.tsx:96), and a file import or shared link copies records as they are. So a stored month such as "04" is possible. It never equals the current month's text, so the record never appears in the birthday list; Store.ParsedMonthOutsideRange exhibits this.
- The form's `required` check on name and phone is done by the browser and is not modelled. Rendering, modal and tab state, and the menu are UI.

## Findings

| source | as written | input that shows it | evidently intended | confidence | as-written member | corrected member |
|---|---|---|---|---|---|---|
| App.tsx:306 | the phone set given to the add dialog holds stored phones untrimmed, while the batch path looks up the trimmed phone (components/AddMembersModal.tsx:73-78) | import a batch with the phone " 0911000000", then import it again: the second import adds the record again | compare trimmed with trimmed, so a re-import finds every record | medium, not executed | Store.PaddedPhoneReimported | Store.ReimportAllDuplicates |
| App.tsx:173 | the shared-link handler is registered once (dependencies `[]`, App.tsx:185), so `!storeName` reads the first render's empty name | current store name "Shop A", link name "Shop B": the name becomes "Shop B" | adopt the link's name only when the current name is empty, as the file import does (App.tsx:271) | high, not executed | Store.SharedLinkOverwritesStoreName | Store.AdoptStoreNameLaws |
