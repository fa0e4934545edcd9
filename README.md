# Conversation sync core of a desktop chat client

This project models, in Dafny, the parts of the chat client that write local
state. There are three pieces.

- **Identity and parsing helpers** (`src/utils/util.js`), in `util.dfy` (module
  `Util`) and `orientation.dfy` (module `Orientation`):
  - `generateConversationId` derives the id of a direct conversation. It orders
    the two user ids lexicographically, character by character, and takes the MD5 of the
    smaller id followed by the larger. It then stamps version 3 (section 4.1.3
    of RFC 4122) and the variant bits `10` (section 4.1.1 of RFC 4122) and
    prints the result in the 8-4-4-4-12 layout of section 3 of RFC 4122.
  - `hexToBytes` is the hex decoder, with `parseInt(…, 16)` written out.
  - `getOrientation` is the JPEG/Exif walk, with the loop structure of the
    source. It reads DataView values that throw a RangeError past the end.
  - `toArrayBuffer` is the byte copy.
- **The sync worker** (`src/workers/base_worker.js`), in `worker.dfy` (module
  `Workers`). The class `BaseWorker` has `syncConversation`,
  `refreshConversation`, `refreshParticipants`, `fetchUsers` and `syncUser`.
  Each is a method on the local store, proved against a specification
  function on the store's tables.
- **User actions** (`src/store/actions.js`), in `actions.dfy` (module
  `Actions`). These are `updateRemoteMessageStatus`, `markRead` and the
  actions `createUserConversation`, `createGroupConversation`, `markRead`,
  `pinTop`, `conversationClear` and `sendMessage`.

`store.dfy` (module `Store`) holds the record types and the class
`LocalStore`. Its fields are the conversation, participant, user, message and
job tables, plus two logs:

- `events`: the store commits and dispatches the core issues;
- `calls`: the server requests it makes.

Each data-access call that writes becomes one `LocalStore` method, which
states its new state outright. Three reads are direct field reads in the
methods: `getConversationById`, `getParticipants` and `findUserById`. The
fourth, `getConversationByUserId`, is a choice among the matching rows.
`base.dfy` holds `Option`.

Server responses are function parameters: `Remote`, and the `server` function
of `createGroupConversation`. The signed-in account, the clock value, the uuid
source and the MD5 function are parameters too.

## Model

| member | source | states |
|---|---|---|
| Util.LexLessTrichotomy | src/utils/util.js:11 | the string order of `>` (by code point) is irreflexive, asymmetric and total on distinct strings |
| Util.LexLessTransitive | src/utils/util.js:11 | the same order is transitive, so with the row above it is a strict total order |
| Util.CanonicalOrder | src/utils/util.js:10-13 | the pair holds exactly the two ids, and the first is not greater than the second |
| Util.CanonicalOrderSymmetric | src/utils/util.js:10-17 | swapping the two ids gives the same (min, max) pair, so hashing sees the same input |
| Util.StampVersion | src/utils/util.js:20-21 | byte 6 gets high nibble 3 and keeps its low nibble; byte 8 gets top bits `10` and keeps its low six bits; every other byte is unchanged |
| Util.VersionNibble | src/utils/util.js:20 | `(b & 0x0f) \| 0x30` has high nibble 3 and the low nibble of `b` |
| Util.VariantBits | src/utils/util.js:21 | `(b & 0x3f) \| 0x80` has top two bits `10` and the low six bits of `b` |
| Util.ToRadix16 | src/utils/util.js:23 | `toString(16)` of a number gives at least one digit, all lowercase hex |
| Util.SliceLast | src/utils/util.js:23 | `slice(-k)` keeps the last `k` characters, or the whole string when it is shorter |
| Util.RenderByte | src/utils/util.js:23 | the per-byte expression always yields exactly the two lowercase hex digits of the byte, high nibble first |
| Util.HexByteDigits | src/utils/util.js:23 | `'0' + toString(16)` then `slice(-2)` equals the two nibble digits, for all 256 byte values |
| Util.HexString | src/utils/util.js:23 | the joined rendering is twice as long as the bytes |
| Util.HexStringAt | src/utils/util.js:23 | character `k` of the rendering is the digit of nibble `k % 2` of byte `k / 2` |
| Util.HexStringIsLowerHex | src/utils/util.js:23 | every character of the rendering is a lowercase hex digit |
| Util.FormatUuid | src/utils/util.js:24-27 | the 8-4-4-4-12 layout of a 32-character digest is 36 characters long |
| Util.FormatUuidAt | src/utils/util.js:24-27 | positions 8, 13, 18 and 23 hold `-`; every other position holds the digest character it shows |
| Util.FormatUuidRemoveHyphens | src/utils/util.js:24-27 | removing the hyphens from the layout gives the digest back |
| Util.UuidLayout | src/utils/util.js:24-27 | a lowercase-hex digest formats as RFC 4122 text; positions 14 and 19 show digest characters 12 and 16 |
| Util.StampedDigits | src/utils/util.js:20-23 | a stamped digest renders version digit `3` at index 12 and a variant digit in `89ab` at index 16 |
| Util.StampedLayout | src/utils/util.js:20-27 | a stamped digest prints as well-formed RFC 4122 text with `3` at 14 and one of `89ab` at 19 |
| Util.GenerateConversationId | src/utils/util.js:6-28 | the id is 36 lowercase-hex characters with hyphens at 8, 13, 18, 23, version `3` at 14 and a variant digit at 19 |
| Util.GenerateConversationIdSymmetric | src/utils/util.js:10-17 | `generateConversationId(a, b) == generateConversationId(b, a)` for every MD5 function |
| Util.GenerateConversationIdDigest | src/utils/util.js:18-27 | the id without hyphens is the hex rendering of the stamped MD5 digest of min followed by max |
| Util.TrimStart | src/utils/util.js:53 | `parseInt` skips leading white space: the rest is empty or starts with a non-space |
| Util.HexPrefix | src/utils/util.js:53 | the longest leading run of hex digits: a prefix of the input, all digits, followed by a non-digit or the end |
| Util.Substr | src/utils/util.js:53 | `substr(start, 2)` has length 2, or what is left of the string |
| Util.HexToBytes | src/utils/util.js:50-56 | the loop yields ⌈n/2⌉ values, value `i` being `parseInt` of the two characters at `2i` (one at the end of an odd input) |
| Util.ParseInt16 | src/utils/util.js:53 | `parseInt(s, 16)`: white space skipped, an optional sign and `0x`, then the longest run of hex digits, `NaN` without one; its meaning is given by Util.ParseTwoDigits and Util.ParseHexByte |
| Util.ParseTwoDigits | src/utils/util.js:53 | `parseInt` of two lowercase digits is `16 * hi + lo` |
| Util.ParseHexByte | src/utils/util.js:23 | `parseInt(·, 16)` of a byte's two-digit rendering is the byte |
| Util.HexStringChunk | src/utils/util.js:23 | characters `2i` and `2i + 1` of the rendering are byte `i`'s two digits |
| Util.HexToBytesInvertsHexString | src/utils/util.js:50-56 | decoding the rendering of any byte sequence gives as many values as bytes, each equal to its byte |
| Orientation.GetUint16 | src/utils/util.js:128 | a 16-bit read succeeds exactly when two bytes remain and gives a value below 2^16 |
| Orientation.GetUint32 | src/utils/util.js:140 | a 32-bit read succeeds exactly when four bytes remain and gives a value below 2^32 |
| Orientation.ScanEntries | src/utils/util.js:148-152 | a value found in the IFD is a 16-bit value |
| Orientation.ScanEntriesFindsFirst | src/utils/util.js:148-152 | a value found is the +8 field of the first entry tagged 0x0112; finding nothing means every entry was readable and had another tag |
| Orientation.ExifSegment | src/utils/util.js:139-147 | an IFD to scan lies at least 10 bytes past the segment's length field |
| Orientation.SegmentStep | src/utils/util.js:135-155 | the cursor always moves forward: the next segment and the IFD lie past the current offset |
| Orientation.SegmentStepScansExifIfd | src/utils/util.js:139-147 | an IFD is scanned only behind an APP1 segment with the `Exif` magic, in the byte order of the `II`/`MM` word |
| Orientation.Truncated | src/utils/util.js:125 | at most the first 64 KiB of the file is kept, and all of a shorter file |
| Orientation.WalkResultRange | src/utils/util.js:135-156 | a walk that does not throw returns -1 or a 16-bit value, never -2 |
| Orientation.Walk | src/utils/util.js:135-156 | the segment walk from an offset, rescanning from inside an IFD that lacks the tag; its meaning is given by Orientation.WalkResultRange, Orientation.WalkStops and Orientation.WalkFindsOrientationEntry |
| Orientation.OrientationNotJpeg | src/utils/util.js:128-130 | -2 exactly when the first word is not 0xFFD8; a file shorter than two bytes throws |
| Orientation.OrientationOf | src/utils/util.js:124-157 | -2 without SOI, else the walk from offset 2 over the first 64 KiB; stated by Orientation.OrientationNotJpeg and Orientation.WalkFindsOrientationEntry |
| Orientation.WalkStops | src/utils/util.js:135-156 | -1 when the offset has run off the end, when a word is not a marker, or when an APP1 segment lacks the `Exif` magic |
| Orientation.ScannedIfdGivesEntry | src/utils/util.js:139-152 | a value found in the IFD a segment asked for is the Orientation value of that Exif IFD |
| Orientation.WalkFindsOrientationEntry | src/utils/util.js:135-156 | every non-negative result is the value of the first Orientation entry of some Exif IFD at or after the start offset |
| Orientation.ToArrayBuffer | src/utils/util.js:159-166 | a fresh buffer holding exactly the bytes |
| Orientation.FindOrientationEntry | src/utils/util.js:148-152 | the `for` loop returns what the IFD scan specifies |
| Orientation.NextSegment | src/utils/util.js:135-155 | one pass of the `while` body takes the step the walk specifies |
| Orientation.ReadExifSegment | src/utils/util.js:139-147 | the APP1 branch with its running cursor gives the step the Exif segment specifies |
| Orientation.GetOrientation | src/utils/util.js:124-157 | the method's result, or its RangeError, is the one the walk specifies for the file's first 64 KiB |
| Store.PutParticipants | src/workers/base_worker.js:103 | after `insertAll` the keys are the old keys plus the rows' keys; unlisted keys keep their rows; listed keys hold one of the rows, under its own key |
| Store.PutParticipantsKeepsLast | src/workers/base_worker.js:103 | the last row with a given key is the one `insertAll` leaves stored under that key |
| Store.PutParticipantsKeysMatch | src/workers/base_worker.js:103 | inserting rows keeps every participant stored under its own key |
| Store.PutTwo | src/store/actions.js:64-77 | inserting two rows is two single updates, the second one last |
| Store.DropParticipants | src/workers/base_worker.js:110 | `deleteAll` removes exactly the conversation's rows for the given users and keeps every other row |
| Store.LocalIdsMember | src/workers/base_worker.js:78-81 | a user is among the conversation's local ids exactly when its key is stored |
| Store.Online | src/workers/base_worker.js:83-90 | the roster as participant rows: one per entry, in order, with its user, role and creation time |
| Store.PutUsers | src/workers/base_worker.js:121 | after `insertUsers` the ids are the old ids plus the users' ids; other users are unchanged |
| Store.PutUsersKeepsLast | src/workers/base_worker.js:121 | the last user the server sent with a given id is the row stored under that id |
| Store.PutUsersStoresSent | src/workers/base_worker.js:121 | the row stored under each id the server sent is that id's last user in the response, so it is a user the server sent, under its own id |
| Store.ApplyUpdate | src/workers/base_worker.js:63-72 | `updateConversation` keeps the set of conversations and every other row |
| Store.SetPinTime | src/store/actions.js:135-138 | the pin update keeps the set of conversations and every other row |
| Store.Unread | src/store/actions.js:12 | the unread messages found are exactly the conversation's delivered, unread ones |
| Store.UnreadAppend | src/store/actions.js:12 | the unread messages of two runs of rows are those of the first run followed by those of the second, so the result keeps table order |
| Store.UnreadSingle | src/store/actions.js:12 | a single row is found once when it is unread and not at all otherwise, so each unread message appears exactly once |
| Store.MarkMessagesRead | src/store/actions.js:15 | same length; each unread message of the conversation becomes that message with status READ; every other message is unchanged |
| Store.NothingUnread | src/store/actions.js:11-16 | with nothing unread, nothing is found and marking read changes nothing |
| Store.LocalStore.InsertConversation | src/workers/base_worker.js:37 | the row is stored under its id; nothing else changes |
| Store.LocalStore.InsertParticipants | src/workers/base_worker.js:103 | the participant table becomes `PutParticipants` of the rows; nothing else changes |
| Store.LocalStore.DeleteParticipants | src/workers/base_worker.js:110 | the participant table becomes `DropParticipants`; nothing else changes |
| Store.LocalStore.InsertUser | src/workers/base_worker.js:131 | the user is stored under its id; nothing else changes |
| Store.LocalStore.InsertUsers | src/workers/base_worker.js:121 | the user table becomes `PutUsers`; nothing else changes |
| Store.LocalStore.InsertJob | src/store/actions.js:20-31 | the job is appended to the outbox; nothing else changes |
| Store.LocalStore.UpdateConversation | src/workers/base_worker.js:63-72 | the conversation table becomes `ApplyUpdate`; nothing else changes |
| Store.LocalStore.UpdatePinTime | src/store/actions.js:135-138 | the conversation table becomes `SetPinTime`; nothing else changes |
| Store.LocalStore.DeleteConversation | src/store/actions.js:131 | the row is removed; nothing else changes |
| Store.LocalStore.FindUnread | src/store/actions.js:12 | returns the conversation's unread messages, in table order |
| Store.LocalStore.MarkRead | src/store/actions.js:15 | the messages become `MarkMessagesRead`; nothing else changes |
| Store.LocalStore.InsertMessage | src/store/actions.js:143 | the message is appended; nothing else changes |
| Store.LocalStore.Emit | src/store/actions.js:128 | the commit is appended to the event log; nothing else changes |
| Store.LocalStore.Request | src/workers/base_worker.js:46 | the request is appended to the call log; nothing else changes |
| Workers.Added | src/workers/base_worker.js:92-96 | `add` holds exactly the online rows whose user is not stored, and is no longer than the roster |
| Workers.AddedAppend | src/workers/base_worker.js:92-96 | filtering two runs of the roster gives the first run's new rows followed by the second's, so `add` keeps remote order |
| Workers.AddedSingle | src/workers/base_worker.js:92-96 | a single roster row is added once when its user is not stored and not at all otherwise |
| Workers.UserIdsOf | src/workers/base_worker.js:104-106 | the users to fetch are the added rows' user ids, in order |
| Workers.FetchUsersSpec | src/workers/base_worker.js:118-123 | one request for the ids; the users stored when the response has them; stated by Workers.FetchUsersEffect and Store.PutUsersStoresSent |
| Workers.SyncUserSpec | src/workers/base_worker.js:125-136 | cache hit or one request and an insert; stated by Workers.SyncUserEffect and Workers.SyncUserAgain |
| Workers.RefreshParticipantsSpec | src/workers/base_worker.js:77-116 | insert the added rows and fetch their users, delete the removed ids, announce a change; stated by Workers.RefreshParticipantsTables, Workers.RefreshParticipantsFetches, Workers.RefreshParticipantsAnnounces and Workers.RefreshParticipantsSettled |
| Workers.RefreshConversationSpec | src/workers/base_worker.js:45-76 | request, status, owner, update, reconciliation and owner lookup; stated by Workers.RefreshConversationRequests, Workers.RefreshConversationApplies and Workers.RefreshConversationIdempotent |
| Workers.SyncConversationSpec | src/workers/base_worker.js:13-43 | the self check, the START insert and the refreshes; stated by Workers.SyncConversationRequests and Workers.SyncConversationNew |
| Workers.LastOtherIsLastOther | src/workers/base_worker.js:57-61 | the loop's owner is the fallback when every participant is the account, and otherwise the last participant, in list order, who is not |
| Workers.OwnerOfRule | src/workers/base_worker.js:55-62 | any category but CONTACT is owned by `creator_id`; a CONTACT conversation by its last non-account participant in list order, falling back to `creator_id` |
| Workers.FetchUsersEffect | src/workers/base_worker.js:118-123 | `fetchUsers` makes exactly one request for the given ids and touches only the user table |
| Workers.SyncUserEffect | src/workers/base_worker.js:125-136 | a stored user is returned with no request and no change; otherwise one request is made and the user is stored only if the server sent one |
| Workers.SyncUserAgain | src/workers/base_worker.js:125-136 | syncing the same user again leaves the user table as it is |
| Workers.AddedIds | src/workers/base_worker.js:92-96 | the added keys and the fetched ids are exactly the roster users not stored locally |
| Workers.RemovedIds | src/workers/base_worker.js:97-101 | `remove` is exactly the stored ids minus the roster ids |
| Workers.AddedNonEmpty | src/workers/base_worker.js:102 | rows are added exactly when some roster user is not stored |
| Workers.AddedListsNew | src/workers/base_worker.js:92-96 | every roster entry whose user is not stored gets an added row |
| Workers.AddedFromRoster | src/workers/base_worker.js:92-96 | every added row is made from a roster entry |
| Workers.PutAddedTakesListed | src/workers/base_worker.js:102-103 | after inserting the added rows, each new user is stored with a row made from its roster entry |
| Workers.ReconcileKeepsStored | src/workers/base_worker.js:92-111 | participants stored and still listed keep their row, role included |
| Workers.ReconcileTakesListed | src/workers/base_worker.js:92-111 | a listed user that was not stored ends up with a row made from its roster entry |
| Workers.ReconcileKeepsOthers | src/workers/base_worker.js:103-110 | rows of other conversations are untouched |
| Workers.ReconcileDropsUnlisted | src/workers/base_worker.js:97-111 | a user the roster does not list is no participant afterwards |
| Workers.ReconcileMatchesRoster | src/workers/base_worker.js:92-111 | afterwards the conversation's local participant ids are exactly the roster's ids |
| Workers.Reconcile | src/workers/base_worker.js:92-111 | the participant table after the diff is applied; stated by Workers.ReconcileMatchesRoster, Workers.ReconcileKeepsStored, Workers.ReconcileTakesListed, Workers.ReconcileDropsUnlisted and Workers.ReconcileKeepsOthers |
| Workers.RefreshParticipantsTables | src/workers/base_worker.js:77-116 | the participant table becomes the reconciled one; conversations, messages, jobs and conversation requests are unchanged |
| Workers.RefreshParticipantsFetches | src/workers/base_worker.js:102-108 | users are fetched exactly when some roster user is not stored, and then exactly the added ids |
| Workers.RefreshParticipantsAnnounces | src/workers/base_worker.js:113-115 | the participants-changed dispatch happens exactly when the stored id set differed from the roster |
| Workers.RefreshParticipantsSettled | src/workers/base_worker.js:77-116 | a roster that already matches the stored ids changes nothing at all |
| Workers.RefreshConversationRequests | src/workers/base_worker.js:45-50 | one conversation request is made; without data, or with no participant list, the tables are unchanged; `completed` is false exactly in the second case |
| Workers.RefreshConversationApplies | src/workers/base_worker.js:47-75 | the row gets status SUCCESS iff the account is a participant (QUIT otherwise), the owner of the ownership rule, and the response's columns, others kept; the participants match the roster |
| Workers.RefreshSettledAgain | src/workers/base_worker.js:45-76 | a refresh that finds the row already holding the response's columns, the participants matching the roster and the owner synced changes no table |
| Workers.RefreshListedAgain | src/workers/base_worker.js:45-76 | a second refresh with a participant list leaves every table as the first one left it |
| Workers.RefreshConversationIdempotent | src/workers/base_worker.js:45-76 | refreshing twice against the same server changes no table after the first time |
| Workers.SyncConversationRequests | src/workers/base_worker.js:13-43 | the account's own id changes nothing; a new id is refreshed twice (once if the first refresh throws on a missing participant list; rejected requests are not modelled); a START row once; a SUCCESS or QUIT row not at all |
| Workers.SyncConversationNew | src/workers/base_worker.js:17-42 | a new conversation ends as one refresh of its fresh START row leaves it, given that both refreshes get the same snapshot; without data the row stays as created, owned by the event's user |
| Workers.FetchUsersKeys | src/workers/base_worker.js:118-123 | `fetchUsers` keeps every table keyed by its rows' own ids |
| Workers.SyncUserKeys | src/workers/base_worker.js:125-136 | `syncUser` keeps every table keyed by its rows' own ids |
| Workers.RefreshParticipantsKeys | src/workers/base_worker.js:77-116 | `refreshParticipants` keeps every table keyed by its rows' own ids |
| Workers.RefreshConversationKeys | src/workers/base_worker.js:45-76 | `refreshConversation` keeps every table keyed by its rows' own ids |
| Workers.SyncConversationKeys | src/workers/base_worker.js:13-43 | `syncConversation` keeps every table keyed by its rows' own ids |
| Workers.RosterRows | src/workers/base_worker.js:83-90 | the `forEach` loop builds the online rows of the roster |
| Workers.NewRows | src/workers/base_worker.js:92-96 | the filter loop builds exactly `add` |
| Workers.GoneIds | src/workers/base_worker.js:97-101 | the filter loop builds exactly `remove` |
| Workers.BaseWorker.SyncConversation | src/workers/base_worker.js:13-43 | the new tables and the completion flag are those `syncConversation` specifies |
| Workers.BaseWorker.RefreshConversation | src/workers/base_worker.js:45-76 | the new tables are those the refresh specifies, with the owner computed by the loop |
| Workers.BaseWorker.RefreshParticipants | src/workers/base_worker.js:77-116 | the new tables are those the reconciliation specifies |
| Workers.BaseWorker.FetchUsers | src/workers/base_worker.js:118-123 | the new tables are those `fetchUsers` specifies |
| Workers.BaseWorker.SyncUser | src/workers/base_worker.js:125-136 | the new tables and the returned user are those `syncUser` specifies |
| Actions.ReadJobs | src/store/actions.js:12-14 | one job per unread message, in order; each is a READ receipt for that message's id |
| Actions.MarkReadSpec | src/store/actions.js:11-16 | the READ jobs, then the messages marked read; stated by Actions.MarkReadQueuesReceipts, Actions.MarkReadCoversUnread and Actions.MarkReadIdempotent |
| Actions.MarkReadQueuesReceipts | src/store/actions.js:11-16 | the outbox grows by the unread count and keeps its old jobs; each new job is a READ receipt for an unread message of the conversation |
| Actions.MarkReadCoversUnread | src/store/actions.js:11-16 | every unread message of the conversation gets a READ receipt |
| Actions.MarkReadIdempotent | src/store/actions.js:11-16 | afterwards nothing is unread, and marking read again queues nothing and changes nothing |
| Actions.MarkReadKeys | src/store/actions.js:11-16 | `markRead` keeps every table keyed by its rows' own ids |
| Actions.UpdateRemoteMessageStatus | src/store/actions.js:18-32 | exactly one job is appended: `CREATE_SESSION_MESSAGE`, priority 5, run count 0, null references, payload `{message_id, status}`; nothing else changes |
| Actions.MarkRead | src/store/actions.js:11-16 | the loop's effect is what `markRead` specifies: the READ jobs, then the messages marked read |
| Actions.CreateUserConversationShown | src/store/actions.js:38-40 | a stored conversation with the peer that is also shown is only made current |
| Actions.CreateUserConversationSpec | src/store/actions.js:35-80 | lookup, then either only the current id or the START row, two participants and the current id; stated by Actions.CreateUserConversationShown, Actions.CreateUserConversationCreates and Actions.CreateUserConversationParticipants |
| Actions.CreateUserConversationCreates | src/store/actions.js:41-63 | otherwise one row is added under the symmetric derived id: owner the peer, CONTACT, START, unseen 0, no pin time; the rest is kept, then the row is made current |
| Actions.DirectParticipantIds | src/store/actions.js:64-77 | storing the two rows adds exactly the account and the peer to the conversation |
| Actions.CreateUserConversationParticipants | src/store/actions.js:64-78 | the new conversation gets exactly the account and the peer, both with empty role; other conversations' rows are untouched |
| Actions.CreateUserConversationKeys | src/store/actions.js:35-80 | every table stays keyed by its rows' own ids |
| Actions.CreateUserConversation | src/store/actions.js:35-80 | `found` is what the lookup by user returns, and the new tables are those the action specifies |
| Actions.CreateGroupConversationWithoutData | src/store/actions.js:82-83 | without response data only the request is recorded |
| Actions.CreateGroupConversationSpec | src/store/actions.js:81-118 | nothing without data, else the SUCCESS row, the roster and the current id; stated by Actions.CreateGroupConversationWithoutData, Actions.CreateGroupConversationStores and Actions.CreateGroupConversationParticipants |
| Actions.CreateGroupConversationStores | src/store/actions.js:83-116 | with data the row is stored with status SUCCESS, owner `creator_id`, its category and mute time, unseen 0, no pin time; other rows are kept; the new id is made current last |
| Actions.RosterRowStored | src/store/actions.js:104-113 | each listed user is stored under the conversation with a roster row, and with its own row when the roster has no repeated user |
| Actions.RosterIdsStored | src/store/actions.js:104-113 | storing a roster adds exactly the listed users |
| Actions.RosterKeepsOthers | src/store/actions.js:104-113 | storing a roster leaves other conversations' rows alone |
| Actions.CreateGroupConversationParticipants | src/store/actions.js:103-113 | exactly the listed users are added, each row mapped one-to-one from the response with its user, role and creation time |
| Actions.CreateGroupConversationKeepsOthers | src/store/actions.js:103-116 | other conversations' participants are untouched; the participants-changed commit comes before the current-conversation commit |
| Actions.CreateGroupConversationKeys | src/store/actions.js:81-118 | every table stays keyed by its rows' own ids |
| Actions.CreateGroupConversation | src/store/actions.js:81-118 | the new tables are those the action specifies |
| Actions.MarkReadAction | src/store/actions.js:126-129 | the effect of `markRead`, followed by the `refreshConversations` commit |
| Actions.PinTopSpec | src/store/actions.js:134-140 | the pin time becomes null when the shown pin time is truthy and the current time otherwise, so its truthiness flips; no other column or row changes; `refreshConversations` is committed |
| Actions.PinTopKeys | src/store/actions.js:134-140 | `pinTop` keeps every table keyed by its rows' own ids |
| Actions.PinTopThenUnpin | src/store/actions.js:134-140 | pinning an unpinned conversation and then unpinning it restores the conversation table |
| Actions.PinTop | src/store/actions.js:134-140 | the new tables are those `pinTop` specifies |
| Actions.ConversationClearSpec | src/store/actions.js:130-133 | exactly that conversation's row is removed, and the clear commit is recorded |
| Actions.ConversationClearKeys | src/store/actions.js:130-133 | `conversationClear` keeps every table keyed by its rows' own ids |
| Actions.ConversationClear | src/store/actions.js:130-133 | the new tables are those `conversationClear` specifies |
| Actions.SendMessageLeavesOnlyNew | src/store/actions.js:141-145 | the message is appended after marking read: the only unread message left is the new one, if it is itself unread; the READ jobs are `markRead`'s |
| Actions.SendMessageSpec | src/store/actions.js:141-145 | mark the conversation read, then store the message; stated by Actions.SendMessageLeavesOnlyNew |
| Actions.SendMessageKeys | src/store/actions.js:141-145 | `sendMessage` keeps every table keyed by its rows' own ids |
| Actions.SendMessage | src/store/actions.js:141-145 | the new tables are those `sendMessage` specifies |

## Left out

- MD5 (`crypto.createHash`, src/utils/util.js:15-18) is a parameter `string -> Digest`. Two `update` calls on min then max are modelled as one call on their concatenation.
- `fs.readFileSync` (src/utils/util.js:125) is file I/O. `getOrientation` takes the file's bytes.
- `getToken`, `readArrayBuffer`, `base64ToUint8Array`, `sendNotification` and `timeAgo` (src/utils/util.js) are not modelled. They rely on localStorage and an external signing library, FileReader, `window.atob`, the Notification UI, and the wall clock with `moment`.
- `refreshSticker` (src/workers/base_worker.js:138-143) is a thin API-to-DAO wrapper and is not modelled.
- `appDao.insert(user.app)` (src/workers/base_worker.js:132) writes a side table with no logic and is not modelled.
- Util.LexLess compares user ids by Unicode code point, but JavaScript's `>` at src/utils/util.js:11 compares UTF-16 code units. The two orders differ only when one string has a character above U+FFFF where the other has one in U+E000–U+FFFF. Then the ids would be hashed in the other order and give a different id. Lone surrogates cannot be represented. User ids are ASCII UUIDs, where the two orders agree.
- Workers.SyncConversationNew rests on `Remote` answering each request from its arguments alone. In the program the two refreshes of a new conversation (src/workers/base_worker.js:38 and :41) are separate requests that could get different snapshots; the model gives both the same one.
- A server request that rejects (a network or HTTP failure) is not modelled. `Remote` returning `None` means only that the response carried no data, and the refresh then completes. In the program the behaviour differs by request:
  - A rejected `conversationApi.getConversation` (src/workers/base_worker.js:46) makes `refreshConversation` reject before it writes anything. The `await` at line 38 then rethrows, so a new conversation gets one request, not the two Workers.SyncConversationRequests states.
  - A rejected `userApi.getUserById` (line 128, reached from line 74) rejects after the conversation update (lines 63-72) and the participant writes (line 73) are made. The model cannot express that partial write.
  - A rejected `userApi.getUsers` (line 119) is not awaited at line 107 and changes nothing.
- `async`/`await` is not modelled. Every method runs to its end before the next starts.
- The un-awaited `this.fetchUsers(...)` at src/workers/base_worker.js:107 is modelled as completing before the delete at line 110. Its interleaving with later steps is not modelled.
- Vuex `commit` and `store.dispatch` calls are recorded as `Event`s in a log. The mutations they trigger are not modelled.
- `saveAccount` and `insertUser` (src/store/actions.js:119-122, 153-155) upsert one user, `refreshFriends` (src/store/actions.js:149-152) upserts a list of users, `makeMessageStatus` (src/store/actions.js:156-160) rewrites one message's status, and `exitGroup` (src/store/actions.js:185-187) calls the server. None has logic of its own, and they are not modelled.
- The actions that only commit (`setCurrentConversation`, `init`, `search`, `searchClear`, `refreshParticipants`, `refreshMessage`, `exit`, `showTime`, `hideTime`, `setLinkStatus`) are not modelled.
- Ambient inputs are parameters:
  - the account read from localStorage is `account`/`me`;
  - `new Date().toISOString()` is one `now` per call;
  - `uuidv4()` is a function `uuid` from outbox position to id.
- `createUserConversation` calls `new Date()` three times, and the model uses one `now` for all three.
- `updateRemoteMessageStatus` calls `new Date()` once per job (src/store/actions.js:23, reached from line 13), so a `markRead` over several messages reads the clock several times. The model gives every job of one `markRead` the same `now`.
- The job payload `JSON.stringify({message_id, status})` is kept as a structured `BlazeMessage`, not as JSON text.
- The data-access layer is not part of this model. It is modelled with these semantics:
  - inserts replace the row with the same key;
  - `findUnreadMessage` returns the conversation's DELIVERED messages in table order;
  - `markRead` sets them to READ;
  - `updateConversation` and `updateConversationPinTimeById` only change an existing row;
  - `deleteConversation` deletes that row only;
  - `getConversationByUserId` finds a CONTACT row owned by the user (`found` reports which);
  - `insertTextMessage` stores the `Message` built from the payload.
- When a snapshot has no participant list, `conversation.participants.some` at src/workers/base_worker.js:50 throws a TypeError. This is modelled as a refresh that stops with `completed == false` and no table changed; the caller's rejection is that flag.
- Orientation.IsMarker tests `(marker & 0xff00) === 0xff00` arithmetically, as `marker / 256 == 255`.
- Util.HexToBytes counts and cuts its input by Unicode code point. JavaScript's `hex.length` and `hex.substr(c, 2)` at src/utils/util.js:52-53 count UTF-16 code units. The two agree on text with no character above U+FFFF, which includes all hex text. Other text is cut into different chunks: `"a\u{1F600}b"` gives two values in the model, but four code units and `[10, NaN]` in JavaScript. Util.Substr and Util.ParseInt16 work on code points in the same way.
- Util.HexString is built from the two-digit form `HexByte`. The source's per-byte expression is `Util.RenderByte`, proved equal to it for every byte.
- Actions.PinTopSpec requires a non-empty `now`, because `toISOString()` never returns an empty string.
- Actions.RosterRowStored states the stored row exactly only when the roster has no repeated user. With repeats, it states only that the row is one of that user's roster rows. Store.PutParticipantsKeepsLast shows that `insertAll` keeps the last of them.
