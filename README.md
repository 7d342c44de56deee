# GiftCycle gift allocation, modelled in Dafny

GiftCycle is a seasonal web application. An anonymous user, known only by a
client id, uploads an image ("gift") with an optional message. For each upload
they may draw one gift that someone else uploaded. This project models the two
server request handlers that hold the allocation rules, the upload handler and
the draw handler, and proves what they do to the database.

The hosted database becomes an in-memory `Store` with two tables:
- `users`: a map from client id to `upload_count`;
- `gifts`: a sequence of rows with `id`, `imageUrl`, `message`, `userId` and
  `receivedBy`.

Every write a handler sends is a `Store` method, and so is the upload
handler's bonus select. The draw handler's three reads (the users row, the
received count and the candidate select) are the `Tables` functions applied to
the store's fields. A write or the bonus select can fail, because that is
decided outside the program. Each of them therefore takes an `ok` outcome, and
the handler reacts to a failure as the source does:
- it inspects the error of the gift insert and of the draw's claim update;
- it ignores the error of the `upload_count` update, of the bonus select
  (which then reads as no row) and of the bonus claim;
- when the upsert fails, reading `user.upload_count` throws, and this happens
  after the gift has been inserted.

The image host is an `Option<string>` outcome: a URL, or a failure that throws.
`Math.random()` is a real `rand` in [0, 1).

Files:
- `tables.dfy` (module `Tables`): the gift row and the queries as pure
  functions: `Received`, `Remaining`, `Candidates`, `Claim` (the unguarded
  `update ... where id = ?`) and `Upserted`. It also holds the invariants:
  - `SelfExcluded`: nobody holds their own gift;
  - `Conserved`: nobody received more gifts than they uploaded;
  - `ClaimsKept`: a claimed row never changes again;
  - `CountsKept`: no `upload_count` goes down.
- `store.dfy` (module `Database`): class `Store`, with one method per write and
  one for the bonus select.
- `draw.dfy` (module `DrawRoute`): the draw handler `Post`.
- `upload.dfy` (module `UploadRoute`): the upload handler as written (`Post`),
  its corrected form (`PostGuarded`), and the witness of the finding below.
- `scenario.dfy` (module `Session`): a session that starts from an empty
  database and runs both handlers, one method per request.

Behaviour of the code worth knowing:
- The claim update has no `received_by is null` guard. No claim is retried when
  another request got there first.
- The server does not check the 200-character message limit.
- An image-host failure happens after the upsert, so it leaves a newly created
  user row behind.
- A failed upsert still leaves the inserted gift, with a 500 reply.
- When "a" and then "b" upload, b's upload takes a's gift as its bonus.
  `Session.TwoUsers` runs that session and then has "a" draw twice.
- A successful draw returns the gift row as it was selected, with `received_by`
  still null.

## Model

| member | source | states |
|---|---|---|
| `Tables.Given` | src/app/api/gifts/draw/route.ts:8 | A client id or message field counts as given only when it is present and not empty, as JavaScript truthiness treats it in the `!clientId` test and in the stored message column. |
| `Tables.UploadCount` | src/app/api/gifts/draw/route.ts:24 | The user's `upload_count`, or 0 when there is no users row. |
| `Tables.Remaining` | src/app/api/gifts/draw/route.ts:24 | Remaining draws are the upload count minus the gifts received. They are never more than the upload count and never less than the upload count minus the number of rows. They equal the upload count exactly when the user has received nothing. |
| `Tables.Received` | src/app/api/gifts/draw/route.ts:19-22 | The received count of a user is at most the number of rows. It is zero exactly when no row is received by that user. |
| `Tables.Candidates` | src/app/api/gifts/draw/route.ts:34-38 | A gift is a candidate for `u` if and only if it is in the table, unclaimed and not uploaded by `u`. There are no more candidates than rows. |
| `Tables.Claim` | src/app/api/gifts/draw/route.ts:62-68 | The update sets `received_by` on every row with the given id. Every other row is unchanged. The length is kept. There is no unclaimed guard. |
| `Tables.ClaimOne` | src/app/api/gifts/draw/route.ts:62-68 | When ids are distinct, the claim changes exactly one row, the chosen one, and changes only its `received_by`. |
| `Tables.ReceivedAfterClaim` | src/app/api/gifts/draw/route.ts:19-24 | Claiming the one unclaimed row with an id adds one to the claimant's received count. Every other user's count is unchanged. |
| `Tables.ClaimConserves` | src/app/api/gifts/draw/route.ts:24-28 | A claim for a user with draws left keeps every user's remaining draws at zero or more. |
| `Tables.ClaimEffect` | src/app/api/gifts/draw/route.ts:62-68 | An eligible claim changes only the chosen row and adds one to the claimant's received count. It keeps claimed rows, self-exclusion and, when draws were left, quota conservation. |
| `Tables.Upserted` | src/app/api/gifts/upload/route.ts:17-21 | After the upsert the caller's row exists. The other rows are unchanged, and every upload count, the existing row's included, is kept. |
| `Tables.UpsertKeeps` | src/app/api/gifts/upload/route.ts:17-21 | The upsert keeps every count, the caller's remaining draws and quota conservation. |
| `Tables.MessageColumn` | src/app/api/gifts/upload/route.ts:31 | The stored message is null exactly when the submitted one is absent or empty. Otherwise it is the submitted message. |
| `Tables.ReceivedAppend` | src/app/api/gifts/upload/route.ts:27-35 | Appending a row changes only its receiver's received count, by one. |
| `Tables.InsertConserves` | src/app/api/gifts/upload/route.ts:27-35 | Inserting an unclaimed row keeps quota conservation. |
| `Tables.InsertKeeps` | src/app/api/gifts/upload/route.ts:27-35 | Inserting an unclaimed row keeps every claimed row and self-exclusion. |
| `Tables.CandidatesIgnoreOwnInsert` | src/app/api/gifts/upload/route.ts:54-61 | The caller's just-inserted gift adds nothing to the caller's candidates, so the bonus can never pick it. |
| `Tables.RaiseConserves` | src/app/api/gifts/upload/route.ts:45-51 | Raising a count by one adds exactly one remaining draw and keeps counts and quota conservation. |
| `DrawRoute.PickIndex` | src/app/api/gifts/draw/route.ts:43-45 | `floor(rand * n)` with 0 <= rand < 1 and n > 0 is a valid index below n. |
| `DrawRoute.PickSurjective` | src/app/api/gifts/draw/route.ts:43-45 | Every index below `n` is picked by some random number in [0, 1), namely `i / n`, so every candidate can be drawn. |
| `DrawRoute.Post` | src/app/api/gifts/draw/route.ts:4-87 | An unparseable body gives 500 and a missing client id gives 400. Remaining draws of 0 or less give 403. No candidates give 404. A failed claim update gives 500. Every error leaves the store unchanged. On success the gift is the candidate at `floor(rand * n)`. Only that gift changes: it becomes received by the caller. `userGifts` is the upload count. `remainingDraws` is the earlier remaining minus 1. That value is at least 0 and equals a fresh recomputation. Users are never touched. Claimed rows, self-exclusion and quota conservation are kept. |
| `DrawRoute.DrawReply.Status` | src/app/api/gifts/draw/route.ts:8-86 | The status codes of the replies: 400, 403, 404, 500 for a failed claim and 500 for a thrown error. 200 is given exactly for a drawn gift, and 500 exactly for the two failure replies. |
| `Session.UploadA` | src/app/api/gifts/upload/route.ts:17-73 | "a" uploads into an empty database and gets the row with id 0 and no bonus. The users table becomes a:1. |
| `Session.UploadB` | src/app/api/gifts/upload/route.ts:54-73 | "b" then uploads, and takes a's gift as the bonus: a's row is now received by "b", and both users have count 1. |
| `Session.DrawA` | src/app/api/gifts/draw/route.ts:24-81 | "a", with one upload and nothing received, draws b's gift. The stats are (1, 0), and b's row becomes received by "a". |
| `Session.DrawAgain` | src/app/api/gifts/draw/route.ts:24-28 | The one draw of "a" is used, so a second draw is refused with 403 and changes no gift. |
| `Session.TwoUsers` | src/app/api/gifts/draw/route.ts:4-87 | The whole session from `Store.Empty()`: the first draw of "a" returns b's gift with stats (1, 0), and the second returns 403. |
| `Database.Store.Upsert` | src/app/api/gifts/upload/route.ts:17-21 | A successful upsert gives back the row's count, which is 0 for a new row, and leaves the table as `Upserted`. A failed one changes nothing and gives no row. |
| `Database.Store.Insert` | src/app/api/gifts/upload/route.ts:27-35 | A successful insert appends exactly one unclaimed row with a fresh id and gives it back. A failed one changes nothing. |
| `Database.Store.UpdateUploadCount` | src/app/api/gifts/upload/route.ts:45-51 | Sets the user's count when the update succeeds and the row exists. It reports failure and changes nothing otherwise. |
| `Database.Store.UpdateReceivedBy` | src/app/api/gifts/draw/route.ts:62-72 | On success the gifts table becomes `Claim(old, id, who)`. On error nothing changes and the failure is reported. |
| `Database.Store.Hand` | src/app/api/gifts/upload/route.ts:63-71 | For an eligible gift, on success exactly that row becomes received by the claimant, whose received count rises by one. The three invariants are kept. |
| `Database.Store.PickUnclaimedExcluding` | src/app/api/gifts/upload/route.ts:54-61 | Returns no row exactly when the select fails or there are no candidates. Otherwise it returns an unclaimed gift of the table that the caller did not upload. |
| `UploadRoute.UploadReply.Status` | src/app/api/gifts/upload/route.ts:12-78 | 400, 500 and 200. 200 is given exactly for an upload that went through. |
| `UploadRoute.Submitted` | src/app/api/gifts/upload/route.ts:12-14 | The form parsed, a file is present and the client id is given. A parsed form with no file or no client id is the 400 reply. |
| `UploadRoute.NewRow` | src/app/api/gifts/upload/route.ts:29-33 | The inserted row carries the image URL and the non-empty client id as its owner. It is unclaimed, and it has a message exactly when a non-empty one was submitted. |
| `UploadRoute.Record` | src/app/api/gifts/upload/route.ts:17-42 | The upsert step, then the image step, then the insert step. An image-host or insert failure leaves the gifts table unchanged. A successful insert appends exactly one unclaimed row owned by the caller. |
| `UploadRoute.CountUpload` | src/app/api/gifts/upload/route.ts:45-51 | The count becomes the upserted count plus one exactly when the update succeeds, giving one more remaining draw. |
| `UploadRoute.Contribute` | src/app/api/gifts/upload/route.ts:17-51 | The 500 paths and what each one leaves behind: the upserted row, or the inserted gift when the upsert failed. Otherwise it gives the new row and the caller's count, raised by one only if the update succeeded. |
| `UploadRoute.BonusClaim` | src/app/api/gifts/upload/route.ts:54-71 | No bonus exactly when the select fails or no candidate exists. Otherwise the bonus is one candidate, and when the update succeeds it alone becomes received by the caller. |
| `UploadRoute.Post` | src/app/api/gifts/upload/route.ts:5-79 | An unreadable form gives 500 and a missing file or client id gives 400, and both leave the store unchanged. The failures of the later steps leave exactly what the source leaves. On success one unclaimed row owned by the caller is added, and the caller's count rises by one when the update succeeds. The bonus claim is then made, and the bonus is never the gift just uploaded: it is a candidate of the table as it was before the upload. Remaining draws change by +increment − bonus. Claimed rows, self-exclusion and counts are kept. Quota conservation is kept when the count update succeeded. |
| `UploadRoute.PostGuarded` | src/app/api/gifts/upload/route.ts:45-71 | The same handler, but it checks the count update's error and skips the bonus when that update failed. Quota conservation is kept unconditionally. |
| `UploadRoute.OverdrawWitness` | src/app/api/gifts/upload/route.ts:45-71 | A run of the handler as written that takes a user from 0 to −1 remaining draws. |

## Findings

| source | as written | input that shows it | evidently intended | confidence | as-written member | corrected member |
|---|---|---|---|---|---|---|
| src/app/api/gifts/upload/route.ts:45-71 | The result of the `upload_count` update is never inspected, and the bonus claim runs regardless. | Two users: "b" has uploaded one unclaimed gift, "a" has uploaded nothing. "a" uploads, and the `upload_count` update returns an error. The bonus select succeeds and returns b's gift, the claim gives it to "a", and "a" is left with 0 − 1 = −1 remaining draws. | The bonus claim is made only once the upload has been counted, so remaining draws never go below zero. | medium, not executed | `UploadRoute.Post`, `UploadRoute.OverdrawWitness` | `UploadRoute.PostGuarded` |

## Left out

- Network calls: the hosted database client and the image-host request are
  replaced by the in-memory store and by outcome arguments. The request itself
  is not modelled, and neither is its bearer header.
- Failed reads: every select and count query except the bonus select is
  assumed to succeed. In the source, a failed read in the draw handler would
  read as no user row, as zero received gifts, or as no candidates. The
  quota-conservation ensures of `DrawRoute.Post` holds only under this
  assumption. `(receivedCount || 0)` turns a failed count read into zero
  received gifts. A user who has used every draw then gets remaining draws
  equal to their upload count, and can draw again.
- Concurrency: the handlers run one at a time. The race between the draw's
  select and its unguarded update is not modelled; `Tables.Claim` only records
  that the update has no guard.
- Floating point: `Math.random() * n` is computed over exact reals.
- The unclaimed-gift count query on the 404 path of the draw handler is left
  out, because its result is only logged.
- Logging: `console.log` calls are left out.
- Timestamps: `received_at`, `last_upload_at` and `created_at` carry no logic
  and are left out.
- File contents: only whether a file is present matters. The MIME check and
  the captcha run on the client.
- The 200-character message limit is enforced only by the form's text box, so
  it is not asserted.
- Field types: a `clientId` that is present but is not a string is not modelled.
  The id is an optional string, and an empty one counts as missing.
- Row order: the database returns candidate rows in an unspecified order, and
  the model uses table order. The pick is random over all candidates, so every
  candidate can still be drawn (`DrawRoute.PickSurjective`).
- Bonus query: the query orders by `random()` and takes one row. The database
  service may reject `order('random()')` as an ordering term. The
  `bonusSelectOk` outcome covers both cases: a rejected select reads as no row,
  and no bonus is handed out. When the select succeeds, the model assumes it
  returns one of the candidates whenever there is one, and no row otherwise.
- Identity, the HMAC helpers, the React pages and components, the tree layout
  and the notification store are outside the allocation logic.
