/** The two tables of the gift exchange (users and gifts) and the queries the
    request handlers run against them, as pure functions over their rows. */
module Tables {

  datatype Option<T> = None | Some(value: T)

  type UserId = string

  /** A row of the gifts table. The timestamps (created_at, received_at) carry
      no logic and are left out. */
  datatype Gift = Gift(
    id: nat,
    imageUrl: string,
    message: Option<string>,
    userId: UserId,
    receivedBy: Option<UserId>)

  /** JavaScript truthiness of an optional form or JSON string field: absent
      and empty both count as missing. */
  predicate Given(field: Option<string>) {
    field.Some? && field.value != ""
  }

  /** A gift `u` may be handed: nobody has claimed it and `u` did not upload it. */
  predicate Eligible(g: Gift, u: UserId) {
    g.receivedBy.None? && g.userId != u
  }

  /** `user?.upload_count || 0`: a missing users row reads as zero uploads. */
  function UploadCount(users: map<UserId, nat>, u: UserId): nat {
    if u in users then users[u] else 0
  }

  /** The count of `select id from gifts where received_by = u`. */
  function Received(gifts: seq<Gift>, u: UserId): (n: nat)
    ensures n <= |gifts|
    ensures n == 0 <==> forall k :: 0 <= k < |gifts| ==> gifts[k].receivedBy != Some(u)
  {
    if gifts == [] then 0
    else
      var prefix, last := gifts[..|gifts| - 1], gifts[|gifts| - 1];
      assert forall k :: 0 <= k < |prefix| ==> prefix[k] == gifts[k];
      Received(prefix, u) + (if last.receivedBy == Some(u) then 1 else 0)
  }

  /** Remaining draws of `u`: uploads minus gifts already received. */
  function Remaining(users: map<UserId, nat>, gifts: seq<Gift>, u: UserId): (r: int)
    ensures r <= UploadCount(users, u)
    ensures r == UploadCount(users, u) <==> forall k :: 0 <= k < |gifts| ==> gifts[k].receivedBy != Some(u)
    ensures r >= UploadCount(users, u) - |gifts|
  {
    UploadCount(users, u) - Received(gifts, u)
  }

  /** `select * from gifts where received_by is null and user_id <> u`, in
      table order (the database promises no order; the handlers pick at random). */
  function Candidates(gifts: seq<Gift>, u: UserId): (c: seq<Gift>)
    ensures |c| <= |gifts|
    ensures forall g :: g in c <==> g in gifts && Eligible(g, u)
  {
    if gifts == [] then []
    else
      var prefix, last := gifts[..|gifts| - 1], gifts[|gifts| - 1];
      assert gifts == prefix + [last];
      Candidates(prefix, u) + (if Eligible(last, u) then [last] else [])
  }

  /** The rows after `update gifts set received_by = who where id = id`: every
      row with that id is marked received by `who`, no other row changes. The
      update is unconditional, as in the source: it does not test that the row
      is still unclaimed. */
  function Claim(gifts: seq<Gift>, id: nat, who: UserId): (r: seq<Gift>)
    ensures |r| == |gifts|
    ensures forall k :: 0 <= k < |gifts| && gifts[k].id != id ==> r[k] == gifts[k]
    ensures forall k :: 0 <= k < |gifts| && gifts[k].id == id ==>
              r[k] == gifts[k].(receivedBy := Some(who))
  {
    if gifts == [] then []
    else
      var prefix, last := gifts[..|gifts| - 1], gifts[|gifts| - 1];
      Claim(prefix, id, who) + [if last.id == id then last.(receivedBy := Some(who)) else last]
  }

  /** The users table after `upsert {id: u}`: a missing row is created with
      upload_count 0, an existing row keeps its count. */
  function Upserted(users: map<UserId, nat>, u: UserId): (r: map<UserId, nat>)
    ensures r.Keys == users.Keys + {u}
    ensures forall v :: UploadCount(r, v) == UploadCount(users, v)
  {
    if u in users then users else users[u := 0]
  }

  /** `message || null`: an absent or empty message is stored as null. */
  function MessageColumn(message: Option<string>): (m: Option<string>)
    ensures m.Some? <==> Given(message)
    ensures m.Some? ==> m == message
  {
    if Given(message) then message else None
  }

  /** Gift ids are issued by the store: all below `nextId` and pairwise distinct. */
  predicate IdsIssued(gifts: seq<Gift>, nextId: nat) {
    (forall k :: 0 <= k < |gifts| ==> gifts[k].id < nextId) &&
    (forall j, k :: 0 <= j < k < |gifts| ==> gifts[j].id != gifts[k].id)
  }

  /** No user has received a gift they uploaded. */
  predicate SelfExcluded(gifts: seq<Gift>) {
    forall k :: 0 <= k < |gifts| ==> gifts[k].receivedBy != Some(gifts[k].userId)
  }

  /** Quota conservation: no user has received more gifts than they uploaded,
      so the remaining draws of every user are at least zero. */
  ghost predicate Conserved(users: map<UserId, nat>, gifts: seq<Gift>) {
    forall u :: Received(gifts, u) <= UploadCount(users, u)
  }

  /** Once a gift is claimed its row never changes again, and no row goes away. */
  ghost predicate ClaimsKept(before: seq<Gift>, after: seq<Gift>) {
    |before| <= |after| &&
    forall k :: 0 <= k < |before| && before[k].receivedBy.Some? ==> after[k] == before[k]
  }

  /** No user's upload_count goes down. */
  ghost predicate CountsKept(before: map<UserId, nat>, after: map<UserId, nat>) {
    forall u :: UploadCount(before, u) <= UploadCount(after, u)
  }

  // ---------------------------------------------------------------------------
  // Lemmas about the queries

  /** The row the caller has just inserted can never be one of their candidates. */
  lemma {:induction false} CandidatesIgnoreOwnInsert(gifts: seq<Gift>, g: Gift)
    ensures Candidates(gifts + [g], g.userId) == Candidates(gifts, g.userId)
  {
    assert (gifts + [g])[..|gifts|] == gifts;
  }

  /** Appending a row adds one to the received count of its receiver only. */
  lemma {:induction false} ReceivedAppend(gifts: seq<Gift>, g: Gift, u: UserId)
    ensures Received(gifts + [g], u) == Received(gifts, u) + (if g.receivedBy == Some(u) then 1 else 0)
  {
    assert (gifts + [g])[..|gifts|] == gifts;
  }

  /** Claiming the one unclaimed row with a given id adds one to the claimant's
      received count and leaves every other user's count alone. */
  lemma {:induction false} ReceivedAfterClaim(gifts: seq<Gift>, k: nat, who: UserId, v: UserId)
    requires k < |gifts| && gifts[k].receivedBy.None?
    requires forall j :: 0 <= j < |gifts| && j != k ==> gifts[j].id != gifts[k].id
    ensures Received(Claim(gifts, gifts[k].id, who), v) == Received(gifts, v) + (if v == who then 1 else 0)
  {
    var n := |gifts|;
    var id := gifts[k].id;
    var prefix := gifts[..n - 1];
    var claimed := Claim(gifts, id, who);
    assert claimed[..n - 1] == Claim(prefix, id, who);
    if k == n - 1 {
      assert Claim(prefix, id, who) == prefix;
    } else {
      ReceivedAfterClaim(prefix, k, who, v);
    }
  }

  /** With distinct ids, the claim changes exactly one row: the chosen one. */
  lemma ClaimOne(gifts: seq<Gift>, k: nat, who: UserId)
    requires k < |gifts|
    requires forall j :: 0 <= j < |gifts| && j != k ==> gifts[j].id != gifts[k].id
    ensures Claim(gifts, gifts[k].id, who) == gifts[k := gifts[k].(receivedBy := Some(who))]
  {
  }

  /** Claiming an unclaimed gift for a user with draws left keeps quota conservation. */
  lemma ClaimConserves(users: map<UserId, nat>, gifts: seq<Gift>, k: nat, who: UserId)
    requires k < |gifts| && gifts[k].receivedBy.None?
    requires forall j :: 0 <= j < |gifts| && j != k ==> gifts[j].id != gifts[k].id
    ensures Remaining(users, gifts, who) > 0 && Conserved(users, gifts) ==>
              Conserved(users, Claim(gifts, gifts[k].id, who))
  {
    if Remaining(users, gifts, who) > 0 && Conserved(users, gifts) {
      forall v ensures Received(Claim(gifts, gifts[k].id, who), v) <= UploadCount(users, v) {
        ReceivedAfterClaim(gifts, k, who, v);
      }
    }
  }

  /** Inserting an unclaimed row keeps quota conservation. */
  lemma InsertConserves(users: map<UserId, nat>, gifts: seq<Gift>, g: Gift)
    requires g.receivedBy.None?
    ensures Conserved(users, gifts) ==> Conserved(users, gifts + [g])
  {
    if Conserved(users, gifts) {
      forall v ensures Received(gifts + [g], v) <= UploadCount(users, v) {
        ReceivedAppend(gifts, g, v);
      }
    }
  }

  /** The upsert changes no user's upload count, so it keeps every count and
      quota conservation. */
  lemma UpsertKeeps(users: map<UserId, nat>, gifts: seq<Gift>, u: UserId)
    ensures CountsKept(users, Upserted(users, u))
    ensures Remaining(Upserted(users, u), gifts, u) == Remaining(users, gifts, u)
    ensures Conserved(users, gifts) ==> Conserved(Upserted(users, u), gifts)
  {
  }

  lemma CountsKeptTransitive(a: map<UserId, nat>, b: map<UserId, nat>, c: map<UserId, nat>)
    requires CountsKept(a, b) && CountsKept(b, c)
    ensures CountsKept(a, c)
  {
  }

  /** Inserting an unclaimed row keeps every claimed row and self-exclusion. */
  lemma InsertKeeps(gifts: seq<Gift>, g: Gift)
    requires g.receivedBy.None?
    ensures ClaimsKept(gifts, gifts + [g])
    ensures SelfExcluded(gifts) ==> SelfExcluded(gifts + [g])
  {
  }

  /** Raising a user's upload_count by one gives them one more draw and keeps
      quota conservation. */
  lemma RaiseConserves(users: map<UserId, nat>, gifts: seq<Gift>, u: UserId)
    ensures Remaining(users[u := UploadCount(users, u) + 1], gifts, u) == Remaining(users, gifts, u) + 1
    ensures CountsKept(users, users[u := UploadCount(users, u) + 1])
    ensures Conserved(users, gifts) ==> Conserved(users[u := UploadCount(users, u) + 1], gifts)
  {
    var raised := users[u := UploadCount(users, u) + 1];
    assert forall v :: UploadCount(users, v) <= UploadCount(raised, v);
  }

  /** Claiming an unclaimed row for someone who did not upload it changes that
      row only, adds one to the claimant's received count, keeps every claimed
      row and self-exclusion, and keeps quota conservation when the claimant had
      draws left. */
  lemma ClaimEffect(users: map<UserId, nat>, gifts: seq<Gift>, k: nat, who: UserId)
    requires k < |gifts| && Eligible(gifts[k], who)
    requires forall j :: 0 <= j < |gifts| && j != k ==> gifts[j].id != gifts[k].id
    ensures Claim(gifts, gifts[k].id, who) == gifts[k := gifts[k].(receivedBy := Some(who))]
    ensures Received(Claim(gifts, gifts[k].id, who), who) == Received(gifts, who) + 1
    ensures ClaimsKept(gifts, Claim(gifts, gifts[k].id, who))
    ensures SelfExcluded(gifts) ==> SelfExcluded(Claim(gifts, gifts[k].id, who))
    ensures Remaining(users, gifts, who) > 0 && Conserved(users, gifts) ==>
              Conserved(users, Claim(gifts, gifts[k].id, who))
  {
    ClaimOne(gifts, k, who);
    ReceivedAfterClaim(gifts, k, who, who);
    ClaimConserves(users, gifts, k, who);
  }
}
