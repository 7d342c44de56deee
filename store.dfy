/** An in-memory stand-in for the hosted database: the users table (id to
    upload_count) and the gifts table, with one method per write the request
    handlers send and one for the upload handler's bonus select. A call may
    fail; whether it does is the caller's `ok` argument, since it is decided
    outside the program. The draw handler's reads are the `Tables` functions
    applied to the fields. */
module Database {
  import opened Tables

  class Store {
    var users: map<UserId, nat>
    var gifts: seq<Gift>
    var nextId: nat

    /** The database's own guarantee: gift ids are fresh primary keys. */
    ghost predicate Valid()
      reads this
    {
      IdsIssued(gifts, nextId)
    }

    constructor Empty()
      ensures Valid()
      ensures users == map[] && gifts == [] && nextId == 0
    {
      users, gifts, nextId := map[], [], 0;
    }

    /** A database already holding these rows. */
    constructor Loaded(users: map<UserId, nat>, gifts: seq<Gift>, nextId: nat)
      requires IdsIssued(gifts, nextId)
      ensures Valid()
      ensures this.users == users && this.gifts == gifts && this.nextId == nextId
    {
      this.users, this.gifts, this.nextId := users, gifts, nextId;
    }

    /** `upsert {id} ... select().single()`: make sure the user's row exists and
        read it back; a failed call changes nothing and gives no row. */
    method Upsert(id: UserId, ok: bool) returns (row: Option<nat>)
      modifies this
      ensures users == (if ok then Upserted(old(users), id) else old(users))
      ensures row == (if ok then Some(UploadCount(old(users), id)) else None)
      ensures gifts == old(gifts) && nextId == old(nextId)
    {
      if ok {
        users := Upserted(users, id);
        row := Some(users[id]);
      } else {
        row := None;
      }
    }

    /** `insert {image_url, message, user_id} ... select().single()`: add one
        unclaimed gift under a fresh id and give it back. */
    method Insert(imageUrl: string, message: Option<string>, owner: UserId, ok: bool)
      returns (row: Option<Gift>)
      requires Valid()
      modifies this
      ensures Valid()
      ensures row.Some? <==> ok
      ensures ok ==> row.value == Gift(old(nextId), imageUrl, message, owner, None)
      ensures gifts == (if ok then old(gifts) + [row.value] else old(gifts))
      ensures nextId == (if ok then old(nextId) + 1 else old(nextId))
      ensures users == old(users)
    {
      if ok {
        var g := Gift(nextId, imageUrl, message, owner, None);
        gifts, nextId := gifts + [g], nextId + 1;
        row := Some(g);
      } else {
        row := None;
      }
    }

    /** `update users set upload_count = count where id = id`; matches no row
        when the user has none. */
    method UpdateUploadCount(id: UserId, count: nat, ok: bool) returns (failed: bool)
      modifies this
      ensures failed == !ok
      ensures users == (if ok && id in old(users) then old(users)[id := count] else old(users))
      ensures gifts == old(gifts) && nextId == old(nextId)
    {
      failed := !ok;
      if ok && id in users {
        users := users[id := count];
      }
    }

    /** `update gifts set received_by = who where id = giftId`. */
    method UpdateReceivedBy(giftId: nat, who: UserId, ok: bool) returns (failed: bool)
      requires Valid()
      modifies this
      ensures Valid()
      ensures failed == !ok
      ensures gifts == (if ok then Claim(old(gifts), giftId, who) else old(gifts))
      ensures users == old(users) && nextId == old(nextId)
    {
      failed := !ok;
      if ok {
        gifts := Claim(gifts, giftId, who);
      }
    }

    /** The claim update of a handler, run for a gift picked from `who`'s
        candidates: on success exactly that gift becomes received by `who`. */
    method Hand(gift: Gift, who: UserId, ok: bool) returns (failed: bool)
      requires Valid()
      requires gift in gifts && Eligible(gift, who)
      modifies this
      ensures Valid()
      ensures failed == !ok
      ensures users == old(users) && nextId == old(nextId)
      ensures failed ==> gifts == old(gifts)
      ensures !failed ==>
                exists k :: 0 <= k < |old(gifts)| && old(gifts)[k] == gift &&
                  gifts == old(gifts)[k := gift.(receivedBy := Some(who))]
      ensures !failed ==> Received(gifts, who) == Received(old(gifts), who) + 1
      ensures ClaimsKept(old(gifts), gifts)
      ensures SelfExcluded(old(gifts)) ==> SelfExcluded(gifts)
      ensures Remaining(users, old(gifts), who) > 0 && Conserved(users, old(gifts)) ==>
                Conserved(users, gifts)
    {
      ghost var k :| 0 <= k < |gifts| && gifts[k] == gift;
      ClaimEffect(users, gifts, k, who);
      failed := UpdateReceivedBy(gift.id, who, ok);
    }

    /** `select ... where received_by is null and user_id <> u order by random
        limit 1 single()`: some gift `u` may be handed, or none when there is
        none or the select fails. */
    method PickUnclaimedExcluding(u: UserId, ok: bool) returns (row: Option<Gift>)
      ensures row.None? <==> !ok || Candidates(gifts, u) == []
      ensures row.Some? ==> row.value in gifts && Eligible(row.value, u)
    {
      var candidates := Candidates(gifts, u);
      if !ok || candidates == [] {
        row := None;
      } else {
        assert candidates[0] in candidates;
        var g :| g in candidates;
        row := Some(g);
      }
    }
  }
}
