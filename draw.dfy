/** The POST handler of the draw route: a user with draws left is handed one
    unclaimed gift of someone else, picked at random. */
module DrawRoute {
  import opened Tables
  import opened Database

  /** The JSON request body, or a body that does not parse. */
  datatype Body = Unparseable | Parsed(clientId: Option<string>)

  datatype DrawReply =
    | MissingClientId                                    // 400
    | NoRemainingDraws                                   // 403
    | NoAvailableGifts                                   // 404
    | ClaimFailed                                        // 500, the claim update errored
    | InternalError                                      // 500, an exception was thrown
    | Drawn(gift: Gift, userGifts: nat, remainingDraws: int)
  {
    function Status(): (s: nat)
      ensures s == 200 <==> this.Drawn?
      ensures s == 500 <==> this == ClaimFailed || this == InternalError
    {
      match this
      case MissingClientId => 400
      case NoRemainingDraws => 403
      case NoAvailableGifts => 404
      case ClaimFailed => 500
      case InternalError => 500
      case Drawn(_, _, _) => 200
    }
  }

  /** `Math.floor(Math.random() * n)` with the random number as an argument. */
  function PickIndex(rand: real, n: nat): (i: nat)
    requires 0.0 <= rand < 1.0 && 0 < n
    ensures i < n
  {
    var x := rand * n as real;
    assert 0.0 <= x < n as real by {
      assert rand * n as real < 1.0 * n as real;
    }
    x.Floor
  }

  /** Every candidate can be drawn: for each index below `n` some random
      number picks it. */
  lemma PickSurjective(n: nat, i: nat)
    requires i < n
    ensures 0.0 <= i as real / n as real < 1.0
    ensures PickIndex(i as real / n as real, n) == i
  {
    assert (i as real / n as real) * n as real == i as real;
  }

  /** The draw handler. `rand` is the value of Math.random(); `updateOk` says
      whether the claim update succeeds. */
  method Post(db: Store, body: Body, rand: real, updateOk: bool) returns (reply: DrawReply)
    requires db.Valid()
    requires 0.0 <= rand < 1.0
    modifies db
    ensures db.Valid()
    // a draw never touches the users table
    ensures db.users == old(db.users) && db.nextId == old(db.nextId)
    // every error path leaves the gifts table as it was
    ensures !reply.Drawn? ==> db.gifts == old(db.gifts)
    ensures reply == InternalError <==> body.Unparseable?
    ensures reply == MissingClientId <==> body.Parsed? && !Given(body.clientId)
    ensures body.Parsed? && Given(body.clientId) ==>
      var c := body.clientId.value;
      var remaining := Remaining(old(db.users), old(db.gifts), c);
      var candidates := Candidates(old(db.gifts), c);
      && (reply == NoRemainingDraws <==> remaining <= 0)
      && (reply == NoAvailableGifts <==> remaining > 0 && candidates == [])
      && (reply == ClaimFailed <==> remaining > 0 && candidates != [] && !updateOk)
      && (reply.Drawn? <==> remaining > 0 && candidates != [] && updateOk)
      && (reply.Drawn? ==>
            && reply.gift == candidates[PickIndex(rand, |candidates|)]
            && reply.gift.userId != c && reply.gift.receivedBy.None?
            // only the drawn gift changes, and it is now received by the caller
            && (exists k :: 0 <= k < |old(db.gifts)| && old(db.gifts)[k] == reply.gift &&
                 db.gifts == old(db.gifts)[k := reply.gift.(receivedBy := Some(c))])
            && reply.userGifts == UploadCount(old(db.users), c)
            && reply.remainingDraws == remaining - 1 >= 0
            && reply.remainingDraws == Remaining(db.users, db.gifts, c))
    ensures ClaimsKept(old(db.gifts), db.gifts)
    ensures SelfExcluded(old(db.gifts)) ==> SelfExcluded(db.gifts)
    ensures Conserved(old(db.users), old(db.gifts)) ==> Conserved(db.users, db.gifts)
  {
    if body.Unparseable? {
      return InternalError;
    }
    if !Given(body.clientId) {
      return MissingClientId;
    }
    var c := body.clientId.value;
    var userGifts := UploadCount(db.users, c);
    var remaining := userGifts - Received(db.gifts, c);
    if remaining <= 0 {
      return NoRemainingDraws;
    }
    var gifts := Candidates(db.gifts, c);
    if |gifts| == 0 {
      // the handler then counts the unclaimed gifts, for its log only
      return NoAvailableGifts;
    }
    var i := PickIndex(rand, |gifts|);
    var gift := gifts[i];
    var failed := db.Hand(gift, c, updateOk);
    if failed {
      return ClaimFailed;
    }
    reply := Drawn(gift, userGifts, remaining - 1);
  }
}
