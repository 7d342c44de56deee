/** The POST handler of the upload route: store the image, record the gift,
    count the upload, and hand the uploader one gift of someone else as a bonus
    when there is one. */
module UploadRoute {
  import opened Tables
  import opened Database

  type Bytes = seq<bv8>

  /** The multipart form (file, message, clientId), or a body that does not parse. */
  datatype FormData =
    | Unreadable
    | Fields(file: Option<Bytes>, message: Option<string>, clientId: Option<string>)

  /** What the calls leaving the program do: the users upsert, the image host
      (a URL or a failure), the gift insert, the upload_count update, the
      bonus select and the bonus claim update. */
  datatype Outcomes = Outcomes(
    upsertOk: bool,
    imageUrl: Option<string>,
    insertOk: bool,
    countUpdateOk: bool,
    bonusSelectOk: bool,
    bonusUpdateOk: bool)

  datatype UploadReply =
    | MissingFields                                      // 400
    | UploadFailed                                       // 500
    | Uploaded(gift: Gift, receivedGift: Option<Gift>)
  {
    function Status(): (s: nat)
      ensures s == 200 <==> this.Uploaded?
    {
      match this
      case MissingFields => 400
      case UploadFailed => 500
      case Uploaded(_, _) => 200
    }
  }

  /** Both the file and a non-empty clientId are there. */
  predicate Submitted(form: FormData) {
    form.Fields? && form.file.Some? && Given(form.clientId)
  }

  /** The row the insert creates for a submitted form. */
  function NewRow(id: nat, imageUrl: string, form: FormData): (g: Gift)
    requires Submitted(form)
    ensures g.id == id && g.imageUrl == imageUrl && g.userId == form.clientId.value
    ensures g.userId != "" && g.receivedBy.None?
    ensures g.message.Some? <==> Given(form.message)
  {
    Gift(id, imageUrl, MessageColumn(form.message), form.clientId.value, None)
  }

  /** The users table after the upsert step. */
  function AfterUpsert(users: map<UserId, nat>, c: UserId, ok: bool): map<UserId, nat> {
    if ok then Upserted(users, c) else users
  }

  /** The bonus step, from the rows `before` to the rows `after`: `bonus` is
      some gift `c` may be handed, or none exactly when there is none or the
      select fails; if the claim update succeeds that gift alone becomes
      received by `c`. */
  ghost predicate BonusStep(before: seq<Gift>, c: UserId, bonus: Option<Gift>, selectOk: bool,
                            updateOk: bool, after: seq<Gift>)
  {
    && (bonus.None? <==> !selectOk || Candidates(before, c) == [])
    && (bonus.None? || !updateOk ==> after == before)
    && (bonus.Some? ==> bonus.value in before && Eligible(bonus.value, c))
    && (bonus.Some? && updateOk ==>
          exists k :: 0 <= k < |before| && before[k] == bonus.value &&
            after == before[k := bonus.value.(receivedBy := Some(c))])
  }

  /** Pick one gift `c` may be handed and claim it for `c`; neither the
      select's nor the update's error is inspected. */
  method BonusClaim(db: Store, c: UserId, selectOk: bool, updateOk: bool) returns (bonus: Option<Gift>)
    requires db.Valid()
    modifies db
    ensures db.Valid()
    ensures db.users == old(db.users) && db.nextId == old(db.nextId)
    ensures BonusStep(old(db.gifts), c, bonus, selectOk, updateOk, db.gifts)
    ensures Received(db.gifts, c) ==
              Received(old(db.gifts), c) + (if bonus.Some? && updateOk then 1 else 0)
    ensures ClaimsKept(old(db.gifts), db.gifts)
    ensures SelfExcluded(old(db.gifts)) ==> SelfExcluded(db.gifts)
    ensures Remaining(db.users, old(db.gifts), c) > 0 && Conserved(db.users, old(db.gifts)) ==>
              Conserved(db.users, db.gifts)
  {
    bonus := db.PickUnclaimedExcluding(c, selectOk);
    if bonus.Some? {
      var _ := db.Hand(bonus.value, c, updateOk);
    }
  }

  /** Make sure the user's row exists, store the image (the
      exception of a failed image host ends the request) and insert the gift. */
  method Record(db: Store, form: FormData, env: Outcomes) returns (user: Option<nat>, inserted: Option<Gift>)
    requires db.Valid() && Submitted(form)
    modifies db
    ensures db.Valid()
    ensures db.users == AfterUpsert(old(db.users), form.clientId.value, env.upsertOk)
    ensures user == if env.upsertOk then Some(UploadCount(old(db.users), form.clientId.value)) else None
    ensures inserted.Some? <==> env.imageUrl.Some? && env.insertOk
    ensures inserted.None? ==> db.gifts == old(db.gifts) && db.nextId == old(db.nextId)
    ensures inserted.Some? ==>
              && inserted.value == NewRow(old(db.nextId), env.imageUrl.value, form)
              && db.gifts == old(db.gifts) + [inserted.value]
              && db.nextId == old(db.nextId) + 1
    ensures ClaimsKept(old(db.gifts), db.gifts)
    ensures SelfExcluded(old(db.gifts)) ==> SelfExcluded(db.gifts)
    ensures CountsKept(old(db.users), db.users)
    ensures Conserved(old(db.users), old(db.gifts)) ==> Conserved(db.users, db.gifts)
    ensures Remaining(db.users, db.gifts, form.clientId.value) ==
            Remaining(old(db.users), old(db.gifts), form.clientId.value)
  {
    var c := form.clientId.value;
    ghost var users0, gifts0 := db.users, db.gifts;
    user := db.Upsert(c, env.upsertOk);
    UpsertKeeps(users0, gifts0, c);
    if env.imageUrl.None? {
      inserted := None;
      return;
    }
    inserted := db.Insert(env.imageUrl.value, MessageColumn(form.message), c, env.insertOk);
    if inserted.Some? {
      InsertConserves(db.users, gifts0, inserted.value);
      InsertKeeps(gifts0, inserted.value);
      ReceivedAppend(gifts0, inserted.value, c);
    }
  }

  /** The steps between the 400 check and the bonus claim.
      `counted` is false exactly when the upload_count update reported an error. */
  method Contribute(db: Store, form: FormData, env: Outcomes)
    returns (reply: UploadReply, counted: bool)
    requires db.Valid() && Submitted(form)
    modifies db
    ensures db.Valid()
    ensures env.imageUrl.None? || !env.insertOk ==>
              && reply == UploadFailed
              && db.users == AfterUpsert(old(db.users), form.clientId.value, env.upsertOk)
              && db.gifts == old(db.gifts) && db.nextId == old(db.nextId)
    ensures env.imageUrl.Some? && env.insertOk ==>
              var c := form.clientId.value;
              var row := NewRow(old(db.nextId), env.imageUrl.value, form);
              && db.gifts == old(db.gifts) + [row]
              && db.nextId == old(db.nextId) + 1
              && (!env.upsertOk ==> reply == UploadFailed && db.users == old(db.users))
              && (env.upsertOk ==>
                    && reply == Uploaded(row, None)
                    && counted == env.countUpdateOk
                    && c in db.users
                    && db.users == if env.countUpdateOk
                                   then Upserted(old(db.users), c)[c := UploadCount(old(db.users), c) + 1]
                                   else Upserted(old(db.users), c))
    ensures ClaimsKept(old(db.gifts), db.gifts)
    ensures SelfExcluded(old(db.gifts)) ==> SelfExcluded(db.gifts)
    ensures CountsKept(old(db.users), db.users)
    ensures Conserved(old(db.users), old(db.gifts)) ==> Conserved(db.users, db.gifts)
    ensures reply.Uploaded? ==>
              Remaining(db.users, db.gifts, form.clientId.value) ==
              Remaining(old(db.users), old(db.gifts), form.clientId.value) + (if counted then 1 else 0)
  {
    counted := false;
    var c := form.clientId.value;
    ghost var users0 := db.users;
    var user, inserted := Record(db, form, env);
    if inserted.None? {
      return UploadFailed, counted;
    }
    if user.None? {
      // `user.upload_count` on a failed upsert throws after the insert
      return UploadFailed, counted;
    }
    ghost var users1 := db.users;
    counted := CountUpload(db, c, user.value, env.countUpdateOk);
    CountsKeptTransitive(users0, users1, db.users);
    reply := Uploaded(inserted.value, None);
  }

  /** Write back the upload_count read at the upsert, plus one;
      the update's error is reported as `counted == false` but not acted on. */
  method CountUpload(db: Store, c: UserId, count: nat, ok: bool) returns (counted: bool)
    requires c in db.users && count == db.users[c]
    modifies db
    ensures counted == ok
    ensures db.users == if ok then old(db.users)[c := count + 1] else old(db.users)
    ensures db.gifts == old(db.gifts) && db.nextId == old(db.nextId)
    ensures CountsKept(old(db.users), db.users)
    ensures Conserved(old(db.users), db.gifts) ==> Conserved(db.users, db.gifts)
    ensures Remaining(db.users, db.gifts, c) == Remaining(old(db.users), db.gifts, c) + (if ok then 1 else 0)
  {
    RaiseConserves(db.users, db.gifts, c);
    var failed := db.UpdateUploadCount(c, count + 1, ok);
    counted := !failed;
  }

  /** The upload handler as written: the bonus claim runs even when the
      upload_count update failed. */
  method Post(db: Store, form: FormData, env: Outcomes) returns (reply: UploadReply)
    requires db.Valid()
    modifies db
    ensures db.Valid()
    ensures !Submitted(form) ==>
              db.users == old(db.users) && db.gifts == old(db.gifts) && db.nextId == old(db.nextId)
    ensures form.Unreadable? ==> reply == UploadFailed
    ensures form.Fields? && !Submitted(form) ==> reply == MissingFields
    ensures Submitted(form) && (env.imageUrl.None? || !env.insertOk) ==>
              && reply == UploadFailed
              && db.users == AfterUpsert(old(db.users), form.clientId.value, env.upsertOk)
              && db.gifts == old(db.gifts) && db.nextId == old(db.nextId)
    ensures Submitted(form) && env.imageUrl.Some? && env.insertOk ==>
              var c := form.clientId.value;
              var row := NewRow(old(db.nextId), env.imageUrl.value, form);
              && db.nextId == old(db.nextId) + 1
              && (!env.upsertOk ==>
                    reply == UploadFailed && db.users == old(db.users) && db.gifts == old(db.gifts) + [row])
              && (env.upsertOk ==>
                    && reply.Uploaded? && reply.gift == row
                    && c in db.users
                    && db.users == (if env.countUpdateOk
                                    then Upserted(old(db.users), c)[c := UploadCount(old(db.users), c) + 1]
                                    else Upserted(old(db.users), c))
                    && BonusStep(old(db.gifts) + [row], c, reply.receivedGift, env.bonusSelectOk, env.bonusUpdateOk, db.gifts)
                    // the gift just uploaded is never the bonus: it comes from the rows before
                    && (reply.receivedGift.Some? ==>
                          reply.receivedGift.value != row &&
                          reply.receivedGift.value in Candidates(old(db.gifts), c))
                    && Remaining(db.users, db.gifts, c) ==
                       Remaining(old(db.users), old(db.gifts), c)
                       + (if env.countUpdateOk then 1 else 0)
                       - (if reply.receivedGift.Some? && env.bonusUpdateOk then 1 else 0))
    ensures ClaimsKept(old(db.gifts), db.gifts)
    ensures SelfExcluded(old(db.gifts)) ==> SelfExcluded(db.gifts)
    ensures CountsKept(old(db.users), db.users)
    ensures Conserved(old(db.users), old(db.gifts)) && env.countUpdateOk ==> Conserved(db.users, db.gifts)
  {
    if form.Unreadable? {
      return UploadFailed;
    }
    if form.file.None? || !Given(form.clientId) {
      return MissingFields;
    }
    ghost var gifts0 := db.gifts;
    var counted;
    reply, counted := Contribute(db, form, env);
    if reply.Uploaded? {
      CandidatesIgnoreOwnInsert(gifts0, reply.gift);
      var bonus := BonusClaim(db, form.clientId.value, env.bonusSelectOk, env.bonusUpdateOk);
      reply := reply.(receivedGift := bonus);
    }
  }

  /** The upload handler with the upload_count update's error inspected: the
      bonus claim runs only once the upload has been counted. */
  method PostGuarded(db: Store, form: FormData, env: Outcomes) returns (reply: UploadReply)
    requires db.Valid()
    modifies db
    ensures db.Valid()
    ensures !Submitted(form) ==>
              db.users == old(db.users) && db.gifts == old(db.gifts) && db.nextId == old(db.nextId)
    ensures form.Unreadable? ==> reply == UploadFailed
    ensures form.Fields? && !Submitted(form) ==> reply == MissingFields
    ensures Submitted(form) && (env.imageUrl.None? || !env.insertOk) ==>
              && reply == UploadFailed
              && db.users == AfterUpsert(old(db.users), form.clientId.value, env.upsertOk)
              && db.gifts == old(db.gifts) && db.nextId == old(db.nextId)
    ensures Submitted(form) && env.imageUrl.Some? && env.insertOk ==>
              var c := form.clientId.value;
              var row := NewRow(old(db.nextId), env.imageUrl.value, form);
              && db.nextId == old(db.nextId) + 1
              && (!env.upsertOk ==>
                    reply == UploadFailed && db.users == old(db.users) && db.gifts == old(db.gifts) + [row])
              && (env.upsertOk ==>
                    && reply.Uploaded? && reply.gift == row
                    && c in db.users
                    && db.users == (if env.countUpdateOk
                                    then Upserted(old(db.users), c)[c := UploadCount(old(db.users), c) + 1]
                                    else Upserted(old(db.users), c))
                    && (env.countUpdateOk ==>
                          BonusStep(old(db.gifts) + [row], c, reply.receivedGift, env.bonusSelectOk, env.bonusUpdateOk, db.gifts))
                    && (reply.receivedGift.Some? ==>
                          reply.receivedGift.value != row &&
                          reply.receivedGift.value in Candidates(old(db.gifts), c))
                    && (!env.countUpdateOk ==>
                          reply.receivedGift.None? && db.gifts == old(db.gifts) + [row]))
    ensures ClaimsKept(old(db.gifts), db.gifts)
    ensures SelfExcluded(old(db.gifts)) ==> SelfExcluded(db.gifts)
    ensures CountsKept(old(db.users), db.users)
    ensures Conserved(old(db.users), old(db.gifts)) ==> Conserved(db.users, db.gifts)
  {
    if form.Unreadable? {
      return UploadFailed;
    }
    if form.file.None? || !Given(form.clientId) {
      return MissingFields;
    }
    ghost var gifts0 := db.gifts;
    var counted;
    reply, counted := Contribute(db, form, env);
    if reply.Uploaded? && counted {
      CandidatesIgnoreOwnInsert(gifts0, reply.gift);
      var bonus := BonusClaim(db, form.clientId.value, env.bonusSelectOk, env.bonusUpdateOk);
      reply := reply.(receivedGift := bonus);
    }
  }

  /** User "b" has uploaded one gift and "a" nothing, so "a" has no draws
      left. Then "a" uploads while the upload_count update fails: the bonus
      claim still hands "a" the gift of "b", and "a" ends with minus one
      remaining draw. */
  method OverdrawWitness() returns (before: int, after: int)
    ensures before == 0 && after == -1
  {
    var gift := Gift(0, "https://i.imgur.com/b.png", Some("for you"), "b", None);
    var db := new Store.Loaded(map["b" := 1], [gift], 1);
    before := Remaining(db.users, db.gifts, "a");
    var env := Outcomes(true, Some("https://i.imgur.com/a.png"), true, false, true, true);
    var form := Fields(Some([2]), None, Some("a"));
    var reply := Post(db, form, env);
    assert gift in Candidates([gift] + [NewRow(1, "https://i.imgur.com/a.png", form)], "a");
    after := Remaining(db.users, db.gifts, "a");
  }
}
