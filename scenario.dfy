/** A short session against an empty database, driving both handlers through
    their contracts: "a" uploads, "b" uploads, then "a" draws twice. */
module Session {
  import opened Tables
  import opened Database
  import UploadRoute
  import DrawRoute

  const UrlA := "https://i.imgur.com/a.png"
  const UrlB := "https://i.imgur.com/b.png"
  const GiftA := Gift(0, UrlA, Some("merry"), "a", None)
  const GiftB := Gift(1, UrlB, None, "b", None)

  /** Every call leaving the program succeeds. */
  function AllOk(url: string): UploadRoute.Outcomes {
    UploadRoute.Outcomes(true, Some(url), true, true, true, true)
  }

  /** "a" uploads into the empty database; there is nothing to hand as a bonus. */
  method UploadA(db: Store) returns (reply: UploadRoute.UploadReply)
    requires db.Valid() && db.users == map[] && db.gifts == [] && db.nextId == 0
    modifies db
    ensures db.Valid() && db.users == map["a" := 1] && db.gifts == [GiftA] && db.nextId == 1
    ensures reply == UploadRoute.Uploaded(GiftA, None)
  {
    var form := UploadRoute.Fields(Some([1]), Some("merry"), Some("a"));
    reply := UploadRoute.Post(db, form, AllOk(UrlA));
    assert UploadRoute.NewRow(0, UrlA, form) == GiftA;
    assert [] + [GiftA] == [GiftA];
    assert Candidates([GiftA], "a") == [];
  }

  /** "b" uploads next, and takes a's gift as the bonus. */
  method UploadB(db: Store) returns (reply: UploadRoute.UploadReply)
    requires db.Valid() && db.users == map["a" := 1] && db.gifts == [GiftA] && db.nextId == 1
    modifies db
    ensures db.Valid() && db.users == map["a" := 1, "b" := 1] && db.nextId == 2
    ensures db.gifts == [GiftA.(receivedBy := Some("b")), GiftB]
    ensures reply == UploadRoute.Uploaded(GiftB, Some(GiftA))
  {
    var form := UploadRoute.Fields(Some([2]), None, Some("b"));
    reply := UploadRoute.Post(db, form, AllOk(UrlB));
    assert UploadRoute.NewRow(1, UrlB, form) == GiftB;
    assert [GiftA] + [GiftB] == [GiftA, GiftB];
    assert Candidates([GiftA, GiftB], "b") == [GiftA] by {
      assert [GiftA, GiftB][..1] == [GiftA];
    }
    assert reply.receivedGift == Some(GiftA);
    assert map["a" := 1]["b" := 0]["b" := 1] == map["a" := 1, "b" := 1];
  }

  /** "a" has one upload and has received nothing: the draw hands "a" b's gift. */
  method DrawA(db: Store) returns (reply: DrawRoute.DrawReply)
    requires db.Valid() && db.users == map["a" := 1, "b" := 1]
    requires db.gifts == [GiftA.(receivedBy := Some("b")), GiftB]
    modifies db
    ensures db.Valid() && db.users == map["a" := 1, "b" := 1]
    ensures db.gifts == [GiftA.(receivedBy := Some("b")), GiftB.(receivedBy := Some("a"))]
    ensures reply == DrawRoute.Drawn(GiftB, 1, 0)
  {
    var claimed := GiftA.(receivedBy := Some("b"));
    assert Received([claimed, GiftB], "a") == 0 by {
      assert [claimed, GiftB][..1] == [claimed];
    }
    assert Candidates([claimed, GiftB], "a") == [GiftB] by {
      assert [claimed, GiftB][..1] == [claimed];
    }
    reply := DrawRoute.Post(db, DrawRoute.Parsed(Some("a")), 0.0, true);
  }

  /** Its one draw used, "a" is refused with 403 and nothing changes. */
  method DrawAgain(db: Store) returns (reply: DrawRoute.DrawReply)
    requires db.Valid() && db.users == map["a" := 1, "b" := 1]
    requires db.gifts == [GiftA.(receivedBy := Some("b")), GiftB.(receivedBy := Some("a"))]
    modifies db
    ensures db.gifts == old(db.gifts)
    ensures reply == DrawRoute.NoRemainingDraws && reply.Status() == 403
  {
    var gifts := db.gifts;
    assert Received(gifts, "a") == 1 by {
      assert gifts[..1] == [GiftA.(receivedBy := Some("b"))];
    }
    reply := DrawRoute.Post(db, DrawRoute.Parsed(Some("a")), 0.0, true);
  }

  /** The whole session from an empty database. */
  method TwoUsers() returns (first: DrawRoute.DrawReply, second: DrawRoute.DrawReply)
    ensures first == DrawRoute.Drawn(GiftB, 1, 0)
    ensures second.Status() == 403
  {
    var db := new Store.Empty();
    var _ := UploadA(db);
    var _ := UploadB(db);
    first := DrawA(db);
    second := DrawAgain(db);
  }
}
