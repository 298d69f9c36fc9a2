/**
 * Runs of the signup handler, each stated for all inputs of its shape: most
 * start from a fresh database, one from any consistent database.
 */
module Scenarios {
  import opened Wrappers
  import Phone
  import opened Store
  import Notify
  import opened Signup

  const NoFaults: Faults := Faults(false, false, false)

  /** A first signup stores the number in canonical form with one entry. */
  method FirstSignup(p: string, code: string) returns (resp: Response, db: Registry)
    requires Phone.IsDigits(p) && |p| == 10
    ensures fresh(db) && db.Valid()
    ensures resp == Ok(SuccessMessage, ReferralLink(code), 1)
    ensures db.users == [User("+1" + p, code, 1)] && db.referrals == []
  {
    Phone.NormalizeCanonical(p);
    db := new Registry();
    var sms;
    resp, sms := db.Signup(Some(p), None, code, None, NoFaults);
  }

  /** A request without a number is refused before anything is stored. */
  method MissingNumber(ref: Option<string>, code: string)
    returns (resp: Response, users: seq<User>, referrals: seq<Referral>)
    ensures resp == Err(PhoneRequired) && users == [] && referrals == []
  {
    var db := new Registry();
    var sms;
    resp, sms := db.Signup(None, ref, code, None, NoFaults);
    users, referrals := db.users, db.referrals;
  }

  /**
   * A signup referred by an earlier user gives that user a second entry,
   * records one edge and addresses them a message reporting two entries.
   */
  method ReferredSignup(p1: string, p2: string, c1: string, c2: string)
    returns (resp: Response, sms: Option<Notify.Sms>, users: seq<User>, referrals: seq<Referral>)
    requires Phone.IsDigits(p1) && Phone.IsDigits(p2) && |p1| == |p2| == 10 && p1 != p2
    requires c1 != "" && c1 != c2
    ensures resp == Ok(SuccessMessage, ReferralLink(c2), 1)
    ensures sms == Some(Notify.Sms([Notify.ListId], "+1" + p1, Notify.NotificationBody(1)))
    ensures users == [User("+1" + p1, c1, 2), User("+1" + p2, c2, 1)]
    ensures referrals == [Referral(c1, None)]
  {
    Phone.NormalizeCanonical(p2);
    assert ("+1" + p1)[2..] == p1 && ("+1" + p2)[2..] == p2;
    var first, db := FirstSignup(p1, c1);
    ghost var added := db.users + [User("+1" + p2, c2, 1)];
    assert SelectWhere(db.users, PhoneNumber, Phone.Normalize(p2)) == None;
    assert SelectWhere(db.users, ReferralCode, c2) == None;
    assert SelectWhere(added, ReferralCode, c1) == Some(0);
    assert Credits(added, Some(c1), NoFaults);
    resp, sms := db.Signup(Some(p2), Some(c1), c2, None, NoFaults);
    assert resp == Ok(SuccessMessage, ReferralLink(c2), 1);
    assert added[0] == User("+1" + p1, c1, 1);
    assert sms == Some(Notify.Sms([Notify.ListId], added[0].phone, Notify.NotificationBody(added[0].entries)));
    users, referrals := db.users, db.referrals;
    assert users[0] == User("+1" + p1, c1, 2) && users[1] == added[1];
    assert referrals == [] + [Referral(c1, None)];
  }

  /** An unknown code is ignored: the signup succeeds and nobody is credited. */
  method UnknownReferral(p1: string, p2: string, c1: string, c2: string, unknown: string)
    returns (resp: Response, sms: Option<Notify.Sms>, users: seq<User>, referrals: seq<Referral>)
    requires Phone.IsDigits(p1) && Phone.IsDigits(p2) && |p1| == |p2| == 10 && p1 != p2
    requires c1 != c2 && unknown != c1 && unknown != c2
    ensures resp == Ok(SuccessMessage, ReferralLink(c2), 1) && sms.None?
    ensures users == [User("+1" + p1, c1, 1), User("+1" + p2, c2, 1)]
    ensures referrals == []
  {
    Phone.NormalizeCanonical(p2);
    assert ("+1" + p1)[2..] == p1 && ("+1" + p2)[2..] == p2;
    var first, db := FirstSignup(p1, c1);
    resp, sms := db.Signup(Some(p2), Some(unknown), c2, None, NoFaults);
    users, referrals := db.users, db.referrals;
  }

  /**
   * The referrer is looked up after the insert, so a request whose `ref` is
   * the very code generated for it credits the new user: they hold two
   * entries while the response still reports one.
   */
  method SelfReferral(phone: string, code: string, newUserId: Option<int>)
    returns (resp: Response, users: seq<User>, referrals: seq<Referral>)
    requires phone != "" && code != ""
    ensures resp == Ok(SuccessMessage, ReferralLink(code), 1)
    ensures users == [User(Phone.Normalize(phone), code, 2)]
    ensures referrals == [Referral(code, newUserId)]
  {
    var db := new Registry();
    var n := Phone.Normalize(phone);
    ghost var added := [User(n, code, 1)];
    assert [] + [User(n, code, 1)] == added;
    assert SelectWhere([], PhoneNumber, n) == None;
    assert SelectWhere([], ReferralCode, code) == None;
    assert SelectWhere(added, ReferralCode, code) == Some(0);
    assert Credits(added, Some(code), NoFaults);
    var sms;
    resp, sms := db.Signup(Some(phone), Some(code), code, newUserId, NoFaults);
    assert resp == Ok(SuccessMessage, ReferralLink(code), 1);
    users, referrals := db.users, db.referrals;
    assert |users| == 1 && users[0] == User(n, code, 2);
    assert referrals == [] + [Referral(code, newUserId)];
  }

  /**
   * Whatever happened before, a number that normalises like one just signed up
   * is refused, and the refusal adds nothing: across both requests the tables
   * gain exactly the first user's row and at most the one edge its `ref` earned.
   */
  method RepeatRefused(db: Registry, first: string, again: string, ref: Option<string>,
                       code1: string, code2: string, faults: Faults)
    returns (resp1: Response, resp2: Response)
    requires db.Valid()
    requires first != "" && again != "" && Phone.Normalize(first) == Phone.Normalize(again)
    modifies db
    ensures db.Valid()
    ensures resp1.Ok? ==> resp2 == Err(AlreadySignedUp)
    ensures resp1.Ok? ==> |db.users| == |old(db.users)| + 1 && Grows(old(db.users), db.users)
    ensures resp1.Ok? ==>
      db.users[|old(db.users)|].phone == Phone.Normalize(first) && db.users[|old(db.users)|].code == code1
    ensures resp1.Ok? ==> |old(db.referrals)| <= |db.referrals| <= |old(db.referrals)| + 1
  {
    var sms;
    resp1, sms := db.Signup(Some(first), ref, code1, None, faults);
    ghost var k := |old(db.users)|;
    assert resp1.Ok? ==> k < |db.users| && Key(db.users[k], PhoneNumber) == Phone.Normalize(again);
    resp2, sms := db.Signup(Some(again), None, code2, None, NoFaults);
  }
}
