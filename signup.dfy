/**
 * The POST /signup handler as a transition over the two tables: validate and
 * normalise the phone number, refuse a number already signed up, insert the
 * new user with one entry and the generated code, and, when the request names
 * an existing user's code, credit that user with an entry, record the
 * referral and address them a text message.
 */
module Signup {
  import opened Wrappers
  import Phone
  import opened Store
  import Notify

  const PhoneRequired: string := "Phone number required"
  const DatabaseError: string := "Database error"
  const AlreadySignedUp: string := "Phone number already signed up"
  const SignupFailed: string := "Error signing up"
  const SuccessMessage: string := "Signed up successfully!"

  /** The base of the shareable link; the new user's code follows it. */
  const LinkBase: string := "https://referral.gamifyHQ.com/signup?ref="

  /** The JSON body of the handler's answer; HTTP status codes are not modelled. */
  datatype Response = Ok(message: string, referralLink: string, entries: int) | Err(message: string)

  /**
   * Which storage calls report an error in this run: the duplicate check
   * (answered "Database error"), the insert for a reason other than a UNIQUE
   * violation (answered "Error signing up"), and the referrer lookup (after
   * which the referral is silently skipped).
   */
  datatype Faults = Faults(lookupFails: bool, insertFails: bool, referrerLookupFails: bool)

  /** The link a new user shares; the code can be read back from it. */
  function ReferralLink(code: string): (link: string)
    ensures |link| == |LinkBase| + |code|
    ensures link[..|LinkBase|] == LinkBase && link[|LinkBase|..] == code
  {
    LinkBase + code
  }

  /** Distinct codes give distinct links. */
  lemma ReferralLinkInjective(a: string, b: string)
    requires ReferralLink(a) == ReferralLink(b)
    ensures a == b
  {
    assert a == ReferralLink(a)[|LinkBase|..];
  }

  /** `!phone_number`: the field is absent or the empty string. */
  predicate PhoneMissing(phone: Option<string>) {
    phone.None? || phone.value == ""
  }

  /** `if (ref)`: the field is present and not the empty string. */
  predicate RefGiven(ref: Option<string>) {
    ref.Some? && ref.value != ""
  }

  /**
   * Whether a signup that inserted its user into `added` credits a referrer:
   * a code was given, its lookup succeeded, and some row (the new one
   * included, since the lookup runs after the insert) holds it.
   */
  predicate Credits(added: seq<User>, ref: Option<string>, faults: Faults): (c: bool)
    ensures c <==> RefGiven(ref) && !faults.referrerLookupFails &&
                   exists i :: 0 <= i < |added| && added[i].code == ref.value
  {
    RefGiven(ref) && !faults.referrerLookupFails && SelectWhere(added, ReferralCode, ref.value).Some?
  }

  /** The signup database: the `users` and `referrals` tables. */
  class Registry {
    var users: seq<User>
    var referrals: seq<Referral>

    ghost predicate Valid()
      reads this
    {
      Consistent(users, referrals)
    }

    /** Both tables start empty. */
    constructor ()
      ensures Valid() && users == [] && referrals == []
    {
      users, referrals := [], [];
      EmptyConsistent();
    }

    /**
     * The insert of server.js lines 68-72: the new user gets one entry; the
     * statement fails, changing nothing, when the number or the code is taken.
     */
    method InsertUser(phone: string, code: string) returns (ok: bool)
      requires Valid()
      modifies this
      ensures Valid()
      ensures ok <==> SelectWhere(old(users), PhoneNumber, phone).None? && SelectWhere(old(users), ReferralCode, code).None?
      ensures users == if ok then old(users) + [User(phone, code, 1)] else old(users)
      ensures referrals == old(referrals)
      ensures Grows(old(users), users)
      ensures TotalEntries(users) == TotalEntries(old(users)) + (if ok then 1 else 0)
    {
      var inserted := Insert(users, User(phone, code, 1));
      ok := inserted.Some?;
      if ok {
        InsertKeepsConsistent(users, referrals, phone, code);
        TotalEntriesAppend(users, User(phone, code, 1));
        users := inserted.value;
      }
    }

    /**
     * The referral callback of server.js lines 78-85 and the message of line
     * 94: when a user holds `code`, one more entry for them, one more edge
     * crediting the code, and a message to their number built from the entries
     * read before the update; an unknown code changes nothing.
     */
    method CreditReferrer(code: string, newUserId: Option<int>) returns (sms: Option<Notify.Sms>)
      requires Valid()
      modifies this
      ensures Valid()
      ensures sms.Some? <==> SelectWhere(old(users), ReferralCode, code).Some?
      ensures sms.Some? ==>
        var k := SelectWhere(old(users), ReferralCode, code).value;
        && users == IncrementEntries(old(users), code)
        && |users| == |old(users)|
        && users[k] == old(users)[k].(entries := old(users)[k].entries + 1)
        && (forall i :: 0 <= i < |users| && i != k ==> users[i] == old(users)[i])
        && referrals == old(referrals) + [Referral(code, newUserId)]
        && sms.value == Notify.Sms([Notify.ListId], old(users)[k].phone, Notify.NotificationBody(old(users)[k].entries))
      ensures sms.None? ==> users == old(users) && referrals == old(referrals)
      ensures Grows(old(users), users)
      ensures sms.Some? ==> TotalEntries(users) == TotalEntries(old(users)) + 1
      ensures sms.Some? ==> exists k :: 0 <= k < |users| && users[k].phone == sms.value.number && Notify.Reports(sms.value.body, users[k].entries)
    {
      var referrer := SelectWhere(users, ReferralCode, code);
      sms := None;
      if referrer.Some? {
        var k := referrer.value;
        var before := users[k];
        CreditByCode(users, referrals, code, k, newUserId);
        users := IncrementEntries(users, code);
        referrals := referrals + [Referral(code, newUserId)];
        sms := Some(Notify.Sms([Notify.ListId], before.phone, Notify.NotificationBody(before.entries)));
        assert users[k].phone == sms.value.number && Notify.Reports(sms.value.body, users[k].entries);
      }
    }

    /**
     * One POST /signup request carrying `phone` and `ref`. `freshCode` is the
     * code the generator produced for this request and `newUserId` the value
     * the handler binds as the edge's new-user id. Returns the response and
     * the text message the handler addresses to the referrer, if any.
     */
    method Signup(phone: Option<string>, ref: Option<string>, freshCode: string,
                  newUserId: Option<int>, faults: Faults)
      returns (resp: Response, sms: Option<Notify.Sms>)
      requires Valid()
      modifies this
      ensures Valid()
      // every error leaves both tables as they were and sends nothing
      ensures resp.Err? ==> users == old(users) && referrals == old(referrals) && sms.None?
      ensures PhoneMissing(phone) ==> resp == Err(PhoneRequired)
      ensures !PhoneMissing(phone) ==>
        var n := Phone.Normalize(phone.value);
        if faults.lookupFails then resp == Err(DatabaseError)
        else if SelectWhere(old(users), PhoneNumber, n).Some? then resp == Err(AlreadySignedUp)
        else if faults.insertFails || SelectWhere(old(users), ReferralCode, freshCode).Some? then resp == Err(SignupFailed)
        else resp == Ok(SuccessMessage, ReferralLink(freshCode), 1)
      // a success appends exactly the new user, then credits the referrer if there is one
      ensures resp.Ok? ==> !PhoneMissing(phone)
      ensures resp.Ok? ==>
        var added := old(users) + [User(Phone.Normalize(phone.value), freshCode, 1)];
        if Credits(added, ref, faults) then
          var k := SelectWhere(added, ReferralCode, ref.value).value;
          && |users| == |added|
          && users[k] == added[k].(entries := added[k].entries + 1)
          && (forall i :: 0 <= i < |users| && i != k ==> users[i] == added[i])
          && referrals == old(referrals) + [Referral(ref.value, newUserId)]
          && sms == Some(Notify.Sms([Notify.ListId], added[k].phone, Notify.NotificationBody(added[k].entries)))
        else
          users == added && referrals == old(referrals) && sms.None?
      // existing users keep their number and code, and never lose entries
      ensures Grows(old(users), users)
      // one entry for the new user, one for each edge recorded
      ensures TotalEntries(users) == TotalEntries(old(users)) + (if resp.Ok? then 1 else 0) + |referrals| - |old(referrals)|
      // the message reports the referrer's entries as they now stand
      ensures sms.Some? ==> exists k :: 0 <= k < |users| && users[k].phone == sms.value.number && Notify.Reports(sms.value.body, users[k].entries)
    {
      if PhoneMissing(phone) {
        return Err(PhoneRequired), None;
      }
      var normalized := Phone.Normalize(phone.value);
      if faults.lookupFails {
        return Err(DatabaseError), None;
      }
      var existing := SelectWhere(users, PhoneNumber, normalized);
      if existing.Some? {
        return Err(AlreadySignedUp), None;
      }
      if faults.insertFails {
        return Err(SignupFailed), None;
      }
      var ok := InsertUser(normalized, freshCode);
      if !ok {
        return Err(SignupFailed), None;
      }
      sms := None;
      if RefGiven(ref) && !faults.referrerLookupFails {
        ghost var added := users;
        sms := CreditReferrer(ref.value, newUserId);
        GrowsTransitive(old(users), added, users);
      }
      resp := Ok(SuccessMessage, ReferralLink(freshCode), 1);
    }
  }
}
