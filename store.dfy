/**
 * The two tables of the signup database, as values: the rows of `users`
 * and of `referrals` in insertion order, and three of the five statements
 * the handler runs against them (a lookup by column, which both SELECTs use,
 * the constrained insert into `users`, the entries update); the insert into
 * `referrals` is an append. Row ids and creation timestamps are not modelled.
 */
module Store {
  import opened Wrappers

  /** A row of `users`: its phone number and referral code are both UNIQUE columns. */
  datatype User = User(phone: string, code: string, entries: nat)

  /**
   * A row of `referrals`. The id bound for the new user is whatever the handler
   * read from its lexical `this`; the model carries it without interpreting it.
   */
  datatype Referral = Referral(referrerCode: string, newUserId: Option<int>)

  /** The two columns the handler looks users up by. */
  datatype Column = PhoneNumber | ReferralCode

  function Key(u: User, col: Column): string {
    match col
    case PhoneNumber => u.phone
    case ReferralCode => u.code
  }

  /** No two rows agree on the column: the table's UNIQUE constraint. */
  ghost predicate UniqueOn(users: seq<User>, col: Column) {
    forall i, j :: 0 <= i < j < |users| ==> Key(users[i], col) != Key(users[j], col)
  }

  /**
   * `SELECT * FROM users WHERE <col> = ?`: the index of a row whose column
   * equals `v` (the first one), or nothing when no row matches.
   */
  function SelectWhere(users: seq<User>, col: Column, v: string): (r: Option<nat>)
    ensures r.Some? ==> r.value < |users| && Key(users[r.value], col) == v
    ensures r.Some? ==> forall i :: 0 <= i < r.value ==> Key(users[i], col) != v
    ensures r.None? <==> forall i :: 0 <= i < |users| ==> Key(users[i], col) != v
  {
    if users == [] then None
    else if Key(users[0], col) == v then Some(0)
    else
      match SelectWhere(users[1..], col, v)
      case None => None
      case Some(i) => Some(i + 1)
  }

  /** Under the UNIQUE constraint the lookup finds the one row holding the value. */
  lemma SelectUnique(users: seq<User>, col: Column, k: nat)
    requires UniqueOn(users, col) && k < |users|
    ensures SelectWhere(users, col, Key(users[k], col)) == Some(k)
  {
  }

  /**
   * `INSERT INTO users (phone_number, referral_code, entries) VALUES (?, ?, ?)`:
   * the row is appended unless its phone number or its code is already in
   * the table, in which case the statement fails and the table is unchanged.
   */
  function Insert(users: seq<User>, u: User): (r: Option<seq<User>>)
    ensures r.None? <==> exists i :: 0 <= i < |users| && (users[i].phone == u.phone || users[i].code == u.code)
    ensures r.Some? ==> r.value == users + [u]
  {
    if SelectWhere(users, PhoneNumber, u.phone).Some? || SelectWhere(users, ReferralCode, u.code).Some? then None
    else Some(users + [u])
  }

  /** A successful insert keeps both UNIQUE constraints. */
  lemma InsertKeepsUnique(users: seq<User>, u: User, col: Column)
    requires UniqueOn(users, col) && Insert(users, u).Some?
    ensures UniqueOn(Insert(users, u).value, col)
  {
    var r := Insert(users, u).value;
    forall i, j | 0 <= i < j < |r| ensures Key(r[i], col) != Key(r[j], col) {
      if j == |users| {
        assert r[j] == u && r[i] == users[i];
        assert users[i].phone != u.phone && users[i].code != u.code;
      }
    }
  }

  /**
   * `UPDATE users SET entries = entries + 1 WHERE referral_code = ?`: every row
   * holding the code gains one entry, every other row is left as it was.
   */
  function IncrementEntries(users: seq<User>, code: string): (r: seq<User>)
    ensures |r| == |users|
    ensures forall i :: 0 <= i < |users| ==>
      r[i] == if users[i].code == code then users[i].(entries := users[i].entries + 1) else users[i]
  {
    if users == [] then []
    else
      var head := if users[0].code == code then users[0].(entries := users[0].entries + 1) else users[0];
      [head] + IncrementEntries(users[1..], code)
  }

  /** With unique codes, the update touches exactly the row the lookup found, by exactly one. */
  lemma IncrementOneRow(users: seq<User>, code: string, k: nat)
    requires UniqueOn(users, ReferralCode)
    requires SelectWhere(users, ReferralCode, code) == Some(k)
    ensures k < |users|
    ensures var r := IncrementEntries(users, code);
      && r[k] == users[k].(entries := users[k].entries + 1)
      && (forall i :: 0 <= i < |users| && i != k ==> r[i] == users[i])
    ensures IncrementEntries(users, code) == users[k := users[k].(entries := users[k].entries + 1)]
  {
    var r := IncrementEntries(users, code);
    var bumped := users[k := users[k].(entries := users[k].entries + 1)];
    assert users[k].code == code by { assert Key(users[k], ReferralCode) == code; }
    forall i | 0 <= i < |users| && i != k ensures r[i] == users[i] {
      DistinctCodes(users, i, k);
    }
    assert r == bumped by {
      forall i | 0 <= i < |users| ensures r[i] == bumped[i] { }
    }
  }

  /** Under the UNIQUE constraint on codes, two different rows hold different codes. */
  lemma DistinctCodes(users: seq<User>, i: nat, j: nat)
    requires UniqueOn(users, ReferralCode)
    requires i < |users| && j < |users| && i != j
    ensures users[i].code != users[j].code
  {
    if i < j {
      assert Key(users[i], ReferralCode) != Key(users[j], ReferralCode);
    } else {
      assert Key(users[j], ReferralCode) != Key(users[i], ReferralCode);
    }
  }

  /** An unknown code updates nothing. */
  lemma IncrementNoRow(users: seq<User>, code: string)
    requires SelectWhere(users, ReferralCode, code).None?
    ensures IncrementEntries(users, code) == users
  {
  }

  /**
   * `after` extends `before`: no row is removed, no number or code changes,
   * and no user loses entries.
   */
  ghost predicate Grows(before: seq<User>, after: seq<User>) {
    && |before| <= |after|
    && forall i :: 0 <= i < |before| ==>
      && after[i].phone == before[i].phone
      && after[i].code == before[i].code
      && before[i].entries <= after[i].entries
  }

  lemma GrowsTransitive(a: seq<User>, b: seq<User>, c: seq<User>)
    requires Grows(a, b) && Grows(b, c)
    ensures Grows(a, c)
  {
  }

  /** The total number of giveaway entries held by all users. */
  function TotalEntries(users: seq<User>): nat {
    if users == [] then 0 else users[0].entries + TotalEntries(users[1..])
  }

  /** Bumping one row's entries grants exactly one entry in total. */
  lemma {:induction false} TotalEntriesBump(users: seq<User>, k: nat)
    requires k < |users|
    ensures TotalEntries(users[k := users[k].(entries := users[k].entries + 1)]) == TotalEntries(users) + 1
  {
    var bumped := users[k := users[k].(entries := users[k].entries + 1)];
    if k > 0 {
      assert bumped[1..] == users[1..][k - 1 := users[k].(entries := users[k].entries + 1)];
      TotalEntriesBump(users[1..], k - 1);
    } else {
      assert bumped[1..] == users[1..];
    }
  }

  /** A new row brings its own entries into the total. */
  lemma {:induction false} TotalEntriesAppend(users: seq<User>, u: User)
    ensures TotalEntries(users + [u]) == TotalEntries(users) + u.entries
  {
    if users != [] {
      assert (users + [u])[1..] == users[1..] + [u];
      TotalEntriesAppend(users[1..], u);
    }
  }

  /** The number of rows of `referrals` crediting `code`. */
  function ReferralsOf(referrals: seq<Referral>, code: string): nat {
    if referrals == [] then 0
    else
      var last := referrals[|referrals| - 1];
      ReferralsOf(referrals[..|referrals| - 1], code) + (if last.referrerCode == code then 1 else 0)
  }

  /** A code no edge mentions has no referrals. */
  lemma {:induction false} ReferralsOfAbsent(referrals: seq<Referral>, code: string)
    requires forall j :: 0 <= j < |referrals| ==> referrals[j].referrerCode != code
    ensures ReferralsOf(referrals, code) == 0
  {
    if referrals != [] {
      ReferralsOfAbsent(referrals[..|referrals| - 1], code);
    }
  }

  /**
   * What the signup flow keeps true of the database: both UNIQUE constraints
   * hold, every edge credits a code some user holds, and every user's entries
   * are their initial one plus one per edge crediting their code.
   */
  ghost predicate Consistent(users: seq<User>, referrals: seq<Referral>) {
    && UniqueOn(users, PhoneNumber)
    && UniqueOn(users, ReferralCode)
    && (forall j :: 0 <= j < |referrals| ==> SelectWhere(users, ReferralCode, referrals[j].referrerCode).Some?)
    && (forall i :: 0 <= i < |users| ==> users[i].entries == 1 + ReferralsOf(referrals, users[i].code))
  }

  lemma EmptyConsistent()
    ensures Consistent([], [])
  {
  }

  /** Inserting a new user with one entry keeps the database consistent. */
  lemma InsertKeepsConsistent(users: seq<User>, referrals: seq<Referral>, phone: string, code: string)
    requires Consistent(users, referrals)
    requires Insert(users, User(phone, code, 1)).Some?
    ensures Consistent(Insert(users, User(phone, code, 1)).value, referrals)
  {
    var u := User(phone, code, 1);
    var r := Insert(users, u).value;
    InsertKeepsUnique(users, u, PhoneNumber);
    InsertKeepsUnique(users, u, ReferralCode);
    forall j | 0 <= j < |referrals|
      ensures SelectWhere(r, ReferralCode, referrals[j].referrerCode).Some?
    {
      var k := SelectWhere(users, ReferralCode, referrals[j].referrerCode).value;
      assert Key(r[k], ReferralCode) == referrals[j].referrerCode;
    }
    forall j | 0 <= j < |referrals| ensures referrals[j].referrerCode != code {
      var k := SelectWhere(users, ReferralCode, referrals[j].referrerCode).value;
      assert users[k].code == referrals[j].referrerCode;
    }
    ReferralsOfAbsent(referrals, code);
    forall i | 0 <= i < |r| ensures r[i].entries == 1 + ReferralsOf(referrals, r[i].code) {
      if i < |users| {
        assert r[i] == users[i];
      }
    }
  }

  /**
   * The referral statements of the handler, run against a consistent database
   * for a code some user holds: the update bumps exactly that user's entries,
   * and with the new edge the database stays consistent.
   */
  lemma CreditByCode(users: seq<User>, referrals: seq<Referral>, code: string, k: nat, newUserId: Option<int>)
    requires Consistent(users, referrals)
    requires SelectWhere(users, ReferralCode, code) == Some(k)
    ensures k < |users|
    ensures var r := IncrementEntries(users, code);
      && |r| == |users|
      && r[k] == users[k].(entries := users[k].entries + 1)
      && (forall i :: 0 <= i < |users| && i != k ==> r[i] == users[i])
    ensures Consistent(IncrementEntries(users, code), referrals + [Referral(code, newUserId)])
    ensures TotalEntries(IncrementEntries(users, code)) == TotalEntries(users) + 1
    ensures Grows(users, IncrementEntries(users, code))
  {
    IncrementOneRow(users, code, k);
    CreditKeepsConsistent(users, referrals, k, newUserId);
    TotalEntriesBump(users, k);
  }

  /** Changing only entries keeps every row's number and code, so lookups find the same rows. */
  lemma SameKeys(users: seq<User>, r: seq<User>, col: Column, v: string)
    requires |r| == |users|
    requires forall i :: 0 <= i < |users| ==> r[i].phone == users[i].phone && r[i].code == users[i].code
    ensures SelectWhere(r, col, v) == SelectWhere(users, col, v)
    ensures UniqueOn(users, col) ==> UniqueOn(r, col)
  {
    assert forall i :: 0 <= i < |users| ==> Key(r[i], col) == Key(users[i], col);
    if users != [] {
      SameKeys(users[1..], r[1..], col, v);
    }
  }

  /**
   * Crediting the user at row `k` (one more entry, one more edge naming their
   * code) keeps the database consistent.
   */
  lemma CreditKeepsConsistent(users: seq<User>, referrals: seq<Referral>, k: nat, newUserId: Option<int>)
    requires Consistent(users, referrals) && k < |users|
    ensures Consistent(users[k := users[k].(entries := users[k].entries + 1)],
                       referrals + [Referral(users[k].code, newUserId)])
  {
    var code := users[k].code;
    var r := users[k := users[k].(entries := users[k].entries + 1)];
    var refs := referrals + [Referral(code, newUserId)];
    SameKeys(users, r, PhoneNumber, code);
    SameKeys(users, r, ReferralCode, code);
    assert refs[..|refs| - 1] == referrals;
    forall j | 0 <= j < |refs| ensures SelectWhere(r, ReferralCode, refs[j].referrerCode).Some? {
      SameKeys(users, r, ReferralCode, refs[j].referrerCode);
      if j == |referrals| {
        assert Key(users[k], ReferralCode) == refs[j].referrerCode;
      }
    }
    forall i | 0 <= i < |r| ensures r[i].entries == 1 + ReferralsOf(refs, r[i].code) {
      if i != k {
        assert Key(users[i], ReferralCode) != Key(users[k], ReferralCode);
      }
    }
  }
}
