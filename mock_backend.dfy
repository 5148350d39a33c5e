/** The demonstration account service: any non-empty username and password
    sign in, and each account's snapshot is kept under its own storage key. */
module MockBackend {
  import opened Types
  import opened JsString
  import Store

  const CloudKeyPrefix := "checkout-swift-cloud-db-"

  /** The storage key of an account's snapshot. The account data shares the
      browser storage with the guest data, under other keys: no account's key
      is one of the two guest keys, and the username can be read back from
      the key. */
  function CloudKey(username: string): (key: string)
    ensures key != Store.StorageKey && key != Store.StoreNameKey
    ensures |key| == |CloudKeyPrefix| + |username|
    ensures key[..|CloudKeyPrefix|] == CloudKeyPrefix && key[|CloudKeyPrefix|..] == username
  {
    var key := CloudKeyPrefix + username;
    assert key[15] == 'c' && Store.StorageKey[15] == 'd' && Store.StoreNameKey[15] == 's';
    key
  }

  /** Different accounts never share a key. */
  lemma CloudKeyInjective(a: string, b: string)
    ensures CloudKey(a) == CloudKey(b) <==> a == b
  {
    if CloudKey(a) == CloudKey(b) {
      assert a == CloudKey(a)[|CloudKeyPrefix|..];
    }
  }

  datatype AuthResult = Rejected(message: string) | SignedIn(user: User)

  const MissingCredentials := "請輸入帳號與密碼"
  const TokenPrefix := "mock-jwt-token-"

  /** Sign in at time `now` (milliseconds): rejected exactly when the
      username or the password is empty; otherwise the user is the given
      username with a token made from the time. */
  function Login(username: string, password: string, now: nat): (r: AuthResult)
    ensures r.Rejected? <==> username == "" || password == ""
    ensures r.Rejected? ==> r.message == MissingCredentials
    ensures r.SignedIn? ==> r.user.username == username && r.user.token == TokenPrefix + NatToString(now)
  {
    if username == "" || password == "" then Rejected(MissingCredentials)
    else SignedIn(User(username, TokenPrefix + NatToString(now)))
  }

  /** Registering is signing in. */
  function Register(username: string, password: string, now: nat): (r: AuthResult)
    ensures r.Rejected? <==> username == "" || password == ""
    ensures r.Rejected? ==> r.message == MissingCredentials
    ensures r.SignedIn? ==> r.user.username == username && r.user.token == TokenPrefix + NatToString(now)
  {
    Login(username, password, now)
  }

  /** Sign-ins at different times get different tokens, and the password
      plays no part beyond being non-empty. */
  lemma LoginTokens(username: string, p1: string, p2: string, t1: nat, t2: nat)
    requires username != "" && p1 != "" && p2 != ""
    ensures Login(username, p1, t1).user.token == Login(username, p2, t2).user.token <==> t1 == t2
    ensures Login(username, p1, t1) == Login(username, p2, t1)
  {
    var a, b := NatToString(t1), NatToString(t2);
    if TokenPrefix + a == TokenPrefix + b {
      assert a == (TokenPrefix + a)[|TokenPrefix|..];
      assert b == (TokenPrefix + b)[|TokenPrefix|..];
    }
    NatToStringInjective(t1, t2);
  }

  /** A stored entry: a saved snapshot, or text that does not parse. */
  datatype Entry = Saved(snapshot: Snapshot) | Unreadable

  /** What a fetch returns: the saved snapshot, or the empty one when the key
      is missing or its text does not parse. */
  function FetchFrom(db: map<string, Entry>, username: string): Snapshot {
    var key := CloudKey(username);
    if key in db && db[key].Saved? then db[key].snapshot else EmptySnapshot
  }

  function SaveInto(db: map<string, Entry>, username: string, data: Snapshot): map<string, Entry> {
    db[CloudKey(username) := Saved(data)]
  }

  /** A save is fetched back as saved, leaves every other account's data as
      it was, and repeating it changes nothing; a new or unreadable account
      fetches the empty snapshot. */
  lemma SaveFetchLaws(db: map<string, Entry>, u: string, v: string, data: Snapshot)
    ensures FetchFrom(SaveInto(db, u, data), u) == data
    ensures u != v ==> FetchFrom(SaveInto(db, u, data), v) == FetchFrom(db, v)
    ensures SaveInto(SaveInto(db, u, data), u, data) == SaveInto(db, u, data)
    ensures CloudKey(u) !in db ==> FetchFrom(db, u) == EmptySnapshot
    ensures CloudKey(u) in db && db[CloudKey(u)] == Unreadable ==> FetchFrom(db, u) == EmptySnapshot
  {
    CloudKeyInjective(u, v);
  }

  /** The account store, over the browser storage it writes to. */
  class MockCloud {
    var db: map<string, Entry>

    constructor (db0: map<string, Entry>)
      ensures db == db0
    {
      db := db0;
    }

    method FetchUserData(user: User) returns (data: Snapshot)
      ensures data == FetchFrom(db, user.username)
    {
      var key := CloudKey(user.username);
      if key in db {
        match db[key]
        case Saved(s) => data := s;
        case Unreadable => data := EmptySnapshot;
      } else {
        data := EmptySnapshot;
      }
    }

    /** Save always succeeds and overwrites exactly this account's entry. */
    method SaveUserData(user: User, data: Snapshot) returns (ok: bool)
      modifies this
      ensures ok
      ensures db == SaveInto(old(db), user.username, data)
    {
      db := db[CloudKey(user.username) := Saved(data)];
      ok := true;
    }
  }
}
