/**
 * The user table: the first-sign-in sync, the lookup by auth subject, and the
 * upgrade to Pro that the payment webhook triggers.
 */
module Users {
  import opened Wrappers
  import opened Tables

  /** The document syncUser inserts: a new user always starts on the free tier. */
  function NewUser(id: Id, now: int, userId: string, email: string, name: string): (u: User)
    ensures !u.isPro && u.proSince.None?
    ensures u.lemonSqueezyCustomerId.None? && u.lemonSqueezyOrderId.None?
    ensures u.id == id && u.userId == userId && u.email == email && u.name == name
  {
    User(id, now, userId, email, name, false, None, None, None)
  }

  /** The user table after syncUser: an insert only when no document has this `userId`. */
  function SyncedUsers(users: seq<User>, id: Id, now: int, userId: string, email: string, name: string): (r: seq<User>)
    ensures FindUser(users, userId).Some? ==> r == users
    ensures FindUser(users, userId).None? ==> r == users + [NewUser(id, now, userId, email, name)]
  {
    if FindUser(users, userId).None? then users + [NewUser(id, now, userId, email, name)] else users
  }

  method SyncUser(db: Database, userId: string, email: string, name: string, now: int)
    requires db.Valid()
    modifies db
    ensures db.Valid()
    ensures db.users == SyncedUsers(old(db.users), old(db.nextId), now, userId, email, name)
    ensures db.nextId == if FindUser(old(db.users), userId).None? then old(db.nextId) + 1 else old(db.nextId)
    ensures db.codeExecutions == old(db.codeExecutions) && db.snippets == old(db.snippets)
    ensures db.snippetComments == old(db.snippetComments) && db.stars == old(db.stars)
  {
    var existingUser := FindUser(db.users, userId);
    if existingUser.None? {
      db.users := db.users + [NewUser(db.nextId, now, userId, email, name)];
      db.nextId := db.nextId + 1;
    }
  }

  /** After a sync the subject has exactly one user document: the table keeps one per `userId`. */
  lemma {:induction false} SyncKeepsOnePerUser(users: seq<User>, id: Id, now: int, userId: string, email: string, name: string)
    requires UniqueUserIds(users)
    ensures UniqueUserIds(SyncedUsers(users, id, now, userId, email, name))
    ensures FindUser(SyncedUsers(users, id, now, userId, email, name), userId).Some?
  {
    var r := SyncedUsers(users, id, now, userId, email, name);
    if FindUser(users, userId).None? {
      assert r[|users|].userId == userId;
      assert r[|users|] in r;
    } else {
      assert r == users;
    }
  }

  /** Syncing the same subject again changes nothing, whatever the other arguments. */
  lemma SyncIdempotent(users: seq<User>, id: Id, now: int, userId: string, email: string, name: string,
                       id': Id, now': int, email': string, name': string)
    ensures var once := SyncedUsers(users, id, now, userId, email, name);
            SyncedUsers(once, id', now', userId, email', name') == once
  {
    SyncKeepsFound(users, id, now, userId, email, name);
  }

  lemma SyncKeepsFound(users: seq<User>, id: Id, now: int, userId: string, email: string, name: string)
    ensures FindUser(SyncedUsers(users, id, now, userId, email, name), userId).Some?
  {
    var r := SyncedUsers(users, id, now, userId, email, name);
    if FindUser(users, userId).None? {
      assert r[|users|] in r;
    }
  }

  /** Appending a user document leaves the lookup of every subject already present as it was. */
  lemma {:induction false} FindUserAfterAppend(users: seq<User>, x: User, userId: string)
    ensures FindUser(users + [x], userId) ==
            if FindUser(users, userId).Some? then FindUser(users, userId)
            else if x.userId == userId then Some(x) else None
  {
    IndexOfUserIdAfterAppend(users, x, userId);
  }

  lemma {:induction false} IndexOfUserIdAfterAppend(users: seq<User>, x: User, userId: string)
    ensures IndexOfUserId(users + [x], userId) ==
            if IndexOfUserId(users, userId).Some? then IndexOfUserId(users, userId)
            else if x.userId == userId then Some(|users|) else None
  {
    if users != [] {
      assert (users + [x])[1..] == users[1..] + [x];
      IndexOfUserIdAfterAppend(users[1..], x, userId);
    }
  }

  /**
   * getUser: null for an empty `userId` (a falsy argument) and for an unknown
   * user, otherwise the user document.
   */
  function GetUser(users: seq<User>, userId: string): (r: Option<User>)
    ensures userId == "" ==> r.None?
    ensures userId != "" && (exists u :: u in users && u.userId == userId) ==> r.Some?
    ensures r.Some? ==> r.value in users && r.value.userId == userId
    ensures UniqueUserIds(users) && r.Some? ==> forall u :: u in users && u.userId == userId ==> u == r.value
  {
    if userId == "" then None else FindUser(users, userId)
  }

  /** The `{ success: true }` that upgradeToPro returns. */
  datatype UpgradeReply = UpgradeReply(success: bool)

  /** The position of the first user document with this email: the unindexed `.filter(email == ...).first()`. */
  function IndexOfEmail(users: seq<User>, email: string): (r: Option<nat>)
    ensures r.Some? ==> r.value < |users| && users[r.value].email == email
    ensures r.Some? ==> forall j :: 0 <= j < r.value ==> users[j].email != email
    ensures r.None? ==> forall j :: 0 <= j < |users| ==> users[j].email != email
  {
    if users == [] then None
    else if users[0].email == email then Some(0)
    else match IndexOfEmail(users[1..], email)
         case None => None
         case Some(k) => Some(k + 1)
  }

  /** The document after `db.patch`: the four patched fields change, every other field is kept. */
  function Upgraded(u: User, now: int, customerId: string, orderId: string): (p: User)
    ensures p.isPro && p.proSince == Some(now)
    ensures p.lemonSqueezyCustomerId == Some(customerId) && p.lemonSqueezyOrderId == Some(orderId)
    ensures p.id == u.id && p.creationTime == u.creationTime
    ensures p.userId == u.userId && p.email == u.email && p.name == u.name
  {
    u.(isPro := true, proSince := Some(now),
       lemonSqueezyCustomerId := Some(customerId), lemonSqueezyOrderId := Some(orderId))
  }

  /** upgradeToPro; the `amount` argument is accepted by the source and never read. */
  method UpgradeToPro(db: Database, email: string, customerId: string, orderId: string, now: int)
    returns (r: Result<UpgradeReply, Error>)
    requires db.Valid()
    modifies db
    ensures db.Valid()
    ensures IndexOfEmail(old(db.users), email).None? ==> r == Failure(UserNotFound) && unchanged(db)
    ensures IndexOfEmail(old(db.users), email).Some? ==>
              var i := IndexOfEmail(old(db.users), email).value;
              && r == Success(UpgradeReply(true))
              && db.users == old(db.users)[i := Upgraded(old(db.users)[i], now, customerId, orderId)]
    ensures db.nextId == old(db.nextId) && db.codeExecutions == old(db.codeExecutions)
    ensures db.snippets == old(db.snippets) && db.snippetComments == old(db.snippetComments)
    ensures db.stars == old(db.stars)
  {
    var found := IndexOfEmail(db.users, email);
    if found.None? {
      return Failure(UserNotFound);
    }
    var i := found.value;
    db.users := db.users[i := Upgraded(db.users[i], now, customerId, orderId)];
    r := Success(UpgradeReply(true));
  }

  /**
   * An upgrade changes the subject lookup only for the upgraded subject, which
   * then resolves to the patched (Pro) document.
   */
  lemma UpgradeLookup(users: seq<User>, i: nat, now: int, customerId: string, orderId: string, userId: string)
    requires UniqueUserIds(users) && i < |users|
    ensures var users' := users[i := Upgraded(users[i], now, customerId, orderId)];
            FindUser(users', userId) ==
              if userId == users[i].userId then Some(Upgraded(users[i], now, customerId, orderId))
              else FindUser(users, userId)
  {
    var users' := users[i := Upgraded(users[i], now, customerId, orderId)];
    assert forall j :: 0 <= j < |users| ==> users'[j].userId == users[j].userId;
    if userId == users[i].userId {
      var k := IndexOfUserId(users', userId);
      assert users'[i].userId == userId;
      assert k.Some? && k.value == i;
    } else {
      var k, k' := IndexOfUserId(users, userId), IndexOfUserId(users', userId);
      if k.Some? {
        assert k'.Some? && k'.value == k.value;
      } else {
        assert k'.None?;
      }
    }
  }

  /** Upgrading twice leaves the user Pro, with the later timestamp and ids. */
  lemma UpgradeTwiceStaysPro(u: User, now: int, now': int, c: string, o: string, c': string, o': string)
    ensures Upgraded(Upgraded(u, now, c, o), now', c', o') == Upgraded(u, now', c', o')
    ensures Upgraded(Upgraded(u, now, c, o), now', c', o').isPro
  {
  }
}
