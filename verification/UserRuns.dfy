/**
 Every history of the user table: the last-admin guard of internal/api/admin.go, unique
 handles, ids that are never reused, links that never dangle, and what happens to emails.
 Each request is one atomic step.
 */
module UserRuns {
  import opened Wrappers
  import opened Text
  import opened Handles
  import opened Users

  datatype Event =
    | SignUp(email: string, handle: string, name: string, password: string, low: Lowering)
    | OidcLogin(provider: string, subject: string, handle: string, name: string, email: string, avatar: string)
    | Mint(handle: string)
    | Update(id: nat, isAdmin: Option<bool>, disabled: Option<bool>, newPassword: Option<string>)
    | Delete(actor: Option<nat>, id: nat)
    | Open(secret: string, user: nat)
    | AddRepo(repo: nat, owner: nat)
    | AddPost(post: nat, row: Post)
    | DropRepo(repo: nat)

  function Next(t: Tables, ev: Event): Tables {
    match ev
    case SignUp(email, handle, name, password, low) => SignedUp(t, email, handle, name, password, low).0
    case OidcLogin(provider, subject, handle, name, email, avatar) =>
      LoggedIn(t, provider, subject, handle, name, email, avatar).0
    case Mint(handle) => Minted(t, handle).0
    case Update(id, isAdmin, disabled, password) => Updated(t, id, isAdmin, disabled, password).0
    case Delete(actor, id) => Deleted(t, actor, id).0
    case Open(secret, user) => Opened(t, secret, user).0
    case AddRepo(repo, owner) => RepoAdded(t, repo, owner)
    case AddPost(post, row) => PostAdded(t, post, row)
    case DropRepo(repo) => RepoDeleted(t, repo)
  }

  function Run(t: Tables, evs: seq<Event>): Tables
    decreases |evs|
  {
    if evs == [] then t else Run(Next(t, evs[0]), evs[1..])
  }

  // ---- Counting enabled admins ----

  ghost predicate HasActive(users: seq<User>) {
    exists u <- users :: Active(u)
  }

  lemma {:induction false} ActiveIff(users: seq<User>)
    ensures ActiveAdmins(users) > 0 <==> HasActive(users)
  {
    if users != [] {
      ActiveIff(users[1..]);
      assert users == [users[0]] + users[1..];
    }
  }

  /** Two enabled admins: whoever is touched, another one is left. */
  lemma {:induction false} AnotherActive(users: seq<User>, id: nat) returns (u: User)
    requires IdsIncrease(users) && ActiveAdmins(users) >= 2
    ensures u in users && Active(u) && u.id != id
  {
    if Active(users[0]) && users[0].id != id {
      u := users[0];
    } else if Active(users[0]) {
      ActiveIff(users[1..]);
      u :| u in users[1..] && Active(u);
      var k :| 0 <= k < |users[1..]| && users[1..][k] == u;
      assert users[0].id < users[k + 1].id;
    } else {
      u := AnotherActive(users[1..], id);
    }
  }

  /** At most one enabled admin: it is the one there is. */
  lemma {:induction false} OnlyActive(users: seq<User>, u: User, v: User)
    requires ActiveAdmins(users) <= 1 && u in users && v in users && Active(u) && Active(v)
    ensures u == v
  {
    ActiveIff(users[1..]);
    assert users == [users[0]] + users[1..];
    if !Active(users[0]) {
      OnlyActive(users[1..], u, v);
    }
  }

  // ---- What every step keeps ----

  ghost predicate RowsOk(t: Tables) {
    && IdsIncrease(t.users)
    && (forall u <- t.users :: 1 <= u.id < t.nextId)
    && t.nextId >= 1
  }

  ghost predicate HandlesUnique(users: seq<User>) {
    forall i: nat, j: nat | i < j < |users| :: Fold(users[i].handle) != Fold(users[j].handle)
  }

  ghost predicate LinksOk(t: Tables) {
    && (forall k <- t.identities :: HasId(t.users, t.identities[k]))
    && (forall k <- t.sessions :: HasId(t.users, t.sessions[k]))
    && (forall r <- t.repos :: t.repos[r].Some? ==> HasId(t.users, t.repos[r].value))
    && (forall p <- t.posts :: t.posts[p].repo in t.repos)
    && !Dangling(t.users, t.posts)
  }

  ghost predicate AdminOk(users: seq<User>) {
    users == [] || HasActive(users)
  }

  ghost predicate Inv(t: Tables) {
    RowsOk(t) && HandlesUnique(t.users) && LinksOk(t) && AdminOk(t.users)
  }

  // ---- The four ways a table changes ----

  lemma InsertKeeps(t: Tables, handle: string, email: string, name: string, avatar: string,
                    password: string, admin: bool)
    requires Inv(t) && !Taken(HandlesOf(t.users), handle)
    ensures Inv(Inserted(t, handle, email, name, avatar, password, admin))
    ensures HasId(Inserted(t, handle, email, name, avatar, password, admin).users, t.nextId)
  {
    hide Fold, LinksOk;
    var t' := Inserted(t, handle, email, name, avatar, password, admin);
    assert t'.users[|t.users|] in t'.users;
    forall u <- t.users ensures u in t'.users {}
    InsertKeepsHandles(t.users, t'.users[|t.users|]);
    KeptIds(t.users, t'.users);
    KeptIdsKeepLinks(t, t'.users, t'.nextId);
  }

  lemma InsertKeepsHandles(users: seq<User>, u: User)
    requires HandlesUnique(users) && !Taken(HandlesOf(users), u.handle)
    ensures HandlesUnique(users + [u])
  {
    hide Fold;
    forall i: nat | i < |users| ensures Fold(users[i].handle) != Fold(u.handle) {
      assert HandlesOf(users)[i] in HandlesOf(users);
    }
  }

  lemma KeptIdsKeepLinks(t: Tables, users: seq<User>, nextId: nat)
    requires LinksOk(t)
    requires forall id: nat :: HasId(t.users, id) ==> HasId(users, id)
    ensures LinksOk(t.(users := users, nextId := nextId))
  {
    hide HasId;
  }

  /** A table that has lost no id keeps every link. */
  lemma KeptIds(before: seq<User>, after: seq<User>)
    requires forall u <- before :: HasId(after, u.id)
    ensures forall id: nat :: HasId(before, id) ==> HasId(after, id)
  {}

  lemma ReplacedAt(users: seq<User>, row: User, i: nat)
    requires IdsIncrease(users) && HasId(users, row.id) && i < |users|
    ensures |WithRow(users, row)| == |users|
    ensures WithRow(users, row)[i] == if users[i] == Row(users, row.id) then row else users[i]
    ensures WithRow(users, row)[i].id == users[i].id
  {
    RowIs(users, row.id);
    if users[i].id == row.id {
      RowUnique(users, users[i]);
    }
  }

  lemma ReplaceKeeps(t: Tables, row: User)
    requires RowsOk(t) && HandlesUnique(t.users) && LinksOk(t)
    requires HasId(t.users, row.id) && row.handle == Row(t.users, row.id).handle
    ensures
      var t' := t.(users := WithRow(t.users, row));
      RowsOk(t') && HandlesUnique(t'.users) && LinksOk(t')
  {
    hide WithRow, Fold, Row, LinksOk;
    var t' := t.(users := WithRow(t.users, row));
    forall i: nat | i < |t.users|
      ensures |t'.users| == |t.users|
      ensures t'.users[i].id == t.users[i].id && t'.users[i].handle == t.users[i].handle
    {
      ReplacedAt(t.users, row, i);
    }
    assert |t'.users| == |t.users| by {
      ReplacedAt(t.users, row, 0);
    }
    forall u <- t'.users ensures 1 <= u.id < t.nextId {
      var i :| 0 <= i < |t'.users| && t'.users[i] == u;
      assert t.users[i] in t.users;
    }
    SameIdsKeepLinks(t, t'.users);
  }

  lemma SameIdsKeepLinks(t: Tables, users: seq<User>)
    requires LinksOk(t) && |users| == |t.users|
    requires forall i: nat | i < |users| :: users[i].id == t.users[i].id
    ensures LinksOk(t.(users := users))
  {
    forall u <- t.users ensures HasId(users, u.id) {
      var i :| 0 <= i < |t.users| && t.users[i] == u;
      assert users[i] in users;
    }
    KeptIds(t.users, users);
    KeptIdsKeepLinks(t, users, t.nextId);
  }

  lemma {:induction false} DeleteWhereIs(users: seq<User>, id: nat)
    ensures forall u :: u in DeleteWhere(users, id) <==> u in users && u.id != id
    ensures IdsIncrease(users) ==> IdsIncrease(DeleteWhere(users, id))
    ensures HandlesUnique(users) ==> HandlesUnique(DeleteWhere(users, id))
  {
    if users != [] {
      DeleteWhereIs(users[1..], id);
      DeleteMembers(users, id);
      hide DeleteWhere, IdsIncrease, HandlesUnique;
      if IdsIncrease(users) {
        TailKeeps(users);
        DeleteKeepsOrder(users, id);
      }
      if HandlesUnique(users) {
        TailKeeps(users);
        DeleteKeepsHandles(users, id);
      }
    }
  }

  lemma TailKeeps(users: seq<User>)
    requires users != []
    ensures IdsIncrease(users) ==> IdsIncrease(users[1..])
    ensures HandlesUnique(users) ==> HandlesUnique(users[1..])
    ensures EmailsUnique(users) ==> EmailsUnique(users[1..])
  {
    hide Fold;
  }

  lemma DeleteMembers(users: seq<User>, id: nat)
    requires users != []
    requires forall u :: u in DeleteWhere(users[1..], id) <==> u in users[1..] && u.id != id
    ensures forall u :: u in DeleteWhere(users, id) <==> u in users && u.id != id
  {
    assert users == [users[0]] + users[1..];
  }

  lemma RemainsBehind(users: seq<User>, id: nat, u: User) returns (k: nat)
    requires users != [] && u in DeleteWhere(users[1..], id)
    requires forall v :: v in DeleteWhere(users[1..], id) <==> v in users[1..] && v.id != id
    ensures 0 < k < |users| && users[k] == u
  {
    var j :| 0 <= j < |users[1..]| && users[1..][j] == u;
    k := j + 1;
  }

  lemma DeleteKeepsOrder(users: seq<User>, id: nat)
    requires users != [] && IdsIncrease(users) && IdsIncrease(DeleteWhere(users[1..], id))
    requires forall u :: u in DeleteWhere(users[1..], id) <==> u in users[1..] && u.id != id
    ensures IdsIncrease(DeleteWhere(users, id))
  {
    var rest := DeleteWhere(users[1..], id);
    forall j: nat | j < |rest| ensures users[0].id < rest[j].id {
      var k := RemainsBehind(users, id, rest[j]);
    }
  }

  lemma DeleteKeepsHandles(users: seq<User>, id: nat)
    requires users != [] && HandlesUnique(users) && HandlesUnique(DeleteWhere(users[1..], id))
    requires forall u :: u in DeleteWhere(users[1..], id) <==> u in users[1..] && u.id != id
    ensures HandlesUnique(DeleteWhere(users, id))
  {
    hide Fold;
    var rest := DeleteWhere(users[1..], id);
    forall j: nat | j < |rest| ensures Fold(users[0].handle) != Fold(rest[j].handle) {
      var k := RemainsBehind(users, id, rest[j]);
    }
  }

  /** The rows and links after a user's delete, if nothing is left dangling. */
  lemma RemoveKeeps(t: Tables, id: nat)
    requires RowsOk(t) && HandlesUnique(t.users) && LinksOk(t)
    ensures RowsOk(Removed(t, id)) && HandlesUnique(Removed(t, id).users)
    ensures !Dangling(Removed(t, id).users, Removed(t, id).posts) ==> LinksOk(Removed(t, id))
    ensures forall other: nat :: HasId(Removed(t, id).users, other) <==> HasId(t.users, other) && other != id
  {
    hide Fold;
    DeleteWhereIs(t.users, id);
    var t' := Removed(t, id);
    forall other: nat | HasId(t.users, other) && other != id ensures HasId(t'.users, other) {
      var u :| u in t.users && u.id == other;
      assert u in t'.users;
    }
  }

  lemma RepoDeleteKeeps(t: Tables, repo: nat)
    requires LinksOk(t)
    ensures LinksOk(RepoDeleted(t, repo))
  {
    hide HasId;
  }

  lemma PostKeeps(t: Tables, id: nat, post: Post)
    requires LinksOk(t)
    ensures LinksOk(PostAdded(t, id, post))
  {
    hide HasId;
  }

  lemma RepoAddKeeps(t: Tables, repo: nat, owner: nat)
    requires LinksOk(t)
    ensures LinksOk(RepoAdded(t, repo, owner))
  {
    hide HasId, Dangling;
  }

  lemma {:induction false} RowUnique(users: seq<User>, u: User)
    requires IdsIncrease(users) && u in users
    ensures HasId(users, u.id) && Row(users, u.id) == u
  {
    if users[0] != u {
      assert users == [users[0]] + users[1..];
      var k :| 0 <= k < |users[1..]| && users[1..][k] == u;
      assert users[0].id < users[k + 1].id;
      RowUnique(users[1..], u);
    }
  }

  lemma {:induction false} EmailFound(users: seq<User>, email: string)
    requires forall u <- users :: u.id >= 1
    ensures IdByEmail(users, email) == 0 <==> forall u <- users :: Fold(u.email) != Fold(email)
    ensures IdByEmail(users, email) != 0 ==>
      exists u <- users :: u.id == IdByEmail(users, email) && Fold(u.email) == Fold(email)
  {
    if users != [] {
      assert users == [users[0]] + users[1..];
      EmailFound(users[1..], email);
    }
  }

  lemma {:induction false} HandleFound(users: seq<User>, handle: string)
    requires forall u <- users :: u.id >= 1
    ensures IdByHandle(users, handle) == 0 <==> forall u <- users :: Fold(u.handle) != Fold(handle)
    ensures IdByHandle(users, handle) != 0 ==>
      exists u <- users :: u.id == IdByHandle(users, handle) && Fold(u.handle) == Fold(handle)
  {
    if users != [] {
      assert users == [users[0]] + users[1..];
      HandleFound(users[1..], handle);
    }
  }

  /** Replacing a row keeps an enabled admin when the row itself was none, or still is one. */
  lemma ReplaceKeepsActive(users: seq<User>, row: User)
    requires IdsIncrease(users) && HasId(users, row.id) && HasActive(users)
    requires Active(Row(users, row.id)) ==> Active(row)
    ensures HasActive(WithRow(users, row))
  {
    var u :| u in users && Active(u);
    RowUnique(users, u);
    var i :| 0 <= i < |users| && users[i] == u;
    assert WithRow(users, row)[i] in WithRow(users, row);
  }

  lemma {:induction false} ReplaceLeavesOther(users: seq<User>, row: User, other: User)
    requires other in users && other.id != row.id
    ensures other in WithRow(users, row)
  {
    var i :| 0 <= i < |users| && users[i] == other;
    assert WithRow(users, row)[i] == other;
  }

  // ---- The guards ----

  /** The update guard, exactly: a request let through leaves an enabled admin; one refused would
      have left none if and only if its target is enabled. On a disabled admin it is too strict. */
  lemma UpdateGuardExact(t: Tables, id: nat, isAdmin: Option<bool>, disabled: Option<bool>, password: Option<string>)
    requires Inv(t) && HasId(t.users, id)
    ensures
      var after := Applied(t, id, isAdmin, disabled, password).users;
      HasActive(after) <==> !UpdateRefused(t, id, isAdmin, disabled) || Row(t.users, id).disabled
  {
    var cur := Row(t.users, id);
    var row := Changed(cur, isAdmin, disabled, password);
    var after := Applied(t, id, isAdmin, disabled, password).users;
    RowIs(t.users, id);
    if !LosingAdmin(cur, isAdmin, disabled) || cur.disabled {
      ReplaceKeepsActive(t.users, row);
    } else if ActiveAdmins(t.users) >= 2 {
      var other := AnotherActive(t.users, id);
      ReplaceLeavesOther(t.users, row, other);
    } else {
      OnlyOneEnabled(t.users, row);
    }
  }

  /** Two admins, the second one disabled: demoting the second would lose nobody, and is refused. */
  lemma GuardTooStrict() returns (t: Tables)
    ensures
      && Inv(t) && HasId(t.users, 2) && UpdateRefused(t, 2, Some(false), None) && DeleteRefused(t, Some(1), 2)
      && HasActive(Applied(t, 2, Some(false), None, None).users) && HasActive(Removed(t, 2).users)
  {
    var a := User(1, "a", "", "a", "", "", true, false);
    var b := User(2, "b", "", "b", "", "", true, true);
    t := Tables([a, b], map[], map[], map[], map[], 3);
    assert t.users[0] == a && t.users[1] == b;
    assert a in t.users && b in t.users;
    assert Fold("a") == "a" && Fold("b") == "b";
    assert Inv(t);
    RowUnique(t.users, b);
    assert t.users[1..] == [b] && [b][1..] == [];
    assert ActiveAdmins([b]) == 0;
    assert ActiveAdmins(t.users) == 1;
    UpdateGuardExact(t, 2, Some(false), None, None);
    DeleteGuardExact(t, Some(1), 2);
  }

  lemma OnlyOneEnabled(users: seq<User>, row: User)
    requires IdsIncrease(users) && HasId(users, row.id) && ActiveAdmins(users) <= 1
    requires Active(Row(users, row.id)) && !Active(row)
    ensures !HasActive(WithRow(users, row))
  {
    RowIs(users, row.id);
    forall v <- WithRow(users, row) ensures !Active(v) {
      var i :| 0 <= i < |users| && WithRow(users, row)[i] == v;
      if users[i].id != row.id && Active(users[i]) {
        OnlyActive(users, users[i], Row(users, row.id));
      }
    }
  }

  /** The delete guard, in the same way. */
  lemma DeleteGuardExact(t: Tables, actor: Option<nat>, id: nat)
    requires Inv(t) && HasId(t.users, id) && actor != Some(id)
    ensures HasActive(Removed(t, id).users) <==> !DeleteRefused(t, actor, id) || Row(t.users, id).disabled
  {
    var cur := Row(t.users, id);
    RowIs(t.users, id);
    DeleteWhereIs(t.users, id);
    if !Active(cur) {
      var u :| u in t.users && Active(u);
      RowUnique(t.users, u);
      assert u in Removed(t, id).users;
    } else if ActiveAdmins(t.users) >= 2 {
      var other := AnotherActive(t.users, id);
      assert other in Removed(t, id).users;
    } else {
      forall u <- Removed(t, id).users ensures !Active(u) {
        if Active(u) {
          OnlyActive(t.users, u, cur);
        }
      }
    }
  }

  // ---- Every step, every run ----

  lemma SignUpKeeps(t: Tables, email: string, handle: string, name: string, password: string, low: Lowering)
    requires Inv(t)
    ensures Inv(SignedUp(t, email, handle, name, password, low).0)
  {
    hide Inv, Allocated, Allocates, Address, HandleBase, Taken, Inserted, IdByEmail;
    var base := HandleBase(Address(email, low), handle, low);
    AllocationSucceeds(HandlesOf(t.users), base);
    if Allocated(HandlesOf(t.users), base).Ok? {
      var unique := Allocated(HandlesOf(t.users), base).value;
      InsertKeeps(t, unique, Address(email, low), if name == "" then unique else name, "", password, false);
    }
  }

  lemma RefreshKeeps(t: Tables, id: nat, name: string, email: string, avatar: string)
    requires Inv(t) && HasId(t.users, id)
    ensures Inv(t.(users := WithProfile(t.users, id, name, email, avatar)))
  {
    hide HandlesUnique, LinksOk, HasActive;
    var row := Row(t.users, id).(name := name, email := email, avatar := avatar);
    RowIs(t.users, id);
    assert WithProfile(t.users, id, name, email, avatar) == WithRow(t.users, row);
    hide HasId, Row, WithRow, WithProfile;
    ReplaceKeeps(t, row);
    if t.users != [] {
      ReplaceKeepsActive(t.users, row);
    } else {
      NoIdInEmpty(id);
    }
  }

  lemma NoIdInEmpty(id: nat)
    ensures !HasId([], id)
  {}

  lemma LinkKeeps(t: Tables, key: (string, string), owner: nat)
    requires Inv(t) && HasId(t.users, owner)
    ensures Inv(t.(identities := t.identities[key := owner]))
  {
    hide HasId, HandlesUnique, AdminOk;
  }

  lemma LoginKeeps(t: Tables, provider: string, subject: string, handle: string,
                   name: string, email: string, avatar: string)
    requires Inv(t)
    ensures Inv(LoggedIn(t, provider, subject, handle, name, email, avatar).0)
  {
    var key := (provider, subject);
    EmailFound(t.users, email);
    AllocationSucceeds(HandlesOf(t.users), handle);
    var owner := if email == "" then 0 else IdByEmail(t.users, email);
    var unique := Allocated(HandlesOf(t.users), handle);
    assert key in t.identities ==> HasId(t.users, t.identities[key]);
    assert owner != 0 ==> HasId(t.users, owner);
    hide Inv, Allocated, Allocates, Taken, Fold, HasId, IdByEmail, WithProfile, Inserted;
    if key in t.identities {
      RefreshKeeps(t, t.identities[key], name, email, avatar);
    } else if owner != 0 {
      LinkKeeps(t, key, owner);
    } else if unique.Ok? {
      InsertKeeps(t, unique.value, email, name, avatar, "", false);
      LinkKeeps(Inserted(t, unique.value, email, name, avatar, "", false), key, t.nextId);
      assert Inserted(t, unique.value, email, name, avatar, "", false).identities == t.identities by {
        InsertedLinks(t, unique.value, email, name, avatar, "", false);
      }
    }
  }

  lemma InsertedLinks(t: Tables, handle: string, email: string, name: string, avatar: string,
                           password: string, admin: bool)
    ensures Inserted(t, handle, email, name, avatar, password, admin).identities == t.identities
    ensures Inserted(t, handle, email, name, avatar, password, admin).sessions == t.sessions
  {}

  lemma InsertedRows(t: Tables, handle: string, email: string, name: string, avatar: string,
                     password: string, admin: bool)
    ensures
      var users := Inserted(t, handle, email, name, avatar, password, admin).users;
      && |users| == |t.users| + 1 && users[..|t.users|] == t.users
      && users[|t.users|] == User(t.nextId, handle, email, name, avatar, password, admin || t.users == [], false)
  {}

  lemma MintKeeps(t: Tables, handle: string)
    requires Inv(t)
    ensures Inv(Minted(t, handle).0)
  {
    HandleFound(t.users, handle);
    if IdByHandle(t.users, handle) == 0 {
      forall h <- HandlesOf(t.users) ensures Fold(h) != Fold(handle) {
        var i :| 0 <= i < |t.users| && HandlesOf(t.users)[i] == h;
        assert t.users[i] in t.users;
      }
      InsertKeeps(t, handle, "", handle, "", "", true);
    }
  }

  lemma UpdateKeeps(t: Tables, id: nat, isAdmin: Option<bool>, disabled: Option<bool>, password: Option<string>)
    requires Inv(t)
    ensures Inv(Updated(t, id, isAdmin, disabled, password).0)
  {
    if HasId(t.users, id) && !UpdateRefused(t, id, isAdmin, disabled) {
      RowIs(t.users, id);
      UpdateGuardExact(t, id, isAdmin, disabled, password);
      ReplaceKeeps(t, Changed(Row(t.users, id), isAdmin, disabled, password));
    }
  }

  lemma DeleteKeeps(t: Tables, actor: Option<nat>, id: nat)
    requires Inv(t)
    ensures Inv(Deleted(t, actor, id).0)
  {
    hide LinksOk, HandlesUnique, Dangling;
    RemoveKeeps(t, id);
    if !DeleteRefused(t, actor, id) {
      if HasId(t.users, id) {
        DeleteGuardExact(t, actor, id);
      } else {
        DeleteWhereIs(t.users, id);
        if HasActive(t.users) {
          var u :| u in t.users && Active(u);
          assert u in Removed(t, id).users;
        }
      }
    }
  }

  lemma OpenKeeps(t: Tables, secret: string, id: nat)
    requires Inv(t)
    ensures Inv(Opened(t, secret, id).0)
  {
    hide HasId, HandlesUnique, AdminOk;
  }

  lemma RepoStepKeeps(t: Tables, ev: Event)
    requires Inv(t) && (ev.AddRepo? || ev.AddPost? || ev.DropRepo?)
    ensures Inv(Next(t, ev))
  {
    hide LinksOk, Dangling, HandlesUnique, AdminOk;
    match ev
    case AddRepo(repo, owner) => RepoAddKeeps(t, repo, owner);
    case AddPost(post, row) => PostKeeps(t, post, row);
    case DropRepo(repo) => RepoDeleteKeeps(t, repo);
  }

  lemma StepKeepsInv(t: Tables, ev: Event)
    requires Inv(t)
    ensures Inv(Next(t, ev))
  {
    hide Inv, SignedUp, LoggedIn, Minted, Updated, Deleted;
    match ev
    case SignUp(email, handle, name, password, low) => SignUpKeeps(t, email, handle, name, password, low);
    case OidcLogin(provider, subject, handle, name, email, avatar) =>
      LoginKeeps(t, provider, subject, handle, name, email, avatar);
    case Mint(handle) => MintKeeps(t, handle);
    case Update(id, isAdmin, disabled, password) => UpdateKeeps(t, id, isAdmin, disabled, password);
    case Delete(actor, id) => DeleteKeeps(t, actor, id);
    case Open(secret, user) => OpenKeeps(t, secret, user);
    case AddRepo(_, _) => RepoStepKeeps(t, ev);
    case AddPost(_, _) => RepoStepKeeps(t, ev);
    case DropRepo(_) => RepoStepKeeps(t, ev);
  }

  lemma {:induction false} RunKeepsInv(t: Tables, evs: seq<Event>)
    requires Inv(t)
    ensures Inv(Run(t, evs))
    decreases |evs|
  {
    hide Inv, Next;
    if evs != [] {
      StepKeepsInv(t, evs[0]);
      RunKeepsInv(Next(t, evs[0]), evs[1..]);
    }
  }

  /** In every history there are no users at all, or there is an enabled admin; no two users share
      a handle, letter case aside; and no identity, session or post belongs to a user who is gone. */
  lemma EveryHistory(evs: seq<Event>)
    ensures
      var t := Run(FRESH, evs);
      && (t.users == [] || exists u <- t.users :: u.admin && !u.disabled)
      && (forall i: nat, j: nat | i < j < |t.users| :: Fold(t.users[i].handle) != Fold(t.users[j].handle))
      && (forall k <- t.identities :: HasId(t.users, t.identities[k]))
      && (forall k <- t.sessions :: HasId(t.users, t.sessions[k]))
      && (forall p <- t.posts :: t.posts[p].repo in t.repos && HasId(t.users, t.posts[p].author))
  {
    RunKeepsInv(FRESH, evs);
    var t := Run(FRESH, evs);
    hide Run, Fold;
    if t.users != [] {
      var u :| u in t.users && Active(u);
    }
  }

  // ---- Ids, sessions and replies ----

  lemma StepKeepsGone(t: Tables, ev: Event, id: nat)
    requires Inv(t) && id < t.nextId && !HasId(t.users, id)
    ensures id < Next(t, ev).nextId && !HasId(Next(t, ev).users, id)
  {
    if ev.Delete? {
      DeleteWhereIs(t.users, ev.id);
    } else {
      var t' := Next(t, ev);
      SameIds(t, ev);
      forall u <- t'.users ensures u.id != id {
        var i :| 0 <= i < |t'.users| && t'.users[i] == u;
        assert i < |t.users| ==> t.users[i] in t.users;
      }
    }
  }

  /** Short of a delete, rows keep their place and id, and a new row takes the next id. */
  lemma SameIds(t: Tables, ev: Event)
    requires Inv(t) && !ev.Delete?
    ensures t.nextId <= Next(t, ev).nextId
    ensures |t.users| <= |Next(t, ev).users|
    ensures forall i: nat | i < |t.users| :: Next(t, ev).users[i].id == t.users[i].id
    ensures forall i: nat | |t.users| <= i < |Next(t, ev).users| :: Next(t, ev).users[i].id == t.nextId
  {
    hide Next, Inv;
    if ev.Update? || (ev.OidcLogin? && (ev.provider, ev.subject) in t.identities) {
      RowChangeKeepsIds(t, ev);
    } else {
      NewRowsAtEnd(t, ev);
    }
  }

  /** The table is as it was, or has one more row, at the end and under the next id. */
  ghost predicate OneMoreRow(t: Tables, t': Tables) {
    || (t'.users == t.users && t'.nextId == t.nextId)
    || (|t'.users| == |t.users| + 1 && t'.users[..|t.users|] == t.users
        && t'.users[|t.users|].id == t.nextId && t'.nextId == t.nextId + 1)
  }

  lemma NewRowsAtEnd(t: Tables, ev: Event)
    requires !ev.Delete? && !ev.Update? && !(ev.OidcLogin? && (ev.provider, ev.subject) in t.identities)
    ensures OneMoreRow(t, Next(t, ev))
  {
    if ev.SignUp? {
      SignUpAddsRow(t, ev);
    } else if ev.OidcLogin? {
      LoginAddsRow(t, ev);
    } else {
      hide Fold, IdByHandle, HasId, Dangling, PostsIn, CanPost;
    }
  }

  lemma SignUpAddsRow(t: Tables, ev: Event)
    requires ev.SignUp?
    ensures OneMoreRow(t, Next(t, ev))
  {
    hide Allocated, Address, HandleBase, IdByEmail;
  }

  lemma LoginAddsRow(t: Tables, ev: Event)
    requires ev.OidcLogin? && (ev.provider, ev.subject) !in t.identities
    ensures OneMoreRow(t, Next(t, ev))
  {
    hide Allocated, IdByEmail;
  }

  lemma RowChangeKeepsIds(t: Tables, ev: Event)
    requires Inv(t)
    requires ev.Update? || (ev.OidcLogin? && (ev.provider, ev.subject) in t.identities)
    ensures |Next(t, ev).users| == |t.users| && Next(t, ev).nextId == t.nextId
    ensures forall i: nat | i < |t.users| :: Next(t, ev).users[i].id == t.users[i].id
  {
    hide HandlesUnique, AdminOk, Row, WithRow, WithoutUser, IdsIncrease, ActiveAdmins, UpdateRefused, HasId, Allocated,
      IdByEmail;
    if ev.Update? {
      if HasId(t.users, ev.id) {
        RowIs(t.users, ev.id);
        ReplaceKeepsIds(t.users, Changed(Row(t.users, ev.id), ev.isAdmin, ev.disabled, ev.newPassword));
      }
    } else {
      var id := t.identities[(ev.provider, ev.subject)];
      RowIs(t.users, id);
      ReplaceKeepsIds(t.users, Row(t.users, id).(name := ev.name, email := ev.email, avatar := ev.avatar));
    }
  }

  lemma ReplaceKeepsIds(users: seq<User>, row: User)
    ensures |WithRow(users, row)| == |users|
    ensures forall i: nat | i < |users| :: WithRow(users, row)[i].id == users[i].id
  {}

  /** A deleted account's id never comes back, so no row that outlived it can change owner. */
  lemma {:induction false} DeletedForEver(t: Tables, evs: seq<Event>, id: nat)
    requires Inv(t) && id < t.nextId && !HasId(t.users, id)
    ensures !HasId(Run(t, evs).users, id)
    decreases |evs|
  {
    hide Inv, Next, HasId;
    if evs != [] {
      StepKeepsInv(t, evs[0]);
      StepKeepsGone(t, evs[0], id);
      DeletedForEver(Next(t, evs[0]), evs[1..], id);
    }
  }

  /** A sign-up refused changes nothing; one accepted adds a row at the end and touches no other,
      with a handle nobody has, and it is admin exactly when it is the first. Short of 999 users it
      is accepted if and only if the address has an @, the password 8 bytes, and nobody has the address. */
  lemma SignUpReplies(t: Tables, email0: string, handle0: string, name: string, password: string, low: Lowering)
    requires Inv(t)
    ensures
      var (after, r) := SignedUp(t, email0, handle0, name, password, low);
      var email := TrimSpace(ToLower(email0, low));
      && (r.Err? ==> after == t)
      && (r.Ok? ==>
            |after.users| == |t.users| + 1 && after.users[..|t.users|] == t.users &&
            var u := after.users[|t.users|];
            && u.id == r.value && !HasId(t.users, u.id) && !Taken(HandlesOf(t.users), u.handle)
            && u.email == email && u.password == password && u.admin == (t.users == []) && !u.disabled
            && u.name == (if name == "" then u.handle else name) && u.avatar == ""
            && Allocates(HandlesOf(t.users), Sanitized(if handle0 == "" then Split(email, '@')[0] else handle0, low),
                         Ok(u.handle))
            && after.identities == t.identities && after.sessions == t.sessions)
      && (|t.users| < ATTEMPTS ==>
            (r.Ok? <==> '@' in email && |password| >= 8 && forall u <- t.users :: Fold(u.email) != Fold(email)))
  {
    hide Sanitized, TrimSpace, ToLower, Split, Allocated, Allocates, Taken, Fold, HandlesUnique, LinksOk, AdminOk,
      IdByEmail, HasId, IdsIncrease, Inserted;
    var email := Address(email0, low);
    EmailFound(t.users, email);
    AllocationSucceeds(HandlesOf(t.users), HandleBase(email, handle0, low));
    FreshId(t);
    var unique := Allocated(HandlesOf(t.users), HandleBase(email, handle0, low));
    if unique.Ok? {
      InsertedRows(t, unique.value, email, if name == "" then unique.value else name, "", password, false);
      InsertedLinks(t, unique.value, email, if name == "" then unique.value else name, "", password, false);
    }
  }

  /** The handle a sign-up without one is given starts from the address up to its first @. */
  lemma {:induction false} LocalPart(email: string)
    requires '@' in email
    ensures
      var local := Split(email, '@')[0];
      '@' !in local && |local| < |email| && email[..|local|] == local && email[|local|] == '@'
  {
    if email[0] != '@' {
      LocalPart(email[1..]);
    }
  }

  /** The command-line mint finds the user with that handle, letter case aside, or adds one, who is an
      admin; it touches no other row. */
  lemma MintReplies(t: Tables, handle: string)
    requires Inv(t)
    ensures
      var (after, id) := Minted(t, handle);
      && ((exists u <- t.users :: Fold(u.handle) == Fold(handle)) ==>
            after == t && exists u <- t.users :: u.id == id && Fold(u.handle) == Fold(handle))
      && ((forall u <- t.users :: Fold(u.handle) != Fold(handle)) ==>
            && id == t.nextId && !HasId(t.users, id)
            && after.users == t.users + [User(id, handle, "", handle, "", "", true, false)]
            && after.identities == t.identities && after.sessions == t.sessions)
  {
    hide Fold;
    HandleFound(t.users, handle);
    FreshId(t);
  }

  lemma FreshId(t: Tables)
    requires RowsOk(t)
    ensures !HasId(t.users, t.nextId)
  {}

  /** A login with a known identity finds its account and changes that account's profile only. */
  lemma ReturningLogin(t: Tables, provider: string, subject: string, handle: string,
                       name: string, email: string, avatar: string)
    requires Inv(t) && (provider, subject) in t.identities
    ensures
      var (after, r) := LoggedIn(t, provider, subject, handle, name, email, avatar);
      var id := t.identities[(provider, subject)];
      && r == Ok(id) && after.identities == t.identities && after.sessions == t.sessions
      && |after.users| == |t.users|
      && forall i: nat | i < |t.users| ::
           after.users[i] == if t.users[i].id != id then t.users[i]
                             else t.users[i].(name := name, email := email, avatar := avatar)
  {
    var id := t.identities[(provider, subject)];
    var row := Row(t.users, id).(name := name, email := email, avatar := avatar);
    RowIs(t.users, id);
    hide HandlesUnique, AdminOk, Row;
    forall i: nat | i < |t.users| && t.users[i].id == id ensures t.users[i] == Row(t.users, id) {
      RowUnique(t.users, t.users[i]);
    }
  }

  /** A login with an unknown identity joins an account that has the address, as it is; failing
      that it adds one, an admin exactly when it is the first; and it can only fail at 999 users. */
  lemma FirstLogin(t: Tables, provider: string, subject: string, handle: string,
                   name: string, email: string, avatar: string)
    requires Inv(t) && (provider, subject) !in t.identities
    ensures
      var (after, r) := LoggedIn(t, provider, subject, handle, name, email, avatar);
      var known := email != "" && exists u <- t.users :: Fold(u.email) == Fold(email);
      && (r.Err? ==> after == t && |t.users| >= ATTEMPTS)
      && (r.Ok? ==> after.identities == t.identities[(provider, subject) := r.value])
      && (known ==> after.users == t.users && r.Ok? && exists u <- t.users :: u.id == r.value && Fold(u.email) == Fold(email))
      && (!known && r.Ok? ==>
            |after.users| == |t.users| + 1 && after.users[..|t.users|] == t.users && !HasId(t.users, r.value) &&
            var u := after.users[|t.users|];
            && u == User(r.value, u.handle, email, name, avatar, "", t.users == [], false)
            && !Taken(HandlesOf(t.users), u.handle) && Allocates(HandlesOf(t.users), handle, Ok(u.handle)))
  {
    hide Allocated, Allocates, Taken, Fold, HandlesUnique, LinksOk, AdminOk, IdByEmail, HasId, IdsIncrease, Inserted;
    EmailFound(t.users, email);
    AllocationSucceeds(HandlesOf(t.users), handle);
    FreshId(t);
    var unique := Allocated(HandlesOf(t.users), handle);
    if unique.Ok? {
      InsertedRows(t, unique.value, email, name, avatar, "", false);
      InsertedLinks(t, unique.value, email, name, avatar, "", false);
    }
  }

  /** Disabling signs the user out everywhere, even when the request is then answered 400 for its
      password: the refused password is all that such an answer leaves undone. */
  lemma UpdateReplies(t: Tables, id: nat, isAdmin: Option<bool>, disabled: Option<bool>, password: Option<string>)
    requires Inv(t)
    ensures
      var (after, reply) := Updated(t, id, isAdmin, disabled, password);
      && (reply == NotFound <==> !HasId(t.users, id))
      && (reply == Conflict <==>
            && HasId(t.users, id) && Row(t.users, id).admin && (isAdmin == Some(false) || disabled == Some(true))
            && ActiveAdmins(t.users) <= 1)
      && (reply == BadRequest ==> password.Some? && password.value != "" && |password.value| < 8)
      && (reply == Done ==> password.None? || password.value == "" || |password.value| >= 8)
      && (reply == NotFound || reply == Conflict ==> after == t)
      && (reply == BadRequest ==> after == Updated(t, id, isAdmin, disabled, None).0)
      && (reply == BadRequest || reply == Done ==>
            HasId(after.users, id)
            && Row(after.users, id).admin == Or(isAdmin, Row(t.users, id).admin)
            && Row(after.users, id).disabled == Or(disabled, Row(t.users, id).disabled)
            && Row(after.users, id).password ==
                 (if reply == Done && password.Some? then password.value else Row(t.users, id).password)
            && Row(after.users, id).handle == Row(t.users, id).handle
            && Row(after.users, id).email == Row(t.users, id).email
            && (disabled == Some(true) ==> forall k <- after.sessions :: after.sessions[k] != id)
            && forall u | u in t.users && u.id != id :: u in after.users)
  {
    hide Inv, HasId, Row, WithRow, ActiveAdmins, WithoutUser;
    if HasId(t.users, id) && !UpdateRefused(t, id, isAdmin, disabled) {
      AppliedRow(t, id, isAdmin, disabled, password);
    }
  }

  lemma AppliedRow(t: Tables, id: nat, isAdmin: Option<bool>, disabled: Option<bool>, password: Option<string>)
    requires HasId(t.users, id)
    ensures
      var after := Applied(t, id, isAdmin, disabled, password);
      && HasId(after.users, id)
      && Row(after.users, id) == Changed(Row(t.users, id), isAdmin, disabled, password)
      && (disabled == Some(true) ==> forall k <- after.sessions :: after.sessions[k] != id)
      && forall u | u in t.users && u.id != id :: u in after.users
  {
    var row := Changed(Row(t.users, id), isAdmin, disabled, password);
    RowIs(t.users, id);
    hide HasId, Row;
    WithRowTwice(t.users, row, row);
    forall u | u in t.users && u.id != id ensures u in WithRow(t.users, row) {
      ReplaceLeavesOther(t.users, row, u);
    }
  }

  // ---- Sessions ----

  /** A session is opened exactly for a user who exists under a secret not in use, and is then the
      user's; no other row changes. */
  lemma OpenReplies(t: Tables, secret: string, id: nat)
    ensures
      var (after, ok) := Opened(t, secret, id);
      && (ok <==> secret !in t.sessions && HasId(t.users, id))
      && (ok ==> after == t.(sessions := t.sessions[secret := id]))
      && (!ok ==> after == t)
  {}

  /** The step signs the user out: the user goes, or is disabled by an update that is not refused. */
  ghost predicate SignsOut(t: Tables, ev: Event, id: nat) {
    || !HasId(Next(t, ev).users, id)
    || (ev.Update? && ev.id == id && ev.disabled == Some(true) && !UpdateRefused(t, id, ev.isAdmin, ev.disabled))
  }

  lemma WithoutUserAt<K>(rows: map<K, nat>, id: nat, k: K)
    ensures k in WithoutUser(rows, id) <==> k in rows && rows[k] != id
    ensures k in WithoutUser(rows, id) ==> WithoutUser(rows, id)[k] == rows[k]
  {}

  /** What a step other than a delete does to the sessions. */
  lemma SessionsAfter(t: Tables, ev: Event)
    requires !ev.Delete?
    ensures Next(t, ev).sessions ==
      if ev.Open? && Opened(t, ev.secret, ev.user).1 then t.sessions[ev.secret := ev.user]
      else if ev.Update? && HasId(t.users, ev.id) && !UpdateRefused(t, ev.id, ev.isAdmin, ev.disabled)
              && ev.disabled == Some(true)
        then WithoutUser(t.sessions, ev.id)
      else t.sessions
  {
    hide Fold, IdByEmail, IdByHandle, Allocated, Address, HandleBase, Dangling, HasId, UpdateRefused, WithoutUser, WithRow,
      Changed, Row, WithProfile, PostsIn, CanPost, Inserted;
    forall handle, email, name, avatar, password, admin
      ensures Inserted(t, handle, email, name, avatar, password, admin).sessions == t.sessions
    {
      InsertedLinks(t, handle, email, name, avatar, password, admin);
    }
  }

  lemma SessionStep(t: Tables, ev: Event, secret: string, id: nat)
    requires Inv(t) && secret in t.sessions && t.sessions[secret] == id
    ensures secret in Next(t, ev).sessions <==> !SignsOut(t, ev, id)
    ensures secret in Next(t, ev).sessions ==> Next(t, ev).sessions[secret] == id
  {
    OwnerExists(t, secret);
    if ev.Delete? {
      DeleteSession(t, ev.actor, ev.id, secret, id);
    } else {
      hide Inv, HasId, UpdateRefused, Next, WithoutUser;
      UserKept(t, ev, id);
      SessionsAfter(t, ev);
      if ev.Update? {
        WithoutUserAt(t.sessions, ev.id, secret);
      }
    }
  }

  lemma OwnerExists(t: Tables, secret: string)
    requires Inv(t) && secret in t.sessions
    ensures HasId(t.users, t.sessions[secret])
  {}

  lemma DeleteSession(t: Tables, actor: Option<nat>, id: nat, secret: string, owner: nat)
    requires Inv(t) && secret in t.sessions && t.sessions[secret] == owner
    ensures
      var t' := Deleted(t, actor, id).0;
      && (secret in t'.sessions <==> HasId(t'.users, owner))
      && (secret in t'.sessions ==> t'.sessions[secret] == owner)
  {
    RemoveKeeps(t, id);
    WithoutUserAt(t.sessions, id, secret);
    assert HasId(t.users, owner);
    hide HasId, Dangling, DeleteRefused, HandlesUnique, AdminOk, RowsOk;
  }

  lemma UserKept(t: Tables, ev: Event, id: nat)
    requires Inv(t) && !ev.Delete? && HasId(t.users, id)
    ensures HasId(Next(t, ev).users, id)
  {
    SameIds(t, ev);
    hide Next, Inv;
    var i :| 0 <= i < |t.users| && t.users[i].id == id;
    assert Next(t, ev).users[i] in Next(t, ev).users;
  }

  ghost predicate SomeSignsOut(t: Tables, evs: seq<Event>, id: nat)
    decreases |evs|
  {
    evs != [] && (SignsOut(t, evs[0], id) || SomeSignsOut(Next(t, evs[0]), evs[1..], id))
  }

  lemma StaysSignedOut(t: Tables, ev: Event, secret: string)
    requires secret !in t.sessions && !(ev.Open? && ev.secret == secret)
    ensures secret !in Next(t, ev).sessions
  {
    if ev.Delete? {
      WithoutUserAt(t.sessions, ev.id, secret);
    } else {
      hide Next, WithoutUser;
      SessionsAfter(t, ev);
      if ev.Update? {
        WithoutUserAt(t.sessions, ev.id, secret);
      }
    }
  }

  lemma {:induction false} SignedOutForGood(t: Tables, evs: seq<Event>, secret: string)
    requires secret !in t.sessions && forall ev <- evs :: !(ev.Open? && ev.secret == secret)
    ensures secret !in Run(t, evs).sessions
    decreases |evs|
  {
    hide Next;
    if evs != [] {
      StaysSignedOut(t, evs[0], secret);
      SignedOutForGood(Next(t, evs[0]), evs[1..], secret);
    }
  }

  /** In every history a session whose secret is not drawn again is there exactly until a step signs
      its user out, and as long as it is there it is that user's. */
  lemma {:induction false} SessionLifeIff(t: Tables, evs: seq<Event>, secret: string, id: nat)
    requires Inv(t) && secret in t.sessions && t.sessions[secret] == id
    requires forall ev <- evs :: !(ev.Open? && ev.secret == secret)
    ensures secret in Run(t, evs).sessions <==> !SomeSignsOut(t, evs, id)
    ensures secret in Run(t, evs).sessions ==> Run(t, evs).sessions[secret] == id
    decreases |evs|
  {
    hide Inv, Next, SignsOut;
    if evs != [] {
      StepKeepsInv(t, evs[0]);
      SessionStep(t, evs[0], secret, id);
      if SignsOut(t, evs[0], id) {
        SignedOutForGood(Next(t, evs[0]), evs[1..], secret);
      } else {
        SessionLifeIff(Next(t, evs[0]), evs[1..], secret, id);
      }
    }
  }

  // ---- Deletes ----

  /** A repository is added for an owner who exists, under an id not in use; a post for an author and in
      a repository that exist, in reply to nothing or to a post that exists. Nothing else changes. */
  lemma AddReplies(t: Tables, repo: nat, owner: nat, id: nat, post: Post)
    ensures Next(t, AddRepo(repo, owner)) ==
      if repo !in t.repos && HasId(t.users, owner) then t.(repos := t.repos[repo := Some(owner)]) else t
    ensures Next(t, AddPost(id, post)) ==
      if id !in t.posts && post.repo in t.repos && HasId(t.users, post.author)
         && (post.replyTo == None || post.replyTo.value in t.posts)
        then t.(posts := t.posts[id := post])
      else t
  {}

  /** The user wrote something in a repository of somebody else's. */
  predicate WroteElsewhere(t: Tables, id: nat) {
    exists p <- t.posts :: t.posts[p].author == id && OwnerOf(t.repos, t.posts[p].repo) != Some(id)
  }

  predicate IsReplyTo(t: Tables, p: nat, q: nat) {
    p in t.posts && q in t.posts && t.posts[p].replyTo == Some(q)
  }

  /** Somebody, in a repository that is not the user's, replied to a comment in one that is. */
  ghost predicate RepliedFromOutside(t: Tables, id: nat) {
    exists p: nat, q: nat ::
      && IsReplyTo(t, p, q)
      && OwnerOf(t.repos, t.posts[q].repo) == Some(id) && OwnerOf(t.repos, t.posts[p].repo) != Some(id)
  }

  /** The posts that a user's delete leaves are those in repositories of others. */
  lemma PostsLeft(t: Tables, id: nat)
    requires LinksOk(t)
    ensures forall p: nat :: p in Removed(t, id).posts <==> p in t.posts && OwnerOf(t.repos, t.posts[p].repo) != Some(id)
    ensures forall p <- Removed(t, id).posts :: Removed(t, id).posts[p] == t.posts[p]
  {
    hide HasId, Dangling, DeleteWhere, WithoutUser;
  }

  /** The delete statement fails exactly on one of these, whatever the user wrote at home. */
  lemma CascadeBlockedIff(t: Tables, id: nat)
    requires Inv(t)
    ensures Dangling(Removed(t, id).users, Removed(t, id).posts) <==> WroteElsewhere(t, id) || RepliedFromOutside(t, id)
  {
    hide HandlesUnique, AdminOk, HasId, RowsOk, Removed, OwnerOf;
    RemoveKeeps(t, id);
    PostsLeft(t, id);
    var t' := Removed(t, id);
    if Dangling(t'.users, t'.posts) {
      var p :| p in t'.posts &&
        (!HasId(t'.users, t'.posts[p].author) || (t'.posts[p].replyTo.Some? && t'.posts[p].replyTo.value !in t'.posts));
      assert HasId(t.users, t.posts[p].author);
      if t.posts[p].author != id {
        assert IsReplyTo(t, p, t.posts[p].replyTo.value);
      }
    }
    if WroteElsewhere(t, id) {
      var p :| p in t.posts && t.posts[p].author == id && OwnerOf(t.repos, t.posts[p].repo) != Some(id);
      assert p in t'.posts && !HasId(t'.users, t'.posts[p].author);
    }
    if RepliedFromOutside(t, id) {
      var p: nat, q: nat :| IsReplyTo(t, p, q)
        && OwnerOf(t.repos, t.posts[q].repo) == Some(id) && OwnerOf(t.repos, t.posts[p].repo) != Some(id);
      assert p in t'.posts && t'.posts[p].replyTo == Some(q) && q !in t'.posts;
    }
  }

  /** A delete answered OK leaves the account, and everything else as it was, exactly when the user
      wrote something in somebody else's repository or a comment in one of the user's own has a
      reply elsewhere. Otherwise the user, the user's repositories and sessions, and all that was
      written in those repositories are gone, and every other user stays. */
  lemma DeleteReplies(t: Tables, actor: Option<nat>, id: nat)
    requires Inv(t)
    ensures
      var (after, reply) := Deleted(t, actor, id);
      var blocked := WroteElsewhere(t, id) || RepliedFromOutside(t, id);
      && (reply == Conflict || reply == Done)
      && (reply == Conflict <==>
            actor == Some(id) || (HasId(t.users, id) && Row(t.users, id).admin && ActiveAdmins(t.users) <= 1))
      && (reply == Conflict || blocked ==> after == t)
      && (reply == Done ==> (HasId(after.users, id) <==> HasId(t.users, id) && blocked))
      && (reply == Done && !blocked ==>
            && (forall u :: u in after.users <==> u in t.users && u.id != id)
            && (forall k <- after.sessions :: after.sessions[k] != id)
            && (forall r: nat :: r in after.repos <==> r in t.repos && t.repos[r] != Some(id))
            && (forall p: nat :: p in after.posts <==> p in t.posts && OwnerOf(t.repos, t.posts[p].repo) != Some(id)))
  {
    CascadeBlockedIff(t, id);
    RemoveKeeps(t, id);
    DeleteWhereIs(t.users, id);
    hide Inv, HandlesUnique, AdminOk, HasId, RowsOk, Dangling, WroteElsewhere, RepliedFromOutside;
    assert LinksOk(t);
  }

  lemma Empty<T>(m: map<nat, T>)
    requires forall k: nat :: k !in m
    ensures m == map[]
  {}

  /** A user with a pull request in a repository of their own is deleted, repository and all. */
  lemma OwnPullsDoNotBlock() returns (t: Tables)
    ensures Inv(t) && t.repos == map[7 := Some(2)] && t.posts == map[1 := Post(7, 2, None)]
    ensures Deleted(t, Some(1), 2).1 == Done && !HasId(Deleted(t, Some(1), 2).0.users, 2)
    ensures Deleted(t, Some(1), 2).0.repos == map[] && Deleted(t, Some(1), 2).0.posts == map[]
  {
    hide Inv, Deleted, HasId, DeleteRefused;
    t := TwoUsers(map[7 := Some(2)], map[1 := Post(7, 2, None)]);
    DeleteReplies(t, Some(1), 2);
    assert OwnerOf(t.repos, 7) == Some(2);
    assert !WroteElsewhere(t, 2) && !RepliedFromOutside(t, 2);
    Empty(Deleted(t, Some(1), 2).0.repos);
    Empty(Deleted(t, Some(1), 2).0.posts);
  }

  /** One comment in somebody else's repository is enough to stay. */
  lemma CommentElsewhereBlocks() returns (t: Tables)
    ensures Inv(t) && t.repos == map[7 := Some(1)] && t.posts == map[1 := Post(7, 1, None), 2 := Post(7, 2, None)]
    ensures Deleted(t, Some(1), 2) == (t, Done) && HasId(t.users, 2)
  {
    t := TwoUsers(map[7 := Some(1)], map[1 := Post(7, 1, None), 2 := Post(7, 2, None)]);
    DeleteReplies(t, Some(1), 2);
    assert t.posts[2].author == 2;
  }

  /** So is another user's reply, in their own repository, to a comment in the user's: nothing checks
      that a reply is on the same pull request. */
  lemma ReplyFromOutsideBlocks() returns (t: Tables)
    ensures Inv(t) && t.repos == map[7 := Some(2), 8 := Some(1)]
    ensures t.posts == map[1 := Post(7, 2, None), 2 := Post(8, 1, Some(1))]
    ensures Deleted(t, Some(1), 2) == (t, Done) && HasId(t.users, 2)
  {
    t := TwoUsers(map[7 := Some(2), 8 := Some(1)], map[1 := Post(7, 2, None), 2 := Post(8, 1, Some(1))]);
    DeleteReplies(t, Some(1), 2);
    assert IsReplyTo(t, 2, 1);
  }

  /** Users 1 and 2, the first an admin, with these repositories and posts. */
  lemma TwoUsers(repos: map<nat, Option<nat>>, posts: map<nat, Post>) returns (t: Tables)
    requires forall r <- repos :: repos[r] == Some(1) || repos[r] == Some(2)
    requires forall p <- posts :: posts[p].repo in repos && 1 <= posts[p].author <= 2
    requires forall p <- posts :: posts[p].replyTo.Some? ==> posts[p].replyTo.value in posts
    ensures Inv(t) && t.repos == repos && t.posts == posts && HasId(t.users, 2) && Deleted(t, Some(1), 2).1 == Done
  {
    var a := User(1, "a", "", "a", "", "", true, false);
    var b := User(2, "b", "", "b", "", "", false, false);
    t := Tables([a, b], map[], map[], repos, posts, 3);
    assert t.users[0] == a && t.users[1] == b;
    assert a in t.users && b in t.users;
    assert HasId(t.users, 1) && HasId(t.users, 2);
    assert Fold("a") == "a" && Fold("b") == "b";
    assert LinksOk(t);
    RowUnique(t.users, b);
  }

  /** Deleting a repository leaves it, its rows and all, exactly when some comment elsewhere replies
      to one in it. The handler does not look, and removes the git storage all the same. */
  lemma RepoDeleteIff(t: Tables, repo: nat)
    requires Inv(t) && repo in t.repos
    ensures repo in RepoDeleted(t, repo).repos <==>
      exists p: nat, q: nat :: IsReplyTo(t, p, q) && t.posts[q].repo == repo && t.posts[p].repo != repo
    ensures repo in RepoDeleted(t, repo).repos ==> RepoDeleted(t, repo) == t
  {
    hide HandlesUnique, AdminOk, HasId, RowsOk;
    assert LinksOk(t);
    var posts := PostsIn(t.posts, t.repos - {repo});
    if Dangling(t.users, posts) {
      var p :| p in posts &&
        (!HasId(t.users, posts[p].author) || (posts[p].replyTo.Some? && posts[p].replyTo.value !in posts));
      assert IsReplyTo(t, p, t.posts[p].replyTo.value);
    }
    if p: nat, q: nat :| IsReplyTo(t, p, q) && t.posts[q].repo == repo && t.posts[p].repo != repo {
      assert p in posts && posts[p].replyTo == Some(q) && q !in posts;
    }
  }

  /** Logging in again with the same identity finds the same account, whatever the provider now
      says about it, and creates nobody. */
  lemma SecondLoginSameUser(t: Tables, provider: string, subject: string, handle: string, name: string, email: string,
                            avatar: string, handle': string, name': string, email': string, avatar': string)
    requires Inv(t) && LoggedIn(t, provider, subject, handle, name, email, avatar).1.Ok?
    ensures
      var (t1, r1) := LoggedIn(t, provider, subject, handle, name, email, avatar);
      var (t2, r2) := LoggedIn(t1, provider, subject, handle', name', email', avatar');
      r2 == r1 && |t2.users| == |t1.users| && t2.identities == t1.identities && HasId(t1.users, r1.value)
  {
    LoginKeeps(t, provider, subject, handle, name, email, avatar);
    var (t1, r1) := LoggedIn(t, provider, subject, handle, name, email, avatar);
    assert (provider, subject) in t1.identities && t1.identities[(provider, subject)] == r1.value;
  }

  // ---- Emails ----

  ghost predicate EmailsUnique(users: seq<User>) {
    forall i: nat, j: nat | i < j < |users| && users[i].email != "" :: Fold(users[i].email) != Fold(users[j].email)
  }

  /** A returning login whose provider now reports another account's address. */
  ghost predicate TakesEmail(t: Tables, ev: Event) {
    && ev.OidcLogin? && (ev.provider, ev.subject) in t.identities && ev.email != ""
    && exists u <- t.users :: u.id != t.identities[(ev.provider, ev.subject)] && Fold(u.email) == Fold(ev.email)
  }

  lemma InsertKeepsEmails(users: seq<User>, u: User)
    requires EmailsUnique(users)
    requires u.email == "" || forall v <- users :: Fold(v.email) != Fold(u.email)
    ensures EmailsUnique(users + [u])
  {
    forall i: nat | i < |users| && users[i].email != "" ensures Fold(users[i].email) != Fold(u.email) {
      assert users[i] in users;
    }
  }

  lemma {:induction false} DeleteKeepsEmails(users: seq<User>, id: nat)
    requires EmailsUnique(users)
    ensures EmailsUnique(DeleteWhere(users, id))
  {
    hide EmailsUnique;
    if users != [] {
      TailKeeps(users);
      DeleteKeepsEmails(users[1..], id);
      DeleteWhereIs(users[1..], id);
      DeleteHeadEmails(users, id);
    } else {
      assert DeleteWhere(users, id) == users;
    }
  }

  lemma DeleteHeadEmails(users: seq<User>, id: nat)
    requires users != [] && EmailsUnique(users) && EmailsUnique(DeleteWhere(users[1..], id))
    requires forall u :: u in DeleteWhere(users[1..], id) <==> u in users[1..] && u.id != id
    ensures EmailsUnique(DeleteWhere(users, id))
  {
    hide Fold;
    var rest := DeleteWhere(users[1..], id);
    forall j: nat | j < |rest| && users[0].email != "" ensures Fold(users[0].email) != Fold(rest[j].email) {
      var k := RemainsBehind(users, id, rest[j]);
    }
  }

  ghost predicate AddressFree(users: seq<User>, row: User) {
    row.email == "" || forall u <- users :: u.id != row.id ==> Fold(u.email) != Fold(row.email)
  }

  lemma RefreshedEmails(users: seq<User>, row: User)
    requires IdsIncrease(users) && EmailsUnique(users) && HasId(users, row.id)
    ensures EmailsUnique(WithRow(users, row)) <==> AddressFree(users, row)
  {
    if AddressFree(users, row) {
      FreeAddressKeeps(users, row);
    } else {
      hide Fold;
      var u :| u in users && u.id != row.id && Fold(u.email) == Fold(row.email);
      var i: nat :| i < |users| && users[i] == u;
      var k: nat :| k < |users| && users[k].id == row.id;
      assert WithRow(users, row)[i] == u && WithRow(users, row)[k] == row;
      SameFold(u.email, row.email);
    }
  }

  lemma SameFold(a: string, b: string)
    requires Fold(a) == Fold(b)
    ensures |a| == |b|
  {
    assert |Fold(a)| == |a|;
  }

  lemma FreeAddressKeeps(users: seq<User>, row: User)
    requires IdsIncrease(users) && EmailsUnique(users) && AddressFree(users, row)
    ensures EmailsUnique(WithRow(users, row))
  {
    var us := WithRow(users, row);
    forall i: nat, j: nat | i < j < |us| && us[i].email != "" ensures Fold(us[i].email) != Fold(us[j].email) {
      assert users[i] in users && users[j] in users;
      if us[j].email == "" {
        assert Fold(us[j].email) == "";
      }
    }
  }

  /** Sign-up, first login and mint keep addresses unique; what can break it, and always does, is a
      returning OIDC login that reports another account's address: the refresh does not check. */
  lemma EmailsStepIff(t: Tables, ev: Event)
    requires Inv(t) && EmailsUnique(t.users)
    ensures EmailsUnique(Next(t, ev).users) <==> !TakesEmail(t, ev)
  {
    hide Fold, Next, RowsOk, HandlesUnique, LinksOk, AdminOk, EmailsUnique;
    match ev
    case SignUp(_, _, _, _, _) => NewUserEmails(t, ev);
    case Mint(_) => NewUserEmails(t, ev);
    case OidcLogin(provider, subject, _, _, _, _) =>
      if (provider, subject) in t.identities {
        RefreshEmails(t, ev);
      } else {
        NewUserEmails(t, ev);
      }
    case Update(_, _, _, _) => UpdateEmails(t, ev);
    case _ => OtherEmails(t, ev);
  }

  lemma NewUserEmails(t: Tables, ev: Event)
    requires Inv(t) && EmailsUnique(t.users)
    requires ev.SignUp? || ev.Mint? || (ev.OidcLogin? && (ev.provider, ev.subject) !in t.identities)
    ensures EmailsUnique(Next(t, ev).users)
  {
    hide Fold, Allocated, Address, HandleBase, HandlesUnique, LinksOk, AdminOk, IdByEmail, IdByHandle, EmailsUnique;
    var email := if ev.SignUp? then Address(ev.email, ev.low) else if ev.OidcLogin? then ev.email else "";
    EmailFound(t.users, email);
    var users := Next(t, ev).users;
    if users != t.users {
      assert users == t.users + [users[|t.users|]] && users[|t.users|].email == email;
      InsertKeepsEmails(t.users, users[|t.users|]);
    }
  }

  lemma RefreshEmails(t: Tables, ev: Event)
    requires Inv(t) && EmailsUnique(t.users)
    requires ev.OidcLogin? && (ev.provider, ev.subject) in t.identities
    ensures EmailsUnique(Next(t, ev).users) <==> !TakesEmail(t, ev)
  {
    hide Fold, Row, WithRow, EmailsUnique, HandlesUnique, AdminOk, Allocated, IdByEmail;
    var id := t.identities[(ev.provider, ev.subject)];
    RowIs(t.users, id);
    RefreshedEmails(t.users, Row(t.users, id).(name := ev.name, email := ev.email, avatar := ev.avatar));
  }

  lemma UpdateEmails(t: Tables, ev: Event)
    requires Inv(t) && EmailsUnique(t.users) && ev.Update?
    ensures EmailsUnique(Next(t, ev).users)
  {
    hide Fold, Row, WithRow, EmailsUnique, HandlesUnique, AdminOk, LinksOk, UpdateRefused, WithoutUser;
    if HasId(t.users, ev.id) {
      var cur := Row(t.users, ev.id);
      RowIs(t.users, ev.id);
      RefreshedEmails(t.users, Changed(cur, ev.isAdmin, ev.disabled, ev.newPassword));
      if cur.email != "" {
        OwnEmail(t.users, cur);
      }
    }
  }

  lemma OtherEmails(t: Tables, ev: Event)
    requires EmailsUnique(t.users)
    requires ev.Delete? || ev.Open? || ev.AddRepo? || ev.AddPost? || ev.DropRepo?
    ensures EmailsUnique(Next(t, ev).users)
  {
    hide Fold, EmailsUnique, Dangling, DeleteRefused, PostsIn, HasId;
    if ev.Delete? {
      DeleteKeepsEmails(t.users, ev.id);
    }
  }

  lemma OwnEmail(users: seq<User>, u: User)
    requires EmailsUnique(users) && u in users && u.email != ""
    ensures forall v <- users :: v.id != u.id ==> Fold(v.email) != Fold(u.email)
  {}

  /** Throughout the run. */
  ghost predicate EmailsUniqueAlong(t: Tables, evs: seq<Event>)
    decreases |evs|
  {
    EmailsUnique(t.users) && (evs != [] ==> EmailsUniqueAlong(Next(t, evs[0]), evs[1..]))
  }

  ghost predicate SomeTakesEmail(t: Tables, evs: seq<Event>)
    decreases |evs|
  {
    evs != [] && (TakesEmail(t, evs[0]) || SomeTakesEmail(Next(t, evs[0]), evs[1..]))
  }

  lemma {:induction false} EmailsRunIff(t: Tables, evs: seq<Event>)
    requires Inv(t) && EmailsUnique(t.users)
    ensures EmailsUniqueAlong(t, evs) <==> !SomeTakesEmail(t, evs)
    decreases |evs|
  {
    hide Inv, EmailsUnique, TakesEmail, Next;
    if evs != [] {
      EmailsStepIff(t, evs[0]);
      if !TakesEmail(t, evs[0]) {
        StepKeepsInv(t, evs[0]);
        EmailsRunIff(Next(t, evs[0]), evs[1..]);
      }
    }
  }

  /** In every history: addresses are unique at every moment exactly when no returning login ever
      reports another account's. */
  lemma EmailsUniqueIff(evs: seq<Event>)
    ensures EmailsUniqueAlong(FRESH, evs) <==> !SomeTakesEmail(FRESH, evs)
  {
    EmailsRunIff(FRESH, evs);
  }

  /** Two accounts with their own addresses; the second one's provider then reports the first one's. */
  lemma ReturningLoginTakesEmail() returns (t: Tables, ev: Event)
    ensures Inv(t) && EmailsUnique(t.users) && !EmailsUnique(Next(t, ev).users)
  {
    t := TwoAddresses();
    ev := OidcLogin("github", "2", "b", "b", "A@x", "");
    hide Fold, Next, Inv, EmailsUnique;
    AddressesFold();
    assert t.users[0] in t.users;
    assert TakesEmail(t, ev);
    EmailsStepIff(t, ev);
  }

  lemma TwoAddresses() returns (t: Tables)
    ensures Inv(t) && EmailsUnique(t.users)
    ensures |t.users| == 2 && t.users[0].id == 1 && t.users[0].email == "a@x"
    ensures t.identities == map[("github", "2") := 2]
  {
    var a := User(1, "a", "a@x", "a", "", "", true, false);
    var b := User(2, "b", "b@x", "b", "", "", false, false);
    t := Tables([a, b], map[("github", "2") := 2], map[], map[], map[], 3);
    AddressesFold();
    assert Fold("a") == "a" && Fold("b") == "b";
    hide Fold;
    assert t.users[0] == a && t.users[1] == b;
    assert a in t.users && b in t.users;
    assert HasId(t.users, 2);
    assert LinksOk(t);
  }

  lemma AddressesFold()
    ensures Fold("a@x") == "a@x" == Fold("A@x") && Fold("b@x") == "b@x"
  {
    assert Fold("a") == "a" == Fold("A") && Fold("b") == "b";
    assert Fold("@") == "@" && Fold("x") == "x";
    hide Fold;
    FoldConcat("@", "x");
    FoldConcat("a", "@x");
    FoldConcat("A", "@x");
    FoldConcat("b", "@x");
    assert "a" + "@x" == "a@x" && "A" + "@x" == "A@x" && "b" + "@x" == "b@x" && "@" + "x" == "@x";
  }
}
