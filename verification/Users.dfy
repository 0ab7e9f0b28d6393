/**
 The user table of internal/auth and internal/api/admin.go: sign-up, OIDC login, the
 command-line mint, and the two admin requests, each one atomic step. SQL statements are
 expressions over the tables; AUTOINCREMENT ids start at 1 and are never reused.

 Foreign keys are those of internal/db/migrations: identities, sessions and repositories go
 with their user, and pulls, issues, comments and reviews (`posts`) with their repository;
 but a post does not go with its author, nor a comment with the one it replies to, so a
 statement that would leave either of those dangling at its end fails and does nothing.
 */
module Users {
  import opened Wrappers
  import opened Text
  import opened Handles

  /** `password` is the password itself, "" for none: the stored hash is ideal. */
  datatype User = User(id: nat, handle: string, email: string, name: string, avatar: string,
                       password: string, admin: bool, disabled: bool)

  /** A pull request, an issue, a comment or a review; only a comment on a pull can be a reply. */
  datatype Post = Post(repo: nat, author: nat, replyTo: Option<nat>)

  /** `repos` gives each repository's owner, if it has one. */
  datatype Tables = Tables(users: seq<User>, identities: map<(string, string), nat>, sessions: map<string, nat>,
                           repos: map<nat, Option<nat>>, posts: map<nat, Post>, nextId: nat)

  datatype Reply = Done | NotFound | Conflict | BadRequest

  const MIN_PASSWORD: nat := 8

  const FRESH := Tables([], map[], map[], map[], map[], 1)

  // ---- Queries ----

  /** The primary key. */
  ghost predicate IdsIncrease(users: seq<User>) {
    forall i: nat, j: nat | i < j < |users| :: users[i].id < users[j].id
  }

  predicate HasId(users: seq<User>, id: nat) {
    exists u <- users :: u.id == id
  }

  function Row(users: seq<User>, id: nat): User
    requires HasId(users, id)
  {
    if users[0].id == id then users[0] else Row(users[1..], id)
  }

  lemma {:induction false} RowIs(users: seq<User>, id: nat)
    requires HasId(users, id)
    ensures Row(users, id) in users && Row(users, id).id == id
  {
    if users[0].id != id {
      RowIs(users[1..], id);
    }
  }

  /** SELECT id ... WHERE email = ?, or 0. */
  function IdByEmail(users: seq<User>, email: string): nat {
    if users == [] then 0
    else if Fold(users[0].email) == Fold(email) then users[0].id
    else IdByEmail(users[1..], email)
  }

  function IdByHandle(users: seq<User>, handle: string): nat {
    if users == [] then 0
    else if Fold(users[0].handle) == Fold(handle) then users[0].id
    else IdByHandle(users[1..], handle)
  }

  function HandlesOf(users: seq<User>): (hs: seq<string>)
    ensures |hs| == |users| && forall i | 0 <= i < |users| :: hs[i] == users[i].handle
  {
    seq(|users|, i requires 0 <= i < |users| => users[i].handle)
  }

  predicate Active(u: User) {
    u.admin && !u.disabled
  }

  /** SELECT COUNT(*) ... WHERE is_admin = 1 AND disabled = 0 */
  function ActiveAdmins(users: seq<User>): nat {
    if users == [] then 0 else ActiveAdmins(users[1..]) + (if Active(users[0]) then 1 else 0)
  }

  /** UPDATE ... WHERE id = ?, given the row as it is to be. */
  function WithRow(users: seq<User>, u: User): seq<User> {
    seq(|users|, i requires 0 <= i < |users| => if users[i].id == u.id then u else users[i])
  }

  lemma WithRowTwice(users: seq<User>, u: User, v: User)
    requires HasId(users, u.id) && u.id == v.id
    ensures HasId(WithRow(users, u), u.id) && Row(WithRow(users, u), u.id) == u
    ensures WithRow(WithRow(users, u), v) == WithRow(users, v)
  {
    var i :| 0 <= i < |users| && users[i].id == u.id;
    assert WithRow(users, u)[i] in WithRow(users, u);
    RowIs(WithRow(users, u), u.id);
  }

  lemma WithRowSame(users: seq<User>, id: nat)
    requires HasId(users, id) && IdsIncrease(users)
    ensures WithRow(users, Row(users, id)) == users && Row(users, id).id == id
  {
    RowIs(users, id);
  }

  /** DELETE ... WHERE id = ? */
  function DeleteWhere(users: seq<User>, id: nat): seq<User> {
    if users == [] then []
    else if users[0].id == id then DeleteWhere(users[1..], id)
    else [users[0]] + DeleteWhere(users[1..], id)
  }

  function WithoutUser<K>(rows: map<K, nat>, id: nat): map<K, nat> {
    map k <- rows | rows[k] != id :: rows[k]
  }

  // ---- What each request does to the tables ----

  /** The new account is the first one exactly when it becomes admin on its own. */
  function Inserted(t: Tables, handle: string, email: string, name: string, avatar: string,
                    password: string, admin: bool): Tables {
    t.(users := t.users + [User(t.nextId, handle, email, name, avatar, password, admin || t.users == [], false)],
       nextId := t.nextId + 1)
  }

  /** The address an account is stored and looked up under. */
  function Address(email0: string, low: Lowering): string {
    TrimSpace(ToLower(email0, low))
  }

  /** A handle not given is the local part of the address. */
  function HandleBase(email: string, handle0: string, low: Lowering): string {
    Sanitized(if handle0 == "" then Split(email, '@')[0] else handle0, low)
  }

  function SignedUp(t: Tables, email0: string, handle0: string, name: string, password: string, low: Lowering)
    : (Tables, Result<nat, string>)
  {
    var email := Address(email0, low);
    if '@' !in email then (t, Err("a valid email is required"))
    else if |password| < MIN_PASSWORD then (t, Err("password must be at least 8 characters"))
    else if IdByEmail(t.users, email) != 0 then (t, Err("an account with that email already exists"))
    else
      match Allocated(HandlesOf(t.users), HandleBase(email, handle0, low))
      case Err(e) => (t, Err(e))
      case Ok(handle) =>
        (Inserted(t, handle, email, if name == "" then handle else name, "", password, false), Ok(t.nextId))
  }

  function WithProfile(users: seq<User>, id: nat, name: string, email: string, avatar: string): seq<User> {
    if HasId(users, id) then WithRow(users, Row(users, id).(name := name, email := email, avatar := avatar)) else users
  }

  function LoggedIn(t: Tables, provider: string, subject: string, handle0: string,
                    name: string, email: string, avatar: string): (Tables, Result<nat, string>) {
    var key := (provider, subject);
    if key in t.identities then
      var id := t.identities[key];
      (t.(users := WithProfile(t.users, id, name, email, avatar)), Ok(id))
    else
      var owner := if email == "" then 0 else IdByEmail(t.users, email);
      if owner != 0 then (t.(identities := t.identities[key := owner]), Ok(owner))
      else
        match Allocated(HandlesOf(t.users), handle0)
        case Err(e) => (t, Err(e))
        case Ok(handle) =>
          (Inserted(t, handle, email, name, avatar, "", false).(identities := t.identities[key := t.nextId]), Ok(t.nextId))
  }

  function Minted(t: Tables, handle: string): (Tables, nat) {
    var id := IdByHandle(t.users, handle);
    if id != 0 then (t, id) else (Inserted(t, handle, "", handle, "", "", true), t.nextId)
  }

  /** A session row needs a fresh secret and an existing user, enabled or not. */
  function Opened(t: Tables, secret: string, id: nat): (Tables, bool) {
    if secret in t.sessions || !HasId(t.users, id) then (t, false)
    else (t.(sessions := t.sessions[secret := id]), true)
  }

  function Or<T>(o: Option<T>, d: T): T {
    if o.Some? then o.value else d
  }

  predicate PasswordOk(password: string) {
    password == "" || |password| >= MIN_PASSWORD
  }

  predicate LosingAdmin(cur: User, isAdmin: Option<bool>, disabled: Option<bool>) {
    cur.admin && (isAdmin == Some(false) || disabled == Some(true))
  }

  /** The row after the request, guard or no guard. */
  function Changed(u: User, isAdmin: Option<bool>, disabled: Option<bool>, password: Option<string>): User {
    u.(admin := Or(isAdmin, u.admin), disabled := Or(disabled, u.disabled),
       password := if password.Some? && PasswordOk(password.value) then password.value else u.password)
  }

  function Applied(t: Tables, id: nat, isAdmin: Option<bool>, disabled: Option<bool>, password: Option<string>): Tables
    requires HasId(t.users, id)
  {
    t.(users := WithRow(t.users, Changed(Row(t.users, id), isAdmin, disabled, password)),
       sessions := if disabled == Some(true) then WithoutUser(t.sessions, id) else t.sessions)
  }

  predicate UpdateRefused(t: Tables, id: nat, isAdmin: Option<bool>, disabled: Option<bool>) {
    HasId(t.users, id) && LosingAdmin(Row(t.users, id), isAdmin, disabled) && ActiveAdmins(t.users) <= 1
  }

  function Updated(t: Tables, id: nat, isAdmin: Option<bool>, disabled: Option<bool>, password: Option<string>)
    : (Tables, Reply)
  {
    if !HasId(t.users, id) then (t, NotFound)
    else if UpdateRefused(t, id, isAdmin, disabled) then (t, Conflict)
    else
      (Applied(t, id, isAdmin, disabled, password),
       if password.Some? && !PasswordOk(password.value) then BadRequest else Done)
  }

  // ---- Deletes and foreign keys ----

  function OwnerOf(repos: map<nat, Option<nat>>, repo: nat): Option<nat> {
    if repo in repos then repos[repo] else None
  }

  /** Some post's author, or the comment it replies to, does not exist. */
  predicate Dangling(users: seq<User>, posts: map<nat, Post>) {
    exists p <- posts ::
      || !HasId(users, posts[p].author)
      || (posts[p].replyTo.Some? && posts[p].replyTo.value !in posts)
  }

  /** The posts whose repository is still there. */
  function PostsIn(posts: map<nat, Post>, repos: map<nat, Option<nat>>): map<nat, Post> {
    map p <- posts | posts[p].repo in repos :: posts[p]
  }

  function OthersRepos(repos: map<nat, Option<nat>>, id: nat): map<nat, Option<nat>> {
    map r <- repos | repos[r] != Some(id) :: repos[r]
  }

  /** The cascades of a user's delete. */
  function Removed(t: Tables, id: nat): Tables {
    t.(users := DeleteWhere(t.users, id), identities := WithoutUser(t.identities, id),
       sessions := WithoutUser(t.sessions, id), repos := OthersRepos(t.repos, id),
       posts := PostsIn(t.posts, OthersRepos(t.repos, id)))
  }

  /** What the statement then leaves: the other keys are checked once, at its end. */
  function UserDeleted(t: Tables, id: nat): Tables {
    if Dangling(Removed(t, id).users, Removed(t, id).posts) then t else Removed(t, id)
  }

  function RepoDeleted(t: Tables, repo: nat): Tables {
    var posts := PostsIn(t.posts, t.repos - {repo});
    if Dangling(t.users, posts) then t else t.(repos := t.repos - {repo}, posts := posts)
  }

  function RepoAdded(t: Tables, repo: nat, owner: nat): Tables {
    if repo in t.repos || !HasId(t.users, owner) then t else t.(repos := t.repos[repo := Some(owner)])
  }

  predicate CanPost(t: Tables, id: nat, post: Post) {
    && id !in t.posts && post.repo in t.repos && HasId(t.users, post.author)
    && (post.replyTo.Some? ==> post.replyTo.value in t.posts)
  }

  function PostAdded(t: Tables, id: nat, post: Post): Tables {
    if CanPost(t, id, post) then t.(posts := t.posts[id := post]) else t
  }

  predicate DeleteRefused(t: Tables, actor: Option<nat>, id: nat) {
    actor == Some(id) || (HasId(t.users, id) && Row(t.users, id).admin && ActiveAdmins(t.users) <= 1)
  }

  /** Nobody looks at whether the statement failed. */
  function Deleted(t: Tables, actor: Option<nat>, id: nat): (Tables, Reply) {
    if DeleteRefused(t, actor, id) then (t, Conflict) else (UserDeleted(t, id), Done)
  }

  // ---- The requests, statement by statement ----

  class Accounts {
    var users: seq<User>
    var identities: map<(string, string), nat>
    var sessions: map<string, nat>
    var repos: map<nat, Option<nat>>
    var posts: map<nat, Post>
    var nextId: nat

    function Contents(): Tables
      reads this
    {
      Tables(users, identities, sessions, repos, posts, nextId)
    }

    constructor ()
      ensures Contents() == FRESH
    {
      users, identities, sessions, repos, posts, nextId := [], map[], map[], map[], map[], 1;
    }

    method Insert(handle: string, email: string, name: string, avatar: string, password: string, admin: bool)
      returns (id: nat)
      modifies this
      ensures id == old(nextId) && nextId == old(nextId) + 1
      ensures users == old(users) + [User(id, handle, email, name, avatar, password, admin, false)]
      ensures identities == old(identities) && sessions == old(sessions)
      ensures repos == old(repos) && posts == old(posts)
    {
      id := nextId;
      users := users + [User(id, handle, email, name, avatar, password, admin, false)];
      nextId := nextId + 1;
    }

    /** Inserts, then counts the rows: the first user on the instance is the admin. */
    method InsertBootstrapping(handle: string, email: string, name: string, avatar: string, password: string)
      returns (id: nat)
      modifies this
      ensures id == old(nextId)
      ensures Contents() == Inserted(old(Contents()), handle, email, name, avatar, password, false)
    {
      id := Insert(handle, email, name, avatar, password, false);
      var total := |users|;
      if total == 1 {
        users := WithRow(users, users[0].(admin := true));
      }
    }

    method CreateLocalUser(email0: string, handle0: string, name0: string, password: string, low: Lowering)
      returns (r: Result<nat, string>)
      modifies this
      ensures (Contents(), r) == SignedUp(old(Contents()), email0, handle0, name0, password, low)
    {
      var email := TrimSpace(ToLower(email0, low));
      if email == "" || '@' !in email {
        return Err("a valid email is required");
      }
      if |password| < MIN_PASSWORD {
        return Err("password must be at least 8 characters");
      }
      var existing := IdByEmail(users, email);
      if existing != 0 {
        return Err("an account with that email already exists");
      }
      var handle := handle0;
      if handle == "" {
        handle := Split(email, '@')[0];
      }
      var base := SanitizeHandle(handle, low);
      var unique := UniqueHandle(HandlesOf(users), base);
      if unique.Err? {
        return Err(unique.error);
      }
      var name := name0;
      if name == "" {
        name := unique.value;
      }
      var id := InsertBootstrapping(unique.value, email, name, "", password);
      r := Ok(id);
    }

    method UpsertOIDCUser(provider: string, subject: string, handle: string, name: string, email: string, avatar: string)
      returns (r: Result<nat, string>)
      modifies this
      ensures (Contents(), r) == LoggedIn(old(Contents()), provider, subject, handle, name, email, avatar)
    {
      if (provider, subject) in identities {
        var id := identities[(provider, subject)];
        users := WithProfile(users, id, name, email, avatar);
        return Ok(id);
      }
      var id: nat := 0;
      if email != "" {
        id := IdByEmail(users, email);
      }
      if id == 0 {
        var unique := UniqueHandle(HandlesOf(users), handle);
        if unique.Err? {
          return Err(unique.error);
        }
        id := InsertBootstrapping(unique.value, email, name, avatar, "");
      }
      identities := identities[(provider, subject) := id];
      r := Ok(id);
    }

    method EnsureUserByHandle(handle: string) returns (id: nat)
      modifies this
      ensures (Contents(), id) == Minted(old(Contents()), handle)
    {
      id := IdByHandle(users, handle);
      if id == 0 {
        id := Insert(handle, "", handle, "", "", true);
      }
    }

    method CreateSession(secret: string, id: nat) returns (ok: bool)
      modifies this`sessions
      ensures (Contents(), ok) == Opened(old(Contents()), secret, id)
    {
      if secret in sessions || !HasId(users, id) {
        return false;
      }
      sessions := sessions[secret := id];
      ok := true;
    }

    method SetPassword(id: nat, password: string) returns (ok: bool)
      requires HasId(users, id)
      modifies this`users
      ensures ok == PasswordOk(password)
      ensures users == if ok then WithRow(old(users), Row(old(users), id).(password := password)) else old(users)
    {
      if password != "" && |password| < MIN_PASSWORD {
        return false;
      }
      users := WithRow(users, Row(users, id).(password := password));
      ok := true;
    }

    method UpdateUser(id: nat, isAdmin: Option<bool>, disabled: Option<bool>, password: Option<string>)
      returns (reply: Reply)
      requires IdsIncrease(users)
      modifies this
      ensures (Contents(), reply) == Updated(old(Contents()), id, isAdmin, disabled, password)
    {
      hide WithRow, HasId, Row, IdsIncrease, ActiveAdmins, WithoutUser;
      if !HasId(users, id) {
        return NotFound;
      }
      var cur := Row(users, id);
      var losing := (isAdmin.Some? && !isAdmin.value && cur.admin) || (disabled.Some? && disabled.value && cur.admin);
      if losing && ActiveAdmins(users) <= 1 {
        return Conflict;
      }
      var ok := Apply(id, isAdmin, disabled, password);
      reply := if ok then Done else BadRequest;
    }

    /** The statements after the guard: flags first, so they stay when the password is refused. */
    method Apply(id: nat, isAdmin: Option<bool>, disabled: Option<bool>, password: Option<string>) returns (ok: bool)
      requires HasId(users, id) && IdsIncrease(users)
      modifies this
      ensures Contents() == Applied(old(Contents()), id, isAdmin, disabled, password)
      ensures ok == (password.None? || PasswordOk(password.value))
    {
      hide WithRow, HasId, Row, IdsIncrease, WithoutUser;
      RowIs(users, id);
      ghost var row := Row(users, id).(admin := Or(isAdmin, Row(users, id).admin),
                                       disabled := Or(disabled, Row(users, id).disabled));
      WithRowTwice(users, row, row);
      SetFlags(id, isAdmin, disabled);
      ok := true;
      if password.Some? {
        WithRowTwice(old(users), row, row.(password := password.value));
        ok := SetPassword(id, password.value);
      }
    }

    method SetFlags(id: nat, isAdmin: Option<bool>, disabled: Option<bool>)
      requires HasId(users, id) && IdsIncrease(users)
      modifies this`users, this`sessions
      ensures
        var u := Row(old(users), id);
        users == WithRow(old(users), u.(admin := Or(isAdmin, u.admin), disabled := Or(disabled, u.disabled)))
      ensures sessions == if disabled == Some(true) then WithoutUser(old(sessions), id) else old(sessions)
    {
      hide WithRow, HasId, Row, IdsIncrease, WithoutUser;
      ghost var before, row := users, Row(users, id);
      WithRowSame(users, id);
      if isAdmin.Some? {
        WithRowTwice(before, row, row.(admin := isAdmin.value));
        users := WithRow(users, Row(users, id).(admin := isAdmin.value));
        row := row.(admin := isAdmin.value);
        WithRowTwice(before, row, row);
      }
      if disabled.Some? {
        WithRowTwice(before, row, row.(disabled := disabled.value));
        users := WithRow(users, Row(users, id).(disabled := disabled.value));
        if disabled.value {
          sessions := WithoutUser(sessions, id);
        }
      }
    }

    method DeleteUser(actor: Option<nat>, id: nat) returns (reply: Reply)
      modifies this
      ensures (Contents(), reply) == Deleted(old(Contents()), actor, id)
    {
      if actor.Some? && actor.value == id {
        return Conflict;
      }
      var admin := HasId(users, id) && Row(users, id).admin;
      if admin && ActiveAdmins(users) <= 1 {
        return Conflict;
      }
      var users', repos' := DeleteWhere(users, id), OthersRepos(repos, id);
      var posts' := PostsIn(posts, repos');
      if !Dangling(users', posts') {
        users, repos, posts := users', repos', posts';
        identities := WithoutUser(identities, id);
        sessions := WithoutUser(sessions, id);
      }
      reply := Done;
    }

    method DeleteRepo(repo: nat)
      modifies this
      ensures Contents() == RepoDeleted(old(Contents()), repo)
    {
      var posts' := PostsIn(posts, repos - {repo});
      if !Dangling(users, posts') {
        repos, posts := repos - {repo}, posts';
      }
    }
  }
}
