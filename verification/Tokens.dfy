/**
 Personal access tokens of internal/auth/tokens.go and their rotation in
 internal/api/tokens.go: a table indexed by the first 8 characters of the secret, where
 only a salted hash of the token is kept, and scopes are stored as one comma-joined string.

 The hash is ideal: it verifies against the token it was made from and no other. Secrets
 and salts are drawn by the caller, instants are numbers of seconds.
 */
module Tokens {
  import opened Wrappers
  import opened Text

  const PAT_PREFIX := "orc_pat_"
  const PAT_RANDOM_LEN: nat := 22
  const PAT_PEEK_LEN: nat := 8
  const DAY: nat := 86400
  const SECOND: nat := 1_000_000_000

  datatype Hash = Hash(salt: string, token: string)

  datatype Token = Token(id: nat, user: nat, name: string, hash: Hash, peek: string, scopes: string,
                         expires: Option<int>)

  datatype Table = Table(rows: seq<Token>, nextId: nat)

  datatype Auth = Auth(user: nat, scopes: seq<string>)

  const EMPTY := Table([], 1)

  predicate Verify(token: string, hash: Hash) {
    hash.token == token
  }

  predicate Expired(row: Token, now: int) {
    row.expires.Some? && row.expires.value < now
  }

  /** What comes back of stored scopes: no scopes for the empty string. */
  function ScopesOf(stored: string): seq<string> {
    if stored == "" then [] else Split(stored, ',')
  }

  /** A time.Duration counts nanoseconds in a 64-bit int, and wraps round. */
  function Wrapped(nanos: int): int {
    (nanos + 0x8000_0000_0000_0000) % 0x1_0000_0000_0000_0000 - 0x8000_0000_0000_0000
  }

  /** Seconds until a token for so many days expires, the fraction cut off as the expiry is stored. */
  function Lifetime(days: int): int {
    Wrapped(days * DAY * SECOND) / SECOND
  }

  /** That is what was asked for up to 106751 days, and for no number of days above. */
  lemma LifetimeIff(days: int)
    requires days > 0
    ensures Lifetime(days) == days * 86400 <==> days <= 106751
  {
    if days <= 106751 {
      assert Wrapped(days * DAY * SECOND) == days * DAY * SECOND;
    } else {
      assert Wrapped(days * DAY * SECOND) < 0x8000_0000_0000_0000;
    }
  }

  // ---- What the calls do ----

  function NewRow(t: Table, user: nat, name: string, scopes: seq<string>, days: int,
                  secret: string, salt: string, now: int): Token
    requires |secret| == PAT_RANDOM_LEN
  {
    Token(t.nextId, user, if name == "" then "token" else name, Hash(salt, PAT_PREFIX + secret),
          secret[..PAT_PEEK_LEN], Join(scopes, ','), if days > 0 then Some(now + Lifetime(days)) else None)
  }

  function Created(t: Table, user: nat, name: string, scopes: seq<string>, days: int,
                   secret: string, salt: string, now: int): Table
    requires |secret| == PAT_RANDOM_LEN
  {
    Table(t.rows + [NewRow(t, user, name, scopes, days, secret, salt, now)], t.nextId + 1)
  }

  function Without(rows: seq<Token>, user: nat, id: nat): seq<Token> {
    if rows == [] then []
    else if rows[0].id == id && rows[0].user == user then Without(rows[1..], user, id)
    else [rows[0]] + Without(rows[1..], user, id)
  }

  lemma {:induction false} WithoutIs(rows: seq<Token>, user: nat, id: nat)
    ensures forall row :: row in Without(rows, user, id) <==> row in rows && !(row.id == id && row.user == user)
  {
    if rows != [] {
      WithoutIs(rows[1..], user, id);
      assert rows == [rows[0]] + rows[1..];
    }
  }

  /** The first row, in the order given, that is unexpired and verifies. */
  function FirstValid(rows: seq<Token>, token: string, now: int): Option<Auth> {
    if rows == [] then None
    else if !Expired(rows[0], now) && Verify(token, rows[0].hash) then Some(Auth(rows[0].user, ScopesOf(rows[0].scopes)))
    else FirstValid(rows[1..], token, now)
  }

  /** SELECT ... WHERE prefix = ? */
  function Peeked(rows: seq<Token>, peek: string): seq<Token> {
    if rows == [] then []
    else if rows[0].peek == peek then [rows[0]] + Peeked(rows[1..], peek)
    else Peeked(rows[1..], peek)
  }

  function Validated(rows: seq<Token>, token: string, now: int): Result<Auth, string> {
    if !HasPrefix(token, PAT_PREFIX) then Err("bad token prefix")
    else
      var secret := token[|PAT_PREFIX|..];
      if |secret| < PAT_PEEK_LEN then Err("bad token length")
      else
        match FirstValid(Peeked(rows, secret[..PAT_PEEK_LEN]), token, now)
        case None => Err("invalid token")
        case Some(auth) => Ok(auth)
  }

  function Owned(rows: seq<Token>, user: nat, id: nat): Option<Token> {
    if rows == [] then None
    else if rows[0].id == id && rows[0].user == user then Some(rows[0])
    else Owned(rows[1..], user, id)
  }

  /** Rotation: list, delete, create again with the same name and scopes and no expiry. */
  function Rotated(t: Table, user: nat, id: nat, secret: string, salt: string, now: int): Table
    requires |secret| == PAT_RANDOM_LEN
  {
    match Owned(t.rows, user, id)
    case None => t
    case Some(row) =>
      Created(t.(rows := Without(t.rows, user, id)), user, row.name, ScopesOf(row.scopes), 0, secret, salt, now)
  }

  // ---- The calls ----

  class TokenStore {
    var rows: seq<Token>
    var nextId: nat

    function Contents(): Table
      reads this
    {
      Table(rows, nextId)
    }

    constructor ()
      ensures Contents() == EMPTY
    {
      rows, nextId := [], 1;
    }

    method CreateToken(user: nat, name0: string, scopes: seq<string>, days: int, secret: string, salt: string, now: int)
      returns (id: nat, token: string)
      requires |secret| == PAT_RANDOM_LEN
      modifies this
      ensures Contents() == Created(old(Contents()), user, name0, scopes, days, secret, salt, now)
      ensures id == old(nextId) && token == PAT_PREFIX + secret
      ensures rows == old(rows) +
        [Token(id, user, if name0 == "" then "token" else name0, Hash(salt, "orc_pat_" + secret), secret[..8],
               Join(scopes, ','), if days > 0 then Some(now + Lifetime(days)) else None)]
    {
      var name := name0;
      if name == "" {
        name := "token";
      }
      token := PAT_PREFIX + secret;
      var peek := secret[..PAT_PEEK_LEN];
      var hash := Hash(salt, token);
      var expires: Option<int> := None;
      if days > 0 {
        expires := Some(now + Wrapped(days * 24 * 3600 * SECOND) / SECOND);
      }
      id := nextId;
      rows := rows + [Token(id, user, name, hash, peek, Join(scopes, ','), expires)];
      nextId := nextId + 1;
    }

    /** Exactly the row with that id goes, and only if it is the user's; the rest keep their order. */
    method DeleteToken(user: nat, id: nat)
      modifies this`rows
      ensures rows == Without(old(rows), user, id)
      ensures forall row :: row in rows <==> row in old(rows) && !(row.id == id && row.user == user)
    {
      WithoutIs(rows, user, id);
      rows := Without(rows, user, id);
    }

    method ValidateToken(token: string, now: int) returns (r: Result<Auth, string>)
      ensures r == Validated(rows, token, now)
    {
      if !HasPrefix(token, PAT_PREFIX) {
        return Err("bad token prefix");
      }
      var secret := TrimPrefix(token, PAT_PREFIX);
      if |secret| < PAT_PEEK_LEN {
        return Err("bad token length");
      }
      var cursor := Peeked(rows, secret[..PAT_PEEK_LEN]);
      var matched: Option<Token> := None;
      var k := 0;
      while k < |cursor|
        invariant k <= |cursor| && matched.None?
        invariant FirstValid(cursor, token, now) == FirstValid(cursor[k..], token, now)
      {
        var row := cursor[k];
        k := k + 1;
        if row.expires.Some? && row.expires.value < now {
          continue;
        }
        if Verify(token, row.hash) {
          matched := Some(row);
          break;
        }
      }
      if matched.None? {
        return Err("invalid token");
      }
      var scopes: seq<string> := [];
      if matched.value.scopes != "" {
        scopes := Split(matched.value.scopes, ',');
      }
      r := Ok(Auth(matched.value.user, scopes));
    }

    method RotateToken(user: nat, id: nat, secret: string, salt: string, now: int) returns (found: bool)
      requires |secret| == PAT_RANDOM_LEN
      modifies this
      ensures Contents() == Rotated(old(Contents()), user, id, secret, salt, now)
      ensures found <==> Owned(old(rows), user, id).Some?
      ensures !found ==> rows == old(rows)
      ensures found ==>
        var row := Owned(old(rows), user, id).value;
        rows == Without(old(rows), user, id) +
          [Token(old(nextId), user, if row.name == "" then "token" else row.name, Hash(salt, "orc_pat_" + secret),
                 secret[..8], row.scopes, None)]
    {
      var row: Option<Token> := None;
      var k := 0;
      while k < |rows|
        invariant k <= |rows| && row.None? && Contents() == old(Contents())
        invariant Owned(rows, user, id) == Owned(rows[k..], user, id)
      {
        if rows[k].user == user && rows[k].id == id {
          row := Some(rows[k]);
          break;
        }
        k := k + 1;
      }
      if row.None? {
        return false;
      }
      ScopesStable(row.value.scopes);
      DeleteToken(user, id);
      var _, _ := CreateToken(user, row.value.name, ScopesOf(row.value.scopes), 0, secret, salt, now);
      found := true;
    }
  }

  // ---- Scopes ----

  /** Stored scopes come back exactly when none of them has a comma and they are not the single
      empty scope. */
  lemma ScopesRoundTripIff(scopes: seq<string>)
    ensures ScopesOf(Join(scopes, ',')) == scopes <==> (forall s <- scopes :: ',' !in s) && scopes != [""]
  {
    if (forall s <- scopes :: ',' !in s) && scopes != [] {
      SplitJoin(scopes, ',');
      if Join(scopes, ',') == "" {
        assert Split("", ',') == [""];
      }
    } else {
      JoinSplit(Join(scopes, ','), ',');
    }
  }

  /** Reading and storing again changes nothing, so rotation keeps every scope. */
  lemma ScopesStable(stored: string)
    ensures Join(ScopesOf(stored), ',') == stored
  {
    JoinSplit(stored, ',');
  }

  /** The scopes the API accepts. */
  const VALID_SCOPES: set<string> :=
    {"repo:read", "repo:write", "repo:admin", "actions:read", "packages:write", "user:read"}

  method CleanScopes(scopes: seq<string>) returns (clean: seq<string>)
    ensures forall s :: s in clean <==> s in scopes && s in VALID_SCOPES
    ensures ScopesOf(Join(clean, ',')) == clean
  {
    clean := [];
    for i := 0 to |scopes|
      invariant forall s :: s in clean <==> s in scopes[..i] && s in VALID_SCOPES
    {
      assert scopes[..i + 1] == scopes[..i] + [scopes[i]];
      if scopes[i] in VALID_SCOPES {
        clean := clean + [scopes[i]];
      }
    }
    assert scopes[..|scopes|] == scopes;
    forall s <- clean ensures ',' !in s && s != "" {
      ValidScope(s);
    }
    assert |clean| > 0 ==> clean[0] in clean && clean[0] != "";
    ScopesRoundTripIff(clean);
  }

  lemma ValidScope(s: string)
    requires s in VALID_SCOPES
    ensures ',' !in s && s != ""
  {}
}
