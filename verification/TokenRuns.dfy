/**
 Every history of the token table: the lookup by the first 8 characters of the secret
 against verifying the presented token on every row, who a token authenticates and until
 when, and revocation.
 */
module TokenRuns {
  import opened Wrappers
  import opened Text
  import opened Tokens

  /** A secret as drawn: 22 characters. */
  type Secret = s: string | |s| == PAT_RANDOM_LEN witness "AAAAAAAAAAAAAAAAAAAAAA"

  datatype Event =
    | Create(user: nat, name: string, scopes: seq<string>, days: int, secret: Secret, salt: string, now: int)
    | Delete(user: nat, id: nat)
    | Rotate(user: nat, id: nat, secret: Secret, salt: string, now: int)
    | UserGone(user: nat)

  /** ON DELETE CASCADE when an account goes. */
  function OfOthers(rows: seq<Token>, user: nat): seq<Token> {
    if rows == [] then []
    else if rows[0].user == user then OfOthers(rows[1..], user)
    else [rows[0]] + OfOthers(rows[1..], user)
  }

  function Next(t: Table, ev: Event): Table {
    match ev
    case Create(user, name, scopes, days, secret, salt, now) => Created(t, user, name, scopes, days, secret, salt, now)
    case Delete(user, id) => t.(rows := Without(t.rows, user, id))
    case Rotate(user, id, secret, salt, now) => Rotated(t, user, id, secret, salt, now)
    case UserGone(user) => t.(rows := OfOthers(t.rows, user))
  }

  function Run(t: Table, evs: seq<Event>): Table
    decreases |evs|
  {
    if evs == [] then t else Run(Next(t, evs[0]), evs[1..])
  }

  // ---- What a row looks like ----

  predicate RowOk(row: Token) {
    && |row.hash.token| == |PAT_PREFIX| + PAT_RANDOM_LEN
    && PAT_PREFIX <= row.hash.token
    && row.peek == row.hash.token[|PAT_PREFIX|..][..PAT_PEEK_LEN]
  }

  ghost predicate RowsOk(t: Table) {
    forall row <- t.rows :: RowOk(row) && row.id < t.nextId
  }

  lemma NewRowOk(t: Table, user: nat, name: string, scopes: seq<string>, days: int, secret: Secret, salt: string, now: int)
    ensures RowOk(NewRow(t, user, name, scopes, days, secret, salt, now))
  {
    assert (PAT_PREFIX + secret)[|PAT_PREFIX|..] == secret;
  }

  lemma {:induction false} OfOthersIs(rows: seq<Token>, user: nat)
    ensures forall row :: row in OfOthers(rows, user) <==> row in rows && row.user != user
  {
    if rows != [] {
      OfOthersIs(rows[1..], user);
      assert rows == [rows[0]] + rows[1..];
    }
  }

  /** The rows after a step: some of those before it, and at most one new one. */
  lemma StepRows(t: Table, ev: Event, row: Token)
    requires row in Next(t, ev).rows
    ensures row in t.rows || (IsDraw(t, ev) && row == Drawn(t, ev))
  {
    match ev
    case Create(_, _, _, _, _, _, _) =>
    case Delete(user, id) => WithoutIs(t.rows, user, id);
    case Rotate(user, id, _, _, _) => WithoutIs(t.rows, user, id);
    case UserGone(user) => OfOthersIs(t.rows, user);
  }

  /** The step inserts a row: a create, or a rotation of a token the user owns. */
  predicate IsDraw(t: Table, ev: Event) {
    ev.Create? || (ev.Rotate? && Owned(t.rows, ev.user, ev.id).Some?)
  }

  function Drawn(t: Table, ev: Event): Token
    requires IsDraw(t, ev)
  {
    match ev
    case Create(user, name, scopes, days, secret, salt, now) => NewRow(t, user, name, scopes, days, secret, salt, now)
    case Rotate(user, id, secret, salt, now) =>
      var row := Owned(t.rows, user, id).value;
      NewRow(t, user, row.name, ScopesOf(row.scopes), 0, secret, salt, now)
  }

  lemma StepKeepsRows(t: Table, ev: Event)
    requires RowsOk(t)
    ensures RowsOk(Next(t, ev)) && t.nextId <= Next(t, ev).nextId
  {
    forall row <- Next(t, ev).rows ensures RowOk(row) && row.id < Next(t, ev).nextId {
      StepRows(t, ev, row);
      match ev
      case Create(user, name, scopes, days, secret, salt, now) => NewRowOk(t, user, name, scopes, days, secret, salt, now);
      case Rotate(user, id, secret, salt, now) =>
        if IsDraw(t, ev) {
          var was := Owned(t.rows, user, id).value;
          NewRowOk(t, user, was.name, ScopesOf(was.scopes), 0, secret, salt, now);
        }
      case _ =>
    }
  }

  lemma {:induction false} RunKeepsRows(t: Table, evs: seq<Event>)
    requires RowsOk(t)
    ensures RowsOk(Run(t, evs))
    decreases |evs|
  {
    hide Next, RowsOk;
    if evs != [] {
      StepKeepsRows(t, evs[0]);
      RunKeepsRows(Next(t, evs[0]), evs[1..]);
    }
  }

  // ---- The index ----

  lemma {:induction false} PeekMissesNothing(rows: seq<Token>, token: string, now: int)
    requires forall row <- rows :: RowOk(row)
    requires PAT_PREFIX <= token && |token| >= |PAT_PREFIX| + PAT_PEEK_LEN
    ensures FirstValid(Peeked(rows, token[|PAT_PREFIX|..][..PAT_PEEK_LEN]), token, now) == FirstValid(rows, token, now)
  {
    if rows != [] {
      assert RowOk(rows[0]);
      PeekMissesNothing(rows[1..], token, now);
    }
  }

  lemma {:induction false} NoneVerifies(rows: seq<Token>, token: string, now: int)
    requires forall row <- rows :: RowOk(row)
    requires !(PAT_PREFIX <= token) || |token| < |PAT_PREFIX| + PAT_PEEK_LEN
    ensures FirstValid(rows, token, now).None?
  {
    if rows != [] {
      assert RowOk(rows[0]);
      NoneVerifies(rows[1..], token, now);
    }
  }

  /** In every history, whatever secrets were drawn and whatever is presented: the indexed lookup
      finds exactly what scanning the whole table finds. */
  lemma IndexFaithful(evs: seq<Event>, token: string, now: int)
    ensures
      var rows := Run(EMPTY, evs).rows;
      match FirstValid(rows, token, now)
      case Some(auth) => Validated(rows, token, now) == Ok(auth)
      case None => Validated(rows, token, now).Err?
  {
    RunKeepsRows(EMPTY, evs);
    var rows := Run(EMPTY, evs).rows;
    if PAT_PREFIX <= token && |token| >= |PAT_PREFIX| + PAT_PEEK_LEN {
      PeekMissesNothing(rows, token, now);
    } else {
      NoneVerifies(rows, token, now);
    }
  }

  // ---- Fresh secrets ----

  function Draws(ev: Event): set<string> {
    if ev.Create? || ev.Rotate? then {ev.secret} else {}
  }

  /** No secret is drawn twice, nor one of `used`. */
  predicate Fresh(used: set<string>, evs: seq<Event>)
    decreases |evs|
  {
    evs == [] || (Draws(evs[0]) !! used && Fresh(used + Draws(evs[0]), evs[1..]))
  }

  function AllDraws(evs: seq<Event>): set<string>
    decreases |evs|
  {
    if evs == [] then {} else Draws(evs[0]) + AllDraws(evs[1..])
  }

  /** Every row's token has a used secret, and no two rows have the same one. */
  ghost predicate Distinct(t: Table, used: set<string>) {
    && (forall row <- t.rows :: RowOk(row) && row.hash.token[|PAT_PREFIX|..] in used)
    && (forall a, b | a in t.rows && b in t.rows && a.hash.token == b.hash.token :: a == b)
  }

  lemma StepKeepsDistinct(t: Table, ev: Event, used: set<string>)
    requires RowsOk(t) && Distinct(t, used) && Draws(ev) !! used
    ensures Distinct(Next(t, ev), used + Draws(ev))
  {
    StepKeepsRows(t, ev);
    var t' := Next(t, ev);
    forall row <- t'.rows
      ensures row.hash.token[|PAT_PREFIX|..] in used + Draws(ev)
      ensures row in t.rows || (IsDraw(t, ev) && row == Drawn(t, ev) && row.hash.token[|PAT_PREFIX|..] in Draws(ev))
    {
      StepRows(t, ev, row);
      if row !in t.rows {
        DrawnToken(t, ev);
      }
    }
  }

  lemma DrawnToken(t: Table, ev: Event)
    requires IsDraw(t, ev)
    ensures Drawn(t, ev).hash.token == PAT_PREFIX + ev.secret
    ensures Drawn(t, ev).hash.token[|PAT_PREFIX|..] == ev.secret
  {
    assert (PAT_PREFIX + ev.secret)[|PAT_PREFIX|..] == ev.secret;
  }

  lemma {:induction false} RunKeepsDistinct(t: Table, evs: seq<Event>, used: set<string>)
    requires RowsOk(t) && Distinct(t, used) && Fresh(used, evs)
    ensures RowsOk(Run(t, evs)) && Distinct(Run(t, evs), used + AllDraws(evs))
    decreases |evs|
  {
    hide Next, RowsOk, Distinct;
    if evs != [] {
      StepKeepsRows(t, evs[0]);
      StepKeepsDistinct(t, evs[0], used);
      RunKeepsDistinct(Next(t, evs[0]), evs[1..], used + Draws(evs[0]));
      assert used + Draws(evs[0]) + AllDraws(evs[1..]) == used + AllDraws(evs);
    } else {
      assert used + AllDraws(evs) == used;
    }
  }

  lemma {:induction false} FirstValidIff(rows: seq<Token>, token: string, now: int)
    ensures FirstValid(rows, token, now).Some? ==>
      exists row <- rows :: row.hash.token == token && !Expired(row, now)
        && FirstValid(rows, token, now).value == Auth(row.user, ScopesOf(row.scopes))
    ensures FirstValid(rows, token, now).None? ==> forall row <- rows :: row.hash.token == token ==> Expired(row, now)
  {
    if rows != [] {
      FirstValidIff(rows[1..], token, now);
      assert rows == [rows[0]] + rows[1..];
    }
  }

  /** With secrets never drawn twice, a presented token authenticates exactly the owner of the one
      row made from it, with that row's scopes, while that row exists and has not expired. */
  lemma ValidatesOwnerOnly(evs: seq<Event>, token: string, now: int, auth: Auth)
    requires Fresh({}, evs)
    ensures
      var rows := Run(EMPTY, evs).rows;
      Validated(rows, token, now) == Ok(auth) <==>
        exists row <- rows :: row.hash.token == token && !Expired(row, now) && auth == Auth(row.user, ScopesOf(row.scopes))
  {
    IndexFaithful(evs, token, now);
    RunKeepsDistinct(EMPTY, evs, {});
    FirstValidIff(Run(EMPTY, evs).rows, token, now);
  }

  // ---- Revocation ----

  ghost predicate NoRow(t: Table, token: string) {
    forall row <- t.rows :: row.hash.token != token
  }

  lemma {:induction false} StaysGone(t: Table, evs: seq<Event>, used: set<string>, secret: string)
    requires NoRow(t, PAT_PREFIX + secret) && secret in used && Fresh(used, evs)
    ensures NoRow(Run(t, evs), PAT_PREFIX + secret)
    decreases |evs|
  {
    hide Next, NoRow;
    if evs != [] {
      StepStaysGone(t, evs[0], secret);
      StaysGone(Next(t, evs[0]), evs[1..], used + Draws(evs[0]), secret);
    }
  }

  lemma StepStaysGone(t: Table, ev: Event, secret: string)
    requires NoRow(t, PAT_PREFIX + secret) && secret !in Draws(ev)
    ensures NoRow(Next(t, ev), PAT_PREFIX + secret)
  {
    forall row <- Next(t, ev).rows ensures row.hash.token != PAT_PREFIX + secret {
      StepRows(t, ev, row);
      if row !in t.rows {
        DrawnToken(t, ev);
        assert (PAT_PREFIX + secret)[|PAT_PREFIX|..] == secret;
      }
    }
  }

  lemma {:induction false} RunConcat(t: Table, a: seq<Event>, b: seq<Event>)
    ensures Run(t, a + b) == Run(Run(t, a), b)
    decreases |a|
  {
    if a == [] {
      assert a + b == b;
    } else {
      assert (a + b)[1..] == a[1..] + b;
      RunConcat(Next(t, a[0]), a[1..], b);
    }
  }

  lemma {:induction false} FreshConcat(used: set<string>, a: seq<Event>, b: seq<Event>)
    ensures Fresh(used, a + b) <==> Fresh(used, a) && Fresh(used + AllDraws(a), b)
    ensures AllDraws(a + b) == AllDraws(a) + AllDraws(b)
    decreases |a|
  {
    if a == [] {
      assert a + b == b && used + AllDraws(a) == used;
    } else {
      assert (a + b)[1..] == a[1..] + b;
      FreshConcat(used + Draws(a[0]), a[1..], b);
      assert used + Draws(a[0]) + AllDraws(a[1..]) == used + AllDraws(a);
    }
  }

  /** The step revokes the user's token of that id. */
  predicate Revokes(ev: Event, user: nat, id: nat) {
    ((ev.Delete? || ev.Rotate?) && ev.user == user && ev.id == id) || ev == UserGone(user)
  }

  /** A token its owner has deleted or rotated, or whose owner is gone, never authenticates again,
      whatever happens later. */
  lemma RevokedForEver(before: seq<Event>, ev: Event, after: seq<Event>, row: Token, now: int)
    requires Fresh({}, before + [ev] + after)
    requires row in Run(EMPTY, before).rows
    requires Revokes(ev, row.user, row.id)
    ensures Validated(Run(EMPTY, before + [ev] + after).rows, row.hash.token, now).Err?
  {
    var t := Run(EMPTY, before);
    var used := AllDraws(before);
    FreshConcat({}, before + [ev], after);
    FreshConcat({}, before, [ev]);
    RunKeepsDistinct(EMPTY, before, {});
    var secret := row.hash.token[|PAT_PREFIX|..];
    assert row.hash.token == PAT_PREFIX + secret;
    RevokedNow(t, ev, row, {} + used);
    RunConcat(EMPTY, before + [ev], after);
    RunConcat(EMPTY, before, [ev]);
    assert [ev][1..] == [];
    assert Run(t, [ev]) == Next(t, ev);
    StaysGone(Next(t, ev), after, {} + AllDraws(before + [ev]), secret);
    IndexFaithful(before + [ev] + after, row.hash.token, now);
    FirstValidIff(Run(EMPTY, before + [ev] + after).rows, row.hash.token, now);
  }

  lemma RevokedNow(t: Table, ev: Event, row: Token, used: set<string>)
    requires RowsOk(t) && Distinct(t, used) && Draws(ev) !! used && row in t.rows
    requires Revokes(ev, row.user, row.id)
    ensures NoRow(Next(t, ev), row.hash.token)
  {
    if ev.Rotate? {
      OwnedIs(t.rows, ev.user, ev.id);
      DrawnToken(t, ev);
    }
    forall other <- Next(t, ev).rows ensures other.hash.token != row.hash.token {
      StepRows(t, ev, other);
      if other in t.rows {
        match ev
        case Delete(user, id) => WithoutIs(t.rows, user, id);
        case Rotate(user, id, _, _, _) => WithoutIs(t.rows, user, id);
        case UserGone(user) => OfOthersIs(t.rows, user);
        case _ =>
      }
    }
  }

  lemma {:induction false} OwnedIs(rows: seq<Token>, user: nat, id: nat)
    ensures Owned(rows, user, id).Some? <==> exists row <- rows :: row.id == id && row.user == user
    ensures Owned(rows, user, id).Some? ==>
      var row := Owned(rows, user, id).value;
      row in rows && row.id == id && row.user == user
  {
    if rows != [] {
      OwnedIs(rows[1..], user, id);
      assert rows == [rows[0]] + rows[1..];
    }
  }

  lemma StepKeepsRow(t: Table, ev: Event, row: Token)
    requires row in t.rows && !Revokes(ev, row.user, row.id)
    ensures row in Next(t, ev).rows
  {
    match ev
    case Create(_, _, _, _, _, _, _) =>
    case Delete(user, id) => WithoutIs(t.rows, user, id);
    case Rotate(user, id, _, _, _) => WithoutIs(t.rows, user, id);
    case UserGone(user) => OfOthersIs(t.rows, user);
  }

  lemma {:induction false} RowStays(t: Table, evs: seq<Event>, row: Token)
    requires row in t.rows && forall ev <- evs :: !Revokes(ev, row.user, row.id)
    ensures row in Run(t, evs).rows
    decreases |evs|
  {
    hide Next, Revokes;
    if evs != [] {
      StepKeepsRow(t, evs[0], row);
      RowStays(Next(t, evs[0]), evs[1..], row);
    }
  }

  /** The whole life of a token: made at some instant, it authenticates its maker with the scopes as
      stored, in every later history that does not revoke it, until its lifetime is over and not a
      second longer; for ever, if no days are given. Up to 106751 days a lifetime is what was asked. */
  lemma TokenLifetime(before: seq<Event>, user: nat, name: string, scopes: seq<string>, days: int, secret: Secret,
                      salt: string, at: int, after: seq<Event>, now: int)
    requires Fresh({}, before + [Create(user, name, scopes, days, secret, salt, at)] + after)
    requires forall ev <- after :: !Revokes(ev, user, Run(EMPTY, before).nextId)
    ensures
      var rows := Run(EMPTY, before + [Create(user, name, scopes, days, secret, salt, at)] + after).rows;
      var life := if days <= 106751 then days * 86400 else Lifetime(days);
      && (days > 0 && now > at + life ==> Validated(rows, "orc_pat_" + secret, now).Err?)
      && (days <= 0 || now <= at + life ==>
            Validated(rows, "orc_pat_" + secret, now) == Ok(Auth(user, ScopesOf(Join(scopes, ',')))))
  {
    var t, create := Run(EMPTY, before), Create(user, name, scopes, days, secret, salt, at);
    var evs := before + [create] + after;
    var row := NewRow(t, user, name, scopes, days, secret, salt, at);
    RunConcat(EMPTY, before + [create], after);
    RunConcat(EMPTY, before, [create]);
    assert [create][1..] == [];
    assert Run(t, [create]) == Next(t, create);
    assert Next(t, create).rows[|t.rows|] == row;
    RowStays(Next(t, create), after, row);
    if days > 0 {
      LifetimeIff(days);
    }
    hide Run, Fresh, Validated, Join, ScopesOf;
    RowAuthenticates(evs, row, now);
  }

  lemma RowAuthenticates(evs: seq<Event>, row: Token, now: int)
    requires Fresh({}, evs) && row in Run(EMPTY, evs).rows
    ensures
      var r := Validated(Run(EMPTY, evs).rows, row.hash.token, now);
      if Expired(row, now) then r.Err? else r == Ok(Auth(row.user, ScopesOf(row.scopes)))
  {
    RunKeepsDistinct(EMPTY, evs, {});
    IndexFaithful(evs, row.hash.token, now);
    FirstValidIff(Run(EMPTY, evs).rows, row.hash.token, now);
  }

  /** A token asked for with 200000 days has expired when it is made. */
  lemma LongTokenIsDead(before: seq<Event>, user: nat, name: string, scopes: seq<string>, secret: Secret, salt: string,
                        at: int)
    requires Fresh({}, before + [Create(user, name, scopes, 200_000, secret, salt, at)])
    ensures Validated(Run(EMPTY, before + [Create(user, name, scopes, 200_000, secret, salt, at)]).rows,
                      "orc_pat_" + secret, at).Err?
  {
    var evs := before + [Create(user, name, scopes, 200_000, secret, salt, at)];
    assert evs + [] == evs;
    assert Lifetime(200_000) < 0;
    TokenLifetime(before, user, name, scopes, 200_000, secret, salt, at, [], at);
  }

  /** A rotated token authenticates the same user with the same scopes; but it has lost the expiry
      of the token it replaces, and is good for ever. */
  lemma RotationKeepsScopesOnly(before: seq<Event>, user: nat, id: nat, secret: Secret, salt: string, at: int, now: int)
    requires Fresh({}, before + [Rotate(user, id, secret, salt, at)])
    ensures
      var rows := Run(EMPTY, before).rows;
      Owned(rows, user, id).Some? ==>
        Validated(Run(EMPTY, before + [Rotate(user, id, secret, salt, at)]).rows, PAT_PREFIX + secret, now)
          == Ok(Auth(user, ScopesOf(Owned(rows, user, id).value.scopes)))
  {
    var t := Run(EMPTY, before);
    var ev := Rotate(user, id, secret, salt, at);
    if IsDraw(t, ev) {
      var was := Owned(t.rows, user, id).value;
      ScopesStable(was.scopes);
      DrawnToken(t, ev);
      RunConcat(EMPTY, before, [ev]);
      assert [ev][1..] == [];
      assert Run(t, [ev]) == Next(t, ev);
      var row := Drawn(t, ev);
      assert Next(t, ev).rows[|Next(t, ev).rows| - 1] == row;
      assert row.expires.None? && row.hash.token == PAT_PREFIX + secret && row.scopes == was.scopes;
      ValidatesOwnerOnly(before + [ev], PAT_PREFIX + secret, now, Auth(user, ScopesOf(was.scopes)));
    }
  }

  /** An old token and the one it is rotated into authenticate alike at every instant exactly when
      the old one never expired. */
  lemma RotationExpiryIff(before: seq<Event>, row: Token, secret: Secret, salt: string, at: int)
    requires Fresh({}, before + [Rotate(row.user, row.id, secret, salt, at)])
    requires Owned(Run(EMPTY, before).rows, row.user, row.id) == Some(row)
    ensures
      var rows := Run(EMPTY, before).rows;
      var rows' := Run(EMPTY, before + [Rotate(row.user, row.id, secret, salt, at)]).rows;
      (forall now: int :: Validated(rows, row.hash.token, now) == Validated(rows', PAT_PREFIX + secret, now))
      <==> row.expires.None?
  {
    var ev := Rotate(row.user, row.id, secret, salt, at);
    var rows, rows' := Run(EMPTY, before).rows, Run(EMPTY, before + [ev]).rows;
    var auth := Auth(row.user, ScopesOf(row.scopes));
    OwnedIs(rows, row.user, row.id);
    FreshConcat({}, before, [ev]);
    hide Run, Fresh, Validated;
    forall now: int
      ensures Validated(rows', PAT_PREFIX + secret, now) == Ok(auth)
      ensures Validated(rows, row.hash.token, now) == Ok(auth) <==> !Expired(row, now)
    {
      RotationKeepsScopesOnly(before, row.user, row.id, secret, salt, at, now);
      ValidWhileUnexpired(before, row, now);
    }
    if row.expires.Some? {
      var late := row.expires.value + 1;
      assert Expired(row, late);
      assert Validated(rows, row.hash.token, late) != Validated(rows', PAT_PREFIX + secret, late);
    }
  }

  lemma ValidWhileUnexpired(evs: seq<Event>, row: Token, now: int)
    requires Fresh({}, evs) && row in Run(EMPTY, evs).rows
    ensures Validated(Run(EMPTY, evs).rows, row.hash.token, now) == Ok(Auth(row.user, ScopesOf(row.scopes)))
      <==> !Expired(row, now)
  {
    RunKeepsDistinct(EMPTY, evs, {});
    ValidatesOwnerOnly(evs, row.hash.token, now, Auth(row.user, ScopesOf(row.scopes)));
  }

  /** A token made for one day, rotated ten days later, is valid again and for ever. */
  lemma ExpiredTokenRevived(user: nat, scopes: seq<string>, s1: Secret, s2: Secret, now: int)
    requires s1 != s2
    ensures
      var evs := [Create(user, "ci", scopes, 1, s1, "", 0), Rotate(user, 1, s2, "", 10 * DAY)];
      && Validated(Run(EMPTY, evs[..1]).rows, PAT_PREFIX + s1, 10 * DAY).Err?
      && Validated(Run(EMPTY, evs).rows, PAT_PREFIX + s2, now) == Ok(Auth(user, ScopesOf(Join(scopes, ','))))
  {
    var create, rotate := Create(user, "ci", scopes, 1, s1, "", 0), Rotate(user, 1, s2, "", 10 * DAY);
    var evs := [create, rotate];
    var row := NewRow(EMPTY, user, "ci", scopes, 1, s1, "", 0);
    assert evs[..1] == [create] && evs == [create] + [rotate] && evs[1..] == [rotate] && [create][1..] == [] && [rotate][1..] == [];
    assert Run(EMPTY, [create]) == Table([row], 2);
    assert Fresh({}, evs) && Fresh({}, [create]);
    assert Owned([row], user, 1) == Some(row);
    assert Expired(row, 10 * DAY);
    ValidatesOwnerOnly([create], PAT_PREFIX + s1, 10 * DAY, Auth(user, ScopesOf(row.scopes)));
    OnlyExpired([row], PAT_PREFIX + s1, 10 * DAY);
    RotationKeepsScopesOnly([create], user, 1, s2, "", 10 * DAY, now);
  }

  lemma OnlyExpired(rows: seq<Token>, token: string, now: int)
    requires forall row <- rows :: row.hash.token == token ==> Expired(row, now)
    ensures Validated(rows, token, now).Err?
  {
    if HasPrefix(token, PAT_PREFIX) && |token| >= |PAT_PREFIX| + PAT_PEEK_LEN {
      var peek := token[|PAT_PREFIX|..][..PAT_PEEK_LEN];
      PeekedIs(rows, peek);
      FirstValidIff(Peeked(rows, peek), token, now);
    }
  }

  lemma {:induction false} PeekedIs(rows: seq<Token>, peek: string)
    ensures forall row :: row in Peeked(rows, peek) <==> row in rows && row.peek == peek
  {
    if rows != [] {
      PeekedIs(rows[1..], peek);
      assert rows == [rows[0]] + rows[1..];
    }
  }
}
