/**
 Accounts with single-use links: password reset, activation, and the cleanup of
 accounts that were never activated. Links carry fresh random tokens; the database
 stores their SHA-256 digest, which the model takes to be injective.
 */
module Accounts {
  import opened Prelude

  type UserId = nat
  type Token = nat
  type Email = string

  datatype Digest = Sha256(token: Token)

  datatype User = User(
    username: string, email: Email, password: string, isActive: bool, createdAt: Time,
    resetHash: Option<Digest>, resetExpiresAt: Option<Time>,
    activationHash: Option<Digest>, activationExpiresAt: Option<Time>)

  /** What Redis keeps under an activation token until its time to live is over. */
  datatype Entry = Entry(username: string, email: Email, expiresAt: Time)

  type Users = map<UserId, User>
  type Redis = map<Token, Entry>

  const RESET_LIFETIME: Time := Minutes(30)
  const ACTIVATION_LIFETIME: Time := Minutes(30)
  const RETENTION: Time := Minutes(7 * 24 * 60)

  // ---- What each operation does to one account --------------------------------

  function GrantReset(u: User, token: Token, now: Time): User {
    u.(resetHash := Some(Sha256(token)), resetExpiresAt := Some(now + RESET_LIFETIME))
  }

  predicate ResetAccepted(u: User, now: Time) {
    u.isActive && u.resetExpiresAt.Some? && now < u.resetExpiresAt.value
  }

  function ApplyReset(u: User, password: string): User {
    u.(password := password, resetHash := None, resetExpiresAt := None)
  }

  function GrantActivation(u: User, token: Token, now: Time): User {
    u.(activationHash := Some(Sha256(token)), activationExpiresAt := Some(now + ACTIVATION_LIFETIME))
  }

  /** The stored digest, if there is one, must be the link's and unexpired. */
  predicate LinkMatches(u: User, token: Token, now: Time) {
    u.activationHash.Some? ==>
      && u.activationHash.value == Sha256(token)
      && u.activationExpiresAt.Some? && now < u.activationExpiresAt.value
  }

  predicate ActivationAccepted(u: User, entry: Entry, token: Token, now: Time) {
    !u.isActive && u.username == entry.username && LinkMatches(u, token, now)
  }

  function ApplyActivation(u: User, password: string): User {
    u.(password := password, isActive := true)
  }

  predicate Stale(u: User, now: Time) {
    && !u.isActive && u.createdAt < now - RETENTION
    && (u.activationExpiresAt.None? || u.activationExpiresAt.value <= now)
  }

  predicate Live(redis: Redis, token: Token, now: Time) {
    token in redis && now < redis[token].expiresAt
  }

  // ---- Lookups ------------------------------------------------------------------

  predicate UniqueEmails(users: Users) {
    forall a, b | a in users && b in users && users[a].email == users[b].email :: a == b
  }

  predicate FoundByEmail(users: Users, email: Email, id: Option<UserId>) {
    match id
    case Some(u) => u in users && users[u].email == email
    case None => forall u | u in users :: users[u].email != email
  }

  predicate FoundByReset(users: Users, token: Token, id: Option<UserId>) {
    match id
    case Some(u) => u in users && users[u].resetHash == Some(Sha256(token))
    case None => forall u | u in users :: users[u].resetHash != Some(Sha256(token))
  }

  // ---- What each call does to the tables ------------------------------------------

  function NewUser(username: string, email: Email, token: Token, now: Time, secret: string): User {
    GrantActivation(User(username, email, secret, false, now, None, None, None, None), token, now)
  }

  /** A reset link is granted: not throttled, and the account is known and active. */
  predicate ResetGranted(users: Users, id: Option<UserId>, allowed: bool)
    requires id.Some? ==> id.value in users
  {
    allowed && id.Some? && users[id.value].isActive
  }

  function AfterRequestReset(users: Users, id: Option<UserId>, token: Token, now: Time, allowed: bool): Users
    requires id.Some? ==> id.value in users
  {
    if ResetGranted(users, id, allowed)
    then users[id.value := GrantReset(users[id.value], token, now)] else users
  }

  /** reset_password accepts the link for the account found by its digest. */
  predicate Resets(users: Users, id: Option<UserId>, now: Time)
    requires id.Some? ==> id.value in users
  {
    id.Some? && ResetAccepted(users[id.value], now)
  }

  function AfterReset(users: Users, id: Option<UserId>, password: string, now: Time): Users
    requires id.Some? ==> id.value in users
  {
    if Resets(users, id, now) then users[id.value := ApplyReset(users[id.value], password)] else users
  }

  predicate IsNew(users: Users, username: string, email: Email) {
    forall u | u in users :: users[u].username != username && users[u].email != email
  }

  function AfterRegister(users: Users, username: string, email: Email, token: Token, id: UserId, now: Time,
                         secret: string): Users
  {
    if IsNew(users, username, email) then users[id := NewUser(username, email, token, now, secret)] else users
  }

  function RedisAfterRegister(users: Users, redis: Redis, username: string, email: Email, token: Token, now: Time)
      : Redis
  {
    if IsNew(users, username, email) then redis[token := Entry(username, email, now + ACTIVATION_LIFETIME)] else redis
  }

  /** A resend is granted: not throttled, and the account is known and inactive. */
  predicate ResendGranted(users: Users, id: Option<UserId>, allowed: bool)
    requires id.Some? ==> id.value in users
  {
    allowed && id.Some? && !users[id.value].isActive
  }

  function AfterResend(users: Users, id: Option<UserId>, token: Token, now: Time, allowed: bool): Users
    requires id.Some? ==> id.value in users
  {
    if ResendGranted(users, id, allowed) then users[id.value := GrantActivation(users[id.value], token, now)] else users
  }

  function RedisAfterResend(users: Users, redis: Redis, id: Option<UserId>, token: Token, now: Time, allowed: bool)
      : Redis
    requires id.Some? ==> id.value in users
  {
    if ResendGranted(users, id, allowed)
    then redis[token := Entry(users[id.value].username, users[id.value].email, now + ACTIVATION_LIFETIME)] else redis
  }

  /** create_user accepts the link for the account found by its email. */
  predicate Activates(users: Users, redis: Redis, token: Token, id: Option<UserId>, now: Time)
    requires id.Some? && Live(redis, token, now) ==> id.value in users
  {
    Live(redis, token, now) && id.Some? && ActivationAccepted(users[id.value], redis[token], token, now)
  }

  function AfterActivate(users: Users, redis: Redis, token: Token, id: Option<UserId>, password: string, now: Time)
      : Users
    requires id.Some? && Live(redis, token, now) ==> id.value in users
  {
    if Activates(users, redis, token, id, now) then users[id.value := ApplyActivation(users[id.value], password)]
    else users
  }

  function AfterCleanup(users: Users, now: Time): Users {
    map u | u in users && !Stale(users[u], now) :: users[u]
  }

  /** What validate_activation_link shows of a link. */
  datatype LinkState = Usable | AlreadyActive | Invalid

  method FindByEmail(users: Users, email: Email) returns (id: Option<UserId>)
    ensures FoundByEmail(users, email, id)
  {
    if u :| u in users && users[u].email == email { id := Some(u); } else { id := None; }
  }

  class AccountStore {
    var users: Users
    var redis: Redis

    constructor ()
      ensures users == map[] && redis == map[]
    {
      users, redis := map[], map[];
    }

    /** request_password_reset; `allowed` is what the cooldown in Redis answers. */
    method RequestPasswordReset(email: Email, token: Token, now: Time, allowed: bool) returns (ghost id: Option<UserId>)
      modifies this`users
      ensures FoundByEmail(old(users), email, id)
      ensures users == AfterRequestReset(old(users), id, token, now, allowed)
      ensures users == if allowed && id.Some? && old(users)[id.value].isActive then
                old(users)[id.value := old(users)[id.value].(resetHash := Some(Sha256(token)),
                                                             resetExpiresAt := Some(now + Minutes(30)))]
              else old(users)
    {
      var found := FindByEmail(users, email);
      id := found;
      if !allowed { return; }
      if found.None? || !users[found.value].isActive { return; }
      users := users[found.value := GrantReset(users[found.value], token, now)];
    }

    /** reset_password: false when the token is refused. */
    method ResetPassword(token: Token, password: string, now: Time) returns (ok: bool, ghost id: Option<UserId>)
      modifies this`users
      ensures FoundByReset(old(users), token, id)
      ensures ok <==> Resets(old(users), id, now)
      ensures ok <==> && id.Some? && old(users)[id.value].isActive && old(users)[id.value].resetExpiresAt.Some?
                      && now < old(users)[id.value].resetExpiresAt.value
      ensures users == AfterReset(old(users), id, password, now)
      ensures users == if ok then
                old(users)[id.value := old(users)[id.value].(password := password, resetHash := None,
                                                             resetExpiresAt := None)]
              else old(users)
    {
      if u :| u in users && users[u].resetHash == Some(Sha256(token)) {
        id := Some(u);
        if !users[u].isActive || users[u].resetExpiresAt.None? || users[u].resetExpiresAt.value <= now {
          return false, id;
        }
        users := users[u := ApplyReset(users[u], password)];
        ok := true;
      } else {
        return false, None;
      }
    }

    /** register_user; a known username is refused, a known email is silently ignored. */
    method RegisterUser(username: string, email: Email, token: Token, freshId: UserId, now: Time, secret: string)
        returns (ok: bool)
      requires freshId !in users
      modifies this
      ensures ok <==> forall u | u in old(users) :: old(users)[u].username != username
      ensures users == AfterRegister(old(users), username, email, token, freshId, now, secret)
      ensures redis == RedisAfterRegister(old(users), old(redis), username, email, token, now)
      // A new account is inactive, with a random password, and its link is stored here and there for 30 minutes.
      ensures var added := forall u | u in old(users) ::
                             old(users)[u].username != username && old(users)[u].email != email;
              && users == (if added then
                             old(users)[freshId := User(username, email, secret, false, now, None, None,
                                                        Some(Sha256(token)), Some(now + Minutes(30)))]
                           else old(users))
              && redis == if added then old(redis)[token := Entry(username, email, now + Minutes(30))] else old(redis)
    {
      if u :| u in users && users[u].username == username { return false; }
      ok := true;
      var found := FindByEmail(users, email);
      if found.Some? { return; }
      redis := redis[token := Entry(username, email, now + ACTIVATION_LIFETIME)];
      users := users[freshId := NewUser(username, email, token, now, secret)];
    }

    /** resend_activation */
    method ResendActivation(email: Email, token: Token, now: Time, allowed: bool) returns (ghost id: Option<UserId>)
      modifies this
      ensures FoundByEmail(old(users), email, id)
      ensures users == AfterResend(old(users), id, token, now, allowed)
      ensures redis == RedisAfterResend(old(users), old(redis), id, token, now, allowed)
      ensures if allowed && id.Some? && !old(users)[id.value].isActive then
                var u := old(users)[id.value];
                && users == old(users)[id.value := u.(activationHash := Some(Sha256(token)),
                                                      activationExpiresAt := Some(now + Minutes(30)))]
                && redis == old(redis)[token := Entry(u.username, u.email, now + Minutes(30))]
              else users == old(users) && redis == old(redis)
    {
      var found := FindByEmail(users, email);
      id := found;
      if !allowed { return; }
      if found.None? || users[found.value].isActive { return; }
      var u := users[found.value];
      redis := redis[token := Entry(u.username, u.email, now + ACTIVATION_LIFETIME)];
      users := users[found.value := GrantActivation(u, token, now)];
    }

    /** create_user: sets the password and activates, or refuses the link. */
    method CreateUser(token: Token, password: string, now: Time) returns (ok: bool, ghost id: Option<UserId>)
      modifies this`users
      ensures Live(redis, token, now) ==> FoundByEmail(old(users), redis[token].email, id)
      ensures ok <==> Activates(old(users), redis, token, id, now)
      ensures users == AfterActivate(old(users), redis, token, id, password, now)
      ensures ok <==>
                && token in redis && now < redis[token].expiresAt && id.Some?
                && !old(users)[id.value].isActive && old(users)[id.value].username == redis[token].username
                && (old(users)[id.value].activationHash.Some? ==>
                      && old(users)[id.value].activationHash == Some(Sha256(token))
                      && old(users)[id.value].activationExpiresAt.Some?
                      && now < old(users)[id.value].activationExpiresAt.value)
      // The account is active with the chosen password, and nothing else changes.
      ensures users == if ok then
                old(users)[id.value := old(users)[id.value].(password := password, isActive := true)]
              else old(users)
    {
      if !Live(redis, token, now) { return false, None; }
      var entry := redis[token];
      var found := FindByEmail(users, entry.email);
      id := found;
      if found.None? || users[found.value].isActive || users[found.value].username != entry.username {
        return false, id;
      }
      var u := users[found.value];
      if u.activationHash.Some?
         && (|| u.activationHash.value != Sha256(token) || u.activationExpiresAt.None?
             || u.activationExpiresAt.value <= now)
      {
        return false, id;
      }
      users := users[found.value := ApplyActivation(u, password)];
      ok := true;
    }

    /** validate_activation_link, without changing anything. */
    method ValidateActivationLink(token: Token, now: Time) returns (state: LinkState)
      requires UniqueEmails(users)
      // A link is shown as usable exactly when create_user would now accept it.
      ensures state == Usable <==>
                Live(redis, token, now)
                && exists u :: u in users && users[u].email == redis[token].email
                               && ActivationAccepted(users[u], redis[token], token, now)
      // It is shown as used when its account is active: found by digest once Redis has forgotten the link.
      ensures state == AlreadyActive <==>
                if Live(redis, token, now) then
                  exists u :: u in users && users[u].email == redis[token].email && users[u].isActive
                              && users[u].username == redis[token].username && LinkMatches(users[u], token, now)
                else exists u :: u in users && users[u].activationHash == Some(Sha256(token)) && users[u].isActive
    {
      if !Live(redis, token, now) {
        if u :| u in users && users[u].activationHash == Some(Sha256(token)) && users[u].isActive {
          return AlreadyActive;
        }
        return Invalid;
      }
      var entry := redis[token];
      var found := FindByEmail(users, entry.email);
      if found.None? || users[found.value].username != entry.username { return Invalid; }
      var u := users[found.value];
      if u.activationHash.Some?
         && (|| u.activationHash.value != Sha256(token) || u.activationExpiresAt.None?
             || u.activationExpiresAt.value <= now)
      {
        return Invalid;
      }
      if u.isActive { return AlreadyActive; }
      state := Usable;
      assert ActivationAccepted(users[found.value], redis[token], token, now);
    }

    /** cleanup_users */
    method CleanupUsers(now: Time) returns (count: nat)
      modifies this`users
      ensures users == AfterCleanup(old(users), now)
      ensures count == |old(users).Keys - users.Keys|
      // Removed: inactive, over a week old, and without a link that still works. Kept as it is: every other.
      ensures forall u | u in old(users) ::
                if !old(users)[u].isActive && old(users)[u].createdAt < now - Minutes(7 * 24 * 60)
                   && (old(users)[u].activationExpiresAt.None? || old(users)[u].activationExpiresAt.value <= now)
                then u !in users else u in users && users[u] == old(users)[u]
      ensures users.Keys <= old(users).Keys
    {
      assert users.Keys - AfterCleanup(users, now).Keys == set u | u in users && Stale(users[u], now);
      count := |set u | u in users && Stale(users[u], now)|;
      users := map u | u in users && !Stale(users[u], now) :: users[u];
    }
  }

  // ---- All runs -------------------------------------------------------------------

  datatype Issue = Issue(token: Token, expiresAt: Time)

  /** The tables, and the history of links: the latest per account, who each was for, which were spent. */
  datatype System = System(
    clock: Time, users: Users, redis: Redis,
    issued: set<Token>, ids: set<UserId>,
    latestReset: map<UserId, Issue>, resetOwner: map<Token, UserId>, spent: set<Token>,
    latestActivation: map<UserId, Issue>, owner: map<Token, UserId>, activated: set<UserId>)

  datatype Step =
    | Tick(time: Time)
    | RequestReset(email: Email, id: Option<UserId>, token: Token, allowed: bool)
    | Reset(token: Token, id: Option<UserId>, password: string)
    | Register(username: string, email: Email, token: Token, newId: UserId, secret: string)
    | Resend(email: Email, id: Option<UserId>, token: Token, allowed: bool)
    | Activate(token: Token, id: Option<UserId>, password: string)
    | Cleanup

  predicate Enabled(s: System, step: Step) {
    match step
    case Tick(time) => s.clock <= time
    case RequestReset(email, id, token, _) => FoundByEmail(s.users, email, id) && token !in s.issued
    case Reset(token, id, _) => FoundByReset(s.users, token, id)
    case Register(_, _, token, id, _) => token !in s.issued && id !in s.ids
    case Resend(email, id, token, _) => FoundByEmail(s.users, email, id) && token !in s.issued
    case Activate(token, id, _) => token in s.redis ==> FoundByEmail(s.users, s.redis[token].email, id)
    case Cleanup => true
  }

  predicate ResetSucceeds(s: System, step: Step) {
    step.Reset? && Enabled(s, step) && Resets(s.users, step.id, s.clock)
  }

  predicate ActivationSucceeds(s: System, step: Step) {
    step.Activate? && Enabled(s, step) && Activates(s.users, s.redis, step.token, step.id, s.clock)
  }

  predicate RegisterSucceeds(s: System, step: Step) {
    step.Register? && IsNew(s.users, step.username, step.email)
  }

  /** The history of a link sent to an account. */
  function Linked(s: System, id: UserId, token: Token): System {
    s.(issued := s.issued + {token}, ids := s.ids + {id},
       latestActivation := s.latestActivation[id := Issue(token, s.clock + ACTIVATION_LIFETIME)],
       owner := s.owner[token := id])
  }

  function Next(s: System, step: Step): System
    requires Enabled(s, step)
  {
    match step
    case Tick(time) => s.(clock := time)
    case RequestReset(_, id, token, allowed) =>
      if !ResetGranted(s.users, id, allowed) then s
      else
        s.(users := AfterRequestReset(s.users, id, token, s.clock, allowed),
           issued := s.issued + {token},
           latestReset := s.latestReset[id.value := Issue(token, s.clock + RESET_LIFETIME)],
           resetOwner := s.resetOwner[token := id.value])
    case Reset(token, id, password) =>
      if !Resets(s.users, id, s.clock) then s
      else s.(users := AfterReset(s.users, id, password, s.clock), spent := s.spent + {token})
    case Register(username, email, token, id, secret) =>
      if !IsNew(s.users, username, email) then s
      else
        Linked(s, id, token).(users := AfterRegister(s.users, username, email, token, id, s.clock, secret),
                              redis := RedisAfterRegister(s.users, s.redis, username, email, token, s.clock))
    case Resend(_, id, token, allowed) =>
      if !ResendGranted(s.users, id, allowed) then s
      else
        Linked(s, id.value, token).(users := AfterResend(s.users, id, token, s.clock, allowed),
                                    redis := RedisAfterResend(s.users, s.redis, id, token, s.clock, allowed))
    case Activate(token, id, password) =>
      if !Activates(s.users, s.redis, token, id, s.clock) then s
      else
        s.(users := AfterActivate(s.users, s.redis, token, id, password, s.clock),
           activated := s.activated + {id.value})
    case Cleanup => s.(users := AfterCleanup(s.users, s.clock))
  }

  /**
   A database before any digest is stored: accounts without digests, some perhaps already active. Redis may
   still hold activation links that were issued before digests existed; they belong to no account's history.
   */
  predicate Initial(s: System) {
    && UniqueEmails(s.users) && s.ids == s.users.Keys && s.redis.Keys <= s.issued && s.spent == {} && s.activated == {}
    && s.latestReset == map[] && s.latestActivation == map[] && s.owner == map[] && s.resetOwner == map[]
    && forall u | u in s.users ::
         s.users[u].resetHash == None && s.users[u].resetExpiresAt == None && s.users[u].activationHash == None
  }

  /** A stored reset digest is the account's latest reset link, not yet spent. */
  predicate ResetInv(s: System, id: UserId, u: User) {
    u.resetHash.Some? ==>
      && id in s.latestReset && u.resetHash == Some(Sha256(s.latestReset[id].token))
      && u.resetExpiresAt == Some(s.latestReset[id].expiresAt)
      && s.latestReset[id].token in s.resetOwner && s.resetOwner[s.latestReset[id].token] == id
      && s.latestReset[id].token !in s.spent
  }

  /** A stored activation digest is the account's latest activation link, issued to it. */
  predicate ActivationInv(s: System, id: UserId, u: User) {
    u.activationHash.Some? ==>
      && id in s.latestActivation && u.activationHash == Some(Sha256(s.latestActivation[id].token))
      && u.activationExpiresAt == Some(s.latestActivation[id].expiresAt)
      && s.latestActivation[id].token in s.owner && s.owner[s.latestActivation[id].token] == id
  }

  predicate Inv(s: System) {
    && s.users.Keys <= s.ids && s.activated <= s.ids
    && s.spent <= s.issued && s.owner.Keys <= s.issued && s.resetOwner.Keys <= s.issued
    && (forall u | u in s.users :: ResetInv(s, u, s.users[u]) && ActivationInv(s, u, s.users[u]))
    && (forall u | u in s.users && u in s.activated :: s.users[u].isActive)
  }

  /** A step changes a digest or a record of links only where it issues or spends that very link. */
  lemma KeepsReset(s: System, step: Step, u: UserId)
    requires Inv(s) && Enabled(s, step) && u in s.users && u in Next(s, step).users
    ensures ResetInv(Next(s, step), u, Next(s, step).users[u])
  {
    assert ResetInv(s, u, s.users[u]);
    hide ActivationInv;
    if step.Reset? && step.id.Some? {
      assert ResetInv(s, step.id.value, s.users[step.id.value]);
    }
  }

  lemma KeepsActivation(s: System, step: Step, u: UserId)
    requires Inv(s) && Enabled(s, step) && u in s.users && u in Next(s, step).users
    ensures ActivationInv(Next(s, step), u, Next(s, step).users[u])
  {
    assert ActivationInv(s, u, s.users[u]);
    hide ResetInv;
  }

  lemma NewAccountLinks(s: System, step: Step, u: UserId)
    requires Inv(s) && Enabled(s, step) && u !in s.users && u in Next(s, step).users
    ensures ResetInv(Next(s, step), u, Next(s, step).users[u])
    ensures ActivationInv(Next(s, step), u, Next(s, step).users[u])
  {
  }

  /** Identifiers, tokens and activations only ever grow. */
  lemma KeepsRecords(s: System, step: Step)
    requires Inv(s) && Enabled(s, step)
    ensures var s' := Next(s, step);
            && s'.users.Keys <= s'.ids && s'.activated <= s'.ids
            && s'.spent <= s'.issued && s'.owner.Keys <= s'.issued && s'.resetOwner.Keys <= s'.issued
  {
    if step.Reset? && step.id.Some? {
      assert ResetInv(s, step.id.value, s.users[step.id.value]);
    }
    hide ResetInv, ActivationInv, GrantReset, GrantActivation, ApplyReset, ApplyActivation, ActivationAccepted;
  }

  lemma KeepsActive(s: System, step: Step)
    requires Inv(s) && Enabled(s, step)
    ensures forall u | u in Next(s, step).users && u in Next(s, step).activated :: Next(s, step).users[u].isActive
  {
    hide ResetInv, ActivationInv;
  }

  lemma StepKeepsInv(s: System, step: Step)
    requires Inv(s) && Enabled(s, step)
    ensures Inv(Next(s, step))
  {
    hide Enabled, Next, ResetInv, ActivationInv;
    var s' := Next(s, step);
    KeepsRecords(s, step);
    KeepsActive(s, step);
    forall u | u in s'.users ensures ResetInv(s', u, s'.users[u]) && ActivationInv(s', u, s'.users[u]) {
      if u in s.users {
        KeepsReset(s, step, u);
        KeepsActivation(s, step, u);
      } else {
        NewAccountLinks(s, step, u);
      }
    }
  }

  predicate ValidRun(s: System, steps: seq<Step>)
    decreases |steps|
  {
    steps == [] || (Enabled(s, steps[0]) && ValidRun(Next(s, steps[0]), steps[1..]))
  }

  function After(s: System, steps: seq<Step>): System
    requires ValidRun(s, steps)
    decreases |steps|
  {
    if steps == [] then s else After(Next(s, steps[0]), steps[1..])
  }

  lemma {:induction false} RunKeepsInv(s: System, steps: seq<Step>)
    requires Inv(s) && ValidRun(s, steps)
    ensures Inv(After(s, steps))
    decreases |steps|
  {
    if steps == [] {
    } else {
      StepKeepsInv(s, steps[0]);
      RunKeepsInv(Next(s, steps[0]), steps[1..]);
    }
  }

  /** Granted or not, a step leaves the tables that the call it stands for leaves. */
  lemma StepsAreCalls(s: System, step: Step)
    requires Enabled(s, step)
    ensures var users, redis := Next(s, step).users, Next(s, step).redis;
            match step
            case Tick(_) => users == s.users && redis == s.redis
            case RequestReset(_, id, token, allowed) =>
              users == AfterRequestReset(s.users, id, token, s.clock, allowed) && redis == s.redis
            case Reset(token, id, password) => users == AfterReset(s.users, id, password, s.clock) && redis == s.redis
            case Register(username, email, token, id, secret) =>
              && users == AfterRegister(s.users, username, email, token, id, s.clock, secret)
              && redis == RedisAfterRegister(s.users, s.redis, username, email, token, s.clock)
            case Resend(_, id, token, allowed) =>
              && users == AfterResend(s.users, id, token, s.clock, allowed)
              && redis == RedisAfterResend(s.users, s.redis, id, token, s.clock, allowed)
            case Activate(token, id, password) =>
              users == AfterActivate(s.users, s.redis, token, id, password, s.clock) && redis == s.redis
            case Cleanup => users == AfterCleanup(s.users, s.clock) && redis == s.redis
  {
  }

  lemma {:induction false} ClockNeverGoesBack(s: System, steps: seq<Step>)
    requires ValidRun(s, steps)
    ensures s.clock <= After(s, steps).clock
    decreases |steps|
  {
    if steps == [] {
    } else {
      ClockNeverGoesBack(Next(s, steps[0]), steps[1..]);
    }
  }

  // ---- Password resets ------------------------------------------------------------

  /**
   After any run, a reset that succeeds uses the latest link issued to that very account, before it
   expired, for the first time; and the account is active.
   */
  lemma ResetUsesLatestLink(init: System, steps: seq<Step>, step: Step)
    requires Initial(init) && ValidRun(init, steps) && Enabled(After(init, steps), step)
    requires ResetSucceeds(After(init, steps), step)
    ensures var s := After(init, steps);
            var u := step.id.value;
            && u in s.latestReset && s.latestReset[u].token == step.token && s.clock < s.latestReset[u].expiresAt
            && step.token in s.resetOwner && s.resetOwner[step.token] == u
            && step.token !in s.spent && s.users[u].isActive
            && Next(s, step).users[u].password == step.password
  {
    RunKeepsInv(init, steps);
    var s := After(init, steps);
    assert ResetInv(s, step.id.value, s.users[step.id.value]);
  }

  /** The tokens of the resets that succeed during a run, in order. */
  function ResetTokens(s: System, steps: seq<Step>): seq<Token>
    requires ValidRun(s, steps)
    decreases |steps|
  {
    if steps == [] then []
    else (if ResetSucceeds(s, steps[0]) then [steps[0].token] else []) + ResetTokens(Next(s, steps[0]), steps[1..])
  }

  /** No token ever succeeds twice. */
  lemma {:induction false} ResetTokensDistinct(s: System, steps: seq<Step>)
    requires Inv(s) && ValidRun(s, steps)
    ensures Distinct(ResetTokens(s, steps)) && forall t | t in ResetTokens(s, steps) :: t !in s.spent
    decreases |steps|
  {
    if steps == [] {
    } else {
      StepKeepsInv(s, steps[0]);
      var s' := Next(s, steps[0]);
      SpentStaysSpent(s, steps[0]);
      ResetTokensDistinct(s', steps[1..]);
      if ResetSucceeds(s, steps[0]) {
        assert ResetInv(s, steps[0].id.value, s.users[steps[0].id.value]);
        DistinctCons(steps[0].token, ResetTokens(s', steps[1..]));
      } else {
        assert ResetTokens(s, steps) == ResetTokens(s', steps[1..]);
      }
    }
  }

  lemma SpentStaysSpent(s: System, step: Step)
    requires Enabled(s, step)
    ensures s.spent <= Next(s, step).spent && s.activated <= Next(s, step).activated
    ensures ResetSucceeds(s, step) ==> step.token in Next(s, step).spent
    ensures ActivationSucceeds(s, step) ==> step.id.value in Next(s, step).activated
  {
  }

  lemma DistinctCons(t: nat, rest: seq<nat>)
    requires Distinct(rest) && t !in rest
    ensures Distinct([t] + rest)
  {
  }

  /** The account's reset link as it was issued: stored, and not yet used. */
  predicate ResetPending(s: System, id: UserId, token: Token, expiresAt: Time) {
    && id in s.users && s.users[id].isActive
    && s.users[id].resetHash == Some(Sha256(token)) && s.users[id].resetExpiresAt == Some(expiresAt)
  }

  /** A granted request issues such a link. */
  lemma ResetLinkIsIssued(s: System, step: Step, id: UserId)
    requires Enabled(s, step) && step.RequestReset? && step.allowed && step.id == Some(id) && s.users[id].isActive
    ensures ResetPending(Next(s, step), id, step.token, s.clock + Minutes(30))
  {
  }

  /** The account is sent another link, or the link is used. */
  predicate EndsReset(step: Step, id: UserId, token: Token) {
    || (step.RequestReset? && step.id == Some(id) && step.allowed)
    || (step.Reset? && step.token == token)
  }

  /**
   The other direction: an issued reset link works until it expires, whatever else happens, throttled
   requests and refused resets of the account included, unless it is used or the account is sent another one.
   */
  lemma {:induction false} LatestResetWorks(s: System, steps: seq<Step>, id: UserId, token: Token, expiresAt: Time,
                                            password: string)
    requires Inv(s) && ValidRun(s, steps) && ResetPending(s, id, token, expiresAt)
    requires forall i | 0 <= i < |steps| :: !EndsReset(steps[i], id, token)
    requires After(s, steps).clock < expiresAt
    ensures ResetPending(After(s, steps), id, token, expiresAt)
    ensures Enabled(After(s, steps), Reset(token, Some(id), password))
    ensures ResetSucceeds(After(s, steps), Reset(token, Some(id), password))
    decreases |steps|
  {
    if steps == [] {
    } else {
      ResetStaysPending(s, steps[0], id, token, expiresAt);
      StepKeepsInv(s, steps[0]);
      LatestResetWorks(Next(s, steps[0]), steps[1..], id, token, expiresAt, password);
    }
  }

  lemma ResetStaysPending(s: System, step: Step, id: UserId, token: Token, expiresAt: Time)
    requires Inv(s) && Enabled(s, step) && ResetPending(s, id, token, expiresAt)
    requires !EndsReset(step, id, token)
    ensures ResetPending(Next(s, step), id, token, expiresAt)
  {
    hide ResetInv, ActivationInv;
  }

  // ---- Activation -------------------------------------------------------------------

  /**
   Emails are unique; exactly the accounts that were sent a link have a digest; and so does any account whose
   email stands under a link of the history in Redis.
   */
  predicate DigestInv(s: System) {
    && UniqueEmails(s.users) && s.redis.Keys <= s.issued
    && (forall u | u in s.users :: s.users[u].activationHash.Some? <==> u in s.latestActivation)
    && (forall t, u | t in s.redis && t in s.owner && u in s.users && s.users[u].email == s.redis[t].email ::
          s.users[u].activationHash.Some?)
  }

  /** No two accounts ever share an email, and every link in Redis was issued. */
  lemma StepKeepsEmails(s: System, step: Step)
    requires DigestInv(s) && Enabled(s, step)
    ensures UniqueEmails(Next(s, step).users) && Next(s, step).redis.Keys <= Next(s, step).issued
    ensures s.redis.Keys <= s.owner.Keys ==> Next(s, step).redis.Keys <= Next(s, step).owner.Keys
  {
    hide ActivationAccepted, ResetAccepted;
  }

  lemma StepKeepsDigest(s: System, step: Step, u: UserId)
    requires Inv(s) && DigestInv(s) && Enabled(s, step) && u in Next(s, step).users
    ensures Next(s, step).users[u].activationHash.Some? <==> u in Next(s, step).latestActivation
  {
    hide ResetInv, ActivationAccepted, ResetAccepted, UniqueEmails;
    if u in s.users {
    } else {
      assert step.Register? && u == step.newId;
    }
  }

  lemma StepKeepsLinked(s: System, step: Step, t: Token, u: UserId)
    requires Inv(s) && DigestInv(s) && Enabled(s, step)
    requires var s' := Next(s, step);
             t in s'.redis && t in s'.owner && u in s'.users && s'.users[u].email == s'.redis[t].email
    ensures Next(s, step).users[u].activationHash.Some?
  {
    hide Inv, ActivationAccepted, ResetAccepted;
  }

  lemma StepKeepsDigests(s: System, step: Step)
    requires Inv(s) && DigestInv(s) && Enabled(s, step)
    ensures DigestInv(Next(s, step))
    ensures s.redis.Keys <= s.owner.Keys ==> Next(s, step).redis.Keys <= Next(s, step).owner.Keys
  {
    hide Inv, Enabled, Next;
    StepKeepsEmails(s, step);
    var s' := Next(s, step);
    forall u | u in s'.users ensures s'.users[u].activationHash.Some? <==> u in s'.latestActivation {
      StepKeepsDigest(s, step, u);
    }
    forall t, u | t in s'.redis && t in s'.owner && u in s'.users && s'.users[u].email == s'.redis[t].email
      ensures s'.users[u].activationHash.Some?
    {
      StepKeepsLinked(s, step, t, u);
    }
  }

  lemma {:induction false} RunKeepsDigests(s: System, steps: seq<Step>)
    requires Inv(s) && DigestInv(s) && ValidRun(s, steps)
    ensures DigestInv(After(s, steps))
    ensures s.redis.Keys <= s.owner.Keys ==> After(s, steps).redis.Keys <= After(s, steps).owner.Keys
    decreases |steps|
  {
    if steps == [] {
    } else {
      StepKeepsInv(s, steps[0]);
      StepKeepsDigests(s, steps[0]);
      RunKeepsDigests(Next(s, steps[0]), steps[1..]);
    }
  }

  /** The account is activated by the latest link issued to it, and before that link expired. */
  predicate ByLatestLink(s: System, step: Step)
    requires ActivationSucceeds(s, step)
  {
    var u := step.id.value;
    && u in s.latestActivation && s.latestActivation[u].token == step.token
    && s.clock < s.latestActivation[u].expiresAt
    && step.token in s.owner && s.owner[step.token] == u
  }

  /**
   After any run, cleanups and re-registrations of the same email included, an account is activated by its
   latest link if and only if it has a digest, and it has one unless the link is older than the history.
   */
  lemma ActivationLatestIff(init: System, steps: seq<Step>, step: Step)
    requires Initial(init) && ValidRun(init, steps) && ActivationSucceeds(After(init, steps), step)
    ensures var s := After(init, steps);
            && (ByLatestLink(s, step) <==> s.users[step.id.value].activationHash.Some?)
            && (ByLatestLink(s, step) <==> step.token in s.owner)
            && step.id.value !in s.activated
            && Next(s, step).users == s.users[step.id.value := s.users[step.id.value].(password := step.password,
                                                                                      isActive := true)]
  {
    RunKeepsInv(init, steps);
    RunKeepsDigests(init, steps);
    var s := After(init, steps);
    assert ActivationInv(s, step.id.value, s.users[step.id.value]);
  }

  /** Without links older than the digests, every activation of every run is by the account's latest link. */
  lemma ActivationUsesLatestLink(init: System, steps: seq<Step>, step: Step)
    requires Initial(init) && init.redis == map[]
    requires ValidRun(init, steps) && ActivationSucceeds(After(init, steps), step)
    ensures ByLatestLink(After(init, steps), step)
  {
    RunKeepsInv(init, steps);
    RunKeepsDigests(init, steps);
    ActivationLatestIff(init, steps, step);
  }

  /** An account from before the digests, with two links still in Redis: each of them activates it. */
  lemma LegacyLinkActivates(now: Time)
    ensures var u := User("ann", "a@home", "", false, now, None, None, None, None);
            var entry := Entry("ann", "a@home", now + ACTIVATION_LIFETIME);
            var init := System(now, map[0 := u], map[1 := entry, 2 := entry], {1, 2}, {0},
                               map[], map[], {}, map[], map[], {});
            && Initial(init)
            && forall token | token == 1 || token == 2 ::
                 && ActivationSucceeds(init, Activate(token, Some(0), "secret"))
                 && !ByLatestLink(init, Activate(token, Some(0), "secret"))
  {
  }

  /** A link issued to one account never activates another one, such as a later account with the same email. */
  lemma ForeignLinkRefused(init: System, steps: seq<Step>, step: Step)
    requires Initial(init) && ValidRun(init, steps) && Enabled(After(init, steps), step) && step.Activate?
    requires step.token in After(init, steps).owner && step.id != Some(After(init, steps).owner[step.token])
    ensures !ActivationSucceeds(After(init, steps), step) && Next(After(init, steps), step) == After(init, steps)
  {
    if ActivationSucceeds(After(init, steps), step) {
      ActivationLatestIff(init, steps, step);
    }
  }

  /** The account's activation link as it was issued: digest and Redis entry in place, account still inactive. */
  predicate ActivationPending(s: System, id: UserId, token: Token, expiresAt: Time) {
    && id in s.users && !s.users[id].isActive && token in s.issued
    && s.users[id].activationHash == Some(Sha256(token)) && s.users[id].activationExpiresAt == Some(expiresAt)
    && token in s.redis && s.redis[token] == Entry(s.users[id].username, s.users[id].email, expiresAt)
  }

  /** Registering and resending issue such a link. */
  lemma LinkIsIssued(s: System, step: Step, id: UserId)
    requires Enabled(s, step)
    requires (step.Resend? && step.allowed && step.id == Some(id) && !s.users[id].isActive)
             || (RegisterSucceeds(s, step) && step.newId == id)
    ensures ActivationPending(Next(s, step), id, step.token, s.clock + ACTIVATION_LIFETIME)
  {
  }

  /** The account is sent another link, or the link is used. */
  predicate EndsActivation(step: Step, id: UserId, token: Token) {
    || (step.Resend? && step.id == Some(id) && step.allowed)
    || (step.Activate? && step.id == Some(id) && step.token == token)
  }

  /**
   The other direction: an issued activation link works until it expires, through cleanups, throttled
   resends and attempts with other links, unless it is used or the account is sent another one.
   */
  lemma {:induction false} LatestActivationWorks(s: System, steps: seq<Step>, id: UserId, token: Token, expiresAt: Time,
                                                 password: string)
    requires Inv(s) && ValidRun(s, steps) && ActivationPending(s, id, token, expiresAt)
    requires forall i | 0 <= i < |steps| :: !EndsActivation(steps[i], id, token)
    requires After(s, steps).clock < expiresAt
    ensures ActivationPending(After(s, steps), id, token, expiresAt)
    ensures Enabled(After(s, steps), Activate(token, Some(id), password))
    ensures ActivationSucceeds(After(s, steps), Activate(token, Some(id), password))
    decreases |steps|
  {
    ClockNeverGoesBack(s, steps);
    if steps == [] {
    } else {
      ActivationStaysPending(s, steps[0], id, token, expiresAt);
      StepKeepsInv(s, steps[0]);
      LatestActivationWorks(Next(s, steps[0]), steps[1..], id, token, expiresAt, password);
    }
  }

  lemma ActivationStaysPending(s: System, step: Step, id: UserId, token: Token, expiresAt: Time)
    requires Inv(s) && Enabled(s, step) && ActivationPending(s, id, token, expiresAt) && s.clock < expiresAt
    requires !EndsActivation(step, id, token)
    ensures ActivationPending(Next(s, step), id, token, expiresAt)
  {
    assert ResetInv(s, id, s.users[id]);
    hide ActivationInv;
  }

  function Activations(s: System, steps: seq<Step>): seq<UserId>
    requires ValidRun(s, steps)
    decreases |steps|
  {
    if steps == [] then []
    else (if ActivationSucceeds(s, steps[0]) then [steps[0].id.value] else [])
         + Activations(Next(s, steps[0]), steps[1..])
  }

  /** No account is activated twice. */
  lemma {:induction false} ActivatedOnce(s: System, steps: seq<Step>)
    requires Inv(s) && ValidRun(s, steps)
    ensures Distinct(Activations(s, steps)) && forall u | u in Activations(s, steps) :: u !in s.activated
    decreases |steps|
  {
    if steps == [] {
    } else {
      StepKeepsInv(s, steps[0]);
      var s' := Next(s, steps[0]);
      SpentStaysSpent(s, steps[0]);
      ActivatedOnce(s', steps[1..]);
      if ActivationSucceeds(s, steps[0]) {
        DistinctCons(steps[0].id.value, Activations(s', steps[1..]));
      } else {
        assert Activations(s, steps) == Activations(s', steps[1..]);
      }
    }
  }

  /** The cleanup never removes an active account, nor one whose activation link could still be used. */
  lemma CleanupSparesUsable(s: System, id: UserId)
    requires id in s.users
    requires var u := s.users[id];
             u.isActive || (u.activationExpiresAt.Some? && s.clock < u.activationExpiresAt.value)
    ensures Enabled(s, Cleanup) && id in Next(s, Cleanup).users && Next(s, Cleanup).users[id] == s.users[id]
  {
  }
}
