/**
 Password reset tokens and user invites.
 `src/voter_api/services/auth_service.py`, lines 335-688.

 Raw tokens and row ids come from one supply of numbers that never repeats; the row's
 creation time is the time of the request. Whether mail was delivered is an input.
 */
module ResetAndInvite {
  import opened Prelude

  type Id = nat
  type Instant = int

  const MINUTE: Instant := 60_000_000
  const RESET_LIFETIME: Instant := 24 * 60 * MINUTE
  const INVITE_LIFETIME: Instant := 7 * 24 * 60 * MINUTE

  datatype Settings = Settings(resetRateLimitMinutes: int) {
    predicate Legal() {
      resetRateLimitMinutes > 0
    }

    function RateLimit(): Instant {
      resetRateLimitMinutes * MINUTE
    }
  }

  /** SHA-256 of a raw token, taken to be injective. */
  datatype Digest = Sha256(raw: nat)

  datatype User = User(username: string, email: string, password: string, role: string)

  datatype Reset = Reset(user: Id, createdAt: Instant, expiresAt: Instant, usedAt: Option<Instant>)

  datatype Invite = Invite(email: string, role: string, digest: Digest, expiresAt: Instant, acceptedAt: Option<Instant>)

  /** `resets` is keyed by its unique token hash. */
  datatype Db = Db(users: map<Id, User>, resets: map<Digest, Reset>, invites: map<Id, Invite>, supply: nat)

  datatype Action =
    | RequestReset(email: string, delivered: bool)
    | ConfirmReset(raw: nat, password: string)
    | CreateInvite(email: string, role: string, delivered: bool)
    | CancelInvite(id: Id)
    | ResendInvite(id: Id, delivered: bool)
    | AcceptInvite(raw: nat, username: string, password: string)
    | DeleteUser(id: Id)

  datatype Event = Event(at: Instant, action: Action)

  datatype Outcome =
    | Ignored | RateLimited | NotDelivered | ResetSent(user: Id, raw: nat)
    | InvalidToken | ExpiredToken | NoSuchUser | PasswordChanged(user: Id)
    | Taken | InviteSent(invite: Id, raw: nat) | NoSuchInvite | AlreadyAccepted | Cancelled
    | UserCreated(user: Id, invite: Id) | Deleted

  function ByEmail(users: map<Id, User>, email: string): set<Id> {
    set u | u in users && users[u].email == email
  }

  function ByUsername(users: map<Id, User>, username: string): set<Id> {
    set u | u in users && users[u].username == username
  }

  function ByDigest(invites: map<Id, Invite>, d: Digest): set<Id> {
    set k | k in invites && invites[k].digest == d
  }

  function RecentResets(resets: map<Digest, Reset>, u: Id, cutoff: Instant): set<Digest> {
    set d | d in resets && resets[d].user == u && resets[d].createdAt > cutoff
  }

  function WithoutResetsOf(resets: map<Digest, Reset>, u: Id): map<Digest, Reset> {
    map d | d in resets && resets[d].user != u :: resets[d]
  }

  function AskReset(cfg: Settings, db: Db, now: Instant, email: string, delivered: bool): (Db, Outcome) {
    match OneOrNone(ByEmail(db.users, email))
    case None => (db, Ignored)
    case Some(u) =>
      if RecentResets(db.resets, u, now - cfg.RateLimit()) != {} then (db, RateLimited)
      else
        var raw, rest := db.supply, db.(supply := db.supply + 1);
        if !delivered then (rest, NotDelivered)
        else
          var row := Reset(u, now, now + RESET_LIFETIME, None);
          (rest.(resets := WithoutResetsOf(db.resets, u)[Sha256(raw) := row]), ResetSent(u, raw))
  }

  function UseReset(db: Db, now: Instant, raw: nat, password: string): (Db, Outcome) {
    var d := Sha256(raw);
    if d !in db.resets || db.resets[d].usedAt.Some? then (db, InvalidToken)
    else if db.resets[d].expiresAt <= now then (db, ExpiredToken)
    else
      var u := db.resets[d].user;
      if u !in db.users then (db, NoSuchUser)
      else (db.(users := db.users[u := db.users[u].(password := password)],
                resets := db.resets[d := db.resets[d].(usedAt := Some(now))]), PasswordChanged(u))
  }

  function Invited(db: Db, now: Instant, email: string, role: string, delivered: bool): (Db, Outcome) {
    if ByEmail(db.users, email) != {} then (db, Taken)
    else
      var raw, rest := db.supply, db.(supply := db.supply + 1);
      if !delivered then (rest, NotDelivered)
      else
        var id := rest.supply;
        var row := Invite(email, role, Sha256(raw), now + INVITE_LIFETIME, None);
        (rest.(invites := db.invites[id := row], supply := id + 1), InviteSent(id, raw))
  }

  function Resent(db: Db, now: Instant, id: Id, delivered: bool): (Db, Outcome) {
    if id !in db.invites then (db, NoSuchInvite)
    else if db.invites[id].acceptedAt.Some? then (db, AlreadyAccepted)
    else
      var raw, rest := db.supply, db.(supply := db.supply + 1);
      if !delivered then (rest, NotDelivered)
      else
        var row := db.invites[id].(digest := Sha256(raw), expiresAt := now + INVITE_LIFETIME);
        (rest.(invites := db.invites[id := row]), InviteSent(id, raw))
  }

  function Accepted(db: Db, now: Instant, raw: nat, username: string, password: string): (Db, Outcome) {
    match OneOrNone(ByDigest(db.invites, Sha256(raw)))
    case None => (db, InvalidToken)
    case Some(k) =>
      assert k in ByDigest(db.invites, Sha256(raw));
      var invite := db.invites[k];
      if invite.acceptedAt.Some? then (db, InvalidToken)
      else if invite.expiresAt <= now then (db, ExpiredToken)
      else if ByUsername(db.users, username) != {} || ByEmail(db.users, invite.email) != {} then (db, Taken)
      else (Db(db.users[db.supply := User(username, invite.email, password, invite.role)], db.resets,
               db.invites[k := invite.(acceptedAt := Some(now))], db.supply + 1), UserCreated(db.supply, k))
  }

  function Step(cfg: Settings, db: Db, e: Event): (Db, Outcome) {
    match e.action
    case RequestReset(email, delivered) => AskReset(cfg, db, e.at, email, delivered)
    case ConfirmReset(raw, password) => UseReset(db, e.at, raw, password)
    case CreateInvite(email, role, delivered) => Invited(db, e.at, email, role, delivered)
    case CancelInvite(id) =>
      if id in db.invites then (db.(invites := db.invites - {id}), Cancelled) else (db, NoSuchInvite)
    case ResendInvite(id, delivered) => Resent(db, e.at, id, delivered)
    case AcceptInvite(raw, username, password) => Accepted(db, e.at, raw, username, password)
    case DeleteUser(id) =>
      if id in db.users then (db.(users := db.users - {id}, resets := WithoutResetsOf(db.resets, id)), Deleted)
      else (db, NoSuchUser)
  }

  function Run(cfg: Settings, db: Db, es: seq<Event>): (r: (Db, seq<Outcome>))
    ensures |r.1| == |es|
    decreases |es|
  {
    if es == [] then (db, [])
    else
      var (next, o) := Step(cfg, db, es[0]);
      var (last, os) := Run(cfg, next, es[1..]);
      (last, [o] + os)
  }

  // ---------------------------------------------------------------- what every state keeps

  ghost predicate UsersSound(db: Db) {
    && (forall u :: u in db.users ==> u < db.supply)
    && (forall u, v :: u in db.users && v in db.users && u != v ==>
          db.users[u].email != db.users[v].email && db.users[u].username != db.users[v].username)
  }

  /** At most one reset token per user, for a user that exists. */
  ghost predicate ResetsSound(db: Db) {
    && (forall d :: d in db.resets ==> d.raw < db.supply && db.resets[d].user in db.users)
    && (forall d, e :: d in db.resets && e in db.resets && d != e ==> db.resets[d].user != db.resets[e].user)
  }

  ghost predicate InvitesSound(db: Db) {
    && (forall k :: k in db.invites ==> k < db.supply && db.invites[k].digest.raw < db.supply)
    && (forall k, l :: k in db.invites && l in db.invites && k != l ==> db.invites[k].digest != db.invites[l].digest)
  }

  ghost predicate Sound(db: Db) {
    UsersSound(db) && ResetsSound(db) && InvitesSound(db)
  }

  lemma {:induction false} AskResetSound(cfg: Settings, db: Db, now: Instant, email: string, delivered: bool)
    requires Sound(db)
    ensures var next := AskReset(cfg, db, now, email, delivered).0; Sound(next) && db.supply <= next.supply
  {
    var found := OneOrNone(ByEmail(db.users, email));
    if found.Some? {
      assert found.value in ByEmail(db.users, email);
    }
  }

  lemma {:induction false} InviteRowSound(db: Db, k: Id, row: Invite, supply: nat)
    requires InvitesSound(db) && db.supply <= supply && k < supply && row.digest.raw < supply
    requires forall l :: l in db.invites && l != k ==> db.invites[l].digest != row.digest
    ensures InvitesSound(db.(invites := db.invites[k := row], supply := supply))
  {
  }

  lemma {:induction false} InvitedSound(db: Db, now: Instant, email: string, role: string, delivered: bool)
    requires Sound(db)
    ensures var next := Invited(db, now, email, role, delivered).0; Sound(next) && db.supply <= next.supply
  {
    InviteRowSound(db, db.supply + 1, Invite(email, role, Sha256(db.supply), now + INVITE_LIFETIME, None), db.supply + 2);
  }

  lemma {:induction false} AcceptedSound(db: Db, now: Instant, raw: nat, username: string, password: string)
    requires Sound(db)
    ensures var next := Accepted(db, now, raw, username, password).0; Sound(next) && db.supply <= next.supply
  {
    var (next, o) := Accepted(db, now, raw, username, password);
    if o.UserCreated? {
      var k := o.invite;
      assert k in ByDigest(db.invites, Sha256(raw));
      InviteRowSound(db, k, db.invites[k].(acceptedAt := Some(now)), db.supply + 1);
      UserRowSound(db, User(username, db.invites[k].email, password, db.invites[k].role));
      hide UsersSound, InvitesSound, ByDigest;
    }
  }

  /** A user whose name and email nobody has can be added under the next id. */
  lemma {:induction false} UserRowSound(db: Db, u: User)
    requires UsersSound(db) && ByUsername(db.users, u.username) == {} && ByEmail(db.users, u.email) == {}
    ensures UsersSound(db.(users := db.users[db.supply := u], supply := db.supply + 1))
  {
    assert forall v :: v in db.users && db.users[v].username == u.username ==> v in ByUsername(db.users, u.username);
    assert forall v :: v in db.users && db.users[v].email == u.email ==> v in ByEmail(db.users, u.email);
  }

  lemma {:induction false} ResentSound(db: Db, now: Instant, id: Id, delivered: bool)
    requires Sound(db)
    ensures var next := Resent(db, now, id, delivered).0; Sound(next) && db.supply <= next.supply
  {
    if id in db.invites {
      var row := db.invites[id].(digest := Sha256(db.supply), expiresAt := now + INVITE_LIFETIME);
      InviteRowSound(db, id, row, db.supply + 1);
    }
  }

  lemma {:induction false} UseResetSound(db: Db, now: Instant, raw: nat, password: string)
    requires Sound(db)
    ensures var next := UseReset(db, now, raw, password).0; Sound(next) && db.supply <= next.supply
  {
  }

  lemma {:induction false} CancelledSound(db: Db, k: Id)
    requires Sound(db)
    ensures Sound(db.(invites := db.invites - {k}))
  {
  }

  lemma {:induction false} DeletedSound(db: Db, u: Id)
    requires Sound(db)
    ensures Sound(db.(users := db.users - {u}, resets := WithoutResetsOf(db.resets, u)))
  {
  }

  lemma {:induction false} StepSound(cfg: Settings, db: Db, e: Event)
    requires Sound(db)
    ensures Sound(Step(cfg, db, e).0) && db.supply <= Step(cfg, db, e).0.supply
  {
    hide AskReset, Invited, Accepted, Resent, UseReset, Sound;
    match e.action
    case RequestReset(email, delivered) => AskResetSound(cfg, db, e.at, email, delivered);
    case ConfirmReset(raw, password) => UseResetSound(db, e.at, raw, password);
    case CreateInvite(email, role, delivered) => InvitedSound(db, e.at, email, role, delivered);
    case ResendInvite(id, delivered) => ResentSound(db, e.at, id, delivered);
    case AcceptInvite(raw, username, password) => AcceptedSound(db, e.at, raw, username, password);
    case CancelInvite(id) => CancelledSound(db, id);
    case DeleteUser(id) => DeletedSound(db, id);
  }

  /** Every reachable state: one reset token per user at most, unique emails, usernames and token hashes. */
  lemma {:induction false} RunSound(cfg: Settings, db: Db, es: seq<Event>)
    requires Sound(db)
    ensures Sound(Run(cfg, db, es).0)
    decreases |es|
  {
    if es != [] {
      StepSound(cfg, db, es[0]);
      hide Step, Sound;
      RunSound(cfg, Step(cfg, db, es[0]).0, es[1..]);
    }
  }

  ghost predicate Timed(start: Instant, es: seq<Event>) {
    && (forall i :: 0 <= i < |es| ==> start <= es[i].at)
    && (forall i, j :: 0 <= i < j < |es| ==> es[i].at <= es[j].at)
  }

  // ---------------------------------------------------------------- reset tokens

  /** The user's token row, as long as the user exists, is from `t` or later. */
  ghost predicate IssuedSince(db: Db, u: Id, t: Instant) {
    u < db.supply && (u in db.users ==> exists d :: d in db.resets && db.resets[d].user == u && db.resets[d].createdAt >= t)
  }

  lemma {:induction false} AskIssuedSince(cfg: Settings, db: Db, now: Instant, email: string, delivered: bool, u: Id, t: Instant)
    requires Sound(db) && IssuedSince(db, u, t) && t <= now
    ensures var (next, o) := AskReset(cfg, db, now, email, delivered);
      && IssuedSince(next, u, t) && (o.ResetSent? && o.user == u ==> now - t >= cfg.RateLimit())
  {
    var (next, o) := AskReset(cfg, db, now, email, delivered);
    if o.ResetSent? {
      assert o.user in ByEmail(db.users, email);
      if u in db.users {
        var d :| d in db.resets && db.resets[d].user == u && db.resets[d].createdAt >= t;
        if o.user == u {
          assert d !in RecentResets(db.resets, u, now - cfg.RateLimit());
          assert next.resets[Sha256(db.supply)].user == u;
        } else {
          assert next.resets[d] == db.resets[d];
        }
      }
    }
  }

  /** The users and tokens that `IssuedSince` depends on carry over. */
  lemma {:induction false} IssuedSinceKept(db: Db, next: Db, u: Id, t: Instant)
    requires IssuedSince(db, u, t) && db.supply <= next.supply
    requires u in next.users ==> u in db.users
    requires u in next.users ==> forall d :: d in db.resets && db.resets[d].user == u ==>
      (d in next.resets && next.resets[d].user == u && next.resets[d].createdAt == db.resets[d].createdAt)
    ensures IssuedSince(next, u, t)
  {
    if u in next.users {
      var d :| d in db.resets && db.resets[d].user == u && db.resets[d].createdAt >= t;
      assert next.resets[d].user == u;
    }
  }

  lemma {:induction false} StepIssuedSince(cfg: Settings, db: Db, e: Event, u: Id, t: Instant)
    requires Sound(db) && IssuedSince(db, u, t) && t <= e.at
    ensures IssuedSince(Step(cfg, db, e).0, u, t)
    ensures Step(cfg, db, e).1.ResetSent? && Step(cfg, db, e).1.user == u ==> e.at - t >= cfg.RateLimit()
  {
    hide Sound, IssuedSince, AskReset, UseReset, Invited, Resent, Accepted, WithoutResetsOf;
    IssuedIsOld(db, u, t);
    var next := Step(cfg, db, e).0;
    match e.action
    case RequestReset(email, delivered) => AskIssuedSince(cfg, db, e.at, email, delivered, u, t);
    case CreateInvite(email, role, delivered) =>
      InvitesLeaveUsers(db, e.at, email, role, delivered, 0);
      IssuedSinceKept(db, next, u, t);
    case ResendInvite(id, delivered) =>
      InvitesLeaveUsers(db, e.at, "", "", delivered, id);
      IssuedSinceKept(db, next, u, t);
    case AcceptInvite(raw, username, password) =>
      AcceptedAddsOne(db, e.at, raw, username, password);
      IssuedSinceKept(db, next, u, t);
    case ConfirmReset(raw, password) =>
      UseResetMarks(db, e.at, raw, password);
      IssuedSinceKept(db, next, u, t);
    case DeleteUser(id) =>
      OthersKeepResets(db.resets, id);
      IssuedSinceKept(db, next, u, t);
    case CancelInvite(_) => IssuedSinceKept(db, next, u, t);
  }

  lemma {:induction false} IssuedIsOld(db: Db, u: Id, t: Instant)
    requires IssuedSince(db, u, t)
    ensures u < db.supply
  {
  }

  lemma {:induction false} UseResetMarks(db: Db, now: Instant, raw: nat, password: string)
    ensures var (next, o) := UseReset(db, now, raw, password);
      && next.users.Keys == db.users.Keys && next.resets.Keys == db.resets.Keys && next.supply == db.supply && !o.ResetSent?
      && (forall d :: d in db.resets ==>
            (next.resets[d].user == db.resets[d].user && next.resets[d].createdAt == db.resets[d].createdAt))
  {
  }

  lemma {:induction false} OthersKeepResets(resets: map<Digest, Reset>, id: Id)
    ensures forall d :: d in resets && resets[d].user != id ==> d in WithoutResetsOf(resets, id) && WithoutResetsOf(resets, id)[d] == resets[d]
  {
  }

  lemma {:induction false} InvitesLeaveUsers(db: Db, now: Instant, email: string, role: string, delivered: bool, id: Id)
    ensures var (next, o) := Invited(db, now, email, role, delivered);
      next.users == db.users && next.resets == db.resets && db.supply <= next.supply && !o.ResetSent?
    ensures var (next, o) := Resent(db, now, id, delivered);
      next.users == db.users && next.resets == db.resets && db.supply <= next.supply && !o.ResetSent?
  {
  }

  lemma {:induction false} AcceptedAddsOne(db: Db, now: Instant, raw: nat, username: string, password: string)
    ensures var (next, o) := Accepted(db, now, raw, username, password);
      && next.resets == db.resets && db.supply <= next.supply && !o.ResetSent?
      && (next.users == db.users || (next.users == db.users[db.supply := next.users[db.supply]] && next.supply == db.supply + 1))
  {
  }

  lemma {:induction false} LaterRequests(cfg: Settings, db: Db, es: seq<Event>, u: Id, t: Instant, i: nat)
    requires Sound(db) && IssuedSince(db, u, t) && Timed(t, es) && i < |es|
    requires Run(cfg, db, es).1[i].ResetSent? && Run(cfg, db, es).1[i].user == u
    ensures es[i].at - t >= cfg.RateLimit()
    decreases |es|
  {
    StepSound(cfg, db, es[0]);
    StepIssuedSince(cfg, db, es[0], u, t);
    var next := Step(cfg, db, es[0]).0;
    hide Step, Sound, IssuedSince;
    if i > 0 {
      LaterRequests(cfg, next, es[1..], u, t, i - 1);
    }
  }

  /** Tokens issued to one user are at least the rate limit apart, whatever happens between. */
  lemma {:induction false} ResetsSpaced(cfg: Settings, db: Db, first: Event, es: seq<Event>, u: Id, raw: nat, i: nat)
    requires Sound(db) && Timed(first.at, es) && i < |es|
    requires Step(cfg, db, first).1 == ResetSent(u, raw)
    requires Run(cfg, Step(cfg, db, first).0, es).1[i].ResetSent? && Run(cfg, Step(cfg, db, first).0, es).1[i].user == u
    ensures es[i].at - first.at >= cfg.resetRateLimitMinutes * 60_000_000
  {
    StepSound(cfg, db, first);
    ResetSentRow(cfg, db, first, u, raw);
    hide Step, Sound, IssuedSince, Run, Timed;
    LaterRequests(cfg, Step(cfg, db, first).0, es, u, first.at, i);
  }

  /** What is known of raw token `r`: its user and expiry, and whether it is spent. */
  ghost predicate ResetToken(db: Db, r: nat, u: Id, expiry: Instant, spent: bool) {
    && r < db.supply
    && (Sha256(r) in db.resets ==>
          var row := db.resets[Sha256(r)]; row.user == u && row.expiresAt == expiry && (spent ==> row.usedAt.Some?))
  }

  lemma {:induction false} ResetSentRow(cfg: Settings, db: Db, e: Event, u: Id, raw: nat)
    requires Sound(db) && Step(cfg, db, e).1 == ResetSent(u, raw)
    ensures var next := Step(cfg, db, e).0;
      && IssuedSince(next, u, e.at) && ResetToken(next, raw, u, e.at + RESET_LIFETIME, false)
      && (forall r, expiry :: Sha256(r) in db.resets && db.resets[Sha256(r)].user == u ==> ResetToken(next, r, u, expiry, true))
  {
    hide Invited, Resent, Accepted;
    match e.action
    case CreateInvite(email, role, delivered) => InvitesLeaveUsers(db, e.at, email, role, delivered, 0);
    case ResendInvite(id, delivered) => InvitesLeaveUsers(db, e.at, "", "", delivered, id);
    case AcceptInvite(raw, username, password) => AcceptedAddsOne(db, e.at, raw, username, password);
    case RequestReset(_, _) =>
      var next := Step(cfg, db, e).0;
      assert next.resets[Sha256(raw)] == Reset(u, e.at, e.at + RESET_LIFETIME, None);
    case _ =>
  }

  /** A reset goes to the one user with the requested email, and replaces that user's tokens only. */
  lemma {:induction false} ResetGoesToOwner(cfg: Settings, db: Db, now: Instant, email: string, delivered: bool)
    requires Sound(db)
    ensures var (next, o) := AskReset(cfg, db, now, email, delivered);
      && next.users == db.users
      && (o.Ignored? <==> forall u :: u in db.users ==> db.users[u].email != email)
      && (o.ResetSent? ==>
            o.user in db.users && db.users[o.user].email == email && o.raw >= db.supply
            && (forall d :: d in db.resets && db.resets[d].user != o.user ==> d in next.resets && next.resets[d] == db.resets[d]))
      && (!o.ResetSent? ==> next.resets == db.resets)
  {
    var (next, o) := AskReset(cfg, db, now, email, delivered);
    var found := ByEmail(db.users, email);
    if u :| u in db.users && db.users[u].email == email {
      assert u in found;
      assert found == {u};
    } else {
      assert found == {};
    }
  }

  predicate ChangedBy(e: Event, o: Outcome, r: nat) {
    e.action.ConfirmReset? && e.action.raw == r && o.PasswordChanged?
  }

  lemma {:induction false} StepResetToken(cfg: Settings, db: Db, e: Event, r: nat, u: Id, expiry: Instant, spent: bool)
    requires ResetToken(db, r, u, expiry, spent)
    ensures var (next, o) := Step(cfg, db, e);
      && ResetToken(next, r, u, expiry, spent)
      && (ChangedBy(e, o, r) ==> !spent && o.user == u && e.at < expiry && ResetToken(next, r, u, expiry, true))
  {
    hide Invited, Resent, Accepted;
    match e.action
    case CreateInvite(email, role, delivered) => InvitesLeaveUsers(db, e.at, email, role, delivered, 0);
    case ResendInvite(id, delivered) => InvitesLeaveUsers(db, e.at, "", "", delivered, id);
    case AcceptInvite(raw, username, password) => AcceptedAddsOne(db, e.at, raw, username, password);
    case _ =>
  }

  lemma {:induction false} ResetTokenRun(cfg: Settings, db: Db, es: seq<Event>, r: nat, u: Id, expiry: Instant, spent: bool, i: nat)
    requires ResetToken(db, r, u, expiry, spent) && i < |es| && ChangedBy(es[i], Run(cfg, db, es).1[i], r)
    ensures !spent && Run(cfg, db, es).1[i].user == u && es[i].at < expiry
    decreases |es|
  {
    StepResetToken(cfg, db, es[0], r, u, expiry, spent);
    var next := Step(cfg, db, es[0]).0;
    hide Step, ResetToken;
    if i > 0 {
      ResetTokenRun(cfg, next, es[1..], r, u, expiry, spent, i - 1);
    }
  }

  /** A token changes only the password of the user it was sent to, and only within 24 hours. */
  lemma {:induction false} ResetTokenLifetime(cfg: Settings, db: Db, first: Event, es: seq<Event>, u: Id, raw: nat, i: nat)
    requires Sound(db) && Step(cfg, db, first).1 == ResetSent(u, raw)
    requires i < |es| && ChangedBy(es[i], Run(cfg, Step(cfg, db, first).0, es).1[i], raw)
    ensures Run(cfg, Step(cfg, db, first).0, es).1[i].user == u && es[i].at < first.at + 86_400_000_000
  {
    ResetSentRow(cfg, db, first, u, raw);
    ResetTokenRun(cfg, Step(cfg, db, first).0, es, raw, u, first.at + RESET_LIFETIME, false, i);
  }

  /** A token that changed a password, or that a newer token replaced, never changes one again. */
  lemma {:induction false} ResetTokenSpent(cfg: Settings, db: Db, first: Event, es: seq<Event>, r: nat, i: nat)
    requires Sound(db) && i < |es|
    requires var o := Step(cfg, db, first).1;
      ChangedBy(first, o, r) || (o.ResetSent? && Sha256(r) in db.resets && db.resets[Sha256(r)].user == o.user)
    ensures !ChangedBy(es[i], Run(cfg, Step(cfg, db, first).0, es).1[i], r)
  {
    var (next, o) := Step(cfg, db, first);
    var u, expiry := db.resets[Sha256(r)].user, db.resets[Sha256(r)].expiresAt;
    if o.ResetSent? {
      ResetSentRow(cfg, db, first, u, o.raw);
    } else {
      StepResetToken(cfg, db, first, r, u, expiry, false);
    }
    assert ResetToken(next, r, u, expiry, true);
    hide Step, ResetToken, Run;
    if ChangedBy(es[i], Run(cfg, next, es).1[i], r) {
      ResetTokenRun(cfg, next, es, r, u, expiry, true, i);
    }
  }

  /** Only confirming a reset token changes an existing user's password, and only to the one given. */
  lemma {:induction false} PasswordsChangeByToken(cfg: Settings, db: Db, e: Event, u: Id)
    requires Sound(db) && u in db.users && u in Step(cfg, db, e).0.users
    ensures Step(cfg, db, e).0.users[u]
         == if e.action.ConfirmReset? && Step(cfg, db, e).1 == PasswordChanged(u)
            then db.users[u].(password := e.action.password) else db.users[u]
  {
    hide Invited, Resent, Accepted;
    match e.action
    case CreateInvite(email, role, delivered) => InvitesLeaveUsers(db, e.at, email, role, delivered, 0);
    case ResendInvite(id, delivered) => InvitesLeaveUsers(db, e.at, "", "", delivered, id);
    case AcceptInvite(raw, username, password) => AcceptedAddsOne(db, e.at, raw, username, password);
    case _ =>
  }

  // ---------------------------------------------------------------- invites

  /** What is known of raw invite token `r`: its invite and expiry, and whether it is dead. */
  ghost predicate InviteToken(db: Db, r: nat, k: Id, expiry: Instant, dead: bool) {
    && r < db.supply && k < db.supply
    && (forall l :: l in db.invites && db.invites[l].digest == Sha256(r) ==>
          l == k && db.invites[l].expiresAt == expiry && (dead ==> db.invites[l].acceptedAt.Some?))
  }

  /** An invite that is gone or accepted: it creates no user any more. */
  ghost predicate ClosedInvite(db: Db, k: Id) {
    k < db.supply && (k in db.invites ==> db.invites[k].acceptedAt.Some?)
  }

  predicate CreatedBy(e: Event, o: Outcome, r: nat) {
    e.action.AcceptInvite? && e.action.raw == r && o.UserCreated?
  }

  lemma {:induction false} AcceptedToken(db: Db, now: Instant, raw: nat, username: string, password: string)
    requires UsersSound(db) && Accepted(db, now, raw, username, password).1.UserCreated?
    ensures var (next, o) := Accepted(db, now, raw, username, password); var k := o.invite;
      && k in db.invites && db.invites[k].digest == Sha256(raw) && db.invites[k].acceptedAt.None? && now < db.invites[k].expiresAt
      && next.invites == db.invites[k := db.invites[k].(acceptedAt := Some(now))]
      && o.user !in db.users && o.user == db.supply && next.supply == db.supply + 1
      && next.users == db.users[o.user := User(username, db.invites[k].email, password, db.invites[k].role)]
  {
    assert Accepted(db, now, raw, username, password).1.invite in ByDigest(db.invites, Sha256(raw));
  }

  lemma {:induction false} AcceptedElse(db: Db, now: Instant, raw: nat, username: string, password: string)
    requires !Accepted(db, now, raw, username, password).1.UserCreated?
    ensures Accepted(db, now, raw, username, password).0 == db
  {
  }

  lemma {:induction false} InvitedToken(db: Db, now: Instant, email: string, role: string, delivered: bool,
                                        r: nat, k: Id, expiry: Instant, dead: bool)
    requires Sound(db) && InviteToken(db, r, k, expiry, dead)
    ensures InviteToken(Invited(db, now, email, role, delivered).0, r, k, expiry, dead)
    ensures !Invited(db, now, email, role, delivered).1.UserCreated?
  {
    hide ResetsSound, ByEmail;
  }

  lemma {:induction false} ResentToken(db: Db, now: Instant, id: Id, delivered: bool, r: nat, k: Id, expiry: Instant, dead: bool)
    requires Sound(db) && InviteToken(db, r, k, expiry, dead)
    requires id == k ==> dead || !Resent(db, now, id, delivered).1.InviteSent?
    ensures InviteToken(Resent(db, now, id, delivered).0, r, k, expiry, dead)
    ensures !Resent(db, now, id, delivered).1.UserCreated?
  {
    hide ResetsSound;
  }

  lemma {:induction false} StepInviteToken(cfg: Settings, db: Db, e: Event, r: nat, k: Id, expiry: Instant, dead: bool)
    requires Sound(db) && InviteToken(db, r, k, expiry, dead)
    requires e.action.ResendInvite? && e.action.id == k ==> dead || !Step(cfg, db, e).1.InviteSent?
    ensures var (next, o) := Step(cfg, db, e);
      && InviteToken(next, r, k, expiry, dead)
      && (CreatedBy(e, o, r) ==> !dead && o.invite == k && e.at < expiry && InviteToken(next, r, k, expiry, true))
  {
    hide AskReset, UseReset, ResetsSound, Invited, Resent;
    match e.action
    case CreateInvite(email, role, delivered) => InvitedToken(db, e.at, email, role, delivered, r, k, expiry, dead);
    case ResendInvite(id, delivered) => ResentToken(db, e.at, id, delivered, r, k, expiry, dead);
    case RequestReset(email, delivered) => ResetsLeaveInvites(cfg, db, e.at, email, delivered, 0, "");
    case ConfirmReset(raw, password) => ResetsLeaveInvites(cfg, db, e.at, "", false, raw, password);
    case AcceptInvite(raw, username, password) =>
      if Step(cfg, db, e).1.UserCreated? {
        AcceptedToken(db, e.at, raw, username, password);
      } else {
        AcceptedElse(db, e.at, raw, username, password);
      }
      hide Accepted;
    case _ =>
  }

  lemma {:induction false} ResetsLeaveInvites(cfg: Settings, db: Db, now: Instant, email: string, delivered: bool, raw: nat, password: string)
    ensures var (next, o) := AskReset(cfg, db, now, email, delivered);
      next.invites == db.invites && db.supply <= next.supply && !o.UserCreated? && !o.InviteSent?
    ensures var (next, o) := UseReset(db, now, raw, password);
      next.invites == db.invites && db.supply == next.supply && !o.UserCreated? && !o.InviteSent?
  {
  }

  lemma {:induction false} StepClosed(cfg: Settings, db: Db, e: Event, k: Id)
    requires Sound(db) && ClosedInvite(db, k)
    ensures var (next, o) := Step(cfg, db, e); ClosedInvite(next, k) && !(o.UserCreated? && o.invite == k)
  {
    hide AskReset, UseReset, ResetsSound;
    match e.action
    case RequestReset(email, delivered) => ResetsLeaveInvites(cfg, db, e.at, email, delivered, 0, "");
    case ConfirmReset(raw, password) => ResetsLeaveInvites(cfg, db, e.at, "", false, raw, password);
    case AcceptInvite(raw, username, password) =>
      if Step(cfg, db, e).1.UserCreated? {
        AcceptedToken(db, e.at, raw, username, password);
      } else {
        AcceptedElse(db, e.at, raw, username, password);
      }
      hide Accepted;
    case _ =>
  }

  lemma {:induction false} ClosedStays(cfg: Settings, db: Db, es: seq<Event>, k: Id, i: nat)
    requires Sound(db) && ClosedInvite(db, k) && i < |es|
    ensures var o := Run(cfg, db, es).1[i]; !(o.UserCreated? && o.invite == k)
    decreases |es|
  {
    StepSound(cfg, db, es[0]);
    StepClosed(cfg, db, es[0], k);
    var next := Step(cfg, db, es[0]).0;
    hide Step, Sound, ClosedInvite;
    if i > 0 {
      ClosedStays(cfg, next, es[1..], k, i - 1);
    }
  }

  /** Each invite creates at most one user, however often it is sent. */
  lemma {:induction false} InviteCreatesOneUser(cfg: Settings, db: Db, first: Event, es: seq<Event>, u: Id, k: Id, i: nat)
    requires Sound(db) && i < |es| && Step(cfg, db, first).1 == UserCreated(u, k)
    ensures var o := Run(cfg, Step(cfg, db, first).0, es).1[i]; !(o.UserCreated? && o.invite == k)
  {
    StepSound(cfg, db, first);
    UserCreatedRow(cfg, db, first, u, k);
    hide Step, Sound, ClosedInvite, Run;
    ClosedStays(cfg, Step(cfg, db, first).0, es, k, i);
  }

  /** The new user has the invite's email and role, and the invite was pending and unexpired. */
  lemma {:induction false} UserCreatedRow(cfg: Settings, db: Db, e: Event, u: Id, k: Id)
    requires Sound(db) && Step(cfg, db, e).1 == UserCreated(u, k)
    ensures e.action.AcceptInvite? && k in db.invites && u !in db.users
    ensures var invite := db.invites[k]; var next := Step(cfg, db, e).0;
      && invite.digest == Sha256(e.action.raw) && invite.acceptedAt.None? && e.at < invite.expiresAt
      && next.users == db.users[u := User(e.action.username, invite.email, e.action.password, invite.role)]
      && ClosedInvite(next, k)
  {
    hide AskReset, UseReset;
    match e.action
    case RequestReset(email, delivered) => ResetsLeaveInvites(cfg, db, e.at, email, delivered, 0, "");
    case ConfirmReset(raw, password) => ResetsLeaveInvites(cfg, db, e.at, "", false, raw, password);
    case AcceptInvite(raw, username, password) => AcceptedToken(db, e.at, raw, username, password);
    case _ =>
  }

  lemma {:induction false} DeadTokenStays(cfg: Settings, db: Db, es: seq<Event>, r: nat, k: Id, expiry: Instant, i: nat)
    requires Sound(db) && InviteToken(db, r, k, expiry, true) && i < |es|
    ensures !CreatedBy(es[i], Run(cfg, db, es).1[i], r)
    decreases |es|
  {
    StepSound(cfg, db, es[0]);
    StepInviteToken(cfg, db, es[0], r, k, expiry, true);
    var next := Step(cfg, db, es[0]).0;
    hide Step, Sound, InviteToken;
    if i > 0 {
      DeadTokenStays(cfg, next, es[1..], r, k, expiry, i - 1);
    }
  }

  /** After an invite is resent, the token it had before never creates a user. */
  lemma {:induction false} ResentTokenDead(cfg: Settings, db: Db, first: Event, es: seq<Event>, k: Id, raw: nat, i: nat)
    requires Sound(db) && i < |es|
    requires first.action.ResendInvite? && Step(cfg, db, first).1 == InviteSent(k, raw)
    ensures k in db.invites && !CreatedBy(es[i], Run(cfg, Step(cfg, db, first).0, es).1[i], db.invites[k].digest.raw)
  {
    StepSound(cfg, db, first);
    var next := Step(cfg, db, first).0;
    var was := db.invites[k].digest.raw;
    assert db.invites[k].digest == Sha256(was);
    assert InviteToken(next, was, k, 0, true);
    hide Step, Sound, InviteToken, Run;
    DeadTokenStays(cfg, next, es, was, k, 0, i);
  }

  lemma {:induction false} InviteTokenRun(cfg: Settings, db: Db, es: seq<Event>, r: nat, k: Id, expiry: Instant, i: nat)
    requires Sound(db) && InviteToken(db, r, k, expiry, false) && i < |es| && CreatedBy(es[i], Run(cfg, db, es).1[i], r)
    ensures Run(cfg, db, es).1[i].invite == k && es[i].at < expiry
    decreases |es|
  {
    var (next, o) := Step(cfg, db, es[0]);
    StepSound(cfg, db, es[0]);
    if es[0].action.ResendInvite? && es[0].action.id == k && o.InviteSent? {
      assert o == InviteSent(k, o.raw);
      if db.invites[k].digest == Sha256(r) {
        hide InviteToken, Sound, Run;
        if i > 0 {
          ResentTokenDead(cfg, db, es[0], es[1..], k, o.raw, i - 1);
        }
      } else {
        assert InviteToken(next, r, k, expiry, false);
        hide Step, Sound, InviteToken;
        if i > 0 { InviteTokenRun(cfg, next, es[1..], r, k, expiry, i - 1); }
      }
    } else {
      StepInviteToken(cfg, db, es[0], r, k, expiry, false);
      hide Step, Sound, InviteToken;
      if i > 0 { InviteTokenRun(cfg, next, es[1..], r, k, expiry, i - 1); }
    }
  }

  /** An invite token creates a user for its own invite only, and only within seven days of being sent. */
  lemma {:induction false} InviteTokenLifetime(cfg: Settings, db: Db, first: Event, es: seq<Event>, k: Id, raw: nat, i: nat)
    requires Sound(db) && Step(cfg, db, first).1 == InviteSent(k, raw)
    requires i < |es| && CreatedBy(es[i], Run(cfg, Step(cfg, db, first).0, es).1[i], raw)
    ensures Run(cfg, Step(cfg, db, first).0, es).1[i].invite == k && es[i].at < first.at + 604_800_000_000
  {
    StepSound(cfg, db, first);
    InviteSentToken(cfg, db, first, k, raw);
    hide Step, Sound, InviteToken, Run;
    InviteTokenRun(cfg, Step(cfg, db, first).0, es, raw, k, first.at + INVITE_LIFETIME, i);
  }

  /** A sent invite is pending under its new token for seven days, with the email and role it was asked for. */
  lemma {:induction false} InviteSentRow(cfg: Settings, db: Db, e: Event, k: Id, raw: nat)
    requires Sound(db) && Step(cfg, db, e).1 == InviteSent(k, raw)
    ensures k in Step(cfg, db, e).0.invites
    ensures var row := Step(cfg, db, e).0.invites[k];
      && row.digest == Sha256(raw) && row.acceptedAt.None? && row.expiresAt == e.at + 604_800_000_000
      && (if e.action.CreateInvite? then
            k !in db.invites && row.email == e.action.email && row.role == e.action.role && ByEmail(db.users, row.email) == {}
          else k in db.invites && row.email == db.invites[k].email && row.role == db.invites[k].role)
    ensures Step(cfg, db, e).0.users == db.users && raw >= db.supply
  {
    hide AskReset, UseReset, ResetsSound;
    match e.action
    case RequestReset(email, delivered) => ResetsLeaveInvites(cfg, db, e.at, email, delivered, 0, "");
    case ConfirmReset(raw, password) => ResetsLeaveInvites(cfg, db, e.at, "", false, raw, password);
    case _ =>
  }

  lemma {:induction false} InviteSentToken(cfg: Settings, db: Db, e: Event, k: Id, raw: nat)
    requires Sound(db) && Step(cfg, db, e).1 == InviteSent(k, raw)
    ensures InviteToken(Step(cfg, db, e).0, raw, k, e.at + INVITE_LIFETIME, false)
  {
    hide AskReset, UseReset, ResetsSound;
    match e.action
    case RequestReset(email, delivered) => ResetsLeaveInvites(cfg, db, e.at, email, delivered, 0, "");
    case ConfirmReset(raw, password) => ResetsLeaveInvites(cfg, db, e.at, "", false, raw, password);
    case _ =>
  }

  // ---------------------------------------------------------------- when an operation succeeds

  /**
   A known user who has asked for no reset within the configured minutes gets a token, valid
   for 24 hours, in place of all earlier ones; within them the request is refused.
   */
  lemma {:induction false} ResetRequested(cfg: Settings, db: Db, e: Event, u: Id)
    requires Sound(db) && e.action.RequestReset? && u in db.users && db.users[u].email == e.action.email
    ensures var (next, o) := Step(cfg, db, e);
      var recent := exists d :: d in db.resets && db.resets[d].user == u && db.resets[d].createdAt > e.at - cfg.resetRateLimitMinutes * 60_000_000;
      && (o == RateLimited <==> recent)
      && (o == NotDelivered <==> !recent && !e.action.delivered)
      && (o.ResetSent? <==> !recent && e.action.delivered)
      && (o.ResetSent? ==>
            o.user == u && Sha256(o.raw) !in db.resets
            && Sha256(o.raw) in next.resets
            && next.resets[Sha256(o.raw)] == Reset(u, e.at, e.at + 86_400_000_000, None)
            && forall d :: d in next.resets && d != Sha256(o.raw) ==> d in db.resets && next.resets[d] == db.resets[d] && db.resets[d].user != u)
  {
    assert u in ByEmail(db.users, e.action.email);
    assert ByEmail(db.users, e.action.email) == {u};
    var cutoff := e.at - cfg.RateLimit();
    if d :| d in db.resets && db.resets[d].user == u && db.resets[d].createdAt > cutoff {
      assert d in RecentResets(db.resets, u, cutoff);
    }
    if d :| d in RecentResets(db.resets, u, cutoff) {
      assert d in db.resets && db.resets[d].user == u && db.resets[d].createdAt > cutoff;
    }
  }

  /** A stored, unused, unexpired token of an existing user sets the password and is used up; any other is refused. */
  lemma {:induction false} ResetConfirmed(cfg: Settings, db: Db, e: Event)
    requires e.action.ConfirmReset?
    ensures var (next, o) := Step(cfg, db, e); var d := Sha256(e.action.raw);
      if d in db.resets && db.resets[d].usedAt == None then
        var u := db.resets[d].user;
        && (o == ExpiredToken <==> db.resets[d].expiresAt <= e.at)
        && (o == NoSuchUser <==> e.at < db.resets[d].expiresAt && u !in db.users)
        && (o == PasswordChanged(u) <==> e.at < db.resets[d].expiresAt && u in db.users)
        && (o == PasswordChanged(u) ==>
              && next.users == db.users[u := db.users[u].(password := e.action.password)]
              && next.resets == db.resets[d := db.resets[d].(usedAt := Some(e.at))])
        && (!o.PasswordChanged? ==> next == db)
      else o == InvalidToken && next == db
  {
  }

  /** An invite is sent exactly when no user has the email and the mail is delivered; otherwise none is stored. */
  lemma {:induction false} InviteRequested(cfg: Settings, db: Db, e: Event)
    requires e.action.CreateInvite?
    ensures var (next, o) := Step(cfg, db, e);
      var known := exists u :: u in db.users && db.users[u].email == e.action.email;
      && (o == Taken <==> known)
      && (o == NotDelivered <==> !known && !e.action.delivered)
      && (o.InviteSent? <==> !known && e.action.delivered)
      && (!o.InviteSent? ==> next.invites == db.invites)
      && next.users == db.users && next.resets == db.resets
  {
    if u :| u in db.users && db.users[u].email == e.action.email {
      assert u in ByEmail(db.users, e.action.email);
    }
    if u :| u in ByEmail(db.users, e.action.email) {
      assert u in db.users && db.users[u].email == e.action.email;
    }
  }

  /** A pending invite, expired or not, is sent again when the mail is delivered. */
  lemma {:induction false} ResendRequested(cfg: Settings, db: Db, e: Event)
    requires e.action.ResendInvite?
    ensures var (next, o) := Step(cfg, db, e); var k := e.action.id;
      && (o == NoSuchInvite <==> k !in db.invites)
      && (k in db.invites ==>
            && (o == AlreadyAccepted <==> db.invites[k].acceptedAt.Some?)
            && (db.invites[k].acceptedAt == None ==> if e.action.delivered then o.InviteSent? && o.invite == k else o == NotDelivered))
      && (!o.InviteSent? ==> next.invites == db.invites)
      && (forall l :: l in db.invites && l != k ==> l in next.invites && next.invites[l] == db.invites[l])
  {
  }

  /** A pending, unexpired invite creates its user exactly when username and email are free. */
  lemma {:induction false} InviteAccepted(cfg: Settings, db: Db, e: Event)
    requires Sound(db) && e.action.AcceptInvite?
    ensures var (next, o) := Step(cfg, db, e);
      && (o == InvalidToken <==> forall k :: k in db.invites && db.invites[k].digest == Sha256(e.action.raw) ==> db.invites[k].acceptedAt.Some?)
      && (!o.UserCreated? ==> next == db)
    ensures var o := Step(cfg, db, e).1;
      forall k :: k in db.invites && db.invites[k].digest == Sha256(e.action.raw) && db.invites[k].acceptedAt == None ==> (
        && (o == ExpiredToken <==> db.invites[k].expiresAt <= e.at)
        && (e.at < db.invites[k].expiresAt ==>
              var taken := exists u :: u in db.users
                             && (db.users[u].username == e.action.username || db.users[u].email == db.invites[k].email);
              && (o == Taken <==> taken)
              && (o.UserCreated? && o.invite == k <==> !taken)))
  {
    var d := Sha256(e.action.raw);
    var found := ByDigest(db.invites, d);
    assert forall k :: k in found <==> k in db.invites && db.invites[k].digest == d;
    if k :| k in db.invites && db.invites[k].digest == d {
      assert found == {k};
      assert forall u :: u in ByUsername(db.users, e.action.username) <==> u in db.users && db.users[u].username == e.action.username;
      assert forall u :: u in ByEmail(db.users, db.invites[k].email) <==> u in db.users && db.users[u].email == db.invites[k].email;
    } else {
      assert found == {};
    }
  }

  /** What removing a user or cancelling an invite takes away. */
  lemma {:induction false} Removed(cfg: Settings, db: Db, e: Event)
    requires e.action.DeleteUser? || e.action.CancelInvite?
    ensures var (next, o) := Step(cfg, db, e); var id := e.action.id;
      && (e.action.DeleteUser? ==>
            && (o == Deleted <==> id in db.users) && next.invites == db.invites
            && next.users == db.users - {id}
            && (o == Deleted ==> forall d :: d in next.resets <==> d in db.resets && db.resets[d].user != id)
            && (forall d :: d in next.resets ==> next.resets[d] == db.resets[d]))
      && (e.action.CancelInvite? ==>
            (o == Cancelled <==> id in db.invites) && next == db.(invites := db.invites - {id}))
  {
  }

  // ---------------------------------------------------------------- the service

  class TokenService {
    const settings: Settings
    var users: map<Id, User>
    var resets: map<Digest, Reset>
    var invites: map<Id, Invite>
    var supply: nat

    ghost function Value(): Db
      reads this
    {
      Db(users, resets, invites, supply)
    }

    constructor (settings: Settings)
      ensures this.settings == settings && Sound(Value())
    {
      this.settings, users, resets, invites, supply := settings, map[], map[], map[], 0;
    }

    /** `secrets.token_urlsafe` and `uuid4`: a number never drawn before. */
    method Draw() returns (n: nat)
      modifies `supply
      ensures n == old(supply) && supply == n + 1
    {
      n := supply;
      supply := supply + 1;
    }

    method RequestPasswordReset(email: string, delivered: bool, now: Instant) returns (o: Outcome)
      modifies this
      ensures (Value(), o) == Step(settings, old(Value()), Event(now, RequestReset(email, delivered)))
    {
      var user := OneOrNone(ByEmail(users, email));
      if user.None? { return Ignored; }
      var cutoff := now - settings.RateLimit();
      if RecentResets(resets, user.value, cutoff) != {} { return RateLimited; }
      var raw := Draw();
      if !delivered { return NotDelivered; }
      resets := WithoutResetsOf(resets, user.value);
      resets := resets[Sha256(raw) := Reset(user.value, now, now + RESET_LIFETIME, None)];
      o := ResetSent(user.value, raw);
    }

    method ConfirmPasswordReset(raw: nat, password: string, now: Instant) returns (o: Outcome)
      modifies this
      ensures (Value(), o) == Step(settings, old(Value()), Event(now, ConfirmReset(raw, password)))
    {
      var d := Sha256(raw);
      if d !in resets || resets[d].usedAt.Some? { return InvalidToken; }
      var row := resets[d];
      if row.expiresAt <= now { return ExpiredToken; }
      if row.user !in users { return NoSuchUser; }
      users := users[row.user := users[row.user].(password := password)];
      resets := resets[d := row.(usedAt := Some(now))];
      o := PasswordChanged(row.user);
    }

    method SendInvite(email: string, role: string, delivered: bool, now: Instant) returns (o: Outcome)
      modifies this
      ensures (Value(), o) == Step(settings, old(Value()), Event(now, CreateInvite(email, role, delivered)))
    {
      if ByEmail(users, email) != {} { return Taken; }
      var raw := Draw();
      if !delivered { return NotDelivered; }
      var id := Draw();
      invites := invites[id := Invite(email, role, Sha256(raw), now + INVITE_LIFETIME, None)];
      o := InviteSent(id, raw);
    }

    method Cancel(id: Id, now: Instant) returns (o: Outcome)
      modifies this
      ensures (Value(), o) == Step(settings, old(Value()), Event(now, CancelInvite(id)))
    {
      if id !in invites { return NoSuchInvite; }
      invites := invites - {id};
      o := Cancelled;
    }

    method Resend(id: Id, delivered: bool, now: Instant) returns (o: Outcome)
      modifies this
      ensures (Value(), o) == Step(settings, old(Value()), Event(now, ResendInvite(id, delivered)))
    {
      if id !in invites { return NoSuchInvite; }
      var row := invites[id];
      if row.acceptedAt.Some? { return AlreadyAccepted; }
      var raw := Draw();
      if !delivered { return NotDelivered; }
      invites := invites[id := row.(digest := Sha256(raw), expiresAt := now + INVITE_LIFETIME)];
      o := InviteSent(id, raw);
    }

    method Accept(raw: nat, username: string, password: string, now: Instant) returns (o: Outcome)
      modifies this
      ensures (Value(), o) == Step(settings, old(Value()), Event(now, AcceptInvite(raw, username, password)))
    {
      var found := OneOrNone(ByDigest(invites, Sha256(raw)));
      if found.None? { return InvalidToken; }
      assert found.value in ByDigest(invites, Sha256(raw));
      var row := invites[found.value];
      if row.acceptedAt.Some? { return InvalidToken; }
      if row.expiresAt <= now { return ExpiredToken; }
      if ByUsername(users, username) != {} { return Taken; }
      if ByEmail(users, row.email) != {} { return Taken; }
      var id := Draw();
      users := users[id := User(username, row.email, password, row.role)];
      invites := invites[found.value := row.(acceptedAt := Some(now))];
      o := UserCreated(id, found.value);
    }

    method Delete(id: Id, now: Instant) returns (o: Outcome)
      modifies this
      ensures (Value(), o) == Step(settings, old(Value()), Event(now, DeleteUser(id)))
    {
      if id !in users { return NoSuchUser; }
      users, resets := users - {id}, WithoutResetsOf(resets, id);
      o := Deleted;
    }
  }
}
