/**
 * How users keep a way to sign in while registration, OIDC first sign-in, account linking,
 * password removal and provider deletion interleave (apps/api/src/routes/auth.ts, lines 54-132,
 * 403-525, 535-645 and 652-721; apps/api/src/routes/auth-oidc.ts, lines 98-236 and 335-631;
 * apps/api/src/routes/oidc-providers.ts, lines 129-155, 202-258 and 290-429;
 * apps/api/src/lib/auth/session.ts, lines 54-155).
 *
 * Every transaction is one step. What a handler read before its transaction is a parameter
 * named `seen`, of any value, so a run covers every interleaving of the handlers.
 */
module SignIn {

  import opened Options

  /** `version` stands for the client, secret, issuer, redirect and scope columns. */
  datatype Provider = Provider(enabled: bool, version: string)

  datatype User = User(password: Option<string>, mustChange: bool)

  datatype Session = Session(user: string, expiresAt: int)

  /** An external identity linked to a user. */
  datatype Link = Link(subject: string, user: string)

  /** `callbacks` are the OIDC callbacks that have read an enabled provider and not finished yet. */
  datatype State = State(
    users: map<string, User>, links: set<Link>, provider: Option<Provider>,
    sessions: map<string, Session>, callbacks: set<nat>)

  datatype Event =
    | Register(id: string, hash: string)
    | SetPassword(user: string, hash: string)
    | RemovePassword(user: string, seen: Provider, seenPassword: string)
    | Setup(version: string)
    | CreateProvider(admin: string, provider: Provider)
    | UpdateProvider(admin: string, version: string, enable: bool)
    | DeleteProvider(admin: string, session: string, now: int, seen: Provider, seenHash: Option<string>, hash: string)
    | ReadProvider(callback: nat)
    | FirstUser(callback: nat, id: string, subject: string)
    | LinkAccount(user: string, session: string, now: int, seen: Provider, subject: string, newSession: string)
    | StartSession(user: string, session: string, expiresAt: int)
      /** Signing out, revoking, and what a changed password does to the user's other sessions. */
    | EndSessions(ended: set<string>)
    | DeleteAccount(user: string, passkeys: nat)

  predicate Linked(links: set<Link>, user: string) {
    exists l :: l in links && l.user == user
  }

  predicate Enabled(p: Option<Provider>) {
    p.Some? && p.value.enabled
  }

  predicate Active(sessions: map<string, Session>, session: string, user: string, now: int) {
    session in sessions && sessions[session].user == user && sessions[session].expiresAt > now
  }

  function LinksOf(links: set<Link>, user: string): (r: set<Link>)
    ensures r == {} <==> !Linked(links, user)
  {
    var r := set l | l in links && l.user == user;
    assert forall l :: l in links && l.user == user ==> l in r;
    r
  }

  function SessionsOf(sessions: map<string, Session>, user: string): set<string> {
    set x | x in sessions && sessions[x].user == user
  }

  /** The unique index on the subject column would refuse the row. */
  predicate Taken(links: set<Link>, subject: string) {
    exists l :: l in links && l.subject == subject
  }

  // ----- The transactions as functions of the stored state -----

  predicate Removes(s: State, e: Event)
    requires e.RemovePassword?
  {
    && s.provider == Some(e.seen) && e.seen.enabled && Linked(s.links, e.user)
    && e.user in s.users && s.users[e.user].password == Some(e.seenPassword)
  }

  predicate Deletes(s: State, e: Event)
    requires e.DeleteProvider?
  {
    && Active(s.sessions, e.session, e.admin, e.now) && s.provider == Some(e.seen)
    && e.admin in s.users && s.users[e.admin].password == e.seenHash
  }

  /** The user gets the replacement password and must change it. */
  predicate NeedsReplacement(s: State, admin: string, user: string)
    requires user in s.users
  {
    user != admin && Linked(s.links, user) && s.users[user].password.None?
  }

  function AfterDeletion(s: State, admin: string, hash: string): map<string, User> {
    map u | u in s.users ::
      if u == admin then User(Some(hash), false)
      else if NeedsReplacement(s, admin, u) then User(Some(hash), true)
      else s.users[u]
  }

  predicate Links(s: State, e: Event)
    requires e.LinkAccount?
  {
    && Active(s.sessions, e.session, e.user, e.now) && s.provider == Some(e.seen) && e.seen.enabled
    && !Taken(s.links - LinksOf(s.links, e.user), e.subject)
    && e.newSession !in s.sessions.Keys - SessionsOf(s.sessions, e.user)
  }

  function Step(s: State, e: Event): State {
    match e
    case Register(id, hash) =>
      if s.users != map[] then s else s.(users := map[id := User(Some(hash), false)])
    case SetPassword(user, hash) =>
      if user !in s.users then s else s.(users := s.users[user := User(Some(hash), false)])
    case RemovePassword(user, _, _) =>
      if !Removes(s, e) then s else s.(users := s.users[user := s.users[user].(password := None)])
    case Setup(version) =>
      if s.users != map[] then s else s.(provider := Some(Provider(true, version)))
    case CreateProvider(admin, provider) =>
      if admin !in s.users || s.provider.Some? then s else s.(provider := Some(provider))
    case UpdateProvider(admin, version, enable) =>
      if admin !in s.users || s.provider.None? then s
      else s.(provider := Some(Provider(s.provider.value.enabled || enable, version)))
    case DeleteProvider(admin, _, _, _, _, hash) =>
      if !Deletes(s, e) then s
      else State(AfterDeletion(s, admin, hash), {}, None, map[], s.callbacks)
    case ReadProvider(callback) =>
      if !Enabled(s.provider) then s else s.(callbacks := s.callbacks + {callback})
    case FirstUser(callback, id, subject) =>
      if callback !in s.callbacks || s.users != map[] || Taken(s.links, subject) then s
      else s.(users := map[id := User(None, false)], links := s.links + {Link(subject, id)},
              callbacks := s.callbacks - {callback})
    case LinkAccount(user, session, now, _, subject, newSession) =>
      if !Links(s, e) then s
      else s.(links := s.links - LinksOf(s.links, user) + {Link(subject, user)},
              sessions := (s.sessions - SessionsOf(s.sessions, user))[newSession := s.sessions[session]])
    case StartSession(user, session, expiresAt) =>
      if user !in s.users || session in s.sessions then s
      else s.(sessions := s.sessions[session := Session(user, expiresAt)])
    case EndSessions(ended) => s.(sessions := s.sessions - ended)
    case DeleteAccount(user, passkeys) =>
      if user !in s.users || s.users[user].password.Some? || Linked(s.links, user) || passkeys > 0 then s
      else s.(users := s.users - {user}, sessions := s.sessions - SessionsOf(s.sessions, user))
  }

  // ----- The invariant -----

  /** The user has a password, or a link while an enabled provider exists. */
  predicate CanSignIn(s: State, user: string)
    requires user in s.users
  {
    s.users[user].password.Some? || (Linked(s.links, user) && Enabled(s.provider))
  }

  ghost predicate Unique(links: set<Link>) {
    forall a, b :: a in links && b in links && a.subject == b.subject ==> a == b
  }

  /**
   * Everyone can sign in; no external identity is linked to two users; links and sessions belong to
   * users; and a callback that may still create the first user has an enabled provider behind it.
   */
  ghost predicate Safe(s: State) {
    && (forall u :: u in s.users ==> CanSignIn(s, u))
    && Unique(s.links)
    && (forall l :: l in s.links ==> l.user in s.users)
    && (forall x :: x in s.sessions ==> s.sessions[x].user in s.users)
    && (s.users == map[] && s.callbacks != {} ==> Enabled(s.provider))
  }

  lemma StepKeepsSafe(s: State, e: Event)
    requires Safe(s)
    ensures Safe(Step(s, e))
  {
    hide Safe, Step;
    match e {
      case LinkAccount(_, _, _, _, _, _) => LinkKeepsSafe(s, e);
      case FirstUser(_, _, _) => FirstUserKeepsSafe(s, e);
      case DeleteProvider(_, _, _, _, _, _) => DeletionKeepsSafe(s, e);
      case DeleteAccount(_, _) => StepKeepsUsers(s, e);
      case RemovePassword(_, _, _) => RemovalKeepsSafe(s, e);
      case _ => OtherStepsLoseNothing(s, e);
    }
  }

  lemma OtherStepsLoseNothing(s: State, e: Event)
    requires Safe(s)
    requires e.Register? || e.SetPassword? || e.Setup? || e.CreateProvider? || e.UpdateProvider? || e.ReadProvider?
             || e.StartSession? || e.EndSessions?
    ensures Safe(Step(s, e))
  {
    hide Linked, Unique;
    var t := Step(s, e);
    forall u | u in t.users ensures CanSignIn(t, u) {
      if u in s.users {
        assert CanSignIn(s, u);
      }
    }
  }

  lemma RemovalKeepsSafe(s: State, e: Event)
    requires Safe(s) && e.RemovePassword?
    ensures Safe(Step(s, e))
  {
    hide Linked, Unique;
  }

  /** Whoever had no password was linked, and so got one. */
  lemma DeletionKeepsSafe(s: State, e: Event)
    requires Safe(s) && e.DeleteProvider?
    ensures Safe(Step(s, e))
  {
    hide Linked;
    if Deletes(s, e) {
      forall u | u in s.users ensures AfterDeletion(s, e.admin, e.hash)[u].password.Some? {
        assert CanSignIn(s, u);
      }
    }
  }

  lemma LinkKeepsSafe(s: State, e: Event)
    requires Safe(s) && e.LinkAccount?
    ensures Safe(Step(s, e))
  {
    if Links(s, e) {
      var t := Step(s, e);
      assert Link(e.subject, e.user) in t.links;
      forall u | u in t.users ensures CanSignIn(t, u) {
        if u != e.user && s.users[u].password.None? {
          var l :| l in s.links && l.user == u;
          assert l in t.links;
        }
      }
    }
  }

  lemma FirstUserKeepsSafe(s: State, e: Event)
    requires Safe(s) && e.FirstUser?
    ensures Safe(Step(s, e))
  {
    if Step(s, e) != s {
      assert Link(e.subject, e.id) in Step(s, e).links;
    }
  }

  /** Nobody who can sign in is ever deleted: the account deletion always refuses. */
  lemma StepKeepsUsers(s: State, e: Event)
    requires Safe(s)
    ensures s.users.Keys <= Step(s, e).users.Keys
    ensures e.DeleteAccount? ==> Step(s, e) == s
  {
  }

  // ----- The transactions -----

  /** The user can sign in only through a link. */
  ghost predicate LacksPassword(users: map<string, User>, links: set<Link>, user: string) {
    user in users && users[user].password.None? && exists l :: l in links && l.user == user
  }

  /** The administrator has the new password, users who only had a link must change it, others keep theirs. */
  ghost predicate Replaced(before: map<string, User>, links: set<Link>, after: map<string, User>, admin: string,
                           hash: string)
  {
    && (admin in after ==> after[admin] == User(Some(hash), false))
    && forall u :: u in after && u in before && u != admin ==>
                     after[u] == if LacksPassword(before, links, u) then User(Some(hash), true) else before[u]
  }

  datatype Deletion = Deleted(replacedUsers: nat) | SessionInactive | ProviderChanged | AdminChanged

  class AuthStore {
    var users: map<string, User>
    var links: set<Link>
    var provider: Option<Provider>
    var sessions: map<string, Session>
    var callbacks: set<nat>

    ghost function Stored(): State
      reads this
    {
      State(users, links, provider, sessions, callbacks)
    }

    constructor ()
      ensures Stored() == State(map[], {}, None, map[], {}) && Safe(Stored())
    {
      users, links, provider, sessions, callbacks := map[], {}, None, map[], {};
    }

    method RegisterFirst(id: string, hash: string) returns (ok: bool)
      requires Safe(Stored())
      modifies this`users
      ensures Stored() == Step(old(Stored()), Register(id, hash)) && Safe(Stored())
      ensures ok <==> old(users) == map[]
      ensures users == if ok then map[id := User(Some(hash), false)] else old(users)
    {
      StepKeepsSafe(Stored(), Register(id, hash));
      ok := |users| == 0;
      if ok {
        users := users[id := User(Some(hash), false)];
      }
    }

    /** Setting or changing the own password ends the duty to change it. */
    method ChangePassword(user: string, hash: string)
      requires Safe(Stored()) && user in users
      modifies this`users
      ensures Stored() == Step(old(Stored()), SetPassword(user, hash)) && Safe(Stored())
      ensures users == old(users)[user := User(Some(hash), false)]
    {
      StepKeepsSafe(Stored(), SetPassword(user, hash));
      users := users[user := User(Some(hash), false)];
    }

    /** While there is no user, the provider can be configured; it is enabled then. */
    method SetUpProvider(version: string) returns (ok: bool)
      requires Safe(Stored())
      modifies this`provider
      ensures Stored() == Step(old(Stored()), Setup(version)) && Safe(Stored())
      ensures ok <==> users == map[]
      ensures provider == if ok then Some(Provider(true, version)) else old(provider)
    {
      StepKeepsSafe(Stored(), Setup(version));
      ok := |users| == 0;
      if ok {
        provider := Some(Provider(true, version));
      }
    }

    /** An administrator adds the provider; there can be only one. */
    method AddProvider(admin: string, added: Provider) returns (ok: bool)
      requires Safe(Stored()) && admin in users
      modifies this`provider
      ensures Stored() == Step(old(Stored()), CreateProvider(admin, added)) && Safe(Stored())
      ensures ok <==> old(provider).None?
      ensures provider == if ok then Some(added) else old(provider)
    {
      StepKeepsSafe(Stored(), CreateProvider(admin, added));
      ok := provider.None?;
      if ok {
        provider := Some(added);
      }
    }

    /** An administrator changes the provider without disabling it. */
    method ChangeProvider(admin: string, version: string, enable: bool) returns (ok: bool)
      requires Safe(Stored()) && admin in users
      modifies this`provider
      ensures Stored() == Step(old(Stored()), UpdateProvider(admin, version, enable)) && Safe(Stored())
      ensures ok <==> old(provider).Some?
      ensures ok ==> provider == Some(Provider(enable || old(provider).value.enabled, version))
      ensures !ok ==> provider == old(provider)
    {
      StepKeepsSafe(Stored(), UpdateProvider(admin, version, enable));
      ok := provider.Some?;
      if ok {
        provider := Some(Provider(enable || provider.value.enabled, version));
      }
    }

    /** Signing in gives the user a session under a new token. */
    method OpenSession(user: string, session: string, expiresAt: int)
      requires Safe(Stored()) && user in users && session !in sessions
      modifies this`sessions
      ensures Stored() == Step(old(Stored()), StartSession(user, session, expiresAt)) && Safe(Stored())
      ensures sessions == old(sessions)[session := Session(user, expiresAt)]
    {
      StepKeepsSafe(Stored(), StartSession(user, session, expiresAt));
      sessions := sessions[session := Session(user, expiresAt)];
    }

    /** All sessions of the user end, but for the one that asks for it. */
    method CloseSessions(user: string, kept: Option<string>)
      requires Safe(Stored())
      modifies this`sessions
      ensures exists ended :: Stored() == Step(old(Stored()), EndSessions(ended))
      ensures Safe(Stored())
      ensures forall x :: x in sessions <==> x in old(sessions) && (old(sessions)[x].user != user || kept == Some(x))
      ensures forall x :: x in sessions ==> sessions[x] == old(sessions)[x]
    {
      var ended := set x | x in sessions && sessions[x].user == user && kept != Some(x);
      StepKeepsSafe(Stored(), EndSessions(ended));
      sessions := sessions - ended;
    }

    /** A callback that finds an enabled provider is under way. */
    method BeginCallback(callback: nat) returns (ok: bool)
      requires Safe(Stored())
      modifies this`callbacks
      ensures Stored() == Step(old(Stored()), ReadProvider(callback)) && Safe(Stored())
      ensures ok <==> exists p :: provider == Some(p) && p.enabled
      ensures callbacks == if ok then old(callbacks) + {callback} else old(callbacks)
    {
      StepKeepsSafe(Stored(), ReadProvider(callback));
      ok := provider.Some? && provider.value.enabled;
      if ok {
        callbacks := callbacks + {callback};
      }
    }

    /** A callback of the provider it read enabled creates the first user, without a password. */
    method CreateFirstUser(callback: nat, id: string, subject: string) returns (ok: bool)
      requires Safe(Stored()) && callback in callbacks
      modifies this
      ensures Stored() == Step(old(Stored()), FirstUser(callback, id, subject)) && Safe(Stored())
      ensures ok <==> old(users) == map[]
      ensures ok ==> users == map[id := User(None, false)] && links == {Link(subject, id)}
                     && callbacks == old(callbacks) - {callback} && CanSignIn(Stored(), id)
      ensures provider == old(provider) && sessions == old(sessions)
    {
      StepKeepsSafe(Stored(), FirstUser(callback, id, subject));
      if |users| > 0 {
        return false;
      }
      links := links + {Link(subject, id)};
      users := users[id := User(None, false)];
      callbacks := callbacks - {callback};
      ok := true;
    }

    method RemoveOwnPassword(user: string, seen: Provider, seenPassword: string) returns (ok: bool)
      requires Safe(Stored())
      modifies this`users
      ensures Stored() == Step(old(Stored()), RemovePassword(user, seen, seenPassword)) && Safe(Stored())
      ensures ok <==> && provider == Some(seen) && seen.enabled && (exists l :: l in links && l.user == user)
                      && user in old(users) && old(users)[user].password == Some(seenPassword)
      ensures users == if ok then old(users)[user := User(None, old(users)[user].mustChange)] else old(users)
    {
      StepKeepsSafe(Stored(), RemovePassword(user, seen, seenPassword));
      if provider != Some(seen) || !seen.enabled || LinksOf(links, user) == {} {
        return false;
      }
      ok := user in users && users[user].password == Some(seenPassword);
      if ok {
        users := users[user := users[user].(password := None)];
      }
    }

    /** Replaces the user's links by one to the identity that answered, and every session by a new one. */
    method LinkIdentity(user: string, session: string, now: int, seen: Provider, subject: string, newSession: string)
      returns (ok: bool)
      requires Safe(Stored())
      modifies this`links, this`sessions
      ensures Stored() == Step(old(Stored()), LinkAccount(user, session, now, seen, subject, newSession))
      ensures Safe(Stored())
      ensures ok <==> && session in old(sessions) && old(sessions)[session].user == user
                      && old(sessions)[session].expiresAt > now && provider == Some(seen) && seen.enabled
                      && (forall l :: l in old(links) && l.subject == subject ==> l.user == user)
                      && (newSession in old(sessions) ==> old(sessions)[newSession].user == user)
      ensures ok ==> forall l :: l in links <==> l == Link(subject, user) || (l in old(links) && l.user != user)
      ensures ok ==> newSession in sessions && sessions[newSession] == old(sessions)[session]
      ensures ok ==> forall x :: x in sessions && x != newSession ==>
                                   && x in old(sessions) && old(sessions)[x].user != user
                                   && sessions[x] == old(sessions)[x]
      ensures ok ==> forall x :: x in old(sessions) && old(sessions)[x].user != user ==> x in sessions
      ensures !ok ==> Stored() == old(Stored())
    {
      StepKeepsSafe(Stored(), LinkAccount(user, session, now, seen, subject, newSession));
      if !Active(sessions, session, user, now) || provider != Some(seen) || !seen.enabled {
        return false;
      }
      var others := links - LinksOf(links, user);
      var remaining := sessions - SessionsOf(sessions, user);
      if Taken(others, subject) || newSession in remaining {
        return false;
      }
      sessions := remaining[newSession := sessions[session]];
      links := others + {Link(subject, user)};
      ok := true;
    }

    /**
     * Switches to password sign-in. The count is the administrator and every linked user who had
     * no password; no link and no session is left.
     */
    method DeleteProviderFor(admin: string, session: string, now: int, seen: Provider, seenHash: Option<string>,
                             hash: string)
      returns (r: Deletion)
      requires Safe(Stored())
      modifies this
      ensures Stored() == Step(old(Stored()), DeleteProvider(admin, session, now, seen, seenHash, hash))
      ensures Safe(Stored())
      ensures r.SessionInactive? <==> !(&& session in old(sessions) && old(sessions)[session].user == admin
                                        && old(sessions)[session].expiresAt > now)
      ensures r.ProviderChanged? <==> !r.SessionInactive? && old(provider) != Some(seen)
      ensures r.AdminChanged? <==> && !r.SessionInactive? && !r.ProviderChanged?
                                   && !(admin in old(users) && old(users)[admin].password == seenHash)
      ensures !r.Deleted? ==> Stored() == old(Stored())
      ensures r.Deleted? ==> links == {} && sessions == map[] && provider.None? && users.Keys == old(users).Keys
      ensures r.Deleted? ==> Replaced(old(users), old(links), users, admin, hash)
      ensures r.Deleted? ==>
                r.replacedUsers ==
                1 + |set u | u in old(users) && u != admin && LacksPassword(old(users), old(links), u)|
    {
      StepKeepsSafe(Stored(), DeleteProvider(admin, session, now, seen, seenHash, hash));
      hide Safe;
      if !Active(sessions, session, admin, now) {
        return SessionInactive;
      }
      if provider != Some(seen) {
        return ProviderChanged;
      }
      if admin !in users || users[admin].password != seenHash {
        return AdminChanged;
      }
      var updated, replaced := ReplacePasswords(admin, hash);
      users := updated;
      links := {};
      sessions := map[];
      provider := None;
      r := Deleted(replaced);
    }

    method ReplacePasswords(admin: string, hash: string) returns (updated: map<string, User>, replacedUsers: nat)
      requires admin in users
      ensures updated == AfterDeletion(Stored(), admin, hash)
      ensures updated.Keys == users.Keys && Replaced(users, links, updated, admin, hash)
      ensures replacedUsers == 1 + |set u | u in users && u != admin && LacksPassword(users, links, u)|
    {
      updated := users[admin := User(Some(hash), false)];
      var pending := set u | u in updated && (u == admin || Linked(links, u));
      replacedUsers := 1;
      ghost var given: set<string> := {};
      ghost var all := pending;
      while pending != {}
        invariant pending <= all
        invariant updated.Keys == users.Keys
        invariant given == set u | u in users && NeedsReplacement(Stored(), admin, u) && u !in pending
        invariant forall u :: u in users ==>
          updated[u] == if u == admin then User(Some(hash), false)
                        else if u in given then User(Some(hash), true) else users[u]
        invariant replacedUsers == 1 + |given|
      {
        var user :| user in pending;
        if user != admin && updated[user].password.None? {
          updated := updated[user := User(Some(hash), true)];
          replacedUsers := replacedUsers + 1;
          assert user !in given;
          given := given + {user};
        }
        pending := pending - {user};
      }
      assert given == set u | u in users && NeedsReplacement(Stored(), admin, u);
      assert given == set u | u in users && u != admin && LacksPassword(users, links, u);
    }

    /** Refused whenever the account has a password, a link or a passkey: so nobody who can sign in is removed. */
    method DeleteOwnAccount(user: string, passkeys: nat) returns (ok: bool)
      modifies this`users, this`sessions
      ensures Stored() == Step(old(Stored()), DeleteAccount(user, passkeys))
      ensures ok <==> && user in old(users) && old(users)[user].password.None? && passkeys == 0
                      && forall l :: l in links ==> l.user != user
      ensures users == if ok then old(users) - {user} else old(users)
      ensures old(Safe(Stored())) ==> !ok && Stored() == old(Stored())
    {
      if user !in users || users[user].password.Some? || LinksOf(links, user) != {} || passkeys > 0 {
        return false;
      }
      users := users - {user};
      sessions := sessions - SessionsOf(sessions, user);
      ok := true;
    }
  }

  // ----- Runs -----

  function At(s: State, events: seq<Event>, k: nat): State
    requires k <= |events|
  {
    if k == 0 then s else Step(At(s, events, k - 1), events[k - 1])
  }

  lemma {:induction false} AlwaysSafe(s: State, events: seq<Event>, k: nat)
    requires Safe(s) && k <= |events|
    ensures Safe(At(s, events, k))
  {
    if k > 0 {
      hide Safe, Step;
      AlwaysSafe(s, events, k - 1);
      StepKeepsSafe(At(s, events, k - 1), events[k - 1]);
    }
  }

  /** In every interleaving, a user once created can sign in at every later moment. */
  lemma {:induction false} UsersAlwaysCanSignIn(s: State, events: seq<Event>, i: nat, j: nat, user: string)
    requires Safe(s) && i <= j <= |events| && user in At(s, events, i).users
    ensures user in At(s, events, j).users && CanSignIn(At(s, events, j), user)
    decreases j
  {
    hide Step, CanSignIn;
    AlwaysSafe(s, events, j);
    if i < j {
      UsersAlwaysCanSignIn(s, events, i, j - 1, user);
      AlwaysSafe(s, events, j - 1);
      StepKeepsUsers(At(s, events, j - 1), events[j - 1]);
    }
  }

  /** In every interleaving, an external identity belongs to one user. */
  lemma IdentitiesStayUnique(s: State, events: seq<Event>, k: nat, a: Link, b: Link)
    requires Safe(s) && k <= |events| && a in At(s, events, k).links && b in At(s, events, k).links
    requires a.subject == b.subject
    ensures a.user == b.user && a.user in At(s, events, k).users
  {
    hide Step;
    AlwaysSafe(s, events, k);
  }

  /** From an empty database at most one user is ever created, by whichever first sign-in commits first. */
  lemma {:induction false} OneFirstUser(s: State, events: seq<Event>, k: nat)
    requires Safe(s) && s.users == map[] && k <= |events|
    ensures At(s, events, k).users == map[] || exists u :: At(s, events, k).users.Keys == {u}
  {
    if k > 0 {
      hide At;
      OneFirstUser(s, events, k - 1);
      AlwaysSafe(s, events, k - 1);
      NoSecondUser(At(s, events, k - 1), events[k - 1]);
      AtNext(s, events, k - 1);
    } else {
      AtStart(s, events);
    }
  }

  lemma AtStart(s: State, events: seq<Event>)
    ensures At(s, events, 0) == s
  {
  }

  lemma AtNext(s: State, events: seq<Event>, k: nat)
    requires k < |events|
    ensures At(s, events, k + 1) == Step(At(s, events, k), events[k])
  {
  }

  lemma NoSecondUser(s: State, e: Event)
    requires Safe(s)
    ensures s.users != map[] ==> Step(s, e).users.Keys == s.users.Keys
    ensures s.users == map[] ==> Step(s, e).users == map[] || exists u :: Step(s, e).users.Keys == {u}
  {
    if s.users == map[] && Step(s, e).users != map[] {
      assert e.Register? || e.FirstUser?;
      assert Step(s, e).users.Keys == {e.id};
    }
  }
}
