/**
 * The generation-numbered record of one service and its durable provider cache
 * (apps/api/src/routes/services.ts, lines 147-167 and 606-1071;
 * apps/api/src/lib/services/service-identity-lifecycle.ts, lines 18-113;
 * apps/api/src/lib/services/provider-identity-guard.ts, lines 88-170 and 223-276).
 * The handlers run under the owner's lease, so each is one step. What the provider answers,
 * and what the encryptor produces, are inputs.
 */
module ServiceIdentity {

  import opened Options

  datatype Service = Sonarr | Radarr | Prowlarr | Lidarr | Readarr | Seerr | Tautulli | Plex | Jellyfin | Emby | Qui

  datatype IdentityKind = PlexMachineIdentifier | JellyfinServerId | EmbyServerId | TautulliPmsIdentifier

  predicate IsProvider(s: Service) {
    s in {Plex, Jellyfin, Emby, Tautulli}
  }

  predicate IsArr(s: Service) {
    s in {Radarr, Sonarr}
  }

  /** Every provider has an identity of its own kind. */
  function KindOf(s: Service): (kind: IdentityKind)
    requires IsProvider(s)
    ensures (s.Plex? <==> kind.PlexMachineIdentifier?) && (s.Jellyfin? <==> kind.JellyfinServerId?)
    ensures (s.Emby? <==> kind.EmbyServerId?) && (s.Tautulli? <==> kind.TautulliPmsIdentifier?)
  {
    match s
    case Plex => PlexMachineIdentifier
    case Jellyfin => JellyfinServerId
    case Emby => EmbyServerId
    case Tautulli => TautulliPmsIdentifier
  }

  type Identity = s: string | s != "" witness "x"

  datatype Status = Unverified | Verified | Mismatch

  /** A credential and the ciphertext it is stored as. */
  datatype Secret = Secret(plain: string, cipher: string)

  datatype Row = Row(
    id: string, service: Service, baseUrl: string, enabled: bool, apiKey: Secret, httpAuth: Option<Secret>,
    identity: Option<Identity>, kind: Option<IdentityKind>, status: Status,
    connectionGeneration: nat, identityGeneration: nat)

  /** A cached fact, the server it was read from, and the generations it was published under. */
  datatype Entry = Entry(key: string, service: Service, identity: Identity,
                         connectionGeneration: nat, identityGeneration: nat)

  /** A provider observation that an approval rests on; old ones do not name the instance. */
  datatype Source = Source(instance: Option<string>, service: Service, kind: IdentityKind, identity: Identity,
                           connectionGeneration: nat, identityGeneration: nat)

  /** What an approval records about the evidence behind it, if anything. */
  datatype Evidence = Unstated | Sources(sources: set<Source>)

  /** `claim` is the token of the cleanup run in progress; `approvals` are the owner's open ones. */
  datatype State = State(row: Row, cache: set<Entry>, claim: Option<string>, approvals: map<string, Evidence>)

  datatype Payload = Payload(
    service: Option<Service>, baseUrl: Option<string>, enabled: Option<bool>,
    apiKey: Option<Secret>, httpAuth: Option<Option<Secret>>)

  /** What a provider answers: its trimmed identifier and the digest shown for confirmation. */
  datatype Answer = Answer(identity: Identity, digest: string)

  datatype Confirmation = Confirmation(digest: string, connectionGeneration: nat, identityGeneration: nat)

  datatype Error =
    | BasicAuthUnsupported | Unreadable | ReplacementRequired | UnresolvedIntent
    | GenerationStale | CandidateChanged | AuthorityUnavailable
    | IdentityUnverified | IdentityMismatch | Superseded

  // ----- Requests -----

  /** The row with the submitted fields written. */
  function Written(row: Row, p: Payload): Row {
    row.(service := p.service.Or(row.service), baseUrl := p.baseUrl.Or(row.baseUrl),
         enabled := p.enabled.Or(row.enabled),
         apiKey := p.apiKey.Or(row.apiKey), httpAuth := p.httpAuth.Or(row.httpAuth))
  }

  predicate ChangesProviderConnection(row: Row, p: Payload) {
    && (IsProvider(row.service) || IsProvider(p.service.Or(row.service)))
    && (|| p.service.Or(row.service) != row.service
        || p.enabled.Or(row.enabled) != row.enabled
        || p.baseUrl.Or(row.baseUrl) != row.baseUrl
        || p.apiKey.Some? || p.httpAuth.Some?)
  }

  predicate SameCredentials(a: Row, b: Row) {
    && a.apiKey.plain == b.apiKey.plain
    && a.httpAuth.Some? == b.httpAuth.Some?
    && (a.httpAuth.Some? ==> a.httpAuth.value.plain == b.httpAuth.value.plain)
  }

  predicate ChangesArrConnection(row: Row, p: Payload, moved: bool) {
    && (IsArr(row.service) || IsArr(p.service.Or(row.service)))
    && (|| p.service.Or(row.service) != row.service
        || (p.baseUrl.Some? && p.baseUrl.value != row.baseUrl && moved)
        || !SameCredentials(row, Written(row, p)))
  }

  predicate LeavesProviders(row: Row, p: Payload) {
    IsProvider(row.service) && !IsProvider(p.service.Or(row.service))
  }

  predicate MustRead(row: Row, p: Payload) {
    && ChangesProviderConnection(row, p) && IsProvider(p.service.Or(row.service))
    && (p.service.Or(row.service) != row.service || p.baseUrl.Some? || p.apiKey.Some? || p.httpAuth.Some?)
  }

  /** Why an update is refused, if it is; `moved` and `blocked` come from the ARR endpoint checks. */
  function PutError(row: Row, p: Payload, answer: Option<Answer>, moved: bool, blocked: bool): Option<Error> {
    var target := p.service.Or(row.service);
    if target.Jellyfin? && p.httpAuth.Or(row.httpAuth).Some? then Some(BasicAuthUnsupported)
    else if MustRead(row, p) && answer.None? then Some(Unreadable)
    else if MustRead(row, p) && row.identity.Some?
            && (row.identity.value != answer.value.identity || row.kind != Some(KindOf(target)))
    then Some(ReplacementRequired)
    else if ChangesArrConnection(row, p, moved) && IsArr(row.service) && blocked then Some(UnresolvedIntent)
    else None
  }

  function PutRow(row: Row, p: Payload, moved: bool): Row {
    var target := p.service.Or(row.service);
    var written := Written(row, p);
    var kept := if (IsArr(row.service) || IsArr(target)) && SameCredentials(row, written)
                then written.(apiKey := row.apiKey, httpAuth := row.httpAuth) else written;
    var stamped := if ChangesArrConnection(row, p, moved) || ChangesProviderConnection(row, p)
                   then kept.(connectionGeneration := row.connectionGeneration + 1) else kept;
    if LeavesProviders(row, p)
    then stamped.(identity := None, kind := None, status := Unverified,
                  identityGeneration := row.identityGeneration + 1)
    else stamped
  }

  function VerifyError(row: Row, c: Confirmation, answer: Option<Answer>): Option<Error> {
    if row.connectionGeneration != c.connectionGeneration || row.identityGeneration != c.identityGeneration
    then Some(GenerationStale)
    else if !IsProvider(row.service) || answer.None? then Some(Unreadable)
    else if answer.value.digest != c.digest then Some(CandidateChanged)
    else if row.identity.Some? && row.identity.value != answer.value.identity then Some(ReplacementRequired)
    else None
  }

  /** The generation stays when the same identity was verified, or when it is a Plex server. */
  function Enrolled(row: Row, identity: Identity): Row
    requires IsProvider(row.service)
  {
    row.(identity := Some(identity), kind := Some(KindOf(row.service)), status := Verified,
         identityGeneration := if row.identity == Some(identity) && (row.status.Verified? || row.service.Plex?)
                               then row.identityGeneration else row.identityGeneration + 1)
  }

  predicate AuthorityIsCurrent(row: Row, c: Confirmation) {
    row.connectionGeneration == c.connectionGeneration && row.identityGeneration == c.identityGeneration
  }

  predicate MayBeRetry(row: Row, c: Confirmation) {
    && row.identityGeneration == c.identityGeneration + 1
    && (row.connectionGeneration == c.connectionGeneration || row.connectionGeneration == c.connectionGeneration + 1)
  }

  predicate AlreadyReplaced(row: Row, c: Confirmation, target: Service, answer: Answer)
    requires IsProvider(target)
  {
    && MayBeRetry(row, c) && row.status.Verified?
    && row.identity == Some(answer.identity) && row.kind == Some(KindOf(target))
  }

  function ReplaceError(row: Row, c: Confirmation, p: Payload, answer: Option<Answer>): Option<Error> {
    var target := p.service.Or(row.service);
    if !AuthorityIsCurrent(row, c) && !MayBeRetry(row, c) then Some(GenerationStale)
    else if !IsProvider(target) || answer.None? then Some(Unreadable)
    else if answer.value.digest != c.digest then Some(CandidateChanged)
    else if AlreadyReplaced(row, c, target, answer.value) then None
    else if !AuthorityIsCurrent(row, c) then Some(GenerationStale)
    else if !IsProvider(row.service) || row.kind.None? || row.identity.None? then Some(AuthorityUnavailable)
    else None
  }

  /** The request is accepted and is not the repetition of one that already committed. */
  predicate ReplaceWrites(row: Row, c: Confirmation, p: Payload, answer: Option<Answer>) {
    ReplaceError(row, c, p, answer).None? && AuthorityIsCurrent(row, c)
  }

  function ReplacedRow(row: Row, p: Payload, identity: Identity): Row
    requires IsProvider(p.service.Or(row.service))
  {
    Written(row, p).(
      connectionGeneration := row.connectionGeneration + if ChangesProviderConnection(row, p) then 1 else 0,
      identity := Some(identity), kind := Some(KindOf(p.service.Or(row.service))), status := Verified,
      identityGeneration := row.identityGeneration + 1)
  }

  /** The observation was made of the server that the row enrols, under its present pair. */
  predicate Names(source: Source, row: Row) {
    && (source.instance.None? || source.instance.value == row.id)
    && source.service == row.service && Some(source.kind) == row.kind && Some(source.identity) == row.identity
    && source.connectionGeneration == row.connectionGeneration && source.identityGeneration == row.identityGeneration
  }

  /** An approval that does not say what it rests on counts as resting on anything. */
  predicate RestsOn(evidence: Evidence, row: Row) {
    evidence.Unstated? || exists source :: source in evidence.sources && Names(source, row)
  }

  function WithoutReplaced(approvals: map<string, Evidence>, row: Row): map<string, Evidence> {
    map a | a in approvals && !RestsOn(approvals[a], row) :: approvals[a]
  }

  predicate IsVerified(authority: Row) {
    authority.enabled && authority.status.Verified? && authority.identity.Some? && IsProvider(authority.service)
  }

  /** No other run is in progress, and the stored row is still the verified row the publisher started from. */
  predicate PublisherIsCurrent(s: State, authority: Row, claim: Option<string>) {
    var row := s.row;
    && s.claim == claim && IsVerified(authority)
    && row.id == authority.id && row.service == authority.service && row.enabled
    && row.status.Verified? && row.identity == authority.identity
    && row.connectionGeneration == authority.connectionGeneration
    && row.identityGeneration == authority.identityGeneration
    && row.baseUrl == authority.baseUrl && row.apiKey.cipher == authority.apiKey.cipher
    && row.httpAuth.Some? == authority.httpAuth.Some?
    && (row.httpAuth.Some? ==> row.httpAuth.value.cipher == authority.httpAuth.value.cipher)
  }

  // ----- Steps -----

  datatype Event =
    | Put(p: Payload, answer: Option<Answer>, moved: bool, blocked: bool)
    | Verify(c: Confirmation, answer: Option<Answer>)
    | Replace(c: Confirmation, p: Payload, answer: Option<Answer>)
      /** A publisher that read `row` earlier and now found the server to answer `seen`. */
    | Observe(authority: Row, seen: Identity, claim: Option<string>)
      /** The same publisher, after two matching observations, storing what it collected. */
    | Publish(authority: Row, key: string, claim: Option<string>)
      /** A cleanup run starts or ends. */
    | SetClaim(claim: Option<string>)
      /** A run queues an approval; what it observed of this service is current while it holds the lease. */
    | Queue(approval: string, sources: set<Source>)

  function Reply(s: State, e: Event): Option<Error> {
    match e
    case Put(p, answer, moved, blocked) => PutError(s.row, p, answer, moved, blocked)
    case Verify(c, answer) => VerifyError(s.row, c, answer)
    case Replace(c, p, answer) => ReplaceError(s.row, c, p, answer)
    case Observe(authority, seen, claim) =>
      if !IsVerified(authority) then Some(IdentityUnverified)
      else if authority.identity == Some(seen) then None
      else if PublisherIsCurrent(s, authority, claim) then Some(IdentityMismatch)
      else Some(Superseded)
    case Publish(authority, _, claim) =>
      if !IsVerified(authority) then Some(IdentityUnverified)
      else if PublisherIsCurrent(s, authority, claim) then None
      else Some(Superseded)
    case SetClaim(_) => None
    case Queue(_, _) => None
  }

  /** What an approval may be queued with: named instances, and of this one only what is current. */
  predicate ObservedNow(sources: set<Source>, row: Row) {
    forall x :: x in sources ==>
                  x.instance.Some? && (x.instance.value == row.id ==> x.identityGeneration == row.identityGeneration)
  }

  function Step(s: State, e: Event): State {
    var row := s.row;
    match e
    case Put(p, answer, moved, blocked) =>
      if PutError(row, p, answer, moved, blocked).Some? then s
      else s.(row := PutRow(row, p, moved),
              cache := if ChangesProviderConnection(row, p) || p.service.Or(row.service) != row.service then {}
                       else s.cache)
    case Verify(c, answer) =>
      if VerifyError(row, c, answer).Some? then s
      else
        var enrolled := Enrolled(row, answer.value.identity);
        s.(row := enrolled, cache := if enrolled.identityGeneration != row.identityGeneration then {} else s.cache)
    case Replace(c, p, answer) =>
      if !ReplaceWrites(row, c, p, answer) then s
      else s.(row := ReplacedRow(row, p, answer.value.identity), cache := {},
              approvals := WithoutReplaced(s.approvals, row))
    case Observe(authority, seen, claim) =>
      if Reply(s, e) == Some(IdentityMismatch) then s.(row := row.(status := Mismatch)) else s
    case Publish(authority, key, claim) =>
      if !PublisherIsCurrent(s, authority, claim) then s
      else s.(cache := s.cache + {Entry(key, authority.service, authority.identity.value,
                                        authority.connectionGeneration, authority.identityGeneration)})
    case SetClaim(claim) => s.(claim := claim)
    case Queue(approval, sources) =>
      if !ObservedNow(sources, row) then s else s.(approvals := s.approvals[approval := Sources(sources)])
  }

  /**
   * An identity is recorded only for a provider, with the kind of that provider; and everything
   * cached was read from the enrolled server under the current generations.
   */
  ghost predicate Valid(s: State) {
    && (s.row.identity.Some? ==> IsProvider(s.row.service) && s.row.kind == Some(KindOf(s.row.service)))
    && (s.row.identity.None? ==> s.row.kind.None? && s.cache == {})
    && forall x :: x in s.cache ==> IsCurrent(x, s.row)
  }

  predicate IsCurrent(x: Entry, row: Row) {
    && x.connectionGeneration == row.connectionGeneration && x.identityGeneration == row.identityGeneration
    && row.identity == Some(x.identity) && row.service == x.service
  }

  // ----- What the handlers promise, in terms of the columns -----

  function Plain(secret: Option<Secret>): Option<string> {
    if secret.Some? then Some(secret.value.plain) else None
  }

  /** The submitted credentials are, in the clear, what is stored. */
  predicate Resubmits(row: Row, p: Payload) {
    p.apiKey.Or(row.apiKey).plain == row.apiKey.plain && Plain(p.httpAuth.Or(row.httpAuth)) == Plain(row.httpAuth)
  }

  /** Why an update is refused; a provider is asked who it is unless only its name or state is edited. */
  ghost predicate PutRefusal(row: Row, p: Payload, answer: Option<Answer>, moved: bool, blocked: bool,
                             error: Option<Error>)
  {
    var target := p.service.Or(row.service);
    var unsupported := target.Jellyfin? && p.httpAuth.Or(row.httpAuth).Some?;
    var asked := IsProvider(target)
                 && (|| target != row.service || p.apiKey.Some? || p.httpAuth.Some?
                     || (p.baseUrl.Some?
                         && (p.baseUrl.value != row.baseUrl || p.enabled.Or(row.enabled) != row.enabled)));
    var another := asked && answer.Some? && row.identity.Some?
                   && (row.identity.value != answer.value.identity || row.kind != Some(KindOf(target)));
    var arrMoves := IsArr(row.service)
                    && (|| target != row.service || (p.baseUrl.Or(row.baseUrl) != row.baseUrl && moved)
                        || !Resubmits(row, p));
    && (error == Some(BasicAuthUnsupported) <==> unsupported)
    && (error == Some(Unreadable) <==> !unsupported && asked && answer.None?)
    && (error == Some(ReplacementRequired) <==> !unsupported && another)
    && (error == Some(UnresolvedIntent) <==>
        !unsupported && (asked ==> answer.Some?) && !another && arrMoves && blocked)
    && (error.None? || error.value in {BasicAuthUnsupported, Unreadable, ReplacementRequired, UnresolvedIntent})
  }

  /** The columns after an update that was not refused. */
  ghost predicate PutColumns(before: Row, after: Row, p: Payload, moved: bool) {
    var retyped := after.service != before.service;
    var provider := (IsProvider(before.service) || IsProvider(after.service))
                    && (|| retyped || after.enabled != before.enabled || after.baseUrl != before.baseUrl
                        || p.apiKey.Some? || p.httpAuth.Some?);
    var arr := (IsArr(before.service) || IsArr(after.service))
               && (retyped || (after.baseUrl != before.baseUrl && moved) || !Resubmits(before, p));
    var keeps := (IsArr(before.service) || IsArr(after.service)) && Resubmits(before, p);
    var leaves := IsProvider(before.service) && !IsProvider(after.service);
    && after.id == before.id && after.service == p.service.Or(before.service)
    && after.baseUrl == p.baseUrl.Or(before.baseUrl) && after.enabled == p.enabled.Or(before.enabled)
    && after.apiKey == (if keeps then before.apiKey else p.apiKey.Or(before.apiKey))
    && after.httpAuth == (if keeps then before.httpAuth else p.httpAuth.Or(before.httpAuth))
    && after.connectionGeneration == before.connectionGeneration + (if provider || arr then 1 else 0)
    && after.identityGeneration == before.identityGeneration + (if leaves then 1 else 0)
    && after.identity == (if leaves then None else before.identity)
    && after.kind == (if leaves then None else before.kind)
    && after.status == (if leaves then Unverified else before.status)
  }

  ghost predicate PutDoes(s: State, t: State, p: Payload, answer: Option<Answer>, moved: bool, blocked: bool,
                          error: Option<Error>)
  {
    && PutRefusal(s.row, p, answer, moved, blocked, error)
    && t.claim == s.claim && t.approvals == s.approvals
    && if error.Some? then t == s
       else
         && PutColumns(s.row, t.row, p, moved)
         && var kept := && t.row.service == s.row.service
                        && !(&& IsProvider(s.row.service)
                             && (|| t.row.enabled != s.row.enabled || t.row.baseUrl != s.row.baseUrl
                                 || p.apiKey.Some? || p.httpAuth.Some?));
            t.cache == if kept then s.cache else {}
  }

  lemma PutRefusalMeans(row: Row, p: Payload, answer: Option<Answer>, moved: bool, blocked: bool)
    ensures PutRefusal(row, p, answer, moved, blocked, PutError(row, p, answer, moved, blocked))
  {
  }

  lemma PutColumnsMean(row: Row, p: Payload, moved: bool)
    ensures PutColumns(row, PutRow(row, p, moved), p, moved)
  {
    hide IsProvider, IsArr;
  }

  lemma PutMeans(s: State, p: Payload, answer: Option<Answer>, moved: bool, blocked: bool)
    ensures var e := Put(p, answer, moved, blocked);
            PutDoes(s, Step(s, e), p, answer, moved, blocked, Reply(s, e))
  {
    PutRefusalMeans(s.row, p, answer, moved, blocked);
    PutColumnsMean(s.row, p, moved);
    hide PutError, PutRefusal, PutRow;
  }

  /** The provider that answers is the one that was confirmed. */
  predicate Confirmed(c: Confirmation, answer: Option<Answer>) {
    answer.Some? && answer.value.digest == c.digest
  }

  predicate Expected(row: Row, c: Confirmation) {
    (row.connectionGeneration, row.identityGeneration) == (c.connectionGeneration, c.identityGeneration)
  }

  /** Only the confirmed server is enrolled, under the expected generations, and never over another one. */
  ghost predicate VerifyDoes(s: State, t: State, c: Confirmation, answer: Option<Answer>, error: Option<Error>) {
    var readable := IsProvider(s.row.service) && answer.Some?;
    var same := answer.Some? && s.row.identity == Some(answer.value.identity);
    var again := same && (s.row.status.Verified? || s.row.service.Plex?);
    && (error.None? <==> && Expected(s.row, c) && readable && Confirmed(c, answer)
                         && (s.row.identity.None? || same))
    && (error == Some(GenerationStale) <==> !Expected(s.row, c))
    && (error == Some(Unreadable) <==> Expected(s.row, c) && !readable)
    && (error == Some(CandidateChanged) <==> Expected(s.row, c) && readable && !Confirmed(c, answer))
    && (error == Some(ReplacementRequired) <==>
        Expected(s.row, c) && readable && Confirmed(c, answer) && s.row.identity.Some? && !same)
    && (error.Some? ==> t == s)
    && (error.None? ==>
          && t.row.identityGeneration == s.row.identityGeneration + (if again then 0 else 1)
          && t.cache == (if again then s.cache else {})
          && t.row == s.row.(identity := Some(answer.value.identity), kind := Some(KindOf(s.row.service)),
                             status := Verified, identityGeneration := t.row.identityGeneration)
          && t.claim == s.claim && t.approvals == s.approvals)
  }

  lemma VerifyMeans(s: State, c: Confirmation, answer: Option<Answer>)
    ensures VerifyDoes(s, Step(s, Verify(c, answer)), c, answer, Reply(s, Verify(c, answer)))
  {
  }

  /** A source that states something else than the stored authority, or one of another instance. */
  predicate Elsewhere(x: Source, row: Row) {
    || (x.instance.Some? && x.instance != Some(row.id))
    || (x.service, Some(x.kind), Some(x.identity)) != (row.service, row.kind, row.identity)
    || (x.connectionGeneration, x.identityGeneration) != (row.connectionGeneration, row.identityGeneration)
  }

  /** The columns after a replacement, and what it takes along. */
  ghost predicate Replaces(s: State, t: State, p: Payload, identity: Identity) {
    var moves := || t.row.service != s.row.service || t.row.enabled != s.row.enabled || t.row.baseUrl != s.row.baseUrl
                 || p.apiKey.Some? || p.httpAuth.Some?;
    && t.row.id == s.row.id && t.row.service == p.service.Or(s.row.service)
    && t.row.baseUrl == p.baseUrl.Or(s.row.baseUrl) && t.row.enabled == p.enabled.Or(s.row.enabled)
    && t.row.apiKey == p.apiKey.Or(s.row.apiKey) && t.row.httpAuth == p.httpAuth.Or(s.row.httpAuth)
    && t.row.identity == Some(identity) && IsProvider(t.row.service) && t.row.kind == Some(KindOf(t.row.service))
    && t.row.status == Verified
    && t.row.connectionGeneration == s.row.connectionGeneration + (if moves then 1 else 0)
    && t.row.identityGeneration == s.row.identityGeneration + 1
    && t.cache == {} && t.claim == s.claim
    && (forall a :: a in t.approvals <==>
          && a in s.approvals && s.approvals[a].Sources?
          && forall x :: x in s.approvals[a].sources ==> Elsewhere(x, s.row))
    && forall a :: a in t.approvals ==> t.approvals[a] == s.approvals[a]
  }

  /**
   * A replacement enrols only the confirmed server, over an enrolled one, under the expected
   * generations. It is recognised as done when the row is one identity generation further, at most
   * one connection generation, and has just this server verified.
   */
  ghost predicate ReplaceDoes(s: State, t: State, c: Confirmation, p: Payload, answer: Option<Answer>,
                              error: Option<Error>)
  {
    var target := p.service.Or(s.row.service);
    var readable := IsProvider(target) && answer.Some?;
    var onward := s.row.identityGeneration == c.identityGeneration + 1
                  && 0 <= s.row.connectionGeneration - c.connectionGeneration <= 1;
    var done := && onward && readable && Confirmed(c, answer) && s.row.status == Verified
                && s.row.identity == Some(answer.value.identity) && s.row.kind == Some(KindOf(target));
    var enrolled := IsProvider(s.row.service) && s.row.kind.Some? && s.row.identity.Some?;
    && (error.None? <==> done || (Expected(s.row, c) && readable && Confirmed(c, answer) && enrolled))
    && (error == Some(Unreadable) <==> (Expected(s.row, c) || onward) && !readable)
    && (error == Some(CandidateChanged) <==> (Expected(s.row, c) || onward) && readable && !Confirmed(c, answer))
    && (error == Some(AuthorityUnavailable) <==>
        Expected(s.row, c) && readable && Confirmed(c, answer) && !enrolled)
    && (error == Some(GenerationStale) <==>
        !Expected(s.row, c) && (onward ==> readable && Confirmed(c, answer) && !done))
    && (error.Some? || done ==> t == s)
    && (error.None? && !done ==> Replaces(s, t, p, answer.value.identity))
  }

  lemma ReplaceMeans(s: State, c: Confirmation, p: Payload, answer: Option<Answer>)
    ensures ReplaceDoes(s, Step(s, Replace(c, p, answer)), c, p, answer, Reply(s, Replace(c, p, answer)))
  {
    var t := Step(s, Replace(c, p, answer));
    forall a | a in s.approvals && s.approvals[a].Sources?
      ensures RestsOn(s.approvals[a], s.row) <==> !forall x :: x in s.approvals[a].sources ==> Elsewhere(x, s.row)
    {
      assert forall x :: Names(x, s.row) <==> !Elsewhere(x, s.row);
    }
  }

  /** Everything a publisher's authority records of the row it started from. */
  function Authority(row: Row): (string, Service, string, string, Option<string>, Option<Identity>, nat, nat) {
    (row.id, row.service, row.baseUrl, row.apiKey.cipher,
     if row.httpAuth.Some? then Some(row.httpAuth.value.cipher) else None,
     row.identity, row.connectionGeneration, row.identityGeneration)
  }

  /** The publisher started from a verified provider row, which is stored as it was and still verified. */
  predicate MayPublish(s: State, authority: Row, claim: Option<string>) {
    && IsProvider(authority.service) && authority.identity.Some?
    && authority.enabled && s.row.enabled && authority.status == s.row.status == Verified
    && Authority(s.row) == Authority(authority) && s.claim == claim
  }

  ghost predicate PublishDoes(s: State, t: State, authority: Row, key: string, claim: Option<string>,
                              error: Option<Error>)
  {
    && (error.None? <==> MayPublish(s, authority, claim))
    && (error == Some(IdentityUnverified) <==>
        !(&& authority.enabled && authority.status == Verified && authority.identity.Some?
          && IsProvider(authority.service)))
    && (error.None? || error.value in {IdentityUnverified, Superseded})
    && t == s.(cache := if MayPublish(s, authority, claim)
                        then s.cache + {Entry(key, s.row.service, authority.identity.value,
                                              s.row.connectionGeneration, s.row.identityGeneration)}
                        else s.cache)
  }

  lemma PublishMeans(s: State, authority: Row, key: string, claim: Option<string>)
    ensures var e := Publish(authority, key, claim);
            PublishDoes(s, Step(s, e), authority, key, claim, Reply(s, e))
  {
  }

  ghost predicate ObserveDoes(s: State, t: State, authority: Row, seen: Identity, claim: Option<string>,
                              error: Option<Error>)
  {
    var verified := authority.enabled && authority.status == Verified && authority.identity.Some?
                    && IsProvider(authority.service);
    && (error.None? <==> verified && authority.identity == Some(seen))
    && (error == Some(IdentityUnverified) <==> !verified)
    && (error == Some(IdentityMismatch) <==> MayPublish(s, authority, claim) && authority.identity != Some(seen))
    && (error.None? || error.value in {IdentityUnverified, IdentityMismatch, Superseded})
    && t == s.(row := s.row.(status := if error == Some(IdentityMismatch) then Mismatch else s.row.status))
  }

  lemma ObserveMeans(s: State, authority: Row, seen: Identity, claim: Option<string>)
    ensures var e := Observe(authority, seen, claim);
            ObserveDoes(s, Step(s, e), authority, seen, claim, Reply(s, e))
  {
  }

  /** A run queues what rests on named instances and, of this service, on the present identity only. */
  lemma QueueMeans(s: State, approval: string, sources: set<Source>)
    ensures var t := Step(s, Queue(approval, sources));
            && t.row == s.row && t.cache == s.cache && t.claim == s.claim
            && t.approvals ==
               if forall x :: x in sources ==>
                    && x.instance != None
                    && (x.instance == Some(s.row.id) ==> x.identityGeneration == s.row.identityGeneration)
               then s.approvals[approval := Sources(sources)] else s.approvals
  {
  }

  // ----- The handlers -----

  class ServiceRecord {
    var row: Row
    var cache: set<Entry>
    var claim: Option<string>
    var approvals: map<string, Evidence>

    ghost function Stored(): State
      reads this
    {
      State(row, cache, claim, approvals)
    }

    constructor (row: Row, approvals: map<string, Evidence>)
      ensures Stored() == State(row, {}, None, approvals)
    {
      this.row, this.cache, this.claim, this.approvals := row, {}, None, approvals;
    }

    /** The new row of an update: stored credentials are kept when an ARR update resubmits the same ones. */
    method BuildUpdate(p: Payload, moved: bool) returns (updated: Row, arrChanged: bool)
      ensures updated == PutRow(row, p, moved)
      ensures arrChanged == ChangesArrConnection(row, p, moved)
    {
      hide IsProvider, IsArr;
      var target := p.service.Or(row.service);
      var typeChanged := target != row.service;
      var arrInvolved := IsArr(row.service) || IsArr(target);
      var credentialsSubmitted := p.apiKey.Some? || p.httpAuth.Some?;
      updated := Written(row, p);
      var credentialsChanged := arrInvolved && credentialsSubmitted && !SameCredentials(row, updated);
      if arrInvolved && credentialsSubmitted && !credentialsChanged {
        updated := updated.(apiKey := row.apiKey, httpAuth := row.httpAuth);
      }
      var endpointMoved := p.baseUrl.Some? && p.baseUrl.value != row.baseUrl && moved;
      arrChanged := arrInvolved && (typeChanged || p.baseUrl.Some? || credentialsSubmitted)
                    && (typeChanged || endpointMoved || credentialsChanged);
      if arrChanged || ChangesProviderConnection(row, p) {
        updated := updated.(connectionGeneration := row.connectionGeneration + 1);
      }
      if typeChanged && IsProvider(row.service) && !IsProvider(target) {
        updated := updated.(identity := None, kind := None, status := Unverified,
                            identityGeneration := row.identityGeneration + 1);
      }
    }

    method HandlePut(p: Payload, answer: Option<Answer>, moved: bool, blocked: bool) returns (error: Option<Error>)
      requires Valid(Stored())
      modifies this
      ensures Stored() == Step(old(Stored()), Put(p, answer, moved, blocked))
      ensures error == Reply(old(Stored()), Put(p, answer, moved, blocked))
      ensures PutDoes(old(Stored()), Stored(), p, answer, moved, blocked, error)
      ensures Valid(Stored())
    {
      StepKeepsValid(Stored(), Put(p, answer, moved, blocked));
      PutMeans(Stored(), p, answer, moved, blocked);
      hide PutDoes;
      hide Valid, PutRow, ChangesArrConnection, ChangesProviderConnection;
      var target := p.service.Or(row.service);
      if target.Jellyfin? && p.httpAuth.Or(row.httpAuth).Some? {
        return Some(BasicAuthUnsupported);
      }
      var typeChanged := target != row.service;
      var providerChanged := ChangesProviderConnection(row, p);
      if providerChanged && IsProvider(target)
         && (typeChanged || p.baseUrl.Some? || p.apiKey.Some? || p.httpAuth.Some?) {
        if answer.None? {
          return Some(Unreadable);
        }
        if row.identity.Some? && (row.identity.value != answer.value.identity || row.kind != Some(KindOf(target))) {
          return Some(ReplacementRequired);
        }
      }
      var updated, arrChanged := BuildUpdate(p, moved);
      if arrChanged && IsArr(row.service) && blocked {
        return Some(UnresolvedIntent);
      }
      row := updated;
      if typeChanged || providerChanged {
        cache := {};
      }
      error := None;
    }

    method HandleVerify(c: Confirmation, answer: Option<Answer>) returns (error: Option<Error>)
      requires Valid(Stored())
      modifies this
      ensures Stored() == Step(old(Stored()), Verify(c, answer))
      ensures error == Reply(old(Stored()), Verify(c, answer))
      ensures VerifyDoes(old(Stored()), Stored(), c, answer, error)
      ensures Valid(Stored())
    {
      StepKeepsValid(Stored(), Verify(c, answer));
      VerifyMeans(Stored(), c, answer);
      hide VerifyDoes;
      if !AuthorityIsCurrent(row, c) {
        return Some(GenerationStale);
      }
      if !IsProvider(row.service) || answer.None? {
        return Some(Unreadable);
      }
      if answer.value.digest != c.digest {
        return Some(CandidateChanged);
      }
      if row.identity.Some? && row.identity.value != answer.value.identity {
        return Some(ReplacementRequired);
      }
      var verified := Enrolled(row, answer.value.identity);
      if verified.identityGeneration != row.identityGeneration {
        cache := {};
      }
      row := verified;
      error := None;
    }

    method HandleReplace(c: Confirmation, p: Payload, answer: Option<Answer>) returns (error: Option<Error>)
      requires Valid(Stored())
      modifies this
      ensures Stored() == Step(old(Stored()), Replace(c, p, answer))
      ensures error == Reply(old(Stored()), Replace(c, p, answer))
      ensures ReplaceDoes(old(Stored()), Stored(), c, p, answer, error)
      ensures Valid(Stored())
    {
      StepKeepsValid(Stored(), Replace(c, p, answer));
      ReplaceMeans(Stored(), c, p, answer);
      hide ReplaceDoes;
      var current := AuthorityIsCurrent(row, c);
      if !current && !MayBeRetry(row, c) {
        return Some(GenerationStale);
      }
      var target := p.service.Or(row.service);
      if !IsProvider(target) || answer.None? {
        return Some(Unreadable);
      }
      if answer.value.digest != c.digest {
        return Some(CandidateChanged);
      }
      if AlreadyReplaced(row, c, target, answer.value) {
        return None;
      }
      if !current {
        return Some(GenerationStale);
      }
      if !IsProvider(row.service) || row.kind.None? || row.identity.None? {
        return Some(AuthorityUnavailable);
      }
      approvals := WithoutReplaced(approvals, row);
      row := ReplacedRow(row, p, answer.value.identity);
      cache := {};
      error := None;
    }

    /** One observation by a publisher: a server that no longer matches marks the row. */
    method ObserveForPublication(authority: Row, seen: Identity, claim: Option<string>) returns (error: Option<Error>)
      requires Valid(Stored())
      modifies this
      ensures Stored() == Step(old(Stored()), Observe(authority, seen, claim))
      ensures error == Reply(old(Stored()), Observe(authority, seen, claim))
      ensures ObserveDoes(old(Stored()), Stored(), authority, seen, claim, error)
      ensures Valid(Stored())
    {
      StepKeepsValid(Stored(), Observe(authority, seen, claim));
      ObserveMeans(Stored(), authority, seen, claim);
      hide ObserveDoes;
      if !IsVerified(authority) {
        return Some(IdentityUnverified);
      }
      if authority.identity == Some(seen) {
        return None;
      }
      if !CurrentPublisher(authority, claim) {
        return Some(Superseded);
      }
      row := row.(status := Mismatch);
      error := Some(IdentityMismatch);
    }

    method PublishEntry(authority: Row, key: string, claim: Option<string>) returns (error: Option<Error>)
      requires Valid(Stored())
      modifies this`cache
      ensures Stored() == Step(old(Stored()), Publish(authority, key, claim))
      ensures error == Reply(old(Stored()), Publish(authority, key, claim))
      ensures PublishDoes(old(Stored()), Stored(), authority, key, claim, error)
      ensures Valid(Stored())
    {
      StepKeepsValid(Stored(), Publish(authority, key, claim));
      PublishMeans(Stored(), authority, key, claim);
      hide PublishDoes;
      if !IsVerified(authority) {
        return Some(IdentityUnverified);
      }
      if !CurrentPublisher(authority, claim) {
        return Some(Superseded);
      }
      cache := cache + {Entry(key, authority.service, authority.identity.value,
                              authority.connectionGeneration, authority.identityGeneration)};
      error := None;
    }

    predicate CurrentPublisher(authority: Row, claim: Option<string>)
      reads this
    {
      PublisherIsCurrent(State(row, cache, this.claim, approvals), authority, claim)
    }
  }

  // ----- One step -----

  lemma StepKeepsValid(s: State, e: Event)
    requires Valid(s)
    ensures Valid(Step(s, e))
  {
  }

  predicate SameGenerations(a: Row, b: Row) {
    a.connectionGeneration == b.connectionGeneration && a.identityGeneration == b.identityGeneration
  }

  /** Generations only grow, and whatever moves one clears the cache in the same step. */
  lemma StepMovesForward(s: State, e: Event)
    requires Valid(s)
    ensures var t := Step(s, e);
            && s.row.connectionGeneration <= t.row.connectionGeneration
            && s.row.identityGeneration <= t.row.identityGeneration
            && (SameGenerations(s.row, t.row) || t.cache == {})
  {
  }

  /** A recorded identity changes only by a replacement that writes, or by leaving the provider family. */
  lemma IdentityChangesOnlyBy(s: State, e: Event)
    requires Valid(s) && s.row.identity.Some?
    ensures var t := Step(s, e);
            t.row.identity != s.row.identity || t.row.kind != s.row.kind || t.row.service != s.row.service ==>
              || (e.Replace? && ReplaceWrites(s.row, e.c, e.p, e.answer))
              || (e.Put? && LeavesProviders(s.row, e.p) && t.row.identity.None? && !IsProvider(t.row.service))
  {
  }

  /** The identity generation names the identity: nothing changes one and keeps the other. */
  lemma StepKeepsNamedIdentity(s: State, e: Event)
    requires Valid(s) && Step(s, e).row.identityGeneration == s.row.identityGeneration
    ensures Step(s, e).row.identity == s.row.identity && Step(s, e).row.kind == s.row.kind
  {
  }

  /** What a provider row says about reaching its server. */
  predicate SameConnection(a: Row, b: Row) {
    && a.service == b.service && a.baseUrl == b.baseUrl && a.enabled == b.enabled
    && a.apiKey == b.apiKey && a.httpAuth == b.httpAuth
  }

  /** The connection generation names the connection of a provider. */
  lemma StepKeepsNamedConnection(s: State, e: Event)
    requires IsProvider(s.row.service) && Step(s, e).row.connectionGeneration == s.row.connectionGeneration
    ensures SameConnection(s.row, Step(s, e).row)
  {
  }

  // ----- Runs -----

  /** The state after the first `k` of some steps. */
  function At(s: State, events: seq<Event>, k: nat): State
    requires k <= |events|
  {
    if k == 0 then s else Step(At(s, events, k - 1), events[k - 1])
  }

  lemma {:induction false} StaysValid(s: State, events: seq<Event>, k: nat)
    requires Valid(s) && k <= |events|
    ensures Valid(At(s, events, k))
  {
    if k > 0 {
      hide Valid, Step;
      StaysValid(s, events, k - 1);
      StepKeepsValid(At(s, events, k - 1), events[k - 1]);
    }
  }

  lemma {:induction false} GenerationsNeverDecrease(s: State, events: seq<Event>, i: nat, j: nat)
    requires Valid(s) && i <= j <= |events|
    ensures At(s, events, i).row.connectionGeneration <= At(s, events, j).row.connectionGeneration
    ensures At(s, events, i).row.identityGeneration <= At(s, events, j).row.identityGeneration
    decreases j
  {
    hide Valid, Step;
    if i < j {
      GenerationsNeverDecrease(s, events, i, j - 1);
      StaysValid(s, events, j - 1);
      StepMovesForward(At(s, events, j - 1), events[j - 1]);
    }
  }

  /** Two states of a run with the same identity generation enrol the same server. */
  lemma {:induction false} GenerationNamesIdentity(s: State, events: seq<Event>, i: nat, j: nat)
    requires Valid(s) && i <= j <= |events|
    requires At(s, events, i).row.identityGeneration == At(s, events, j).row.identityGeneration
    ensures At(s, events, i).row.identity == At(s, events, j).row.identity
    ensures At(s, events, i).row.kind == At(s, events, j).row.kind
    decreases j
  {
    hide Valid, Step;
    if i < j {
      GenerationsNeverDecrease(s, events, i, j - 1);
      GenerationsNeverDecrease(s, events, j - 1, j);
      GenerationNamesIdentity(s, events, i, j - 1);
      StaysValid(s, events, j - 1);
      StepKeepsNamedIdentity(At(s, events, j - 1), events[j - 1]);
    }
  }

  /** Two states of a run with the same connection generation reach a provider in the same way. */
  lemma {:induction false} GenerationNamesConnection(s: State, events: seq<Event>, i: nat, j: nat)
    requires Valid(s) && i <= j <= |events| && IsProvider(At(s, events, i).row.service)
    requires At(s, events, i).row.connectionGeneration == At(s, events, j).row.connectionGeneration
    ensures SameConnection(At(s, events, i).row, At(s, events, j).row)
    decreases j
  {
    hide Valid, Step;
    if i < j {
      GenerationsNeverDecrease(s, events, i, j - 1);
      GenerationsNeverDecrease(s, events, j - 1, j);
      GenerationNamesConnection(s, events, i, j - 1);
      StepKeepsNamedConnection(At(s, events, j - 1), events[j - 1]);
    }
  }

  /** A service whose cache is still empty. */
  function Fresh(row: Row): State {
    State(row, {}, None, map[])
  }

  /** In every reachable state everything cached was read from the enrolled server under the current pair. */
  lemma CacheIsAlwaysCurrent(row: Row, events: seq<Event>, k: nat, x: Entry)
    requires Valid(Fresh(row)) && k <= |events| && x in At(Fresh(row), events, k).cache
    ensures var now := At(Fresh(row), events, k).row;
            && (x.connectionGeneration, x.identityGeneration) == (now.connectionGeneration, now.identityGeneration)
            && now.identity == Some(x.identity) && now.service == x.service
  {
    hide Step;
    StaysValid(Fresh(row), events, k);
  }

  /** Step `k` is a replacement that changed the stored row. */
  ghost predicate Commits(s: State, events: seq<Event>, k: nat) {
    && k < |events| && events[k].Replace?
    && ReplaceWrites(At(s, events, k).row, events[k].c, events[k].p, events[k].answer)
  }

  lemma CommitAdvancesIdentity(s: State, e: Event)
    requires e.Replace? && ReplaceWrites(s.row, e.c, e.p, e.answer)
    ensures AuthorityIsCurrent(s.row, e.c) && e.answer.Some?
    ensures var t := Step(s, e).row;
            && t.identityGeneration == e.c.identityGeneration + 1
            && (|| t.connectionGeneration == e.c.connectionGeneration
                || t.connectionGeneration == e.c.connectionGeneration + 1)
            && t.identity == Some(e.answer.value.identity) && t.status.Verified?
            && IsProvider(e.p.service.Or(s.row.service)) && t.kind == Some(KindOf(e.p.service.Or(s.row.service)))
            && t.id == s.row.id && t.service == e.p.service.Or(s.row.service) && e.answer.value.digest == e.c.digest
  {
  }

  /** At most one replacement that expects a given pair of generations ever writes. */
  lemma AtMostOneReplaceCommits(s: State, events: seq<Event>, i: nat, j: nat)
    requires Valid(s) && Commits(s, events, i) && Commits(s, events, j)
    requires events[i].c.connectionGeneration == events[j].c.connectionGeneration
    requires events[i].c.identityGeneration == events[j].c.identityGeneration
    ensures i == j
  {
    hide Valid, Step, ReplaceWrites;
    CommitAdvancesIdentity(At(s, events, i), events[i]);
    CommitAdvancesIdentity(At(s, events, j), events[j]);
    if i < j {
      GenerationsNeverDecrease(s, events, i + 1, j);
    } else if j < i {
      GenerationsNeverDecrease(s, events, j + 1, i);
    }
  }

  /**
   * Repeating a committed replacement, at any later time, never writes; and it is answered with
   * success exactly as long as the row still carries the identity generation it gave, is verified,
   * and its connection has moved at most once since the inspection.
   */
  lemma RetryOfCommitted(s: State, events: seq<Event>, i: nat, j: nat)
    requires Valid(s) && Commits(s, events, i) && i < j <= |events|
    ensures var now := At(s, events, j);
            var again := events[i];
            && Step(now, again) == now
            && (Reply(now, again).None? <==> MayBeRetry(now.row, again.c) && now.row.status.Verified?)
  {
    hide Valid, Step, ReplaceWrites, Reply;
    var done, now := At(s, events, i + 1), At(s, events, j);
    CommitAdvancesIdentity(At(s, events, i), events[i]);
    StaysValid(s, events, i + 1);
    StaysValid(s, events, j);
    GenerationsNeverDecrease(s, events, i + 1, j);
    if now.row.identityGeneration == done.row.identityGeneration {
      GenerationNamesIdentity(s, events, i + 1, j);
    }
    RepeatIsRefusedOrIdempotent(now, done.row, events[i]);
  }

  lemma RepeatIsRefusedOrIdempotent(now: State, committed: Row, e: Event)
    requires Valid(now) && e.Replace? && e.answer.Some? && e.answer.value.digest == e.c.digest
    requires committed.identityGeneration == e.c.identityGeneration + 1 <= now.row.identityGeneration
    requires committed.identity == Some(e.answer.value.identity) && IsProvider(committed.service)
    requires committed.kind == Some(KindOf(committed.service))
    requires e.p.service.Some? ==> committed.service == e.p.service.value
    requires now.row.identityGeneration == committed.identityGeneration ==>
               now.row.identity == committed.identity && now.row.kind == committed.kind
    ensures Step(now, e) == now
    ensures Reply(now, e).None? <==> MayBeRetry(now.row, e.c) && now.row.status.Verified?
  {
  }

  // ----- Approvals that rest on a replaced provider -----

  /** A committed replacement expires exactly the approvals that rest on the replaced authority. */
  lemma ReplacementWithdraws(s: State, e: Event)
    requires e.Replace? && ReplaceWrites(s.row, e.c, e.p, e.answer)
    ensures forall a :: a in Step(s, e).approvals <==> a in s.approvals && !RestsOn(s.approvals[a], s.row)
    ensures forall a :: a in Step(s, e).approvals ==> Step(s, e).approvals[a] == s.approvals[a]
  {
  }

  lemma StepKeepsOffReplaced(s: State, e: Event, replaced: Row)
    requires Valid(s) && replaced.id == s.row.id && replaced.identityGeneration < s.row.identityGeneration
    requires forall a :: a in s.approvals ==> !RestsOn(s.approvals[a], replaced)
    ensures forall a :: a in Step(s, e).approvals ==> !RestsOn(Step(s, e).approvals[a], replaced)
    ensures Step(s, e).row.id == s.row.id
  {
  }

  /** Over every run, once a replacement has committed no open approval rests on what it replaced. */
  lemma {:induction false} NothingRestsOnReplaced(s: State, events: seq<Event>, k: nat, j: nat)
    requires Valid(s) && Commits(s, events, k) && k < j <= |events|
    ensures At(s, events, j).row.id == At(s, events, k).row.id
    ensures forall a :: a in At(s, events, j).approvals ==>
                          !RestsOn(At(s, events, j).approvals[a], At(s, events, k).row)
    decreases j
  {
    hide Valid, Step, RestsOn, ReplaceWrites;
    var replaced := At(s, events, k).row;
    CommitAdvancesIdentity(At(s, events, k), events[k]);
    if j == k + 1 {
      ReplacementWithdraws(At(s, events, k), events[k]);
    } else {
      NothingRestsOnReplaced(s, events, k, j - 1);
      StaysValid(s, events, j - 1);
      GenerationsNeverDecrease(s, events, k + 1, j - 1);
      StepKeepsOffReplaced(At(s, events, j - 1), events[j - 1], replaced);
    }
  }
}
