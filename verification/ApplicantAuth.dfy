/** Invitations, one-time codes and applicant sessions (app/auth/applicant.py). Times are seconds. */
module ApplicantAuth {
  import opened Base

  const PREAUTH_LIFETIME := 20 * 60
  const OTP_LIFETIME := 10 * 60
  const SESSION_IDLE_LIFETIME := 30 * 60
  const SESSION_ABSOLUTE_LIFETIME := 24 * 60 * 60
  const MAX_ATTEMPTS := 5

  /** A bearer token as supplied; only a canonical one can have been issued. */
  datatype Token = Canonical(id: nat) | Malformed

  /** HMAC of a code with its nonce and invitation, taken as injective; a malformed code gives the zero digest. */
  datatype Digest = Digest(code: string, nonce: nat, invitation: Uuid) | ZeroDigest

  datatype Invitation = Invitation(application: Uuid, email: string, expiresAt: int, revoked: bool)

  datatype PreAuth = PreAuth(invitation: Option<Uuid>, expiresAt: int, consumedAt: Option<int>)

  datatype Challenge = Challenge(
    invitation: Uuid, digest: Digest, nonce: nat, expiresAt: int, attempts: nat, consumedAt: Option<int>)

  datatype Session = Session(application: Uuid, idleExpiresAt: int, absoluteExpiresAt: int, revoked: bool)

  /** Contexts, challenges and sessions are kept under the keyed hash of their token, taken as injective. */
  datatype State = State(
    invitations: map<Uuid, Invitation>,
    invitationOf: map<nat, Uuid>,
    contexts: map<nat, PreAuth>,
    challenges: map<nat, Challenge>,
    sessions: map<nat, Session>,
    sent: seq<(string, string)>,
    next: nat)

  const EMPTY := State(map[], map[], map[], map[], map[], [], 0)

  // ------------------------------------------------------------------
  // The operations, as functions of the state
  // ------------------------------------------------------------------

  predicate SixDigits(code: string) {
    |code| == 6 && forall i :: 0 <= i < 6 ==> '0' <= code[i] <= '9'
  }

  function CodeDigest(code: string, nonce: nat, invitation: Uuid): Digest {
    if SixDigits(code) then Digest(code, nonce, invitation) else ZeroDigest
  }

  predicate InvitationActive(s: State, id: Uuid, now: int) {
    id in s.invitations && !s.invitations[id].revoked && now < s.invitations[id].expiresAt
  }

  predicate ContextLive(s: State, context: nat, now: int) {
    context in s.contexts && s.contexts[context].consumedAt.None? && now < s.contexts[context].expiresAt
  }

  predicate SessionLive(s: State, session: nat, now: int) {
    && session in s.sessions && !s.sessions[session].revoked
    && now < s.sessions[session].idleExpiresAt && now < s.sessions[session].absoluteExpiresAt
  }

  function AfterEstablish(s: State, token: Token, now: int): State {
    var invitation :=
      if token.Canonical? && token.id in s.invitationOf && InvitationActive(s, s.invitationOf[token.id], now)
      then Some(s.invitationOf[token.id]) else None;
    s.(contexts := s.contexts[s.next := PreAuth(invitation, now + PREAUTH_LIFETIME, None)], next := s.next + 1)
  }

  /** A code is issued only for a live context with an active invitation; the caller is told the same in every case. */
  predicate Issues(s: State, context: Token, code: string, now: int) {
    && context.Canonical? && ContextLive(s, context.id, now)
    && s.contexts[context.id].invitation.Some? && InvitationActive(s, s.contexts[context.id].invitation.value, now)
    && SixDigits(code)
  }

  function AfterRequest(s: State, context: Token, code: string, nonce: nat, now: int): State {
    if !Issues(s, context, code, now) then s
    else
      var invitation := s.contexts[context.id].invitation.value;
      s.(challenges := s.challenges[context.id := Challenge(
           invitation, CodeDigest(code, nonce, invitation), nonce, now + OTP_LIFETIME, 0, None)],
         sent := s.sent + [(s.invitations[invitation].email, code)])
  }

  /** The challenge may still be answered. */
  predicate Answerable(s: State, context: Token, now: int) {
    && context.Canonical? && ContextLive(s, context.id, now) && s.contexts[context.id].invitation.Some?
    && context.id in s.challenges
    && var c := s.challenges[context.id];
       Some(c.invitation) == s.contexts[context.id].invitation && c.consumedAt.None? && now < c.expiresAt
       && c.attempts < MAX_ATTEMPTS
  }

  predicate CodeMatches(s: State, context: Token, code: string)
    requires context.Canonical? && context.id in s.challenges
  {
    var c := s.challenges[context.id];
    CodeDigest(code, c.nonce, c.invitation) == c.digest
  }

  predicate Verifies(s: State, context: Token, code: string, now: int) {
    Answerable(s, context, now) && CodeMatches(s, context, code)
    && InvitationActive(s, s.challenges[context.id].invitation, now)
  }

  function NewSession(application: Uuid, now: int): Session {
    Session(application, now + SESSION_IDLE_LIFETIME, now + SESSION_ABSOLUTE_LIFETIME, false)
  }

  function AfterVerify(s: State, context: Token, code: string, now: int): State {
    if !Answerable(s, context, now) then s
    else
      var c := s.challenges[context.id];
      if !CodeMatches(s, context, code) then
        s.(challenges := s.challenges[context.id := c.(attempts := c.attempts + 1)])
      else if !InvitationActive(s, c.invitation, now) then s
      else s.(challenges := s.challenges[context.id := c.(consumedAt := Some(now))],
              contexts := s.contexts[context.id := s.contexts[context.id].(consumedAt := Some(now))],
              sessions := s.sessions[s.next := NewSession(s.invitations[c.invitation].application, now)],
              next := s.next + 1)
  }

  function AfterAuthenticate(s: State, session: Token, now: int): State {
    if session.Malformed? || !SessionLive(s, session.id, now) then s
    else
      var stored := s.sessions[session.id];
      s.(sessions := s.sessions[session.id := stored.(idleExpiresAt :=
           Min(now + SESSION_IDLE_LIFETIME, stored.absoluteExpiresAt))])
  }

  function Min(a: int, b: int): int {
    if a <= b then a else b
  }

  // ------------------------------------------------------------------
  // The service
  // ------------------------------------------------------------------

  class ApplicantAuthService {
    var invitations: map<Uuid, Invitation>
    var invitationOf: map<nat, Uuid>
    var contexts: map<nat, PreAuth>
    var challenges: map<nat, Challenge>
    var sessions: map<nat, Session>
    var sent: seq<(string, string)>
    var next: nat

    ghost function View(): State
      reads this
    {
      State(invitations, invitationOf, contexts, challenges, sessions, sent, next)
    }

    constructor ()
      ensures View() == EMPTY
    {
      invitations, invitationOf, contexts, challenges, sessions := map[], map[], map[], map[], map[];
      sent, next := [], 0;
    }

    method Establish(token: Token, now: int) returns (context: Token)
      modifies this
      ensures View() == AfterEstablish(old(View()), token, now) && context == Canonical(old(next))
    {
      var invitation := None;
      if token.Canonical? && token.id in invitationOf {
        var id := invitationOf[token.id];
        if id in invitations && !invitations[id].revoked && now < invitations[id].expiresAt {
          invitation := Some(id);
        }
      }
      context := Canonical(next);
      contexts := contexts[next := PreAuth(invitation, now + PREAUTH_LIFETIME, None)];
      next := next + 1;
    }

    method RequestCode(context: Token, code: string, nonce: nat, now: int)
      modifies this
      ensures View() == AfterRequest(old(View()), context, code, nonce, now)
    {
      if context.Malformed? || context.id !in contexts || contexts[context.id].consumedAt.Some?
         || contexts[context.id].expiresAt <= now || contexts[context.id].invitation.None? {
        return;
      }
      var id := contexts[context.id].invitation.value;
      if id !in invitations || invitations[id].revoked || invitations[id].expiresAt <= now {
        return;
      }
      if !SixDigits(code) {
        return;
      }
      if context.id in challenges && challenges[context.id].consumedAt.None? {
        challenges := challenges[context.id := challenges[context.id].(consumedAt := Some(now))];
      }
      challenges := challenges[context.id := Challenge(id, Digest(code, nonce, id), nonce, now + OTP_LIFETIME, 0, None)];
      sent := sent + [(invitations[id].email, code)];
    }

    method VerifyCode(context: Token, code: string, now: int) returns (session: Option<Token>)
      modifies this
      ensures View() == AfterVerify(old(View()), context, code, now)
      ensures session == if Verifies(old(View()), context, code, now) then Some(Canonical(old(next))) else None
      ensures session.Some? ==>
        && context.Canonical? && context.id in old(contexts) && old(contexts)[context.id].invitation.Some?
        && old(contexts)[context.id].invitation.value in old(invitations) && session.value.id in sessions
        && sessions[session.value.id] == Session(
             old(invitations)[old(contexts)[context.id].invitation.value].application, now + 30 * 60, now + 24 * 60 * 60, false)
    {
      if context.Malformed? || context.id !in contexts || contexts[context.id].consumedAt.Some?
         || contexts[context.id].expiresAt <= now || contexts[context.id].invitation.None?
         || context.id !in challenges {
        return None;
      }
      var challenge := challenges[context.id];
      if Some(challenge.invitation) != contexts[context.id].invitation || challenge.consumedAt.Some?
         || challenge.expiresAt <= now || challenge.attempts >= MAX_ATTEMPTS {
        return None;
      }
      var supplied := if SixDigits(code) then Digest(code, challenge.nonce, challenge.invitation) else ZeroDigest;
      if supplied != challenge.digest {
        challenges := challenges[context.id := challenge.(attempts := challenge.attempts + 1)];
        return None;
      }
      var id := challenge.invitation;
      if id !in invitations || invitations[id].revoked || invitations[id].expiresAt <= now {
        return None;
      }
      challenges := challenges[context.id := challenge.(consumedAt := Some(now))];
      contexts := contexts[context.id := contexts[context.id].(consumedAt := Some(now))];
      sessions := sessions[next := NewSession(invitations[id].application, now)];
      session := Some(Canonical(next));
      next := next + 1;
    }

    method Authenticate(session: Token, now: int) returns (authenticated: bool)
      modifies this
      ensures View() == AfterAuthenticate(old(View()), session, now)
      ensures authenticated == (session.Canonical? && SessionLive(old(View()), session.id, now))
    {
      if session.Malformed? || session.id !in sessions {
        return false;
      }
      var stored := sessions[session.id];
      if stored.revoked || stored.idleExpiresAt <= now || stored.absoluteExpiresAt <= now {
        return false;
      }
      sessions := sessions[session.id := stored.(idleExpiresAt := Min(now + SESSION_IDLE_LIFETIME, stored.absoluteExpiresAt))];
      return true;
    }
  }

  // ------------------------------------------------------------------
  // Whole runs
  // ------------------------------------------------------------------

  datatype Event =
    | Invite(token: nat, invitation: Invitation, now: int)
    | Establish(invite: Token, now: int)
    | RequestCode(context: Token, code: string, nonce: nat, now: int)
    | VerifyCode(context: Token, code: string, now: int)
    | Authenticate(session: Token, now: int)

  function Step(s: State, e: Event): State {
    match e
    case Invite(token, invitation, _) =>
      s.(invitations := s.invitations[s.next := invitation], invitationOf := s.invitationOf[token := s.next], next := s.next + 1)
    case Establish(token, now) => AfterEstablish(s, token, now)
    case RequestCode(context, code, nonce, now) => AfterRequest(s, context, code, nonce, now)
    case VerifyCode(context, code, now) => AfterVerify(s, context, code, now)
    case Authenticate(session, now) => AfterAuthenticate(s, session, now)
  }

  function Run(events: seq<Event>): State {
    if events == [] then EMPTY else Step(Run(events[..|events| - 1]), events[|events| - 1])
  }

  predicate Nondecreasing(events: seq<Event>) {
    forall i, j :: 0 <= i < j < |events| ==> events[i].now <= events[j].now
  }

  // What the history says, without looking at the stored sessions, contexts and challenges.

  /** For which application a session was created and when, and when it was created or last authenticated. */
  datatype Life = Unborn | Life(application: Uuid, created: int, lastUsed: int)

  /** The last code sent for a context, when, and how many other codes were tried since. */
  datatype Issue = NoCode | Issued(code: string, at: int, wrong: nat)

  /** When a context was established, and how many sessions were opened from it. */
  datatype Origin = Unknown | Origin(at: int, sessions: nat)

  predicate StillValid(life: Life, now: int) {
    life.Life? && now < life.created + SESSION_ABSOLUTE_LIFETIME && now < life.lastUsed + SESSION_IDLE_LIFETIME
  }

  /** The invitation sent out last under a token. */
  function InvitedBy(events: seq<Event>, token: nat): Option<Invitation> {
    if events == [] then None
    else
      var e := events[|events| - 1];
      if e.Invite? && e.token == token then Some(e.invitation) else InvitedBy(events[..|events| - 1], token)
  }

  predicate Valid(invitation: Option<Invitation>, now: int) {
    invitation.Some? && !invitation.value.revoked && now < invitation.value.expiresAt
  }

  /** The invitation that a context was established with: that of the token, if it was valid then. */
  function BoundTo(events: seq<Event>, context: nat): Option<Invitation> {
    if events == [] then None
    else
      var prior, e := events[..|events| - 1], events[|events| - 1];
      if e.Establish? && Run(prior).next == context then
        if e.invite.Canonical? && Valid(InvitedBy(prior, e.invite.id), e.now) then InvitedBy(prior, e.invite.id) else None
      else BoundTo(prior, context)
  }

  function NextLife(s: State, life: Life, e: Event, session: nat, bound: Option<Invitation>): Life {
    if e.VerifyCode? && Verifies(s, e.context, e.code, e.now) && s.next == session && bound.Some?
    then Life(bound.value.application, e.now, e.now)
    else if e.Authenticate? && e.session == Canonical(session) && StillValid(life, e.now) then life.(lastUsed := e.now)
    else life
  }

  /** The invitation behind the context that an event speaks of. */
  function BoundIn(events: seq<Event>, e: Event): Option<Invitation> {
    match e
    case RequestCode(Canonical(id), _, _, _) => BoundTo(events, id)
    case VerifyCode(Canonical(id), _, _) => BoundTo(events, id)
    case _ => None
  }

  function NextIssue(s: State, issue: Issue, e: Event, context: nat): Issue {
    if e.RequestCode? && e.context == Canonical(context) && Issues(s, e.context, e.code, e.now) then Issued(e.code, e.now, 0)
    else if e.VerifyCode? && e.context == Canonical(context) && issue.Issued? && e.code != issue.code
    then issue.(wrong := issue.wrong + 1)
    else issue
  }

  function NextOrigin(s: State, origin: Origin, e: Event, context: nat): Origin {
    if e.Establish? && s.next == context then Origin(e.now, 0)
    else if e.VerifyCode? && e.context == Canonical(context) && Verifies(s, e.context, e.code, e.now) && origin.Origin?
    then origin.(sessions := origin.sessions + 1)
    else origin
  }

  function LifeOf(events: seq<Event>, session: nat): Life {
    if events == [] then Unborn
    else
      var n := |events| - 1;
      NextLife(Run(events[..n]), LifeOf(events[..n], session), events[n], session, BoundIn(events[..n], events[n]))
  }

  function IssueOf(events: seq<Event>, context: nat): Issue {
    if events == [] then NoCode
    else var n := |events| - 1; NextIssue(Run(events[..n]), IssueOf(events[..n], context), events[n], context)
  }

  function OriginOf(events: seq<Event>, context: nat): Origin {
    if events == [] then Unknown
    else var n := |events| - 1; NextOrigin(Run(events[..n]), OriginOf(events[..n], context), events[n], context)
  }

  // How the stored records follow the history.

  ghost predicate Fresh(s: State) {
    && (forall k :: k in s.sessions ==> k < s.next)
    && (forall k :: k in s.contexts ==> k < s.next)
    && (forall k :: k in s.challenges ==> k in s.contexts)
    && (forall k :: k in s.invitations ==> k < s.next)
    && (forall k :: k in s.invitationOf ==> s.invitationOf[k] in s.invitations)
    && (forall k :: k in s.contexts && s.contexts[k].invitation.Some? ==> s.contexts[k].invitation.value in s.invitations)
  }

  /** The invitation under a token is the one sent out last. */
  ghost predicate InviteStored(s: State, invited: Option<Invitation>, token: nat) {
    && (token in s.invitationOf <==> invited.Some?)
    && (invited.Some? ==> s.invitationOf[token] in s.invitations && s.invitations[s.invitationOf[token]] == invited.value)
  }

  /** The context refers to the invitation it was established with. */
  ghost predicate BoundStored(s: State, bound: Option<Invitation>, context: nat) {
    && (bound.Some? <==> context in s.contexts && s.contexts[context].invitation.Some?)
    && (bound.Some? ==> && s.contexts[context].invitation.value in s.invitations
                        && s.invitations[s.contexts[context].invitation.value] == bound.value)
  }

  ghost predicate LifeStored(s: State, life: Life, session: nat) {
    && (session in s.sessions <==> life.Life?)
    && (life.Life? ==>
          && !s.sessions[session].revoked && s.sessions[session].application == life.application
          && s.sessions[session].absoluteExpiresAt == life.created + SESSION_ABSOLUTE_LIFETIME
          && s.sessions[session].idleExpiresAt
             == Min(life.lastUsed + SESSION_IDLE_LIFETIME, life.created + SESSION_ABSOLUTE_LIFETIME))
  }

  ghost predicate OriginStored(s: State, origin: Origin, context: nat) {
    && (context in s.contexts <==> origin.Origin?)
    && (origin.Origin? ==>
          && s.contexts[context].expiresAt == origin.at + PREAUTH_LIFETIME
          && origin.sessions == if s.contexts[context].consumedAt.Some? then 1 else 0)
  }

  ghost predicate IssueStored(s: State, issue: Issue, context: nat) {
    && (context in s.challenges <==> issue.Issued?)
    && (issue.Issued? ==>
          && context in s.contexts && SixDigits(issue.code)
          && var c := s.challenges[context];
             && c.digest == Digest(issue.code, c.nonce, c.invitation)
             && c.expiresAt == issue.at + OTP_LIFETIME
             && s.contexts[context].invitation == Some(c.invitation)
             && (c.consumedAt.Some? <==> s.contexts[context].consumedAt.Some?))
  }

  /** The stored attempt count is the number of wrong codes, up to the limit, for as long as it can matter. */
  ghost predicate AttemptsStored(s: State, issue: Issue, context: nat, now: int) {
    issue.Issued? && ContextLive(s, context, now) && now < issue.at + OTP_LIFETIME ==>
      context in s.challenges && s.challenges[context].attempts == Min(issue.wrong, MAX_ATTEMPTS)
  }

  lemma StepKeepsFresh(s: State, e: Event)
    requires Fresh(s)
    ensures Fresh(Step(s, e))
  {
  }

  lemma StepKeepsInvite(s: State, invited: Option<Invitation>, e: Event, token: nat)
    requires Fresh(s) && InviteStored(s, invited, token)
    ensures InviteStored(Step(s, e), if e.Invite? && e.token == token then Some(e.invitation) else invited, token)
  {
  }

  lemma StepKeepsBound(s: State, bound: Option<Invitation>, e: Event, context: nat, invited: Option<Invitation>)
    requires Fresh(s) && BoundStored(s, bound, context)
    requires e.Establish? && e.invite.Canonical? ==> InviteStored(s, invited, e.invite.id)
    ensures BoundStored(Step(s, e),
              if e.Establish? && s.next == context then (if e.invite.Canonical? && Valid(invited, e.now) then invited else None) else bound,
              context)
  {
  }

  lemma {:induction false} StoredInvite(events: seq<Event>, token: nat)
    ensures Fresh(Run(events)) && InviteStored(Run(events), InvitedBy(events, token), token)
  {
    if events != [] {
      var n := |events| - 1;
      StoredInvite(events[..n], token);
      StepKeepsFresh(Run(events[..n]), events[n]);
      StepKeepsInvite(Run(events[..n]), InvitedBy(events[..n], token), events[n], token);
    }
  }

  lemma {:induction false} StoredBound(events: seq<Event>, context: nat)
    ensures Fresh(Run(events)) && BoundStored(Run(events), BoundTo(events, context), context)
  {
    if events != [] {
      var n := |events| - 1;
      var e := events[n];
      StoredBound(events[..n], context);
      StepKeepsFresh(Run(events[..n]), e);
      var token := if e.Establish? && e.invite.Canonical? then e.invite.id else 0;
      StoredInvite(events[..n], token);
      StepKeepsBound(Run(events[..n]), BoundTo(events[..n], context), e, context, InvitedBy(events[..n], token));
    }
  }

  lemma StepKeepsLife(s: State, life: Life, e: Event, session: nat, bound: Option<Invitation>)
    requires Fresh(s) && LifeStored(s, life, session)
    requires e.VerifyCode? && e.context.Canonical? ==> BoundStored(s, bound, e.context.id)
    ensures LifeStored(Step(s, e), NextLife(s, life, e, session, bound), session)
  {
  }

  lemma StepKeepsOrigin(s: State, origin: Origin, e: Event, context: nat)
    requires Fresh(s) && OriginStored(s, origin, context)
    ensures OriginStored(Step(s, e), NextOrigin(s, origin, e, context), context)
  {
  }

  lemma StepKeepsIssue(s: State, issue: Issue, e: Event, context: nat)
    requires Fresh(s) && IssueStored(s, issue, context)
    ensures IssueStored(Step(s, e), NextIssue(s, issue, e, context), context)
  {
  }

  lemma StepKeepsAttempts(s: State, issue: Issue, e: Event, context: nat, now: int)
    requires Fresh(s) && IssueStored(s, issue, context) && e.now <= now
    requires AttemptsStored(s, issue, context, e.now) && AttemptsStored(s, issue, context, now)
    ensures AttemptsStored(Step(s, e), NextIssue(s, issue, e, context), context, now)
  {
  }

  lemma {:induction false} StoredLife(events: seq<Event>, session: nat)
    ensures Fresh(Run(events)) && LifeStored(Run(events), LifeOf(events, session), session)
  {
    if events != [] {
      var n := |events| - 1;
      StoredLife(events[..n], session);
      StepKeepsFresh(Run(events[..n]), events[n]);
      if events[n].VerifyCode? && events[n].context.Canonical? { StoredBound(events[..n], events[n].context.id); }
      StepKeepsLife(Run(events[..n]), LifeOf(events[..n], session), events[n], session, BoundIn(events[..n], events[n]));
    }
  }

  lemma {:induction false} StoredCode(events: seq<Event>, context: nat)
    ensures Fresh(Run(events))
    ensures OriginStored(Run(events), OriginOf(events, context), context)
    ensures IssueStored(Run(events), IssueOf(events, context), context)
  {
    if events != [] {
      var n := |events| - 1;
      StoredCode(events[..n], context);
      StepKeepsFresh(Run(events[..n]), events[n]);
      StepKeepsOrigin(Run(events[..n]), OriginOf(events[..n], context), events[n], context);
      StepKeepsIssue(Run(events[..n]), IssueOf(events[..n], context), events[n], context);
    }
  }

  lemma {:induction false} StoredAttempts(events: seq<Event>, context: nat, now: int)
    requires Nondecreasing(events) && forall i :: 0 <= i < |events| ==> events[i].now <= now
    ensures AttemptsStored(Run(events), IssueOf(events, context), context, now)
  {
    if events != [] {
      var n := |events| - 1;
      StoredAttempts(events[..n], context, events[n].now);
      StoredAttempts(events[..n], context, now);
      StoredCode(events[..n], context);
      StepKeepsAttempts(Run(events[..n]), IssueOf(events[..n], context), events[n], context, now);
    }
  }

  // ------------------------------------------------------------------
  // The guarantees
  // ------------------------------------------------------------------

  /**
   * A session authenticates at a time exactly if that is within 24 hours of its creation and within 30 minutes of its
   * creation or last successful authentication.
   */
  lemma AuthenticatesIffStillValid(events: seq<Event>, session: nat, now: int)
    ensures SessionLive(Run(events), session, now) <==> StillValid(LifeOf(events, session), now)
  {
    StoredLife(events, session);
  }

  /** Each pre-authentication context yields at most one session. */
  lemma AtMostOneSession(events: seq<Event>, context: nat)
    ensures OriginOf(events, context).Origin? ==> OriginOf(events, context).sessions <= 1
  {
    StoredCode(events, context);
  }

  /** A session belongs to the application of the invitation with which its context was established. */
  lemma SessionIsForItsApplication(events: seq<Event>, session: nat)
    ensures var s, life := Run(events), LifeOf(events, session);
      && (session in s.sessions <==> life.Life?)
      && (life.Life? ==> s.sessions[session].application == life.application)
  {
    StoredLife(events, session);
  }

  /** The context is at most 20 minutes old and unused, and its invitation is still valid. */
  ghost predicate MayAsk(events: seq<Event>, context: nat, now: int) {
    var origin := OriginOf(events, context);
    origin.Origin? && origin.sessions == 0 && now < origin.at + PREAUTH_LIFETIME && Valid(BoundTo(events, context), now)
  }

  /** A code is sent exactly for such a context. */
  lemma IssuesIff(events: seq<Event>, context: nat, code: string, now: int)
    ensures Issues(Run(events), Canonical(context), code, now) <==> MayAsk(events, context, now) && SixDigits(code)
  {
    StoredCode(events, context);
    StoredBound(events, context);
  }

  /** The codes sent, and to whom, as the history says. */
  ghost function SentBy(events: seq<Event>): seq<(string, string)> {
    if events == [] then []
    else
      var prior, e := events[..|events| - 1], events[|events| - 1];
      if e.RequestCode? && e.context.Canonical? && MayAsk(prior, e.context.id, e.now) && SixDigits(e.code)
      then SentBy(prior) + [(BoundTo(prior, e.context.id).value.email, e.code)]
      else SentBy(prior)
  }

  /** Every code goes to the address of the invitation with which its context was established. */
  lemma {:induction false} CodesGoToTheInvited(events: seq<Event>)
    ensures Run(events).sent == SentBy(events)
  {
    if events != [] {
      var prior, e := events[..|events| - 1], events[|events| - 1];
      CodesGoToTheInvited(prior);
      if e.RequestCode? && e.context.Canonical? {
        IssuesIff(prior, e.context.id, e.code, e.now);
        StoredBound(prior, e.context.id);
      }
    }
  }

  /**
   * A code opens a session exactly if it is the last one issued to a context that is at most 20 minutes old and has not
   * been used, it is at most 10 minutes old with fewer than five other codes tried on it, and the invitation with which the
   * context was established is still valid.
   */
  lemma {:induction false} VerifiesIff(events: seq<Event>, context: nat, code: string, now: int)
    requires Nondecreasing(events) && forall i :: 0 <= i < |events| ==> events[i].now <= now
    ensures Verifies(Run(events), Canonical(context), code, now) <==>
      var issue := IssueOf(events, context);
      && MayAsk(events, context, now)
      && issue.Issued? && issue.code == code && now < issue.at + OTP_LIFETIME && issue.wrong < MAX_ATTEMPTS
  {
    StoredCode(events, context);
    StoredAttempts(events, context, now);
    StoredBound(events, context);
  }
}
