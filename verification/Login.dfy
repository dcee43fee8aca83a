/** One-shot login states: the table shared by the login and callback handlers, as a class and as a
    state machine in which the steps of any number of callbacks interleave. */
module Login {
  import opened Wrappers
  import opened Identity

  /** Ten minutes, in nanoseconds. */
  const LIFETIME: int := 10 * 60 * 1_000_000_000

  datatype LoginState = LoginState(returnPath: string, verifier: string, nonce: string, expires: int)

  /** The fresh random strings of one login. */
  datatype Secrets = Secrets(token: string, verifier: string, nonce: string)

  predicate SafeReturnPath(path: string) {
    path == "" || ("/" <= path && !("//" <= path))
  }

  function NewState(secrets: Secrets, path: string, now: int): LoginState {
    LoginState(if SafeReturnPath(path) then path else "/", secrets.verifier, secrets.nonce, now + LIFETIME)
  }

  /** A safe path is empty or starts with a slash that no other slash follows; a safe path asked for is kept, any
      other becomes the root; and the state expires ten minutes after it was made. */
  lemma NewStateMeaning(secrets: Secrets, path: string, now: int)
    ensures var state := NewState(secrets, path, now);
            && (state.returnPath == "" || state.returnPath[0] == '/')
            && (|state.returnPath| >= 2 ==> state.returnPath[1] != '/')
            && (path == "" || (path[0] == '/' && (|path| >= 2 ==> path[1] != '/')) ==> state.returnPath == path)
            && (path != "" && (path[0] != '/' || (|path| >= 2 && path[1] == '/')) ==> state.returnPath == "/")
            && state.verifier == secrets.verifier && state.nonce == secrets.nonce
            && state.expires == now + 600_000_000_000
  {
  }

  /** The answer of the token endpoint to a code and a verifier. */
  datatype Answer = ExchangeFailed | NoIdentityToken | IdentityToken(raw: string)

  type Exchange = (string, string) -> Answer
  type Verifier = string -> Option<Claims>
  type Sealer = Claims -> Option<string>

  datatype Reason = NoLogin | InvalidState | ExchangeRefused | TokenMissing | TokenInvalid | NotSealed

  datatype Session = Session(token: string, login: LoginState, checkedAt: int,
                             claims: Claims, verifiedAt: int, cookie: string)

  /** How far one callback has come. */
  datatype Phase =
    | Looked(token: string, code: string, found: Option<LoginState>)
    | Checked(token: string, code: string, login: LoginState, checkedAt: int)
    | Exchanged(token: string, login: LoginState, checkedAt: int, raw: string)
    | Done(session: Session)
    | Refused(reason: Reason)

  predicate ValidNonce(actual: string, expected: string) {
    expected != "" && actual != "" && actual == expected
  }

  function Look(states: map<string, LoginState>, token: string, code: string): Phase {
    Looked(token, code, if token in states then Some(states[token]) else None)
  }

  function CheckState(p: Phase, now: int): Phase
    requires p.Looked?
  {
    if p.found.None? || p.found.value.expires < now then Refused(InvalidState)
    else Checked(p.token, p.code, p.found.value, now)
  }

  function ExchangeCode(p: Phase, exchange: Exchange): Phase
    requires p.Checked?
  {
    match exchange(p.code, p.login.verifier)
    case ExchangeFailed => Refused(ExchangeRefused)
    case NoIdentityToken => Refused(TokenMissing)
    case IdentityToken(raw) => Exchanged(p.token, p.login, p.checkedAt, raw)
  }

  function Conclude(p: Phase, verify: Verifier, seal: Sealer, now: int): Phase
    requires p.Exchanged?
  {
    match verify(p.raw)
    case None => Refused(TokenInvalid)
    case Some(claims) =>
      if !ValidClaims(claims, now) || !ValidNonce(claims.nonce, p.login.nonce) then Refused(TokenInvalid)
      else match seal(claims)
        case None => Refused(NotSealed)
        case Some(cookie) => Done(Session(p.token, p.login, p.checkedAt, claims, now, cookie))
  }

  // ---------- The handlers ----------

  /** A callback that nothing interrupts, its clock read at the state check and at the claims check. */
  function Completed(p: Phase, exchange: Exchange, verify: Verifier, seal: Sealer, checkedAt: int, verifiedAt: int)
    : Phase
    requires p.Looked?
  {
    var checked := CheckState(p, checkedAt);
    if checked.Refused? then checked
    else
      var exchanged := ExchangeCode(checked, exchange);
      if exchanged.Refused? then exchanged else Conclude(exchanged, verify, seal, verifiedAt)
  }

  predicate Accepted(claims: Option<Claims>, nonce: string, seal: Sealer, now: int) {
    && claims.Some?
    && claims.value.subject != "" && now < claims.value.expiry
    && claims.value.nonce == nonce != ""
    && seal(claims.value).Some?
  }

  lemma CompletedIff(states: map<string, LoginState>, token: string, code: string, exchange: Exchange, verify: Verifier,
                     seal: Sealer, checkedAt: int, verifiedAt: int)
    ensures var p := Completed(Look(states, token, code), exchange, verify, seal, checkedAt, verifiedAt);
            && (p.Done? || p.Refused?)
            && (p.Done? <==>
                  && token in states && checkedAt <= states[token].expires
                  && exchange(code, states[token].verifier).IdentityToken?
                  && Accepted(verify(exchange(code, states[token].verifier).raw), states[token].nonce, seal,
                              verifiedAt))
            && (p == Refused(InvalidState) <==> token !in states || states[token].expires < checkedAt)
            && (p.Done? ==>
                  var claims := verify(exchange(code, states[token].verifier).raw).value;
                  p.session == Session(token, states[token], checkedAt, claims, verifiedAt, seal(claims).value))
  {
  }

  /** Once the state is accepted, each of the other refusals has its one reason. */
  lemma RefusalMeaning(states: map<string, LoginState>, token: string, code: string, exchange: Exchange,
                       verify: Verifier, seal: Sealer, checkedAt: int, verifiedAt: int)
    requires token in states && checkedAt <= states[token].expires
    ensures var p := Completed(Look(states, token, code), exchange, verify, seal, checkedAt, verifiedAt);
            var answer := exchange(code, states[token].verifier);
            && (p == Refused(ExchangeRefused) <==> answer.ExchangeFailed?)
            && (p == Refused(TokenMissing) <==> answer.NoIdentityToken?)
            && (p == Refused(NotSealed) ==> answer.IdentityToken? && verify(answer.raw).Some?
                                            && seal(verify(answer.raw).value).None?)
            && (p == Refused(TokenInvalid) <==>
                  && answer.IdentityToken?
                  && (|| verify(answer.raw).None?
                      || verify(answer.raw).value.subject == "" || verify(answer.raw).value.expiry <= verifiedAt
                      || verify(answer.raw).value.nonce != states[token].nonce || states[token].nonce == ""))
  {
  }

  class LoginTable {
    const oauth: bool
    var states: map<string, LoginState>

    constructor (oauth: bool)
      ensures this.oauth == oauth && states == map[]
    {
      this.oauth := oauth;
      states := map[];
    }

    method Login(secrets: Secrets, path: string, now: int) returns (redirected: bool)
      modifies this
      ensures redirected == oauth
      ensures states == if oauth then old(states)[secrets.token := NewState(secrets, path, now)] else old(states)
    {
      if !oauth {
        return false;
      }
      var returnPath := path;
      if !SafeReturnPath(returnPath) {
        returnPath := "/";
      }
      states := states[secrets.token := LoginState(returnPath, secrets.verifier, secrets.nonce, now + LIFETIME)];
      return true;
    }

    method Take(token: string) returns (found: Option<LoginState>)
      modifies this
      ensures found == if token in old(states) then Some(old(states)[token]) else None
      ensures states == old(states) - {token}
    {
      found := if token in states then Some(states[token]) else None;
      states := states - {token};
    }

    /** Whatever comes of a callback, its token is spent. */
    method Callback(token: string, code: string, exchange: Exchange, verify: Verifier, seal: Sealer,
                    checkedAt: int, verifiedAt: int)
      returns (outcome: Phase)
      modifies this
      ensures !oauth ==> outcome == Refused(NoLogin) && states == old(states)
      ensures oauth ==> states == old(states) - {token}
      ensures oauth ==>
                outcome == Completed(Look(old(states), token, code), exchange, verify, seal, checkedAt, verifiedAt)
    {
      if !oauth {
        return Refused(NoLogin);
      }
      var found := Take(token);
      if found.None? || found.value.expires < checkedAt {
        return Refused(InvalidState);
      }
      var login := found.value;
      var answer := exchange(code, login.verifier);
      if answer.ExchangeFailed? {
        return Refused(ExchangeRefused);
      }
      if answer.NoIdentityToken? {
        return Refused(TokenMissing);
      }
      var claims := verify(answer.raw);
      if claims.None? || !ValidClaims(claims.value, verifiedAt) || !ValidNonce(claims.value.nonce, login.nonce) {
        return Refused(TokenInvalid);
      }
      var cookie := seal(claims.value);
      if cookie.None? {
        return Refused(NotSealed);
      }
      return Done(Session(token, login, checkedAt, claims.value, verifiedAt, cookie.value));
    }
  }

  // ---------- All interleavings ----------

  datatype Issued = Issued(state: LoginState, at: int)

  /** `states` is the table; `phases` holds every callback ever begun; `logins` and `redeemed` record
      what was issued and who took it. */
  datatype System = System(now: int, states: map<string, LoginState>, phases: map<nat, Phase>,
                           logins: map<string, Issued>, redeemed: seq<(string, nat)>)

  datatype Event =
    | Tick(elapsed: nat)
    | LogIn(secrets: Secrets, path: string)
    | Begin(id: nat, token: string, code: string)
    | Check(id: nat)
    | Swap(id: nat, exchange: Exchange)
    | Finish(id: nat, verify: Verifier, seal: Sealer)

  function Init(now: int): System {
    System(now, map[], map[], map[], [])
  }

  /** Random strings are fresh, and each callback takes its own steps in order. */
  ghost predicate Enabled(s: System, e: Event) {
    match e
    case Tick(_) => true
    case LogIn(secrets, _) =>
      secrets.token !in s.logins && forall t :: t in s.logins ==> s.logins[t].state.nonce != secrets.nonce
    case Begin(id, _, _) => id !in s.phases
    case Check(id) => id in s.phases && s.phases[id].Looked?
    case Swap(id, _) => id in s.phases && s.phases[id].Checked?
    case Finish(id, _, _) => id in s.phases && s.phases[id].Exchanged?
  }

  ghost function Next(s: System, e: Event): System
    requires Enabled(s, e)
  {
    match e
    case Tick(elapsed) => s.(now := s.now + elapsed)
    case LogIn(secrets, path) =>
      var state := NewState(secrets, path, s.now);
      s.(states := s.states[secrets.token := state], logins := s.logins[secrets.token := Issued(state, s.now)])
    case Begin(id, token, code) =>
      s.(states := s.states - {token},
         phases := s.phases[id := Look(s.states, token, code)],
         redeemed := if token in s.states then s.redeemed + [(token, id)] else s.redeemed)
    case Check(id) => s.(phases := s.phases[id := CheckState(s.phases[id], s.now)])
    case Swap(id, exchange) => s.(phases := s.phases[id := ExchangeCode(s.phases[id], exchange)])
    case Finish(id, verify, seal) => s.(phases := s.phases[id := Conclude(s.phases[id], verify, seal, s.now)])
  }

  ghost predicate Legal(s: System, events: seq<Event>)
    decreases |events|
  {
    events != [] ==> Enabled(s, events[0]) && Legal(Next(s, events[0]), events[1..])
  }

  ghost function Run(s: System, events: seq<Event>): System
    requires Legal(s, events)
    decreases |events|
  {
    if events == [] then s else Run(Next(s, events[0]), events[1..])
  }

  // ---------- What every step keeps ----------

  ghost predicate Spent(s: System, token: string) {
    exists i :: 0 <= i < |s.redeemed| && s.redeemed[i].0 == token
  }

  /** A token was issued exactly if it is still in the table or was redeemed, never both. */
  ghost predicate TableInv(s: System) {
    && (forall t :: t in s.states ==> t in s.logins && s.states[t] == s.logins[t].state && !Spent(s, t))
    && (forall t :: t in s.logins ==> t in s.states || Spent(s, t))
    && (forall i :: 0 <= i < |s.redeemed| ==> s.redeemed[i].0 in s.logins && s.redeemed[i].1 in s.phases)
    && (forall i, j :: 0 <= i < j < |s.redeemed| ==> s.redeemed[i].0 != s.redeemed[j].0)
  }

  ghost predicate LoginsInv(s: System) {
    && (forall t :: t in s.logins ==>
          && s.logins[t].at <= s.now
          && s.logins[t].state.expires == s.logins[t].at + LIFETIME
          && SafeReturnPath(s.logins[t].state.returnPath))
    && (forall t, u :: t in s.logins && u in s.logins && t != u ==>
          s.logins[t].state.nonce != s.logins[u].state.nonce)
  }

  /** The callback took this token and holds the state of the login that issued it. */
  ghost predicate Holds(s: System, id: nat, token: string, login: LoginState) {
    token in s.logins && login == s.logins[token].state && (token, id) in s.redeemed
  }

  /** The state check fell between the login and its expiry. */
  ghost predicate InTime(s: System, token: string, checkedAt: int) {
    token in s.logins && s.logins[token].at <= checkedAt <= s.logins[token].at + LIFETIME && checkedAt <= s.now
  }

  ghost predicate Earned(s: System, id: nat, session: Session) {
    && Holds(s, id, session.token, session.login)
    && InTime(s, session.token, session.checkedAt)
    && session.checkedAt <= session.verifiedAt <= s.now
    && ValidClaims(session.claims, session.verifiedAt)
    && session.claims.nonce == session.login.nonce != ""
    && SafeReturnPath(session.login.returnPath)
  }

  ghost predicate PhaseInv(s: System, id: nat, p: Phase) {
    match p
    case Looked(token, _, found) => found.Some? ==> Holds(s, id, token, found.value)
    case Checked(token, _, login, checkedAt) => Holds(s, id, token, login) && InTime(s, token, checkedAt)
    case Exchanged(token, login, checkedAt, _) => Holds(s, id, token, login) && InTime(s, token, checkedAt)
    case Done(session) => Earned(s, id, session)
    case Refused(_) => true
  }

  ghost predicate Inv(s: System) {
    && TableInv(s)
    && LoginsInv(s)
    && forall id :: id in s.phases ==> PhaseInv(s, id, s.phases[id])
  }

  lemma SameTable(s: System, n: System)
    requires TableInv(s) && n.states == s.states && n.logins == s.logins && n.redeemed == s.redeemed
    requires forall id :: id in s.phases ==> id in n.phases
    ensures TableInv(n)
  {
    assert forall t :: Spent(n, t) <==> Spent(s, t);
    hide Spent;
  }

  lemma LogInKeepsTable(s: System, e: Event)
    requires TableInv(s) && Enabled(s, e) && e.LogIn?
    ensures TableInv(Next(s, e))
  {
    assert forall t :: Spent(Next(s, e), t) <==> Spent(s, t);
    assert !Spent(s, e.secrets.token);
    hide Spent;
  }

  lemma SpentAt(s: System, i: nat)
    requires i < |s.redeemed|
    ensures Spent(s, s.redeemed[i].0)
  {
  }

  lemma SpentAfter(s: System, e: Event)
    requires e.Begin? && e.token in s.states && Enabled(s, e)
    ensures forall t :: Spent(Next(s, e), t) <==> Spent(s, t) || t == e.token
  {
    var n := Next(s, e);
    assert n.redeemed[|s.redeemed|] == (e.token, e.id);
    forall t ensures Spent(n, t) <==> Spent(s, t) || t == e.token {
      if Spent(s, t) {
        var i :| 0 <= i < |s.redeemed| && s.redeemed[i].0 == t;
        assert n.redeemed[i].0 == t;
      }
    }
  }

  lemma RedeemKeepsTable(s: System, e: Event)
    requires TableInv(s) && Enabled(s, e) && e.Begin? && e.token in s.states
    ensures TableInv(Next(s, e))
  {
    hide Spent;
    SpentAfter(s, e);
    forall i | 0 <= i < |s.redeemed| ensures s.redeemed[i].0 != e.token {
      SpentAt(s, i);
    }
  }

  lemma NextKeepsTable(s: System, e: Event)
    requires TableInv(s) && Enabled(s, e)
    ensures TableInv(Next(s, e))
  {
    hide TableInv;
    if e.Begin? && e.token in s.states {
      RedeemKeepsTable(s, e);
    } else if e.LogIn? {
      LogInKeepsTable(s, e);
    } else {
      assert e.Begin? ==> s.states - {e.token} == s.states;
      SameTable(s, Next(s, e));
    }
  }

  lemma NextKeepsLogins(s: System, e: Event)
    requires LoginsInv(s) && Enabled(s, e)
    ensures LoginsInv(Next(s, e))
  {
  }

  /** What a callback holds, no other step takes away. */
  lemma PhaseInvStable(s: System, e: Event, id: nat, p: Phase)
    requires Enabled(s, e) && PhaseInv(s, id, p)
    ensures PhaseInv(Next(s, e), id, p)
  {
  }

  lemma NextKeepsPhase(s: System, e: Event, id: nat)
    requires Inv(s) && Enabled(s, e) && id in Next(s, e).phases
    ensures PhaseInv(Next(s, e), id, Next(s, e).phases[id])
  {
    if id in s.phases {
      PhaseInvStable(s, e, id, s.phases[id]);
    }
  }

  lemma NextKeepsInv(s: System, e: Event)
    requires Inv(s) && Enabled(s, e)
    ensures Inv(Next(s, e))
  {
    NextKeepsTable(s, e);
    NextKeepsLogins(s, e);
    forall id | id in Next(s, e).phases ensures PhaseInv(Next(s, e), id, Next(s, e).phases[id]) {
      NextKeepsPhase(s, e, id);
    }
  }

  lemma {:induction false} RunKeepsInv(s: System, events: seq<Event>)
    requires Inv(s) && Legal(s, events)
    ensures Inv(Run(s, events))
    decreases |events|
  {
    if events == [] {
    } else {
      NextKeepsInv(s, events[0]);
      RunKeepsInv(Next(s, events[0]), events[1..]);
    }
  }

  // ---------- Over all runs ----------

  /** A callback finds a token exactly if some login issued it and no callback has taken it before,
      so each token is redeemed at most once. */
  lemma StatesAreOneShot(start: int, events: seq<Event>, token: string)
    requires Legal(Init(start), events)
    ensures var s := Run(Init(start), events);
            && (token in s.states <==> token in s.logins && !Spent(s, token))
            && forall i, j :: 0 <= i < |s.redeemed| && 0 <= j < |s.redeemed| && i != j ==>
                 s.redeemed[i].0 != s.redeemed[j].0
  {
    RunKeepsInv(Init(start), events);
  }

  /** Every session comes from a token of a recorded login, checked within its ten minutes, with claims
      valid when they were checked that carry this login's nonce. */
  lemma SessionsAreEarned(start: int, events: seq<Event>, id: nat)
    requires Legal(Init(start), events)
    requires var s := Run(Init(start), events); id in s.phases && s.phases[id].Done?
    ensures var s := Run(Init(start), events); Earned(s, id, s.phases[id].session)
  {
    RunKeepsInv(Init(start), events);
  }

  /** Neither a state token nor an identity token yields two sessions. */
  lemma OneSessionPerLogin(start: int, events: seq<Event>, id: nat, other: nat)
    requires Legal(Init(start), events) && id != other
    requires var s := Run(Init(start), events);
             id in s.phases && s.phases[id].Done? && other in s.phases && s.phases[other].Done?
    ensures var s := Run(Init(start), events);
            var a, b := s.phases[id].session, s.phases[other].session;
            a.token != b.token && a.claims.nonce != b.claims.nonce && a.claims != b.claims
  {
    RunKeepsInv(Init(start), events);
    var s := Run(Init(start), events);
    assert PhaseInv(s, id, s.phases[id]) && PhaseInv(s, other, s.phases[other]);
    var i :| 0 <= i < |s.redeemed| && s.redeemed[i] == (s.phases[id].session.token, id);
    var j :| 0 <= j < |s.redeemed| && s.redeemed[j] == (s.phases[other].session.token, other);
    assert i != j;
  }

  // ---------- From login to request ----------

  /** Cookies open only if a callback of this run sealed them, and then to what was sealed. */
  ghost predicate Unforgeable(s: System, m: Middleware) {
    forall v :: m.open(v).Some? ==>
      exists id :: id in s.phases && s.phases[id].Done? && s.phases[id].session.cookie == v
                   && m.open(v) == Some(s.phases[id].session.claims)
  }

  /** With unforgeable cookies, a request without bearer token is authenticated exactly as somebody
      who has logged in and whose claims are still valid. */
  lemma CookieIdentityLoggedIn(start: int, events: seq<Event>, m: Middleware, h: Header)
    returns (id: nat)
    requires Legal(Init(start), events)
    requires Unforgeable(Run(Init(start), events), m)
    requires Get(h, AUTHORIZATION) == ""
    requires Authenticate(m, h, Run(Init(start), events).now).Some?
    ensures var s := Run(Init(start), events);
            && id in s.phases && s.phases[id].Done? && Earned(s, id, s.phases[id].session)
            && m.cookie(h) == Some(s.phases[id].session.cookie)
            && Authenticate(m, h, s.now).value == s.phases[id].session.claims
            && s.now < s.phases[id].session.claims.expiry
  {
    RunKeepsInv(Init(start), events);
    var s := Run(Init(start), events);
    var cookie := m.cookie(h).value;
    id :| id in s.phases && s.phases[id].Done? && s.phases[id].session.cookie == cookie
          && m.open(cookie) == Some(s.phases[id].session.claims);
    assert PhaseInv(s, id, s.phases[id]);
  }

  /** A session lets its owner in until the claims expire, whatever else the request carries. */
  lemma SessionAdmits(start: int, events: seq<Event>, id: nat, m: Middleware, h: Header, later: int)
    requires Legal(Init(start), events)
    requires var s := Run(Init(start), events);
             && id in s.phases && s.phases[id].Done?
             && m.cookie(h) == Some(s.phases[id].session.cookie)
             && m.open(s.phases[id].session.cookie) == Some(s.phases[id].session.claims)
             && later < s.phases[id].session.claims.expiry
    ensures Authenticate(m, h, later) == Some(Run(Init(start), events).phases[id].session.claims)
  {
    SessionsAreEarned(start, events, id);
  }
}
