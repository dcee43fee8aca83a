/** The headers of a request on its way to an upstream: trusted headers are stripped, set again only
    from an authenticated identity, and out of reach of the headers a route adds. */
module Identity {
  import opened Wrappers

  /** Header values under their keys. */
  type Header = map<string, seq<string>>

  // ---------- Header keys ----------

  predicate TokenChar(c: char) {
    || 'a' <= c <= 'z' || 'A' <= c <= 'Z' || '0' <= c <= '9'
    || c in {'!', '#', '$', '%', '&', '\'', '*', '+', '-', '.', '^', '_', '`', '|', '~'}
  }

  function Upper(c: char): char {
    if 'a' <= c <= 'z' then (c as int - 32) as char else c
  }

  function Lower(c: char): char {
    if 'A' <= c <= 'Z' then (c as int + 32) as char else c
  }

  predicate IsToken(s: string) {
    forall i :: 0 <= i < |s| ==> TokenChar(s[i])
  }

  /** A capital at the start and after each hyphen; keys that are not tokens are left alone. */
  function Canonical(s: string): (key: string)
    ensures |key| == |s|
  {
    if IsToken(s) then
      seq(|s|, i requires 0 <= i < |s| => if i == 0 || s[i - 1] == '-' then Upper(s[i]) else Lower(s[i]))
    else s
  }

  lemma CaseOfTokens(c: char)
    requires TokenChar(c)
    ensures TokenChar(Upper(c)) && TokenChar(Lower(c))
    ensures Upper(Upper(c)) == Upper(c) && Lower(Lower(c)) == Lower(c)
    ensures (Upper(c) == '-' <==> c == '-') && (Lower(c) == '-' <==> c == '-')
  {
  }

  lemma CanonicalIdempotent(s: string)
    ensures Canonical(Canonical(s)) == Canonical(s)
  {
    hide TokenChar, Upper, Lower;
    var t := Canonical(s);
    if IsToken(s) {
      forall i | 0 <= i < |s|
        ensures TokenChar(t[i]) && (t[i] == '-' <==> s[i] == '-')
        ensures Upper(Upper(s[i])) == Upper(s[i]) && Lower(Lower(s[i])) == Lower(s[i])
      {
        CaseOfTokens(s[i]);
      }
    }
  }

  const SUBJECT: string := "X-Authenticated-Subject"
  const EMAIL: string := "X-Authenticated-Email"
  const SCOPES: string := "X-Authenticated-Scopes"
  const AUTHORIZATION: string := "Authorization"
  const COOKIE: string := "Cookie"

  predicate Trusted(key: string) {
    key == SUBJECT || key == EMAIL || key == SCOPES
  }

  /** Keys a route may not set. */
  predicate Reserved(key: string) {
    Trusted(key) || key == AUTHORIZATION || key == COOKIE
  }

  lemma SubjectIsCanonical()
    ensures Canonical(SUBJECT) == SUBJECT
  {
  }

  lemma EmailIsCanonical()
    ensures Canonical(EMAIL) == EMAIL
  {
  }

  lemma ScopesIsCanonical()
    ensures Canonical(SCOPES) == SCOPES
  {
  }

  lemma AuthorizationIsCanonical()
    ensures Canonical(AUTHORIZATION) == AUTHORIZATION
  {
  }

  lemma TrustedKeysAreCanonical()
    ensures Canonical(SUBJECT) == SUBJECT && Canonical(EMAIL) == EMAIL && Canonical(SCOPES) == SCOPES
    ensures Canonical(AUTHORIZATION) == AUTHORIZATION
  {
    hide Canonical;
    SubjectIsCanonical();
    EmailIsCanonical();
    ScopesIsCanonical();
    AuthorizationIsCanonical();
  }

  /** The same characters except for the case of letters. */
  predicate SameLetters(a: string, b: string) {
    |a| == |b| && forall i :: 0 <= i < |a| ==> Lower(a[i]) == Lower(b[i])
  }

  lemma CaseIrrelevant(c: char, d: char)
    requires Lower(c) == Lower(d)
    ensures TokenChar(c) <==> TokenChar(d)
    ensures Upper(c) == Upper(d) && (c == '-' <==> d == '-')
  {
  }

  /** Spellings of one key that differ in the case of letters have one canonical form. */
  lemma SpellingIrrelevant(a: string, b: string)
    requires SameLetters(a, b) && IsToken(a)
    ensures IsToken(b) && Canonical(a) == Canonical(b)
  {
    hide TokenChar, Upper, Lower;
    forall i | 0 <= i < |a|
      ensures (TokenChar(a[i]) <==> TokenChar(b[i])) && Upper(a[i]) == Upper(b[i]) && Lower(a[i]) == Lower(b[i])
      ensures a[i] == '-' <==> b[i] == '-'
    {
      CaseIrrelevant(a[i], b[i]);
    }
  }

  lemma CookieIsCanonical()
    ensures IsToken("Cookie") && Canonical("Cookie") == "Cookie"
  {
  }

  lemma ReservedAreTokens()
    ensures IsToken("X-Authenticated-Subject") && IsToken("X-Authenticated-Email")
    ensures IsToken("X-Authenticated-Scopes") && IsToken("Authorization")
  {
  }

  /** The keys a route may not set are these five, in any spelling. */
  lemma ReservedInAnySpelling(key: string)
    ensures Reserved(key) <==> key in {"X-Authenticated-Subject", "X-Authenticated-Email", "X-Authenticated-Scopes",
                                       "Authorization", "Cookie"}
    ensures (exists name :: Reserved(name) && SameLetters(name, key)) ==> Reserved(Canonical(key))
  {
    hide Canonical, SameLetters, IsToken;
    TrustedKeysAreCanonical();
    CookieIsCanonical();
    ReservedAreTokens();
    if name :| Reserved(name) && SameLetters(name, key) {
      SpellingIrrelevant(name, key);
    }
  }

  function Set(h: Header, key: string, value: string): Header {
    h[Canonical(key) := [value]]
  }

  function Del(h: Header, key: string): Header {
    h - {Canonical(key)}
  }

  function Get(h: Header, key: string): string {
    if Canonical(key) in h && h[Canonical(key)] != [] then h[Canonical(key)][0] else ""
  }

  // ---------- Authentication ----------

  datatype Claims = Claims(subject: string, email: string, scopes: seq<string>, expiry: int, nonce: string)

  predicate ValidClaims(c: Claims, now: int) {
    c.subject != "" && now < c.expiry
  }

  /** The authenticator: how a session cookie is found and opened (with the key of this process), and
      how a bearer token is verified, if at all. */
  datatype Middleware = Middleware(mode: string, cookie: Header -> Option<string>, open: string -> Option<Claims>,
                                   verify: Option<string -> Option<Claims>>, trim: string -> string)

  const BEARER: string := "Bearer "

  function Authenticate(m: Middleware, h: Header, now: int): (identity: Option<Claims>)
    ensures identity.Some? ==> ValidClaims(identity.value, now)
  {
    var session := match m.cookie(h)
      case None => None
      case Some(value) =>
        match m.open(value)
        case Some(claims) => if ValidClaims(claims, now) then Some(claims) else None
        case None => None;
    var header := Get(h, AUTHORIZATION);
    if session.Some? then session
    else if m.mode == "bearer" || header != "" then
      if !(BEARER <= header) || m.verify.None? then None
      else match m.verify.value(m.trim(header[|BEARER|..]))
        case Some(claims) => if ValidClaims(claims, now) then Some(claims) else None
        case None => None
    else None
  }

  /** The claims of a session cookie that opens and is still valid. */
  function SessionOf(m: Middleware, h: Header, now: int): Option<Claims> {
    match m.cookie(h)
    case None => None
    case Some(value) =>
      match m.open(value)
      case None => None
      case Some(claims) => if claims.subject != "" && now < claims.expiry then Some(claims) else None
  }

  /** The token of an Authorization header of the form "Bearer token", its first value alone. */
  function TokenOf(m: Middleware, h: Header): Option<string> {
    if "Authorization" in h && h["Authorization"] != [] && "Bearer " <= h["Authorization"][0] then
      Some(m.trim(h["Authorization"][0][7..]))
    else None
  }

  /** A valid session decides who it is.  Without one, a bearer token does, if there is a verifier that accepts it
      and its claims are valid; nobody else gets in, in whatever mode. */
  lemma AuthenticatesExactly(m: Middleware, h: Header, now: int)
    ensures SessionOf(m, h, now).Some? ==> Authenticate(m, h, now) == SessionOf(m, h, now)
    ensures SessionOf(m, h, now).None? ==>
              forall claims :: Authenticate(m, h, now) == Some(claims) <==>
                && TokenOf(m, h).Some? && m.verify.Some? && m.verify.value(TokenOf(m, h).value) == Some(claims)
                && claims.subject != "" && now < claims.expiry
  {
    AuthorizationIsCanonical();
    hide Canonical;
    assert |BEARER| == 7;
  }

  predicate Covers(granted: seq<string>, required: seq<string>) {
    forall i :: 0 <= i < |required| ==> required[i] in granted
  }

  method HasScopes(granted: seq<string>, required: seq<string>) returns (ok: bool)
    ensures ok == Covers(granted, required)
  {
    var known: set<string> := {};
    for i := 0 to |granted|
      invariant known == set s | s in granted[..i]
    {
      assert granted[..i + 1] == granted[..i] + [granted[i]];
      known := known + {granted[i]};
    }
    assert granted[..|granted|] == granted;
    for i := 0 to |required|
      invariant forall k :: 0 <= k < i ==> required[k] in granted
    {
      if required[i] !in known {
        return false;
      }
    }
    return true;
  }

  function Join(words: seq<string>): string {
    if words == [] then ""
    else if |words| == 1 then words[0]
    else words[0] + " " + Join(words[1..])
  }

  /** One word stands for itself, and a space stands between any two lists of words. */
  lemma {:induction false} JoinedBySpaces(a: seq<string>, b: seq<string>)
    ensures |a| == 1 ==> Join(a) == a[0]
    ensures a != [] && b != [] ==> Join(a + b) == Join(a) + " " + Join(b)
  {
    if |a| <= 1 || b == [] {
      if |a| == 1 { assert (a + b)[1..] == b; }
    } else {
      assert (a + b)[1..] == a[1..] + b;
      JoinedBySpaces(a[1..], b);
    }
  }

  // ---------- The request on its way ----------

  /** What the routing table says about a request, in some order of iteration over the route's headers. */
  datatype Route = Route(requireAuth: bool, scopes: seq<string>, headers: seq<(string, string)>)

  datatype Outcome = Proxied | Unauthorized | Forbidden | NotConfigured | Unavailable

  function AppliedHeaders(h: Header, entries: seq<(string, string)>): Header {
    if entries == [] then h
    else
      var g := AppliedHeaders(h, entries[..|entries| - 1]);
      var (key, value) := entries[|entries| - 1];
      if Reserved(Canonical(key)) then g else g[Canonical(key) := [value]]
  }

  function Stripped(h: Header): Header {
    h - {SUBJECT, EMAIL, SCOPES}
  }

  /** A route that requires it is entered by an authenticated identity that holds its scopes. */
  predicate Permitted(route: Route, authorizer: Option<Middleware>, h: Header, now: int) {
    route.requireAuth ==>
      && authorizer.Some?
      && var identity := Authenticate(authorizer.value, Stripped(h), now);
         identity.Some? && Covers(identity.value.scopes, route.scopes)
  }

  /** The three trusted headers are those of this identity. */
  predicate Identified(h: Header, id: Claims) {
    && SUBJECT in h && h[SUBJECT] == [id.subject]
    && (EMAIL in h <==> id.email != "")
    && (EMAIL in h ==> h[EMAIL] == [id.email])
    && SCOPES in h && h[SCOPES] == [Join(id.scopes)]
  }

  predicate Anonymous(h: Header) {
    SUBJECT !in h && EMAIL !in h && SCOPES !in h
  }

  /** Two headers have the same values under a key, or both have none. */
  predicate SameAt(g: Header, h: Header, key: string) {
    (key in g <==> key in h) && (key in g ==> g[key] == h[key])
  }

  lemma {:induction false} AppliedPointwise(g: Header, h: Header, entries: seq<(string, string)>, key: string)
    requires SameAt(g, h, key)
    ensures SameAt(AppliedHeaders(g, entries), AppliedHeaders(h, entries), key)
  {
    if entries == [] {
    } else {
      AppliedPointwise(g, h, entries[..|entries| - 1], key);
    }
  }

  /** Route headers change no reserved header. */
  lemma {:induction false} ReservedUntouched(h: Header, entries: seq<(string, string)>, key: string)
    requires Reserved(key)
    ensures SameAt(AppliedHeaders(h, entries), h, key)
  {
    if entries == [] {
    } else {
      ReservedUntouched(h, entries[..|entries| - 1], key);
    }
  }

  class Request {
    var header: Header

    constructor (header: Header)
      ensures this.header == header
    {
      this.header := header;
    }

    method StripTrusted()
      modifies this
      ensures header == old(header) - {SUBJECT, EMAIL, SCOPES}
    {
      TrustedKeysAreCanonical();
      header := Del(header, SUBJECT);
      header := Del(header, EMAIL);
      header := Del(header, SCOPES);
    }

    method Authorize(m: Middleware, required: seq<string>, now: int) returns (outcome: Outcome)
      modifies this
      ensures outcome.Proxied? <==>
                && Authenticate(m, old(header), now).Some?
                && Covers(Authenticate(m, old(header), now).value.scopes, required)
      ensures outcome.Unauthorized? <==> Authenticate(m, old(header), now).None?
      ensures outcome in {Proxied, Unauthorized, Forbidden}
      ensures !outcome.Proxied? ==> header == old(header)
      ensures outcome.Proxied? ==> Identified(header, Authenticate(m, old(header), now).value)
      ensures outcome.Proxied? ==> forall k :: !Trusted(k) ==> SameAt(header, old(header), k)
    {
      hide Authenticate, Covers, Canonical;
      var identity := Authenticate(m, header, now);
      if identity.None? {
        return Unauthorized;
      }
      var enough := HasScopes(identity.value.scopes, required);
      if !enough {
        return Forbidden;
      }
      TrustedKeysAreCanonical();
      StripTrusted();
      header := Set(header, SUBJECT, identity.value.subject);
      if identity.value.email != "" {
        header := Set(header, EMAIL, identity.value.email);
      }
      header := Set(header, SCOPES, Join(identity.value.scopes));
      return Proxied;
    }

    method ApplyRouteHeaders(entries: seq<(string, string)>)
      modifies this
      ensures header == AppliedHeaders(old(header), entries)
    {
      for i := 0 to |entries|
        invariant header == AppliedHeaders(old(header), entries[..i])
      {
        var (key, value) := entries[i];
        var canonical := Canonical(key);
        CanonicalIdempotent(key);
        if !Reserved(canonical) {
          header := Set(header, canonical, value);
        }
        assert entries[..i + 1][..i] == entries[..i];
      }
      assert entries[..|entries|] == entries;
    }

    /** The part of the request handler between routing and proxying.  Whatever the client sent and
        whatever headers the route adds, a proxied request carries exactly the identity that was
        authenticated, or none on a public route; its credentials are those the client sent. */
    method Prepare(route: Route, authorizer: Option<Middleware>, healthy: bool, now: int) returns (outcome: Outcome)
      modifies this
      ensures outcome.Proxied? <==> healthy && Permitted(route, authorizer, old(header), now)
      ensures outcome.Unavailable? <==> !healthy && Permitted(route, authorizer, old(header), now)
      ensures outcome.Proxied? && route.requireAuth ==>
                Identified(header, Authenticate(authorizer.value, Stripped(old(header)), now).value)
      ensures outcome.Proxied? && !route.requireAuth ==> Anonymous(header)
      ensures outcome.Proxied? ==> forall k :: Reserved(k) && !Trusted(k) ==> SameAt(header, old(header), k)
      ensures outcome.Proxied? ==> forall k :: !Trusted(k) ==>
                SameAt(header, AppliedHeaders(old(header), route.headers), k)
      ensures outcome.NotConfigured? <==> route.requireAuth && authorizer.None?
    {
      StripTrusted();
      if route.requireAuth {
        if authorizer.None? {
          return NotConfigured;
        }
        outcome := Authorize(authorizer.value, route.scopes, now);
        if !outcome.Proxied? {
          return;
        }
      }
      if !healthy {
        return Unavailable;
      }
      ReservedUntouched(header, route.headers, SUBJECT);
      ReservedUntouched(header, route.headers, EMAIL);
      ReservedUntouched(header, route.headers, SCOPES);
      forall k | Reserved(k) ensures SameAt(AppliedHeaders(header, route.headers), header, k) {
        ReservedUntouched(header, route.headers, k);
      }
      forall k | !Trusted(k)
        ensures SameAt(AppliedHeaders(header, route.headers), AppliedHeaders(old(header), route.headers), k)
      {
        AppliedPointwise(header, old(header), route.headers, k);
      }
      ApplyRouteHeaders(route.headers);
      return Proxied;
    }
  }

  lemma SameEverywhere(g: Header, h: Header)
    requires forall key :: SameAt(g, h, key)
    ensures g == h
  {
    forall key ensures (key in g <==> key in h) && (key in g ==> g[key] == h[key]) {
      assert SameAt(g, h, key);
    }
  }

  // ---------- Does the order of a route's headers matter? ----------

  /** A complete list of the entries of a map, each once, in some order. */
  ghost predicate Enumerates(entries: seq<(string, string)>, m: map<string, string>) {
    && (forall i :: 0 <= i < |entries| ==> entries[i].0 in m && entries[i].1 == m[entries[i].0])
    && (forall k :: k in m ==> exists i :: 0 <= i < |entries| && entries[i].0 == k)
    && (forall i, j :: 0 <= i < j < |entries| ==> entries[i].0 != entries[j].0)
  }

  predicate Sets(entry: (string, string), key: string) {
    Canonical(entry.0) == key && !Reserved(key)
  }

  ghost predicate LastSet(entries: seq<(string, string)>, key: string, i: int) {
    && 0 <= i < |entries| && Sets(entries[i], key)
    && forall j :: i < j < |entries| ==> !Sets(entries[j], key)
  }

  ghost predicate Unset(entries: seq<(string, string)>, key: string) {
    forall i :: 0 <= i < |entries| ==> !Sets(entries[i], key)
  }

  lemma LastSetSurvives(entries: seq<(string, string)>, key: string, i: int)
    requires entries != [] && !Sets(entries[|entries| - 1], key)
    ensures LastSet(entries, key, i) <==> LastSet(entries[..|entries| - 1], key, i)
    ensures Unset(entries, key) <==> Unset(entries[..|entries| - 1], key)
  {
    hide Sets;
    var rest := entries[..|entries| - 1];
    assert forall j :: 0 <= j < |rest| ==> rest[j] == entries[j];
  }

  lemma UnsetStep(h: Header, entries: seq<(string, string)>, key: string)
    requires entries != [] && !Sets(entries[|entries| - 1], key)
    ensures SameAt(AppliedHeaders(h, entries), AppliedHeaders(h, entries[..|entries| - 1]), key)
  {
  }

  /** A header that no entry sets stays as it was. */
  lemma {:induction false} UnsetValue(h: Header, entries: seq<(string, string)>, key: string)
    requires Unset(entries, key)
    ensures SameAt(AppliedHeaders(h, entries), h, key)
  {
    if entries == [] {
    } else {
      assert !Sets(entries[|entries| - 1], key);
      UnsetValue(h, entries[..|entries| - 1], key);
      UnsetStep(h, entries, key);
    }
  }

  /** A header that some entry sets has the value of the last such entry. */
  lemma {:induction false} LastSetValue(h: Header, entries: seq<(string, string)>, key: string, i: int)
    requires LastSet(entries, key, i)
    ensures var g := AppliedHeaders(h, entries); key in g && g[key] == [entries[i].1]
  {
    var last := |entries| - 1;
    if i < last {
      assert !Sets(entries[last], key);
      LastSetSurvives(entries, key, i);
      LastSetValue(h, entries[..last], key, i);
      UnsetStep(h, entries, key);
    }
  }

  lemma {:induction false} SomeLastSet(entries: seq<(string, string)>, key: string) returns (i: int)
    requires !Unset(entries, key)
    ensures LastSet(entries, key, i)
  {
    i := |entries| - 1;
    if !Sets(entries[i], key) {
      LastSetSurvives(entries, key, i);
      i := SomeLastSet(entries[..i], key);
      LastSetSurvives(entries, key, i);
    }
  }

  /** Entries that end up under the same key, if any does, agree on the value. */
  ghost predicate Consistent(m: map<string, string>) {
    forall j, k :: j in m && k in m && Canonical(j) == Canonical(k) && !Reserved(Canonical(j)) ==> m[j] == m[k]
  }

  lemma SameSetters(m: map<string, string>, a: seq<(string, string)>, b: seq<(string, string)>, key: string)
    requires Enumerates(a, m) && Enumerates(b, m)
    ensures Unset(a, key) <==> Unset(b, key)
  {
  }

  lemma SameValue(h: Header, m: map<string, string>, a: seq<(string, string)>, b: seq<(string, string)>, key: string)
    requires Consistent(m) && Enumerates(a, m) && Enumerates(b, m)
    ensures SameAt(AppliedHeaders(h, a), AppliedHeaders(h, b), key)
  {
    hide Canonical, Reserved, AppliedHeaders;
    SameSetters(m, a, b, key);
    if Unset(a, key) {
      UnsetValue(h, a, key);
      UnsetValue(h, b, key);
    } else {
      var i := SomeLastSet(a, key);
      var j := SomeLastSet(b, key);
      LastSetValue(h, a, key, i);
      LastSetValue(h, b, key, j);
      assert m[a[i].0] == m[b[j].0];
    }
  }

  lemma ConsistentOrderIrrelevant(h: Header, m: map<string, string>, a: seq<(string, string)>, b: seq<(string, string)>)
    requires Consistent(m) && Enumerates(a, m) && Enumerates(b, m)
    ensures AppliedHeaders(h, a) == AppliedHeaders(h, b)
  {
    hide Enumerates, AppliedHeaders, Consistent;
    forall key ensures SameAt(AppliedHeaders(h, a), AppliedHeaders(h, b), key) {
      SameValue(h, m, a, b, key);
    }
    SameEverywhere(AppliedHeaders(h, a), AppliedHeaders(h, b));
  }

  lemma ExtendEnumeration(entries: seq<(string, string)>, m: map<string, string>, key: string, value: string)
    returns (more: seq<(string, string)>)
    requires Enumerates(entries, m) && key !in m
    ensures more == entries + [(key, value)] && Enumerates(more, m[key := value])
  {
    more := entries + [(key, value)];
    assert more[|entries|].0 == key;
    var m' := m[key := value];
    forall k | k in m' ensures exists i :: 0 <= i < |more| && more[i].0 == k {
      if k in m {
        var i :| 0 <= i < |entries| && entries[i].0 == k;
        assert more[i].0 == k;
      }
    }
  }

  lemma Enumerate(m: map<string, string>) returns (entries: seq<(string, string)>)
    ensures Enumerates(entries, m)
    decreases |m|
  {
    if m == map[] {
      return [];
    }
    var key :| key in m;
    var rest := m - {key};
    assert |rest| < |m| by { assert rest.Keys == m.Keys - {key}; assert |rest| == |rest.Keys|; assert |m| == |m.Keys|; }
    entries := Enumerate(rest);
    entries := ExtendEnumeration(entries, rest, key, m[key]);
    assert rest[key := m[key]] == m;
  }

  lemma TwoOrders(m: map<string, string>, j: string, k: string)
    returns (a: seq<(string, string)>, b: seq<(string, string)>)
    requires j in m && k in m && j != k
    ensures Enumerates(a, m) && a != [] && a[|a| - 1] == (k, m[k])
    ensures Enumerates(b, m) && b != [] && b[|b| - 1] == (j, m[j])
  {
    var rest := m - {j, k};
    var entries := Enumerate(rest);
    a := ExtendEnumeration(entries, rest, j, m[j]);
    a := ExtendEnumeration(a, rest[j := m[j]], k, m[k]);
    b := ExtendEnumeration(entries, rest, k, m[k]);
    b := ExtendEnumeration(b, rest[k := m[k]], j, m[j]);
    assert rest[j := m[j]][k := m[k]] == m == rest[k := m[k]][j := m[j]];
  }

  lemma InconsistentOrdersDiffer(h: Header, m: map<string, string>)
    requires !Consistent(m)
    ensures exists a, b :: Enumerates(a, m) && Enumerates(b, m) && AppliedHeaders(h, a) != AppliedHeaders(h, b)
  {
    hide Canonical, Reserved, AppliedHeaders, Enumerates;
    var j, k :| j in m && k in m && Canonical(j) == Canonical(k) && !Reserved(Canonical(j)) && m[j] != m[k];
    var key := Canonical(j);
    var a, b := TwoOrders(m, j, k);
    LastSetValue(h, a, key, |a| - 1);
    LastSetValue(h, b, key, |b| - 1);
    assert AppliedHeaders(h, a)[key] != AppliedHeaders(h, b)[key];
  }

  /** Iteration order matters for exactly the inconsistent maps: there, two orders of the same
      entries give different requests. */
  lemma OrderMattersIff(h: Header, m: map<string, string>)
    ensures (forall a, b :: Enumerates(a, m) && Enumerates(b, m) ==> AppliedHeaders(h, a) == AppliedHeaders(h, b))
            <==> Consistent(m)
  {
    hide Enumerates, AppliedHeaders, Consistent;
    if Consistent(m) {
      forall a, b | Enumerates(a, m) && Enumerates(b, m) ensures AppliedHeaders(h, a) == AppliedHeaders(h, b) {
        ConsistentOrderIrrelevant(h, m, a, b);
      }
    } else {
      InconsistentOrdersDiffer(h, m);
    }
  }
}
