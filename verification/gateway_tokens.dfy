/**
 Service tokens as texts: how a token is split at its dots, exactly which texts pass, and that a token
 signed by one guest's gateway passes at the port it was signed for and nowhere else.
 */
module GatewayTokens {
  import opened Results
  import opened Ports
  import opened GatewayReplay
  import G = GatewayConfig

  // ---------------------------------------------------------------- segments

  predicate NoDot(s: string) {
    '.' !in s
  }

  function Dots(s: string): nat {
    if s == [] then 0 else (if s[0] == '.' then 1 else 0) + Dots(s[1..])
  }

  /** Texts joined by dots. */
  function Dotted(parts: seq<string>): string
    requires parts != []
  {
    if |parts| == 1 then parts[0] else parts[0] + "." + Dotted(parts[1..])
  }

  ghost predicate AllNoDot(parts: seq<string>) {
    forall i :: 0 <= i < |parts| ==> NoDot(parts[i])
  }

  lemma DottedCons(c: char, parts: seq<string>)
    requires parts != []
    ensures Dotted([[c] + parts[0]] + parts[1..]) == [c] + Dotted(parts)
  {
    var more := [[c] + parts[0]] + parts[1..];
    assert more[1..] == parts[1..];
    if |parts| == 1 {
      assert Dotted(more) == [c] + parts[0];
    } else {
      assert [c] + parts[0] + "." + Dotted(parts[1..]) == [c] + (parts[0] + "." + Dotted(parts[1..]));
    }
  }

  lemma DottedEmpty(parts: seq<string>)
    requires parts != []
    ensures Dotted([""] + parts) == "." + Dotted(parts)
  {
    assert ([""] + parts)[1..] == parts;
    assert "" + "." + Dotted(parts) == "." + Dotted(parts);
  }

  /** The segments hold no dot, give back the token when joined by dots, and are one more than its dots. */
  lemma {:induction false} SegmentsAreTheParts(s: string)
    ensures AllNoDot(Segments(s)) && Dotted(Segments(s)) == s && |Segments(s)| == Dots(s) + 1
  {
    if s != [] {
      var parts := Segments(s[1..]);
      SegmentsAreTheParts(s[1..]);
      assert s == [s[0]] + s[1..];
      if s[0] == '.' {
        DottedEmpty(parts);
      } else {
        DottedCons(s[0], parts);
      }
    }
  }

  lemma {:induction false} OneSegment(a: string)
    requires NoDot(a)
    ensures Segments(a) == [a]
  {
    if a != [] {
      OneSegment(a[1..]);
      assert a == [a[0]] + a[1..];
    }
  }

  /** The text before the first dot is the first segment. */
  lemma {:induction false} FirstSegment(a: string, rest: string)
    requires NoDot(a)
    ensures Segments(a + "." + rest) == [a] + Segments(rest)
  {
    var s := a + "." + rest;
    if a == [] {
      assert s[1..] == rest;
    } else {
      assert s[1..] == a[1..] + "." + rest;
      FirstSegment(a[1..], rest);
      assert a == [a[0]] + a[1..];
      assert ([a[1..]] + Segments(rest))[1..] == Segments(rest);
    }
  }

  /** Three texts without dots, joined by dots, are the segments of the token. */
  lemma ThreeSegments(a: string, b: string, c: string)
    requires NoDot(a) && NoDot(b) && NoDot(c)
    ensures Segments(a + "." + b + "." + c) == [a, b, c]
  {
    assert a + "." + b + "." + c == a + "." + (b + "." + c);
    FirstSegment(a, b + "." + c);
    FirstSegment(b, c);
    OneSegment(c);
  }

  // ---------------------------------------------------------------- which tokens pass

  /** A token of three texts without dots passes all checks before the replay cache exactly when its header
      is accepted and its claims name this audience, have not expired, were not issued later than the skew
      allows, and come from a trusted issuer whose key signed the first two texts. */
  lemma TokenPassesExactly(v: Verifier, a: string, b: string, c: string, now: Time)
    requires NoDot(a) && NoDot(b) && NoDot(c)
    ensures CheckToken(v, a + "." + b + "." + c, now).Ok? <==>
      && v.header(a) && v.claims(b).Some?
      && var claims := v.claims(b).value;
         && claims.aud == v.audience && now <= claims.exp && claims.iat <= (now + 30) % 0x1_0000_0000_0000_0000
         && claims.iss in v.trusted && v.signs(v.trusted[claims.iss], a + "." + b, c)
    ensures CheckToken(v, a + "." + b + "." + c, now).Ok? ==>
      Some(CheckToken(v, a + "." + b + "." + c, now).value) == v.claims(b)
  {
    ThreeSegments(a, b, c);
  }

  /** Any other number of dots than two is refused. */
  lemma OtherDotsRefused(v: Verifier, token: string, now: Time)
    ensures CheckToken(v, token, now) == Err(NotThreeSegments) <==> Dots(token) != 2
  {
    SegmentsAreTheParts(token);
  }

  // ---------------------------------------------------------------- signing

  const DEFAULT_TTL := 60

  /** A gateway's identity: the texts it writes and the signatures it makes. */
  datatype Signer = Signer(
    serviceId: string, header: string, claims: Claims -> string, sign: string -> string, ttl: Option<nat>)

  /** The claims of a token for a service's port; the sum wraps around as in a release build. */
  function IssuedClaims(s: Signer, target: string, port: Port, now: Time, jti: string): Claims {
    var ttl := if s.ttl.Some? then s.ttl.value else DEFAULT_TTL;
    Claims(s.serviceId, G.Audience(target, port), now, (now + ttl) % U64_SIZE, jti)
  }

  function SignToken(s: Signer, target: string, port: Port, now: Time, jti: string): string {
    var message := s.header + "." + s.claims(IssuedClaims(s, target, port, now, jti));
    message + "." + s.sign(message)
  }

  /** The verifier trusts the signer and reads what it writes; base64url has no dot. */
  ghost predicate Trusts(v: Verifier, s: Signer) {
    && v.header(s.header) && NoDot(s.header)
    && (forall c :: NoDot(s.claims(c)) && v.claims(s.claims(c)) == Some(c))
    && s.serviceId in v.trusted
    && (forall m :: NoDot(s.sign(m)) && v.signs(v.trusted[s.serviceId], m, s.sign(m)))
  }

  /** A token signed for one port of one service passes behind that port of that service and nowhere else,
      from the skew before it was signed until its lifetime has passed. */
  lemma SignedTokenPassesExactly(v: Verifier, s: Signer, target: string, port: Port, now: Time, jti: string,
                                 service: string, at: Port, later: Time)
    requires Trusts(v, s) && v.audience == G.Audience(service, at)
    requires now + (if s.ttl.Some? then s.ttl.value else 60) < U64_SIZE && later + CLOCK_SKEW < U64_SIZE
    ensures CheckToken(v, SignToken(s, target, port, now, jti), later).Ok? <==>
      && service == target && at == port
      && now <= later + 30 && later <= now + if s.ttl.Some? then s.ttl.value else 60
  {
    var claims := IssuedClaims(s, target, port, now, jti);
    var a, b := s.header, s.claims(claims);
    TokenPassesExactly(v, a, b, s.sign(a + "." + b), later);
    G.AudienceInjective(service, at, target, port);
  }

  /** What the verifier learns are the claims that were signed. */
  lemma SignedClaimsAreRead(v: Verifier, s: Signer, target: string, port: Port, now: Time, jti: string, later: Time)
    requires Trusts(v, s) && CheckToken(v, SignToken(s, target, port, now, jti), later).Ok?
    ensures var claims := CheckToken(v, SignToken(s, target, port, now, jti), later).value;
      claims.iss == s.serviceId && claims.jti == jti && claims.aud == G.Audience(target, port) && claims.iat == now
  {
    var a, b := s.header, s.claims(IssuedClaims(s, target, port, now, jti));
    TokenPassesExactly(v, a, b, s.sign(a + "." + b), later);
  }
}
