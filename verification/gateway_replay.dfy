/**
 Service tokens (JWS compact serialization, section 7.1 of RFC 7515, with the claims of section 4.1 of
 RFC 7519) and the replay cache behind them.

 Base64, JSON and Ed25519 are parameters: `Verifier` holds how a segment is decoded and which
 signatures a key makes. Times are unsigned 64-bit seconds and sums wrap around, as in a release build.
 */
module GatewayReplay {
  import opened Results

  const CLOCK_SKEW := 30

  const U64_SIZE := 0x1_0000_0000_0000_0000

  type Time = n: nat | n < U64_SIZE

  /** Addition of the clock skew to a 64-bit time. */
  function PlusSkew(t: Time): (r: Time)
    ensures t + CLOCK_SKEW < U64_SIZE ==> r == t + CLOCK_SKEW
  {
    (t + CLOCK_SKEW) % U64_SIZE
  }

  // ---------------------------------------------------------------- the replay cache

  /** Token identifiers with their expiry. */
  type Entries = map<string, Time>

  function Retained(entries: Entries, now: Time): Entries {
    map jti | jti in entries && PlusSkew(entries[jti]) >= now :: entries[jti]
  }

  class ReplayCache {
    var entries: Entries

    constructor ()
      ensures entries == map[]
    {
      entries := map[];
    }

    /** Purges on every call, also on one that is refused. */
    method Insert(jti: string, exp: Time, now: Time) returns (isNew: bool)
      modifies this
      ensures isNew <==> !(jti in old(entries) && PlusSkew(old(entries)[jti]) >= now)
      ensures entries == if isNew then Retained(old(entries), now)[jti := exp] else Retained(old(entries), now)
    {
      entries := Retained(entries, now);
      if jti in entries {
        return false;
      }
      entries := entries[jti := exp];
      isNew := true;
    }
  }

  // ---------------------------------------------------------------- token verification

  datatype Claims = Claims(iss: string, aud: string, iat: Time, exp: Time, jti: string)

  datatype TokenError =
    | NotThreeSegments | BadHeader | BadClaims | WrongAudience | Expired | IssuedInFuture | UntrustedIssuer
    | BadSignature | Replayed

  /** `header` accepts a first segment, `claims` reads a second one, and `signs(key, message, segment)`
      says that the third one is the key's signature of the message. */
  datatype Verifier = Verifier(
    header: string -> bool, claims: string -> Option<Claims>, signs: (string, string, string) -> bool,
    trusted: map<string, string>, audience: string)

  function Segments(s: string): (parts: seq<string>)
    ensures parts != []
  {
    if s == [] then [""]
    else
      var parts := Segments(s[1..]);
      if s[0] == '.' then [""] + parts else [[s[0]] + parts[0]] + parts[1..]
  }

  /** Three segments with an accepted header, whose claims name this audience, have not expired, were
      not issued later than the skew allows, and are signed by a trusted issuer over the first two
      segments. */
  ghost predicate Acceptable(v: Verifier, parts: seq<string>, claims: Claims, now: Time) {
    && |parts| == 3 && v.header(parts[0]) && v.claims(parts[1]) == Some(claims)
    && claims.aud == v.audience && now <= claims.exp && claims.iat <= PlusSkew(now)
    && claims.iss in v.trusted && v.signs(v.trusted[claims.iss], parts[0] + "." + parts[1], parts[2])
  }

  /** All checks before the replay cache is asked, in the order they are made. */
  function CheckToken(v: Verifier, token: string, now: Time): (r: Result<Claims, TokenError>)
    ensures r.Ok? ==> Acceptable(v, Segments(token), r.value, now)
    ensures r.Err? ==> forall claims :: !Acceptable(v, Segments(token), claims, now)
  {
    var parts := Segments(token);
    if |parts| != 3 then Err(NotThreeSegments)
    else if !v.header(parts[0]) then Err(BadHeader)
    else
      match v.claims(parts[1])
      case None => Err(BadClaims)
      case Some(claims) =>
        if claims.aud != v.audience then Err(WrongAudience)
        else if claims.exp < now then Err(Expired)
        else if claims.iat > PlusSkew(now) then Err(IssuedInFuture)
        else if claims.iss !in v.trusted then Err(UntrustedIssuer)
        else if !v.signs(v.trusted[claims.iss], parts[0] + "." + parts[1], parts[2]) then Err(BadSignature)
        else Ok(claims)
  }

  /** One verification: its result and the cache it leaves. */
  function Verify(v: Verifier, entries: Entries, token: string, now: Time): (Result<Claims, TokenError>, Entries) {
    match CheckToken(v, token, now)
    case Err(error) => (Err(error), entries)
    case Ok(claims) =>
      var kept := Retained(entries, now);
      if claims.jti in kept then (Err(Replayed), kept) else (Ok(claims), kept[claims.jti := claims.exp])
  }

  method VerifyServiceToken(v: Verifier, cache: ReplayCache, token: string, now: Time)
    returns (r: Result<Claims, TokenError>)
    modifies cache
    ensures (r, cache.entries) == Verify(v, old(cache.entries), token, now)
  {
    var checked := CheckToken(v, token, now);
    if checked.Err? {
      return checked;
    }
    var isNew := cache.Insert(checked.value.jti, checked.value.exp, now);
    r := if isNew then checked else Err(Replayed);
  }

  // ---------------------------------------------------------------- runs of verifications

  /** A verification by one of the routes, each with its own audience, in the order in which the lock of
      the cache they share was taken. */
  datatype Call = Call(v: Verifier, token: string, now: Time)

  ghost function CacheAfter(calls: seq<Call>): Entries {
    if calls == [] then map[]
    else
      var last := calls[|calls| - 1];
      Verify(last.v, CacheAfter(calls[..|calls| - 1]), last.token, last.now).1
  }

  ghost function Outcome(calls: seq<Call>, i: nat): Result<Claims, TokenError>
    requires i < |calls|
  {
    Verify(calls[i].v, CacheAfter(calls[..i]), calls[i].token, calls[i].now).0
  }

  /** The latest time seen. */
  ghost function Peak(calls: seq<Call>): (peak: nat) {
    if calls == [] then 0
    else
      var before, now := Peak(calls[..|calls| - 1]), calls[|calls| - 1].now;
      if now > before then now else before
  }

  /** The clock never falls more than `slack` seconds below the latest time seen. */
  ghost predicate ClockWithin(calls: seq<Call>, slack: nat) {
    calls == [] ||
    (ClockWithin(calls[..|calls| - 1], slack) && calls[|calls| - 1].now + slack >= Peak(calls[..|calls| - 1]))
  }

  lemma {:induction false} ClockAt(calls: seq<Call>, slack: nat, j: nat)
    requires ClockWithin(calls, slack) && j < |calls|
    ensures calls[j].now + slack >= Peak(calls[..j])
  {
    if j < |calls| - 1 {
      ClockAt(calls[..|calls| - 1], slack, j);
      assert calls[..|calls| - 1][..j] == calls[..j];
    }
  }

  /** An accepted identifier stays in the cache until the latest time has left its token's lifetime and
      the clock skew behind. */
  lemma {:induction false} Remembered(calls: seq<Call>, i: nat)
    requires i < |calls| && Outcome(calls, i).Ok?
    ensures var claims := Outcome(calls, i).value;
      || (claims.jti in CacheAfter(calls) && CacheAfter(calls)[claims.jti] == claims.exp)
      || Peak(calls) > PlusSkew(claims.exp)
  {
    var n := |calls| - 1;
    if i < n {
      assert calls[..n][..i] == calls[..i];
      Remembered(calls[..n], i);
    }
  }

  /** Whatever the cache holds was put there by an accepted token. */
  lemma {:induction false} EntryAccepted(calls: seq<Call>, jti: string) returns (i: nat)
    requires jti in CacheAfter(calls)
    ensures i < |calls| && Outcome(calls, i).Ok?
    ensures Outcome(calls, i).value.jti == jti && Outcome(calls, i).value.exp == CacheAfter(calls)[jti]
  {
    var n := |calls| - 1;
    var before := CacheAfter(calls[..n]);
    if jti in before && before[jti] == CacheAfter(calls)[jti] {
      i := EntryAccepted(calls[..n], jti);
      assert calls[..n][..i] == calls[..i];
    } else {
      i := n;
    }
  }

  /** Call `i` accepted this identifier with an expiry that, the skew added as the cache adds it, has not
      passed at `now`. */
  ghost predicate StillCounts(calls: seq<Call>, i: nat, jti: string, now: nat)
    requires i < |calls|
  {
    var outcome := Outcome(calls, i);
    outcome.Ok? && outcome.value.jti == jti && PlusSkew(outcome.value.exp) >= now
  }

  lemma RefusalHasCause(calls: seq<Call>, jti: string, now: Time) returns (i: nat)
    requires jti in Retained(CacheAfter(calls), now)
    ensures i < |calls| && StillCounts(calls, i, jti, now)
  {
    i := EntryAccepted(calls, jti);
  }

  lemma CauseRefuses(calls: seq<Call>, i: nat, jti: string, now: Time)
    requires i < |calls| && StillCounts(calls, i, jti, now) && now >= Peak(calls)
    ensures jti in Retained(CacheAfter(calls), now)
  {
    Remembered(calls, i);
  }

  /** With a clock that does not go back, a token that passes all other checks is refused exactly when
      its identifier was accepted before with an expiry that has not passed yet, skew included. */
  lemma RefusedExactlyAsReplay(v: Verifier, before: seq<Call>, token: string, now: Time, jti: string)
    requires now >= Peak(before)
    requires CheckToken(v, token, now).Ok? && CheckToken(v, token, now).value.jti == jti
    ensures Verify(v, CacheAfter(before), token, now).0 == Err(Replayed)
      <==> exists i :: 0 <= i < |before| && StillCounts(before, i, jti, now)
  {
    if jti in Retained(CacheAfter(before), now) {
      var i := RefusalHasCause(before, jti, now);
    }
    forall i | 0 <= i < |before| && StillCounts(before, i, jti, now)
      ensures jti in Retained(CacheAfter(before), now)
    {
      CauseRefuses(before, i, jti, now);
    }
  }

  /** While the clock stays within the skew, a token identifier with its expiry is accepted at most once,
      although entries are purged on every insertion. */
  lemma AcceptedAtMostOnce(calls: seq<Call>, i: nat, j: nat)
    requires i < j < |calls| && ClockWithin(calls, CLOCK_SKEW)
    requires Outcome(calls, i).Ok? && Outcome(calls, j).Ok?
    requires Outcome(calls, i).value.exp + CLOCK_SKEW < U64_SIZE
    ensures var a, b := Outcome(calls, i).value, Outcome(calls, j).value;
      a.jti != b.jti || a.exp != b.exp
  {
    assert calls[..j][..i] == calls[..i] && calls[..j][i] == calls[i];
    assert Outcome(calls[..j], i) == Outcome(calls, i);
    Remembered(calls[..j], i);
    ClockAt(calls, CLOCK_SKEW, j);
  }

  /** The bound on the expiry is exact: an accepted token shown again at once, or later within its
      lifetime, is accepted again exactly when its expiry plus the skew wraps around to before `later`. */
  lemma ReplayNeedsWrap(v: Verifier, entries: Entries, token: string, now: Time, later: Time)
    requires Verify(v, entries, token, now).0.Ok? && now <= later && later + CLOCK_SKEW < U64_SIZE
    requires later <= Verify(v, entries, token, now).0.value.exp
    ensures var claims, after := Verify(v, entries, token, now).0.value, Verify(v, entries, token, now).1;
      Verify(v, after, token, later).0.Ok?
      <==> claims.exp + CLOCK_SKEW >= U64_SIZE && claims.exp + CLOCK_SKEW - U64_SIZE < later
  {
    var claims := Verify(v, entries, token, now).0.value;
    assert CheckToken(v, token, now) == Ok(claims);
    assert CheckToken(v, token, later) == Ok(claims);
  }

  /** The bound on the clock is exact as well: let it fall by one second more than the skew, and another
      token's insertion in between, on any route, lets the first one in again. */
  lemma SkewIsTight(v: Verifier, w: Verifier, token: string, other: string, exp: Time)
    requires exp + CLOCK_SKEW + 1 < U64_SIZE
    requires CheckToken(v, token, exp).Ok? && CheckToken(v, token, exp).value.exp == exp
    requires CheckToken(w, other, exp + CLOCK_SKEW + 1).Ok?
    requires CheckToken(w, other, exp + CLOCK_SKEW + 1).value.jti != CheckToken(v, token, exp).value.jti
    ensures var calls := [Call(v, token, exp), Call(w, other, exp + CLOCK_SKEW + 1), Call(v, token, exp)];
      && ClockWithin(calls, CLOCK_SKEW + 1) && !ClockWithin(calls, CLOCK_SKEW)
      && Outcome(calls, 0).Ok? && Outcome(calls, 2) == Outcome(calls, 0)
  {
    var a, b := Call(v, token, exp), Call(w, other, exp + CLOCK_SKEW + 1);
    var calls := [a, b, a];
    assert calls[..|calls| - 1] == [a, b] && [a, b][..1] == [a] && [a][..0] == [] && calls[..0] == [];
    assert calls[|calls| - 1] == a && [a, b][|[a, b]| - 1] == b;
    assert Peak([a]) == exp && Peak([a, b]) == exp + CLOCK_SKEW + 1;
    assert ClockWithin([a], CLOCK_SKEW + 1) && ClockWithin([a, b], CLOCK_SKEW + 1);
    var jti := CheckToken(v, token, exp).value.jti;
    assert CacheAfter([a]) == map[jti := exp];
    assert jti !in CacheAfter([a, b]);
  }
}
