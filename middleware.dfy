/** Request authentication (Backend/src/middlewares/authMiddleware.js, and the identical
    `authenticateToken` of Backend/src/middlewares/auth.js) and the role guards. The JWT
    check is a parameter `verify` that yields the payload, or None where `jwt.verify`
    throws. Attaching the payload to `req.user` and calling `next` become the `Next`
    outcome. */
module Middleware {
  import opened Common

  const BEARER: string := "Bearer "

  function IsBlank(c: char): bool {
    c == ' '
  }

  /** `authHeader.startsWith('Bearer ') ? authHeader.split(' ')[1] : null` with a missing
      header read as "": the token is the second space-separated field, which may be
      empty. */
  function ExtractToken(header: Option<string>): (r: Option<string>)
    ensures var h := if header.Some? then header.value else "";
      && (r.Some? <==> StartsWith(h, BEARER))
      && (r.Some? ==>
            && |BEARER| + |r.value| <= |h|
            && h[..|BEARER| + |r.value|] == BEARER + r.value
            && (forall i :: 0 <= i < |r.value| ==> r.value[i] != ' ')
            && (|BEARER| + |r.value| < |h| ==> h[|BEARER| + |r.value|] == ' '))
  {
    var h := if header.Some? then header.value else "";
    if StartsWith(h, BEARER) then
      var t := TakeUntil(h[|BEARER|..], IsBlank);
      assert h[..|BEARER| + |t|] == h[..|BEARER|] + h[|BEARER|..][..|t|];
      Some(t)
    else None
  }

  /** A header made of the prefix, a token without spaces and anything after a space
      gives back that token. */
  lemma ExtractTokenRoundTrip(token: string, rest: string)
    requires forall i :: 0 <= i < |token| ==> token[i] != ' '
    ensures ExtractToken(Some(BEARER + token)) == Some(token)
    ensures ExtractToken(Some(BEARER + token + " " + rest)) == Some(token)
  {
    TakeUntilStopsAtBlank(token, "");
    TakeUntilStopsAtBlank(token, " " + rest);
    assert (BEARER + token)[|BEARER|..] == token + "";
    assert (BEARER + token + " " + rest)[|BEARER|..] == token + (" " + rest);
  }

  lemma {:induction false} TakeUntilStopsAtBlank(token: string, tail: string)
    requires forall i :: 0 <= i < |token| ==> token[i] != ' '
    requires tail == [] || tail[0] == ' '
    ensures TakeUntil(token + tail, IsBlank) == token
  {
    if token != [] {
      assert (token + tail)[1..] == token[1..] + tail;
      TakeUntilStopsAtBlank(token[1..], tail);
    }
  }

  datatype Outcome = Refused(status: int) | Next(user: Payload)

  /** `authenticateToken`: 401 without a non-empty token, 403 when verification fails,
      otherwise the payload is attached and the chain goes on. */
  function Authenticate(header: Option<string>, verify: string -> Option<Payload>): (r: Outcome)
    ensures (ExtractToken(header).None? || ExtractToken(header) == Some("")) <==> r == Refused(401)
    ensures r == Refused(403) <==>
              (ExtractToken(header).Some? && ExtractToken(header).value != ""
               && verify(ExtractToken(header).value).None?)
    ensures r.Next? ==> ExtractToken(header).Some? && verify(ExtractToken(header).value) == Some(r.user)
  {
    match ExtractToken(header)
    case None => Refused(401)
    case Some(t) =>
      if t == "" then Refused(401)
      else match verify(t)
        case None => Refused(403)
        case Some(p) => Next(p)
  }

  /** Without the header, with another prefix (including a different case), or with the
      prefix followed by nothing or by a space, the request is refused with 401 before
      any verification. */
  lemma NoTokenIsUnauthorized(verify: string -> Option<Payload>, other: string, rest: string)
    requires !StartsWith(other, BEARER)
    ensures Authenticate(None, verify) == Refused(401)
    ensures Authenticate(Some(other), verify) == Refused(401)
    ensures Authenticate(Some(BEARER), verify) == Refused(401)
    ensures Authenticate(Some(BEARER + " " + rest), verify) == Refused(401)
    ensures Authenticate(Some("bearer x"), verify) == Refused(401)
  {
    assert (BEARER + " " + rest)[|BEARER|..] == " " + rest;
    assert !StartsWith("bearer x", BEARER) by {
      assert "bearer x"[0] != BEARER[0];
    }
  }

  /** A well-formed header whose token fails verification is refused with 403; one that
      passes attaches exactly the verified payload. */
  lemma VerifiedTokenDecides(token: string, verify: string -> Option<Payload>)
    requires token != [] && forall i :: 0 <= i < |token| ==> token[i] != ' '
    ensures verify(token).None? ==> Authenticate(Some(BEARER + token), verify) == Refused(403)
    ensures verify(token).Some? ==> Authenticate(Some(BEARER + token), verify) == Next(verify(token).value)
  {
    ExtractTokenRoundTrip(token, "");
  }

  // ---------------------------------------------------------------------------
  // Role guards

  /** The roles each guard admits (lines 20-56). */
  datatype Guard = IsEmployee | IsManager | IsHR | IsAdmin

  predicate Admits(g: Guard, role: string) {
    match g
    case IsEmployee => true
    case IsManager => role == MANAGER || role == HR || role == ADMIN
    case IsHR => role == HR || role == ADMIN
    case IsAdmin => role == ADMIN
  }

  /** A guard: 401 without an attached user, 403 for a role it does not admit, else None
      (the chain goes on). */
  function Check(g: Guard, user: Option<Payload>): (r: Option<int>)
    ensures user.None? ==> r == Some(401)
    ensures user.Some? ==> (r.None? <==> Admits(g, user.value.role)) && (r.Some? ==> r == Some(403))
  {
    if user.None? then Some(401)
    else if !Admits(g, user.value.role) then Some(403)
    else None
  }

  /** `isEmployee` admits every authenticated user, whatever the role string. */
  lemma IsEmployeeAdmitsAnyRole(p: Payload)
    ensures Check(IsEmployee, Some(p)).None?
  {
  }

  /** The admitted sets are nested: ADMIN ⊆ HR ⊆ MANAGER ⊆ EMPLOYEE guards. */
  lemma GuardsAreNested(user: Option<Payload>)
    ensures Check(IsAdmin, user).None? ==> Check(IsHR, user).None?
    ensures Check(IsHR, user).None? ==> Check(IsManager, user).None?
    ensures Check(IsManager, user).None? ==> Check(IsEmployee, user).None?
  {
  }

  /** After a successful authentication a guard can only refuse with 403. */
  lemma AuthenticatedGuardNeverUnauthorized(g: Guard, header: Option<string>, verify: string -> Option<Payload>)
    requires Authenticate(header, verify).Next?
    ensures Check(g, Some(Authenticate(header, verify).user)) != Some(401)
  {
  }
}
