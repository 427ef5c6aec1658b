/** The auth middleware: the `requires_auth(permission)` decorator and the
    wrapper it puts around a route handler. */
module Guard {
  import opened Errors
  import opened PyStr
  import opened Header
  import opened Permissions
  import opened Verify

  /** What one call of the wrapper reads from outside itself: the request's
      headers, the key set downloaded from the JWKS endpoint, and the two JOSE
      library calls. */
  datatype World = World(headers: Headers, keys: seq<Jwk>,
                         unverifiedHeader: string -> HeaderOutcome,
                         decode: DecodeRequest -> DecodeOutcome)

  /** The wrapper: extract the token, verify it, check the permission, and only
      then call the handler with the payload in front of the caller's
      arguments. Any exception of the three stages leaves the wrapper as it is. */
  function Wrapper<A, R>(permission: string, handler: (Payload, A) -> R, world: World, args: A): Result<R> {
    var token :- GetTokenAuthHeader(world.headers);
    var payload :- VerifyDecode(token, world.keys, world.unverifiedHeader, world.decode);
    var granted :- CheckPermissions(permission, payload);
    Ok(handler(payload, args))
  }

  /** `requires_auth(permission)`: the decorator, which turns a handler into its
      wrapper. */
  function RequiresAuth<A, R>(permission: string := ""): ((Payload, A) -> R) -> ((World, A) -> Result<R>) {
    handler => (world, args) => Wrapper(permission, handler, world, args)
  }

  /** The decorator's default permission is the empty string. Once the token
      is extracted and verified, a list claim lets the call through exactly
      when it contains "", and a string claim always does, since "" is a
      substring of every string. */
  lemma RequiresAuthDefaultPermission<A, R>(handler: (Payload, A) -> R, world: World, args: A,
                                            token: string, payload: Payload)
    requires GetTokenAuthHeader(world.headers) == Ok(token)
    requires VerifyDecode(token, world.keys, world.unverifiedHeader, world.decode) == Ok(payload)
    requires PermissionsClaim in payload
    ensures payload[PermissionsClaim].TextList? ==>
      (RequiresAuth<A, R>()(handler)(world, args) == Ok(handler(payload, args)) <==>
       "" in payload[PermissionsClaim].items)
    ensures payload[PermissionsClaim].TextList? && "" !in payload[PermissionsClaim].items ==>
      RequiresAuth<A, R>()(handler)(world, args) == Raise(Auth(Unauthorized(PermissionNotFound)))
    ensures payload[PermissionsClaim].Text? ==>
      RequiresAuth<A, R>()(handler)(world, args) == Ok(handler(payload, args))
  {
    if payload[PermissionsClaim].Text? {
      assert StartsWith(payload[PermissionsClaim].text, "");
    }
  }

  /** The stages run in the order extract, verify, check; the first one that
      raises decides the outcome, and the handler's value is returned only when
      all three succeed. */
  lemma WrapperStages<A, R>(permission: string, handler: (Payload, A) -> R, world: World, args: A)
    ensures var r := Wrapper(permission, handler, world, args);
      var extracted := GetTokenAuthHeader(world.headers);
      && (extracted.Raise? ==> r == Raise(extracted.exception))
      && (extracted.Ok? ==>
            var verified := VerifyDecode(extracted.value, world.keys, world.unverifiedHeader, world.decode);
            && (verified.Raise? ==> r == Raise(verified.exception))
            && (verified.Ok? ==>
                  var checked := CheckPermissions(permission, verified.value);
                  && (checked.Raise? ==> r == Raise(checked.exception))
                  && (checked.Ok? ==> r == Ok(handler(verified.value, args)))))
  {
  }

  /** When the wrapper raises, the handler was never called: the outcome is the
      same for every handler and every argument. */
  lemma WrapperFailureIgnoresHandler<A, R>(permission: string, handler: (Payload, A) -> R, world: World, args: A)
    requires Wrapper(permission, handler, world, args).Raise?
    ensures forall other: (Payload, A) -> R, otherArgs: A ::
      Wrapper(permission, other, world, otherArgs) == Wrapper(permission, handler, world, args)
  {
  }

  /** A request without an Authorization header is rejected with 'JWT not
      found', whatever the handler. */
  lemma MissingHeaderNeverCallsHandler<A, R>(permission: string, handler: (Payload, A) -> R, world: World, args: A)
    requires AuthorizationHeader !in world.headers
    ensures forall other: (Payload, A) -> R, otherArgs: A ::
      Wrapper(permission, other, world, otherArgs) == Raise(Auth(Unauthorized(JwtNotFound)))
  {
  }

  /** A bearer header, a token header whose kid names a published key, a
      decode that accepts the token under that key, and a payload granting the
      permission: the handler is called, with exactly the decoded payload. */
  lemma WrapperAdmits<A, R>(permission: string, handler: (Payload, A) -> R, world: World, args: A,
                            scheme: string, token: string, rest: string, i: int, payload: Payload)
    requires AuthorizationHeader in world.headers
    requires BearerForm(world.headers[AuthorizationHeader], scheme, token, rest)
    requires world.unverifiedHeader(token).Parsed? && "kid" in world.unverifiedHeader(token).header
    requires forall j :: 0 <= j < |world.keys| ==> Usable(world.keys[j], world.unverifiedHeader(token).header["kid"])
    requires LastMatch(world.keys, world.unverifiedHeader(token).header["kid"], i)
    requires RsaFields <= world.keys[i].Keys
    requires world.decode(DecodeRequest(token, CopyKey(world.keys[i]).value, Algorithms, ApiAudience, Issuer)) == Decoded(payload)
    requires Grants(payload, permission)
    ensures Wrapper(permission, handler, world, args) == Ok(handler(payload, args))
  {
    ExtractOk(world.headers, token);
    VerifyDecodesWithLastMatch(token, world.keys, world.unverifiedHeader, world.decode, i);
    CheckPermissionsExact(permission, payload);
  }

  /** Every exception leaving the wrapper comes from one of the three stages: a
      401 AuthError with one of the fixed messages, or one of the Python
      errors the stages let through (IndexError, KeyError, TypeError, the JOSE
      library's error). */
  lemma WrapperFailures<A, R>(permission: string, handler: (Payload, A) -> R, world: World, args: A)
    ensures var r := Wrapper(permission, handler, world, args);
      r.Raise? ==>
        || RaisesUnauthorized(r)
        || r.exception == IndexError
        || r.exception.KeyError?
        || r.exception == TypeError
        || r.exception == JoseError
  {
    var extracted := GetTokenAuthHeader(world.headers);
    if extracted.Ok? {
      VerifyFailures(extracted.value, world.keys, world.unverifiedHeader, world.decode);
    }
  }

  /** The end-to-end request: "Authorization: Bearer <token>", one published
      key, and a payload granting "delete:drinks" reach a handler that requires
      "delete:drinks", with that payload. */
  lemma DeleteDrinksAdmitted<A, R>(handler: (Payload, A) -> R, world: World, args: A,
                                   token: string, key: Jwk, payload: Payload)
    requires world.headers == map[AuthorizationHeader := "Bearer " + token]
    requires token != "" && ' ' !in token
    requires world.unverifiedHeader(token).Parsed? && "kid" in world.unverifiedHeader(token).header
    requires world.keys == [key] && RsaFields <= key.Keys && key["kid"] == world.unverifiedHeader(token).header["kid"]
    requires world.decode(DecodeRequest(token, CopyKey(key).value, Algorithms, ApiAudience, Issuer)) == Decoded(payload)
    requires PermissionsClaim in payload && payload[PermissionsClaim] == TextList(["delete:drinks"])
    ensures RequiresAuth("delete:drinks")(handler)(world, args) == Ok(handler(payload, args))
  {
    LowerIsBearer("Bearer");
    assert "Bearer " + token == "Bearer" + " " + token + "";
    assert BearerForm(world.headers[AuthorizationHeader], "Bearer", token, "");
    assert LastMatch(world.keys, world.unverifiedHeader(token).header["kid"], 0);
    WrapperAdmits("delete:drinks", handler, world, args, "Bearer", token, "", 0, payload);
  }
}
