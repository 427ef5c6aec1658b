/** The token verifier: `verify_decode_jwt(token)`, with the JWKS download and
    the JOSE library taken as inputs. */
module Verify {
  import opened Errors
  import opened Permissions

  /** One entry of the JWKS `keys` array. */
  type Jwk = map<string, string>

  /** The key handed to `jwt.decode`: the entry's kty, kid, use, n and e. */
  type RsaKey = map<string, string>

  /** The token's unverified JOSE header. */
  type TokenHeader = map<string, string>

  /** What `jwt.get_unverified_header(token)` does: return the header, or raise
      (the call is outside the `try`, so that exception escapes unchanged). */
  datatype HeaderOutcome = Parsed(header: TokenHeader) | Unparseable

  /** The arguments of the `jwt.decode` call. */
  datatype DecodeRequest =
    DecodeRequest(token: string, key: RsaKey, algorithms: seq<string>, audience: string, issuer: string)

  /** What `jwt.decode` does: return the payload, or raise ExpiredSignatureError,
      JWTClaimsError or any other exception. */
  datatype DecodeOutcome = Decoded(payload: Payload) | ExpiredSignature | ClaimsMismatch | DecodeFailed

  const Auth0Domain := "nanodegrees.auth0.com"
  const Algorithms := ["RS256"]
  const ApiAudience := "CoffeeAPI"
  const Issuer := "https://" + Auth0Domain + "/"

  /** The fields copied from the matching JWKS entry. */
  const RsaFields: set<string> := {"kty", "kid", "use", "n", "e"}

  /** The entry is published under `kid`. */
  predicate Matches(key: Jwk, kid: string) {
    "kid" in key && key["kid"] == kid
  }

  /** Scanning the entry raises nothing: it has a kid, and if it matches it has
      every field that is copied. */
  predicate Usable(key: Jwk, kid: string) {
    "kid" in key && (key["kid"] == kid ==> RsaFields <= key.Keys)
  }

  /** Entry `i` is the last entry published under `kid`. */
  predicate LastMatch(keys: seq<Jwk>, kid: string, i: int) {
    0 <= i < |keys| && Matches(keys[i], kid) &&
    forall j :: i < j < |keys| ==> !Matches(keys[j], kid)
  }

  /** Entry `i` is the first entry whose scan raises. */
  predicate FirstUnusable(keys: seq<Jwk>, kid: string, i: int) {
    0 <= i < |keys| && !Usable(keys[i], kid) &&
    forall j :: 0 <= j < i ==> Usable(keys[j], kid)
  }

  /** The dict literal {'kty': key['kty'], 'kid': key['kid'], 'use': key['use'],
      'n': key['n'], 'e': key['e']}, whose lookups run in that order. */
  function CopyKey(key: Jwk): (r: Result<RsaKey>)
    ensures r.Ok? <==> RsaFields <= key.Keys
    ensures r.Ok? ==> r.value.Keys == RsaFields && forall f :: f in RsaFields ==> r.value[f] == key[f]
    ensures r.Raise? ==> r.exception.KeyError? && r.exception.key in RsaFields && r.exception.key !in key
  {
    if "kty" !in key then Raise(KeyError("kty"))
    else if "kid" !in key then Raise(KeyError("kid"))
    else if "use" !in key then Raise(KeyError("use"))
    else if "n" !in key then Raise(KeyError("n"))
    else if "e" !in key then Raise(KeyError("e"))
    else Ok(map["kty" := key["kty"], "kid" := key["kid"], "use" := key["use"], "n" := key["n"], "e" := key["e"]])
  }

  /** One iteration of `for key in jwks['keys']`: compare the entry's kid (a
      lookup that raises when it is missing) and on a match replace the key. */
  function ScanStep(rsaKey: RsaKey, key: Jwk, kid: string): (r: Result<RsaKey>)
    ensures r.Raise? <==> !Usable(key, kid)
    ensures r.Raise? ==> r.exception.KeyError?
    ensures r.Ok? ==> r.value == (if Matches(key, kid) then CopyKey(key).value else rsaKey)
  {
    if "kid" !in key then Raise(KeyError("kid"))
    else if key["kid"] == kid then CopyKey(key)
    else Ok(rsaKey)
  }

  /** The rest of the loop, run over `keys` from the current `rsaKey`. */
  function ScanFrom(rsaKey: RsaKey, keys: seq<Jwk>, kid: string): (r: Result<RsaKey>)
    ensures r.Raise? ==> r.exception.KeyError?
    ensures r.Ok? ==> r.value == rsaKey || r.value.Keys == RsaFields
    decreases |keys|
  {
    if keys == [] then Ok(rsaKey)
    else
      var next :- ScanStep(rsaKey, keys[0], kid);
      ScanFrom(next, keys[1..], kid)
  }

  /** The whole loop, from `rsa_key = {}`. */
  function SelectKey(keys: seq<Jwk>, kid: string): (r: Result<RsaKey>)
    ensures r.Raise? ==> r.exception.KeyError?
    ensures r.Ok? ==> r.value == map[] || r.value.Keys == RsaFields
  {
    ScanFrom(map[], keys, kid)
  }

  /** The scan raises exactly when some entry is unusable, and then it raises
      a KeyError for a field missing from the first such entry. */
  lemma {:induction false} ScanFromRaises(rsaKey: RsaKey, keys: seq<Jwk>, kid: string)
    ensures ScanFrom(rsaKey, keys, kid).Raise? <==> exists i :: 0 <= i < |keys| && !Usable(keys[i], kid)
    ensures ScanFrom(rsaKey, keys, kid).Raise? ==>
      exists i :: FirstUnusable(keys, kid, i) &&
        ScanFrom(rsaKey, keys, kid).exception.KeyError? &&
        ScanFrom(rsaKey, keys, kid).exception.key in RsaFields &&
        ScanFrom(rsaKey, keys, kid).exception.key !in keys[i]
    decreases |keys|
  {
    if keys != [] {
      if !Usable(keys[0], kid) {
        assert FirstUnusable(keys, kid, 0);
      } else {
        var next := ScanStep(rsaKey, keys[0], kid).value;
        var tail := keys[1..];
        ScanFromRaises(next, tail, kid);
        assert forall i :: 0 < i < |keys| ==> keys[i] == tail[i - 1];
        if exists i :: 0 <= i < |keys| && !Usable(keys[i], kid) {
          var i :| 0 <= i < |keys| && !Usable(keys[i], kid);
          assert !Usable(tail[i - 1], kid);
        }
        if ScanFrom(rsaKey, keys, kid).Raise? {
          var i :| FirstUnusable(tail, kid, i) &&
            ScanFrom(next, tail, kid).exception.key !in tail[i];
          assert FirstUnusable(keys, kid, i + 1);
        }
      }
    }
  }

  /** When every entry is usable the scan succeeds: it keeps `rsaKey` when no
      entry matches and otherwise ends with the copy of the last match. */
  lemma {:induction false} ScanFromSelectsLast(rsaKey: RsaKey, keys: seq<Jwk>, kid: string)
    requires forall i :: 0 <= i < |keys| ==> Usable(keys[i], kid)
    ensures ScanFrom(rsaKey, keys, kid).Ok?
    ensures (forall i :: 0 <= i < |keys| ==> !Matches(keys[i], kid)) ==> ScanFrom(rsaKey, keys, kid) == Ok(rsaKey)
    ensures forall i :: LastMatch(keys, kid, i) ==> ScanFrom(rsaKey, keys, kid) == CopyKey(keys[i])
    decreases |keys|
  {
    if keys != [] {
      var next := ScanStep(rsaKey, keys[0], kid).value;
      var tail := keys[1..];
      assert forall i :: 0 < i < |keys| ==> keys[i] == tail[i - 1];
      ScanFromSelectsLast(next, tail, kid);
      forall i | LastMatch(keys, kid, i) ensures ScanFrom(rsaKey, keys, kid) == CopyKey(keys[i]) {
        if i == 0 {
          assert forall j :: 0 <= j < |tail| ==> !Matches(tail[j], kid);
        } else {
          assert LastMatch(tail, kid, i - 1);
        }
      }
    }
  }

  /** Every entry published under `kid` is the last one or is followed by it. */
  lemma {:induction false} LastMatchExists(keys: seq<Jwk>, kid: string, i: int)
    requires 0 <= i < |keys| && Matches(keys[i], kid)
    ensures exists j :: i <= j && LastMatch(keys, kid, j)
    decreases |keys| - i
  {
    if !LastMatch(keys, kid, i) {
      var j :| i < j < |keys| && Matches(keys[j], kid);
      LastMatchExists(keys, kid, j);
    }
  }

  /** Key selection as the loop performs it: it raises exactly when some entry
      is unusable; otherwise the selected key is non-empty exactly when some
      entry is published under `kid`, and then it is the copy of the five
      fields of the last such entry, so its kid is `kid`. */
  lemma SelectKeyProperties(keys: seq<Jwk>, kid: string)
    ensures SelectKey(keys, kid).Raise? <==> exists i :: 0 <= i < |keys| && !Usable(keys[i], kid)
    ensures SelectKey(keys, kid).Ok? ==>
      (SelectKey(keys, kid).value != map[] <==> exists i :: 0 <= i < |keys| && Matches(keys[i], kid))
    ensures SelectKey(keys, kid).Ok? && SelectKey(keys, kid).value != map[] ==>
      SelectKey(keys, kid).value.Keys == RsaFields && SelectKey(keys, kid).value["kid"] == kid
    ensures forall i :: LastMatch(keys, kid, i) && SelectKey(keys, kid).Ok? ==>
      SelectKey(keys, kid) == CopyKey(keys[i])
  {
    ScanFromRaises(map[], keys, kid);
    if SelectKey(keys, kid).Ok? {
      ScanFromSelectsLast(map[], keys, kid);
      if exists i :: 0 <= i < |keys| && Matches(keys[i], kid) {
        var i :| 0 <= i < |keys| && Matches(keys[i], kid);
        LastMatchExists(keys, kid, i);
        var j :| i <= j && LastMatch(keys, kid, j);
        var rsa := SelectKey(keys, kid).value;
        assert rsa == CopyKey(keys[j]).value;
        assert rsa["kid"] == keys[j]["kid"];
        assert "kid" in rsa;
      }
    }
  }

  /** Map the outcome of `jwt.decode` as the `try`/`except` clauses do. */
  function DecodeResult(outcome: DecodeOutcome): (r: Result<Payload>)
    ensures r.Ok? <==> outcome.Decoded?
    ensures r.Ok? ==> r.value == outcome.payload
    ensures r.Raise? ==> RaisesUnauthorized(r)
  {
    match outcome
    case Decoded(payload) => Ok(payload)
    case ExpiredSignature => Raise(Auth(Unauthorized(TokenExpired)))
    case ClaimsMismatch => Raise(Auth(Unauthorized(CheckAudienceIssuer)))
    case DecodeFailed => Raise(Auth(Unauthorized(UnableToParse)))
  }

  /** `verify_decode_jwt(token)` as a function of the downloaded key set and the
      two JOSE calls. */
  function VerifyDecode(token: string, keys: seq<Jwk>,
                        unverifiedHeader: string -> HeaderOutcome,
                        decode: DecodeRequest -> DecodeOutcome): Result<Payload>
  {
    match unverifiedHeader(token)
    case Unparseable => Raise(JoseError)
    case Parsed(header) =>
      if "kid" !in header then Raise(Auth(Unauthorized(AuthorizationMalformed)))
      else
        var rsaKey :- SelectKey(keys, header["kid"]);
        if rsaKey != map[] then
          DecodeResult(decode(DecodeRequest(token, rsaKey, Algorithms, ApiAudience, Issuer)))
        else Raise(Auth(Unauthorized(NoAppropriateKey)))
  }

  /** `verify_decode_jwt(token)` step by step: reject a header without kid, scan
      every entry of the key set (no early exit, so the last match wins), then
      decode with the selected key. */
  method VerifyDecodeJwt(token: string, keys: seq<Jwk>,
                         unverifiedHeader: string -> HeaderOutcome,
                         decode: DecodeRequest -> DecodeOutcome) returns (r: Result<Payload>)
    ensures r == VerifyDecode(token, keys, unverifiedHeader, decode)
  {
    var parsed := unverifiedHeader(token);
    if parsed.Unparseable? {
      return Raise(JoseError);
    }
    var header := parsed.header;
    var rsaKey: RsaKey := map[];
    if "kid" !in header {
      return Raise(Auth(Unauthorized(AuthorizationMalformed)));
    }
    var kid := header["kid"];
    var i := 0;
    while i < |keys|
      invariant 0 <= i <= |keys|
      invariant ScanFrom(rsaKey, keys[i..], kid) == SelectKey(keys, kid)
    {
      var key := keys[i];
      assert keys[i..][0] == key && keys[i..][1..] == keys[i + 1..];
      if "kid" !in key {
        return Raise(KeyError("kid"));
      }
      if key["kid"] == kid {
        if "kty" !in key { return Raise(KeyError("kty")); }
        if "use" !in key { return Raise(KeyError("use")); }
        if "n" !in key { return Raise(KeyError("n")); }
        if "e" !in key { return Raise(KeyError("e")); }
        rsaKey := map["kty" := key["kty"], "kid" := key["kid"], "use" := key["use"], "n" := key["n"], "e" := key["e"]];
      }
      i := i + 1;
    }
    assert keys[i..] == [];
    if rsaKey != map[] {
      var outcome := decode(DecodeRequest(token, rsaKey, Algorithms, ApiAudience, Issuer));
      return DecodeResult(outcome);
    }
    r := Raise(Auth(Unauthorized(NoAppropriateKey)));
  }

  /** A token header without kid is 'Authorization malformed', whatever the key
      set and whatever decode would do: decode is not reached. */
  lemma VerifyRejectsMissingKid(token: string, keys: seq<Jwk>,
                                unverifiedHeader: string -> HeaderOutcome,
                                decode: DecodeRequest -> DecodeOutcome)
    requires unverifiedHeader(token).Parsed? && "kid" !in unverifiedHeader(token).header
    ensures forall otherKeys, otherDecode ::
      VerifyDecode(token, otherKeys, unverifiedHeader, otherDecode) ==
      Raise(Auth(Unauthorized(AuthorizationMalformed)))
  {
  }

  /** No entry published under the header's kid: 'Unable to find the
      appropriate key', whatever decode would do. */
  lemma VerifyNoMatchingKey(token: string, keys: seq<Jwk>,
                            unverifiedHeader: string -> HeaderOutcome)
    requires unverifiedHeader(token).Parsed? && "kid" in unverifiedHeader(token).header
    requires forall i :: 0 <= i < |keys| ==> "kid" in keys[i]
    requires forall i :: 0 <= i < |keys| ==> !Matches(keys[i], unverifiedHeader(token).header["kid"])
    ensures forall decode ::
      VerifyDecode(token, keys, unverifiedHeader, decode) == Raise(Auth(Unauthorized(NoAppropriateKey)))
  {
    ScanFromSelectsLast(map[], keys, unverifiedHeader(token).header["kid"]);
  }

  /** With a usable key set whose last entry under the header's kid is `i`,
      decode is called with exactly that entry's five fields, RS256 only, the
      configured audience and issuer, and its outcome is mapped to the payload
      unchanged or to the three fixed messages. */
  lemma VerifyDecodesWithLastMatch(token: string, keys: seq<Jwk>,
                                   unverifiedHeader: string -> HeaderOutcome,
                                   decode: DecodeRequest -> DecodeOutcome, i: int)
    requires unverifiedHeader(token).Parsed? && "kid" in unverifiedHeader(token).header
    requires forall j :: 0 <= j < |keys| ==> Usable(keys[j], unverifiedHeader(token).header["kid"])
    requires LastMatch(keys, unverifiedHeader(token).header["kid"], i)
    ensures CopyKey(keys[i]).Ok?
    ensures var request := DecodeRequest(token, CopyKey(keys[i]).value, Algorithms, ApiAudience, Issuer);
      var r := VerifyDecode(token, keys, unverifiedHeader, decode);
      && (decode(request).Decoded? ==> r == Ok(decode(request).payload))
      && (decode(request) == ExpiredSignature ==> r == Raise(Auth(Unauthorized(TokenExpired))))
      && (decode(request) == ClaimsMismatch ==> r == Raise(Auth(Unauthorized(CheckAudienceIssuer))))
      && (decode(request) == DecodeFailed ==> r == Raise(Auth(Unauthorized(UnableToParse))))
  {
    var kid := unverifiedHeader(token).header["kid"];
    ScanFromSelectsLast(map[], keys, kid);
    assert Usable(keys[i], kid);
    var key := CopyKey(keys[i]).value;
    assert SelectKey(keys, kid) == Ok(key);
    assert "kid" in key;
    var request := DecodeRequest(token, key, Algorithms, ApiAudience, Issuer);
    assert VerifyDecode(token, keys, unverifiedHeader, decode) == DecodeResult(decode(request));
  }

  /** A payload is only returned when decode accepted the token under the last
      key set entry published under the token's own kid. */
  lemma VerifyOkUsesPublishedKey(token: string, keys: seq<Jwk>,
                                 unverifiedHeader: string -> HeaderOutcome,
                                 decode: DecodeRequest -> DecodeOutcome, payload: Payload)
    requires VerifyDecode(token, keys, unverifiedHeader, decode) == Ok(payload)
    ensures unverifiedHeader(token).Parsed? && "kid" in unverifiedHeader(token).header
    ensures exists i ::
      && LastMatch(keys, unverifiedHeader(token).header["kid"], i)
      && CopyKey(keys[i]).Ok?
      && decode(DecodeRequest(token, CopyKey(keys[i]).value, Algorithms, ApiAudience, Issuer)) == Decoded(payload)
  {
    var kid := unverifiedHeader(token).header["kid"];
    SelectKeyProperties(keys, kid);
    var i :| 0 <= i < |keys| && Matches(keys[i], kid);
    LastMatchExists(keys, kid, i);
    var j :| i <= j && LastMatch(keys, kid, j);
    assert SelectKey(keys, kid) == CopyKey(keys[j]);
  }

  /** Every failure of verification is a 401 AuthError with one of its five
      messages, a KeyError from a malformed key set entry, or the JOSE
      library's own error for an unparseable token header. */
  lemma VerifyFailures(token: string, keys: seq<Jwk>,
                       unverifiedHeader: string -> HeaderOutcome,
                       decode: DecodeRequest -> DecodeOutcome)
    ensures var r := VerifyDecode(token, keys, unverifiedHeader, decode);
      r.Raise? ==>
        || (RaisesUnauthorized(r) &&
            r.exception.authError.error.message in
              {AuthorizationMalformed, NoAppropriateKey, TokenExpired, CheckAudienceIssuer, UnableToParse})
        || r.exception.KeyError?
        || r.exception == JoseError
  {
    var r := VerifyDecode(token, keys, unverifiedHeader, decode);
    if unverifiedHeader(token).Parsed? && "kid" in unverifiedHeader(token).header {
      ScanFromRaises(map[], keys, unverifiedHeader(token).header["kid"]);
    }
  }
}
