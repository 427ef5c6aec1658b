# Bearer-token guard of the Coffee-Shop API, modelled in Dafny

The Coffee-Shop backend protects its drink routes with `requires_auth(permission)`,
a decorator from `backend/src/auth/auth.py`. On each request the wrapper:

1. takes the token out of the `Authorization: Bearer <token>` header (`get_token_auth_header`);
2. verifies it against the identity provider's published key set (`verify_decode_jwt`);
   it reads the token's unverified header, requires a `kid`, scans the key set for
   entries with that `kid`, and has JOSE decode the token with RS256, audience
   `CoffeeAPI` and issuer `https://nanodegrees.auth0.com/`;
3. checks that the decoded payload's `permissions` claim contains the required
   permission (`check_permissions`);
4. calls the route handler with the payload placed before the caller's arguments.

Every deliberate failure is `AuthError({'success': False, 'message': m, 'error': 401}, 401)`
with one of seven fixed messages.

The model keeps the code's behaviour as written, including its rough edges:

- The header is cut with Python's `split(' ')`, so empty fields survive. `"Bearer  x"`
  (two spaces) gives 'JWT not found'.
- A header of just `Bearer`, in any case, passes the scheme test but then fails with
  IndexError, not AuthError.
- Fields after the second are ignored.
- The key scan has no `break`, so the last matching entry wins.
- A JWKS entry without `kid` raises KeyError. So does a matching entry that lacks
  one of the copied fields.
- A token header JOSE cannot parse raises the library's own error.
  That call sits outside the `try`.
- An absent permissions claim and a missing entry give the same message.
- A permissions claim that is a string is searched as text, because Python's `in`
  on a string tests for a substring. A claim that is a number raises TypeError.
- The decorator's default permission is the empty string. With a list claim, that
  default passes only if the list contains `""`.

The code lacks four safeguards one would expect of such a guard, and the model keeps it that way:

- The JWKS URL is built with `http://`, so the key set is not fetched over an encrypted transport.
- A malformed token header is not turned into an AuthError.
- A missing permissions claim and a missing permission give the same error.
- The key set is downloaded on every call; there is no key cache.

Modules, one per component of `auth.py`:

- `Errors`: the AuthError record, the other Python exceptions that can escape, and a `Result`.
- `PyStr`: `str.split`, its inverse `join`, ASCII `str.lower`, substring `in`.
- `Header`: `get_token_auth_header`.
- `Permissions`: decoded payloads and `check_permissions`.
- `Verify`: the key scan and `verify_decode_jwt`. This part has a specification function
  `VerifyDecode` and the imperative `VerifyDecodeJwt`, whose loop is proved equal to it.
- `Guard`: the wrapper and the `requires_auth` decorator.

## Model

| member | source | states |
|---|---|---|
| Errors.Unauthorized | backend/src/auth/auth.py:15-18 | The AuthError raised everywhere in the module: it carries the given message, and with any of the seven fixed messages it has status 401 and a body with success False and error 401. |
| PyStr.Split | backend/src/auth/auth.py:35 | `split(' ')` always gives at least one field, and no field contains the separator. |
| PyStr.JoinSplit | backend/src/auth/auth.py:35 | Joining the fields of a split with the separator gives back the header. |
| PyStr.SplitJoin | backend/src/auth/auth.py:35 | Split inverts Join. Split is the only cut into separator-free fields that joins back to the text. |
| PyStr.SplitConcat | backend/src/auth/auth.py:35 | Splitting `a + ' ' + b` gives the fields of `a` followed by those of `b`. |
| PyStr.SplitSingleField | backend/src/auth/auth.py:35 | There is exactly one field iff the header contains no space. |
| PyStr.Lower | backend/src/auth/auth.py:36 | `lower()` keeps the length, leaves no upper-case ASCII letter, and changes only upper-case letters. LowerIsBearer states when the result is "bearer". |
| PyStr.LowerIsBearer | backend/src/auth/auth.py:36 | `s.lower() == "bearer"` holds exactly for the six-letter spellings of bearer in any mix of cases. |
| PyStr.Contains | backend/src/auth/auth.py:58 | The empty needle is in every string, and a contained needle is no longer than the text. ContainsAtOffset states exactly when it holds. |
| PyStr.ContainsAtOffset | backend/src/auth/auth.py:58 | String `in` holds exactly when the needle occurs at some offset of the text. |
| Header.GetTokenAuthHeader | backend/src/auth/auth.py:31-42 | A returned token is non-empty and has no space. Every failure is IndexError or the AuthError 'JWT not found'. |
| Header.MissingHeaderRejected | backend/src/auth/auth.py:32-42 | A missing or empty Authorization header gives the 401 AuthError 'JWT not found'. |
| Header.ExtractOk | backend/src/auth/auth.py:35-37 | The token is returned iff the header reads `<scheme> <token><rest>`, where the scheme lowers to "bearer", the token is non-empty without spaces, and the rest is empty or starts with a space. |
| Header.ExtractIndexError | backend/src/auth/auth.py:36 | IndexError is raised iff the whole header lowers to "bearer". |
| Header.ExtractIgnoresTrailingFields | backend/src/auth/auth.py:35-37 | Once the header has two fields, appending `" " + more` does not change the outcome. |
| Header.ExtractDoubleSpace | backend/src/auth/auth.py:36-42 | `"Bearer  x"` gives 'JWT not found'. |
| Header.ExtractLoneScheme | backend/src/auth/auth.py:36 | `"Bearer"` gives IndexError. |
| Header.ExtractMixedCase | backend/src/auth/auth.py:35-37 | `"bEaReR abc def"` gives the token `"abc"`. |
| Header.ExtractOtherScheme | backend/src/auth/auth.py:36-42 | `"Basic abc"` gives 'JWT not found'. |
| Permissions.In | backend/src/auth/auth.py:58 | Python `in` on a claim raises exactly on a number, and then TypeError. On a list it is exact membership; on a string it holds iff the item occurs at some offset. |
| Permissions.CheckPermissions | backend/src/auth/auth.py:56-64 | The check never returns False. A failure is 'Permission not found in JWT' or TypeError, and TypeError comes exactly from a numeric permissions claim. |
| Permissions.CheckPermissionsExact | backend/src/auth/auth.py:56-64 | With the claim absent or a list, the check succeeds iff the permission is an exact element of the list. Otherwise the error is the 401 'Permission not found in JWT', the same for both cases. |
| Permissions.CheckPermissionsOnText | backend/src/auth/auth.py:57-59 | With a string claim, the check succeeds iff the permission occurs in it as a substring. |
| Permissions.CheckPermissionsExamples | backend/src/auth/auth.py:56-64 | `["get:drinks-detail"]` passes "get:drinks-detail" and fails "post:drinks" and "GET:drinks-detail". |
| Verify.CopyKey | backend/src/auth/auth.py:97-103 | The copy succeeds iff the entry has kty, kid, use, n and e. It then holds exactly those five fields with the entry's values. Otherwise it raises KeyError for a missing one of them. |
| Verify.ScanStep | backend/src/auth/auth.py:96-103 | One pass of the loop raises exactly when the entry is unusable, and then a KeyError. Otherwise the key becomes the entry's copy on a match and stays as it was on no match. |
| Verify.ScanFrom | backend/src/auth/auth.py:95-103 | The rest of the loop raises only KeyError, and ends with either its starting key or a key with exactly the five copied fields. ScanFromRaises and ScanFromSelectsLast state which. |
| Verify.SelectKey | backend/src/auth/auth.py:87-103 | From `rsa_key = {}` the loop raises only KeyError, and ends with `{}` or a key with exactly the five copied fields. SelectKeyProperties states which. |
| Verify.ScanFromRaises | backend/src/auth/auth.py:95-103 | The scan raises iff some entry lacks `kid` or is a match missing a copied field. The error is a KeyError for a field missing from the first such entry. |
| Verify.ScanFromSelectsLast | backend/src/auth/auth.py:95-103 | On a usable key set the scan succeeds. With no match it keeps its starting key. Otherwise it ends with the copy of the last matching entry. |
| Verify.SelectKeyProperties | backend/src/auth/auth.py:87-106 | From `rsa_key = {}` the selected key is non-empty iff some entry has the header's kid. It then has exactly the five fields, its kid is the header's kid, and it is the copy of the last match. |
| Verify.DecodeResult | backend/src/auth/auth.py:107-138 | The `try`/`except` around decode returns the payload exactly when decode returned one. Every other outcome is a 401 AuthError with a fixed message. |
| Verify.VerifyDecode | backend/src/auth/auth.py:79-143 | No contract of its own. VerifyDecodeJwt is proved equal to it; VerifyRejectsMissingKid, VerifyNoMatchingKey, VerifyDecodesWithLastMatch, VerifyOkUsesPublishedKey and VerifyFailures state its behaviour. |
| Verify.VerifyDecodeJwt | backend/src/auth/auth.py:79-143 | The imperative procedure computes exactly `VerifyDecode`. It checks the kid, scans all entries with an early exit only on KeyError, then decodes or fails. |
| Verify.VerifyRejectsMissingKid | backend/src/auth/auth.py:88-93 | A token header without kid gives 'Authorization malformed' for every key set and every decode oracle, so decode is not used. |
| Verify.VerifyNoMatchingKey | backend/src/auth/auth.py:139-143 | When every entry has a kid and none equals the header's, the result is 'Unable to find the appropriate key' for every decode oracle. |
| Verify.VerifyDecodesWithLastMatch | backend/src/auth/auth.py:106-138 | Decode gets the token, the last match's five fields, RS256, CoffeeAPI and the issuer. Its outcome maps as follows: payload unchanged, expired gives 'Token expired', claims gives 'Please, check the audience and issuer', anything else gives 'Unable to parse authentication token'. |
| Verify.VerifyOkUsesPublishedKey | backend/src/auth/auth.py:95-118 | A payload is returned only if the header has a kid, some entry is published under it, and decode accepted the token with the last such entry. |
| Verify.VerifyFailures | backend/src/auth/auth.py:85-143 | Every verification failure is one of three kinds: a 401 AuthError with one of its five messages, a KeyError, or the JOSE error. |
| Guard.Wrapper | backend/src/auth/auth.py:161-165 | No contract of its own. WrapperStages, WrapperFailureIgnoresHandler, MissingHeaderNeverCallsHandler, WrapperAdmits and WrapperFailures state its behaviour. |
| Guard.RequiresAuth | backend/src/auth/auth.py:158-168 | No contract of its own. It returns Wrapper for the given permission. RequiresAuthDefaultPermission states the default `""` and DeleteDrinksAdmitted a full call through it. |
| Guard.RequiresAuthDefaultPermission | backend/src/auth/auth.py:158-168 | With the default permission `""` and a verified token, a list claim lets the handler run exactly when it contains `""`, and otherwise gives 'Permission not found in JWT'. A string claim always lets it run. |
| Guard.WrapperStages | backend/src/auth/auth.py:161-165 | The stages run as extract, verify, check. The first failure is returned unchanged. Only when all three succeed is the handler's value returned. |
| Guard.WrapperFailureIgnoresHandler | backend/src/auth/auth.py:161-165 | A failing call gives the same outcome for every handler and argument, so the handler is never called. |
| Guard.MissingHeaderNeverCallsHandler | backend/src/auth/auth.py:162 | Without an Authorization header, every handler gets 'JWT not found'. |
| Guard.WrapperAdmits | backend/src/auth/auth.py:161-165 | The handler is called with exactly the decoded payload when four things hold: a bearer header, a published kid, an accepting decode, and a granting payload. |
| Guard.WrapperFailures | backend/src/auth/auth.py:161-165 | Every exception leaving the wrapper is a 401 AuthError with a fixed message, IndexError, KeyError, TypeError or the JOSE error. |
| Guard.DeleteDrinksAdmitted | backend/src/auth/auth.py:158-168 | `Bearer <token>` with one published key and a payload granting "delete:drinks" reaches a handler requiring "delete:drinks" with that payload. |

## Left out

- Downloading the key set (`urlopen` and `json.loads`, auth.py:81-82) is I/O. The entries of its `keys` array are an input. A failed download, malformed JSON and a document without `keys` are not modelled.
- `jwt.get_unverified_header` and `jwt.decode` (signature check, RS256, audience, issuer, expiry) are a foreign library. They are oracles: the first returns a header or fails, the second returns a payload or raises. Its failures are expiry (`ExpiredSignatureError`), a claims error (`JWTClaimsError`), or any other exception.
- The Flask `request` global becomes a header map keyed by the exact name `Authorization`. Werkzeug's case-insensitive header lookup is not modelled.
- JSON values are simplified. Key set entries and the token header are maps from strings to strings. Claim values are strings, integers or lists of strings. Booleans, null, nested objects and mixed lists are not modelled.
- `str.lower()` is modelled on ASCII letters only; Unicode case mappings are not modelled.
- `functools.wraps` metadata copying is not modelled. What the handler itself returns or raises is the opaque value `handler(payload, args)`.
- Verify.ScanFromRaises: names a field missing from the first unusable entry. When several fields are missing, it does not say which lookup fails first. The model's `CopyKey` does follow the source's order kty, kid, use, n, e.
- `backend/src/api.py` (routes, database access, response shaping, error handlers) is not part of this model.
