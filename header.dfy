/** The token extractor: `get_token_auth_header()`. */
module Header {
  import opened Errors
  import opened PyStr

  /** The request's headers by name; the Flask request global becomes this parameter. */
  type Headers = map<string, string>

  const AuthorizationHeader := "Authorization"

  /** `get_token_auth_header()`: split the Authorization header on single spaces,
      accept a first field that lowers to "bearer" and return the second field.
      A lone scheme ("Bearer") passes the scheme test and then fails on the
      index of the second field. */
  function GetTokenAuthHeader(headers: Headers): (r: Result<string>)
    ensures r.Ok? ==> r.value != "" && ' ' !in r.value
    ensures r.Raise? ==> r.exception == IndexError || r.exception == Auth(Unauthorized(JwtNotFound))
  {
    if AuthorizationHeader in headers && headers[AuthorizationHeader] != "" then
      var fields := Split(headers[AuthorizationHeader], ' ');
      if fields[0] != "" && Lower(fields[0]) == "bearer" then
        if |fields| < 2 then Raise(IndexError)
        else if fields[1] != "" then Ok(fields[1])
        else Raise(Auth(Unauthorized(JwtNotFound)))
      else Raise(Auth(Unauthorized(JwtNotFound)))
    else Raise(Auth(Unauthorized(JwtNotFound)))
  }

  /** `header` reads "<scheme> <token><rest>": a scheme spelling "bearer" in any
      case, one space, a non-empty token without spaces, and then either nothing
      or further space-separated text. */
  predicate BearerForm(header: string, scheme: string, token: string, rest: string) {
    && header == scheme + " " + token + rest
    && Lower(scheme) == "bearer"
    && token != "" && ' ' !in token
    && (rest == "" || rest[0] == ' ')
  }

  /** A scheme that lowers to "bearer" is six characters without a space. */
  lemma BearerSchemeHasNoSpace(scheme: string)
    requires Lower(scheme) == "bearer"
    ensures scheme != "" && ' ' !in scheme
  {
    forall i | 0 <= i < |scheme| ensures scheme[i] != ' ' {
      assert Lower(scheme)[i] == LowerChar(scheme[i]);
      assert Lower(scheme)[i] in "bearer";
    }
  }

  /** No Authorization header, or an empty one: 'JWT not found'. */
  lemma MissingHeaderRejected(headers: Headers)
    requires AuthorizationHeader !in headers || headers[AuthorizationHeader] == ""
    ensures GetTokenAuthHeader(headers) == Raise(Auth(Unauthorized(JwtNotFound)))
    ensures RaisesUnauthorized(GetTokenAuthHeader(headers))
  {
  }

  /** The first two fields of a header in bearer form are its scheme and token. */
  lemma SplitBearerForm(h: string, scheme: string, token: string, rest: string)
    requires BearerForm(h, scheme, token, rest)
    ensures |Split(h, ' ')| >= 2 && Split(h, ' ')[0] == scheme && Split(h, ' ')[1] == token
  {
    BearerSchemeHasNoSpace(scheme);
    SplitNoSeparator(scheme, ' ');
    assert h == scheme + [' '] + (token + rest);
    SplitConcat(scheme, token + rest, ' ');
    SplitNoSeparator(token, ' ');
    if rest != "" {
      assert token + rest == token + [' '] + rest[1..];
      SplitConcat(token, rest[1..], ' ');
    } else {
      assert token + rest == token;
    }
    assert Split(token + rest, ' ')[0] == token;
  }

  /** A header whose split has at least two fields reads "<field 0> <field 1><rest>". */
  lemma JoinFirstTwo(h: string)
    requires |Split(h, ' ')| >= 2
    ensures var fields := Split(h, ' ');
      var rest := if |fields| == 2 then "" else " " + Join(fields[2..], ' ');
      h == fields[0] + " " + fields[1] + rest && (rest == "" || rest[0] == ' ')
  {
    var fields := Split(h, ' ');
    JoinSplit(h, ' ');
    if |fields| > 2 {
      assert fields[1..][1..] == fields[2..];
    }
  }

  /** The extractor returns `token` exactly when the header has the bearer form
      with `token` as its second field. */
  lemma ExtractOk(headers: Headers, token: string)
    ensures GetTokenAuthHeader(headers) == Ok(token) <==>
      AuthorizationHeader in headers &&
      exists scheme, rest :: BearerForm(headers[AuthorizationHeader], scheme, token, rest)
  {
    if GetTokenAuthHeader(headers) == Ok(token) {
      var h := headers[AuthorizationHeader];
      var fields := Split(h, ' ');
      JoinFirstTwo(h);
      var rest := if |fields| == 2 then "" else " " + Join(fields[2..], ' ');
      assert BearerForm(h, fields[0], token, rest);
    }
    if AuthorizationHeader in headers &&
       exists scheme, rest :: BearerForm(headers[AuthorizationHeader], scheme, token, rest)
    {
      var scheme, rest :| BearerForm(headers[AuthorizationHeader], scheme, token, rest);
      SplitBearerForm(headers[AuthorizationHeader], scheme, token, rest);
    }
  }

  /** The header "Bearer" alone, in any case, fails on indexing rather than with
      an AuthError; no other header does. */
  lemma ExtractIndexError(headers: Headers)
    ensures GetTokenAuthHeader(headers) == Raise(IndexError) <==>
      AuthorizationHeader in headers && Lower(headers[AuthorizationHeader]) == "bearer"
  {
    if AuthorizationHeader in headers {
      var h := headers[AuthorizationHeader];
      SplitSingleField(h, ' ');
      if ' ' !in h {
        SplitNoSeparator(h, ' ');
      }
      if Lower(h) == "bearer" {
        BearerSchemeHasNoSpace(h);
      }
    }
  }

  /** Once the header has a second field, whatever follows it is ignored. */
  lemma ExtractIgnoresTrailingFields(headers: Headers, h: string, more: string)
    requires ' ' in h
    ensures GetTokenAuthHeader(headers[AuthorizationHeader := h + " " + more]) ==
            GetTokenAuthHeader(headers[AuthorizationHeader := h])
  {
    SplitSingleField(h, ' ');
    SplitConcat(h, more, ' ');
    var longer := Split(h + [' '] + more, ' ');
    assert longer[0] == Split(h, ' ')[0] && longer[1] == Split(h, ' ')[1];
  }

  /** A doubled space leaves the second field empty: 'JWT not found'. */
  lemma ExtractDoubleSpace()
    ensures GetTokenAuthHeader(map[AuthorizationHeader := "Bearer  x"]) == Raise(Auth(Unauthorized(JwtNotFound)))
  {
    LowerIsBearer("Bearer");
    SplitJoin(["Bearer", "", "x"], ' ');
    assert Join(["Bearer", "", "x"], ' ') == "Bearer  x";
  }

  /** A lone scheme fails on indexing. */
  lemma ExtractLoneScheme()
    ensures GetTokenAuthHeader(map[AuthorizationHeader := "Bearer"]) == Raise(IndexError)
  {
    LowerIsBearer("Bearer");
    ExtractIndexError(map[AuthorizationHeader := "Bearer"]);
  }

  /** A mixed-case scheme is accepted and a third field is ignored. */
  lemma ExtractMixedCase()
    ensures GetTokenAuthHeader(map[AuthorizationHeader := "bEaReR abc def"]) == Ok("abc")
  {
    LowerIsBearer("bEaReR");
    SplitJoin(["bEaReR", "abc", "def"], ' ');
    assert Join(["bEaReR", "abc", "def"], ' ') == "bEaReR abc def";
  }

  /** Another scheme is rejected with 'JWT not found'. */
  lemma ExtractOtherScheme()
    ensures GetTokenAuthHeader(map[AuthorizationHeader := "Basic abc"]) == Raise(Auth(Unauthorized(JwtNotFound)))
  {
    LowerIsBearer("Basic");
    SplitJoin(["Basic", "abc"], ' ');
    assert Join(["Basic", "abc"], ' ') == "Basic abc";
  }
}
