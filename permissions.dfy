/** The permission enforcer: `check_permissions(permission, payload)`. */
module Permissions {
  import opened Errors
  import opened PyStr

  /** A claim value of a decoded token: a string (iss, aud, sub), a number
      (exp, iat) or a list of strings (permissions). */
  datatype Claim = Text(text: string) | Number(number: int) | TextList(items: seq<string>)

  /** A decoded token payload: claim name to claim value. */
  type Payload = map<string, Claim>

  const PermissionsClaim := "permissions"

  /** Python's `item in value` for a claim value: list membership for a list,
      substring containment for a string, TypeError for a number. */
  function In(item: string, value: Claim): (r: Result<bool>)
    ensures r.Raise? <==> value.Number?
    ensures r.Raise? ==> r.exception == TypeError
    ensures value.TextList? ==> (r == Ok(true) <==> item in value.items)
    ensures value.Text? ==> (r == Ok(true) <==> exists i :: OccursAt(value.text, item, i))
  {
    match value
    case TextList(items) => Ok(item in items)
    case Text(text) =>
      ContainsAtOffset(text, item);
      Ok(Contains(text, item))
    case Number(_) => Raise(TypeError)
  }

  /** `check_permissions(permission, payload)`: True when the payload carries a
      permissions claim that contains `permission`, otherwise 'Permission not
      found in JWT'. It never returns False. */
  function CheckPermissions(permission: string, payload: Payload): (r: Result<bool>)
    ensures r != Ok(false)
    ensures r.Raise? ==> r.exception == TypeError || r.exception == Auth(Unauthorized(PermissionNotFound))
    ensures r == Raise(TypeError) <==> PermissionsClaim in payload && payload[PermissionsClaim].Number?
  {
    if PermissionsClaim in payload then
      var found :- In(permission, payload[PermissionsClaim]);
      if found then Ok(true) else Raise(Auth(Unauthorized(PermissionNotFound)))
    else Raise(Auth(Unauthorized(PermissionNotFound)))
  }

  /** The payload grants `permission`: it has a permissions list and
      `permission` is exactly one of its entries. */
  predicate Grants(payload: Payload, permission: string) {
    PermissionsClaim in payload && payload[PermissionsClaim].TextList? &&
    permission in payload[PermissionsClaim].items
  }

  /** With the permissions claim absent or a list, the check succeeds exactly
      when the payload grants the permission; an absent claim and a missing
      entry give the same 401 error. */
  lemma CheckPermissionsExact(permission: string, payload: Payload)
    requires PermissionsClaim !in payload || payload[PermissionsClaim].TextList?
    ensures CheckPermissions(permission, payload) == Ok(true) <==> Grants(payload, permission)
    ensures !Grants(payload, permission) ==>
      CheckPermissions(permission, payload) == Raise(Auth(Unauthorized(PermissionNotFound)))
    ensures !Grants(payload, permission) ==> RaisesUnauthorized(CheckPermissions(permission, payload))
  {
  }

  /** A string-valued permissions claim is searched as text: any substring of
      it passes the check. */
  lemma CheckPermissionsOnText(permission: string, payload: Payload)
    requires PermissionsClaim in payload && payload[PermissionsClaim].Text?
    ensures CheckPermissions(permission, payload) == Ok(true) <==>
      exists i :: OccursAt(payload[PermissionsClaim].text, permission, i)
  {
    ContainsAtOffset(payload[PermissionsClaim].text, permission);
  }

  /** Matching is exact and case-sensitive: a payload granting only
      "get:drinks-detail" passes that check and fails "post:drinks" and
      "GET:drinks-detail". */
  lemma CheckPermissionsExamples()
    ensures CheckPermissions("get:drinks-detail", map[PermissionsClaim := TextList(["get:drinks-detail"])]) == Ok(true)
    ensures CheckPermissions("post:drinks", map[PermissionsClaim := TextList(["get:drinks-detail"])]) ==
            Raise(Auth(Unauthorized(PermissionNotFound)))
    ensures CheckPermissions("GET:drinks-detail", map[PermissionsClaim := TextList(["get:drinks-detail"])]) ==
            Raise(Auth(Unauthorized(PermissionNotFound)))
  {
    assert "post:drinks" != "get:drinks-detail";
    assert "GET:drinks-detail"[0] != "get:drinks-detail"[0];
  }
}
