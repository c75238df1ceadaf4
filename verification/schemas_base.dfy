/** The shared base schemas: the cookie-token dependency and the creation contract's default. */
module SchemasBase {
  import opened Wrappers
  import Dict
  import Uuids
  import opened Errors

  type Cookies = Dict.Dict<string, string>

  /** `CookieTokenSchema(cookie_name, auto_error=True)`. */
  datatype CookieTokenSchema = CookieTokenSchema(cookieName: string, autoError: bool)

  function NewCookieTokenSchema(cookieName: string, autoError: bool := true): (s: CookieTokenSchema)
    ensures s.cookieName == cookieName && s.autoError == autoError
  {
    CookieTokenSchema(cookieName, autoError)
  }

  /** `CookieTokenSchema.__call__`: the named cookie of the request. A missing or empty cookie is
      an `InvalidTokenError` when `auto_error` is set and is handed back as it is otherwise. */
  function Call(schema: CookieTokenSchema, cookies: Cookies): (r: Result<Option<string>, Error>)
    ensures r.Err? <==> schema.autoError && (Dict.Get(cookies, schema.cookieName) in {None, Some("")})
    ensures r.Err? ==> r.error == Core(InvalidToken())
    ensures r.Ok? ==> r.value == Dict.Get(cookies, schema.cookieName)
  {
    var token := Dict.Get(cookies, schema.cookieName);
    if (token.None? || token.value == "") && schema.autoError then Err(Core(InvalidToken()))
    else Ok(token)
  }

  /** With `auto_error` set, a token that comes back is a present, non-empty cookie, and it is
      the same value the lenient form would return. */
  lemma StrictAgreesWithLenient(cookieName: string, cookies: Cookies)
    requires Call(NewCookieTokenSchema(cookieName), cookies).Ok?
    ensures Call(NewCookieTokenSchema(cookieName), cookies) == Call(NewCookieTokenSchema(cookieName, false), cookies)
    ensures Call(NewCookieTokenSchema(cookieName), cookies).value.Some?
    ensures Call(NewCookieTokenSchema(cookieName), cookies).value.value != ""
  {
  }

  /** The lenient form never raises, and a non-empty cookie passes both forms unchanged. */
  lemma LenientNeverRaises(cookieName: string, cookies: Cookies, token: string)
    requires Dict.KeysUnique(cookies)
    requires (cookieName, token) in cookies && token != ""
    ensures Call(NewCookieTokenSchema(cookieName, false), cookies) == Ok(Some(token))
    ensures Call(NewCookieTokenSchema(cookieName), cookies) == Ok(Some(token))
  {
    var i :| 0 <= i < |cookies| && cookies[i] == (cookieName, token);
    Dict.GetAt(cookies, i);
  }

  /** `CreateBaseModel`: an optional id. */
  datatype CreateBaseModel = CreateBaseModel(id: Option<Uuids.Uuid>)

  /** `CreateBaseModel()`: no id unless one is given. */
  function NewCreateBaseModel(id: Option<Uuids.Uuid> := None): (m: CreateBaseModel)
    ensures m.id == id
  {
    CreateBaseModel(id)
  }

  lemma CreateBaseModelDefault()
    ensures NewCreateBaseModel().id.None?
  {
  }
}
