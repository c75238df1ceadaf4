/** The structured application errors: `CoreException` (an HTTP exception carrying an error
    code, an error type and an `extras` dict) and the subclasses shared by every service. */
module Errors {
  import opened Wrappers
  import Dict
  import PyStr
  import Decimal
  import opened PyValue
  import Uuids

  type Extras = Dict.Dict<string, Value>
  type Headers = Dict.Dict<string, string>

  datatype CoreException = CoreException(
    statusCode: int,
    detail: string,
    errorCode: string,
    errorType: string,
    extras: Extras,
    headers: Option<Headers>)

  /** Every way a call in the model can fail: a structured error, or a built-in Python
      exception that nothing catches (`kind` is its class name). */
  datatype Error =
    | Core(e: CoreException)
    | Raised(kind: string, message: string)

  /** `x or {}` for an optional extras dict. */
  function ExtrasOrEmpty(extras: Option<Extras>): (r: Extras)
    ensures extras.None? ==> r == []
    ensures extras.Some? ==> r == extras.value
  {
    if extras.Some? then extras.value else []
  }

  /** `CoreException.__init__`. A falsy `error_type` (absent or empty) falls back to the name of
      the class being built; absent or empty extras become an empty dict. */
  function Make(className: string, statusCode: int, detail: string, errorCode: string,
                errorType: Option<string> := None, extras: Option<Extras> := None,
                headers: Option<Headers> := None): (r: CoreException)
    ensures r.statusCode == statusCode && r.detail == detail && r.errorCode == errorCode
    ensures r.headers == headers
    ensures errorType.Some? && errorType.value != "" ==> r.errorType == errorType.value
    ensures (errorType.None? || errorType.value == "") ==> r.errorType == className
    ensures extras.None? ==> r.extras == []
    ensures extras.Some? ==> r.extras == extras.value
  {
    var t := if errorType.Some? && errorType.value != "" then errorType.value else className;
    CoreException(statusCode, detail, errorCode, t, ExtrasOrEmpty(extras), headers)
  }

  /** `to_dict()`: `detail`, `error_code` and `error_type` always, `extras` only when it is
      non-empty. */
  function ToDict(e: CoreException): (d: Dict.Dict<string, Value>)
    ensures Dict.KeysUnique(d)
    ensures Dict.Get(d, "detail") == Some(Str(e.detail))
    ensures Dict.Get(d, "error_code") == Some(Str(e.errorCode))
    ensures Dict.Get(d, "error_type") == Some(Str(e.errorType))
    ensures Dict.HasKey(d, "extras") <==> |e.extras| > 0
    ensures |e.extras| > 0 ==> Dict.Get(d, "extras") == Some(Object(e.extras))
    ensures |d| == if |e.extras| > 0 then 4 else 3
  {
    var base := [("detail", Str(e.detail)), ("error_code", Str(e.errorCode)), ("error_type", Str(e.errorType))];
    var d := if |e.extras| > 0 then base + [("extras", Object(e.extras))] else base;
    assert d[0].0 == "detail" && d[1].0 == "error_code" && d[2].0 == "error_type";
    assert |d| == 4 ==> d[3].0 == "extras";
    d
  }

  /** What a client can read back from a serialised error: detail, code, type and extras. */
  datatype ErrorBody = ErrorBody(detail: string, errorCode: string, errorType: string, extras: Extras)

  /** Reads a `to_dict()` payload; a missing `extras` key means no extras. */
  function FromDict(d: Dict.Dict<string, Value>): (r: Option<ErrorBody>)
    ensures r.Some? ==> Dict.HasKey(d, "detail") && Dict.HasKey(d, "error_code") && Dict.HasKey(d, "error_type")
  {
    var detail, code, kind := Dict.Get(d, "detail"), Dict.Get(d, "error_code"), Dict.Get(d, "error_type");
    if detail.Some? && detail.value.Str? && code.Some? && code.value.Str? && kind.Some? && kind.value.Str? then
      match Dict.Get(d, "extras")
      case None => Some(ErrorBody(detail.value.s, code.value.s, kind.value.s, []))
      case Some(x) => if x.Object? then Some(ErrorBody(detail.value.s, code.value.s, kind.value.s, x.entries)) else None
    else None
  }

  /** The serialised form loses nothing but the status code and the headers. */
  lemma FromToDict(e: CoreException)
    ensures FromDict(ToDict(e)) == Some(ErrorBody(e.detail, e.errorCode, e.errorType, e.extras))
  {
    var d := ToDict(e);
    if |e.extras| == 0 {
      assert !Dict.HasKey(d, "extras");
    }
  }

  /** The part of `__str__` before the detail: `type[code] (HTTP status): `. */
  function Header(e: CoreException): string {
    e.errorType + "[" + e.errorCode + "] (HTTP " + Decimal.IntToString(e.statusCode) + "): "
  }

  /** `__str__()`: the header, the detail, and `, extras=<repr of the dict>` when extras is
      non-empty. */
  function ToString(e: CoreException): (s: string)
    ensures |Header(e) + e.detail| <= |s|
    ensures s[..|Header(e) + e.detail|] == Header(e) + e.detail
    ensures |s| == |Header(e) + e.detail| <==> |e.extras| == 0
    ensures |e.extras| > 0 ==> s[|Header(e) + e.detail|..] == ", extras=" + Repr(Object(e.extras))
  {
    var extrasStr := if |e.extras| > 0 then ", extras=" + Repr(Object(e.extras)) else "";
    var s := Header(e) + e.detail + extrasStr;
    assert s[..|Header(e) + e.detail|] == Header(e) + e.detail;
    s
  }

  /** The printed form determines the status code: two errors that differ only in it print
      differently. */
  lemma ToStringShowsStatus(e: CoreException, status: int)
    requires ToString(e) == ToString(e.(statusCode := status))
    ensures status == e.statusCode
  {
    var f := e.(statusCode := status);
    var a, b := Decimal.IntToString(e.statusCode), Decimal.IntToString(status);
    var p := e.errorType + "[" + e.errorCode + "] (HTTP ";
    var t := e.detail + (if |e.extras| > 0 then ", extras=" + Repr(Object(e.extras)) else "");
    ToStringParts(e);
    ToStringParts(f);
    var ra, rb := a + ("): " + t), b + ("): " + t);
    DropPrefix(p, ra, rb);
    // Both continue with the digits of the status and then `)`, which is not a digit.
    DigitsThenParen(a, t);
    DigitsThenParen(b, t);
    DigitsPrefix(ra, a, b);
    Decimal.IntToStringInjective(e.statusCode, status);
  }

  /** The printed form cut around the status: what comes before and after it does not depend
      on the status. */
  lemma ToStringParts(e: CoreException)
    ensures ToString(e) == (e.errorType + "[" + e.errorCode + "] (HTTP ") +
              (Decimal.IntToString(e.statusCode) +
               ("): " + (e.detail + (if |e.extras| > 0 then ", extras=" + Repr(Object(e.extras)) else ""))))
  {
  }

  lemma DropPrefix(p: string, x: string, y: string)
    requires p + x == p + y
    ensures x == y
  {
    assert x == (p + x)[|p|..];
    assert y == (p + y)[|p|..];
  }

  lemma DigitsThenParen(a: string, t: string)
    ensures |a| < |a + ("): " + t)|
    ensures (a + ("): " + t))[..|a|] == a && (a + ("): " + t))[|a|] == ')'
  {
  }

  /** Two printed integers that are both followed by the same non-digit are equal. */
  lemma DigitsPrefix(r: string, a: string, b: string)
    requires 1 <= |a| < |r| && 1 <= |b| < |r|
    requires r[..|a|] == a && r[..|b|] == b
    requires forall i | 1 <= i < |a| :: Decimal.IsDigit(a[i])
    requires forall i | 1 <= i < |b| :: Decimal.IsDigit(b[i])
    requires !Decimal.IsDigit(r[|a|]) && !Decimal.IsDigit(r[|b|])
    ensures a == b
  {
    assert forall i | 0 <= i < |a| :: r[i] == a[i];
    assert forall i | 0 <= i < |b| :: r[i] == b[i];
    assert |a| == |b|;
    assert a == r[..|a|];
  }

  // ---------------------------------------------------------------------------------------
  // Subclasses shared by the services

  /** `InvalidTokenError`: 401, code `INVALID_TOKEN` unless overridden. */
  function InvalidToken(detail: string := "Invalid or expired token", errorCode: string := "INVALID_TOKEN",
                        headers: Option<Headers> := None, extras: Option<Extras> := None): (r: CoreException)
    ensures r.statusCode == 401 && r.errorType == "InvalidTokenError"
    ensures r.detail == detail && r.errorCode == errorCode && r.headers == headers
    ensures r.extras == ExtrasOrEmpty(extras)
  {
    Make("InvalidTokenError", 401, detail, errorCode, Some("InvalidTokenError"), extras, headers)
  }

  /** `PermissionDeniedError`: 403, code `PERMISSION_DENIED` unless overridden. The identical
      class of the same name among the repository errors is this one too. */
  function PermissionDenied(detail: string := "Insufficient rights to perform the action",
                            errorCode: string := "PERMISSION_DENIED",
                            headers: Option<Headers> := None, extras: Option<Extras> := None): (r: CoreException)
    ensures r.statusCode == 403 && r.errorType == "PermissionDeniedError"
    ensures r.detail == detail && r.errorCode == errorCode && r.headers == headers
    ensures r.extras == ExtrasOrEmpty(extras)
  {
    Make("PermissionDeniedError", 403, detail, errorCode, Some("PermissionDeniedError"), extras, headers)
  }

  /** The default `PermissionDeniedError()` the token checks raise. */
  const Denied: CoreException := PermissionDenied()

  /** `CharacterIsNotOnlineError`: 403 `CHARACTER_NOT_ONLINE`. Without an explicit detail, the
      message names the character when one is given; the character's id is added to extras. */
  function CharacterIsNotOnline(characterId: Option<Uuids.Uuid> := None, detail: Option<string> := None,
                                errorCode: string := "CHARACTER_NOT_ONLINE",
                                extras: Option<Extras> := None, headers: Option<Headers> := None): (r: CoreException)
    ensures r.statusCode == 403 && r.errorType == "CharacterIsNotOnlineError" && r.errorCode == errorCode
    ensures detail.Some? ==> r.detail == detail.value
    ensures detail.None? && characterId.Some? ==>
              PyStr.InfixAt(r.detail, Uuids.ToString(characterId.value), 11) &&
              r.detail == "Character '" + Uuids.ToString(characterId.value) + "' is not online"
    ensures detail.None? && characterId.None? ==> r.detail == "Character is not online"
    ensures characterId.Some? ==> Dict.Get(r.extras, "character_id") == Some(Str(Uuids.ToString(characterId.value)))
    ensures characterId.None? ==> r.extras == ExtrasOrEmpty(extras)
    ensures forall k | k != "character_id" :: Dict.Get(r.extras, k) == Dict.Get(ExtrasOrEmpty(extras), k)
  {
    Make("CharacterIsNotOnlineError", 403, NotOnlineDetail(characterId, detail), errorCode,
         Some("CharacterIsNotOnlineError"), Some(NotOnlineExtras(characterId, extras)), headers)
  }

  /** The detail `CharacterIsNotOnlineError` reports: the caller's, or the f-string naming the
      character, or the generic message. */
  function NotOnlineDetail(characterId: Option<Uuids.Uuid>, detail: Option<string>): (d: string)
    ensures detail.Some? ==> d == detail.value
    ensures detail.None? && characterId.Some? ==> PyStr.InfixAt(d, Uuids.ToString(characterId.value), 11)
    ensures detail.None? && characterId.Some? ==> d == "Character '" + Uuids.ToString(characterId.value) + "' is not online"
    ensures detail.None? && characterId.None? ==> d == "Character is not online"
  {
    match detail
    case Some(t) => t
    case None =>
      if characterId.Some? then "Character '" + Uuids.ToString(characterId.value) + "' is not online"
      else "Character is not online"
  }

  function NotOnlineExtras(characterId: Option<Uuids.Uuid>, extras: Option<Extras>): (x: Extras)
    ensures characterId.Some? ==> Dict.Get(x, "character_id") == Some(Str(Uuids.ToString(characterId.value)))
    ensures characterId.None? ==> x == ExtrasOrEmpty(extras)
    ensures forall k | k != "character_id" :: Dict.Get(x, k) == Dict.Get(ExtrasOrEmpty(extras), k)
  {
    var base := ExtrasOrEmpty(extras);
    if characterId.None? then base
    else
      var v := Str(Uuids.ToString(characterId.value));
      assert forall k | k != "character_id" :: Dict.Get(Dict.Put(base, "character_id", v), k) == Dict.Get(base, k) by {
        forall k | k != "character_id"
          ensures Dict.Get(Dict.Put(base, "character_id", v), k) == Dict.Get(base, k)
        {
          Dict.PutOther(base, "character_id", v, k);
        }
      }
      Dict.Put(base, "character_id", v)
  }
}
