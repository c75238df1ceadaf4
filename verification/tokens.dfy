/** Access-token and service-token decoding: the claim checks `decode_access_token` applies to
    a verified JWT payload, and the pass-through of `decode_service_token`. Signature, expiry and
    audience verification belong to the JWT library and enter as the `Decoder` parameter. */
module Tokens {
  import opened Wrappers
  import Dict
  import opened PyValue
  import Uuids
  import opened Errors

  type Payload = Dict.Dict<string, Value>

  /** `jwt.decode(token, key, algorithms=[alg], audience=aud)`: the payload, or `None` where the
      library raises `JWTError` (bad signature, expired, wrong audience, malformed). */
  type Decoder = (string, Option<string>) -> Option<Payload>

  /** `UserRole`. */
  datatype Role = Admin | Moderator | User

  function RoleValue(r: Role): string {
    match r
    case Admin => "admin"
    case Moderator => "moderator"
    case User => "user"
  }

  /** `UserRole(v)`: the member whose value is `v`, or `None` where the enum raises
      `ValueError` (anything but one of the three strings, `None` included). */
  function ParseRole(v: Value): (r: Option<Role>)
    ensures r.Some? ==> v == Str(RoleValue(r.value))
    ensures r.None? ==> forall role: Role :: v != Str(RoleValue(role))
  {
    match v
    case Str(s) =>
      if s == "admin" then Some(Admin)
      else if s == "moderator" then Some(Moderator)
      else if s == "user" then Some(User)
      else None
    case _ => None
  }

  /** Every role is parsed back from its value. */
  lemma ParseRoleValue(r: Role)
    ensures ParseRole(Str(RoleValue(r))) == Some(r)
  {
    match r
    case Admin =>
    case Moderator => assert "moderator" != "admin";
    case User => assert "user" != "admin" && "user" != "moderator";
  }

  /** `UserTokenDataReadSchema`; `expiration` is the POSIX timestamp `datetime.fromtimestamp`
      was given. */
  datatype TokenData = TokenData(userId: Uuids.Uuid, characterId: Option<Uuids.Uuid>, role: Role,
                                 isMain: bool, expiration: int)

  const NoReplace: string := "' object has no attribute 'replace'"
  const NotInteger: string := "' object cannot be interpreted as an integer"

  /** A string-to-id reader; the claim checks are stated for any, and `decode_access_token`
      uses `UUID(hex)`, which is `Uuids.Parse`. */
  type Parser = string -> Option<Uuids.Uuid>

  /** `UUID(v)` inside `try/except ValueError: raise PermissionDeniedError()`: a string is
      parsed and a malformed one is denied; `UUID` calls `v.replace` first, so any other value
      raises an `AttributeError` that nothing catches. */
  function ClaimUuid(v: Value, parse: Parser): (r: Result<Uuids.Uuid, Error>)
    ensures r.Ok? <==> v.Str? && parse(v.s).Some?
    ensures r.Ok? ==> parse(v.s) == Some(r.value)
    ensures v.Str? && r.Err? ==> r.error == Core(Denied)
    ensures !v.Str? ==> r.Err? && r.error.Raised? && r.error.kind == "AttributeError"
  {
    match v
    case Str(s) =>
      (match parse(s)
       case Some(u) => Ok(u)
       case None => Err(Core(Denied)))
    case _ => Err(Raised("AttributeError", "'" + TypeName(v) + NoReplace))
  }

  /** The canonical form of an id is accepted as that id. */
  lemma ClaimUuidOfString(u: Uuids.Uuid)
    ensures ClaimUuid(Str(Uuids.ToString(u)), Uuids.Parse) == Ok(u)
    ensures Truthy(Str(Uuids.ToString(u)))
  {
    Uuids.ParseToString(u);
  }

  /** `UUID(v) if v else None`. */
  function OptionalClaimUuid(v: Value, parse: Parser): (r: Result<Option<Uuids.Uuid>, Error>)
    ensures !Truthy(v) ==> r == Ok(None)
    ensures Truthy(v) ==> (r.Ok? <==> ClaimUuid(v, parse).Ok?)
    ensures Truthy(v) && r.Ok? ==> r.value == Some(ClaimUuid(v, parse).value)
    ensures Truthy(v) && r.Err? ==> r.error == ClaimUuid(v, parse).error
  {
    if !Truthy(v) then Ok(None)
    else
      match ClaimUuid(v, parse)
      case Ok(u) => Ok(Some(u))
      case Err(e) => Err(e)
  }

  /** `datetime.fromtimestamp(v)` for the values a payload can hold: an integer (a `bool` is
      one) is taken as seconds; anything else is a `TypeError`. */
  function Timestamp(v: Value): (r: Result<int, Error>)
    ensures r.Ok? <==> v.Int? || v.Bool?
    ensures v.Int? ==> r == Ok(v.i)
    ensures v.Bool? ==> r == Ok(if v.b then 1 else 0)
    ensures r.Err? ==> r.error.Raised? && r.error.kind == "TypeError"
  {
    match v
    case Int(i) => Ok(i)
    case Bool(b) => Ok(if b then 1 else 0)
    case _ => Err(Raised("TypeError", "'" + TypeName(v) + NotInteger))
  }

  /** The strings pydantic reads as `False` and as `True`, once ASCII capitals are lowered. */
  const FalseWords: seq<string> := ["0", "off", "f", "false", "n", "no"]
  const TrueWords: seq<string> := ["1", "on", "t", "true", "y", "yes"]

  /** `s` with the ASCII capitals made lower case; other characters stay. */
  function AsciiLower(s: string): (r: string)
    ensures |r| == |s|
    ensures forall i | 0 <= i < |s| :: !('A' <= r[i] <= 'Z')
    ensures forall i | 0 <= i < |s| :: r[i] == s[i] || ('A' <= s[i] <= 'Z' && r[i] as int == s[i] as int + 32)
  {
    seq(|s|, i requires 0 <= i < |s| => if 'A' <= s[i] <= 'Z' then (s[i] as int + 32) as char else s[i])
  }

  const UninterpretedBool: string := "is_main: Input should be a valid boolean, unable to interpret input"
  const NotBool: string := "is_main: Input should be a valid boolean"

  /** Pydantic's lax `bool` validation: a bool as it is, the integers 0 and 1, and the words
      above in any ASCII case; anything else (`None` included) is a `ValidationError`. */
  function LaxBool(v: Value): (r: Result<bool, Error>)
    ensures v.Bool? ==> r == Ok(v.b)
    ensures v.Int? ==> (r.Ok? <==> v.i == 0 || v.i == 1) && (r.Ok? ==> r.value == (v.i == 1))
    ensures v.Str? && r.Ok? ==> AsciiLower(v.s) in (if r.value then TrueWords else FalseWords)
    ensures v.Str? && r.Err? ==> AsciiLower(v.s) !in TrueWords && AsciiLower(v.s) !in FalseWords
    ensures v.Nil? || v.List? || v.Object? ==> r.Err?
    ensures r.Err? ==> r.error.Raised? && r.error.kind == "ValidationError"
  {
    match v
    case Bool(b) => Ok(b)
    case Int(i) =>
      if i == 0 then Ok(false)
      else if i == 1 then Ok(true)
      else Err(Raised("ValidationError", UninterpretedBool))
    case Str(s) =>
      var w := AsciiLower(s);
      if w in FalseWords then Ok(false)
      else if w in TrueWords then Ok(true)
      else Err(Raised("ValidationError", UninterpretedBool))
    case _ => Err(Raised("ValidationError", NotBool))
  }

  /** The five claims `decode_access_token` reads with `payload.get`. */
  datatype Claimed = Claimed(userId: Value, characterId: Value, role: Value, exp: Value, isMain: Value)

  /** Reading the claims: an absent key reads as `None`, except `is_main`, which defaults to
      `False`. */
  function Read(payload: Payload): (c: Claimed)
    ensures c.userId == Member(payload, "user_id") && c.characterId == Member(payload, "character_id")
    ensures c.role == Member(payload, "role") && c.exp == Member(payload, "exp")
    ensures Dict.HasKey(payload, "is_main") ==> c.isMain == Member(payload, "is_main")
    ensures !Dict.HasKey(payload, "is_main") ==> c.isMain == Bool(false)
  {
    Claimed(Member(payload, "user_id"), Member(payload, "character_id"), Member(payload, "role"),
            Member(payload, "exp"),
            if Dict.HasKey(payload, "is_main") then Member(payload, "is_main") else Bool(false))
  }

  /** The identifier claims have types `UUID` accepts without an `AttributeError`. */
  predicate IdsWellTyped(c: Claimed) {
    (c.userId.Nil? || c.userId.Str?) && (!Truthy(c.characterId) || c.characterId.Str?)
  }

  /** The claim checks of `decode_access_token`, in source order: a missing `user_id`, a
      malformed `user_id` or truthy `character_id`, a missing `exp` and an unknown role are each
      `PermissionDeniedError`, as long as no earlier claim has the wrong type; a built-in
      exception escapes only from a claim of the wrong type; accepted claims carry the parsed
      ids, the role, the timestamp and the flag. */
  function CheckClaims(c: Claimed, parse: Parser): (r: Result<TokenData, Error>)
    ensures c.userId == Nil ==> r == Err(Core(Denied))
    ensures c.userId.Str? && parse(c.userId.s).None? ==> r == Err(Core(Denied))
    ensures IdsWellTyped(c) && Truthy(c.characterId) && parse(c.characterId.s).None? ==> r == Err(Core(Denied))
    ensures IdsWellTyped(c) && c.exp == Nil ==> r == Err(Core(Denied))
    ensures IdsWellTyped(c) && ParseRole(c.role).None? ==> r == Err(Core(Denied))
    ensures r.Err? && r.error.Core? ==> r.error.e == Denied
    ensures r.Err? && r.error.Raised? ==> !IdsWellTyped(c) || Timestamp(c.exp).Err? || LaxBool(c.isMain).Err?
    ensures r.Ok? ==> c.userId.Str? && parse(c.userId.s) == Some(r.value.userId)
    ensures r.Ok? ==> OptionalClaimUuid(c.characterId, parse) == Ok(r.value.characterId)
    ensures r.Ok? ==> ParseRole(c.role) == Some(r.value.role)
    ensures r.Ok? ==> Timestamp(c.exp) == Ok(r.value.expiration)
    ensures r.Ok? ==> LaxBool(c.isMain) == Ok(r.value.isMain)
  {
    if c.userId == Nil then Err(Core(Denied))
    else
      match ClaimUuid(c.userId, parse)
      case Err(e) => Err(e)
      case Ok(userId) =>
        match OptionalClaimUuid(c.characterId, parse)
        case Err(e) => Err(e)
        case Ok(characterId) =>
          if c.exp == Nil then Err(Core(Denied))
          else
            match ParseRole(c.role)
            case None => Err(Core(Denied))
            case Some(roleEnum) =>
              match Timestamp(c.exp)
              case Err(e) => Err(e)
              case Ok(expiration) =>
                match LaxBool(c.isMain)
                case Err(e) => Err(e)
                case Ok(main) => Ok(TokenData(userId, characterId, roleEnum, main, expiration))
  }

  /** `DecodeAccessTokenService.decode_access_token`: a token the library rejects is
      `PermissionDeniedError`; a verified one goes through the claim checks. */
  function DecodeAccessToken(decode: Decoder, token: string): (r: Result<TokenData, Error>)
    ensures decode(token, None).None? ==> r == Err(Core(Denied))
    ensures decode(token, None).Some? ==> r == CheckClaims(Read(decode(token, None).value), Uuids.Parse)
    ensures r.Ok? && !Dict.HasKey(decode(token, None).value, "is_main") ==> !r.value.isMain
  {
    match decode(token, None)
    case None => Err(Core(Denied))
    case Some(payload) =>
      CheckClaims(Read(payload), Uuids.Parse)
  }

  /** `DecodeTokenService.decode_service_token`: the verified payload unchanged, or
      `PermissionDeniedError` when the library rejects the token or its audience. */
  function DecodeServiceToken(decode: Decoder, token: string, expectedAudience: string): (r: Result<Payload, Error>)
    ensures r.Ok? <==> decode(token, Some(expectedAudience)).Some?
    ensures r.Ok? ==> r.value == decode(token, Some(expectedAudience)).value
    ensures r.Err? ==> r.error == Core(Denied)
  {
    match decode(token, Some(expectedAudience))
    case None => Err(Core(Denied))
    case Some(payload) => Ok(payload)
  }

  // ---------------------------------------------------------------------------------------
  // The claims a valid token carries

  /** A value pydantic accepts for `is_main`. */
  predicate BoolLike(v: Value) {
    v.Bool? || v == Int(0) || v == Int(1) || (v.Str? && AsciiLower(v.s) in TrueWords + FalseWords)
  }

  /** The claims `decode_access_token` accepts, stated claim by claim. */
  predicate ValidClaims(c: Claimed, parse: Parser) {
    c.userId.Str? && parse(c.userId.s).Some? &&
    (Truthy(c.characterId) ==> c.characterId.Str? && parse(c.characterId.s).Some?) &&
    (c.exp.Int? || c.exp.Bool?) &&
    c.role in {Str("admin"), Str("moderator"), Str("user")} &&
    BoolLike(c.isMain)
  }

  /** The claim checks pass exactly on valid claims. */
  lemma CheckClaimsOk(c: Claimed, parse: Parser)
    ensures CheckClaims(c, parse).Ok? <==> ValidClaims(c, parse)
  {
    assert ParseRole(c.role).Some? <==> c.role in {Str("admin"), Str("moderator"), Str("user")};
    assert LaxBool(c.isMain).Ok? <==> BoolLike(c.isMain);
  }

  /** An optional id as a claim: `null`, or its canonical form. */
  function IdClaim(c: Option<Uuids.Uuid>): Value {
    match c
    case None => Nil
    case Some(u) => Str(Uuids.ToString(u))
  }

  /** An optional id claim is read back as that id. */
  lemma OptionalClaimUuidOf(c: Option<Uuids.Uuid>)
    ensures OptionalClaimUuid(IdClaim(c), Uuids.Parse) == Ok(c)
  {
    if c.Some? {
      ClaimUuidOfString(c.value);
    }
  }

  /** The payload the login service signs for `t`: both ids in canonical form, the role's
      value, the timestamp and the flag. */
  function Claims(t: TokenData): (p: Payload) {
    [("user_id", Str(Uuids.ToString(t.userId))),
     ("character_id", IdClaim(t.characterId)),
     ("role", Str(RoleValue(t.role))),
     ("exp", Int(t.expiration)),
     ("is_main", Bool(t.isMain))]
  }

  /** Looking each key up in a five-entry dict with distinct keys. */
  lemma Lookup5(e0: (string, Value), e1: (string, Value), e2: (string, Value), e3: (string, Value), e4: (string, Value))
    requires e0.0 != e1.0 && e0.0 != e2.0 && e0.0 != e3.0 && e0.0 != e4.0
    requires e1.0 != e2.0 && e1.0 != e3.0 && e1.0 != e4.0
    requires e2.0 != e3.0 && e2.0 != e4.0 && e3.0 != e4.0
    ensures Dict.Get([e0, e1, e2, e3, e4], e0.0) == Some(e0.1)
    ensures Dict.Get([e0, e1, e2, e3, e4], e1.0) == Some(e1.1)
    ensures Dict.Get([e0, e1, e2, e3, e4], e2.0) == Some(e2.1)
    ensures Dict.Get([e0, e1, e2, e3, e4], e3.0) == Some(e3.1)
    ensures Dict.Get([e0, e1, e2, e3, e4], e4.0) == Some(e4.1)
  {
    var p := [e0, e1, e2, e3, e4];
    assert p[0] == e0 && p[1] == e1 && p[2] == e2 && p[3] == e3 && p[4] == e4;
    assert Dict.Find(p, e0.0) == Some(0);
    assert Dict.Find(p, e1.0) == Some(1);
    assert Dict.Find(p, e2.0) == Some(2);
    assert Dict.Find(p, e3.0) == Some(3);
    assert Dict.Find(p, e4.0) == Some(4);
  }

  /** The claims read from `Claims(t)`. */
  lemma ReadClaims(t: TokenData)
    ensures Read(Claims(t)) == Claimed(Str(Uuids.ToString(t.userId)), IdClaim(t.characterId),
                                       Str(RoleValue(t.role)), Int(t.expiration), Bool(t.isMain))
  {
    var p := Claims(t);
    assert "user_id"[0] != "is_main"[0];
    Lookup5(p[0], p[1], p[2], p[3], p[4]);
    assert p == [p[0], p[1], p[2], p[3], p[4]];
  }

  /** Claims that each read as the matching field of `t` are accepted as `t`. */
  lemma CheckClaimsAccepts(c: Claimed, parse: Parser, t: TokenData)
    requires c.userId.Str? && parse(c.userId.s) == Some(t.userId)
    requires OptionalClaimUuid(c.characterId, parse) == Ok(t.characterId)
    requires c.exp == Int(t.expiration)
    requires ParseRole(c.role) == Some(t.role)
    requires LaxBool(c.isMain) == Ok(t.isMain)
    ensures CheckClaims(c, parse) == Ok(t)
  {
  }

  /** Checking the claims of a token issued for `t` gives `t` back. */
  lemma CheckClaimsRoundTrip(t: TokenData)
    ensures CheckClaims(Read(Claims(t)), Uuids.Parse) == Ok(t)
  {
    ReadClaims(t);
    Uuids.ParseToString(t.userId);
    OptionalClaimUuidOf(t.characterId);
    ParseRoleValue(t.role);
    CheckClaimsAccepts(Read(Claims(t)), Uuids.Parse, t);
  }
}
