/** `BaseRedisRepository`: a string-valued cache over a Redis client, with every key put under
    the repository's prefix. The Redis server is a map from keys to stored bytes; expiry is
    recorded but time does not pass in the model. */
module RedisRepo {
  import opened Wrappers
  import Dict
  import Decimal
  import Utf8
  import opened PyValue
  import opened Errors

  /** A stored value: its bytes and the seconds it was given to live (`None`: no expiry). */
  datatype Entry = Entry(data: Utf8.Bytes, expiry: Option<nat>)

  type Store = map<string, Entry>

  /** A repository: the key prefix, and whether the client decodes replies to `str`
      (`decode_responses`, on in the application settings). */
  datatype Repo = Repo(prefix: string, decodeResponses: bool)

  /** What the client hands back for one key. */
  datatype Reply = BytesReply(bs: Utf8.Bytes) | TextReply(s: string) | IntReply(i: int)

  /** `_make_key`: `prefix:key`, or the key itself when the prefix is empty. */
  function MakeKey(repo: Repo, key: string): (k: string)
    ensures repo.prefix == "" ==> k == key
    ensures repo.prefix != "" ==> |k| == |repo.prefix| + 1 + |key| && k[..|repo.prefix|] == repo.prefix
    ensures repo.prefix != "" ==> k[|repo.prefix|] == ':' && k[|repo.prefix| + 1..] == key
  {
    if repo.prefix != "" then repo.prefix + ":" + key else key
  }

  /** Within one repository, different keys never share a Redis key. */
  lemma MakeKeyInjective(repo: Repo, a: string, b: string)
    requires MakeKey(repo, a) == MakeKey(repo, b)
    ensures a == b
  {
    if repo.prefix != "" {
      assert a == MakeKey(repo, a)[|repo.prefix| + 1..];
    }
  }

  /** `_serialize`: scalars through `str()`, lists and dicts through `json.dumps`, and `None`
      through `json.dumps` as well, which writes `null`. */
  function Serialize(v: Value): (r: string)
    ensures v.Str? ==> r == v.s
    ensures v.Int? ==> Decimal.ParseInt(r) == Some(v.i)
    ensures v.Bool? ==> r == (if v.b then "True" else "False")
    ensures v.List? || v.Object? ==> r == JsonDumps(v)
    ensures v.Nil? ==> r == "null"
  {
    match v
    case Str(s) => s
    case Int(i) => Decimal.IntToStringRoundTrip(i); Decimal.IntToString(i)
    case Bool(b) => if b then "True" else "False"
    case Nil => JsonDumps(v)
    case _ => JsonDumps(v)
  }

  /** `_deserialize`: bytes are decoded as UTF-8 (strictly), text is kept, anything else is a
      `TypeError`. */
  function Deserialize(reply: Reply): (r: Result<string, Error>)
    ensures reply.TextReply? ==> r == Ok(reply.s)
    ensures reply.BytesReply? && Utf8.Decode(reply.bs).Some? ==> r == Ok(Utf8.Decode(reply.bs).value)
    ensures reply.BytesReply? && Utf8.Decode(reply.bs).None? ==> r.Err? && r.error == Raised("UnicodeDecodeError", "'utf-8' codec can't decode bytes")
    ensures reply.IntReply? ==> r.Err? && r.error.Raised? && r.error.kind == "TypeError"
  {
    match reply
    case BytesReply(bs) =>
      (match Utf8.Decode(bs)
       case Some(s) => Ok(s)
       case None => Err(Raised("UnicodeDecodeError", "'utf-8' codec can't decode bytes")))
    case TextReply(s) => Ok(s)
    case IntReply(_) => Err(Raised("TypeError", "Expected bytes or str, got <class 'int'>"))
  }

  /** Redis `GET` through the client: `None` for an absent key; with `decode_responses` the
      client decodes the bytes itself and fails on invalid UTF-8. */
  function Fetch(st: Store, repo: Repo, redisKey: string): (r: Result<Option<Reply>, Error>)
    ensures redisKey !in st ==> r == Ok(None)
    ensures redisKey in st && !repo.decodeResponses ==> r == Ok(Some(BytesReply(st[redisKey].data)))
  {
    if redisKey !in st then Ok(None)
    else if !repo.decodeResponses then Ok(Some(BytesReply(st[redisKey].data)))
    else match Utf8.Decode(st[redisKey].data)
      case Some(s) => Ok(Some(TextReply(s)))
      case None => Err(Raised("UnicodeDecodeError", "'utf-8' codec can't decode bytes"))
  }

  /** `set`: a truthy `ttl` stores with `SETEX`, which Redis refuses for a negative time; `None`
      or `0` stores with a plain `SET`, without expiry. No other key changes. */
  function Set(st: Store, repo: Repo, key: string, v: Value, ttl: Option<int> := None): (r: Result<Store, Error>)
    ensures r.Err? <==> ttl.Some? && ttl.value < 0
    ensures r.Ok? ==> MakeKey(repo, key) in r.value
    ensures r.Ok? ==> r.value[MakeKey(repo, key)].data == Utf8.Encode(Serialize(v))
    ensures r.Ok? ==> (r.value[MakeKey(repo, key)].expiry.Some? <==> ttl.Some? && ttl.value != 0)
    ensures r.Ok? && ttl.Some? && ttl.value > 0 ==> r.value[MakeKey(repo, key)].expiry == Some(ttl.value)
    ensures r.Ok? ==> forall k | k != MakeKey(repo, key) ::
              (k in r.value <==> k in st) && (k in st ==> r.value[k] == st[k])
  {
    var k := MakeKey(repo, key);
    var data := Utf8.Encode(Serialize(v));
    if ttl.Some? && ttl.value != 0 then
      if ttl.value < 0 then Err(Raised("ResponseError", "invalid expire time in 'setex' command"))
      else Ok(st[k := Entry(data, Some(ttl.value))])
    else Ok(st[k := Entry(data, None)])
  }

  /** `get`: `None` for an absent key, otherwise the stored text. */
  function Get(st: Store, repo: Repo, key: string): (r: Result<Option<string>, Error>)
    ensures MakeKey(repo, key) !in st ==> r == Ok(None)
    ensures MakeKey(repo, key) in st ==>
              match Utf8.Decode(st[MakeKey(repo, key)].data)
              case Some(s) => r == Ok(Some(s))
              case None => r.Err?
  {
    var reply :- Fetch(st, repo, MakeKey(repo, key));
    if reply.None? then Ok(None)
    else
      var s :- Deserialize(reply.value);
      Ok(Some(s))
  }

  /** `delete`: the store without the key, and whether a key was removed. */
  function Delete(st: Store, repo: Repo, key: string): (r: (Store, bool))
    ensures r.1 <==> MakeKey(repo, key) in st
    ensures MakeKey(repo, key) !in r.0
    ensures forall k | k != MakeKey(repo, key) :: (k in r.0 <==> k in st) && (k in st ==> r.0[k] == st[k])
  {
    var k := MakeKey(repo, key);
    (st - {k}, k in st)
  }

  /** Storing a value and reading it back gives its serialised text; a string comes back as
      itself. */
  lemma SetGet(st: Store, repo: Repo, key: string, v: Value, ttl: Option<int>)
    requires Set(st, repo, key, v, ttl).Ok?
    ensures Get(Set(st, repo, key, v, ttl).value, repo, key) == Ok(Some(Serialize(v)))
    ensures v.Str? ==> Get(Set(st, repo, key, v, ttl).value, repo, key) == Ok(Some(v.s))
  {
    Utf8.DecodeEncode(Serialize(v));
  }

  /** Storing under one key leaves what every other key reads unchanged. */
  lemma SetOther(st: Store, repo: Repo, key: string, v: Value, ttl: Option<int>, other: string)
    requires Set(st, repo, key, v, ttl).Ok? && other != key
    ensures Get(Set(st, repo, key, v, ttl).value, repo, other) == Get(st, repo, other)
  {
    if MakeKey(repo, other) == MakeKey(repo, key) {
      MakeKeyInjective(repo, other, key);
    }
  }

  /** After a delete the key reads as absent, and a second delete removes nothing. */
  lemma DeleteGet(st: Store, repo: Repo, key: string)
    ensures Get(Delete(st, repo, key).0, repo, key) == Ok(None)
    ensures !Delete(Delete(st, repo, key).0, repo, key).1
  {
  }

  // ---------------------------------------------------------------------------------------
  // get_many

  /** Python truthiness of a reply: empty bytes and empty text are falsy. */
  predicate ReplyTruthy(reply: Reply) {
    match reply
    case BytesReply(bs) => |bs| > 0
    case TextReply(s) => |s| > 0
    case IntReply(i) => i != 0
  }

  /** One entry of `get_many`: a falsy reply becomes `None`. It agrees with `get`, except that
      an empty stored text reads as `None`. */
  function Lookup(st: Store, repo: Repo, key: string): (r: Result<Option<string>, Error>)
    ensures r.Err? <==> Get(st, repo, key).Err?
    ensures r.Ok? ==> r.value == match Get(st, repo, key).value
                                 case None => None
                                 case Some(s) => if s == "" then None else Some(s)
  {
    var k := MakeKey(repo, key);
    var reply :- Fetch(st, repo, k);
    if reply.None? then Ok(None)
    else
      Utf8.DecodeEmpty(st[k].data);
      if !ReplyTruthy(reply.value) then Ok(None)
      else
        var s :- Deserialize(reply.value);
        Ok(Some(s))
  }

  /** The value one key contributes to `get_many` once every lookup has succeeded. */
  function LookupValue(st: Store, repo: Repo, key: string): Option<string> {
    var x := Lookup(st, repo, key);
    if x.Ok? then x.value else None
  }

  /** The first failing lookup among `keys`, if any. */
  function FirstFailure(st: Store, repo: Repo, keys: seq<string>): (r: Option<Error>)
    ensures r.None? <==> forall i | 0 <= i < |keys| :: Lookup(st, repo, keys[i]).Ok?
    decreases |keys|
  {
    if |keys| == 0 then None
    else
      var x := Lookup(st, repo, keys[0]);
      if x.Err? then Some(x.error)
      else
        var r := FirstFailure(st, repo, keys[1..]);
        assert forall i | 1 <= i < |keys| :: keys[i] == keys[1..][i - 1];
        r
  }

  /** `get_many`: a dict keyed by the caller's keys (not the prefixed ones), in order of first
      occurrence, each holding what `Lookup` reads for it. */
  function GetMany(st: Store, repo: Repo, keys: seq<string>): (r: Result<Dict.Dict<string, Option<string>>, Error>)
    ensures r.Ok? <==> forall i | 0 <= i < |keys| :: Lookup(st, repo, keys[i]).Ok?
    ensures r.Ok? ==> Dict.KeysUnique(r.value)
    ensures r.Ok? ==> forall k :: Dict.HasKey(r.value, k) <==> k in keys
    ensures r.Ok? ==> forall i | 0 <= i < |keys| :: Dict.Get(r.value, keys[i]) == Some(Lookup(st, repo, keys[i]).value)
  {
    match FirstFailure(st, repo, keys)
    case Some(e) => Err(e)
    case None => Ok(Dict.PutMapped([], keys, k => LookupValue(st, repo, k)))
  }
}
