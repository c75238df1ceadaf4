/** `FileManagmentService`: uploaded files live in object storage under a generated path, their
    records in the `files` table, and a Redis cache (prefix `files`) keeps presigned URLs and
    serialised records. Storage answers (did the upload or the delete succeed, which URL it
    signs for a path), the generated ids and the database's constraint verdicts come in as
    oracles; MD5 is an opaque function `digest`. */
module FileService {
  import opened Wrappers
  import PyStr
  import Uuids
  import Utf8
  import Dict
  import opened PyValue
  import opened Errors
  import CoreErrors
  import FileErrors
  import RedisRepo
  import Repository

  type Uuid = Uuids.Uuid

  /** A row of `files` (`FileReadDBSchema`; the timestamps are not modelled). */
  datatype FileRecord = FileRecord(id: Uuid, path: string, creatorUserId: Option<Uuid>, size: int,
                                   contentType: string, filename: string, templateName: Option<string>)

  /** `FileCreateSchema`: optional template and display names, and the storage sub-directory. */
  datatype FileCreate = FileCreate(templateName: Option<string>, filename: Option<string>, subdir: string)

  /** The sub-directory `FileCreateSchema` uses when none is given. */
  const DefaultSubdir := "default"

  /** An `UploadFile` as the framework hands it over: name, content type and size may be absent. */
  datatype Upload = Upload(filename: Option<string>, contentType: Option<string>, size: Option<int>)

  /** `FileReadSchema`: the record without its path, with the URL. */
  datatype FileRead = FileRead(id: Uuid, url: string, creatorUserId: Option<Uuid>, size: int,
                               contentType: string, filename: string, templateName: Option<string>)

  /** The service's configuration: the storage root, the cache lifetime, MD5's hex digest, the
      URL storage signs for a path, the exception storage raises instead when it cannot sign
      the path (`None`: it signs), and the JSON text `json.dumps(..., default=str)` writes for
      a record. */
  datatype Config = Config(standartPath: string, ttl: int, digest: string -> string, sign: string -> string,
                           signFailure: string -> Option<Error>, dump: FileRecord -> string)

  /** The lifetime of a cache entry unless the service is given another: thirty minutes. */
  const DefaultTtl: int := 30 * 60

  /** The content type used when the upload does not name one. */
  const DefaultContentType := "application/octet-stream"

  /** The cache the service is wired to (`FileRedisRepository`, with `decode_responses` on). */
  const Cache := RedisRepo.Repo("files", true)

  /** Everything the service reads and writes: the table, the cache and the stored paths. */
  datatype State = State(files: Repository.Table<FileRecord>, cache: RedisRepo.Store, objects: set<string>)

  /** What an operation leaves behind and what it answers; the state holds whatever happened
      before an error. */
  datatype Outcome<T> = Outcome(state: State, result: Result<T, Error>)

  /** `FileManagmentService(..., standart_path, ttl=30 * 60)`. */
  function NewConfig(standartPath: string, digest: string -> string, sign: string -> string,
                     signFailure: string -> Option<Error>, dump: FileRecord -> string,
                     ttl: int := DefaultTtl): (r: Config)
    ensures r.standartPath == standartPath && r.ttl == ttl
    ensures r.digest == digest && r.sign == sign && r.signFailure == signFailure && r.dump == dump
  {
    Config(standartPath, ttl, digest, sign, signFailure, dump)
  }

  /** `x or fallback` for an optional string. */
  function OrElse(x: Option<string>, fallback: string): (r: string)
    ensures x.Some? && x.value != "" ==> r == x.value
    ensures x.None? || x.value == "" ==> r == fallback
  {
    if x.Some? && x.value != "" then x.value else fallback
  }

  /** `FileReadSchema(**record.model_dump(exclude={"path"}), url=url)`. */
  function ReadOf(rec: FileRecord, url: string): (r: FileRead)
    ensures r.id == rec.id && r.url == url && r.creatorUserId == rec.creatorUserId && r.size == rec.size
    ensures r.contentType == rec.contentType && r.filename == rec.filename && r.templateName == rec.templateName
  {
    FileRead(rec.id, url, rec.creatorUserId, rec.size, rec.contentType, rec.filename, rec.templateName)
  }

  // ---------------------------------------------------------------------------------------
  // Paths

  /** `_get_extension`: `.jpg` for a missing or empty name or one without a dot; otherwise a dot
      and the lower-cased text after the last dot. */
  function GetExtension(filename: Option<string>): (r: string)
    ensures filename.None? || '.' !in filename.value ==> r == ".jpg"
    ensures filename.Some? && '.' in filename.value ==> |r| >= 1 && r[0] == '.' && '.' !in r[1..]
    ensures forall i | 1 <= i < |r| :: !PyStr.IsUpper(r[i])
  {
    if filename.None? || filename.value == "" then ".jpg"
    else
      var parts := PyStr.Split(filename.value, '.');
      if |parts| > 1 then
        var last := parts[|parts| - 1];
        var low := PyStr.Lower(last);
        assert forall i | 0 <= i < |low| :: low[i] != '.' by {
          forall i | 0 <= i < |low| ensures low[i] != '.' {
            assert last[i] != '.';
          }
        }
        var r := "." + low;
        assert r[1..] == low;
        r
      else
        ".jpg"
  }

  /** The extension is the lower-cased text after the last dot, whatever comes before it. */
  lemma ExtensionAfterLastDot(base: string, ext: string)
    requires '.' !in ext
    ensures GetExtension(Some(base + "." + ext)) == "." + PyStr.Lower(ext)
  {
    var ps := PyStr.Split(base, '.');
    var parts := ps + [ext];
    PyStr.JoinSnoc(ps, ext, ".");
    assert PyStr.Join(parts, ".") == base + "." + ext;
    assert forall i | 0 <= i < |parts| :: '.' !in parts[i] by {
      forall i | 0 <= i < |parts| ensures '.' !in parts[i] {
        if i < |ps| { assert parts[i] == ps[i]; }
      }
    }
    PyStr.SplitJoin(parts, '.');
    assert (base + "." + ext)[|base|] == '.';
  }

  /** The directory part of a storage path: `standart_path/subdir/`. */
  function Dir(cfg: Config, subdir: string): string {
    cfg.standartPath + "/" + subdir + "/"
  }

  /** `_generate_photo_path`: the directory, the id, then the extension. */
  function PhotoPath(cfg: Config, id: Uuid, subdir: string, filename: Option<string>): string {
    Dir(cfg, subdir) + Uuids.ToString(id) + GetExtension(filename)
  }

  /** A path cuts into the directory, the 36 characters of the id and the extension. */
  lemma PhotoPathParts(cfg: Config, id: Uuid, subdir: string, filename: Option<string>)
    ensures var r, n := PhotoPath(cfg, id, subdir, filename), |Dir(cfg, subdir)|;
      |r| == n + 36 + |GetExtension(filename)| &&
      r[..n] == Dir(cfg, subdir) && r[n..n + 36] == Uuids.ToString(id) && r[n + 36..] == GetExtension(filename)
  {
    PyStr.Concat3(Dir(cfg, subdir), Uuids.ToString(id), GetExtension(filename));
  }


  /** Files with different ids never share a path in one sub-directory. */
  lemma PhotoPathInjective(cfg: Config, a: Uuid, b: Uuid, subdir: string, f: Option<string>, g: Option<string>)
    requires PhotoPath(cfg, a, subdir, f) == PhotoPath(cfg, b, subdir, g)
    ensures a == b
  {
    PhotoPathParts(cfg, a, subdir, f);
    PhotoPathParts(cfg, b, subdir, g);
    Uuids.ToStringInjective(a, b);
  }

  // ---------------------------------------------------------------------------------------
  // Cache keys

  /** `_make_url_cache_key`: `url:` and the MD5 digest of the path. */
  function UrlCacheKey(cfg: Config, path: string): string {
    "url:" + cfg.digest(path)
  }

  /** `_make_file_cache_key`: `file:` and the id. */
  function FileCacheKey(id: Uuid): string {
    "file:" + Uuids.ToString(id)
  }

  /** A URL entry and a record entry never share a key, and record keys tell ids apart. */
  lemma CacheKeysDistinct(cfg: Config, path: string, id: Uuid, other: Uuid)
    ensures UrlCacheKey(cfg, path) != FileCacheKey(id)
    ensures FileCacheKey(id) == FileCacheKey(other) ==> id == other
  {
    assert UrlCacheKey(cfg, path)[0] == 'u' && FileCacheKey(id)[0] == 'f';
    if FileCacheKey(id) == FileCacheKey(other) {
      assert Uuids.ToString(id) == FileCacheKey(id)[5..];
      assert Uuids.ToString(other) == FileCacheKey(other)[5..];
      Uuids.ToStringInjective(id, other);
    }
  }

  ghost predicate Injective(f: string -> string) {
    forall a, b :: f(a) == f(b) ==> a == b
  }

  /** Different paths have different URL keys when the digest is injective. */
  lemma UrlCacheKeyInjective(cfg: Config, p: string, q: string)
    requires Injective(cfg.digest) && UrlCacheKey(cfg, p) == UrlCacheKey(cfg, q)
    ensures p == q
  {
    assert cfg.digest(p) == UrlCacheKey(cfg, p)[4..];
  }

  // ---------------------------------------------------------------------------------------
  // The URL cache

  /** The truthy URL the cache holds for a path, if it can be read. */
  function CachedUrl(cache: RedisRepo.Store, cfg: Config, path: string): Option<string> {
    match RedisRepo.Get(cache, Cache, UrlCacheKey(cfg, path))
    case Ok(Some(u)) => if u != "" then Some(u) else None
    case _ => None
  }

  /** What `get_file_url` leaves in the cache, what it answers, and whether it asked storage. */
  datatype Fetched = Fetched(cache: RedisRepo.Store, url: Result<string, Error>, signed: bool)

  /** Storage signs the path without raising. */
  predicate Signs(cfg: Config, path: string) {
    cfg.signFailure(path).None?
  }

  /** `get_file_url`: a truthy cached URL is returned as it is; otherwise storage is asked, and
      the exception it raises propagates with the cache untouched, while a URL it signs is
      cached for `ttl` seconds and returned. */
  function GetFileUrl(cache: RedisRepo.Store, cfg: Config, path: string): (r: Fetched)
    ensures RedisRepo.Get(cache, Cache, UrlCacheKey(cfg, path)).Err? ==>
              r.cache == cache && !r.signed && r.url == Err(RedisRepo.Get(cache, Cache, UrlCacheKey(cfg, path)).error)
    ensures r.url.Ok? && !r.signed <==> CachedUrl(cache, cfg, path).Some?
    ensures r.url.Ok? && !r.signed ==> r.url.value == CachedUrl(cache, cfg, path).value
    ensures !r.signed && r.url.Ok? ==> r.cache == cache
    ensures RedisRepo.Get(cache, Cache, UrlCacheKey(cfg, path)).Ok? && CachedUrl(cache, cfg, path).None? ==> r.signed
    ensures r.signed ==> (r.url.Ok? <==> Signs(cfg, path) && cfg.ttl >= 0)
    ensures r.signed && !Signs(cfg, path) ==> r.url == Err(cfg.signFailure(path).value)
    ensures r.signed && r.url.Ok? ==>
              r.url.value == cfg.sign(path) &&
              r.cache == RedisRepo.Set(cache, Cache, UrlCacheKey(cfg, path), Str(cfg.sign(path)), Some(cfg.ttl)).value
    ensures r.signed && r.url.Err? ==> r.cache == cache
  {
    var key := UrlCacheKey(cfg, path);
    match RedisRepo.Get(cache, Cache, key)
    case Err(e) => Fetched(cache, Err(e), false)
    case Ok(cached) =>
      if cached.Some? && cached.value != "" then Fetched(cache, Ok(cached.value), false)
      else if !Signs(cfg, path) then Fetched(cache, Err(cfg.signFailure(path).value), true)
      else
        var url := cfg.sign(path);
        match RedisRepo.Set(cache, Cache, key, Str(url), Some(cfg.ttl))
        case Err(e) => Fetched(cache, Err(e), true)
        case Ok(c) => Fetched(c, Ok(url), true)
  }

  /** After a miss has cached a non-empty URL, the next lookup is answered from the cache. */
  lemma GetFileUrlTwice(cache: RedisRepo.Store, cfg: Config, path: string)
    requires GetFileUrl(cache, cfg, path).signed && GetFileUrl(cache, cfg, path).url.Ok?
    requires cfg.sign(path) != ""
    ensures var f := GetFileUrl(cache, cfg, path);
            GetFileUrl(f.cache, cfg, path) == Fetched(f.cache, Ok(cfg.sign(path)), false)
  {
    RedisRepo.SetGet(cache, Cache, UrlCacheKey(cfg, path), Str(cfg.sign(path)), Some(cfg.ttl));
  }

  /** `_cache_file_url`. */
  function CacheFileUrl(cache: RedisRepo.Store, cfg: Config, path: string, url: string): (r: Result<RedisRepo.Store, Error>)
    ensures r.Ok? <==> cfg.ttl >= 0
    ensures r.Ok? ==> RedisRepo.Get(r.value, Cache, UrlCacheKey(cfg, path)) == Ok(Some(url))
  {
    var r := RedisRepo.Set(cache, Cache, UrlCacheKey(cfg, path), Str(url), Some(cfg.ttl));
    assert r.Ok? ==> RedisRepo.Get(r.value, Cache, UrlCacheKey(cfg, path)) == Ok(Some(url)) by {
      if r.Ok? { RedisRepo.SetGet(cache, Cache, UrlCacheKey(cfg, path), Str(url), Some(cfg.ttl)); }
    }
    r
  }

  /** `_cache_file_data`: the record's JSON text under its record key. */
  function CacheFileData(cache: RedisRepo.Store, cfg: Config, rec: FileRecord): (r: Result<RedisRepo.Store, Error>)
    ensures r.Ok? <==> cfg.ttl >= 0
    ensures r.Ok? ==> RedisRepo.Get(r.value, Cache, FileCacheKey(rec.id)) == Ok(Some(cfg.dump(rec)))
  {
    var key := FileCacheKey(rec.id);
    var r := RedisRepo.Set(cache, Cache, key, Str(cfg.dump(rec)), Some(cfg.ttl));
    assert r.Ok? ==> RedisRepo.Get(r.value, Cache, key) == Ok(Some(cfg.dump(rec))) by {
      if r.Ok? { RedisRepo.SetGet(cache, Cache, key, Str(cfg.dump(rec)), Some(cfg.ttl)); }
    }
    r
  }

  /** Caching a record leaves every URL entry as it was. */
  lemma CacheFileDataKeepsUrls(cache: RedisRepo.Store, cfg: Config, rec: FileRecord, p: string)
    requires CacheFileData(cache, cfg, rec).Ok?
    ensures RedisRepo.Get(CacheFileData(cache, cfg, rec).value, Cache, UrlCacheKey(cfg, p)) ==
            RedisRepo.Get(cache, Cache, UrlCacheKey(cfg, p))
  {
    CacheKeysDistinct(cfg, p, rec.id, rec.id);
    RedisRepo.SetOther(cache, Cache, FileCacheKey(rec.id), Str(cfg.dump(rec)), Some(cfg.ttl), UrlCacheKey(cfg, p));
  }

  /** Deleting one key leaves what every other key reads unchanged. */
  lemma DeleteOther(cache: RedisRepo.Store, key: string, other: string)
    requires other != key
    ensures RedisRepo.Get(RedisRepo.Delete(cache, Cache, key).0, Cache, other) == RedisRepo.Get(cache, Cache, other)
  {
    if RedisRepo.MakeKey(Cache, other) == RedisRepo.MakeKey(Cache, key) {
      RedisRepo.MakeKeyInjective(Cache, other, key);
    }
  }

  /** `_invalidate_file_cache`: drops the record entry, then the URL entry; nothing else
      changes. */
  function InvalidateFileCache(cache: RedisRepo.Store, cfg: Config, id: Uuid, path: string): (r: RedisRepo.Store)
    ensures RedisRepo.Get(r, Cache, FileCacheKey(id)) == Ok(None)
    ensures RedisRepo.Get(r, Cache, UrlCacheKey(cfg, path)) == Ok(None)
    ensures forall k | k != FileCacheKey(id) && k != UrlCacheKey(cfg, path) ::
              RedisRepo.Get(r, Cache, k) == RedisRepo.Get(cache, Cache, k)
  {
    var c1 := RedisRepo.Delete(cache, Cache, FileCacheKey(id)).0;
    var c2 := RedisRepo.Delete(c1, Cache, UrlCacheKey(cfg, path)).0;
    CacheKeysDistinct(cfg, path, id, id);
    DeleteOther(c1, UrlCacheKey(cfg, path), FileCacheKey(id));
    assert forall k | k != FileCacheKey(id) && k != UrlCacheKey(cfg, path) ::
              RedisRepo.Get(c2, Cache, k) == RedisRepo.Get(cache, Cache, k) by {
      forall k | k != FileCacheKey(id) && k != UrlCacheKey(cfg, path)
        ensures RedisRepo.Get(c2, Cache, k) == RedisRepo.Get(cache, Cache, k)
      {
        DeleteOther(cache, FileCacheKey(id), k);
        DeleteOther(c1, UrlCacheKey(cfg, path), k);
      }
    }
    c2
  }

  /** A cache is sound when every URL it holds for a path is the one storage signs for that
      path. */
  ghost predicate CacheSound(cache: RedisRepo.Store, cfg: Config) {
    forall p :: RedisRepo.Get(cache, Cache, UrlCacheKey(cfg, p)) == Ok(None) ||
                RedisRepo.Get(cache, Cache, UrlCacheKey(cfg, p)) == Ok(Some(cfg.sign(p)))
  }

  /** From a sound cache, `get_file_url` answers the signed URL of the path when the cache
      holds it or storage signs it, and otherwise raises storage's exception; the cache stays
      sound. */
  lemma SoundGetFileUrl(cache: RedisRepo.Store, cfg: Config, path: string)
    requires CacheSound(cache, cfg) && Injective(cfg.digest) && cfg.ttl >= 0
    ensures GetFileUrl(cache, cfg, path).url ==
              if CachedUrl(cache, cfg, path).Some? || Signs(cfg, path) then Ok(cfg.sign(path))
              else Err(cfg.signFailure(path).value)
    ensures Signs(cfg, path) ==> GetFileUrl(cache, cfg, path).url == Ok(cfg.sign(path))
    ensures CacheSound(GetFileUrl(cache, cfg, path).cache, cfg)
  {
    var f := GetFileUrl(cache, cfg, path);
    if f.signed {
      var key := UrlCacheKey(cfg, path);
      var v := Str(cfg.sign(path));
      forall p ensures RedisRepo.Get(f.cache, Cache, UrlCacheKey(cfg, p)) == Ok(None) ||
                       RedisRepo.Get(f.cache, Cache, UrlCacheKey(cfg, p)) == Ok(Some(cfg.sign(p)))
      {
        if UrlCacheKey(cfg, p) == key {
          UrlCacheKeyInjective(cfg, p, path);
          RedisRepo.SetGet(cache, Cache, key, v, Some(cfg.ttl));
        } else {
          RedisRepo.SetOther(cache, Cache, key, v, Some(cfg.ttl), UrlCacheKey(cfg, p));
        }
      }
    }
  }

  /** Caching a record keeps a cache sound. */
  lemma SoundCacheFileData(cache: RedisRepo.Store, cfg: Config, rec: FileRecord)
    requires CacheSound(cache, cfg)
    ensures CacheFileData(cache, cfg, rec).Ok? ==> CacheSound(CacheFileData(cache, cfg, rec).value, cfg)
  {
    if CacheFileData(cache, cfg, rec).Ok? {
      var d := CacheFileData(cache, cfg, rec).value;
      forall p ensures RedisRepo.Get(d, Cache, UrlCacheKey(cfg, p)) == Ok(None) ||
                       RedisRepo.Get(d, Cache, UrlCacheKey(cfg, p)) == Ok(Some(cfg.sign(p)))
      {
        CacheFileDataKeepsUrls(cache, cfg, rec, p);
      }
    }
  }

  /** Dropping a record's entries keeps a cache sound. */
  lemma SoundInvalidate(cache: RedisRepo.Store, cfg: Config, id: Uuid, path: string)
    requires CacheSound(cache, cfg)
    ensures CacheSound(InvalidateFileCache(cache, cfg, id, path), cfg)
  {
    var c := InvalidateFileCache(cache, cfg, id, path);
    forall p ensures RedisRepo.Get(c, Cache, UrlCacheKey(cfg, p)) == Ok(None) ||
                     RedisRepo.Get(c, Cache, UrlCacheKey(cfg, p)) == Ok(Some(cfg.sign(p)))
    {
      CacheKeysDistinct(cfg, p, id, id);
    }
  }


  // ---------------------------------------------------------------------------------------
  // Creating

  /** What `create_from_content` and `create_batch` do once a record is stored: look the URL
      up (caching it), cache it once more, cache the record, and answer the record with it. */
  function Publish(st: State, cfg: Config, rec: FileRecord): (r: Outcome<FileRead>)
    ensures r.state.files == st.files && r.state.objects == st.objects
    ensures r.result.Ok? <==> GetFileUrl(st.cache, cfg, rec.path).url.Ok? && cfg.ttl >= 0
    ensures r.result.Ok? ==> r.result.value == ReadOf(rec, GetFileUrl(st.cache, cfg, rec.path).url.value)
    ensures r.result.Ok? ==> RedisRepo.Get(r.state.cache, Cache, UrlCacheKey(cfg, rec.path)) == Ok(Some(r.result.value.url))
    ensures r.result.Ok? ==> RedisRepo.Get(r.state.cache, Cache, FileCacheKey(rec.id)) == Ok(Some(cfg.dump(rec)))
    ensures GetFileUrl(st.cache, cfg, rec.path).url.Err? ==> r.result == Err(GetFileUrl(st.cache, cfg, rec.path).url.error)
  {
    var f := GetFileUrl(st.cache, cfg, rec.path);
    match f.url
    case Err(e) => Outcome(st.(cache := f.cache), Err(e))
    case Ok(url) =>
      match CacheFileUrl(f.cache, cfg, rec.path, url)
      case Err(e) => Outcome(st.(cache := f.cache), Err(e))
      case Ok(c1) =>
        match CacheFileData(c1, cfg, rec)
        case Err(e) => Outcome(st.(cache := c1), Err(e))
        case Ok(c2) =>
          CacheFileDataKeepsUrls(c1, cfg, rec, rec.path);
          Outcome(st.(cache := c2), Ok(ReadOf(rec, url)))
  }

  /** The record `create_from_content` stores: the path built from the service's own uuid,
      the key the database generates (`create` drops the schema's `id`), `len(content)` as the
      size, and the schema's display name or else the given file name. */
  function ContentRecord(cfg: Config, pathId: Uuid, dbId: Uuid, data: FileCreate, content: Utf8.Bytes, filename: string,
                         userId: Option<Uuid>, contentType: string): (r: FileRecord)
    ensures r.id == dbId && r.path == PhotoPath(cfg, pathId, data.subdir, Some(filename)) && r.size == |content|
    ensures r.filename == OrElse(data.filename, filename) && r.contentType == contentType
    ensures r.creatorUserId == userId && r.templateName == data.templateName
  {
    FileRecord(dbId, PhotoPath(cfg, pathId, data.subdir, Some(filename)), userId, |content|, contentType,
               OrElse(data.filename, filename), data.templateName)
  }

  /** `create_from_content`: uploads the bytes under a path named by a fresh uuid (`pathId`); a
      refused upload raises `FileUploadError` and changes nothing. Then the record is inserted
      under the key the database generates (`dbId`; an integrity error leaves the uploaded
      object behind), cached under that key and published. */
  function CreateFromContent(st: State, cfg: Config, pathId: Uuid, dbId: Uuid, uploaded: bool, violation: Option<string>,
                             data: FileCreate, content: Utf8.Bytes, filename: string,
                             userId: Option<Uuid> := None, contentType: string := DefaultContentType): (r: Outcome<FileRead>)
    ensures !uploaded ==> r == Outcome(st, Err(Core(FileErrors.FileUploadError(filename))))
    ensures uploaded ==> r.state.objects == st.objects + {PhotoPath(cfg, pathId, data.subdir, Some(filename))}
    ensures uploaded && violation.Some? ==>
              r.state.files == st.files && r.result == Err(Repository.IntegrityToError(st.files.model, violation.value))
    ensures uploaded && violation.None? && Dict.HasKey(st.files.rows, dbId) ==>
              r.state.files == st.files &&
              r.result == Err(Repository.IntegrityToError(st.files.model, Repository.PkViolation(st.files, dbId)))
    ensures r.result.Ok? ==> uploaded && violation.None? && !Dict.HasKey(st.files.rows, dbId)
    ensures r.result.Ok? ==>
              Repository.Get(r.state.files, dbId) == Ok(ContentRecord(cfg, pathId, dbId, data, content, filename, userId, contentType))
    ensures r.result.Ok? ==>
              r.result.value == ReadOf(ContentRecord(cfg, pathId, dbId, data, content, filename, userId, contentType), r.result.value.url)
    ensures r.result.Ok? ==> r.result.value.id == dbId && r.result.value.size == |content|
    ensures r.result.Ok? ==> r.result.value.filename == OrElse(data.filename, filename)
    ensures r.result.Ok? ==>
              RedisRepo.Get(r.state.cache, Cache, UrlCacheKey(cfg, PhotoPath(cfg, pathId, data.subdir, Some(filename)))) ==
              Ok(Some(r.result.value.url))
    ensures r.result.Ok? ==>
              RedisRepo.Get(r.state.cache, Cache, FileCacheKey(dbId)) ==
              Ok(Some(cfg.dump(ContentRecord(cfg, pathId, dbId, data, content, filename, userId, contentType))))
    ensures forall k | k != dbId :: Dict.Get(r.state.files.rows, k) == Dict.Get(st.files.rows, k)
  {
    var path := PhotoPath(cfg, pathId, data.subdir, Some(filename));
    if !uploaded then Outcome(st, Err(Core(FileErrors.FileUploadError(filename))))
    else
      var stored := st.(objects := st.objects + {path});
      var rec := ContentRecord(cfg, pathId, dbId, data, content, filename, userId, contentType);
      StoreOne(stored, cfg, dbId, rec, violation)
  }

  /** Once the insert succeeds the row stays, whatever `create_from_content` meets after it;
      a failing URL lookup is raised as it is. */
  lemma CreateKeepsRow(st: State, cfg: Config, pathId: Uuid, dbId: Uuid, data: FileCreate, content: Utf8.Bytes,
                       filename: string, userId: Option<Uuid>, contentType: string)
    requires !Dict.HasKey(st.files.rows, dbId)
    ensures var r := CreateFromContent(st, cfg, pathId, dbId, true, None, data, content, filename, userId, contentType);
            Repository.Get(r.state.files, dbId) == Ok(ContentRecord(cfg, pathId, dbId, data, content, filename, userId, contentType))
    ensures var r := CreateFromContent(st, cfg, pathId, dbId, true, None, data, content, filename, userId, contentType);
            var f := GetFileUrl(st.cache, cfg, PhotoPath(cfg, pathId, data.subdir, Some(filename)));
            f.url.Err? ==> r.result == Err(f.url.error)
  {
  }

  /** When storage cannot sign the new path and no URL is cached for it, `create_from_content`
      raises storage's exception after the insert: the row and the stored object stay. */
  lemma CreateSignFailure(st: State, cfg: Config, pathId: Uuid, dbId: Uuid, data: FileCreate, content: Utf8.Bytes,
                          filename: string, userId: Option<Uuid>, contentType: string)
    requires !Dict.HasKey(st.files.rows, dbId)
    requires var path := PhotoPath(cfg, pathId, data.subdir, Some(filename));
             RedisRepo.Get(st.cache, Cache, UrlCacheKey(cfg, path)) == Ok(None) && !Signs(cfg, path)
    ensures var path := PhotoPath(cfg, pathId, data.subdir, Some(filename));
            var r := CreateFromContent(st, cfg, pathId, dbId, true, None, data, content, filename, userId, contentType);
            r.result == Err(cfg.signFailure(path).value) && path in r.state.objects &&
            Repository.Get(r.state.files, dbId) == Ok(ContentRecord(cfg, pathId, dbId, data, content, filename, userId, contentType))
  {
    var path := PhotoPath(cfg, pathId, data.subdir, Some(filename));
    assert GetFileUrl(st.cache, cfg, path).signed;
  }

  // ---------------------------------------------------------------------------------------
  // Deleting

  /** What a delete that storage accepted leaves: no cache entries for the record, no row, no
      stored object. */
  function Removed(st: State, cfg: Config, id: Uuid, rec: FileRecord): (r: State)
    ensures !Dict.HasKey(r.files.rows, id)
    ensures forall k | k != id :: Dict.Get(r.files.rows, k) == Dict.Get(st.files.rows, k)
    ensures r.objects == st.objects - {rec.path}
    ensures RedisRepo.Get(r.cache, Cache, FileCacheKey(rec.id)) == Ok(None)
    ensures RedisRepo.Get(r.cache, Cache, UrlCacheKey(cfg, rec.path)) == Ok(None)
  {
    State(Repository.Delete(st.files, id).0, InvalidateFileCache(st.cache, cfg, rec.id, rec.path), st.objects - {rec.path})
  }

  /** `delete`: a missing record is `ModelNotFoundException`; a record made by someone else is
      `FileNotFound` before storage is asked; a refused storage delete answers `False` and
      changes nothing; otherwise both cache entries and the record go. */
  function Delete(st: State, cfg: Config, id: Uuid, creatorUserId: Option<Uuid>, deleted: bool): (r: Outcome<bool>)
    ensures !Dict.HasKey(st.files.rows, id) ==>
              r == Outcome(st, Err(Core(CoreErrors.ModelNotFound(st.files.model, Some(id)))))
    ensures Dict.HasKey(st.files.rows, id) && Dict.Get(st.files.rows, id).value.creatorUserId != creatorUserId ==>
              r == Outcome(st, Err(Core(CoreErrors.FileNotFound("File with id " + Uuids.ToString(id) + " not found"))))
    ensures Dict.HasKey(st.files.rows, id) && Dict.Get(st.files.rows, id).value.creatorUserId == creatorUserId && !deleted ==>
              r == Outcome(st, Ok(false))
    ensures r.result == Ok(true) <==>
              Dict.HasKey(st.files.rows, id) && Dict.Get(st.files.rows, id).value.creatorUserId == creatorUserId && deleted
    ensures r.result == Ok(true) ==> r.state == Removed(st, cfg, id, Dict.Get(st.files.rows, id).value)
  {
    match Repository.Get(st.files, id)
    case Err(e) => Outcome(st, Err(e))
    case Ok(rec) =>
      if rec.creatorUserId != creatorUserId then
        Outcome(st, Err(Core(CoreErrors.FileNotFound("File with id " + Uuids.ToString(id) + " not found"))))
      else if !deleted then Outcome(st, Ok(false))
      else Outcome(Removed(st, cfg, id, rec), Ok(true))
  }

  // ---------------------------------------------------------------------------------------
  // Batch creation

  /** The length of `zip` over lists of lengths `a` and `b`. */
  function Min(a: nat, b: nat): (r: nat)
    ensures r <= a && r <= b && (r == a || r == b)
  {
    if a <= b then a else b
  }

  /** The positions below `n` whose upload succeeded, in increasing order. */
  function Positions(uploaded: nat -> bool, n: nat): (p: seq<nat>)
    ensures forall j | 0 <= j < |p| :: p[j] < n && uploaded(p[j])
  {
    if n == 0 then [] else Positions(uploaded, n - 1) + (if uploaded(n - 1) then [n - 1] else [])
  }

  /** The positions are listed in increasing order, so the answers keep the order of the
      request. */
  lemma {:induction false} PositionsIncreasing(uploaded: nat -> bool, n: nat)
    ensures forall j, k | 0 <= j < k < |Positions(uploaded, n)| :: Positions(uploaded, n)[j] < Positions(uploaded, n)[k]
  {
    if n > 0 {
      PositionsIncreasing(uploaded, n - 1);
    }
  }

  /** One step of the positions: an uploaded position is appended, another adds nothing. */
  lemma PositionsNext(uploaded: nat -> bool, i: nat)
    ensures Positions(uploaded, i + 1) == Positions(uploaded, i) + (if uploaded(i) then [i] else [])
  {
  }

  /** Every uploaded position below `n` is among the positions. */
  lemma {:induction false} PositionsComplete(uploaded: nat -> bool, n: nat, i: nat)
    requires i < n && uploaded(i)
    ensures i in Positions(uploaded, n)
  {
    if i < n - 1 {
      PositionsComplete(uploaded, n - 1, i);
    }
  }

  /** The inputs of one `create_batch` call. The uuid each path is built from, the key the
      database generates for each record, which uploads succeed and the constraint violation
      each insert meets (if any) are decided outside the model, one per position. */
  datatype Batch = Batch(cfg: Config, pathIds: nat -> Uuid, dbIds: nat -> Uuid, uploaded: nat -> bool, violation: nat -> Option<string>,
                         dataList: seq<FileCreate>, files: seq<Upload>, userId: Option<Uuid>)

  /** The number of positions `zip` pairs up. */
  function Size(b: Batch): (n: nat)
    ensures n <= |b.dataList| && n <= |b.files|
  {
    Min(|b.files|, |b.dataList|)
  }

  /** The path `create_batch` gives the file at position `i`. */
  function BatchPath(b: Batch, i: nat): string
    requires i < Size(b)
  {
    PhotoPath(b.cfg, b.pathIds(i), b.dataList[i].subdir, b.files[i].filename)
  }

  /** The objects `create_batch` puts into storage: one per paired position whose upload
      succeeded. */
  function BatchUploads(b: Batch): set<string> {
    set i | 0 <= i < Size(b) && b.uploaded(i) :: BatchPath(b, i)
  }

  /** The record `create_batch` builds for an uploaded file: the path from the first loop's
      uuid, the key the database generates, and name, content type (or the default) and size
      from the upload, which must carry a name and a size for the schema to accept it. */
  function BatchRecord(cfg: Config, pathId: Uuid, dbId: Uuid, data: FileCreate, file: Upload, userId: Option<Uuid>): (r: Result<FileRecord, Error>)
    ensures r.Ok? <==> file.filename.Some? && file.size.Some?
    ensures r.Ok? ==> r.value.id == dbId && r.value.path == PhotoPath(cfg, pathId, data.subdir, file.filename)
    ensures r.Ok? ==> r.value.filename == file.filename.value && r.value.size == file.size.value
    ensures r.Ok? ==> r.value.contentType == OrElse(file.contentType, DefaultContentType)
    ensures r.Ok? ==> r.value.templateName == data.templateName && r.value.creatorUserId == userId
  {
    if file.filename.None? then Err(Raised("ValidationError", "filename: Input should be a valid string"))
    else if file.size.None? then Err(Raised("ValidationError", "size: Input should be a valid integer"))
    else Ok(FileRecord(dbId, PhotoPath(cfg, pathId, data.subdir, file.filename), userId, file.size.value,
                       OrElse(file.contentType, DefaultContentType), file.filename.value, data.templateName))
  }

  /** The ids of the answered files. */
  function Ids(out: seq<FileRead>): (r: seq<Uuid>)
    ensures |r| == |out| && forall j | 0 <= j < |out| :: r[j] == out[j].id
  {
    seq(|out|, j requires 0 <= j < |out| => out[j].id)
  }

  lemma IdsSnoc(out: seq<FileRead>, x: FileRead)
    ensures Ids(out + [x]) == Ids(out) + [x.id]
  {
  }

  /** The record for position `i` of the batch. */
  function BatchItem(b: Batch, i: nat): Result<FileRecord, Error>
    requires i < Size(b)
  {
    BatchRecord(b.cfg, b.pathIds(i), b.dbIds(i), b.dataList[i], b.files[i], b.userId)
  }

  /** `x` answers the record `rec`, which the table holds under `key`. */
  predicate Holds(s: State, x: FileRead, key: Uuid, rec: Result<FileRecord, Error>) {
    rec.Ok? && x == ReadOf(rec.value, x.url) && Dict.Get(s.files.rows, key) == Some(rec.value)
  }

  /** `out` answers, in order, one record for each uploaded position below `m`, and each of
      those records is in the table. */
  predicate Stored(s: State, out: seq<FileRead>, b: Batch, m: nat)
    requires m <= Size(b)
  {
    var p := Positions(b.uploaded, m);
    |out| == |p| &&
    forall j {:trigger Holds(s, out[j], b.dbIds(p[j]), BatchItem(b, p[j]))} | 0 <= j < |out| ::
      Holds(s, out[j], b.dbIds(p[j]), BatchItem(b, p[j]))
  }

  /** Inserts one record and publishes it. */
  function StoreOne(s: State, cfg: Config, id: Uuid, rec: FileRecord, violation: Option<string>): (r: Outcome<FileRead>)
    ensures r.state.objects == s.objects
    ensures r.result.Ok? ==> !Dict.HasKey(s.files.rows, id) && Dict.Get(r.state.files.rows, id) == Some(rec)
    ensures r.result.Ok? ==> r.result.value == ReadOf(rec, r.result.value.url)
    ensures r.result.Ok? ==> forall k | k != id :: Dict.Get(r.state.files.rows, k) == Dict.Get(s.files.rows, k)
    ensures Repository.Create(s.files, id, rec, violation).Err? ==> r == Outcome(s, Err(Repository.Create(s.files, id, rec, violation).error))
    ensures r.result.Ok? ==> RedisRepo.Get(r.state.cache, Cache, UrlCacheKey(cfg, rec.path)) == Ok(Some(r.result.value.url))
    ensures r.result.Ok? ==> RedisRepo.Get(r.state.cache, Cache, FileCacheKey(rec.id)) == Ok(Some(cfg.dump(rec)))
    ensures violation.None? && !Dict.HasKey(s.files.rows, id) ==> Dict.Get(r.state.files.rows, id) == Some(rec)
    ensures violation.None? && !Dict.HasKey(s.files.rows, id) && GetFileUrl(s.cache, cfg, rec.path).url.Err? ==>
              r.result == Err(GetFileUrl(s.cache, cfg, rec.path).url.error)
  {
    match Repository.Create(s.files, id, rec, violation)
    case Err(e) => Outcome(s, Err(e))
    case Ok((files, created)) => Publish(s.(files := files), cfg, created)
  }

  /** A row that stays put keeps answering: changing only a key the table did not hold
      leaves every held record in place. */
  lemma HoldsFrame(s: State, s2: State, x: FileRead, key: Uuid, rec: Result<FileRecord, Error>, newKey: Uuid)
    requires Holds(s, x, key, rec) && !Dict.HasKey(s.files.rows, newKey)
    requires forall k | k != newKey :: Dict.Get(s2.files.rows, k) == Dict.Get(s.files.rows, k)
    ensures Holds(s2, x, key, rec)
  {
    assert Dict.HasKey(s.files.rows, key);
  }

  /** Inserting under a key the table did not hold keeps what was stored. */
  lemma StoredFrame(s: State, s2: State, out: seq<FileRead>, b: Batch, m: nat, newKey: Uuid)
    requires m <= Size(b) && Stored(s, out, b, m) && !Dict.HasKey(s.files.rows, newKey)
    requires forall k | k != newKey :: Dict.Get(s2.files.rows, k) == Dict.Get(s.files.rows, k)
    ensures Stored(s2, out, b, m)
  {
    var p := Positions(b.uploaded, m);
    forall j | 0 <= j < |out|
      ensures Holds(s2, out[j], b.dbIds(p[j]), BatchItem(b, p[j]))
    {
      HoldsFrame(s, s2, out[j], b.dbIds(p[j]), BatchItem(b, p[j]), newKey);
    }
  }

  /** One more uploaded position stored, after those before it. */
  lemma StoredAppend(s: State, out: seq<FileRead>, x: FileRead, b: Batch, i: nat)
    requires i < Size(b) && b.uploaded(i)
    requires Stored(s, out, b, i)
    requires Holds(s, x, b.dbIds(i), BatchItem(b, i))
    ensures Stored(s, out + [x], b, i + 1)
  {
    var p := Positions(b.uploaded, i);
    var q := Positions(b.uploaded, i + 1);
    PositionsNext(b.uploaded, i);
    var out2 := out + [x];
    forall j | 0 <= j < |out2|
      ensures Holds(s, out2[j], b.dbIds(q[j]), BatchItem(b, q[j]))
    {
      if j < |out| {
        assert q[j] == p[j] && out2[j] == out[j];
      } else {
        assert q[j] == i && out2[j] == x;
      }
    }
  }

  /** A position whose upload failed adds nothing. */
  lemma StoredSkip(s: State, out: seq<FileRead>, b: Batch, i: nat)
    requires i < Size(b) && !b.uploaded(i)
    requires Stored(s, out, b, i)
    ensures Stored(s, out, b, i + 1)
  {
    PositionsNext(b.uploaded, i);
  }

  /** The table rows outside the answered ids are those of `st`. */
  ghost predicate Untouched(s: State, out: seq<FileRead>, st: State) {
    forall k | k !in Ids(out) :: Dict.Get(s.files.rows, k) == Dict.Get(st.files.rows, k)
  }

  /** One round of `create_batch`'s second loop: position `i` is stored and published when
      its upload succeeded, and skipped otherwise. */
  method BatchStep(s: State, out: seq<FileRead>, b: Batch, i: nat, ghost st: State) returns (r: Outcome<seq<FileRead>>)
    requires i < Size(b)
    requires Stored(s, out, b, i) && Untouched(s, out, st)
    ensures r.state.objects == s.objects
    ensures r.result.Ok? ==> Stored(r.state, r.result.value, b, i + 1) && Untouched(r.state, r.result.value, st)
    ensures b.uploaded(i) && BatchItem(b, i).Ok? && b.violation(i).None? && !Dict.HasKey(s.files.rows, b.dbIds(i)) ==>
              Dict.Get(r.state.files.rows, b.dbIds(i)) == Some(BatchItem(b, i).value)
  {
    if !b.uploaded(i) {
      StoredSkip(s, out, b, i);
      return Outcome(s, Ok(out));
    }
    var rec := BatchItem(b, i);
    if rec.Err? {
      return Outcome(s, Err(rec.error));
    }
    var pub := StoreOne(s, b.cfg, b.dbIds(i), rec.value, b.violation(i));
    if pub.result.Err? {
      return Outcome(pub.state, Err(pub.result.error));
    }
    StoredFrame(s, pub.state, out, b, i, b.dbIds(i));
    StoredAppend(pub.state, out, pub.result.value, b, i);
    IdsSnoc(out, pub.result.value);
    return Outcome(pub.state, Ok(out + [pub.result.value]));
  }

  /** `create_batch`: pairs files with schemas up to the shorter list, uploads them all, then
      stores and publishes a record for each position whose upload succeeded, in order. The
      first failure is raised, with the uploads and the records before it kept. */
  method CreateBatch(st: State, b: Batch) returns (r: Outcome<seq<FileRead>>)
    ensures r.state.objects == st.objects + BatchUploads(b)
    ensures r.result.Ok? ==> Stored(r.state, r.result.value, b, Size(b))
    ensures r.result.Ok? ==> forall k | k !in Ids(r.result.value) :: Dict.Get(r.state.files.rows, k) == Dict.Get(st.files.rows, k)
    ensures r.result.Ok? ==> forall j | 0 <= j < |r.result.value| ::
              r.result.value[j].id == b.dbIds(Positions(b.uploaded, Size(b))[j])
  {
    var objs := st.objects + BatchUploads(b);
    var s := st.(objects := objs);
    var out: seq<FileRead> := [];
    var i := 0;
    while i < Size(b)
      invariant 0 <= i <= Size(b)
      invariant s.objects == objs
      invariant Stored(s, out, b, i) && Untouched(s, out, st)
    {
      var step := BatchStep(s, out, b, i, st);
      if step.result.Err? {
        return Outcome(step.state, Err(step.result.error));
      }
      s, out := step.state, step.result.value;
      i := i + 1;
    }
    StoredIds(s, out, b, Size(b));
    return Outcome(s, Ok(out));
  }

  /** Every stored answer carries the key the database gave its record, not the uuid its path
      was built from. */
  lemma StoredIds(s: State, out: seq<FileRead>, b: Batch, m: nat)
    requires m <= Size(b) && Stored(s, out, b, m)
    ensures forall j | 0 <= j < |out| :: out[j].id == b.dbIds(Positions(b.uploaded, m)[j])
  {
    var p := Positions(b.uploaded, m);
    forall j | 0 <= j < |out| ensures out[j].id == b.dbIds(p[j]) {
      assert Holds(s, out[j], b.dbIds(p[j]), BatchItem(b, p[j]));
    }
  }

  // ---------------------------------------------------------------------------------------
  // Listing by ids

  /** The URLs `get_by_ids` gathers, one lookup after the other: a lookup that fails is
      replaced by asking storage directly, and when storage raises too the URL is `""`. */
  function UrlsFor(cache: RedisRepo.Store, cfg: Config, recs: seq<FileRecord>): (r: (RedisRepo.Store, seq<string>))
    ensures |r.1| == |recs|
    ensures |recs| == 0 ==> r.0 == cache
    decreases |recs|
  {
    if |recs| == 0 then (cache, [])
    else
      var f := GetFileUrl(cache, cfg, recs[0].path);
      var url := if f.url.Ok? then f.url.value else if Signs(cfg, recs[0].path) then cfg.sign(recs[0].path) else "";
      var rest := UrlsFor(f.cache, cfg, recs[1..]);
      (rest.0, [url] + rest.1)
  }

  /** `url` is the URL storage signs for the record's path, or the `""` left when storage
      cannot sign it. */
  predicate SignedOrFailed(cfg: Config, rec: FileRecord, url: string) {
    url == cfg.sign(rec.path) || (!Signs(cfg, rec.path) && url == "")
  }

  /** From a sound cache every gathered URL is the one storage signs for the record's path,
      or `""` for a path storage cannot sign; the cache stays sound. */
  lemma {:induction false} SoundUrlsFor(cache: RedisRepo.Store, cfg: Config, recs: seq<FileRecord>)
    requires CacheSound(cache, cfg) && Injective(cfg.digest) && cfg.ttl >= 0
    ensures forall i | 0 <= i < |recs| :: SignedOrFailed(cfg, recs[i], UrlsFor(cache, cfg, recs).1[i])
    ensures forall i | 0 <= i < |recs| && Signs(cfg, recs[i].path) :: UrlsFor(cache, cfg, recs).1[i] == cfg.sign(recs[i].path)
    ensures CacheSound(UrlsFor(cache, cfg, recs).0, cfg)
    decreases |recs|
  {
    if |recs| > 0 {
      var f := GetFileUrl(cache, cfg, recs[0].path);
      SoundGetFileUrl(cache, cfg, recs[0].path);
      SoundUrlsFor(f.cache, cfg, recs[1..]);
      var rest := UrlsFor(f.cache, cfg, recs[1..]);
      var url := UrlsFor(cache, cfg, recs).1[0];
      assert UrlsFor(cache, cfg, recs) == (rest.0, [url] + rest.1);
      assert SignedOrFailed(cfg, recs[0], url);
      SignedCons(cfg, recs, url, rest.1);
    }
  }

  /** Signed URLs for the first record and for the rest are signed URLs for all of them. */
  lemma SignedCons(cfg: Config, recs: seq<FileRecord>, url: string, rest: seq<string>)
    requires |recs| > 0 && |rest| == |recs| - 1 && SignedOrFailed(cfg, recs[0], url)
    requires forall i | 0 <= i < |rest| :: SignedOrFailed(cfg, recs[1..][i], rest[i])
    ensures forall i | 0 <= i < |recs| :: SignedOrFailed(cfg, recs[i], ([url] + rest)[i])
  {
    forall i | 1 <= i < |recs|
      ensures SignedOrFailed(cfg, recs[i], ([url] + rest)[i])
    {
      assert recs[1..][i - 1] == recs[i];
    }
  }

  /** What building `FileReadSchema(..., url="")` raises: the URL field refuses the empty
      string. */
  const EmptyUrl: Error := Raised("ValidationError", "url: Input should be a valid URL, input is empty")

  /** `get_by_ids`: nothing is asked of the database for an empty id list, and a failing query
      counts as no records; otherwise one answer per record found, in table order, unless some
      record is left with the empty URL, which raises. */
  function GetByIds(st: State, cfg: Config, ids: seq<Uuid>, dbFails: bool): (r: (RedisRepo.Store, Result<seq<FileRead>, Error>))
    ensures |ids| == 0 || dbFails ==> r == (st.cache, Ok([]))
    ensures !dbFails ==> r == Listed(st.cache, cfg, Repository.GetByIds(st.files, ids))
    ensures !dbFails && r.1.Ok? ==> |r.1.value| == |Repository.GetByIds(st.files, ids)|
    ensures !dbFails && r.1.Ok? ==> forall i | 0 <= i < |r.1.value| ::
              r.1.value[i] == ReadOf(Repository.GetByIds(st.files, ids)[i].1, r.1.value[i].url)
    ensures r.1.Err? ==> r.1.error == EmptyUrl
  {
    if |ids| == 0 then (st.cache, Ok([]))
    else if dbFails then Listed(st.cache, cfg, [])
    else Listed(st.cache, cfg, Repository.GetByIds(st.files, ids))
  }

  /** The answers for the records found, each with its gathered URL; the first record whose
      URL is empty makes `FileReadSchema` raise. */
  function Listed(cache: RedisRepo.Store, cfg: Config, found: Dict.Dict<Uuid, FileRecord>): (r: (RedisRepo.Store, Result<seq<FileRead>, Error>))
    ensures r.0 == UrlsFor(cache, cfg, Dict.Values(found)).0
    ensures r.1.Err? <==> exists i | 0 <= i < |found| :: UrlsFor(cache, cfg, Dict.Values(found)).1[i] == ""
    ensures r.1.Err? ==> r.1.error == EmptyUrl
    ensures r.1.Ok? ==> |r.1.value| == |found|
    ensures r.1.Ok? ==> forall i | 0 <= i < |found| ::
              r.1.value[i] == ReadOf(found[i].1, UrlsFor(cache, cfg, Dict.Values(found)).1[i])
    ensures |found| == 0 ==> r == (cache, Ok([]))
  {
    var recs := Dict.Values(found);
    var urls := UrlsFor(cache, cfg, recs);
    if exists i | 0 <= i < |recs| :: urls.1[i] == "" then (urls.0, Err(EmptyUrl))
    else (urls.0, Ok(seq(|recs|, i requires 0 <= i < |recs| => ReadOf(recs[i], urls.1[i]))))
  }

  /** From a sound cache, every listed answer carries the URL storage signs for its path, and
      the listing answers whenever storage signs every path with a non-empty URL. */
  lemma SoundListed(cache: RedisRepo.Store, cfg: Config, found: Dict.Dict<Uuid, FileRecord>)
    requires CacheSound(cache, cfg) && Injective(cfg.digest) && cfg.ttl >= 0
    ensures var r := Listed(cache, cfg, found);
            r.1.Ok? ==> forall i | 0 <= i < |found| :: r.1.value[i].url == cfg.sign(found[i].1.path)
    ensures (forall i | 0 <= i < |found| :: Signs(cfg, found[i].1.path) && cfg.sign(found[i].1.path) != "") ==>
              Listed(cache, cfg, found).1.Ok?
  {
    var recs := Dict.Values(found);
    SoundUrlsFor(cache, cfg, recs);
    var urls := UrlsFor(cache, cfg, recs).1;
    var r := Listed(cache, cfg, found);
    forall i | 0 <= i < |found| && r.1.Ok?
      ensures r.1.value[i].url == cfg.sign(found[i].1.path)
    {
      assert recs[i] == found[i].1;
      assert urls[i] != "";
      assert SignedOrFailed(cfg, recs[i], urls[i]);
    }
    if forall i | 0 <= i < |found| :: Signs(cfg, found[i].1.path) && cfg.sign(found[i].1.path) != "" {
      forall i | 0 <= i < |found| ensures urls[i] != "" {
        assert recs[i] == found[i].1;
      }
    }
  }

  /** From a sound cache, every answer of `get_by_ids` carries the URL storage signs for its
      path, and it answers whenever storage signs every path with a non-empty URL. */
  lemma SoundGetByIds(st: State, cfg: Config, ids: seq<Uuid>)
    requires CacheSound(st.cache, cfg) && Injective(cfg.digest) && cfg.ttl >= 0
    ensures var found := Repository.GetByIds(st.files, ids);
            var r := GetByIds(st, cfg, ids, false);
            r.1.Ok? ==> forall i | 0 <= i < |found| :: r.1.value[i].url == cfg.sign(found[i].1.path)
    ensures var found := Repository.GetByIds(st.files, ids);
            (forall i | 0 <= i < |found| :: Signs(cfg, found[i].1.path) && cfg.sign(found[i].1.path) != "") ==>
              GetByIds(st, cfg, ids, false).1.Ok?
  {
    SoundListed(st.cache, cfg, Repository.GetByIds(st.files, ids));
  }

  // ---------------------------------------------------------------------------------------
  // Updating

  /** `FileUpdateSchema`: the record's id and the names to change (`None`: not given). */
  datatype FileUpdate = FileUpdate(id: Uuid, templateName: Option<string>, filename: Option<string>)

  /** What `raise FileUploadError()` raises: the constructor's `filename` argument is
      required. */
  const MissingFilename := "FileUploadError.__init__() missing 1 required positional argument: 'filename'"

  /** What `FileUpdateDBSchema(**data.model_dump(), id=...)` raises: the dump already holds
      `id`. */
  const DuplicateId := "got multiple values for keyword argument 'id'"

  /** `update` as written: the new content is uploaded over the stored path, and then the call
      raises `TypeError` whatever storage answered. */
  function UpdateAsWritten(st: State, cfg: Config, id: Uuid, data: FileUpdate, uploaded: bool): (r: Outcome<FileRead>)
    ensures !Dict.HasKey(st.files.rows, id) ==>
              r == Outcome(st, Err(Core(CoreErrors.ModelNotFound(st.files.model, Some(id)))))
    ensures Dict.HasKey(st.files.rows, id) ==> r.state.files == st.files && r.state.cache == st.cache
  {
    match Repository.Get(st.files, id)
    case Err(e) => Outcome(st, Err(e))
    case Ok(rec) =>
      var stored := if uploaded then st.(objects := st.objects + {rec.path}) else st;
      if !uploaded then Outcome(stored, Err(Raised("TypeError", MissingFilename)))
      else Outcome(stored, Err(Raised("TypeError", DuplicateId)))
  }

  /** As written, `update` never succeeds: a refused upload raises `TypeError` instead of
      `FileUploadError`, and an accepted one raises `TypeError` before the record is touched. */
  lemma UpdateAsWrittenFails(st: State, cfg: Config, id: Uuid, data: FileUpdate, uploaded: bool)
    requires Dict.HasKey(st.files.rows, id)
    ensures UpdateAsWritten(st, cfg, id, data, uploaded).result.Err?
    ensures !uploaded ==> UpdateAsWritten(st, cfg, id, data, uploaded).result == Err(Raised("TypeError", MissingFilename))
    ensures uploaded ==> UpdateAsWritten(st, cfg, id, data, uploaded).result == Err(Raised("TypeError", DuplicateId))
    ensures UpdateAsWritten(st, cfg, id, data, uploaded).result.error.Raised?
  {
  }

  /** The record after an update: the names the caller gave replace the stored ones; id, path
      and everything else stay. */
  function Updated(rec: FileRecord, data: FileUpdate): (r: FileRecord)
    ensures r.id == rec.id && r.path == rec.path && r.size == rec.size && r.contentType == rec.contentType
    ensures r.creatorUserId == rec.creatorUserId
    ensures r.filename == (if data.filename.Some? then data.filename.value else rec.filename)
    ensures r.templateName == (if data.templateName.Some? then data.templateName else rec.templateName)
  {
    rec.(templateName := if data.templateName.Some? then data.templateName else rec.templateName,
         filename := if data.filename.Some? then data.filename.value else rec.filename)
  }

  /** `update` as evidently intended: a refused upload raises `FileUploadError` for the stored
      file; otherwise the given names are written, the old cache entries are dropped, the new
      record is cached and its URL is looked up again. */
  function Update(st: State, cfg: Config, id: Uuid, data: FileUpdate, uploaded: bool, violation: Option<string>): (r: Outcome<FileRead>)
    ensures !Dict.HasKey(st.files.rows, id) ==>
              r == Outcome(st, Err(Core(CoreErrors.ModelNotFound(st.files.model, Some(id)))))
    ensures Dict.HasKey(st.files.rows, id) && !uploaded ==>
              r == Outcome(st, Err(Core(FileErrors.FileUploadError(Dict.Get(st.files.rows, id).value.filename))))
    ensures r.result.Ok? ==> Dict.HasKey(st.files.rows, id) && uploaded && violation.None?
    ensures r.result.Ok? ==>
              var rec := Updated(Dict.Get(st.files.rows, id).value, data);
              Dict.Get(r.state.files.rows, id) == Some(rec) && r.result.value == ReadOf(rec, r.result.value.url) &&
              Dict.Keys(r.state.files.rows) == Dict.Keys(st.files.rows) &&
              (forall k | k != id :: Dict.Get(r.state.files.rows, k) == Dict.Get(st.files.rows, k)) &&
              r.result.value.url == cfg.sign(rec.path)
    ensures Dict.HasKey(st.files.rows, id) && uploaded && violation.None? && cfg.ttl >= 0 &&
            !Signs(cfg, Dict.Get(st.files.rows, id).value.path) ==>
              r.result == Err(cfg.signFailure(Dict.Get(st.files.rows, id).value.path).value) &&
              Dict.Get(r.state.files.rows, id) == Some(Updated(Dict.Get(st.files.rows, id).value, data))
  {
    match Repository.Get(st.files, id)
    case Err(e) => Outcome(st, Err(e))
    case Ok(prev) =>
      if !uploaded then Outcome(st, Err(Core(FileErrors.FileUploadError(prev.filename))))
      else
        var stored := st.(objects := st.objects + {prev.path});
        var rec := Updated(prev, data);
        match Repository.Update(st.files, id, rec, violation)
        case Err(e) => Outcome(stored, Err(e))
        case Ok((files, updated)) => Refresh(stored.(files := files), cfg, updated)
  }

  /** The cache work after an update: the old entries go, the record is cached, and the URL
      is looked up, which now misses and is signed afresh. */
  function Refresh(st: State, cfg: Config, rec: FileRecord): (r: Outcome<FileRead>)
    ensures r.state.files == st.files && r.state.objects == st.objects
    ensures r.result.Ok? <==> cfg.ttl >= 0 && Signs(cfg, rec.path)
    ensures cfg.ttl >= 0 && !Signs(cfg, rec.path) ==> r.result == Err(cfg.signFailure(rec.path).value)
    ensures r.result.Ok? ==> r.result.value == ReadOf(rec, cfg.sign(rec.path))
  {
    var c1 := InvalidateFileCache(st.cache, cfg, rec.id, rec.path);
    match CacheFileData(c1, cfg, rec)
    case Err(e) => Outcome(st.(cache := c1), Err(e))
    case Ok(c2) =>
      CacheFileDataKeepsUrls(c1, cfg, rec, rec.path);
      assert RedisRepo.Get(c2, Cache, UrlCacheKey(cfg, rec.path)) == Ok(None);
      var f := GetFileUrl(c2, cfg, rec.path);
      assert f.signed;
      match f.url
      case Err(e) => Outcome(st.(cache := f.cache), Err(e))
      case Ok(url) => Outcome(st.(cache := f.cache), Ok(ReadOf(rec, url)))
  }
}
