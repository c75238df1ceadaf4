/** `BaseRepositoryImpl`: generic CRUD over one table. The table is its rows keyed by primary
    key, in storage order; what the database adds (constraint checks on other columns, the
    matching of a search, the ordering of column values) comes in as an oracle. */
module Repository {
  import opened Wrappers
  import Dict
  import PyStr
  import Uuids
  import opened Errors
  import CoreErrors
  import Sorting

  type Uuid = Uuids.Uuid

  /** One table: the model's class name (shown in errors), the table's SQL name, the
      attributes of the model class, and the rows. */
  datatype Table<R> = Table(model: string, name: string, attributes: set<string>, rows: Dict.Dict<Uuid, R>)

  /** Primary keys are distinct. */
  ghost predicate Valid<R>(t: Table<R>) {
    Dict.KeysUnique(t.rows)
  }

  /** `get`: the row, or `ModelNotFoundException` naming the model and the id. */
  function Get<R>(t: Table<R>, id: Uuid): (r: Result<R, Error>)
    ensures r.Ok? <==> Dict.HasKey(t.rows, id)
    ensures r.Ok? ==> Dict.Get(t.rows, id) == Some(r.value)
    ensures r.Err? ==> r.error == Core(CoreErrors.ModelNotFound(t.model, Some(id)))
  {
    match Dict.Get(t.rows, id)
    case Some(v) => Ok(v)
    case None => Err(Core(CoreErrors.ModelNotFound(t.model, Some(id))))
  }

  /** `get_or_none`: `get` with the not-found error turned into `None`. */
  function GetOrNone<R>(t: Table<R>, id: Uuid): (r: Option<R>)
    ensures r.None? <==> Get(t, id).Err?
    ensures r.Some? ==> Get(t, id) == Ok(r.value)
  {
    match Get(t, id)
    case Ok(v) => Some(v)
    case Err(_) => None
  }

  /** `get_by_ids`: the rows whose key is among `ids`, in storage order. */
  function GetByIds<R>(t: Table<R>, ids: seq<Uuid>): (r: Dict.Dict<Uuid, R>)
    ensures |ids| == 0 ==> r == []
    ensures |r| <= |t.rows|
    ensures forall k :: Dict.Get(r, k) == if k in ids then Dict.Get(t.rows, k) else None
    ensures forall i | 0 <= i < |r| :: r[i].0 in ids && r[i] in t.rows
    ensures Valid(t) ==> Dict.KeysUnique(r)
  {
    var keep := (k: Uuid) => k in ids;
    var r := Dict.Select(t.rows, keep);
    assert forall k :: Dict.Get(r, k) == if k in ids then Dict.Get(t.rows, k) else None by {
      forall k ensures Dict.Get(r, k) == if k in ids then Dict.Get(t.rows, k) else None {
        Dict.SelectGet(t.rows, keep, k);
      }
    }
    assert Valid(t) ==> Dict.KeysUnique(r) by {
      if Valid(t) { Dict.SelectUnique(t.rows, keep); }
    }
    r
  }

  /** `get_all`: every row, in storage order. */
  function GetAll<R>(t: Table<R>): (r: Dict.Dict<Uuid, R>)
    ensures |r| == |t.rows|
    ensures forall k :: Dict.Get(r, k) == Dict.Get(t.rows, k)
  {
    t.rows
  }

  /** Asking for every key of the table is asking for the whole table. */
  lemma GetByIdsAll<R>(t: Table<R>, ids: seq<Uuid>)
    requires forall i | 0 <= i < |t.rows| :: t.rows[i].0 in ids
    ensures GetByIds(t, ids) == GetAll(t)
  {
  }

  // ---------------------------------------------------------------------------------------
  // Sorting

  datatype Order = Asc(field: string) | Desc(field: string)

  /** `getattr(model, name)` succeeds: the empty name never does. */
  predicate HasAttribute<R>(t: Table<R>, name: string) {
    name != "" && name in t.attributes
  }

  /** One sort string: a leading `-` sorts descending on the rest. An empty string fails with
      `IndexError` (it is not caught); an unknown attribute fails with
      `SortingFieldNotFoundError` carrying the whole sort string. */
  function OrderOf<R>(t: Table<R>, st: string): (r: Result<Order, Error>)
    ensures st == "" ==> r.Err? && r.error.Raised? && r.error.kind == "IndexError"
    ensures st != "" && st[0] == '-' ==>
              if HasAttribute(t, st[1..]) then r == Ok(Desc(st[1..])) else r == Err(Core(CoreErrors.SortingFieldNotFound(st)))
    ensures st != "" && st[0] != '-' ==>
              if HasAttribute(t, st) then r == Ok(Asc(st)) else r == Err(Core(CoreErrors.SortingFieldNotFound(st)))
  {
    if st == "" then Err(Raised("IndexError", "string index out of range"))
    else
      var desc := st[0] == '-';
      var name := if desc then st[1..] else st;
      if !HasAttribute(t, name) then Err(Core(CoreErrors.SortingFieldNotFound(st)))
      else if desc then Ok(Desc(name))
      else Ok(Asc(name))
  }

  /** The sort string that asks for an order. */
  function Render(o: Order): string {
    match o
    case Asc(f) => f
    case Desc(f) => "-" + f
  }

  /** A parsed order renders back to its sort string, and every order on an attribute (whose
      name does not itself start with `-`) is parsed back from its rendering. */
  lemma OrderRoundTrip<R>(t: Table<R>, st: string, o: Order)
    ensures OrderOf(t, st) == Ok(o) ==> Render(o) == st
    ensures HasAttribute(t, o.field) && o.field[0] != '-' ==> OrderOf(t, Render(o)) == Ok(o)
  {
    if o.Desc? {
      assert ("-" + o.field)[1..] == o.field;
    }
    if OrderOf(t, st) == Ok(o) && st[0] == '-' {
      assert st == "-" + st[1..];
    }
  }

  /** `get_order_by_expr`: one order per sort string, in order, or the error of the first
      string that fails. */
  function GetOrderByExpr<R>(t: Table<R>, sorting: seq<string>): (r: Result<seq<Order>, Error>)
    ensures r.Ok? <==> forall i | 0 <= i < |sorting| :: OrderOf(t, sorting[i]).Ok?
    ensures r.Ok? ==> |r.value| == |sorting| && forall i | 0 <= i < |sorting| :: OrderOf(t, sorting[i]) == Ok(r.value[i])
    ensures r.Err? ==> exists i | 0 <= i < |sorting| :: OrderOf(t, sorting[i]) == Err(r.error) &&
                          forall j | 0 <= j < i :: OrderOf(t, sorting[j]).Ok?
    decreases |sorting|
  {
    if |sorting| == 0 then Ok([])
    else
      var o :- OrderOf(t, sorting[0]);
      var rest := GetOrderByExpr(t, sorting[1..]);
      assert forall i | 1 <= i < |sorting| :: sorting[1..][i - 1] == sorting[i];
      if rest.Err? then
        ghost var i :| 0 <= i < |sorting[1..]| && OrderOf(t, sorting[1..][i]) == Err(rest.error) &&
                       forall j | 0 <= j < i :: OrderOf(t, sorting[1..][j]).Ok?;
        assert OrderOf(t, sorting[i + 1]) == Err(rest.error);
        assert forall j | 0 <= j < i + 1 :: OrderOf(t, sorting[j]).Ok? by {
          forall j | 0 <= j < i + 1 ensures OrderOf(t, sorting[j]).Ok? {
            if j > 0 { assert sorting[j] == sorting[1..][j - 1]; }
          }
        }
        Err(rest.error)
      else
        Ok([o] + rest.value)
  }

  // ---------------------------------------------------------------------------------------
  // The field name in a PostgreSQL unique-violation message

  /** `\w` on a `str` pattern: `_` and the characters Python counts as alphanumeric, known
      here for ASCII, Latin-1 (its letters, and the superscripts and fractions that count as
      numeric) and the Cyrillic and Cyrillic Supplement letters (not the sign U+0482 nor the
      combining marks U+0483 to U+0489). */
  predicate IsWordChar(c: char) {
    ('a' <= c <= 'z') || ('A' <= c <= 'Z') || ('0' <= c <= '9') || c == '_' || IsWideWordChar(c)
  }

  predicate IsWideWordChar(c: char) {
    '\U{AA}' <= c <= '\U{52F}' &&
    (c == '\U{AA}' || c == '\U{B2}' || c == '\U{B3}' || c == '\U{B5}' || c == '\U{B9}' || c == '\U{BA}' ||
     ('\U{BC}' <= c <= '\U{BE}') || ('\U{C0}' <= c <= '\U{D6}') || ('\U{D8}' <= c <= '\U{F6}') ||
     ('\U{F8}' <= c <= '\U{FF}') || ('\U{400}' <= c <= '\U{481}') || ('\U{48A}' <= c <= '\U{52F}'))
  }

  /** `Key (` matched case-insensitively: under Unicode case folding the Kelvin sign U+212A
      matches `k` too. */
  predicate KeyOpenAt(msg: string, i: nat) {
    i + 5 <= |msg| &&
    (msg[i] == 'K' || msg[i] == 'k' || msg[i] == '\U{212A}') &&
    (msg[i + 1] == 'E' || msg[i + 1] == 'e') &&
    (msg[i + 2] == 'Y' || msg[i + 2] == 'y') &&
    msg[i + 3] == ' ' && msg[i + 4] == '('
  }

  /** The length of the longest run of word characters starting at `i`. */
  function WordRun(msg: string, i: nat): (n: nat)
    requires i <= |msg|
    ensures i + n <= |msg|
    decreases |msg| - i
  {
    if i < |msg| && IsWordChar(msg[i]) then 1 + WordRun(msg, i + 1) else 0
  }

  /** The run is made of word characters and cannot be extended. */
  lemma {:induction false} WordRunMaximal(msg: string, i: nat)
    requires i <= |msg|
    ensures forall k | i <= k < i + WordRun(msg, i) :: IsWordChar(msg[k])
    ensures i + WordRun(msg, i) < |msg| ==> !IsWordChar(msg[i + WordRun(msg, i)])
    decreases |msg| - i
  {
    if i < |msg| && IsWordChar(msg[i]) {
      WordRunMaximal(msg, i + 1);
    }
  }

  /** The group of `Key \((\w+)\)=` when the pattern matches at position `i`. The greedy run
      must be followed by `)=`; a shorter run would leave a word character where `)` is
      needed, so no backtracking can help. */
  function MatchAt(msg: string, i: nat): (r: Option<string>)
    ensures r.Some? ==> i < |msg|
    ensures r.Some? ==> |r.value| > 0 && forall k | 0 <= k < |r.value| :: IsWordChar(r.value[k])
  {
    if i <= |msg| && KeyOpenAt(msg, i) then
      var n := WordRun(msg, i + 5);
      WordRunMaximal(msg, i + 5);
      if n > 0 && i + 5 + n + 1 < |msg| && msg[i + 5 + n] == ')' && msg[i + 5 + n + 1] == '=' then
        Some(msg[i + 5..i + 5 + n])
      else None
    else None
  }

  /** `re.search`: the group at the leftmost position from `from` where the pattern matches. */
  function FirstMatch(msg: string, from: nat): (r: Option<string>)
    ensures r.None? ==> forall i | from <= i :: MatchAt(msg, i).None?
    ensures r.Some? ==> exists i | from <= i <= |msg| :: MatchAt(msg, i) == r
    decreases |msg| - from
  {
    if from > |msg| then None
    else if MatchAt(msg, from).Some? then MatchAt(msg, from)
    else FirstMatch(msg, from + 1)
  }

  /** The search stops at the first position where the pattern matches. */
  lemma {:induction false} FirstMatchAt(msg: string, from: nat, pos: nat)
    requires from <= pos && MatchAt(msg, pos).Some?
    requires forall j | from <= j < pos :: MatchAt(msg, j).None?
    ensures FirstMatch(msg, from) == MatchAt(msg, pos)
    decreases pos - from
  {
    if from < pos {
      assert MatchAt(msg, from).None? && from < |msg|;
      assert FirstMatch(msg, from) == FirstMatch(msg, from + 1);
      FirstMatchAt(msg, from + 1, pos);
    }
  }

  /** `_extract_field_name`: the leftmost matched group, or `field_name` when nothing matches. */
  function ExtractFieldName(msg: string): (r: string)
    ensures (forall i :: MatchAt(msg, i).None?) ==> r == "field_name"
  {
    match FirstMatch(msg, 0)
    case Some(w) => w
    case None => "field_name"
  }

  /** Where the pattern first matches, that group is the field name. */
  lemma ExtractAt(msg: string, pos: nat)
    requires MatchAt(msg, pos).Some?
    requires forall j | 0 <= j < pos :: MatchAt(msg, j).None?
    ensures ExtractFieldName(msg) == MatchAt(msg, pos).value
  {
    FirstMatchAt(msg, 0, pos);
  }

  /** A column named in Cyrillic is a word, so its name is extracted. */
  lemma CyrillicFieldName()
    ensures ExtractFieldName("Key (\U{438}\U{43C}\U{44F})=(1)") == "\U{438}\U{43C}\U{44F}"
  {
    var msg := "Key (\U{438}\U{43C}\U{44F})=(1)";
    assert KeyOpenAt(msg, 0);
    assert WordRun(msg, 8) == 0;
    assert WordRun(msg, 5) == 3;
    assert msg[5..8] == "\U{438}\U{43C}\U{44F}";
    ExtractAt(msg, 0);
  }

  /** The pattern needs `(` four characters after its start. */
  lemma NoParenNoMatch(msg: string, j: nat)
    requires j + 4 < |msg| ==> msg[j + 4] != '('
    ensures MatchAt(msg, j).None?
  {
  }

  // ---------------------------------------------------------------------------------------
  // Integrity errors

  const PkClassTail := "psycopg.errors.UniqueViolation) "
  const PkConstraint := " value violates unique constraint \""
  const PkMid := "_pkey\"\nDETAIL:  "

  /** The `IntegrityError` of a duplicated primary key, as psycopg and PostgreSQL word it (the
      SQL text SQLAlchemy appends is left out). */
  function PkViolation<R>(t: Table<R>, id: Uuid): string {
    PkMessage(t.name, Uuids.ToString(id))
  }

  function PkMessage(table: string, idText: string): string {
    "(" + PkTail(table) + "Key (id)=(" + idText + ") already exists."
  }

  /** The message between its opening `(` and `Key (`. */
  function PkTail(table: string): string {
    PkClassTail + "duplicate key" + PkConstraint + table + PkMid
  }

  /** The message names a uniqueness violation. */
  predicate IsDuplicate(msg: string) {
    var low := PyStr.Lower(msg);
    PyStr.Contains(low, "unique constraint") || PyStr.Contains(low, "duplicate key")
  }

  /** The message `create` and `update` give a duplicate. */
  function DuplicateDetail(field: string): string {
    "duplicate key for field: " + field
  }

  /** The `except IntegrityError` of `create` and `update`: a uniqueness violation becomes
      `ModelAlreadyExistsError` on the extracted field; anything else is re-raised. */
  function IntegrityToError(model: string, msg: string): (r: Error)
    ensures r.Core? <==> IsDuplicate(msg)
    ensures r.Core? ==> r.e.statusCode == 409 && r.e.errorCode == "MODEL_ALREADY_EXISTS"
    ensures r.Core? ==> r.e == CoreErrors.ModelAlreadyExists(model, ExtractFieldName(msg), DuplicateDetail(ExtractFieldName(msg)))
    ensures !r.Core? ==> r == Raised("IntegrityError", msg)
  {
    if IsDuplicate(msg) then
      var field := ExtractFieldName(msg);
      Core(CoreErrors.ModelAlreadyExists(model, field, DuplicateDetail(field)))
    else Raised("IntegrityError", msg)
  }

  /** A duplicated primary key is reported as `ModelAlreadyExistsError` on the field `id`,
      whatever the table is called (as long as its name holds no `(`). */
  lemma PkViolationIsDuplicateId<R>(t: Table<R>, id: Uuid)
    requires '(' !in t.name
    ensures IsDuplicate(PkViolation(t, id))
    ensures ExtractFieldName(PkViolation(t, id)) == "id"
  {
    PkMessageIsDuplicateId(t.name, Uuids.ToString(id));
  }

  lemma PkMessageIsDuplicateId(table: string, idText: string)
    requires '(' !in table
    ensures IsDuplicate(PkMessage(table, idText))
    ensures ExtractFieldName(PkMessage(table, idText)) == "id"
  {
    PkMessageId(table, idText);
    PkMessageDuplicate(table, idText);
  }

  lemma PkMessageId(table: string, idText: string)
    requires '(' !in table
    ensures ExtractFieldName(PkMessage(table, idText)) == "id"
  {
    var tail := PkTail(table);
    var pre := "(" + tail;
    NoParenInTail(table);
    NoParenAfterFirst(tail);
    var rest := idText + ") already exists.";
    assert PkMessage(table, idText) == pre + ("Key (id)=(" + rest);
    ExtractIdAfter(pre, rest);
  }

  lemma PkMessageDuplicate(table: string, idText: string)
    ensures IsDuplicate(PkMessage(table, idText))
  {
    var b := PkConstraint + table + PkMid + "Key (id)=(" + idText + ") already exists.";
    assert PkMessage(table, idText) == ("(" + PkClassTail) + "duplicate key" + b;
    DuplicateAt("(" + PkClassTail, b);
  }

  /** The fixed wording around the table name holds no `(`. */
  lemma NoParenInTail(table: string)
    requires '(' !in table
    ensures '(' !in PkTail(table)
  {
    NoParenIn(PkClassTail);
    NoParenIn("duplicate key");
    NoParenIn(PkConstraint);
    NoParenIn(PkMid);
    assert PkTail(table) == PkClassTail + "duplicate key" + PkConstraint + table + PkMid;
  }

  /** A text whose every character differs from `(` does not hold `(`. */
  lemma NoParenIn(x: string)
    requires forall k | 0 <= k < |x| :: x[k] != '('
    ensures '(' !in x
  {
  }

  /** `(` followed by text without `(` has no `(` past its first character. */
  lemma NoParenAfterFirst(x: string)
    requires '(' !in x
    ensures forall k | 1 <= k < |"(" + x| :: ("(" + x)[k] != '('
  {
    forall k | 1 <= k < |"(" + x| ensures ("(" + x)[k] != '(' {
      assert ("(" + x)[k] == x[k - 1];
    }
  }

  /** After a prefix with no `(` past its first character, `Key (id)=` is the first match. */
  lemma ExtractIdAfter(pre: string, rest: string)
    requires forall k | 1 <= k < |pre| :: pre[k] != '('
    ensures ExtractFieldName(pre + ("Key (id)=(" + rest)) == "id"
  {
    var msg := pre + ("Key (id)=(" + rest);
    var pos := |pre|;
    assert forall k | 0 <= k < pos :: msg[k] == pre[k];
    assert msg[pos..pos + 10] == "Key (id)=(";
    forall j | 0 <= j < pos ensures MatchAt(msg, j).None? {
      NoParenNoMatch(msg, j);
    }
    assert KeyOpenAt(msg, pos);
    assert WordRun(msg, pos + 5) == 2 by {
      assert msg[pos + 5] == 'i' && msg[pos + 6] == 'd' && msg[pos + 7] == ')';
      assert WordRun(msg, pos + 7) == 0;
      assert WordRun(msg, pos + 6) == 1;
    }
    assert msg[pos + 5..pos + 7] == "id";
    ExtractAt(msg, pos);
  }

  /** Lower-case `duplicate key` anywhere makes the message a uniqueness violation. */
  lemma DuplicateAt(a: string, b: string)
    ensures IsDuplicate(a + "duplicate key" + b)
  {
    var lit := "duplicate key";
    var msg := a + lit + b;
    var low := PyStr.Lower(msg);
    assert PyStr.Lower(lit) == lit;
    assert forall j | 0 <= j < |lit| :: low[|a| + j] == PyStr.Lower(lit)[j] by {
      forall j | 0 <= j < |lit| ensures low[|a| + j] == PyStr.Lower(lit)[j] {
        assert msg[|a| + j] == lit[j];
      }
    }
    assert low[|a|..|a| + |lit|] == lit;
    assert PyStr.InfixAt(low, lit, |a|);
    PyStr.ContainsIff(low, lit);
  }

  /** `create`: inserts the row under the key the database generates, or fails with the
      constraint the insert violates (`violation`, reported by the database for columns other
      than the key). */
  function Create<R>(t: Table<R>, newId: Uuid, row: R, violation: Option<string>): (r: Result<(Table<R>, R), Error>)
    ensures violation.Some? ==> r == Err(IntegrityToError(t.model, violation.value))
    ensures violation.None? && Dict.HasKey(t.rows, newId) ==> r == Err(IntegrityToError(t.model, PkViolation(t, newId)))
    ensures r.Ok? <==> violation.None? && !Dict.HasKey(t.rows, newId)
    ensures r.Ok? ==> r.value.1 == row && Dict.Get(r.value.0.rows, newId) == Some(row)
    ensures r.Ok? ==> forall k | k != newId :: Dict.Get(r.value.0.rows, k) == Dict.Get(t.rows, k)
    ensures r.Ok? && Valid(t) ==> Valid(r.value.0)
  {
    if violation.Some? then Err(IntegrityToError(t.model, violation.value))
    else if Dict.HasKey(t.rows, newId) then Err(IntegrityToError(t.model, PkViolation(t, newId)))
    else
      var rows := Dict.Put(t.rows, newId, row);
      assert forall k | k != newId :: Dict.Get(rows, k) == Dict.Get(t.rows, k) by {
        forall k | k != newId ensures Dict.Get(rows, k) == Dict.Get(t.rows, k) {
          Dict.PutOther(t.rows, newId, row, k);
        }
      }
      Ok((t.(rows := rows), row))
  }

  /** Inserting under a key that is taken is reported as a duplicate `id`. */
  lemma CreateTakenId<R>(t: Table<R>, newId: Uuid, row: R)
    requires Dict.HasKey(t.rows, newId) && '(' !in t.name
    ensures Create(t, newId, row, None) ==
              Err(Core(CoreErrors.ModelAlreadyExists(t.model, "id", DuplicateDetail("id"))))
  {
    PkViolationIsDuplicateId(t, newId);
  }

  /** `update`: replaces an existing row (`row` is the row with the set fields applied). An
      absent key is `ModelNotFoundException`; a violated constraint maps as in `create`. */
  function Update<R>(t: Table<R>, id: Uuid, row: R, violation: Option<string>): (r: Result<(Table<R>, R), Error>)
    ensures !Dict.HasKey(t.rows, id) ==> r == Err(Core(CoreErrors.ModelNotFound(t.model, Some(id))))
    ensures Dict.HasKey(t.rows, id) && violation.Some? ==> r == Err(IntegrityToError(t.model, violation.value))
    ensures r.Ok? <==> Dict.HasKey(t.rows, id) && violation.None?
    ensures r.Ok? ==> r.value.1 == row && Dict.Get(r.value.0.rows, id) == Some(row)
    ensures r.Ok? ==> Dict.Keys(r.value.0.rows) == Dict.Keys(t.rows)
    ensures r.Ok? ==> forall k | k != id :: Dict.Get(r.value.0.rows, k) == Dict.Get(t.rows, k)
    ensures r.Ok? && Valid(t) ==> Valid(r.value.0)
  {
    if !Dict.HasKey(t.rows, id) then Err(Core(CoreErrors.ModelNotFound(t.model, Some(id))))
    else if violation.Some? then Err(IntegrityToError(t.model, violation.value))
    else
      var rows := Dict.Put(t.rows, id, row);
      assert forall k | k != id :: Dict.Get(rows, k) == Dict.Get(t.rows, k) by {
        forall k | k != id ensures Dict.Get(rows, k) == Dict.Get(t.rows, k) {
          Dict.PutOther(t.rows, id, row, k);
        }
      }
      Ok((t.(rows := rows), row))
  }

  /** The new keys are distinct and none is in the table yet. */
  predicate FreshKeys<R>(t: Table<R>, rows: Dict.Dict<Uuid, R>) {
    (forall i | 0 <= i < |rows| :: !Dict.HasKey(t.rows, rows[i].0)) &&
    (forall i, j | 0 <= i < j < |rows| :: rows[i].0 != rows[j].0)
  }

  /** `bulk_create`: nothing to insert returns `[]` without touching the database; otherwise all
      rows are inserted and returned in order, or the insert raises `IntegrityError` (which
      `bulk_create` does not map): on a key collision, or on the constraint `violation` the
      database reports for another column. */
  function BulkCreate<R>(t: Table<R>, rows: Dict.Dict<Uuid, R>, violation: Option<string>): (r: Result<(Table<R>, seq<R>), Error>)
    ensures |rows| == 0 ==> r == Ok((t, []))
    ensures r.Err? <==> |rows| > 0 && (violation.Some? || !FreshKeys(t, rows))
    ensures |rows| > 0 && violation.Some? ==> r == Err(Raised("IntegrityError", violation.value))
    ensures r.Err? ==> r.error.Raised? && r.error.kind == "IntegrityError"
    ensures r.Ok? ==> r.value.1 == Dict.Values(rows)
    ensures r.Ok? ==> forall i | 0 <= i < |rows| :: Dict.Get(r.value.0.rows, rows[i].0) == Some(rows[i].1)
    ensures r.Ok? ==> forall k | Dict.HasKey(t.rows, k) :: Dict.Get(r.value.0.rows, k) == Dict.Get(t.rows, k)
    ensures r.Ok? && Valid(t) ==> Valid(r.value.0)
  {
    if |rows| == 0 then Ok((t, []))
    else if violation.Some? then Err(Raised("IntegrityError", violation.value))
    else if !FreshKeys(t, rows) then
      Err(Raised("IntegrityError", "duplicate key value violates unique constraint \"" + t.name + "_pkey\""))
    else
      var all := t.rows + rows;
      assert forall k | Dict.HasKey(t.rows, k) :: Dict.Get(all, k) == Dict.Get(t.rows, k) by {
        forall k | Dict.HasKey(t.rows, k) ensures Dict.Get(all, k) == Dict.Get(t.rows, k) {
          Dict.GetAppend(t.rows, rows, k);
        }
      }
      assert forall i | 0 <= i < |rows| :: Dict.Get(all, rows[i].0) == Some(rows[i].1) by {
        forall i | 0 <= i < |rows| ensures Dict.Get(all, rows[i].0) == Some(rows[i].1) {
          Dict.GetAppend(t.rows, rows, rows[i].0);
          Dict.GetAt(rows, i);
        }
      }
      assert Valid(t) ==> Dict.KeysUnique(all) by {
        if Valid(t) {
          forall i, j | 0 <= i < j < |all| ensures all[i].0 != all[j].0 {
            if j >= |t.rows| && i < |t.rows| {
              assert all[j] == rows[j - |t.rows|];
              assert all[i] == t.rows[i];
            }
          }
        }
      }
      Ok((t.(rows := all), Dict.Values(rows)))
  }

  /** The rows after applying `updates` in turn; an update whose key matches no row changes
      nothing. */
  function ApplyUpdates<R>(rows: Dict.Dict<Uuid, R>, updates: seq<(Uuid, R)>): (r: Dict.Dict<Uuid, R>)
    ensures forall k :: Dict.HasKey(r, k) <==> Dict.HasKey(rows, k)
    ensures Dict.KeysUnique(rows) ==> Dict.KeysUnique(r)
    decreases |updates|
  {
    if |updates| == 0 then rows
    else ApplyUpdates(ApplyOne(rows, updates[0]), updates[1..])
  }

  /** One update: replaces the row with that key, if there is one. */
  function ApplyOne<R>(rows: Dict.Dict<Uuid, R>, u: (Uuid, R)): (r: Dict.Dict<Uuid, R>)
    ensures forall k :: Dict.HasKey(r, k) <==> Dict.HasKey(rows, k)
    ensures forall k | k != u.0 :: Dict.Get(r, k) == Dict.Get(rows, k)
    ensures Dict.HasKey(rows, u.0) ==> Dict.Get(r, u.0) == Some(u.1)
    ensures Dict.KeysUnique(rows) ==> Dict.KeysUnique(r)
  {
    if Dict.HasKey(rows, u.0) then
      var r := Dict.Put(rows, u.0, u.1);
      assert forall k | k != u.0 :: Dict.Get(r, k) == Dict.Get(rows, k) by {
        forall k | k != u.0 ensures Dict.Get(r, k) == Dict.Get(rows, k) {
          Dict.PutOther(rows, u.0, u.1, k);
        }
      }
      r
    else rows
  }

  /** A key no update names keeps its row. */
  lemma {:induction false} ApplyUpdatesOther<R>(rows: Dict.Dict<Uuid, R>, updates: seq<(Uuid, R)>, k: Uuid)
    requires forall i | 0 <= i < |updates| :: updates[i].0 != k
    ensures Dict.Get(ApplyUpdates(rows, updates), k) == Dict.Get(rows, k)
    decreases |updates|
  {
    if |updates| > 0 {
      assert forall i | 0 <= i < |updates| - 1 :: updates[1..][i] == updates[i + 1];
      ApplyUpdatesOther(ApplyOne(rows, updates[0]), updates[1..], k);
    }
  }

  /** The last update naming an existing key decides its row. */
  lemma {:induction false} ApplyUpdatesLast<R>(rows: Dict.Dict<Uuid, R>, updates: seq<(Uuid, R)>, i: nat)
    requires i < |updates| && Dict.HasKey(rows, updates[i].0)
    requires forall j | i < j < |updates| :: updates[j].0 != updates[i].0
    ensures Dict.Get(ApplyUpdates(rows, updates), updates[i].0) == Some(updates[i].1)
    decreases |updates|
  {
    var next := ApplyOne(rows, updates[0]);
    assert forall j | 0 <= j < |updates| - 1 :: updates[1..][j] == updates[j + 1];
    if i == 0 {
      ApplyUpdatesOther(next, updates[1..], updates[0].0);
    } else {
      ApplyUpdatesLast(next, updates[1..], i - 1);
    }
  }

  /** `bulk_update`: nothing to update does nothing; a constraint the executemany `UPDATE`
      violates (`violation`, reported by the database) is raised as an unmapped
      `IntegrityError` and the transaction leaves the table as it was; otherwise each update
      replaces the row with its key, and the set of keys is unchanged. */
  function BulkUpdate<R>(t: Table<R>, updates: seq<(Uuid, R)>, violation: Option<string>): (r: Result<Table<R>, Error>)
    ensures |updates| == 0 ==> r == Ok(t)
    ensures r.Err? <==> |updates| > 0 && violation.Some?
    ensures |updates| > 0 && violation.Some? ==> r == Err(Raised("IntegrityError", violation.value))
    ensures r.Ok? ==> r.value.model == t.model && r.value.name == t.name && r.value.attributes == t.attributes
    ensures r.Ok? ==> forall k :: Dict.HasKey(r.value.rows, k) <==> Dict.HasKey(t.rows, k)
    ensures r.Ok? && Valid(t) ==> Valid(r.value)
  {
    if |updates| == 0 then Ok(t)
    else if violation.Some? then Err(Raised("IntegrityError", violation.value))
    else Ok(t.(rows := ApplyUpdates(t.rows, updates)))
  }

  /** After a `bulk_update` that meets no violation, a key no update names keeps its row, and
      an existing key takes the row of the last update naming it. */
  lemma BulkUpdateRows<R>(t: Table<R>, updates: seq<(Uuid, R)>, k: Uuid)
    ensures BulkUpdate(t, updates, None).Ok?
    ensures (forall i | 0 <= i < |updates| :: updates[i].0 != k) ==> Dict.Get(BulkUpdate(t, updates, None).value.rows, k) == Dict.Get(t.rows, k)
    ensures forall i | 0 <= i < |updates| && updates[i].0 == k && Dict.HasKey(t.rows, k) &&
              (forall j | i < j < |updates| :: updates[j].0 != k) ::
              Dict.Get(BulkUpdate(t, updates, None).value.rows, k) == Some(updates[i].1)
  {
    if forall i | 0 <= i < |updates| :: updates[i].0 != k {
      if |updates| > 0 { ApplyUpdatesOther(t.rows, updates, k); }
    }
    forall i | 0 <= i < |updates| && updates[i].0 == k && Dict.HasKey(t.rows, k) &&
               (forall j | i < j < |updates| :: updates[j].0 != k)
      ensures Dict.Get(BulkUpdate(t, updates, None).value.rows, k) == Some(updates[i].1)
    {
      ApplyUpdatesLast(t.rows, updates, i);
    }
  }

  /** `delete`: removes the row if there is one, and answers `True` either way. */
  function Delete<R>(t: Table<R>, id: Uuid): (r: (Table<R>, bool))
    ensures r.1
    ensures !Dict.HasKey(r.0.rows, id)
    ensures forall k | k != id :: Dict.Get(r.0.rows, k) == Dict.Get(t.rows, k)
    ensures Valid(t) ==> Valid(r.0)
  {
    (t.(rows := Dict.Remove(t.rows, id)), true)
  }

  // ---------------------------------------------------------------------------------------
  // Pagination

  datatype Page<R> = Page(objects: seq<R>, count: int)

  /** The search condition on one row: `false` or-ed with one test per search column, where
      `hit(c)(row)` stands for the database's `ILIKE '%search%'` (or, on an enum column,
      equality) on column `c`. */
  predicate Matches<R>(searchBy: seq<string>, hit: string -> R -> bool, row: R) {
    exists i | 0 <= i < |searchBy| :: hit(searchBy[i])(row)
  }

  /** The rows a search keeps, in storage order: all of them for an empty search, else those
      some search column matches (none when there are no search columns). */
  function Searched<R>(rows: seq<R>, search: string, searchBy: seq<string>, hit: string -> R -> bool): (r: seq<R>)
    ensures search == "" ==> r == rows
    ensures search != "" && |searchBy| == 0 ==> r == []
    ensures |r| <= |rows|
    ensures forall i | 0 <= i < |r| :: r[i] in rows && (search != "" ==> Matches(searchBy, hit, r[i]))
    ensures forall i | 0 <= i < |rows| :: (search == "" || Matches(searchBy, hit, rows[i])) ==> rows[i] in r
    decreases |rows|
  {
    if |rows| == 0 || search == "" then rows
    else
      var rest := Searched(rows[1..], search, searchBy, hit);
      assert forall x | x in rows[1..] :: x in rows;
      assert forall i | 1 <= i < |rows| :: rows[i] == rows[1..][i - 1];
      if Matches(searchBy, hit, rows[0]) then [rows[0]] + rest else rest
  }

  /** The sort key of one order: the column's rank (`rank(c)(row)` stands for the row's place
      in column `c`'s order), negated when descending. */
  function KeyOf<R>(rank: string -> R -> int, o: Order): R -> int {
    match o
    case Asc(f) => rank(f)
    case Desc(f) => (row: R) => -rank(f)(row)
  }

  /** An ascending order puts the lower-ranked row first, a descending one the higher-ranked;
      on equal ranks the next order decides. */
  lemma CompareFirstOrder<R>(rank: string -> R -> int, orders: seq<Order>, a: R, b: R)
    requires |orders| > 0
    ensures var f := orders[0].field;
            var c := Sorting.Compare(KeysOf(rank, orders), a, b);
            (rank(f)(a) == rank(f)(b) ==> c == Sorting.Compare(KeysOf(rank, orders[1..]), a, b)) &&
            (rank(f)(a) < rank(f)(b) ==> c == if orders[0].Desc? then 1 else -1) &&
            (rank(f)(a) > rank(f)(b) ==> c == if orders[0].Desc? then -1 else 1)
  {
    assert KeysOf(rank, orders)[1..] == KeysOf(rank, orders[1..]);
  }

  /** The sort keys of the parsed orders, most significant first. */
  function KeysOf<R>(rank: string -> R -> int, orders: seq<Order>): (ks: seq<R -> int>)
    ensures |ks| == |orders| && forall i | 0 <= i < |orders| :: ks[i] == KeyOf(rank, orders[i])
  {
    seq(|orders|, i requires 0 <= i < |orders| => KeyOf(rank, orders[i]))
  }

  /** `paginate`: without policies, an empty page and count 0 before any query. Otherwise the
      search columns and the sort strings are checked, then the matching rows are put in the
      order the sort strings ask for and the page is the `limit` of them from `offset`; the
      count is how many match. */
  function Paginate<R>(t: Table<R>, search: string, searchBy: seq<string>, sorting: seq<string>,
                       limit: int, offset: int, policies: seq<string>,
                       hit: string -> R -> bool, rank: string -> R -> int): (r: Result<Page<R>, Error>)
    ensures |policies| == 0 ==> r == Ok(Page([], 0))
    ensures |policies| > 0 && search != "" && (exists i | 0 <= i < |searchBy| :: !HasAttribute(t, searchBy[i])) ==>
              r.Err? && r.error.Raised? && r.error.kind == "AttributeError"
    ensures |policies| > 0 && r.Ok? ==> GetOrderByExpr(t, sorting).Ok? && 0 <= limit && 0 <= offset
    ensures |policies| > 0 && r.Ok? ==>
              var found := Searched(Dict.Values(t.rows), search, searchBy, hit);
              var ordered := Sorting.Sort(KeysOf(rank, GetOrderByExpr(t, sorting).value), found);
              r.value.count == |found| &&
              |r.value.objects| == (if offset >= |found| then 0 else if limit < |found| - offset then limit else |found| - offset) &&
              forall i | 0 <= i < |r.value.objects| :: r.value.objects[i] == ordered[offset + i]
  {
    if |policies| == 0 then Ok(Page([], 0))
    else if search != "" && exists i | 0 <= i < |searchBy| :: !HasAttribute(t, searchBy[i]) then
      Err(Raised("AttributeError", "type object has no attribute"))
    else
      var orders :- GetOrderByExpr(t, sorting);
      if limit < 0 then Err(Raised("DataError", "LIMIT must not be negative"))
      else if offset < 0 then Err(Raised("DataError", "OFFSET must not be negative"))
      else
        var found := Searched(Dict.Values(t.rows), search, searchBy, hit);
        Ok(Page(Window(Sorting.Sort(KeysOf(rank, orders), found), limit, offset), |found|))
  }

  /** `LIMIT limit OFFSET offset`: up to `limit` rows, skipping the first `offset`. */
  function Window<R>(s: seq<R>, limit: nat, offset: nat): (w: seq<R>)
    ensures |w| == (if offset >= |s| then 0 else if limit < |s| - offset then limit else |s| - offset)
    ensures forall i | 0 <= i < |w| :: w[i] == s[offset + i]
  {
    var lo := if offset >= |s| then |s| else offset;
    var hi := if limit < |s| - lo then lo + limit else |s|;
    s[lo..hi]
  }

  /** A page is in the order the sort strings ask for, and holds only matching rows. */
  lemma PaginateOrdered<R>(t: Table<R>, search: string, searchBy: seq<string>, sorting: seq<string>,
                           limit: int, offset: int, policies: seq<string>,
                           hit: string -> R -> bool, rank: string -> R -> int)
    requires |policies| > 0 && Paginate(t, search, searchBy, sorting, limit, offset, policies, hit, rank).Ok?
    ensures var page := Paginate(t, search, searchBy, sorting, limit, offset, policies, hit, rank).value.objects;
            Sorting.Sorted(KeysOf(rank, GetOrderByExpr(t, sorting).value), page) &&
            multiset(page) <= multiset(Dict.Values(t.rows)) &&
            (search != "" ==> forall i | 0 <= i < |page| :: Matches(searchBy, hit, page[i]))
  {
    var rows := Dict.Values(t.rows);
    SearchedSub(rows, search, searchBy, hit);
    SliceOfSorted(KeysOf(rank, GetOrderByExpr(t, sorting).value), Searched(rows, search, searchBy, hit), rows,
                  Paginate(t, search, searchBy, sorting, limit, offset, policies, hit, rank).value.objects, offset);
  }

  /** Without sort strings a page is a run of the matching rows in storage order. */
  lemma PaginateUnsorted<R>(t: Table<R>, search: string, searchBy: seq<string>,
                            limit: int, offset: int, policies: seq<string>,
                            hit: string -> R -> bool, rank: string -> R -> int)
    requires |policies| > 0 && Paginate(t, search, searchBy, [], limit, offset, policies, hit, rank).Ok?
    ensures var page := Paginate(t, search, searchBy, [], limit, offset, policies, hit, rank).value.objects;
            var found := Searched(Dict.Values(t.rows), search, searchBy, hit);
            forall i | 0 <= i < |page| :: page[i] == found[offset + i]
  {
    assert KeysOf(rank, GetOrderByExpr(t, []).value) == [];
    Sorting.SortNoKeys(Searched(Dict.Values(t.rows), search, searchBy, hit));
  }

  /** A run of consecutive rows of a sorted rearrangement is sorted, and its rows come from
      the rearranged ones. */
  lemma SliceOfSorted<R>(keys: seq<R -> int>, found: seq<R>, rows: seq<R>, page: seq<R>, offset: int)
    requires 0 <= offset && (|page| == 0 || offset + |page| <= |found|) && multiset(found) <= multiset(rows)
    requires forall i | 0 <= i < |page| :: page[i] == Sorting.Sort(keys, found)[offset + i]
    ensures Sorting.Sorted(keys, page)
    ensures multiset(page) <= multiset(rows)
    ensures forall i | 0 <= i < |page| :: page[i] in found
  {
    if |page| > 0 {
      var ordered := Sorting.Sort(keys, found);
      var hi := offset + |page|;
      assert page == ordered[offset..hi];
      Sorting.SortedSlice(keys, ordered, offset, hi);
      Sorting.SliceSub(ordered, offset, hi);
      forall i | 0 <= i < |page| ensures page[i] in found {
        assert page[i] in multiset(ordered);
      }
    }
  }

  /** The rows a search keeps are some of the rows it searched. */
  lemma {:induction false} SearchedSub<R>(rows: seq<R>, search: string, searchBy: seq<string>, hit: string -> R -> bool)
    ensures multiset(Searched(rows, search, searchBy, hit)) <= multiset(rows)
    decreases |rows|
  {
    if |rows| > 0 && search != "" {
      SearchedSub(rows[1..], search, searchBy, hit);
      assert rows == [rows[0]] + rows[1..];
    }
  }
}
