/** The JSON-like Python values that flow through the services: decoded JWT payloads, LLM
    results, exception `extras` and cache entries. Floating-point numbers are not modelled. */
module PyValue {
  import opened Wrappers
  import PyStr
  import Decimal
  import Dict

  datatype Value =
    | Nil                                   // None / JSON null
    | Bool(b: bool)
    | Int(i: int)
    | Str(s: string)
    | List(items: seq<Value>)
    | Object(entries: Dict.Dict<string, Value>)   // dict with string keys / JSON object

  /** Python truthiness (`bool(v)`). */
  predicate Truthy(v: Value) {
    match v
    case Nil => false
    case Bool(b) => b
    case Int(i) => i != 0
    case Str(s) => s != ""
    case List(items) => |items| > 0
    case Object(entries) => |entries| > 0
  }

  /** Values Python can use as a dict key; lists and dicts raise TypeError. */
  predicate Hashable(v: Value) {
    !v.List? && !v.Object?
  }

  /** `type(v).__name__`. */
  function TypeName(v: Value): string {
    match v
    case Nil => "NoneType"
    case Bool(_) => "bool"
    case Int(_) => "int"
    case Str(_) => "str"
    case List(_) => "list"
    case Object(_) => "dict"
  }

  /** `obj.get(key)` on a JSON object; `None` when the key is absent. */
  function Member(entries: Dict.Dict<string, Value>, key: string): (r: Value)
    ensures !Dict.HasKey(entries, key) ==> r == Nil
  {
    Dict.Get(entries, key).GetOr(Nil)
  }

  // ---------------------------------------------------------------------------------------
  // repr / str

  /** Characters `repr` writes as a `\xNN` escape: the C0 and C1 controls, DEL, the no-break
      space and the soft hyphen. */
  predicate ReprHexEscaped(c: char) {
    c < ' ' || ('\U{007F}' <= c <= '\U{00A0}') || c == '\U{00AD}'
  }

  /** Characters from U+0100 to U+FFFF that `repr` writes as a `\uNNNN` escape, being not
      printable: the separators, the format controls, the private-use area, the noncharacters
      and the unassigned U+2065 and U+FFF0 to U+FFF8, which sit inside runs of controls. */
  predicate ReprUnicodeEscaped(c: char) {
    '\U{FF}' < c <= '\U{FFFF}' &&
    (PyStr.IsSpace(c) ||
     ('\U{600}' <= c <= '\U{605}') || c == '\U{61C}' || c == '\U{6DD}' || c == '\U{70F}' ||
     ('\U{890}' <= c <= '\U{891}') || c == '\U{8E2}' || c == '\U{180E}' ||
     ('\U{200B}' <= c <= '\U{200F}') || ('\U{202A}' <= c <= '\U{202E}') || ('\U{2060}' <= c <= '\U{206F}') ||
     ('\U{E000}' <= c <= '\U{F8FF}') || ('\U{FDD0}' <= c <= '\U{FDEF}') ||
     c == '\U{FEFF}' || ('\U{FFF0}' <= c <= '\U{FFFB}') || c >= '\U{FFFE}')
  }

  /** Characters above U+FFFF that `repr` writes as a `\UNNNNNNNN` escape: the format
      controls, the two noncharacters closing each plane, the planes 4 to 13 and plane 14
      outside its variation selectors (tags and unassigned), and the private-use planes. */
  predicate ReprWideEscaped(c: char) {
    '\U{FFFF}' < c &&
    (c == '\U{110BD}' || c == '\U{110CD}' || ('\U{13430}' <= c <= '\U{1343F}') ||
     ('\U{1BCA0}' <= c <= '\U{1BCA3}') || ('\U{1D173}' <= c <= '\U{1D17A}') ||
     ('\U{40000}' <= c <= '\U{DFFFF}') || ('\U{E0000}' <= c <= '\U{E00FF}') ||
     ('\U{E01F0}' <= c) || (c as int) % 0x1_0000 >= 0xFFFE)
  }

  function ReprChar(c: char, quote: char): (r: string)
    requires quote == '\'' || quote == '"'
    ensures |r| >= 1
    ensures '\n' !in r
  {
    if c == '\\' then "\\\\"
    else if c == quote then ['\\', quote]
    else if c == '\n' then "\\n"
    else if c == '\r' then "\\r"
    else if c == '\t' then "\\t"
    else if ReprHexEscaped(c) then "\\x" + Decimal.HexFixed(c as nat, 2)
    else if ReprUnicodeEscaped(c) then "\\u" + Decimal.HexFixed(c as nat, 4)
    else if ReprWideEscaped(c) then "\\U" + Decimal.HexFixed(c as nat, 8)
    else [c]
  }

  /** The zero-width space is not printable, so `repr` spells it out. */
  lemma ZeroWidthSpaceRepr()
    ensures ReprChar('\U{200B}', '\'') == "\\u200b"
  {
    assert Decimal.HexFixed(0x200B, 4) == "200b";
  }

  function ReprBody(s: string, quote: char): (r: string)
    requires quote == '\'' || quote == '"'
    ensures '\n' !in r
  {
    if |s| == 0 then "" else ReprChar(s[0], quote) + ReprBody(s[1..], quote)
  }

  /** `repr(s)`: single quotes unless the text holds a single quote and no double quote. */
  function StrRepr(s: string): (r: string)
    ensures |r| >= 2 && r[0] == r[|r| - 1] && (r[0] == '\'' || r[0] == '"')
    ensures r[0] == '"' <==> ('\'' in s && '"' !in s)
    ensures '\n' !in r
  {
    var quote := if '\'' in s && '"' !in s then '"' else '\'';
    [quote] + ReprBody(s, quote) + [quote]
  }

  /** `repr(v)`. */
  function Repr(v: Value): (r: string)
    ensures |r| >= 1
    decreases v, 1
  {
    match v
    case Nil => "None"
    case Bool(b) => if b then "True" else "False"
    case Int(i) => Decimal.IntToString(i)
    case Str(s) => StrRepr(s)
    case List(items) => "[" + PyStr.Join(ReprItems(items, v), ", ") + "]"
    case Object(entries) => "{" + PyStr.Join(ReprEntries(entries, v), ", ") + "}"
  }

  function ReprItems(items: seq<Value>, ghost parent: Value): (rs: seq<string>)
    requires forall i | 0 <= i < |items| :: items[i] < parent
    ensures |rs| == |items|
    decreases parent, 0, |items|
  {
    if |items| == 0 then [] else [Repr(items[0])] + ReprItems(items[1..], parent)
  }

  function ReprEntries(entries: Dict.Dict<string, Value>, ghost parent: Value): (rs: seq<string>)
    requires forall i | 0 <= i < |entries| :: entries[i].1 < parent
    ensures |rs| == |entries|
    decreases parent, 0, |entries|
  {
    if |entries| == 0 then []
    else [StrRepr(entries[0].0) + ": " + Repr(entries[0].1)] + ReprEntries(entries[1..], parent)
  }

  /** `str(v)`: a string is itself, anything else is its `repr`. */
  function ToStr(v: Value): (r: string)
    ensures v.Str? ==> r == v.s
    ensures !v.Str? ==> r == Repr(v)
  {
    if v.Str? then v.s else Repr(v)
  }

  // ---------------------------------------------------------------------------------------
  // json.dumps(v, ensure_ascii=False)

  /** The escape `json.dumps` writes for one character of a string (`ensure_ascii=False`):
      quote, backslash and the C0 controls are escaped; every other character is kept. */
  function JsonChar(c: char): (r: string)
    ensures |r| >= 1
    ensures forall i | 0 <= i < |r| :: r[i] >= ' '
    ensures |r| == 1 <==> (c >= ' ' && c != '"' && c != '\\')
    ensures |r| == 1 ==> r == [c]
    ensures |r| > 1 ==> r[0] == '\\'
  {
    if c == '"' then "\\\""
    else if c == '\\' then "\\\\"
    else if c == '\n' then "\\n"
    else if c == '\r' then "\\r"
    else if c == '\t' then "\\t"
    else if c == '\U{0008}' then "\\b"
    else if c == '\U{000C}' then "\\f"
    else if c < ' ' then "\\u" + Decimal.HexFixed(c as nat, 4)
    else [c]
  }

  function JsonBody(s: string): (r: string)
    ensures forall i | 0 <= i < |r| :: r[i] >= ' '
  {
    if |s| == 0 then "" else JsonChar(s[0]) + JsonBody(s[1..])
  }

  /** A JSON string literal for `s`: quoted, with no raw control character inside. */
  function JsonString(s: string): (r: string)
    ensures |r| >= 2 && r[0] == '"' && r[|r| - 1] == '"'
    ensures forall i | 0 <= i < |r| :: r[i] >= ' '
  {
    "\"" + JsonBody(s) + "\""
  }

  /** `json.dumps(v, ensure_ascii=False)` with the default `", "` and `": "` separators. */
  function JsonDumps(v: Value): (r: string)
    ensures |r| >= 1
    ensures v.Str? ==> r[0] == '"'
    ensures v.List? ==> r[0] == '['
    ensures v.Object? ==> r[0] == '{'
    decreases v, 1
  {
    match v
    case Nil => "null"
    case Bool(b) => if b then "true" else "false"
    case Int(i) => Decimal.IntToString(i)
    case Str(s) => JsonString(s)
    case List(items) => "[" + PyStr.Join(JsonItems(items, v), ", ") + "]"
    case Object(entries) => "{" + PyStr.Join(JsonEntries(entries, v), ", ") + "}"
  }

  function JsonItems(items: seq<Value>, ghost parent: Value): (rs: seq<string>)
    requires forall i | 0 <= i < |items| :: items[i] < parent
    ensures |rs| == |items|
    decreases parent, 0, |items|
  {
    if |items| == 0 then [] else [JsonDumps(items[0])] + JsonItems(items[1..], parent)
  }

  function JsonEntries(entries: Dict.Dict<string, Value>, ghost parent: Value): (rs: seq<string>)
    requires forall i | 0 <= i < |entries| :: entries[i].1 < parent
    ensures |rs| == |entries|
    decreases parent, 0, |entries|
  {
    if |entries| == 0 then []
    else [JsonString(entries[0].0) + ": " + JsonDumps(entries[0].1)] + JsonEntries(entries[1..], parent)
  }

  // ---------------------------------------------------------------------------------------
  // Reading a JSON string body back

  /** Decodes the inside of a JSON string literal written by `JsonBody`; `None` on a malformed
      escape. */
  function JsonUnescape(r: string): Option<string>
    decreases |r|
  {
    if |r| == 0 then Some("")
    else if r[0] != '\\' then
      match JsonUnescape(r[1..])
      case Some(t) => Some([r[0]] + t)
      case None => None
    else if |r| >= 2 && EscapeLetter(r[1]).Some? then
      match JsonUnescape(r[2..])
      case Some(t) => Some([EscapeLetter(r[1]).value] + t)
      case None => None
    else if |r| >= 6 && r[1] == 'u' && forall k | 2 <= k < 6 :: Decimal.IsHexDigit(r[k]) then
      var cp := Decimal.HexDigitsValue(r[2..6]);
      if cp < 0x20 then
        match JsonUnescape(r[6..])
        case Some(t) => Some([cp as char] + t)
        case None => None
      else None
    else None
  }

  /** The single-letter escapes: `\"`, `\\`, `\n`, `\r`, `\t`, `\b`, `\f`. */
  function EscapeLetter(c: char): Option<char> {
    if c == '"' then Some('"')
    else if c == '\\' then Some('\\')
    else if c == 'n' then Some('\n')
    else if c == 'r' then Some('\r')
    else if c == 't' then Some('\t')
    else if c == 'b' then Some('\U{0008}')
    else if c == 'f' then Some('\U{000C}')
    else None
  }

  lemma JsonCharUnescape(c: char, rest: string, t: string)
    requires JsonUnescape(rest) == Some(t)
    ensures JsonUnescape(JsonChar(c) + rest) == Some([c] + t)
  {
    var e := JsonChar(c);
    if c >= ' ' && c != '"' && c != '\\' {
      assert e == [c];
      assert (e + rest)[1..] == rest;
    } else if c < ' ' && c != '\n' && c != '\r' && c != '\t' && c != '\U{0008}' && c != '\U{000C}' {
      ControlUnescape(c, rest, t);
    } else {
      assert |e| == 2 && e[0] == '\\' && EscapeLetter(e[1]) == Some(c);
      assert (e + rest)[2..] == rest;
    }
  }

  lemma ControlUnescape(c: char, rest: string, t: string)
    requires c < ' ' && c != '\n' && c != '\r' && c != '\t' && c != '\U{0008}' && c != '\U{000C}'
    requires JsonUnescape(rest) == Some(t)
    ensures JsonUnescape(JsonChar(c) + rest) == Some([c] + t)
  {
    var h := Decimal.HexFixed(c as nat, 4);
    var e := "\\u" + h;
    assert JsonChar(c) == e;
    Decimal.HexFixedValue(c as nat, 4);
    var w := e + rest;
    assert w[0] == '\\' && w[1] == 'u';
    assert EscapeLetter(w[1]).None?;
    assert w[2..6] == h;
    assert w[6..] == rest;
  }

  /** Reading the body back gives the original string. */
  lemma {:induction false} JsonBodyRoundTrip(s: string)
    ensures JsonUnescape(JsonBody(s)) == Some(s)
  {
    if |s| > 0 {
      JsonBodyRoundTrip(s[1..]);
      JsonCharUnescape(s[0], JsonBody(s[1..]), s[1..]);
      assert [s[0]] + s[1..] == s;
    }
  }
}
