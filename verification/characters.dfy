/** The character-name rule of `CharacterBaseSchema.validate_name`. */
module Characters {
  import opened Wrappers
  import PyStr

  /** Why a name is refused: the field's `min_length=2` / `max_length=21` constraints, which
      pydantic checks first, then one constructor per `ValueError` the validator raises, in the
      order it checks them. */
  datatype NameError = TooShort | TooLong | BadLength | Blank | BadCharacters | MixedScripts | EdgeSpace | DoubleSpace

  const MinNameLength: int := 2
  const MaxNameLength: int := 21

  function Message(e: NameError): string {
    match e
    case TooShort => "String should have at least 2 characters"
    case TooLong => "String should have at most 21 characters"
    case BadLength => "Name must be more 2 characters and no more than 21 characters long"
    case Blank => "Name cannot be empty"
    case BadCharacters => "Name must contain only letters of one language (Russian or English), numbers and spaces"
    case MixedScripts => "Name must contain letters of only one language (Russian or English)"
    case EdgeSpace => "Name cannot start or end with a space"
    case DoubleSpace => "Name cannot contain multiple consecutive spaces"
  }

  predicate IsLatin(c: char) {
    ('a' <= c <= 'z') || ('A' <= c <= 'Z')
  }

  /** `[а-яА-ЯёЁ]`: the basic Cyrillic letters and the two forms of yo. */
  predicate IsCyrillic(c: char) {
    ('\U{0430}' <= c <= '\U{044F}') || ('\U{0410}' <= c <= '\U{042F}') || c == '\U{0451}' || c == '\U{0401}'
  }

  predicate IsDigit(c: char) {
    '0' <= c <= '9'
  }

  /** `[a-zA-Z0-9 ]` */
  predicate LatinClass(c: char) {
    IsLatin(c) || IsDigit(c) || c == ' '
  }

  /** `[а-яА-ЯёЁ0-9 ]` */
  predicate CyrillicClass(c: char) {
    IsCyrillic(c) || IsDigit(c) || c == ' '
  }

  predicate AllLatinClass(s: string) {
    forall i | 0 <= i < |s| :: LatinClass(s[i])
  }

  predicate AllCyrillicClass(s: string) {
    forall i | 0 <= i < |s| :: CyrillicClass(s[i])
  }

  /** `re.match(r'^[a-zA-Z0-9 ]+$|^[а-яА-ЯёЁ0-9 ]+$', v)`. The anchor `$` also matches just
      before a newline that ends the string, so that newline is not checked against the
      classes. */
  predicate PatternMatches(v: string) {
    var body := if |v| > 0 && v[|v| - 1] == '\n' then v[..|v| - 1] else v;
    |body| > 0 && (AllLatinClass(body) || AllCyrillicClass(body))
  }

  predicate HasCyrillic(v: string) {
    exists i | 0 <= i < |v| :: IsCyrillic(v[i])
  }

  predicate HasLatin(v: string) {
    exists i | 0 <= i < |v| :: IsLatin(v[i])
  }

  /** `validate_name`: the checks in source order; the first that fails names the error, and an
      accepted name comes back unchanged. */
  function ValidateName(v: string): (r: Result<string, NameError>)
    ensures r.Ok? ==> r.value == v
    ensures r == Err(BadLength) <==> |v| < 2 || |v| > 21
    ensures r == Err(Blank) <==> 2 <= |v| <= 21 && PyStr.Strip(v) == []
    ensures r.Ok? ==> !PyStr.Contains(v, "  ") && PyStr.Strip(v) == v
  {
    var stripped := PyStr.Strip(v);
    if |v| < 2 || |v| > 21 then Err(BadLength)
    else if v == [] || stripped == [] then Err(Blank)
    else if !PatternMatches(v) then Err(BadCharacters)
    else if HasCyrillic(v) && HasLatin(v) then Err(MixedScripts)
    else if v != stripped then Err(EdgeSpace)
    else if PyStr.Contains(v, "  ") then Err(DoubleSpace)
    else Ok(v)
  }

  /** Validating `name`: the field's length constraints, then `validate_name`. */
  function ValidateNameField(v: string): (r: Result<string, NameError>)
    ensures |v| < MinNameLength ==> r == Err(TooShort)
    ensures |v| > MaxNameLength ==> r == Err(TooLong)
    ensures MinNameLength <= |v| <= MaxNameLength ==> r == ValidateName(v)
  {
    if |v| < MinNameLength then Err(TooShort)
    else if |v| > MaxNameLength then Err(TooLong)
    else ValidateName(v)
  }

  /** Through the schema the validator's length error is never reached, since the field
      constraints refuse the same lengths first; the schema accepts exactly the names the
      validator accepts. */
  lemma NameLengthErrorUnreachable(v: string)
    ensures ValidateNameField(v) != Err(BadLength)
    ensures ValidateNameField(v).Ok? <==> ValidateName(v).Ok?
  {
  }

  /** The rule stated directly: 2 to 21 characters, all from one alphabet's class, no space at
      either end and never two spaces in a row. */
  predicate WellFormedName(v: string) {
    2 <= |v| <= 21 &&
    (AllLatinClass(v) || AllCyrillicClass(v)) &&
    v[0] != ' ' && v[|v| - 1] != ' ' &&
    forall i | 0 <= i < |v| - 1 :: !(v[i] == ' ' && v[i + 1] == ' ')
  }

  /** No letter, digit or space of either class is white space other than the space itself. */
  lemma ClassNotSpace(c: char)
    requires LatinClass(c) || CyrillicClass(c)
    ensures PyStr.IsSpace(c) <==> c == ' '
  {
  }

  /** A character of a one-class string that is not the space is not white space. */
  lemma ClassCharNotSpace(s: string, i: int)
    requires AllLatinClass(s) || AllCyrillicClass(s)
    requires 0 <= i < |s| && s[i] != ' '
    ensures !PyStr.IsSpace(s[i]) && s[i] != '\n'
  {
    ClassNotSpace(s[i]);
  }

  /** Two spaces in a row are exactly an occurrence of `"  "`. */
  lemma DoubleSpaceIff(v: string)
    ensures PyStr.Contains(v, "  ") <==> exists i | 0 <= i < |v| - 1 :: v[i] == ' ' && v[i + 1] == ' '
  {
    PyStr.ContainsIff(v, "  ");
    if PyStr.Contains(v, "  ") {
      var i :| PyStr.InfixAt(v, "  ", i);
      assert v[i..i + 2][0] == ' ' && v[i..i + 2][1] == ' ';
    }
    if exists i | 0 <= i < |v| - 1 :: v[i] == ' ' && v[i + 1] == ' ' {
      var i :| 0 <= i < |v| - 1 && v[i] == ' ' && v[i + 1] == ' ';
      assert v[i..i + 2] == "  ";
      assert PyStr.InfixAt(v, "  ", i);
    }
  }

  /** With no newline at the end, the pattern checks the whole string. */
  lemma PatternWhole(v: string)
    requires |v| > 0 && v[|v| - 1] != '\n'
    ensures PatternMatches(v) <==> AllLatinClass(v) || AllCyrillicClass(v)
  {
  }

  /** An accepted name is well formed. */
  lemma ValidateNameSound(v: string)
    requires ValidateName(v).Ok?
    ensures WellFormedName(v)
  {
    var r := ValidateName(v);
    assert 2 <= |v| <= 21 && PatternMatches(v) && PyStr.Strip(v) == v && !PyStr.Contains(v, "  ");
    PyStr.StripUnchanged(v);
    // Stripping changes nothing, so the name ends in no newline and the pattern saw all of it.
    assert PyStr.IsSpace('\n') && PyStr.IsSpace(' ');
    PatternWhole(v);
    DoubleSpaceIff(v);
  }

  /** A well-formed name is accepted. */
  lemma ValidateNameComplete(v: string)
    requires WellFormedName(v)
    ensures ValidateName(v).Ok?
  {
    DoubleSpaceIff(v);
    ClassCharNotSpace(v, 0);
    ClassCharNotSpace(v, |v| - 1);
    PyStr.StripUnchanged(v);
    assert PatternMatches(v);
    if AllLatinClass(v) {
      assert !HasCyrillic(v);
    } else {
      assert !HasLatin(v);
    }
  }

  /** `validate_name` accepts exactly the well-formed names. */
  lemma ValidateNameIff(v: string)
    ensures ValidateName(v).Ok? <==> WellFormedName(v)
  {
    if ValidateName(v).Ok? {
      ValidateNameSound(v);
    }
    if WellFormedName(v) {
      ValidateNameComplete(v);
    }
  }

  /** A string that is one class's characters, perhaps followed by a newline, does not mix the
      alphabets. */
  lemma OneClassNotMixed(v: string, body: string)
    requires v == body || v == body + "\n"
    requires AllLatinClass(body) || AllCyrillicClass(body)
    ensures !(HasCyrillic(v) && HasLatin(v))
  {
    if AllLatinClass(body) {
      forall i | 0 <= i < |v|
        ensures !IsCyrillic(v[i])
      {
        if i < |body| {
          assert v[i] == body[i];
        }
      }
    } else {
      forall i | 0 <= i < |v|
        ensures !IsLatin(v[i])
      {
        if i < |body| {
          assert v[i] == body[i];
        }
      }
    }
  }

  /** The mixed-alphabet check never fires: a name the pattern lets through is already written
      in a single alphabet. */
  lemma MixedScriptsNeverRaised(v: string)
    ensures ValidateName(v) != Err(MixedScripts)
  {
    if 2 <= |v| <= 21 && PatternMatches(v) {
      if v[|v| - 1] == '\n' {
        assert v == v[..|v| - 1] + "\n";
        OneClassNotMixed(v, v[..|v| - 1]);
      } else {
        OneClassNotMixed(v, v);
      }
    }
  }

  /** A name the pattern admits only because of a trailing newline is refused one step later,
      as one that ends with white space. */
  lemma TrailingNewlineIsEdgeSpace(v: string)
    requires 2 <= |v| <= 21 && v[|v| - 1] == '\n' && v[0] != ' '
    requires PatternMatches(v)
    ensures ValidateName(v) == Err(EdgeSpace)
  {
    var body := v[..|v| - 1];
    assert body[0] == v[0];
    ClassCharNotSpace(body, 0);
    assert PyStr.IsSpace('\n');
    PyStr.StripUnchanged(v);
    MixedScriptsNeverRaised(v);
  }
}
