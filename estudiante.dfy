/** The student entity: three nullable String fields whose setters validate and
    then assign, identity by id only, and the Bean Validation constraints
    declared on the fields. */
module Model {
  import opened Wrappers
  import opened JavaLang

  // Messages of the setters' IllegalArgumentExceptions.
  const MsgIdVacio := "El ID no puede estar vacio"
  const MsgIdFormato := "El ID debe tener exactamente 9 digitos"
  const MsgNombreVacio := "El nombre no puede estar vacio"
  const MsgCarreraVacia := "La carrera no puede estar vacia"

  // Messages of the field annotations.
  const MsgIdNulo := "El ID no puede ser nulo"             // @NotBlank on id
  const MsgIdPatron := "El ID debe tener exactamente 9 digitos" // @Pattern on id

  /** The outcome of `s.matches(s)`: java.util.regex compiles s and matches it
      against itself; a malformed pattern throws PatternSyntaxException, whose
      getMessage() (description, index, pattern and caret line) is `message`. */
  datatype SelfMatch = Matches | NoMatch | SyntaxError(message: string)

  /** The regex engine is not modelled: the setter receives it as a function. */
  type RegexSelfMatch = string -> SelfMatch

  predicate IsAsciiLetterOrDigit(c: char) {
    ('0' <= c <= '9') || ('A' <= c <= 'Z') || ('a' <= c <= 'z')
  }

  predicate IsAsciiAlnum(s: string) {
    forall i :: 0 <= i < |s| ==> IsAsciiLetterOrDigit(s[i])
  }

  /** What every regex engine does with a pattern made only of letters and
      digits: it is a literal, so it matches exactly itself. */
  ghost predicate LiteralPatternsMatchThemselves(m: RegexSelfMatch) {
    forall s :: IsAsciiAlnum(s) ==> m(s) == Matches
  }

  /** `s != null && !s.isBlank()`, the guard shared by the three setters. */
  predicate Present(s: JString)
    ensures Present(s) ==> s.Some? && |s.value| > 0
  {
    s.Some? && !IsBlank(s.value)
  }

  /** The exception setId throws on a pattern that does not compile;
      `message` is its getMessage(). */
  function PatternSyntaxException(message: string): (t: Throwable)
    ensures InstanceOfIllegalArgument(t.kind) && t.cause.None?
  {
    Throwable(PatternSyntax, Some(message), None)
  }

  class Estudiante {
    var id: JString
    var nombre: JString
    var carrera: JString

    /** The no-argument constructor used by JSON binding: all fields null. */
    constructor ()
      ensures id == None && nombre == None && carrera == None
    {
      id, nombre, carrera := None, None, None;
    }

    /** The three-argument constructor: setId, then setNombre, then
        setCarrera; the first setter that throws ends construction. */
    static method New(id: JString, nombre: JString, carrera: JString, matchesItself: RegexSelfMatch)
      returns (r: Result<Estudiante, Throwable>)
      ensures !Present(id) ==> r == Failure(IllegalArgumentException(MsgIdVacio))
      ensures Present(id) && matchesItself(id.value) == NoMatch ==>
        r == Failure(IllegalArgumentException(MsgIdFormato))
      ensures Present(id) && matchesItself(id.value).SyntaxError? ==>
        r == Failure(PatternSyntaxException(matchesItself(id.value).message))
      ensures Present(id) && matchesItself(id.value) == Matches && !Present(nombre) ==>
        r == Failure(IllegalArgumentException(MsgNombreVacio))
      ensures Present(id) && matchesItself(id.value) == Matches && Present(nombre) && !Present(carrera) ==>
        r == Failure(IllegalArgumentException(MsgCarreraVacia))
      ensures r.Success? <==>
        Present(id) && matchesItself(id.value) == Matches && Present(nombre) && Present(carrera)
      ensures r.Success? ==>
        && fresh(r.value)
        && r.value.id == id
        && r.value.nombre == Some(Trim(nombre.value))
        && r.value.carrera == Some(Trim(carrera.value))
    {
      var e := new Estudiante();
      var o := e.SetId(id, matchesItself);
      if o.Fail? {
        return Failure(o.error);
      }
      o := e.SetNombre(nombre);
      if o.Fail? {
        return Failure(o.error);
      }
      o := e.SetCarrera(carrera);
      if o.Fail? {
        return Failure(o.error);
      }
      r := Success(e);
    }

    /** setId. The second check compares the id with itself used as a regular
        expression, NOT with the annotated pattern ^\d{9}$; so for an id of
        letters and digits it always passes (see AlnumIdPassesSetId) and the
        nine-digit rule is enforced only by Bean Validation (BeanValid). */
    method SetId(nuevo: JString, matchesItself: RegexSelfMatch) returns (o: Outcome<Throwable>)
      modifies this
      ensures !Present(nuevo) ==> o == Fail(IllegalArgumentException(MsgIdVacio))
      ensures Present(nuevo) ==> match matchesItself(nuevo.value)
        case Matches => o == Pass
        case NoMatch => o == Fail(IllegalArgumentException(MsgIdFormato))
        case SyntaxError(m) => o == Fail(PatternSyntaxException(m))
      ensures id == (if o.Pass? then nuevo else old(id))
      ensures nombre == old(nombre) && carrera == old(carrera)
    {
      if !Present(nuevo) {
        return Fail(IllegalArgumentException(MsgIdVacio));
      }
      match matchesItself(nuevo.value)
      case SyntaxError(m) =>
        return Fail(PatternSyntaxException(m));
      case NoMatch =>
        return Fail(IllegalArgumentException(MsgIdFormato));
      case Matches =>
        id := nuevo;
        o := Pass;
    }

    /** setNombre: the stored value is the trimmed input. */
    method SetNombre(nuevo: JString) returns (o: Outcome<Throwable>)
      modifies this
      ensures o == if Present(nuevo) then Pass else Fail(IllegalArgumentException(MsgNombreVacio))
      ensures nombre == (if o.Pass? then Some(Trim(nuevo.value)) else old(nombre))
      ensures id == old(id) && carrera == old(carrera)
    {
      if !Present(nuevo) {
        return Fail(IllegalArgumentException(MsgNombreVacio));
      }
      nombre := Some(Trim(nuevo.value));
      o := Pass;
    }

    /** setCarrera: the stored value is the trimmed input. */
    method SetCarrera(nuevo: JString) returns (o: Outcome<Throwable>)
      modifies this
      ensures o == if Present(nuevo) then Pass else Fail(IllegalArgumentException(MsgCarreraVacia))
      ensures carrera == (if o.Pass? then Some(Trim(nuevo.value)) else old(carrera))
      ensures id == old(id) && nombre == old(nombre)
    {
      if !Present(nuevo) {
        return Fail(IllegalArgumentException(MsgCarreraVacia));
      }
      carrera := Some(Trim(nuevo.value));
      o := Pass;
    }

    /** equals(Object): same object, or a non-null student with an equal id
        (Objects.equals, so two null ids are equal). */
    predicate Equals(o: Estudiante?)
      reads this, o
      ensures Equals(o) <==> o != null && id == o.id
    {
      this == o || (o != null && id == o.id)
    }

    /** hashCode = Objects.hash(id) = 31 * 1 + (id == null ? 0 : id.hashCode()). */
    function HashCode(): (h: int)
      reads this
      ensures IsInt32(h)
      ensures id.None? ==> h == 31
    {
      Int32(31 + (if id.None? then 0 else StringHashCode(id.value)))
    }
  }

  /** equals is an equivalence relation and ignores nombre and carrera. */
  lemma EqualsIsEquivalence(a: Estudiante, b: Estudiante, c: Estudiante)
    ensures a.Equals(a)
    ensures a.Equals(b) <==> b.Equals(a)
    ensures a.Equals(b) && b.Equals(c) ==> a.Equals(c)
  {
  }

  /** Equal students have equal hash codes, whatever their nombre and carrera. */
  lemma EqualsImpliesSameHashCode(a: Estudiante, b: Estudiante)
    requires a.Equals(b)
    ensures a.HashCode() == b.HashCode()
  {
  }

  /** An id of ASCII letters and digits passes both of setId's checks, so
      setId stores it verbatim: untrimmed and of any length. */
  lemma AlnumIdPassesSetId(id: string, matchesItself: RegexSelfMatch)
    requires id != [] && IsAsciiAlnum(id)
    requires LiteralPatternsMatchThemselves(matchesItself)
    ensures Present(Some(id)) && matchesItself(id) == Matches
  {
  }

  /** A client of setId: an ASCII letter-and-digit id is stored verbatim. */
  method SetAlnumId(e: Estudiante, id: string, matchesItself: RegexSelfMatch) returns (o: Outcome<Throwable>)
    requires id != [] && IsAsciiAlnum(id)
    requires LiteralPatternsMatchThemselves(matchesItself)
    modifies e
    ensures o == Pass && e.id == Some(id)
  {
    AlnumIdPassesSetId(id, matchesItself);
    o := e.SetId(Some(id), matchesItself);
  }

  /** The id "12" is accepted by setId but violates the nine-digit pattern. */
  lemma SetIdDoesNotEnforceNineDigits(matchesItself: RegexSelfMatch)
    requires LiteralPatternsMatchThemselves(matchesItself)
    ensures Present(Some("12")) && matchesItself("12") == Matches
    ensures !BeanValid(Some("12"), Some("Ana"), Some("Sistemas"))
  {
  }

  // ---------------------------------------------------------------------
  // Bean Validation (checked by the framework after binding, not by setters)

  /** @NotBlank as Hibernate Validator checks it: non-null, and non-empty
      after String.trim. */
  predicate NotBlank(s: JString)
    ensures NotBlank(s) <==> s.Some? && !AllTrimmable(s.value)
  {
    s.Some? && Trim(s.value) != []
  }

  predicate NineAsciiDigits(s: string) {
    |s| == 9 && forall i :: 0 <= i < 9 ==> '0' <= s[i] <= '9'
  }

  /** @Pattern(regexp = "^\\d{9}$"); null is valid for @Pattern. */
  predicate MatchesIdPattern(s: JString)
    ensures s.Some? && MatchesIdPattern(s) ==> NotBlank(s) && IsAsciiAlnum(s.value)
  {
    s.None? || NineAsciiDigits(s.value)
  }

  /** All annotations of the three fields hold. */
  predicate BeanValid(id: JString, nombre: JString, carrera: JString)
    ensures BeanValid(id, nombre, carrera) <==>
      id.Some? && NineAsciiDigits(id.value) && NotBlank(nombre) && NotBlank(carrera)
  {
    NotBlank(id) && MatchesIdPattern(id) && NotBlank(nombre) && NotBlank(carrera)
  }

  datatype Violation = Violation(field: string, message: string)

  /** The violation x when its constraint fails (holds is false), none otherwise. */
  function ViolationIf(holds: bool, x: Violation): (s: set<Violation>)
    ensures x in s <==> !holds
    ensures s <= {x}
  {
    if holds then {} else {x}
  }

  /** The constraint violations of a student, each with its annotated message. */
  function Violations(id: JString, nombre: JString, carrera: JString): (v: set<Violation>)
    ensures v == {} <==> BeanValid(id, nombre, carrera)
    ensures v <= {Violation("id", MsgIdNulo), Violation("id", MsgIdPatron),
                  Violation("nombre", MsgNombreVacio), Violation("carrera", MsgCarreraVacia)}
    ensures Violation("id", MsgIdNulo) in v <==> !NotBlank(id)
    ensures Violation("id", MsgIdPatron) in v <==> !MatchesIdPattern(id)
    ensures Violation("nombre", MsgNombreVacio) in v <==> !NotBlank(nombre)
    ensures Violation("carrera", MsgCarreraVacia) in v <==> !NotBlank(carrera)
  {
    assert |MsgIdNulo| != |MsgIdPatron|;
    ViolationIf(NotBlank(id), Violation("id", MsgIdNulo))
    + ViolationIf(MatchesIdPattern(id), Violation("id", MsgIdPatron))
    + ViolationIf(NotBlank(nombre), Violation("nombre", MsgNombreVacio))
    + ViolationIf(NotBlank(carrera), Violation("carrera", MsgCarreraVacia))
  }

  /** The id constraints together say: exactly nine ASCII digits. */
  lemma BeanValidIdIsNineDigits(id: JString)
    ensures NotBlank(id) && MatchesIdPattern(id) <==> id.Some? && NineAsciiDigits(id.value)
  {
  }

  /** Bean validity is unaffected by the trimming the setters do: the stored
      Trim(s) is @NotBlank exactly when the input s is. */
  lemma NotBlankStableUnderTrim(s: string)
    ensures NotBlank(Some(Trim(s))) <==> NotBlank(Some(s))
  {
  }

  /** A name that setNombre accepts can still be stored as "" and then fail
      @NotBlank: isBlank and trim disagree on U+0001. */
  lemma AcceptedNameMayBeStoredEmpty()
    ensures Present(Some("\U{1}")) && Trim("\U{1}") == "" && !NotBlank(Some(Trim("\U{1}")))
  {
  }
}
