# Student registry — Dafny model

The system is a small Spring service that registers students (`Estudiante`: id, nombre, carrera) in an
in-memory map. Every failure is turned into a JSON error body by a central exception handler. This project
models three parts:

- the entity, whose setters validate and then assign, and the Bean Validation constraints on its fields;
- the registry service (`EstudianteService`), an insert-if-absent table keyed by id;
- the four exception handlers, which build response bodies as maps.

Modules, leaf first:

- `Wrappers` (`wrappers.dfy`): `Option`, `Result`, `Outcome`.
- `JavaLang` (`java_lang.dfy`): the Java runtime behaviour the code relies on.
  - A nullable `String` is `JString = Option<string>`.
  - `String.isBlank` uses `Character.isWhitespace` (`IsWhitespace`).
  - `String.trim` strips every character at or below U+0020 (`IsTrimmable`). These are two different
    predicates, and the lemmas show they disagree in both directions.
  - `String.hashCode` works over UTF-16 units with 32-bit wrap-around.
  - Exceptions are an inductive `Throwable` (kind, message, optional cause), so cause chains are finite.
- `Model` (`estudiante.dfy`): class `Estudiante` and the annotation predicates `NotBlank`,
  `MatchesIdPattern`, `BeanValid` and `Violations`.
- `Service` (`estudiante_service.dfy`): class `EstudianteService` over a `map<string, Estudiante>`, with
  the invariant `Valid()` (every key maps to a student whose id is that key).
- `ExceptionHandling` (`global_exception_handler.dfy`): the four handlers as methods that build the
  body with successive map updates, including the `forEach` loop over binding errors and the `while` loop
  down the cause chain.

Throwing is modelled as returning `Fail`/`Failure` with the exception that is thrown. A Java constructor can
throw, and a Dafny constructor cannot fail, so the three-argument constructor is the static method
`Estudiante.New`, which returns a `Result`.

Where the code's checks differ from what its own annotations and messages say:

- **`setId` does not enforce the nine-digit rule.** The `@Pattern` annotation on `id`
  (`Estudiante.java:16`) requires `^\d{9}$`, and `setId`'s own rejection message
  (`Estudiante.java:73`) is "El ID debe tener exactamente 9 digitos". Yet the check before that
  message (`Estudiante.java:71`) is `id.matches(id)`, which compiles the id as a regular expression and
  matches it against itself.
  - The model keeps that check. The regex engine is not modelled: `SetId` receives it as a parameter of
    type `string -> SelfMatch` (`Matches`, `NoMatch`, or `SyntaxError(message)` for a
    `PatternSyntaxException`, which is a subclass of `IllegalArgumentException`; `message` is its
    `getMessage()`, which combines the description, the error index, the pattern and a caret line).
  - `AlnumIdPassesSetId` and `SetIdDoesNotEnforceNineDigits` show the gap: any id of letters and digits
    passes, for example `"12"`.
  - The nine-digit rule exists only as the `@Pattern` annotation, modelled by `BeanValid`.
- **The generic handler's message** is `"Ha ocurrido un error inesperado"`, as in the code.
- **`@NotBlank` follows Hibernate Validator.** It means non-null and non-empty after `String.trim`. So
  `"\u0001"` passes `setNombre` (it is not blank), is stored as `""`, and then fails `@NotBlank`
  (`AcceptedNameMayBeStoredEmpty`).
- **`guardar` on a student whose id is null fails with `NullPointerException`** (`NullKey`). That is what
  `ConcurrentHashMap.containsKey(null)` does, so the model has no precondition for it.

## Model

| member | source | states |
|---|---|---|
| `Model.Estudiante.constructor` | src/main/java/com/upb/examendevops/model/Estudiante.java:27 | the no-argument constructor leaves id, nombre and carrera null |
| `Model.Estudiante.New` | src/main/java/com/upb/examendevops/model/Estudiante.java:31-39 | the three-argument constructor succeeds exactly when all three setters accept; otherwise it raises the exception of the first failing setter, in the order id, nombre, carrera; on success it yields a fresh student with the id verbatim and nombre and carrera trimmed |
| `Model.Estudiante.SetId` | src/main/java/com/upb/examendevops/model/Estudiante.java:63-79 | a null or blank id throws "El ID no puede estar vacio"; otherwise the self-match decides: a match stores the id unchanged, no match throws "El ID debe tener exactamente 9 digitos", and a malformed pattern throws PatternSyntaxException; on failure id is unchanged; nombre and carrera never change |
| `Model.Estudiante.SetNombre` | src/main/java/com/upb/examendevops/model/Estudiante.java:81-91 | null or blank throws "El nombre no puede estar vacio" and leaves nombre unchanged; otherwise nombre becomes trim(input); id and carrera never change |
| `Model.Estudiante.SetCarrera` | src/main/java/com/upb/examendevops/model/Estudiante.java:93-103 | null or blank throws "La carrera no puede estar vacia" and leaves carrera unchanged; otherwise carrera becomes trim(input); id and nombre never change |
| `Model.Estudiante.Equals` | src/main/java/com/upb/examendevops/model/Estudiante.java:105-114 | equals holds exactly when the other student is non-null and has an equal id (two null ids are equal) |
| `Model.Estudiante.HashCode` | src/main/java/com/upb/examendevops/model/Estudiante.java:116-121 | hashCode is Objects.hash(id), a 32-bit int; a null id hashes to 31 |
| `Model.EqualsIsEquivalence` | src/main/java/com/upb/examendevops/model/Estudiante.java:105-114 | equals is reflexive, symmetric and transitive |
| `Model.EqualsImpliesSameHashCode` | src/main/java/com/upb/examendevops/model/Estudiante.java:105-121 | equal students have equal hash codes, whatever their nombre and carrera |
| `Model.PatternSyntaxException` | src/main/java/com/upb/examendevops/model/Estudiante.java:71 | a pattern that does not compile raises an exception that is an IllegalArgumentException |
| `Model.AlnumIdPassesSetId` | src/main/java/com/upb/examendevops/model/Estudiante.java:65-77 | a non-empty id of ASCII letters and digits is neither null nor blank and matches itself, so setId stores it verbatim, whatever its length |
| `Model.SetAlnumId` | src/main/java/com/upb/examendevops/model/Estudiante.java:63-79 | calling setId with a non-empty id of ASCII letters and digits succeeds and stores that id verbatim, whatever its length |
| `Model.SetIdDoesNotEnforceNineDigits` | src/main/java/com/upb/examendevops/model/Estudiante.java:16-17 | the id "12" passes both checks of setId, yet violates the nine-digit annotation |
| `Model.Violations` | src/main/java/com/upb/examendevops/model/Estudiante.java:15-23 | the set of violated constraints, each with its annotated message, is empty exactly when the student is bean-valid; only four violations can occur: id @NotBlank ("El ID no puede ser nulo"), id @Pattern ("El ID debe tener exactamente 9 digitos"), nombre @NotBlank and carrera @NotBlank; each is present exactly when its constraint fails |
| `Model.NotBlank` | src/main/java/com/upb/examendevops/model/Estudiante.java:15-23 | @NotBlank holds exactly when the value is non-null and contains a character above U+0020 |
| `Model.MatchesIdPattern` | src/main/java/com/upb/examendevops/model/Estudiante.java:16 | @Pattern accepts null; a non-null id it accepts is also @NotBlank and consists of ASCII letters and digits |
| `Model.BeanValid` | src/main/java/com/upb/examendevops/model/Estudiante.java:15-23 | the student is bean-valid exactly when the id is nine ASCII digits and nombre and carrera are @NotBlank |
| `Model.Present` | src/main/java/com/upb/examendevops/model/Estudiante.java:65 | the setters' guard `s != null && !s.isBlank()`; a value that passes it is non-null and non-empty |
| `Model.BeanValidIdIsNineDigits` | src/main/java/com/upb/examendevops/model/Estudiante.java:15-17 | @NotBlank and @Pattern on id together hold exactly when the id is nine ASCII digits |
| `Model.NotBlankStableUnderTrim` | src/main/java/com/upb/examendevops/model/Estudiante.java:19-23 | the trimmed value a setter stores is @NotBlank exactly when the input was |
| `Model.AcceptedNameMayBeStoredEmpty` | src/main/java/com/upb/examendevops/model/Estudiante.java:83-89 | a name that setNombre accepts, such as "\u0001", can be stored as "" and then fail @NotBlank |
| `JavaLang.IsWhitespace` | src/main/java/com/upb/examendevops/model/Estudiante.java:83 | Character.isWhitespace, used by isBlank; a white-space character above U+0020 is at least U+1680, and the no-break spaces U+00A0, U+2007 and U+202F are not white space |
| `JavaLang.IsBlank` | src/main/java/com/upb/examendevops/model/Estudiante.java:95 | String.isBlank; the empty string is blank, and a non-empty blank string starts and ends with white space |
| `JavaLang.Trim` | src/main/java/com/upb/examendevops/model/Estudiante.java:89 | trim's result is empty exactly when every character is at or below U+0020; otherwise it starts and ends with a character above U+0020 |
| `JavaLang.TrimUnique` | src/main/java/com/upb/examendevops/model/Estudiante.java:89 | trim returns the core of any split of the string into a trimmable prefix, a core with non-trimmable ends, and a trimmable suffix |
| `JavaLang.TrimIdempotent` | src/main/java/com/upb/examendevops/model/Estudiante.java:101 | trimming an already trimmed value changes nothing |
| `JavaLang.NonBlankCanTrimToEmpty` | src/main/java/com/upb/examendevops/model/Estudiante.java:83-89 | "\u0001" is not blank, and it trims to "" |
| `JavaLang.BlankCanSurviveTrim` | src/main/java/com/upb/examendevops/model/Estudiante.java:95-101 | "\u2003" (em space) is blank, and trim leaves it unchanged |
| `JavaLang.StringHashCode` | src/main/java/com/upb/examendevops/model/Estudiante.java:119 | String.hashCode over UTF-16 code units is a 32-bit int |
| `Service.EstudianteService.Valid` | src/main/java/com/upb/examendevops/service/EstudianteService.java:40-48 | the registry invariant: each key maps to a student whose id is that key, so no student object is stored under two keys |
| `Service.EstudianteService.constructor` | src/main/java/com/upb/examendevops/service/EstudianteService.java:21 | the registry starts empty and satisfies its invariant |
| `Service.EstudianteService.Guardar` | src/main/java/com/upb/examendevops/service/EstudianteService.java:32-51 | null throws "El estudiante no puede ser nulo"; a null id throws NullPointerException; an id already present throws "Ya existe un estudiante con el ID: " + id; in all three cases the map is unchanged, including the first-saved entry; a fresh id adds exactly id ↦ student, returns the same object and raises the count by one; the invariant is kept |
| `Service.EstudianteService.ObtenerTodos` | src/main/java/com/upb/examendevops/service/EstudianteService.java:59-63 | the new list holds every stored student, only stored students, and each exactly once; its length is the number of entries; the map is unchanged |
| `Service.EstudianteService.ObtenerPorId` | src/main/java/com/upb/examendevops/service/EstudianteService.java:72-76 | returns the stored student, whose id is the key, or null exactly when the id is absent |
| `Service.EstudianteService.ExistePorId` | src/main/java/com/upb/examendevops/service/EstudianteService.java:85-89 | true exactly when the id is a key, that is, exactly when obtenerPorId returns non-null |
| `Service.EstudianteService.Limpiar` | src/main/java/com/upb/examendevops/service/EstudianteService.java:95-99 | the map becomes empty, so the count is 0 and no id exists |
| `Service.EstudianteService.ContarEstudiantes` | src/main/java/com/upb/examendevops/service/EstudianteService.java:107-111 | the number of keys, saturated at Integer.MAX_VALUE as ConcurrentHashMap.size does |
| `Service.GuardarDosVeces` | src/main/java/com/upb/examendevops/service/EstudianteService.java:40-49 | in a fresh registry, saving two students with the same id keeps the first, rejects the second with the duplicate-id message, and leaves a one-element list |
| `ExceptionHandling.ManejarErroresDeValidacion` | src/main/java/com/upb/examendevops/exception/GlobalExceptionHandler.java:31-66 | status 400; the body has exactly timestamp, status 400, mensaje "Error de validación en los datos enviados" and errores; errores is the map the errors build in order, with one key per distinct field or "error" |
| `ExceptionHandling.ErrorKey` | src/main/java/com/upb/examendevops/exception/GlobalExceptionHandler.java:48-57 | the key of an error is its field name when the `(FieldError)` cast succeeds and "error" in the `catch` branch; the key is "error" exactly when the error is not a FieldError or its field is itself named "error", so such a field shares the key with the non-field errors |
| `ExceptionHandling.CollectedErrors` | src/main/java/com/upb/examendevops/exception/GlobalExceptionHandler.java:44-60 | the `errores` map after the `forEach` puts each error's default message under its key, in order; it has at most one entry per error, and it is non-empty when there is any error |
| `ExceptionHandling.CollectedErrorsKeys` | src/main/java/com/upb/examendevops/exception/GlobalExceptionHandler.java:44-60 | the keys of errores are exactly the fields of the field errors, plus "error" when there is an error that is not a FieldError |
| `ExceptionHandling.LaterErrorWins` | src/main/java/com/upb/examendevops/exception/GlobalExceptionHandler.java:48-57 | for each key, errores holds the default message of the last error recorded under that key |
| `ExceptionHandling.FieldErrorsOf` | src/main/java/com/upb/examendevops/exception/GlobalExceptionHandler.java:48-51 | each constraint violation becomes a field error on its field with its message, which these lines then read back through `getField()` and `getDefaultMessage()`; the conversion itself is Spring's validator adapter, which is not part of this model |
| `ExceptionHandling.ViolatedFieldsAreReported` | src/main/java/com/upb/examendevops/exception/GlobalExceptionHandler.java:44-60 | whatever order a student's violations come in, errores has exactly one key per violated field |
| `ExceptionHandling.ShortIdReportedUnderId` | src/main/java/com/upb/examendevops/exception/GlobalExceptionHandler.java:44-62 | a student whose only fault is the id "12" has one violation, and errores is exactly {"id": "El ID debe tener exactamente 9 digitos"} |
| `JavaLang.InstanceOfIllegalArgument` | src/main/java/com/upb/examendevops/exception/GlobalExceptionHandler.java:96 | `causaRaiz instanceof IllegalArgumentException`: PatternSyntaxException is a subclass, and NullPointerException and HttpMessageNotReadableException are not; any other class is a subclass exactly when it is declared to extend IllegalArgumentException, a choice the model leaves to the caller |
| `ExceptionHandling.RootCause` | src/main/java/com/upb/examendevops/exception/GlobalExceptionHandler.java:88-94 | the cause found by following getCause has no cause of its own |
| `ExceptionHandling.RootCauseEndsChain` | src/main/java/com/upb/examendevops/exception/GlobalExceptionHandler.java:88-94 | the root cause is the last element of the cause chain; every earlier element has the next as its cause, so it is the deepest cause |
| `ExceptionHandling.ManejarErrorDeserializacion` | src/main/java/com/upb/examendevops/exception/GlobalExceptionHandler.java:72-107 | status 400; the body has exactly timestamp, status 400, error "Bad Request" and mensaje; with no cause, mensaje is "Datos inválidos en el cuerpo de la solicitud"; otherwise mensaje is the deepest cause's message if that cause is an IllegalArgumentException, and the same fallback if not; intermediate causes are never used |
| `ExceptionHandling.ManejarArgumentosIlegales` | src/main/java/com/upb/examendevops/exception/GlobalExceptionHandler.java:116-128 | status 400; the body has exactly timestamp, status 400, error "Bad Request" and mensaje equal to the exception's message, which may be null |
| `ExceptionHandling.StatusConsistent` | src/main/java/com/upb/examendevops/exception/GlobalExceptionHandler.java:37-147 | each handler puts "status" with the same HttpStatus value it passes to `ResponseEntity.status`; a consistent body is non-empty and determines the status; every handler's contract ensures it |
| `ExceptionHandling.PutKeepsStatusConsistent` | src/main/java/com/upb/examendevops/exception/GlobalExceptionHandler.java:76-80 | putting any key other than "status" keeps the body's status entry consistent, or inconsistent, as before, so the order of the other puts does not matter |
| `ExceptionHandling.ManejarErrorGenerico` | src/main/java/com/upb/examendevops/exception/GlobalExceptionHandler.java:137-149 | status 500; the body is exactly timestamp, status 500, error "Internal Server Error" and mensaje "Ha ocurrido un error inesperado", independent of the exception |

## Left out

- `EstudianteController`: it delegates to `guardar` and `obtenerTodos` and picks 201 or 200. It has no logic
  of its own.
- Spring and Jackson machinery is not modelled:
  - JSON binding calling the setters;
  - `@Valid` triggering Bean Validation;
  - wrapping a setter's exception in `HttpMessageNotReadableException`;
  - choosing a handler by exception type;
  - `ResponseEntity` and HTTP.
  Each handler takes its exception (or, for validation, the list of binding errors) directly.
- `LocalDateTime.now()`: the clock is nondeterministic, so every handler takes the timestamp string as a
  parameter.
- The `java.util.regex` semantics of `id.matches(id)`: `SetId` and `New` take the outcome as a function
  parameter. Lemmas that need it assume only that a pattern of letters and digits matches itself
  (`LiteralPatternsMatchThemselves`).
- Concurrency: neither `ConcurrentHashMap` thread safety nor the check-then-act race between `containsKey`
  and `put` in `guardar` is modelled. The service is modelled as running sequentially.
- Aliasing of stored students: the map holds references. A later `setId` on a stored student would
  break `Valid()` from outside the service, so `Guardar`, `ObtenerTodos` and `ObtenerPorId` take `Valid()`
  as a precondition. `ExistePorId`, `Limpiar` and `ContarEstudiantes` do not need it.
- The getters: they return the fields, which the model reads directly.
- `Service.EstudianteService.ObtenerPorId`: does not model a null argument (`ConcurrentHashMap.get(null)`
  throws NullPointerException), because the id parameter is a non-null string.
- `Service.EstudianteService.ExistePorId`: does not model a null argument either, for the same reason.
- `Model.Estudiante.Equals`: the `getClass()` comparison with objects of other classes is not modelled,
  because the argument is a (possibly null) `Estudiante` and the model has no subclasses.
- Cyclic cause chains, which `initCause` can build in Java and on which the root-cause loop would not
  terminate: `Throwable` is inductive, so every chain is finite.
- Unpaired UTF-16 surrogates: Dafny characters are Unicode scalar values. `StringHashCode` encodes
  supplementary characters as surrogate pairs, as Java does.
