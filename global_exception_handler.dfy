/** The error translator: four handlers, each building a JSON response body
    as a map from key to value. The clock is not modelled; each handler takes
    the rendered timestamp as a parameter. */
module ExceptionHandling {
  import opened Wrappers
  import opened JavaLang
  import Model

  const BAD_REQUEST := 400
  const INTERNAL_SERVER_ERROR := 500

  const MsgValidacion := "Error de validación en los datos enviados"
  const MsgDatosInvalidos := "Datos inválidos en el cuerpo de la solicitud"
  const MsgInesperado := "Ha ocurrido un error inesperado"
  const ReasonBadRequest := "Bad Request"
  const ReasonInternalError := "Internal Server Error"

  /** The values a response body holds: a String (possibly null), an Integer,
      or the nested map of per-field messages. */
  datatype Value = Text(text: JString) | Number(number: int) | Fields(fields: map<string, JString>)

  /** HTTP status and JSON body of a ResponseEntity. */
  datatype Response = Response(status: int, body: map<string, Value>)

  /** The body's "status" entry is the response's HTTP status; such a body is
      non-empty and determines the status. */
  predicate StatusConsistent(r: Response)
    ensures StatusConsistent(r) ==>
      r.body != map[] && "status" in r.body && forall s :: r.body["status"] == Number(s) ==> s == r.status
  {
    "status" in r.body && r.body["status"] == Number(r.status)
  }

  /** Putting any key other than "status" into a body keeps or breaks
      StatusConsistent exactly as before, so the handlers may add their other
      entries in any order. */
  lemma PutKeepsStatusConsistent(r: Response, k: string, v: Value)
    requires k != "status"
    ensures StatusConsistent(Response(r.status, r.body[k := v])) <==> StatusConsistent(r)
  {
  }

  // ---------------------------------------------------------------------
  // Validation errors

  /** An entry of the BindingResult: a FieldError names its field; any other
      ObjectError does not (the cast to FieldError fails). */
  datatype ObjectError =
    | FieldError(field: string, defaultMessage: JString)
    | GlobalError(defaultMessage: JString)

  /** The key under which an error is recorded: the field name of a
      FieldError, "error" otherwise; a field named "error" shares its key with
      the errors that are not FieldErrors. */
  function ErrorKey(e: ObjectError): (k: string)
    ensures k == "error" <==> e.GlobalError? || e.field == "error"
  {
    match e
    case FieldError(f, _) => f
    case GlobalError(_) => "error"
  }

  /** The `errores` map after putting the errors one by one, in order. */
  function CollectedErrors(errs: seq<ObjectError>): (m: map<string, JString>)
    ensures |m| <= |errs|
    ensures errs != [] ==> m != map[]
  {
    if errs == [] then map[]
    else
      var last := errs[|errs| - 1];
      CollectedErrors(errs[..|errs| - 1])[ErrorKey(last) := last.defaultMessage]
  }

  function ErrorKeys(errs: seq<ObjectError>): set<string> {
    set i | 0 <= i < |errs| :: ErrorKey(errs[i])
  }

  /** One key per distinct field (or "error"), and no other key. */
  lemma {:induction false} CollectedErrorsKeys(errs: seq<ObjectError>)
    ensures CollectedErrors(errs).Keys == ErrorKeys(errs)
  {
    if errs != [] {
      var init := errs[..|errs| - 1];
      CollectedErrorsKeys(init);
      assert ErrorKeys(errs) == ErrorKeys(init) + {ErrorKey(errs[|errs| - 1])} by {
        forall x | x in ErrorKeys(errs) ensures x in ErrorKeys(init) + {ErrorKey(errs[|errs| - 1])} {
          var i :| 0 <= i < |errs| && ErrorKey(errs[i]) == x;
          if i < |errs| - 1 { assert init[i] == errs[i]; }
        }
        forall x | x in ErrorKeys(init) ensures x in ErrorKeys(errs) {
          var i :| 0 <= i < |init| && ErrorKey(init[i]) == x;
          assert errs[i] == init[i];
        }
      }
    }
  }

  /** The last error recorded under a key wins: its message is the one kept. */
  lemma {:induction false} LaterErrorWins(errs: seq<ObjectError>, i: nat)
    requires i < |errs|
    requires forall j :: i < j < |errs| ==> ErrorKey(errs[j]) != ErrorKey(errs[i])
    ensures ErrorKey(errs[i]) in CollectedErrors(errs)
    ensures CollectedErrors(errs)[ErrorKey(errs[i])] == errs[i].defaultMessage
  {
    if i < |errs| - 1 {
      var init := errs[..|errs| - 1];
      assert init[i] == errs[i];
      forall j | i < j < |init| ensures ErrorKey(init[j]) != ErrorKey(init[i]) {
        assert init[j] == errs[j];
      }
      LaterErrorWins(init, i);
    }
  }

  /** manejarErroresDeValidacion (MethodArgumentNotValidException). */
  method ManejarErroresDeValidacion(errs: seq<ObjectError>, timestamp: string) returns (r: Response)
    ensures r.status == BAD_REQUEST && StatusConsistent(r)
    ensures r.body.Keys == {"timestamp", "status", "mensaje", "errores"}
    ensures r.body["timestamp"] == Text(Some(timestamp))
    ensures r.body["mensaje"] == Text(Some(MsgValidacion))
    ensures r.body["errores"] == Fields(CollectedErrors(errs))
    ensures r.body["errores"].fields.Keys == ErrorKeys(errs)
  {
    var respuesta: map<string, Value> := map[];
    respuesta := respuesta["timestamp" := Text(Some(timestamp))];
    respuesta := respuesta["status" := Number(BAD_REQUEST)];
    respuesta := respuesta["mensaje" := Text(Some(MsgValidacion))];
    var errores: map<string, JString> := map[];
    for i := 0 to |errs|
      invariant errores == CollectedErrors(errs[..i])
    {
      assert errs[..i + 1][..i] == errs[..i];
      match errs[i]
      case FieldError(campo, mensaje) =>
        errores := errores[campo := mensaje];
      case GlobalError(mensaje) =>
        errores := errores["error" := mensaje];
    }
    assert errs[..|errs|] == errs;
    respuesta := respuesta["errores" := Fields(errores)];
    CollectedErrorsKeys(errs);
    r := Response(BAD_REQUEST, respuesta);
  }

  /** The field errors Bean Validation reports for a list of violations. */
  function FieldErrorsOf(vs: seq<Model.Violation>): (errs: seq<ObjectError>)
    ensures |errs| == |vs|
    ensures forall i :: 0 <= i < |vs| ==> errs[i] == FieldError(vs[i].field, Some(vs[i].message))
  {
    if vs == [] then [] else [FieldError(vs[0].field, Some(vs[0].message))] + FieldErrorsOf(vs[1..])
  }

  /** Whatever order the violations of a student come in, the `errores` map
      has exactly one key per violated field. */
  lemma ViolatedFieldsAreReported(vs: seq<Model.Violation>, id: JString, nombre: JString, carrera: JString)
    requires forall v :: v in vs <==> v in Model.Violations(id, nombre, carrera)
    ensures CollectedErrors(FieldErrorsOf(vs)).Keys == set v | v in Model.Violations(id, nombre, carrera) :: v.field
  {
    var errs := FieldErrorsOf(vs);
    CollectedErrorsKeys(errs);
    forall x | x in ErrorKeys(errs) ensures x in set v | v in Model.Violations(id, nombre, carrera) :: v.field {
      var i :| 0 <= i < |errs| && ErrorKey(errs[i]) == x;
      assert vs[i] in Model.Violations(id, nombre, carrera);
    }
    forall v | v in Model.Violations(id, nombre, carrera) ensures v.field in ErrorKeys(errs) {
      var i :| 0 <= i < |vs| && vs[i] == v;
      assert ErrorKey(errs[i]) == v.field;
    }
  }

  /** A student whose only fault is an id that is too short gets exactly one
      entry, under "id", with the pattern's message. */
  lemma ShortIdReportedUnderId()
    ensures Model.Violations(Some("12"), Some("Ana"), Some("Sistemas"))
      == {Model.Violation("id", Model.MsgIdPatron)}
    ensures CollectedErrors(FieldErrorsOf([Model.Violation("id", Model.MsgIdPatron)]))
      == map["id" := Some(Model.MsgIdPatron)]
  {
  }

  // ---------------------------------------------------------------------
  // Unreadable request body

  /** The deepest cause: follow getCause() until it is null. */
  function RootCause(t: Throwable): (root: Throwable)
    ensures root.cause.None?
    decreases t
  {
    match t.cause
    case None => t
    case Some(c) => RootCause(c)
  }

  /** The cause chain t, t.getCause(), ..., ending with the deepest cause. */
  function CauseChain(t: Throwable): (chain: seq<Throwable>)
    decreases t
  {
    match t.cause
    case None => [t]
    case Some(c) => [t] + CauseChain(c)
  }

  /** The root cause is the last element of the chain, and it is the only
      element without a cause: every other one is an intermediate cause. */
  lemma {:induction false} RootCauseEndsChain(t: Throwable)
    ensures |CauseChain(t)| >= 1 && CauseChain(t)[0] == t
    ensures CauseChain(t)[|CauseChain(t)| - 1] == RootCause(t)
    ensures forall i :: 0 <= i < |CauseChain(t)| - 1 ==>
      CauseChain(t)[i].cause == Some(CauseChain(t)[i + 1])
    decreases t
  {
    match t.cause
    case None =>
    case Some(c) =>
      RootCauseEndsChain(c);
      var tail := CauseChain(c);
      assert CauseChain(t) == [t] + tail;
      forall i | 0 <= i < |CauseChain(t)| - 1 ensures CauseChain(t)[i].cause == Some(CauseChain(t)[i + 1]) {
        if i > 0 { assert CauseChain(t)[i] == tail[i - 1] && CauseChain(t)[i + 1] == tail[i]; }
      }
  }

  /** manejarErrorDeserializacion (HttpMessageNotReadableException): the
      message of the deepest cause if it is an IllegalArgumentException,
      otherwise the fixed fallback; intermediate causes are never looked at. */
  method ManejarErrorDeserializacion(ex: Throwable, timestamp: string) returns (r: Response)
    requires ex.kind == MessageNotReadable
    ensures r.status == BAD_REQUEST && StatusConsistent(r)
    ensures r.body.Keys == {"timestamp", "status", "error", "mensaje"}
    ensures r.body["timestamp"] == Text(Some(timestamp))
    ensures r.body["error"] == Text(Some(ReasonBadRequest))
    ensures ex.cause.None? ==> r.body["mensaje"] == Text(Some(MsgDatosInvalidos))
    ensures ex.cause.Some? ==>
      var root := RootCause(ex.cause.value);
      r.body["mensaje"] == Text(if InstanceOfIllegalArgument(root.kind) then root.message else Some(MsgDatosInvalidos))
  {
    var error: map<string, Value> := map[];
    error := error["timestamp" := Text(Some(timestamp))];
    error := error["status" := Number(BAD_REQUEST)];
    error := error["error" := Text(Some(ReasonBadRequest))];
    var mensaje: JString := Some(MsgDatosInvalidos);
    var causa := ex.cause;
    if causa.Some? {
      var causaRaiz := causa.value;
      while causaRaiz.cause.Some?
        invariant RootCause(causaRaiz) == RootCause(causa.value)
        decreases causaRaiz
      {
        causaRaiz := causaRaiz.cause.value;
      }
      if InstanceOfIllegalArgument(causaRaiz.kind) {
        mensaje := causaRaiz.message;
      }
    }
    error := error["mensaje" := Text(mensaje)];
    r := Response(BAD_REQUEST, error);
  }

  // ---------------------------------------------------------------------
  // IllegalArgumentException and everything else

  /** manejarArgumentosIlegales: the exception's own message is passed on. */
  method ManejarArgumentosIlegales(ex: Throwable, timestamp: string) returns (r: Response)
    requires InstanceOfIllegalArgument(ex.kind)
    ensures r.status == BAD_REQUEST && StatusConsistent(r)
    ensures r.body.Keys == {"timestamp", "status", "error", "mensaje"}
    ensures r.body["timestamp"] == Text(Some(timestamp))
    ensures r.body["error"] == Text(Some(ReasonBadRequest))
    ensures r.body["mensaje"] == Text(ex.message)
  {
    var error: map<string, Value> := map[];
    error := error["timestamp" := Text(Some(timestamp))];
    error := error["status" := Number(BAD_REQUEST)];
    error := error["error" := Text(Some(ReasonBadRequest))];
    error := error["mensaje" := Text(ex.message)];
    r := Response(BAD_REQUEST, error);
  }

  /** manejarErrorGenerico: status 500 and a fixed body that reveals nothing
      of the exception. */
  method ManejarErrorGenerico(ex: Throwable, timestamp: string) returns (r: Response)
    ensures r.status == INTERNAL_SERVER_ERROR && StatusConsistent(r)
    ensures r.body == map[
      "timestamp" := Text(Some(timestamp)),
      "status" := Number(INTERNAL_SERVER_ERROR),
      "error" := Text(Some(ReasonInternalError)),
      "mensaje" := Text(Some(MsgInesperado))]
  {
    var error: map<string, Value> := map[];
    error := error["timestamp" := Text(Some(timestamp))];
    error := error["status" := Number(INTERNAL_SERVER_ERROR)];
    error := error["error" := Text(Some(ReasonInternalError))];
    error := error["mensaje" := Text(Some(MsgInesperado))];
    r := Response(INTERNAL_SERVER_ERROR, error);
  }
}
