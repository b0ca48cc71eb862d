/** The in-memory registry: a map from student id to the stored student,
    run sequentially. */
module Service {
  import opened Wrappers
  import opened JavaLang
  import opened Model

  const MsgEstudianteNulo := "El estudiante no puede ser nulo"
  const MsgDuplicado := "Ya existe un estudiante con el ID: "

  /** Integer.MAX_VALUE: ConcurrentHashMap.size() saturates at it. */
  const IntMax := 0x7fff_ffff

  /** The exception ConcurrentHashMap throws on a null key. */
  const NullKey := Throwable(NullPointer, None, None)

  class EstudianteService {
    var estudiantes: map<string, Estudiante>

    /** Every key maps to a student whose id is that key. */
    ghost predicate Valid()
      reads this, estudiantes.Values
      ensures Valid() ==> forall a, b :: a in estudiantes && b in estudiantes && a != b ==>
        estudiantes[a] != estudiantes[b]
    {
      forall k :: k in estudiantes ==> estudiantes[k].id == Some(k)
    }

    constructor ()
      ensures Valid() && estudiantes == map[]
    {
      estudiantes := map[];
    }

    /** guardar: insert if absent; null or a duplicate id throws and leaves
        the map as it was. */
    method Guardar(estudiante: Estudiante?) returns (r: Result<Estudiante, Throwable>)
      requires Valid()
      modifies this
      ensures Valid()
      ensures estudiante == null ==>
        r == Failure(IllegalArgumentException(MsgEstudianteNulo)) && estudiantes == old(estudiantes)
      ensures estudiante != null && estudiante.id.None? ==>
        r == Failure(NullKey) && estudiantes == old(estudiantes)
      ensures estudiante != null && estudiante.id.Some? && estudiante.id.value in old(estudiantes) ==>
        && r == Failure(IllegalArgumentException(MsgDuplicado + estudiante.id.value))
        && estudiantes == old(estudiantes)
      ensures estudiante != null && estudiante.id.Some? && estudiante.id.value !in old(estudiantes) ==>
        && r == Success(estudiante)
        && estudiantes == old(estudiantes)[estudiante.id.value := estudiante]
        && |estudiantes| == |old(estudiantes)| + 1
    {
      if estudiante == null {
        return Failure(IllegalArgumentException(MsgEstudianteNulo));
      }
      if estudiante.id.None? {
        return Failure(NullKey);
      }
      var id := estudiante.id.value;
      if id in estudiantes {
        return Failure(IllegalArgumentException(MsgDuplicado + id));
      }
      assert (estudiantes[id := estudiante]).Keys == estudiantes.Keys + {id};
      estudiantes := estudiantes[id := estudiante];
      r := Success(estudiante);
    }

    /** obtenerTodos: a new list holding every stored student exactly once,
        in no particular order. */
    method ObtenerTodos() returns (lista: seq<Estudiante>)
      requires Valid()
      ensures |lista| == |estudiantes|
      ensures forall k :: k in estudiantes ==> estudiantes[k] in lista
      ensures forall i :: 0 <= i < |lista| ==> lista[i] in estudiantes.Values
      ensures forall i, j :: 0 <= i < j < |lista| ==> lista[i] != lista[j]
    {
      var pendientes := estudiantes.Keys;
      ghost var tomadas: seq<string> := [];
      lista := [];
      while pendientes != {}
        invariant |lista| == |tomadas|
        invariant forall i :: 0 <= i < |tomadas| ==> tomadas[i] in estudiantes && lista[i] == estudiantes[tomadas[i]]
        invariant forall i, j :: 0 <= i < j < |tomadas| ==> tomadas[i] != tomadas[j]
        invariant pendientes <= estudiantes.Keys
        invariant forall i :: 0 <= i < |tomadas| ==> tomadas[i] !in pendientes
        invariant forall k :: k in estudiantes && k !in pendientes ==> k in tomadas
        invariant |pendientes| + |tomadas| == |estudiantes|
        decreases |pendientes|
      {
        var k :| k in pendientes;
        lista := lista + [estudiantes[k]];
        tomadas := tomadas + [k];
        pendientes := pendientes - {k};
      }
      forall k | k in estudiantes ensures estudiantes[k] in lista {
        var i :| 0 <= i < |tomadas| && tomadas[i] == k;
        assert lista[i] == estudiantes[k];
      }
      forall i, j | 0 <= i < j < |lista| ensures lista[i] != lista[j] {
        assert lista[i].id == Some(tomadas[i]) && lista[j].id == Some(tomadas[j]);
      }
    }

    /** obtenerPorId: the stored student, or null. */
    method ObtenerPorId(id: string) returns (r: Estudiante?)
      requires Valid()
      ensures r != null <==> id in estudiantes
      ensures r != null ==> r == estudiantes[id] && r.id == Some(id)
    {
      r := if id in estudiantes then estudiantes[id] else null;
    }

    /** existePorId: true exactly when obtenerPorId finds a student. */
    method ExistePorId(id: string) returns (b: bool)
      ensures b <==> id in estudiantes
    {
      b := id in estudiantes;
    }

    /** limpiar: remove every entry. */
    method Limpiar()
      modifies this
      ensures Valid() && estudiantes == map[]
    {
      estudiantes := map[];
    }

    /** contarEstudiantes: the number of keys, as a Java int. */
    method ContarEstudiantes() returns (n: int)
      ensures 0 <= n <= IntMax
      ensures n == |estudiantes| || (n == IntMax && |estudiantes| > IntMax)
    {
      n := if |estudiantes| <= IntMax then |estudiantes| else IntMax;
    }
  }

  /** A client of the contracts alone: saving two students with the same id
      into a fresh registry keeps the first one and reports the duplicate for
      the second, whatever their nombre and carrera. */
  method GuardarDosVeces(id: string, nombre1: JString, carrera1: JString, nombre2: JString, carrera2: JString,
                         matchesItself: RegexSelfMatch)
    returns (primero: Result<Estudiante, Throwable>, segundo: Result<Estudiante, Throwable>, lista: seq<Estudiante>)
    requires Present(Some(id)) && matchesItself(id) == Matches
    requires Present(nombre1) && Present(carrera1) && Present(nombre2) && Present(carrera2)
    ensures primero.Success? && primero.value.id == Some(id)
    ensures primero.value.nombre == Some(Trim(nombre1.value))
    ensures segundo == Failure(IllegalArgumentException(MsgDuplicado + id))
    ensures |lista| == 1 && lista[0] == primero.value
  {
    var servicio := new EstudianteService();
    var a := Estudiante.New(Some(id), nombre1, carrera1, matchesItself);
    var b := Estudiante.New(Some(id), nombre2, carrera2, matchesItself);
    primero := servicio.Guardar(a.value);
    segundo := servicio.Guardar(b.value);
    lista := servicio.ObtenerTodos();
    assert servicio.estudiantes == map[id := a.value];
    assert a.value in lista;
  }
}
