/**
 * The `Materia` (school subject) domain object: a required name, defaulted fields, an
 * in-place update that keeps the old value for every null or missing payload field, and
 * the plain-object views given to the API and to n8n. Identifiers and timestamps are inputs.
 */
module Materias {
  import opened Wrappers
  import opened Json

  /** The seven fields of a `Materia`, as a value. */
  datatype MateriaData = MateriaData(
    id: Json, nombre: Json, descripcion: Json, planEstudio: Json,
    puntosEvaluacion: Json, createdAt: Json, updatedAt: Json)

  datatype MateriaError =
    | NotAnObject   // destructuring `null` throws a TypeError
    | MissingName   // "El nombre de la materia es obligatorio"

  /** A destructured parameter with a default, which applies only when the value is `undefined`. */
  function WithDefault(v: Option<Json>, default: Json): (r: Json)
    ensures v.Some? ==> r == v.value
    ensures v.None? ==> r == default
  {
    match v
    case Some(x) => x
    case None => default
  }

  /**
   * The constructor: the argument is destructured (`null` cannot be), `nombre` must be truthy,
   * `descripcion` falls back to `''` when falsy, and the other fields take their defaults only
   * when missing. `freshId` stands for `uuid()` and `now` for the current ISO timestamp.
   */
  function Construct(data: Json, freshId: Json, now: Json): (r: Result<MateriaData, MateriaError>)
    ensures data == JNull ==> r == Failure(NotAnObject)
    ensures r.Success? <==> data != JNull && Prop(data, "nombre").Some? && Truthy(Prop(data, "nombre").value)
    ensures r.Success? ==>
      && r.value.nombre == Prop(data, "nombre").value
      && r.value.descripcion == (if Prop(data, "descripcion").Some? && Truthy(Prop(data, "descripcion").value)
                                 then Prop(data, "descripcion").value else JString(""))
      && r.value.id == WithDefault(Prop(data, "id"), freshId)
      && r.value.planEstudio == WithDefault(Prop(data, "planEstudio"), JObject(map[]))
      && r.value.puntosEvaluacion == WithDefault(Prop(data, "puntosEvaluacion"), JArray([]))
      && r.value.createdAt == WithDefault(Prop(data, "createdAt"), now)
      && r.value.updatedAt == WithDefault(Prop(data, "updatedAt"), now)
  {
    if data == JNull then Failure(NotAnObject)
    else
      var nombre := Prop(data, "nombre");
      if nombre.None? || !Truthy(nombre.value) then Failure(MissingName)
      else
        var descripcion := Prop(data, "descripcion");
        Success(MateriaData(
          WithDefault(Prop(data, "id"), freshId),
          nombre.value,
          if descripcion.Some? && Truthy(descripcion.value) then descripcion.value else JString(""),
          WithDefault(Prop(data, "planEstudio"), JObject(map[])),
          WithDefault(Prop(data, "puntosEvaluacion"), JArray([])),
          WithDefault(Prop(data, "createdAt"), now),
          WithDefault(Prop(data, "updatedAt"), now)))
  }

  /** The plain object of `toJSON()`. */
  function DataToJson(d: MateriaData): (r: Json)
    ensures r.JObject?
    ensures r.fields.Keys == {"id", "nombre", "descripcion", "planEstudio", "puntosEvaluacion", "createdAt", "updatedAt"}
    ensures Prop(r, "id") == Some(d.id) && Prop(r, "nombre") == Some(d.nombre)
    ensures Prop(r, "descripcion") == Some(d.descripcion) && Prop(r, "planEstudio") == Some(d.planEstudio)
    ensures Prop(r, "puntosEvaluacion") == Some(d.puntosEvaluacion)
    ensures Prop(r, "createdAt") == Some(d.createdAt) && Prop(r, "updatedAt") == Some(d.updatedAt)
  {
    JObject(map[
      "id" := d.id, "nombre" := d.nombre, "descripcion" := d.descripcion, "planEstudio" := d.planEstudio,
      "puntosEvaluacion" := d.puntosEvaluacion, "createdAt" := d.createdAt, "updatedAt" := d.updatedAt])
  }

  /** The fields a constructed object can have: a truthy name and a truthy or empty description. */
  predicate WellFormed(d: MateriaData) {
    Truthy(d.nombre) && (Truthy(d.descripcion) || d.descripcion == JString(""))
  }

  /** Whatever the constructor builds is well formed. */
  lemma ConstructIsWellFormed(data: Json, freshId: Json, now: Json)
    requires Construct(data, freshId, now).Success?
    ensures WellFormed(Construct(data, freshId, now).value)
  {
  }

  /**
   * `fromPlain(m.toJSON())` reproduces every field of `m` exactly when `m` is well formed,
   * whatever identifier and clock the second construction would have used.
   */
  lemma FromPlainToJsonRoundTrip(d: MateriaData, freshId: Json, now: Json)
    ensures Construct(DataToJson(d), freshId, now) == Success(d) <==> WellFormed(d)
  {
    var j := DataToJson(d);
    if WellFormed(d) {
      assert Construct(j, freshId, now).Success?;
    }
  }

  /**
   * `update`'s field rule: each of the four payload fields replaces the old value unless it is
   * `null` or missing; `id` and `createdAt` are kept and `updatedAt` becomes `now`.
   */
  function Merge(d: MateriaData, payload: Json, now: Json): (r: MateriaData)
    ensures r.id == d.id && r.createdAt == d.createdAt && r.updatedAt == now
    ensures r.nombre == Coalesce(Prop(payload, "nombre"), d.nombre)
    ensures r.descripcion == Coalesce(Prop(payload, "descripcion"), d.descripcion)
    ensures r.planEstudio == Coalesce(Prop(payload, "planEstudio"), d.planEstudio)
    ensures r.puntosEvaluacion == Coalesce(Prop(payload, "puntosEvaluacion"), d.puntosEvaluacion)
  {
    d.(nombre := Coalesce(Prop(payload, "nombre"), d.nombre),
       descripcion := Coalesce(Prop(payload, "descripcion"), d.descripcion),
       planEstudio := Coalesce(Prop(payload, "planEstudio"), d.planEstudio),
       puntosEvaluacion := Coalesce(Prop(payload, "puntosEvaluacion"), d.puntosEvaluacion),
       updatedAt := now)
  }

  /** An empty payload, or one whose fields are all `null`, only refreshes `updatedAt`. */
  lemma MergeEmptyPayload(d: MateriaData, payload: Json, now: Json)
    requires forall k | k in {"nombre", "descripcion", "planEstudio", "puntosEvaluacion"} ::
      Prop(payload, k).None? || Prop(payload, k) == Some(JNull)
    ensures Merge(d, payload, now) == d.(updatedAt := now)
  {
    assert "nombre" in {"nombre", "descripcion", "planEstudio", "puntosEvaluacion"};
    assert "descripcion" in {"nombre", "descripcion", "planEstudio", "puntosEvaluacion"};
    assert "planEstudio" in {"nombre", "descripcion", "planEstudio", "puntosEvaluacion"};
    assert "puntosEvaluacion" in {"nombre", "descripcion", "planEstudio", "puntosEvaluacion"};
  }

  /** Applying the same payload twice is the same as applying it once. */
  lemma MergeIdempotent(d: MateriaData, payload: Json, now: Json)
    ensures Merge(Merge(d, payload, now), payload, now) == Merge(d, payload, now)
  {
  }

  /**
   * `update` does not check the name: a payload with `nombre: ""` leaves an object that
   * `fromPlain` refuses to rebuild from its own `toJSON()`.
   */
  lemma UpdateMayBlankName(d: MateriaData, now: Json, freshId: Json)
    requires WellFormed(d)
    ensures var payload := JObject(map["nombre" := JString("")]);
      && !WellFormed(Merge(d, payload, now))
      && Construct(DataToJson(Merge(d, payload, now)), freshId, now) == Failure(MissingName)
  {
    var payload := JObject(map["nombre" := JString("")]);
    assert Prop(payload, "nombre") == Some(JString(""));
  }

  class Materia {
    var id: Json
    var nombre: Json
    var descripcion: Json
    var planEstudio: Json
    var puntosEvaluacion: Json
    var createdAt: Json
    var updatedAt: Json

    /** The fields as a value. */
    function State(): MateriaData
      reads this
    {
      MateriaData(id, nombre, descripcion, planEstudio, puntosEvaluacion, createdAt, updatedAt)
    }

    /** Stores already-checked fields. */
    constructor FromData(d: MateriaData)
      ensures State() == d
    {
      id, nombre, descripcion, planEstudio := d.id, d.nombre, d.descripcion, d.planEstudio;
      puntosEvaluacion, createdAt, updatedAt := d.puntosEvaluacion, d.createdAt, d.updatedAt;
    }

    /** `new Materia(data)`: the object `Construct` describes, or the error it throws. */
    static method New(data: Json, freshId: Json, now: Json) returns (r: Result<Materia, MateriaError>)
      ensures Construct(data, freshId, now).Failure? ==> r == Failure(Construct(data, freshId, now).error)
      ensures Construct(data, freshId, now).Success? ==>
        r.Success? && fresh(r.value) && r.value.State() == Construct(data, freshId, now).value
    {
      var c := Construct(data, freshId, now);
      if c.Failure? {
        return Failure(c.error);
      }
      var m := new Materia.FromData(c.value);
      r := Success(m);
    }

    /** `Materia.fromPlain(data)`, which is `new Materia(data)`. */
    static method FromPlain(data: Json, freshId: Json, now: Json) returns (r: Result<Materia, MateriaError>)
      ensures Construct(data, freshId, now).Failure? ==> r == Failure(Construct(data, freshId, now).error)
      ensures Construct(data, freshId, now).Success? ==>
        r.Success? && fresh(r.value) && r.value.State() == Construct(data, freshId, now).value
    {
      r := New(data, freshId, now);
    }

    /**
     * `update(payload)`: a missing payload is `{}`; reading a field of `null` throws before
     * anything changes; otherwise the fields are merged in place and the object itself returned.
     */
    method Update(payload: Option<Json>, now: Json) returns (r: Result<Materia, MateriaError>)
      modifies this
      ensures payload == Some(JNull) ==> r == Failure(NotAnObject) && State() == old(State())
      ensures payload != Some(JNull) ==>
        r == Success(this) && State() == Merge(old(State()), payload.GetOr(JObject(map[])), now)
    {
      if payload == Some(JNull) {
        return Failure(NotAnObject);
      }
      var p := payload.GetOr(JObject(map[]));
      nombre := Coalesce(Prop(p, "nombre"), nombre);
      descripcion := Coalesce(Prop(p, "descripcion"), descripcion);
      planEstudio := Coalesce(Prop(p, "planEstudio"), planEstudio);
      puntosEvaluacion := Coalesce(Prop(p, "puntosEvaluacion"), puntosEvaluacion);
      updatedAt := now;
      r := Success(this);
    }

    /** `toJSON()`: the seven fields under their own names. */
    function ToJson(): (r: Json)
      reads this
      ensures r == DataToJson(State())
    {
      JObject(map[
        "id" := id, "nombre" := nombre, "descripcion" := descripcion, "planEstudio" := planEstudio,
        "puntosEvaluacion" := puntosEvaluacion, "createdAt" := createdAt, "updatedAt" := updatedAt])
    }

    /** `toN8nPayload()`: an object whose only property, `json`, is exactly `toJSON()`. */
    function ToN8nPayload(): (r: Json)
      reads this
      ensures r.JObject? && r.fields.Keys == {"json"}
      ensures Prop(r, "json") == Some(ToJson())
    {
      JObject(map["json" := JObject(map[
        "id" := id, "nombre" := nombre, "descripcion" := descripcion, "planEstudio" := planEstudio,
        "puntosEvaluacion" := puntosEvaluacion, "createdAt" := createdAt, "updatedAt" := updatedAt])])
    }
  }
}
