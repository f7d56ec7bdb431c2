/**
 * ArticuloController: the request handlers, with HTTP reduced to a
 * Response value, and the dispatch of the search handler, which picks one
 * service search from which of nombre, minPrecio and maxPrecio are given.
 */
module Controller {
  import opened Wrappers
  import opened Model
  import opened Repository
  import opened Service

  /** The single service call the search handler makes, with its arguments. */
  datatype Busqueda =
    | PorNombreYPrecioEntre(nombre: string, min: real, max: real)
    | PorNombre(nombre: string)
    | PorPrecioEntre(min: real, max: real)
    | PorPrecioMinimo(min: real)
    | PorPrecioMaximo(max: real)
    | ListarTodos

  /** What an HTTP response carries here: 200 with a body, 404, or 204. */
  datatype Response = Ok(body: Row) | NotFound | NoContent

  /**
   * The guard cascade of the search handler, in source order. A name given
   * together with exactly one price bound matches no guard and falls through
   * to listing every article.
   */
  function Dispatch(nombre: Option<string>, minPrecio: Option<real>, maxPrecio: Option<real>): (b: Busqueda)
    ensures b.PorNombreYPrecioEntre? <==> nombre.Some? && minPrecio.Some? && maxPrecio.Some?
    ensures b.PorNombre? <==> nombre.Some? && minPrecio.None? && maxPrecio.None?
    ensures b.PorPrecioEntre? <==> nombre.None? && minPrecio.Some? && maxPrecio.Some?
    ensures b.PorPrecioMinimo? <==> nombre.None? && minPrecio.Some? && maxPrecio.None?
    ensures b.PorPrecioMaximo? <==> nombre.None? && minPrecio.None? && maxPrecio.Some?
    ensures b.ListarTodos? <==>
              (nombre.None? && minPrecio.None? && maxPrecio.None?)
              || (nombre.Some? && minPrecio.Some? != maxPrecio.Some?)
    // the arguments reach the chosen call unchanged
    ensures b.PorNombreYPrecioEntre? || b.PorNombre? ==> Some(b.nombre) == nombre
    ensures b.PorNombreYPrecioEntre? || b.PorPrecioEntre? || b.PorPrecioMinimo? ==> Some(b.min) == minPrecio
    ensures b.PorNombreYPrecioEntre? || b.PorPrecioEntre? || b.PorPrecioMaximo? ==> Some(b.max) == maxPrecio
  {
    if nombre.Some? && minPrecio.Some? && maxPrecio.Some? then
      PorNombreYPrecioEntre(nombre.value, minPrecio.value, maxPrecio.value)
    else if nombre.Some? && minPrecio.None? && maxPrecio.None? then
      PorNombre(nombre.value)
    else if nombre.None? && minPrecio.Some? && maxPrecio.Some? then
      PorPrecioEntre(minPrecio.value, maxPrecio.value)
    else if minPrecio.Some? && maxPrecio.None? && nombre.None? then
      PorPrecioMinimo(minPrecio.value)
    else if maxPrecio.Some? && minPrecio.None? && nombre.None? then
      PorPrecioMaximo(maxPrecio.value)
    else
      ListarTodos
  }

  /** Guard number i (0 to 4) of the cascade; any other number is no guard. */
  predicate Guard(i: int, nombre: Option<string>, minPrecio: Option<real>, maxPrecio: Option<real>) {
    if i == 0 then nombre.Some? && minPrecio.Some? && maxPrecio.Some?
    else if i == 1 then nombre.Some? && minPrecio.None? && maxPrecio.None?
    else if i == 2 then nombre.None? && minPrecio.Some? && maxPrecio.Some?
    else if i == 3 then minPrecio.Some? && maxPrecio.None? && nombre.None?
    else if i == 4 then maxPrecio.Some? && minPrecio.None? && nombre.None?
    else false
  }

  /** The call guarded by guard number i. */
  function Branch(i: int, nombre: Option<string>, minPrecio: Option<real>, maxPrecio: Option<real>): Busqueda
    requires Guard(i, nombre, minPrecio, maxPrecio)
  {
    if i == 0 then PorNombreYPrecioEntre(nombre.value, minPrecio.value, maxPrecio.value)
    else if i == 1 then PorNombre(nombre.value)
    else if i == 2 then PorPrecioEntre(minPrecio.value, maxPrecio.value)
    else if i == 3 then PorPrecioMinimo(minPrecio.value)
    else PorPrecioMaximo(maxPrecio.value)
  }

  /** The cascade with its guards tested in the given order, listing everything when none holds. */
  function FirstMatch(order: seq<int>, nombre: Option<string>, minPrecio: Option<real>, maxPrecio: Option<real>): Busqueda {
    if order == [] then ListarTodos
    else if Guard(order[0], nombre, minPrecio, maxPrecio) then Branch(order[0], nombre, minPrecio, maxPrecio)
    else FirstMatch(order[1..], nombre, minPrecio, maxPrecio)
  }

  /** No two guards hold at once, so one call at most is guarded. */
  lemma GuardsDisjoint(nombre: Option<string>, minPrecio: Option<real>, maxPrecio: Option<real>, i: int, j: int)
    requires i != j
    ensures !(Guard(i, nombre, minPrecio, maxPrecio) && Guard(j, nombre, minPrecio, maxPrecio))
  {
  }

  /** Whichever guard holds, the cascade makes its call. */
  lemma DispatchTakesHoldingGuard(nombre: Option<string>, minPrecio: Option<real>, maxPrecio: Option<real>, i: int)
    requires Guard(i, nombre, minPrecio, maxPrecio)
    ensures Dispatch(nombre, minPrecio, maxPrecio) == Branch(i, nombre, minPrecio, maxPrecio)
  {
  }

  /** Testing the guards in any order that reaches the one that holds gives the same call. */
  lemma {:induction false} FirstMatchAgrees(order: seq<int>, nombre: Option<string>, minPrecio: Option<real>, maxPrecio: Option<real>)
    requires forall i :: Guard(i, nombre, minPrecio, maxPrecio) ==> i in order
    ensures FirstMatch(order, nombre, minPrecio, maxPrecio) == Dispatch(nombre, minPrecio, maxPrecio)
  {
    if order == [] {
      assert !Guard(0, nombre, minPrecio, maxPrecio) && !Guard(1, nombre, minPrecio, maxPrecio);
      assert !Guard(2, nombre, minPrecio, maxPrecio) && !Guard(3, nombre, minPrecio, maxPrecio);
      assert !Guard(4, nombre, minPrecio, maxPrecio);
    } else if Guard(order[0], nombre, minPrecio, maxPrecio) {
      DispatchTakesHoldingGuard(nombre, minPrecio, maxPrecio, order[0]);
    } else {
      forall i | Guard(i, nombre, minPrecio, maxPrecio) ensures i in order[1..] {
        assert i in order && i != order[0];
      }
      FirstMatchAgrees(order[1..], nombre, minPrecio, maxPrecio);
    }
  }

  /** The five checks of the search handler may be made in any order: the call is the same. */
  lemma OrderIrrelevant(order: seq<int>, nombre: Option<string>, minPrecio: Option<real>, maxPrecio: Option<real>)
    requires forall i :: 0 <= i < 5 ==> i in order
    ensures FirstMatch(order, nombre, minPrecio, maxPrecio) == Dispatch(nombre, minPrecio, maxPrecio)
  {
    forall i | Guard(i, nombre, minPrecio, maxPrecio) ensures i in order {
      assert 0 <= i < 5;
    }
    FirstMatchAgrees(order, nombre, minPrecio, maxPrecio);
  }

  /** The rows a search selects: the WHERE clause of the repository query behind it. */
  predicate Selects(b: Busqueda, r: Row) {
    match b
    case PorNombreYPrecioEntre(nombre, min, max) => NombreContainingIgnoreCase(r, nombre) && PrecioBetween(r, min, max)
    case PorNombre(nombre) => NombreContainingIgnoreCase(r, nombre)
    case PorPrecioEntre(min, max) => PrecioBetween(r, min, max)
    case PorPrecioMinimo(min) => PrecioGreaterThanEqual(r, min)
    case PorPrecioMaximo(max) => PrecioLessThanEqual(r, max)
    case ListarTodos => true
  }

  class ArticuloController {
    const service: ArticuloServiceImpl

    constructor (service: ArticuloServiceImpl)
      ensures this.service == service
    {
      this.service := service;
    }

    function Listar(): (rs: set<Row>)
      reads service.repository
      requires service.repository.Valid()
      ensures IsWholeTable(rs, service.repository.table)
    {
      service.ListarArticulos()
    }

    /** 200 with the stored row when the id is stored, 404 otherwise. */
    function ObtenerPorId(id: int): (r: Response)
      reads service.repository
      requires service.repository.Valid()
      ensures r.Ok? <==> id in service.repository.table
      ensures r.Ok? ==> r.body == service.repository.table[id] && r.body.id == Some(id)
      ensures !r.Ok? ==> r.NotFound?
    {
      match service.ObtenerArticuloPorId(id)
      case Some(a) => Ok(a)
      case None => NotFound
    }

    /**
     * The body is saved as it is: stored under its own id when that id is
     * stored, as a new row under a fresh id otherwise.
     */
    method Crear(a: Articulo) returns (saved: Row)
      requires service.repository.Valid()
      modifies service.repository, a
      ensures service.repository.Valid()
      ensures saved.id.Some? && ObtenerPorId(saved.id.value) == Ok(saved)
      ensures saved == old(a.State()).(id := saved.id)
      ensures service.repository.table == old(service.repository.table)[saved.id.value := saved]
      ensures service.repository.nextId == old(service.repository.nextId) + (if old(service.repository.Holds(a.id)) then 0 else 1)
      // a body whose id is stored overwrites that row; any other body becomes a new row under a fresh id
      ensures old(service.repository.Holds(a.id)) ==> saved.id == old(a.id) && unchanged(a)
      ensures !old(service.repository.Holds(a.id)) ==>
                saved.id == Some(old(service.repository.nextId)) && saved.id.value !in old(service.repository.table)
      ensures !old(service.repository.Holds(a.id)) && old(a.id).None? ==> a.State() == saved
      ensures !old(service.repository.Holds(a.id)) && old(a.id).Some? ==> unchanged(a)
    {
      saved := service.GuardarArticulo(a);
    }

    /**
     * 404 and nothing changes when the id is not stored; otherwise the row
     * under that id becomes the payload's fields with that id, and 200 carries it.
     */
    method Actualizar(id: int, a: Articulo) returns (r: Response)
      requires service.repository.Valid()
      modifies service.repository, a
      ensures service.repository.Valid()
      ensures id !in old(service.repository.table) ==>
                r == NotFound && unchanged(service.repository) && unchanged(a)
      ensures id in old(service.repository.table) ==>
                && r == Ok(old(a.State()).(id := Some(id)))
                && service.repository.table == old(service.repository.table)[id := r.body]
                && a.State() == old(a.State()).(id := Some(id))
                && service.repository.nextId == old(service.repository.nextId)
    {
      if service.ObtenerArticuloPorId(id).None? {
        return NotFound;
      }
      var actualizado := service.ActualizarArticulo(id, a);
      return Ok(actualizado);
    }

    /** 404 and nothing changes when the id is not stored; otherwise its row is removed and 204 is returned. */
    method Eliminar(id: int) returns (r: Response)
      requires service.repository.Valid()
      modifies service.repository
      ensures service.repository.Valid()
      ensures id !in old(service.repository.table) ==> r == NotFound && unchanged(service.repository)
      ensures id in old(service.repository.table) ==>
                && r == NoContent
                && service.repository.table == old(service.repository.table) - {id}
                && service.repository.nextId == old(service.repository.nextId)
    {
      if service.ObtenerArticuloPorId(id).None? {
        return NotFound;
      }
      service.EliminarArticulo(id);
      return NoContent;
    }

    /** Exactly the stored rows that the one dispatched search selects. */
    function Buscar(nombre: Option<string>, minPrecio: Option<real>, maxPrecio: Option<real>): (rs: set<Row>)
      reads service.repository
      requires service.repository.Valid()
      ensures forall r :: r in rs <==> r in Listar() && Selects(Dispatch(nombre, minPrecio, maxPrecio), r)
    {
      match Dispatch(nombre, minPrecio, maxPrecio)
      case PorNombreYPrecioEntre(n, min, max) => service.BuscarPorNombreYPrecioEntre(n, min, max)
      case PorNombre(n) => service.BuscarPorNombre(n)
      case PorPrecioEntre(min, max) => service.BuscarPorPrecioEntre(min, max)
      case PorPrecioMinimo(min) => service.BuscarPorPrecioMinimo(min)
      case PorPrecioMaximo(max) => service.BuscarPorPrecioMaximo(max)
      case ListarTodos => service.ListarArticulos()
    }
  }

  /**
   * The search handler on a name with exactly one price bound ignores all
   * three filters and returns every article, as written.
   */
  lemma NombreWithOneBoundListsEverything(c: ArticuloController, nombre: string, bound: real)
    requires c.service.repository.Valid()
    ensures c.Buscar(Some(nombre), Some(bound), None) == c.Listar()
    ensures c.Buscar(Some(nombre), None, Some(bound)) == c.Listar()
  {
  }
}
