/**
 * The Articulo entity (package model): a mutable object with four nullable
 * fields, and the value it is persisted as (one row of table articulo).
 */
module Model {
  import opened Wrappers

  /** Declared column lengths of nombre and imagen. */
  const MaxNombreLength := 200
  const MaxImagenLength := 500

  /** The persisted state of one Articulo: its id, nombre, precio and imagen columns. */
  datatype Row = Row(id: Option<int>, nombre: Option<string>, precio: Option<real>, imagen: Option<string>)

  /**
   * The column constraints a stored row is meant to meet: nombre non-null and
   * at most 200 characters long, precio non-null, imagen absent or at most 500
   * characters long. They are declared for the database, which enforces them;
   * no operation of the model checks them.
   */
  predicate SatisfiesColumns(r: Row): (ok: bool)
    ensures ok ==> r.nombre.Some? && r.precio.Some?
    ensures ok ==> |r.nombre.value| <= MaxNombreLength && (r.imagen.Some? ==> |r.imagen.value| <= MaxImagenLength)
  {
    && r.nombre.Some? && |r.nombre.value| <= MaxNombreLength
    && r.precio.Some?
    && (r.imagen.Some? ==> |r.imagen.value| <= MaxImagenLength)
  }

  /** The constraints do not involve the id, so forcing an id onto an entity keeps or breaks none of them. */
  lemma ColumnsIgnoreId(r: Row, id: Option<int>)
    ensures SatisfiesColumns(r.(id := id)) == SatisfiesColumns(r)
  {
  }

  class Articulo {
    var id: Option<int>
    var nombre: Option<string>
    var precio: Option<real>
    var imagen: Option<string>

    /** The four fields as one value: what a getter of each field reads, and what a save persists. */
    function State(): Row
      reads this
    {
      Row(id, nombre, precio, imagen)
    }

    /** The no-argument constructor: every field is null, so the id is left to the store. */
    constructor Empty()
      ensures State() == Row(None, None, None, None)
    {
      id, nombre, precio, imagen := None, None, None, None;
    }

    /** The full constructor stores each argument in its field. */
    constructor (id: Option<int>, nombre: Option<string>, precio: Option<real>, imagen: Option<string>)
      ensures State() == Row(id, nombre, precio, imagen)
    {
      this.id, this.nombre, this.precio, this.imagen := id, nombre, precio, imagen;
    }

    method SetId(id: Option<int>)
      modifies this
      ensures State() == old(State()).(id := id)
    {
      this.id := id;
    }

    method SetNombre(nombre: Option<string>)
      modifies this
      ensures State() == old(State()).(nombre := nombre)
    {
      this.nombre := nombre;
    }

    method SetPrecio(precio: Option<real>)
      modifies this
      ensures State() == old(State()).(precio := precio)
    {
      this.precio := precio;
    }

    method SetImagen(imagen: Option<string>)
      modifies this
      ensures State() == old(State()).(imagen := imagen)
    {
      this.imagen := imagen;
    }
  }
}
