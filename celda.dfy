/** A mutable slot bound to one coordinate (src/noventagrados/modelo/Celda.java). */
module Celdas {
  import opened Opciones
  import opened Colores
  import opened Coordenadas
  import opened Piezas

  class Celda {
    /** The coordinate is fixed for the cell's lifetime. */
    const coordenada: Coordenada
    /** The piece held, or None when the cell is empty. */
    var pieza: Option<Pieza>

    /** A new cell is empty. */
    constructor (c: Coordenada)
      ensures coordenada == c && EstaVacia()
    {
      coordenada := c;
      pieza := None;
    }

    /** clonar: a new, independent cell equal to this one. */
    method Clonar() returns (clon: Celda)
      ensures fresh(clon) && clon.Equals(this)
    {
      clon := new Celda(coordenada);
      if pieza.Some? {
        clon.pieza := pieza;
      }
    }

    /** colocar: stores `p`; placing None empties the cell. */
    method Colocar(p: Option<Pieza>)
      modifies this
      ensures ConsultarPieza() == p
      ensures p.None? <==> EstaVacia()
    {
      pieza := p;
    }

    /** consultarColorDePieza: None for an empty cell, otherwise the held piece's side. */
    function ConsultarColorDePieza(): (r: Option<Color>)
      reads this
      ensures r.None? <==> EstaVacia()
      ensures r.Some? ==> r.value == ConsultarPieza().value.color
    {
      if pieza.Some? then Some(pieza.value.color) else None
    }

    /** consultarCoordenada */
    function ConsultarCoordenada(): Coordenada
    {
      coordenada
    }

    /** consultarPieza */
    function ConsultarPieza(): Option<Pieza>
      reads this
    {
      pieza
    }

    /** eliminarPieza: the cell becomes empty. */
    method EliminarPieza()
      modifies this
      ensures EstaVacia() && ConsultarPieza() == None
    {
      pieza := None;
    }

    /** estaVacia */
    predicate EstaVacia()
      reads this
    {
      pieza.None?
    }

    /** equals: same coordinate and an equal piece (or both empty). */
    predicate Equals(otra: Celda)
      reads this, otra
    {
      coordenada == otra.coordenada && pieza == otra.pieza
    }

    /** equals is an equivalence, and equal cells hold the same piece at the same coordinate. */
    lemma EqualsEquivalencia(otra: Celda, tercera: Celda)
      ensures Equals(this)
      ensures Equals(otra) ==>
        otra.Equals(this) && ConsultarPieza() == otra.ConsultarPieza() &&
        ConsultarCoordenada() == otra.ConsultarCoordenada() && (EstaVacia() <==> otra.EstaVacia())
      ensures Equals(otra) && otra.Equals(tercera) ==> Equals(tercera)
    {
    }
  }
}
