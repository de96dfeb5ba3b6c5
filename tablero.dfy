/** The fixed 7x7 board (src/noventagrados/modelo/Tablero.java). The board keeps the contents
    of its 49 cells in one array in row-major order; the cell at (fila, columna) is slot
    7 * fila + columna. Read accessors hand out fresh Celda copies, as the source does. */
module Tableros {
  import opened Opciones
  import opened Coordenadas
  import opened Piezas
  import opened Celdas

  /** TAMANO: the number of rows and of columns. */
  const TAMANO: int := 7

  /** The number of cells. */
  const NUMERO_CELDAS: int := 49

  /** The value of a board: the contents of its 49 cells in row-major order. */
  type Rejilla = s: seq<Option<Pieza>> | |s| == NUMERO_CELDAS witness seq(49, _ => None)

  /** The board with every cell empty. */
  function Vacia(): (g: Rejilla)
    ensures forall i :: 0 <= i < NUMERO_CELDAS ==> g[i] == None
  {
    seq(49, _ => None)
  }

  /** estaEnTablero: both components lie in 0..6. */
  predicate EstaEnTablero(c: Coordenada)
  {
    0 <= c.fila < TAMANO && 0 <= c.columna < TAMANO
  }

  /** The slot that holds the cell at an on-board coordinate. */
  function Indice(c: Coordenada): (i: int)
    requires EstaEnTablero(c)
    ensures 0 <= i < NUMERO_CELDAS
  {
    7 * c.fila + c.columna
  }

  /** The coordinate of the cell kept in slot `i`; the inverse of Indice. */
  function CoordenadaDe(i: int): (c: Coordenada)
    requires 0 <= i < NUMERO_CELDAS
    ensures EstaEnTablero(c) && Indice(c) == i
  {
    Coordenada(i / 7, i % 7)
  }

  /** Indice is a bijection between on-board coordinates and the 49 slots. */
  lemma IndiceBiyectivo(c: Coordenada)
    requires EstaEnTablero(c)
    ensures CoordenadaDe(Indice(c)) == c
  {
  }

  /** Distinct on-board coordinates occupy distinct slots. */
  lemma IndiceInyectivo(a: Coordenada, b: Coordenada)
    requires EstaEnTablero(a) && EstaEnTablero(b) && a != b
    ensures Indice(a) != Indice(b)
  {
    IndiceBiyectivo(a);
    IndiceBiyectivo(b);
  }

  /** The content of the cell at an on-board coordinate. */
  function En(g: Rejilla, c: Coordenada): Option<Pieza>
    requires EstaEnTablero(c)
  {
    g[Indice(c)]
  }

  /** consultarCelda(c) != null && !estaVacia(): an on-board cell holding a piece. */
  predicate Ocupada(g: Rejilla, c: Coordenada)
  {
    EstaEnTablero(c) && g[Indice(c)].Some?
  }

  /** obtenerCelda(c).colocar(p): the cell at `c` now holds `p` (None empties it);
      every other cell keeps its content. */
  function Fijada(g: Rejilla, c: Coordenada, p: Option<Pieza>): (r: Rejilla)
    requires EstaEnTablero(c)
    ensures En(r, c) == p
    ensures forall d :: EstaEnTablero(d) && d != c ==> En(r, d) == En(g, d)
  {
    forall d | EstaEnTablero(d) && d != c ensures Indice(d) != Indice(c) {
      IndiceInyectivo(d, c);
    }
    g[Indice(c) := p]
  }

  /** colocar: nothing changes for a missing piece or an off-board coordinate; otherwise the
      piece overwrites that one cell. */
  function Colocada(g: Rejilla, p: Option<Pieza>, c: Coordenada): (r: Rejilla)
    ensures p.None? || !EstaEnTablero(c) ==> r == g
    ensures p.Some? && EstaEnTablero(c) ==> En(r, c) == p
    ensures forall d :: EstaEnTablero(d) && d != c ==> En(r, d) == En(g, d)
  {
    if p.Some? && EstaEnTablero(c) then Fijada(g, c, p) else g
  }

  /** eliminarPieza: empties the cell at an on-board coordinate; off the board nothing changes. */
  function Eliminada(g: Rejilla, c: Coordenada): (r: Rejilla)
    ensures !EstaEnTablero(c) ==> r == g
    ensures EstaEnTablero(c) ==> En(r, c) == None
    ensures forall d :: EstaEnTablero(d) && d != c ==> En(r, d) == En(g, d)
  {
    if EstaEnTablero(c) then Fijada(g, c, None) else g
  }

  class Tablero {
    /** The contents of the cells, row-major; the array itself never changes (final). */
    const celdas: array<Option<Pieza>>

    ghost predicate Valid()
      reads this
    {
      celdas.Length == NUMERO_CELDAS
    }

    /** The board's value. */
    function Contenido(): Rejilla
      reads this, celdas
      requires Valid()
    {
      celdas[..]
    }

    /** A new board has 49 empty cells. */
    constructor ()
      ensures Valid() && fresh(celdas)
      ensures Contenido() == Vacia()
    {
      celdas := new Option<Pieza>[49](_ => None);
      new;
      assert celdas[..] == Vacia();
    }

    /** clonar: a new board holding the same piece at every coordinate. */
    method Clonar() returns (clon: Tablero)
      requires Valid()
      ensures fresh(clon) && fresh(clon.celdas) && clon.Valid()
      ensures clon.Contenido() == Contenido()
    {
      clon := new Tablero();
      for fila := 0 to TAMANO
        invariant clon.Valid() && fresh(clon.celdas)
        invariant forall i :: 0 <= i < 7 * fila ==> clon.celdas[i] == celdas[i]
        invariant forall i :: 7 * fila <= i < NUMERO_CELDAS ==> clon.celdas[i] == None
      {
        for columna := 0 to TAMANO
          invariant clon.Valid() && fresh(clon.celdas)
          invariant forall i :: 0 <= i < 7 * fila + columna ==> clon.celdas[i] == celdas[i]
          invariant forall i :: 7 * fila + columna <= i < NUMERO_CELDAS ==> clon.celdas[i] == None
        {
          var coordenada := Coordenada(fila, columna);
          var original := celdas[Indice(coordenada)];
          if original.Some? {
            clon.Colocar(original, coordenada);
          }
        }
      }
      assert clon.celdas[..] == celdas[..];
    }

    /** colocar(pieza, coordenada) */
    method Colocar(p: Option<Pieza>, c: Coordenada)
      requires Valid()
      modifies celdas
      ensures Contenido() == Colocada(old(Contenido()), p, c)
    {
      if p.Some? && EstaEnTablero(c) {
        celdas[Indice(c)] := p;
      }
    }

    /** obtenerCelda(c).colocar(p): the unchecked write used inside the referee; it accepts an
        empty `p`, which clears the cell. */
    method FijarCelda(c: Coordenada, p: Option<Pieza>)
      requires Valid() && EstaEnTablero(c)
      modifies celdas
      ensures Contenido() == Fijada(old(Contenido()), c, p)
    {
      celdas[Indice(c)] := p;
    }

    /** consultarCelda: None (null) exactly off the board; otherwise a fresh copy of the cell,
        which carries coordinate `c` and its content, so changing it never alters the board. */
    method ConsultarCelda(c: Coordenada) returns (r: Celda?)
      requires Valid()
      ensures r == null <==> !EstaEnTablero(c)
      ensures r != null ==> fresh(r) && r.coordenada == c && r.pieza == En(Contenido(), c)
    {
      if EstaEnTablero(c) {
        r := new Celda(c);
        r.pieza := celdas[Indice(c)];
      } else {
        r := null;
      }
    }

    /** consultarCeldas: 49 fresh cell copies in row-major order. */
    method ConsultarCeldas() returns (r: seq<Celda>)
      requires Valid()
      ensures |r| == NUMERO_CELDAS
      ensures forall i :: 0 <= i < |r| ==> fresh(r[i]) && r[i].coordenada == CoordenadaDe(i) && r[i].pieza == Contenido()[i]
    {
      r := [];
      for fila := 0 to TAMANO
        invariant |r| == 7 * fila
        invariant forall i :: 0 <= i < |r| ==> fresh(r[i]) && r[i].coordenada == CoordenadaDe(i) && r[i].pieza == celdas[i]
      {
        for columna := 0 to TAMANO
          invariant |r| == 7 * fila + columna
          invariant forall i :: 0 <= i < |r| ==> fresh(r[i]) && r[i].coordenada == CoordenadaDe(i) && r[i].pieza == celdas[i]
        {
          var coordenada := Coordenada(fila, columna);
          var copia := new Celda(coordenada);
          copia.pieza := celdas[Indice(coordenada)];
          r := r + [copia];
        }
      }
    }

    /** consultarNumeroFilas */
    function ConsultarNumeroFilas(): (n: int)
      ensures n == TAMANO
    {
      TAMANO
    }

    /** consultarNumeroColumnas */
    function ConsultarNumeroColumnas(): (n: int)
      ensures n == TAMANO
    {
      TAMANO
    }

    /** eliminarPieza(coordenada) */
    method EliminarPieza(c: Coordenada)
      requires Valid()
      modifies celdas
      ensures Contenido() == Eliminada(old(Contenido()), c)
    {
      if EstaEnTablero(c) {
        celdas[Indice(c)] := None;
      }
    }

    /** equals: the same content at every coordinate. */
    predicate Equals(otro: Tablero)
      reads this, celdas, otro, otro.celdas
      requires Valid() && otro.Valid()
    {
      Contenido() == otro.Contenido()
    }
  }
}
