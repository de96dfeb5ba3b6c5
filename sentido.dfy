/** The four axis-aligned directions and their unit deltas (src/noventagrados/util/Sentido.java). */
module Sentidos {
  import opened Coordenadas

  /** VERTICAL_N, VERTICAL_S, HORIZONTAL_E and HORIZONTAL_O. */
  datatype Sentido = VerticalN | VerticalS | HorizontalE | HorizontalO

  /** consultarDesplazamientoEnFilas: the row delta fixed by the constant. */
  function DesplazamientoEnFilas(s: Sentido): (d: int)
    ensures -1 <= d <= 1
    ensures d == -1 <==> s == VerticalN
    ensures d == 1 <==> s == VerticalS
  {
    match s
    case VerticalN => -1
    case VerticalS => 1
    case HorizontalE => 0
    case HorizontalO => 0
  }

  /** consultarDesplazamientoEnColumnas: the column delta fixed by the constant. */
  function DesplazamientoEnColumnas(s: Sentido): (d: int)
    ensures -1 <= d <= 1
    ensures d == 1 <==> s == HorizontalE
    ensures d == -1 <==> s == HorizontalO
  {
    match s
    case VerticalN => 0
    case VerticalS => 0
    case HorizontalE => 1
    case HorizontalO => -1
  }

  /** Exactly one component of each delta is non-zero, and it is 1 or -1. */
  lemma UnSoloEje(s: Sentido)
    ensures (DesplazamientoEnFilas(s) == 0) != (DesplazamientoEnColumnas(s) == 0)
    ensures DesplazamientoEnFilas(s) * DesplazamientoEnFilas(s) + DesplazamientoEnColumnas(s) * DesplazamientoEnColumnas(s) == 1
  {
  }

  /** North and South are negations of each other, and so are East and West. */
  lemma SentidosOpuestos()
    ensures DesplazamientoEnFilas(VerticalN) == -DesplazamientoEnFilas(VerticalS)
    ensures DesplazamientoEnColumnas(VerticalN) == -DesplazamientoEnColumnas(VerticalS)
    ensures DesplazamientoEnFilas(HorizontalE) == -DesplazamientoEnFilas(HorizontalO)
    ensures DesplazamientoEnColumnas(HorizontalE) == -DesplazamientoEnColumnas(HorizontalO)
  {
  }

  /** The moves along a row. */
  predicate EsHorizontal(s: Sentido)
  {
    s == HorizontalE || s == HorizontalO
  }

  /** calcularNuevaCoordenada: the coordinate reached from `c` after `k` steps towards `s`.
      Moving horizontally keeps the row, moving vertically keeps the column. */
  function Desplazar(c: Coordenada, s: Sentido, k: int): (r: Coordenada)
    ensures EsHorizontal(s) ==> r.fila == c.fila && r.columna == c.columna + (if s == HorizontalE then k else -k)
    ensures !EsHorizontal(s) ==> r.columna == c.columna && r.fila == c.fila + (if s == VerticalS then k else -k)
  {
    match s
    case VerticalN => Coordenada(c.fila - k, c.columna)
    case VerticalS => Coordenada(c.fila + k, c.columna)
    case HorizontalE => Coordenada(c.fila, c.columna + k)
    case HorizontalO => Coordenada(c.fila, c.columna - k)
  }

  /** The displacement is the source's formula: each delta of the direction times `k`. */
  lemma DesplazarEsProducto(c: Coordenada, s: Sentido, k: int)
    ensures Desplazar(c, s, k) == Coordenada(c.fila + DesplazamientoEnFilas(s) * k, c.columna + DesplazamientoEnColumnas(s) * k)
  {
  }

  /** Two displacements in the same direction add up. */
  lemma DesplazarSuma(c: Coordenada, s: Sentido, a: int, b: int)
    ensures Desplazar(Desplazar(c, s, a), s, b) == Desplazar(c, s, a + b)
  {
  }
}
