/** Read-only queries over a board (src/noventagrados/control/TableroConsultor.java).
    Each query is a function of the board's value; the loops of the source are methods over a
    Tablero proved equal to those functions. None of the methods may modify anything. */
module Consultor {
  import opened Opciones
  import opened Colores
  import opened TiposPieza
  import opened Coordenadas
  import opened Sentidos
  import opened Piezas
  import opened Celdas
  import opened Tableros

  function Abs(x: int): nat
  {
    if x < 0 then -x else x
  }

  /** calcularSentido: East or West along a shared row, South or North along a shared column,
      None for identical or diagonal points. */
  function CalcularSentido(o: Coordenada, d: Coordenada): (r: Option<Sentido>)
    ensures r == Some(HorizontalE) <==> o.fila == d.fila && d.columna > o.columna
    ensures r == Some(HorizontalO) <==> o.fila == d.fila && d.columna < o.columna
    ensures r == Some(VerticalS) <==> o.columna == d.columna && d.fila > o.fila
    ensures r == Some(VerticalN) <==> o.columna == d.columna && d.fila < o.fila
    ensures r.None? <==> o == d || (o.fila != d.fila && o.columna != d.columna)
  {
    var deltaFila := d.fila - o.fila;
    var deltaColumna := d.columna - o.columna;
    if deltaFila == 0 then
      (if deltaColumna > 0 then Some(HorizontalE)
       else if deltaColumna < 0 then Some(HorizontalO)
       else None)
    else if deltaColumna == 0 then
      (if deltaFila > 0 then Some(VerticalS) else Some(VerticalN))
    else None
  }

  /** consultarDistanciaEnHorizontal: how far apart the columns are on a shared row, -1 when
      the rows differ. */
  function DistanciaEnHorizontal(o: Coordenada, d: Coordenada): (r: int)
    ensures r >= -1
    ensures r == -1 <==> o.fila != d.fila
    ensures r >= 0 ==> d.columna == o.columna + r || d.columna == o.columna - r
  {
    if o.fila == d.fila then Abs(d.columna - o.columna) else -1
  }

  /** consultarDistanciaEnVertical: how far apart the rows are on a shared column, -1 when
      the columns differ. */
  function DistanciaEnVertical(o: Coordenada, d: Coordenada): (r: int)
    ensures r >= -1
    ensures r == -1 <==> o.columna != d.columna
    ensures r >= 0 ==> d.fila == o.fila + r || d.fila == o.fila - r
  {
    if o.columna == d.columna then Abs(d.fila - o.fila) else -1
  }

  /** The distance along the axis of direction `s`, as empujar chooses it. */
  function DistanciaEnSentido(o: Coordenada, d: Coordenada, s: Sentido): int
  {
    if EsHorizontal(s) then DistanciaEnHorizontal(o, d) else DistanciaEnVertical(o, d)
  }

  /** The direction and the distance along it lead from the origin to the destination. */
  lemma SentidoYDistanciaLlevanAlDestino(o: Coordenada, d: Coordenada)
    requires CalcularSentido(o, d).Some?
    ensures DistanciaEnSentido(o, d, CalcularSentido(o, d).value) > 0
    ensures Desplazar(o, CalcularSentido(o, d).value, DistanciaEnSentido(o, d, CalcularSentido(o, d).value)) == d
  {
  }

  /** The coordinates of a row and of a column. */
  function Fila(f: int): (cs: seq<Coordenada>)
    ensures |cs| == TAMANO && forall k :: 0 <= k < |cs| ==> cs[k] == Coordenada(f, k)
  {
    seq(7, k => Coordenada(f, k))
  }

  function Columna(c: int): (cs: seq<Coordenada>)
    ensures |cs| == TAMANO && forall k :: 0 <= k < |cs| ==> cs[k] == Coordenada(k, c)
  {
    seq(7, k => Coordenada(k, c))
  }

  /** The number of occupied on-board cells among `cs`; zero exactly when none is occupied. */
  function ContarOcupadas(g: Rejilla, cs: seq<Coordenada>): (n: nat)
    ensures n <= |cs|
    ensures n == 0 <==> forall k :: 0 <= k < |cs| ==> !Ocupada(g, cs[k])
    decreases |cs|
  {
    if cs == [] then 0
    else
      var previas := ContarOcupadas(g, cs[..|cs| - 1]);
      assert forall k :: 0 <= k < |cs| - 1 ==> cs[..|cs| - 1][k] == cs[k];
      previas + (if Ocupada(g, cs[|cs| - 1]) then 1 else 0)
  }

  /** The count agrees with the size of the set of occupied positions. */
  lemma ContarOcupadasEsCardinal(g: Rejilla, cs: seq<Coordenada>)
    ensures ContarOcupadas(g, cs) == |set k | 0 <= k < |cs| && Ocupada(g, cs[k])|
  {
    ContarOcupadasPrefijo(g, cs, |cs|);
    assert cs[..|cs|] == cs;
    assert OcupadasHasta(g, cs, |cs|) == set k | 0 <= k < |cs| && Ocupada(g, cs[k]);
  }

  /** The same for every prefix of `cs`. */
  lemma {:induction false} ContarOcupadasPrefijo(g: Rejilla, cs: seq<Coordenada>, m: int)
    requires 0 <= m <= |cs|
    ensures ContarOcupadas(g, cs[..m]) == |OcupadasHasta(g, cs, m)|
    decreases m
  {
    if m == 0 {
      assert OcupadasHasta(g, cs, m) == {};
    } else {
      ContarOcupadasPrefijo(g, cs, m - 1);
      assert cs[..m][..m - 1] == cs[..m - 1];
      assert cs[..m][m - 1] == cs[m - 1];
      OcupadasHastaPaso(g, cs, m);
    }
  }

  /** The positions among the first `m` of `cs` that are occupied. */
  function OcupadasHasta(g: Rejilla, cs: seq<Coordenada>, m: int): set<int>
    requires 0 <= m <= |cs|
  {
    set k | 0 <= k < m && Ocupada(g, cs[k])
  }

  /** One more position adds itself to the set exactly when it is occupied. */
  lemma OcupadasHastaPaso(g: Rejilla, cs: seq<Coordenada>, m: int)
    requires 1 <= m <= |cs|
    ensures |OcupadasHasta(g, cs, m)| == |OcupadasHasta(g, cs, m - 1)| + (if Ocupada(g, cs[m - 1]) then 1 else 0)
  {
    var ahora, antes := OcupadasHasta(g, cs, m), OcupadasHasta(g, cs, m - 1);
    if Ocupada(g, cs[m - 1]) {
      assert ahora == antes + {m - 1};
    } else {
      assert ahora == antes;
    }
  }

  /** consultarNumeroPiezasEnHorizontal: occupied cells in the coordinate's row; 0..7, at
      least 1 when that coordinate itself is occupied, 0 for a row off the board. */
  function NumeroPiezasEnHorizontal(g: Rejilla, c: Coordenada): (n: nat)
    ensures n <= TAMANO
    ensures Ocupada(g, c) ==> n >= 1
    ensures n == 0 <==> forall k :: 0 <= k < TAMANO ==> !Ocupada(g, Coordenada(c.fila, k))
  {
    assert Ocupada(g, c) ==> Fila(c.fila)[c.columna] == c;
    ContarOcupadas(g, Fila(c.fila))
  }

  /** consultarNumeroPiezasEnVertical: occupied cells in the coordinate's column. */
  function NumeroPiezasEnVertical(g: Rejilla, c: Coordenada): (n: nat)
    ensures n <= TAMANO
    ensures Ocupada(g, c) ==> n >= 1
    ensures n == 0 <==> forall k :: 0 <= k < TAMANO ==> !Ocupada(g, Coordenada(k, c.columna))
  {
    assert Ocupada(g, c) ==> Columna(c.columna)[c.fila] == c;
    ContarOcupadas(g, Columna(c.columna))
  }

  /** The number of the first `n` cells that hold exactly the piece `p`. */
  function ContarPieza(g: Rejilla, p: Pieza, n: int): (r: nat)
    requires 0 <= n <= NUMERO_CELDAS
    ensures r <= n
    ensures r == 0 <==> forall i :: 0 <= i < n ==> g[i] != Some(p)
  {
    if n == 0 then 0 else ContarPieza(g, p, n - 1) + (if g[n - 1] == Some(p) then 1 else 0)
  }

  /** consultarNumeroPiezas(tipo, color): cells holding a piece of exactly that kind and side. */
  function NumeroPiezas(g: Rejilla, tipo: TipoPieza, color: Color): nat
  {
    ContarPieza(g, Pieza(tipo, color), NUMERO_CELDAS)
  }

  /** hayReina(color): some cell holds a queen of that side. */
  predicate HayReina(g: Rejilla, color: Color)
  {
    exists i :: 0 <= i < NUMERO_CELDAS && g[i] == Some(Pieza(Reina, color))
  }

  /** A queen is present exactly when the number of queens of that side is positive. */
  lemma HayReinaSiiNumeroPositivo(g: Rejilla, color: Color)
    ensures HayReina(g, color) <==> NumeroPiezas(g, Reina, color) > 0
  {
  }

  /** A queen on any cell means the side has its queen. */
  lemma ReinaEn(g: Rejilla, c: Coordenada, color: Color)
    requires EstaEnTablero(c) && En(g, c) == Some(Pieza(Reina, color))
    ensures HayReina(g, color)
  {
    assert g[Indice(c)] == Some(Pieza(Reina, color));
  }

  /** The centre cell: (TAMANO / 2, TAMANO / 2) = (3, 3). */
  const CENTRO: Coordenada := Coordenada(TAMANO / 2, TAMANO / 2)

  /** estaReinaEnElCentro(color): the centre cell holds a queen of that side. */
  predicate EstaReinaEnElCentro(g: Rejilla, color: Color)
  {
    En(g, CENTRO) == Some(Pieza(Reina, color))
  }

  /** A centred queen is on the board, and at most one side can hold the centre. */
  lemma ReinaEnElCentro(g: Rejilla, color: Color)
    ensures CENTRO == Coordenada(3, 3)
    ensures EstaReinaEnElCentro(g, color) ==> HayReina(g, color)
    ensures !(EstaReinaEnElCentro(g, Blanco) && EstaReinaEnElCentro(g, Negro))
  {
  }

  /** consultarNumeroPiezasEnHorizontal as the source's loop over the columns. */
  method ConsultarNumeroPiezasEnHorizontal(t: Tablero, c: Coordenada) returns (contador: nat)
    requires t.Valid()
    ensures contador == NumeroPiezasEnHorizontal(t.Contenido(), c)
  {
    contador := 0;
    var fila := Fila(c.fila);
    for columna := 0 to t.ConsultarNumeroColumnas()
      invariant contador == ContarOcupadas(t.Contenido(), fila[..columna])
    {
      var celda := t.ConsultarCelda(Coordenada(c.fila, columna));
      assert fila[..columna + 1][..columna] == fila[..columna];
      if celda != null && !celda.EstaVacia() {
        contador := contador + 1;
      }
    }
    assert fila[..TAMANO] == fila;
  }

  /** consultarNumeroPiezasEnVertical as the source's loop over the rows. */
  method ConsultarNumeroPiezasEnVertical(t: Tablero, c: Coordenada) returns (contador: nat)
    requires t.Valid()
    ensures contador == NumeroPiezasEnVertical(t.Contenido(), c)
  {
    contador := 0;
    var columna := Columna(c.columna);
    for fila := 0 to t.ConsultarNumeroFilas()
      invariant contador == ContarOcupadas(t.Contenido(), columna[..fila])
    {
      var celda := t.ConsultarCelda(Coordenada(fila, c.columna));
      assert columna[..fila + 1][..fila] == columna[..fila];
      if celda != null && !celda.EstaVacia() {
        contador := contador + 1;
      }
    }
    assert columna[..TAMANO] == columna;
  }

  /** consultarNumeroPiezas(tipo, color) as the source's loop over the cell copies. */
  method ConsultarNumeroPiezas(t: Tablero, tipo: TipoPieza, color: Color) returns (contador: nat)
    requires t.Valid()
    ensures contador == NumeroPiezas(t.Contenido(), tipo, color)
  {
    var celdas := t.ConsultarCeldas();
    contador := 0;
    for i := 0 to |celdas|
      invariant contador == ContarPieza(t.Contenido(), Pieza(tipo, color), i)
    {
      var pieza := celdas[i].ConsultarPieza();
      if pieza.Some? && pieza.value.tipo == tipo && pieza.value.color == color {
        contador := contador + 1;
      }
    }
  }

  /** hayReina(color) as the source's loop with an early return. */
  method HayReinaEn(t: Tablero, color: Color) returns (hay: bool)
    requires t.Valid()
    ensures hay == HayReina(t.Contenido(), color)
  {
    var celdas := t.ConsultarCeldas();
    for i := 0 to |celdas|
      invariant forall k :: 0 <= k < i ==> t.Contenido()[k] != Some(Pieza(Reina, color))
    {
      var pieza := celdas[i].ConsultarPieza();
      if pieza.Some? && pieza.value.tipo == Reina && pieza.value.color == color {
        return true;
      }
    }
    return false;
  }

  /** estaReinaEnElCentro(color) as the source reads the centre cell. */
  method EstaReinaEnElCentroEn(t: Tablero, color: Color) returns (centrada: bool)
    requires t.Valid()
    ensures centrada == EstaReinaEnElCentro(t.Contenido(), color)
  {
    var centro := Coordenada(t.ConsultarNumeroFilas() / 2, t.ConsultarNumeroColumnas() / 2);
    var celda := t.ConsultarCelda(centro);
    if celda != null && !celda.EstaVacia() {
      var pieza := celda.ConsultarPieza().value;
      return pieza.tipo == Reina && pieza.color == color;
    }
    return false;
  }
}
