/** The referee's rules as functions of its state (src/noventagrados/control/Arbitro.java):
    legality, winner and game over, turn change, placement, and push resolution as the source
    computes it wherever the source completes it. The Arbitro class runs these computations in place and is proved to
    produce the states these functions describe. */
module Reglas {
  import opened Opciones
  import opened Colores
  import opened TiposPieza
  import opened Coordenadas
  import opened Sentidos
  import opened Piezas
  import opened Jugadas
  import opened Tableros
  import opened Cajas
  import opened Consultor

  /** The referee's state: board, move counter, turn (None until set), and the White and
      Black capture boxes' contents. */
  datatype EstadoArbitro = EstadoArbitro(
    tablero: Rejilla,
    numeroJugadas: nat,
    turno: Option<Color>,
    cajaBlancas: seq<Pieza>,
    cajaNegras: seq<Pieza>)

  /** Both boxes keep the box invariant for their side. */
  predicate CajasValidas(e: EstadoArbitro)
  {
    Invariante(e.cajaBlancas, Blanco) && Invariante(e.cajaNegras, Negro)
  }

  /** new Arbitro(tablero): no moves, no turn, two empty boxes. */
  function Nuevo(g: Rejilla): (e: EstadoArbitro)
    ensures CajasValidas(e)
  {
    EstadoArbitro(g, 0, None, [], [])
  }

  // ---------------------------------------------------------------- turn

  /** cambiarTurno: White passes to Black; Black and an unset turn pass to White. */
  function ConTurnoCambiado(e: EstadoArbitro): (r: EstadoArbitro)
    ensures r.turno.Some? && r.turno != e.turno
    ensures e.turno.Some? ==> r.turno == Some(Contrario(e.turno.value))
    ensures e.turno.None? ==> r.turno == Some(Blanco)
    ensures r.tablero == e.tablero && r.numeroJugadas == e.numeroJugadas
    ensures r.cajaBlancas == e.cajaBlancas && r.cajaNegras == e.cajaNegras
  {
    e.(turno := if e.turno == Some(Blanco) then Some(Negro) else Some(Blanco))
  }

  /** Two turn changes return to the turn one started from, once a turn is set. */
  lemma TurnoCambiadoDosVeces(e: EstadoArbitro)
    requires e.turno.Some?
    ensures ConTurnoCambiado(ConTurnoCambiado(e)) == e
  {
  }

  // ---------------------------------------------------------------- placement

  /** colocarPiezas' loop: tablero.colocar for each pair in list order. */
  function Colocadas(g: Rejilla, piezas: seq<Pieza>, coordenadas: seq<Coordenada>): Rejilla
    requires |piezas| == |coordenadas|
    decreases |piezas|
  {
    if piezas == [] then g
    else
      var n := |piezas| - 1;
      Colocada(Colocadas(g, piezas[..n], coordenadas[..n]), Some(piezas[n]), coordenadas[n])
  }

  /** After placing, an on-board coordinate that appears in the list holds the piece paired
      with its last occurrence; one that does not appear keeps its content. */
  lemma ColocadasEn(g: Rejilla, piezas: seq<Pieza>, coordenadas: seq<Coordenada>, c: Coordenada)
    requires |piezas| == |coordenadas| && EstaEnTablero(c)
    ensures (forall i :: 0 <= i < |coordenadas| ==> coordenadas[i] != c) ==>
              En(Colocadas(g, piezas, coordenadas), c) == En(g, c)
    ensures forall i :: (0 <= i < |coordenadas| && coordenadas[i] == c &&
                         (forall k :: i < k < |coordenadas| ==> coordenadas[k] != c)) ==>
              En(Colocadas(g, piezas, coordenadas), c) == Some(piezas[i])
  {
    forall i | 0 <= i < |coordenadas| && coordenadas[i] == c && (forall k :: i < k < |coordenadas| ==> coordenadas[k] != c)
      ensures En(Colocadas(g, piezas, coordenadas), c) == Some(piezas[i])
    {
      ColocadasUltima(g, piezas, coordenadas, c, i);
    }
    if forall i :: 0 <= i < |coordenadas| ==> coordenadas[i] != c {
      ColocadasAusente(g, piezas, coordenadas, c);
    }
  }

  /** A coordinate the list never names keeps its content. */
  lemma {:induction false} ColocadasAusente(g: Rejilla, piezas: seq<Pieza>, coordenadas: seq<Coordenada>, c: Coordenada)
    requires |piezas| == |coordenadas| && EstaEnTablero(c)
    requires forall i :: 0 <= i < |coordenadas| ==> coordenadas[i] != c
    ensures En(Colocadas(g, piezas, coordenadas), c) == En(g, c)
    decreases |piezas|
  {
    if piezas != [] {
      var n := |piezas| - 1;
      assert forall i :: 0 <= i < n ==> coordenadas[..n][i] == coordenadas[i];
      ColocadasAusente(g, piezas[..n], coordenadas[..n], c);
      assert coordenadas[n] != c;
    }
  }

  /** A coordinate named last at position `i` holds the piece paired with it there. */
  lemma {:induction false} ColocadasUltima(g: Rejilla, piezas: seq<Pieza>, coordenadas: seq<Coordenada>, c: Coordenada, i: int)
    requires |piezas| == |coordenadas| && EstaEnTablero(c)
    requires 0 <= i < |coordenadas| && coordenadas[i] == c
    requires forall k :: i < k < |coordenadas| ==> coordenadas[k] != c
    ensures En(Colocadas(g, piezas, coordenadas), c) == Some(piezas[i])
    decreases |piezas|
  {
    var n := |piezas| - 1;
    if i < n {
      assert coordenadas[..n][i] == c;
      assert forall k :: i < k < n ==> coordenadas[..n][k] == coordenadas[k];
      ColocadasUltima(g, piezas[..n], coordenadas[..n], c, i);
      assert coordenadas[n] != c;
      assert piezas[..n][i] == piezas[i];
    }
  }

  /** The opening layout's pieces and coordinates, in the order the source lists them. */
  const PIEZAS_INICIALES: seq<Pieza> := [
    Pieza(Reina, Blanco), Pieza(Reina, Negro),
    Pieza(Peon, Blanco), Pieza(Peon, Blanco), Pieza(Peon, Blanco),
    Pieza(Peon, Blanco), Pieza(Peon, Blanco), Pieza(Peon, Blanco),
    Pieza(Peon, Negro), Pieza(Peon, Negro), Pieza(Peon, Negro),
    Pieza(Peon, Negro), Pieza(Peon, Negro), Pieza(Peon, Negro)]

  const COORDENADAS_INICIALES: seq<Coordenada> := [
    Coordenada(0, 0), Coordenada(6, 6),
    Coordenada(0, 1), Coordenada(0, 2), Coordenada(0, 3),
    Coordenada(1, 0), Coordenada(2, 0), Coordenada(3, 0),
    Coordenada(3, 6), Coordenada(4, 6), Coordenada(5, 6),
    Coordenada(6, 3), Coordenada(6, 4), Coordenada(6, 5)]

  /** colocarPiezasConfiguracionInicial applied to a referee newly built on an empty board. */
  function Inicial(): EstadoArbitro
  {
    EstadoArbitro(Colocadas(Vacia(), PIEZAS_INICIALES, COORDENADAS_INICIALES), 0, Some(Blanco), [], [])
  }

  /** The opening layout cell by cell: queens in opposite corners, six pawns of each side along
      the two edges next to their queen. */
  function Apertura(c: Coordenada): Option<Pieza>
  {
    if c == Coordenada(0, 0) then Some(Pieza(Reina, Blanco))
    else if c == Coordenada(6, 6) then Some(Pieza(Reina, Negro))
    else if (c.fila == 0 && 1 <= c.columna <= 3) || (c.columna == 0 && 1 <= c.fila <= 3) then Some(Pieza(Peon, Blanco))
    else if (c.columna == 6 && 3 <= c.fila <= 5) || (c.fila == 6 && 3 <= c.columna <= 5) then Some(Pieza(Peon, Negro))
    else None
  }

  /** The opening list names fourteen distinct cells, all on the board. */
  lemma CoordenadasInicialesDistintas()
    ensures |PIEZAS_INICIALES| == |COORDENADAS_INICIALES| == 14
    ensures forall i :: 0 <= i < 14 ==> EstaEnTablero(COORDENADAS_INICIALES[i])
    ensures forall i, k :: 0 <= i < k < 14 ==> COORDENADAS_INICIALES[i] != COORDENADAS_INICIALES[k]
  {
  }

  /** The opening list and the cell-by-cell layout agree: each listed cell holds its listed
      piece, and every other cell of the board is empty. */
  lemma AperturaDeLista()
    ensures forall i :: 0 <= i < 14 ==> Apertura(COORDENADAS_INICIALES[i]) == Some(PIEZAS_INICIALES[i])
    ensures forall c :: EstaEnTablero(c) && Apertura(c).Some? ==> c in COORDENADAS_INICIALES
  {
  }

  /** colocarPiezasConfiguracionInicial produces the opening layout on every cell, starts the
      game with White to move, no moves made, and both boxes empty; each side has its queen. */
  lemma {:induction false} InicialEsApertura()
    ensures forall c :: EstaEnTablero(c) ==> En(Inicial().tablero, c) == Apertura(c)
    ensures Inicial().turno == Some(Blanco) && Inicial().numeroJugadas == 0
    ensures Inicial().cajaBlancas == [] && Inicial().cajaNegras == []
    ensures HayReina(Inicial().tablero, Blanco) && HayReina(Inicial().tablero, Negro)
  {
    CoordenadasInicialesDistintas();
    AperturaDeLista();
    AperturaTotal(Inicial().tablero, PIEZAS_INICIALES, COORDENADAS_INICIALES);
    ReinasDeApertura(Inicial().tablero);
  }

  /** A board laid out as the opening holds both queens. */
  lemma ReinasDeApertura(g: Rejilla)
    requires forall c :: EstaEnTablero(c) ==> En(g, c) == Apertura(c)
    ensures HayReina(g, Blanco) && HayReina(g, Negro)
  {
    assert En(g, Coordenada(0, 0)) == Apertura(Coordenada(0, 0));
    assert En(g, Coordenada(6, 6)) == Apertura(Coordenada(6, 6));
    ReinaEn(g, Coordenada(0, 0), Blanco);
    ReinaEn(g, Coordenada(6, 6), Negro);
  }

  /** Placing a list of distinct cells on an empty board, each with the piece the opening
      layout gives it, and naming every occupied cell of that layout, yields the layout. */
  lemma AperturaTotal(g: Rejilla, piezas: seq<Pieza>, coordenadas: seq<Coordenada>)
    requires |piezas| == |coordenadas| && g == Colocadas(Vacia(), piezas, coordenadas)
    requires forall i, k :: 0 <= i < k < |coordenadas| ==> coordenadas[i] != coordenadas[k]
    requires forall i :: 0 <= i < |coordenadas| ==> Apertura(coordenadas[i]) == Some(piezas[i])
    requires forall c :: EstaEnTablero(c) && Apertura(c).Some? ==> c in coordenadas
    ensures forall c :: EstaEnTablero(c) ==> En(g, c) == Apertura(c)
  {
    forall c | EstaEnTablero(c)
      ensures En(g, c) == Apertura(c)
    {
      AperturaEn(g, piezas, coordenadas, c);
    }
  }

  /** One cell of such a placement. */
  lemma AperturaEn(g: Rejilla, piezas: seq<Pieza>, coordenadas: seq<Coordenada>, c: Coordenada)
    requires |piezas| == |coordenadas| && g == Colocadas(Vacia(), piezas, coordenadas) && EstaEnTablero(c)
    requires forall i, k :: 0 <= i < k < |coordenadas| ==> coordenadas[i] != coordenadas[k]
    requires forall i :: 0 <= i < |coordenadas| ==> Apertura(coordenadas[i]) == Some(piezas[i])
    requires Apertura(c).Some? ==> c in coordenadas
    ensures En(g, c) == Apertura(c)
  {
    if c in coordenadas {
      var i :| 0 <= i < |coordenadas| && coordenadas[i] == c;
      ColocadasUltima(Vacia(), piezas, coordenadas, c, i);
    } else {
      ColocadasAusente(Vacia(), piezas, coordenadas, c);
    }
  }

  // ---------------------------------------------------------------- winner and game over

  /** consultarTurnoGanador: no queen at all gives no winner; a missing White queen makes
      Black the winner; otherwise a missing Black queen makes White the winner; otherwise a
      queen on the centre cell wins for its side. */
  function Ganador(g: Rejilla): (r: Option<Color>)
    ensures r.Some? ==> HayReina(g, r.value)
  {
    if HayReina(g, Blanco) || HayReina(g, Negro) then
      if !HayReina(g, Blanco) then Some(Negro)
      else if !HayReina(g, Negro) then Some(Blanco)
      else if EstaReinaEnElCentro(g, Blanco) then Some(Blanco)
      else if EstaReinaEnElCentro(g, Negro) then Some(Negro)
      else None
    else None
  }

  /** The winner stated without the source's order of tests: a side wins exactly when its queen
      is on the board and either the other queen is gone or its own queen holds the centre. */
  lemma GanadorSii(g: Rejilla, c: Color)
    ensures Ganador(g) == Some(c) <==>
      HayReina(g, c) && (!HayReina(g, Contrario(c)) || EstaReinaEnElCentro(g, c))
  {
    ReinaEnElCentro(g, c);
    ReinaEnElCentro(g, Contrario(c));
  }

  /** estaFinalizadaPartida: there is a winner, or no queen remains (a draw). */
  predicate Finalizada(g: Rejilla)
  {
    Ganador(g).Some? || (!HayReina(g, Blanco) && !HayReina(g, Negro))
  }

  /** The game is over exactly when a queen is missing or a queen holds the centre; with no
      queen at all it is over with no winner. */
  lemma FinalizadaSii(g: Rejilla)
    ensures Finalizada(g) <==>
      !HayReina(g, Blanco) || !HayReina(g, Negro) || EstaReinaEnElCentro(g, Blanco) || EstaReinaEnElCentro(g, Negro)
    ensures !HayReina(g, Blanco) && !HayReina(g, Negro) ==> Finalizada(g) && Ganador(g).None?
  {
    ReinaEnElCentro(g, Blanco);
    ReinaEnElCentro(g, Negro);
  }

  // ---------------------------------------------------------------- legality

  /** esMovimientoLegal: the game is not over, both coordinates are on the board, the origin
      holds a piece of the side to move, the move keeps the row or the column, and its length
      equals the number of pieces in the origin's column (row move) or row (column move). */
  predicate Legal(e: EstadoArbitro, j: Jugada)
  {
    var o, d := j.origen, j.destino;
    !Finalizada(e.tablero) && EstaEnTablero(o) && EstaEnTablero(d) &&
    En(e.tablero, o).Some? && Some(En(e.tablero, o).value.color) == e.turno &&
    (o.fila == d.fila || o.columna == d.columna) &&
    var horizontal := o.fila == d.fila;
    var enPerpendicular := if horizontal then NumeroPiezasEnVertical(e.tablero, o) else NumeroPiezasEnHorizontal(e.tablero, o);
    var distancia := if horizontal then Abs(d.columna - o.columna) else Abs(d.fila - o.fila);
    distancia == enPerpendicular
  }

  /** The pieces on the line perpendicular to direction `s` through `o`. */
  function PiezasEnPerpendicular(g: Rejilla, o: Coordenada, s: Sentido): nat
  {
    if EsHorizontal(s) then NumeroPiezasEnVertical(g, o) else NumeroPiezasEnHorizontal(g, o)
  }

  /** The legality law stated through the direction: a legal move has a direction (so origin
      and destination differ), and its distance along that direction is the perpendicular
      count, which is at least 1 because the origin itself is occupied. */
  lemma {:induction false} LegalSii(e: EstadoArbitro, j: Jugada)
    ensures Legal(e, j) <==>
      !Finalizada(e.tablero) && EstaEnTablero(j.origen) && EstaEnTablero(j.destino) &&
      En(e.tablero, j.origen).Some? && Some(En(e.tablero, j.origen).value.color) == e.turno &&
      CalcularSentido(j.origen, j.destino).Some? &&
      DistanciaEnSentido(j.origen, j.destino, CalcularSentido(j.origen, j.destino).value) ==
        PiezasEnPerpendicular(e.tablero, j.origen, CalcularSentido(j.origen, j.destino).value)
    ensures Legal(e, j) ==> j.origen != j.destino
  {
    var o, d, g := j.origen, j.destino, e.tablero;
    if EstaEnTablero(o) && En(g, o).Some? {
      assert Ocupada(g, o);
      assert NumeroPiezasEnVertical(g, o) >= 1 && NumeroPiezasEnHorizontal(g, o) >= 1;
    }
  }

  // ---------------------------------------------------------------- push resolution

  /** hayPiezaEntreOrigenYDestino: with a direction, some cell after the origin up to and
      including the destination is occupied; false for identical or diagonal points. */
  predicate HayPiezaEntre(g: Rejilla, o: Coordenada, d: Coordenada)
  {
    var s := CalcularSentido(o, d);
    s.Some? && exists k :: 1 <= k <= DistanciaEnSentido(o, d, s.value) && Ocupada(g, Desplazar(o, s.value, k))
  }

  /** How many cells lie after `o` in direction `s` up to the board edge (the end column or
      row of the scan is 6 or 0). */
  function PasosHastaBorde(o: Coordenada, s: Sentido): int
  {
    match s
    case HorizontalE => (TAMANO - 1) - o.columna
    case HorizontalO => o.columna
    case VerticalS => (TAMANO - 1) - o.fila
    case VerticalN => o.fila
  }

  /** `c` lies on the line through `o` strictly beyond `o` in direction `s`. */
  predicate Adelante(o: Coordenada, s: Sentido, c: Coordenada)
  {
    match s
    case HorizontalE => c.fila == o.fila && c.columna > o.columna
    case HorizontalO => c.fila == o.fila && c.columna < o.columna
    case VerticalS => c.columna == o.columna && c.fila > o.fila
    case VerticalN => c.columna == o.columna && c.fila < o.fila
  }

  /** The scan of obtenerPiezasEnTrayectoria from offset `k` on, having collected `antes` and
      passed `vacias` empty cells: an occupied cell is appended, an empty one counted, and the
      scan stops right after the empty cell that makes the count reach `perpendicular`, or at
      the board edge, returning what it has collected. */
  function Recorrido(g: Rejilla, o: Coordenada, s: Sentido, perpendicular: int, k: int, vacias: int,
                     antes: seq<Coordenada>): seq<Coordenada>
    decreases PasosHastaBorde(o, s) + 1 - k
  {
    if k > PasosHastaBorde(o, s) then antes
    else
      var c := Desplazar(o, s, k);
      var ocupada := Ocupada(g, c);
      var vacias' := if ocupada then vacias else vacias + 1;
      var despues := if ocupada then antes + [c] else antes;
      if vacias' == perpendicular then despues
      else Recorrido(g, o, s, perpendicular, k + 1, vacias', despues)
  }

  /** obtenerPiezasEnTrayectoria: the occupied coordinates the push collects, origin-nearest
      first, with the perpendicular count of the origin as the budget of empty cells. */
  function Trayectoria(g: Rejilla, o: Coordenada, s: Sentido): (cs: seq<Coordenada>)
    ensures forall c :: c in cs ==> Ocupada(g, c) && Adelante(o, s, c)
  {
    RecorridoAdelante(g, o, s, PiezasEnPerpendicular(g, o, s), 1, 0, []);
    Recorrido(g, o, s, PiezasEnPerpendicular(g, o, s), 1, 0, [])
  }

  /** Every coordinate the scan adds is an occupied on-board cell beyond the origin. */
  lemma {:induction false} RecorridoAdelante(g: Rejilla, o: Coordenada, s: Sentido, perpendicular: int, k: int,
                                             vacias: int, antes: seq<Coordenada>)
    requires k >= 1
    requires forall c :: c in antes ==> Ocupada(g, c) && Adelante(o, s, c)
    ensures forall c :: c in Recorrido(g, o, s, perpendicular, k, vacias, antes) ==> Ocupada(g, c) && Adelante(o, s, c)
    decreases PasosHastaBorde(o, s) + 1 - k
  {
    if k <= PasosHastaBorde(o, s) {
      var c := Desplazar(o, s, k);
      var vacias' := if Ocupada(g, c) then vacias else vacias + 1;
      var despues := if Ocupada(g, c) then antes + [c] else antes;
      assert forall d :: d in despues ==> d in antes || d == c;
      if vacias' != perpendicular {
        RecorridoAdelante(g, o, s, perpendicular, k + 1, vacias', despues);
      }
    }
  }

  // ---------------------------------------------------------------- the scan, characterised

  /** How far `c` lies from `o` along direction `s`; negative behind the origin. */
  function Avance(o: Coordenada, s: Sentido, c: Coordenada): int
  {
    match s
    case HorizontalE => c.columna - o.columna
    case HorizontalO => o.columna - c.columna
    case VerticalS => c.fila - o.fila
    case VerticalN => o.fila - c.fila
  }

  /** Moving `k` steps along `s` advances by `k`, and stays beyond the origin from beyond it. */
  lemma AvanceDesplazar(o: Coordenada, s: Sentido, c: Coordenada, k: int)
    ensures Avance(o, s, Desplazar(c, s, k)) == Avance(o, s, c) + k
    ensures Adelante(o, s, c) && k >= 0 ==> Adelante(o, s, Desplazar(c, s, k))
    ensures Adelante(o, s, Desplazar(o, s, k)) <==> k > 0
  {
  }

  /** A cell beyond the origin is determined by how far it lies. */
  lemma AdelanteUnica(o: Coordenada, s: Sentido, a: Coordenada, b: Coordenada)
    requires Adelante(o, s, a) && Adelante(o, s, b) && Avance(o, s, a) == Avance(o, s, b)
    ensures a == b
  {
  }

  /** The cells of `cs` lie at strictly increasing distances from `o`: nearest first. */
  predicate EnOrden(o: Coordenada, s: Sentido, cs: seq<Coordenada>)
  {
    forall i, j :: 0 <= i < j < |cs| ==> Avance(o, s, cs[i]) < Avance(o, s, cs[j])
  }

  /** The number of empty cells among the first `k` cells after the origin. */
  function VaciasHasta(g: Rejilla, o: Coordenada, s: Sentido, k: int): nat
    decreases k
  {
    if k <= 0 then 0
    else VaciasHasta(g, o, s, k - 1) + (if Ocupada(g, Desplazar(o, s, k)) then 0 else 1)
  }

  /** The occupied cells among the first `n` cells after the origin, nearest first. */
  function PiezasHasta(g: Rejilla, o: Coordenada, s: Sentido, n: int): seq<Coordenada>
    decreases n
  {
    if n <= 0 then []
    else PiezasHasta(g, o, s, n - 1) + (if Ocupada(g, Desplazar(o, s, n)) then [Desplazar(o, s, n)] else [])
  }

  /** `n` is where the scan with budget `perpendicular` stops: the first offset at which the
      number of empty cells passed reaches the budget, or the board edge when none does. */
  predicate EsParada(g: Rejilla, o: Coordenada, s: Sentido, perpendicular: int, n: int)
  {
    var borde := PasosHastaBorde(o, s);
    (1 <= n <= borde && VaciasHasta(g, o, s, n) == perpendicular &&
     forall k :: 1 <= k < n ==> VaciasHasta(g, o, s, k) != perpendicular) ||
    (n == borde && forall k :: 1 <= k <= borde ==> VaciasHasta(g, o, s, k) != perpendicular)
  }

  /** At most one offset is the stop. */
  lemma ParadaUnica(g: Rejilla, o: Coordenada, s: Sentido, perpendicular: int, n: int, m: int)
    requires EsParada(g, o, s, perpendicular, n) && EsParada(g, o, s, perpendicular, m)
    ensures n == m
  {
  }

  /** The stop of the scan with budget `perpendicular`. */
  function Parada(g: Rejilla, o: Coordenada, s: Sentido, perpendicular: int): (n: int)
    ensures EsParada(g, o, s, perpendicular, n)
  {
    ParadaDesde(g, o, s, perpendicular, 1)
  }

  /** The stop, searched from offset `k` once no earlier offset is one. */
  function ParadaDesde(g: Rejilla, o: Coordenada, s: Sentido, perpendicular: int, k: int): (n: int)
    requires k >= 1
    requires forall i :: 1 <= i < k ==> VaciasHasta(g, o, s, i) != perpendicular
    ensures EsParada(g, o, s, perpendicular, n)
    decreases PasosHastaBorde(o, s) + 1 - k
  {
    if k > PasosHastaBorde(o, s) then PasosHastaBorde(o, s)
    else if VaciasHasta(g, o, s, k) == perpendicular then k
    else ParadaDesde(g, o, s, perpendicular, k + 1)
  }

  /** A cell is among the first `n` occupied ones exactly when it is occupied and lies
      1..n cells after the origin. */
  lemma {:induction false} PiezasHastaMiembro(g: Rejilla, o: Coordenada, s: Sentido, n: int)
    ensures forall c :: c in PiezasHasta(g, o, s, n) <==>
      exists k :: 1 <= k <= n && c == Desplazar(o, s, k) && Ocupada(g, c)
    decreases n
  {
    if n > 0 {
      PiezasHastaMiembro(g, o, s, n - 1);
    }
  }

  /** The first `n` occupied cells lie beyond the origin, at most `n` cells on, nearest first. */
  lemma {:induction false} PiezasHastaOrden(g: Rejilla, o: Coordenada, s: Sentido, n: int)
    ensures var cs := PiezasHasta(g, o, s, n);
      EnOrden(o, s, cs) && forall c :: c in cs ==> Adelante(o, s, c) && Avance(o, s, c) <= n
    decreases n
  {
    if n > 0 {
      PiezasHastaOrden(g, o, s, n - 1);
      var c := Desplazar(o, s, n);
      AvanceDesplazar(o, s, o, n);
      var antes := PiezasHasta(g, o, s, n - 1);
      if Ocupada(g, c) {
        var cs := antes + [c];
        forall i, j | 0 <= i < j < |cs|
          ensures Avance(o, s, cs[i]) < Avance(o, s, cs[j])
        {
          assert cs[i] == antes[i] && antes[i] in antes;
          if j < |antes| {
            assert cs[j] == antes[j];
          }
        }
        forall x | x in cs
          ensures Adelante(o, s, x) && Avance(o, s, x) <= n
        {
          if x != c {
            assert x in antes;
          }
        }
      }
    }
  }

  /** One step of the scan at offset `k`, from the counts before `k` and with no stop before
      `k`: past the edge, or at the stop, it returns the cells up to the stop; otherwise it
      goes on to `k + 1` with the counts up to `k`. */
  lemma RecorridoPaso(g: Rejilla, o: Coordenada, s: Sentido, perpendicular: int, k: int, n: int)
    requires 1 <= k <= PasosHastaBorde(o, s) + 1
    requires EsParada(g, o, s, perpendicular, n)
    requires forall i :: 1 <= i < k ==> VaciasHasta(g, o, s, i) != perpendicular
    ensures var r := Recorrido(g, o, s, perpendicular, k, VaciasHasta(g, o, s, k - 1), PiezasHasta(g, o, s, k - 1));
      (k > PasosHastaBorde(o, s) || VaciasHasta(g, o, s, k) == perpendicular ==> r == PiezasHasta(g, o, s, n)) &&
      (k <= PasosHastaBorde(o, s) && VaciasHasta(g, o, s, k) != perpendicular ==>
        r == Recorrido(g, o, s, perpendicular, k + 1, VaciasHasta(g, o, s, k), PiezasHasta(g, o, s, k)))
  {
    if k > PasosHastaBorde(o, s) {
      ParadaUnica(g, o, s, perpendicular, n, k - 1);
    } else {
      var c := Desplazar(o, s, k);
      var antes := PiezasHasta(g, o, s, k - 1);
      assert VaciasHasta(g, o, s, k) == VaciasHasta(g, o, s, k - 1) + (if Ocupada(g, c) then 0 else 1);
      assert PiezasHasta(g, o, s, k) == if Ocupada(g, c) then antes + [c] else antes;
      if VaciasHasta(g, o, s, k) == perpendicular {
        ParadaUnica(g, o, s, perpendicular, n, k);
      }
    }
  }

  /** The scan from offset `k`, having passed no stop, having counted the empty cells and
      collected the occupied cells before `k`, returns the occupied cells up to the stop. */
  lemma {:induction false} RecorridoHastaParada(g: Rejilla, o: Coordenada, s: Sentido, perpendicular: int, k: int, n: int)
    requires 1 <= k <= PasosHastaBorde(o, s) + 1
    requires EsParada(g, o, s, perpendicular, n)
    requires forall i :: 1 <= i < k ==> VaciasHasta(g, o, s, i) != perpendicular
    ensures Recorrido(g, o, s, perpendicular, k, VaciasHasta(g, o, s, k - 1), PiezasHasta(g, o, s, k - 1)) ==
            PiezasHasta(g, o, s, n)
    decreases PasosHastaBorde(o, s) + 1 - k
  {
    RecorridoPaso(g, o, s, perpendicular, k, n);
    if k <= PasosHastaBorde(o, s) && VaciasHasta(g, o, s, k) != perpendicular {
      var vacias, antes := VaciasHasta(g, o, s, k), PiezasHasta(g, o, s, k);
      assert forall i :: 1 <= i < k + 1 ==> VaciasHasta(g, o, s, i) != perpendicular;
      RecorridoHastaParada(g, o, s, perpendicular, k + 1, n);
      assert Recorrido(g, o, s, perpendicular, k + 1, vacias, antes) == PiezasHasta(g, o, s, n);
    }
  }

  /** obtenerPiezasEnTrayectoria, characterised: from an on-board origin the push collects
      exactly the occupied cells that lie 1 up to the stop cells after the origin, nearest
      first, and every one of them is beyond the origin. */
  lemma TrayectoriaCaracterizada(g: Rejilla, o: Coordenada, s: Sentido)
    requires EstaEnTablero(o)
    ensures var cs, n := Trayectoria(g, o, s), Parada(g, o, s, PiezasEnPerpendicular(g, o, s));
      cs == PiezasHasta(g, o, s, n) &&
      (forall c :: c in cs <==> exists k :: 1 <= k <= n && c == Desplazar(o, s, k) && Ocupada(g, c)) &&
      EnOrden(o, s, cs) && (forall c :: c in cs ==> Adelante(o, s, c))
  {
    var n := Parada(g, o, s, PiezasEnPerpendicular(g, o, s));
    RecorridoHastaParada(g, o, s, PiezasEnPerpendicular(g, o, s), 1, n);
    PiezasHastaMiembro(g, o, s, n);
    PiezasHastaOrden(g, o, s, n);
  }

  /** hayPiezaEntreOrigenYDestino in terms of the cells themselves: the move has a direction
      and some occupied cell lies beyond the origin and not beyond the destination. */
  lemma HayPiezaEntreSii(g: Rejilla, o: Coordenada, d: Coordenada)
    ensures HayPiezaEntre(g, o, d) <==>
      CalcularSentido(o, d).Some? &&
      exists c :: Ocupada(g, c) && Adelante(o, CalcularSentido(o, d).value, c) &&
        Avance(o, CalcularSentido(o, d).value, c) <= Avance(o, CalcularSentido(o, d).value, d)
  {
    if CalcularSentido(o, d).Some? {
      var s := CalcularSentido(o, d).value;
      var distancia := DistanciaEnSentido(o, d, s);
      SentidoYDistanciaLlevanAlDestino(o, d);
      AvanceDesplazar(o, s, o, distancia);
      if HayPiezaEntre(g, o, d) {
        var k :| 1 <= k <= distancia && Ocupada(g, Desplazar(o, s, k));
        AvanceDesplazar(o, s, o, k);
      }
      if c :| Ocupada(g, c) && Adelante(o, s, c) && Avance(o, s, c) <= Avance(o, s, d) {
        var k := Avance(o, s, c);
        AvanceDesplazar(o, s, o, k);
        AdelanteUnica(o, s, c, Desplazar(o, s, k));
      }
    }
  }

  /** The scan ends through its early return: some offset up to the edge is the stop. */
  predicate SeDetiene(g: Rejilla, o: Coordenada, s: Sentido)
  {
    exists k :: 1 <= k <= PasosHastaBorde(o, s) && VaciasHasta(g, o, s, k) == PiezasEnPerpendicular(g, o, s)
  }

  /** obtenerPiezasEnTrayectoria returns normally: a scan that runs to the edge goes on to read
      the side of the piece on the origin, which throws unless the origin holds one. */
  predicate TrayectoriaSinExcepcion(g: Rejilla, o: Coordenada, s: Sentido)
  {
    Ocupada(g, o) || SeDetiene(g, o, s)
  }

  /** empujar returns normally: the scan runs only when a piece lies in the way. */
  predicate EmpujeSinExcepcion(g: Rejilla, j: Jugada)
  {
    HayPiezaEntre(g, j.origen, j.destino) ==>
      TrayectoriaSinExcepcion(g, j.origen, CalcularSentido(j.origen, j.destino).value)
  }

  /** The empty-cell count never decreases along the scan. */
  lemma {:induction false} VaciasCrece(g: Rejilla, o: Coordenada, s: Sentido, k: int, m: int)
    requires k <= m
    ensures VaciasHasta(g, o, s, k) <= VaciasHasta(g, o, s, m)
    decreases m - k
  {
    if k < m {
      VaciasCrece(g, o, s, k, m - 1);
    }
  }

  /** With column 0 and the cell (0,1) empty, the scan east from (0,0) has a budget of 0 empty
      cells and never meets it, since it passes an empty cell at once; so it runs to the edge
      and reads the empty origin. */
  lemma ColumnaVaciaSinParada(g: Rejilla)
    requires forall k :: 0 <= k < TAMANO ==> !Ocupada(g, Coordenada(k, 0))
    requires !Ocupada(g, Coordenada(0, 1))
    ensures !SeDetiene(g, Coordenada(0, 0), HorizontalE)
    ensures !TrayectoriaSinExcepcion(g, Coordenada(0, 0), HorizontalE)
  {
    var o, s := Coordenada(0, 0), HorizontalE;
    assert PiezasEnPerpendicular(g, o, s) == 0;
    assert Desplazar(o, s, 1) == Coordenada(0, 1);
    assert VaciasHasta(g, o, s, 1) == 1;
    forall k | 1 <= k <= PasosHastaBorde(o, s)
      ensures VaciasHasta(g, o, s, k) != 0
    {
      VaciasCrece(g, o, s, 1, k);
    }
  }

  /** A piece at (0,2) lies in the way of the move (0,0) to (0,2), which runs east. */
  lemma PiezaEntre00Y02(g: Rejilla)
    requires Ocupada(g, Coordenada(0, 2))
    ensures CalcularSentido(Coordenada(0, 0), Coordenada(0, 2)) == Some(HorizontalE)
    ensures HayPiezaEntre(g, Coordenada(0, 0), Coordenada(0, 2))
  {
    var o, d, s := Coordenada(0, 0), Coordenada(0, 2), HorizontalE;
    assert DistanciaEnSentido(o, d, s) == 2;
    assert Desplazar(o, s, 2) == d;
  }

  /** A push that empujar cannot complete: on a board whose only piece stands at (0,2), the
      move (0,0) to (0,2) has a piece in the way, and the scan runs to the edge and then reads
      the empty origin. */
  lemma EmpujeConOrigenVacioLanza(g: Rejilla)
    requires Ocupada(g, Coordenada(0, 2))
    requires forall x :: x != Coordenada(0, 2) ==> !Ocupada(g, x)
    ensures var j := Jugada(Coordenada(0, 0), Coordenada(0, 2));
      HayPiezaEntre(g, j.origen, j.destino) && !EmpujeSinExcepcion(g, j)
  {
    PiezaEntre00Y02(g);
    forall k | 0 <= k < TAMANO
      ensures !Ocupada(g, Coordenada(k, 0))
    {
      assert Coordenada(k, 0) != Coordenada(0, 2);
    }
    assert !Ocupada(g, Coordenada(0, 1));
    ColumnaVaciaSinParada(g);
  }

  /** manejarPiezaExpulsada: an ejected piece goes to the box of its own side. */
  function Expulsada(e: EstadoArbitro, p: Pieza): (r: EstadoArbitro)
    ensures r.tablero == e.tablero && r.numeroJugadas == e.numeroJugadas && r.turno == e.turno
    ensures p.color == Blanco ==> r.cajaBlancas == Anadida(e.cajaBlancas, Blanco, Some(p)) && r.cajaNegras == e.cajaNegras
    ensures p.color == Negro ==> r.cajaNegras == Anadida(e.cajaNegras, Negro, Some(p)) && r.cajaBlancas == e.cajaBlancas
  {
    if p.color == Blanco then e.(cajaBlancas := Anadida(e.cajaBlancas, Blanco, Some(p)))
    else e.(cajaNegras := Anadida(e.cajaNegras, Negro, Some(p)))
  }

  /** One step of moverPiezasIntermedias: the piece at `c` (if any) leaves its cell and lands
      `distancia` cells further in direction `s`, replacing whatever is there; a landing cell
      off the board sends it to its side's box instead. */
  function MoverUna(e: EstadoArbitro, c: Coordenada, s: Sentido, distancia: int): (r: EstadoArbitro)
    requires EstaEnTablero(c)
    ensures r.numeroJugadas == e.numeroJugadas && r.turno == e.turno
  {
    var g := e.tablero;
    if En(g, c).None? then e
    else
      var p := En(g, c).value;
      var nueva := Desplazar(c, s, distancia);
      var vaciada := Fijada(g, c, None);
      if !EstaEnTablero(nueva) then Expulsada(e.(tablero := vaciada), p)
      else e.(tablero := Fijada(vaciada, nueva, Some(p)))
  }

  /** moverPiezasIntermedias: the collected coordinates are processed from the last (farthest)
      to the first. */
  function MoverIntermedias(e: EstadoArbitro, cs: seq<Coordenada>, s: Sentido, distancia: int): (r: EstadoArbitro)
    requires forall c :: c in cs ==> EstaEnTablero(c)
    ensures r.numeroJugadas == e.numeroJugadas && r.turno == e.turno
    decreases |cs|
  {
    if cs == [] then e
    else MoverIntermedias(MoverUna(e, cs[|cs| - 1], s, distancia), cs[..|cs| - 1], s, distancia)
  }

  /** Processing the first `i + 1` collected coordinates is processing the `i`-th, then the
      first `i`. */
  lemma MoverIntermediasPaso(e: EstadoArbitro, cs: seq<Coordenada>, s: Sentido, distancia: int, i: int)
    requires forall c :: c in cs ==> EstaEnTablero(c)
    requires 0 <= i < |cs|
    ensures MoverIntermedias(e, cs[..i + 1], s, distancia) ==
            MoverIntermedias(MoverUna(e, cs[i], s, distancia), cs[..i], s, distancia)
  {
    assert cs[..i + 1][..i] == cs[..i];
  }

  /** empujar: if some cell after the origin up to the destination is occupied, the collected
      pieces are shifted by the move's distance first; then the origin is emptied, the
      destination receives what the origin held, and the counter rises by one. */
  function Empujado(e: EstadoArbitro, j: Jugada): EstadoArbitro
    requires EstaEnTablero(j.origen) && EstaEnTablero(j.destino) && EmpujeSinExcepcion(e.tablero, j)
  {
    var o, d := j.origen, j.destino;
    var tras := TrasIntermedias(e, o, d);
    tras.(tablero := Fijada(Eliminada(tras.tablero, o), d, En(e.tablero, o)), numeroJugadas := e.numeroJugadas + 1)
  }

  /** The state once the pieces in the way (if any) have been shifted, before the moving piece
      itself leaves the origin. */
  function TrasIntermedias(e: EstadoArbitro, o: Coordenada, d: Coordenada): EstadoArbitro
  {
    if HayPiezaEntre(e.tablero, o, d) then
      var s := CalcularSentido(o, d).value;
      MoverIntermedias(e, Trayectoria(e.tablero, o, s), s, DistanciaEnSentido(o, d, s))
    else e
  }

  /** One ply as both undo mechanisms perform it: a legal move is pushed and the turn passes;
      an illegal one changes nothing. */
  function Jugado(e: EstadoArbitro, j: Jugada): EstadoArbitro
  {
    if Legal(e, j) then ConTurnoCambiado(Empujado(e, j)) else e
  }

  // ---------------------------------------------------------------- push laws

  /** `r` keeps the move counter and the turn of `e`, and each of its boxes extends the
      corresponding box of `e`. */
  predicate Crece(e: EstadoArbitro, r: EstadoArbitro)
  {
    r.numeroJugadas == e.numeroJugadas && r.turno == e.turno &&
    e.cajaBlancas <= r.cajaBlancas && e.cajaNegras <= r.cajaNegras
  }

  /** A cell `distancia >= 0` further on from a cell beyond the origin is beyond the origin. */
  lemma AdelanteDesplazado(o: Coordenada, s: Sentido, c: Coordenada, distancia: int)
    requires Adelante(o, s, c) && distancia >= 0
    ensures Adelante(o, s, Desplazar(c, s, distancia))
  {
  }

  /** One intermediate move touches only the cell it empties and the cell it lands on, adds at
      most the moved piece to a box, and keeps the boxes valid. */
  lemma MoverUnaMarco(e: EstadoArbitro, c: Coordenada, s: Sentido, distancia: int)
    requires EstaEnTablero(c)
    ensures var r := MoverUna(e, c, s, distancia);
      Crece(e, r) && (CajasValidas(e) ==> CajasValidas(r)) &&
      (forall x :: EstaEnTablero(x) && x != c && x != Desplazar(c, s, distancia) ==> En(r.tablero, x) == En(e.tablero, x))
  {
  }

  /** Moving the collected pieces touches only cells beyond the origin, keeps counter and
      turn, only extends the boxes, and keeps them valid. */
  lemma {:induction false} MoverIntermediasMarco(e: EstadoArbitro, cs: seq<Coordenada>, s: Sentido, distancia: int, o: Coordenada)
    requires forall c :: c in cs ==> EstaEnTablero(c) && Adelante(o, s, c)
    requires distancia >= 0
    ensures var r := MoverIntermedias(e, cs, s, distancia);
      Crece(e, r) && (CajasValidas(e) ==> CajasValidas(r)) &&
      (forall x :: EstaEnTablero(x) && !Adelante(o, s, x) ==> En(r.tablero, x) == En(e.tablero, x))
    decreases |cs|
  {
    if cs != [] {
      var c := cs[|cs| - 1];
      var e' := MoverUna(e, c, s, distancia);
      MoverUnaMarco(e, c, s, distancia);
      AdelanteDesplazado(o, s, c, distancia);
      assert forall x :: x in cs[..|cs| - 1] ==> x in cs;
      MoverIntermediasMarco(e', cs[..|cs| - 1], s, distancia, o);
    }
  }

  /** One intermediate move of a piece at `c`, `distancia != 0` cells along `s`: an empty cell
      changes nothing; otherwise `c` is left empty and the piece either lands on its cell,
      boxes unchanged, or goes off the board and is offered to the boxes. */
  lemma MoverUnaEfectos(e: EstadoArbitro, c: Coordenada, s: Sentido, distancia: int)
    requires EstaEnTablero(c) && distancia != 0
    ensures var r, destino := MoverUna(e, c, s, distancia), Desplazar(c, s, distancia);
      (En(e.tablero, c).None? ==> r == e) &&
      (En(e.tablero, c).Some? ==>
        En(r.tablero, c) == None &&
        (EstaEnTablero(destino) ==>
          En(r.tablero, destino) == En(e.tablero, c) &&
          r.cajaBlancas == e.cajaBlancas && r.cajaNegras == e.cajaNegras) &&
        (!EstaEnTablero(destino) ==>
          r.cajaBlancas == Anadida(e.cajaBlancas, Blanco, En(e.tablero, c)) &&
          r.cajaNegras == Anadida(e.cajaNegras, Negro, En(e.tablero, c))))
  {
    AvanceDesplazar(c, s, c, distancia);
  }

  /** `x` is neither one of the collected cells nor the landing cell of one. */
  predicate Intacta(cs: seq<Coordenada>, s: Sentido, distancia: int, x: Coordenada)
  {
    x !in cs && forall i :: 0 <= i < |cs| ==> x != Desplazar(cs[i], s, distancia)
  }

  /** The shift changes no cell that is neither collected nor a landing cell. */
  lemma {:induction false} MoverIntermediasFuera(e: EstadoArbitro, cs: seq<Coordenada>, s: Sentido, distancia: int)
    requires forall c :: c in cs ==> EstaEnTablero(c)
    ensures forall x :: EstaEnTablero(x) && Intacta(cs, s, distancia, x) ==>
      En(MoverIntermedias(e, cs, s, distancia).tablero, x) == En(e.tablero, x)
    decreases |cs|
  {
    if cs != [] {
      var n := |cs| - 1;
      var previas := cs[..n];
      var e' := MoverUna(e, cs[n], s, distancia);
      MoverUnaMarco(e, cs[n], s, distancia);
      assert forall c :: c in previas ==> c in cs;
      MoverIntermediasFuera(e', previas, s, distancia);
      forall x | EstaEnTablero(x) && Intacta(cs, s, distancia, x)
        ensures Intacta(previas, s, distancia, x)
      {
        forall i | 0 <= i < n
          ensures x != Desplazar(previas[i], s, distancia)
        {
          assert previas[i] == cs[i];
        }
      }
    }
  }

  /** The collected cells: on the board, beyond the origin, nearest first. */
  predicate Recogidas(o: Coordenada, s: Sentido, cs: seq<Coordenada>)
  {
    (forall c :: c in cs ==> EstaEnTablero(c) && Adelante(o, s, c)) && EnOrden(o, s, cs)
  }

  /** Dropping the farthest collected cell keeps the rest collected, and the farthest one and
      its landing cell lie beyond all of them and their landing cells. */
  lemma RecogidasPrevias(o: Coordenada, s: Sentido, cs: seq<Coordenada>, distancia: int)
    requires Recogidas(o, s, cs) && cs != [] && distancia > 0
    ensures var n := |cs| - 1; var previas, u := cs[..n], cs[n];
      Recogidas(o, s, previas) &&
      (forall i :: 0 <= i < n ==> previas[i] == cs[i]) &&
      Intacta(previas, s, distancia, u) == (forall i :: 0 <= i < n ==> u != Desplazar(cs[i], s, distancia)) &&
      Intacta(previas, s, distancia, Desplazar(u, s, distancia)) &&
      (forall i :: 0 <= i < n ==> cs[i] != u && cs[i] != Desplazar(u, s, distancia))
  {
    var n := |cs| - 1;
    var previas, u := cs[..n], cs[n];
    assert forall c :: c in previas ==> c in cs;
    AvanceDesplazar(o, s, u, distancia);
    forall i | 0 <= i < n
      ensures u != previas[i] && Desplazar(u, s, distancia) != previas[i]
      ensures Desplazar(u, s, distancia) != Desplazar(previas[i], s, distancia)
    {
      assert previas[i] == cs[i];
      AvanceDesplazar(o, s, cs[i], distancia);
    }
  }

  /** Moving the farthest collected piece leaves the nearer collected cells as they were. */
  lemma MoverUnaPrevias(e: EstadoArbitro, cs: seq<Coordenada>, s: Sentido, distancia: int, o: Coordenada)
    requires Recogidas(o, s, cs) && cs != [] && distancia > 0
    ensures var n := |cs| - 1; var e' := MoverUna(e, cs[n], s, distancia);
      forall i :: 0 <= i < n ==> En(e'.tablero, cs[i]) == En(e.tablero, cs[i])
  {
    var n := |cs| - 1;
    RecogidasPrevias(o, s, cs, distancia);
    MoverUnaMarco(e, cs[n], s, distancia);
  }

  /** Every collected piece that stays on the board ends `distancia` cells further on: a piece
      is moved before any nearer one, so nothing later lands on it or moves it again. */
  lemma {:induction false} MoverIntermediasDestinos(e: EstadoArbitro, cs: seq<Coordenada>, s: Sentido, distancia: int, o: Coordenada)
    requires Recogidas(o, s, cs) && distancia > 0
    requires forall c :: c in cs ==> Ocupada(e.tablero, c)
    ensures var r := MoverIntermedias(e, cs, s, distancia);
      forall i :: 0 <= i < |cs| && EstaEnTablero(Desplazar(cs[i], s, distancia)) ==>
        En(r.tablero, Desplazar(cs[i], s, distancia)) == En(e.tablero, cs[i])
    decreases |cs|
  {
    if cs != [] {
      var n := |cs| - 1;
      var previas, u := cs[..n], cs[n];
      var e' := MoverUna(e, u, s, distancia);
      var r := MoverIntermedias(e', previas, s, distancia);
      RecogidasPrevias(o, s, cs, distancia);
      MoverUnaPrevias(e, cs, s, distancia, o);
      forall c | c in previas
        ensures Ocupada(e'.tablero, c)
      {
        var i :| 0 <= i < n && previas[i] == c;
        assert c == cs[i] && c in cs;
      }
      MoverIntermediasDestinos(e', previas, s, distancia, o);
      forall i | 0 <= i < |cs| && EstaEnTablero(Desplazar(cs[i], s, distancia))
        ensures En(r.tablero, Desplazar(cs[i], s, distancia)) == En(e.tablero, cs[i])
      {
        if i < n {
          assert previas[i] == cs[i];
        } else {
          assert u in cs;
          MoverUnaEfectos(e, u, s, distancia);
          MoverIntermediasFuera(e', previas, s, distancia);
        }
      }
    }
  }

  /** The farthest collected cell, when no piece lands on it, is left empty: its own piece
      moves away first, and the nearer pieces land elsewhere. */
  lemma UltimaVacia(e: EstadoArbitro, cs: seq<Coordenada>, s: Sentido, distancia: int, o: Coordenada)
    requires Recogidas(o, s, cs) && cs != [] && distancia > 0
    requires forall k :: 0 <= k < |cs| ==> cs[|cs| - 1] != Desplazar(cs[k], s, distancia)
    ensures var n := |cs| - 1;
      En(MoverIntermedias(MoverUna(e, cs[n], s, distancia), cs[..n], s, distancia).tablero, cs[n]) == None
  {
    var n := |cs| - 1;
    var previas, u := cs[..n], cs[n];
    RecogidasPrevias(o, s, cs, distancia);
    MoverUnaEfectos(e, u, s, distancia);
    MoverIntermediasFuera(MoverUna(e, u, s, distancia), previas, s, distancia);
    assert Intacta(previas, s, distancia, u);
  }

  /** A collected cell on which no piece lands is left empty. */
  lemma {:induction false} MoverIntermediasVacias(e: EstadoArbitro, cs: seq<Coordenada>, s: Sentido, distancia: int, o: Coordenada)
    requires Recogidas(o, s, cs) && distancia > 0
    ensures var r := MoverIntermedias(e, cs, s, distancia);
      forall i :: 0 <= i < |cs| && (forall k :: 0 <= k < |cs| ==> cs[i] != Desplazar(cs[k], s, distancia)) ==>
        En(r.tablero, cs[i]) == None
    decreases |cs|
  {
    if cs != [] {
      var n := |cs| - 1;
      var previas, u := cs[..n], cs[n];
      var e' := MoverUna(e, u, s, distancia);
      var r := MoverIntermedias(e', previas, s, distancia);
      forall i | 0 <= i < |cs| && (forall k :: 0 <= k < |cs| ==> cs[i] != Desplazar(cs[k], s, distancia))
        ensures En(r.tablero, cs[i]) == None
      {
        if i < n {
          RecogidasPrevias(o, s, cs, distancia);
          MoverIntermediasVacias(e', previas, s, distancia, o);
          assert previas[i] == cs[i];
          forall k | 0 <= k < n
            ensures previas[i] != Desplazar(previas[k], s, distancia)
          {
            assert previas[k] == cs[k];
          }
        } else {
          UltimaVacia(e, cs, s, distancia, o);
        }
      }
    }
  }

  /** The pieces that leave the board, in the order the shift handles them (farthest first). */
  function Expulsadas(g: Rejilla, cs: seq<Coordenada>, s: Sentido, distancia: int): seq<Pieza>
    requires forall c :: c in cs ==> EstaEnTablero(c)
    decreases |cs|
  {
    if cs == [] then []
    else
      var u := cs[|cs| - 1];
      assert forall c :: c in cs[..|cs| - 1] ==> c in cs;
      (if En(g, u).Some? && !EstaEnTablero(Desplazar(u, s, distancia)) then [En(g, u).value] else []) +
      Expulsadas(g, cs[..|cs| - 1], s, distancia)
  }

  /** The pieces leaving the board depend only on the collected cells' contents. */
  lemma {:induction false} ExpulsadasIguales(g: Rejilla, h: Rejilla, cs: seq<Coordenada>, s: Sentido, distancia: int)
    requires forall c :: c in cs ==> EstaEnTablero(c) && En(g, c) == En(h, c)
    ensures Expulsadas(g, cs, s, distancia) == Expulsadas(h, cs, s, distancia)
    decreases |cs|
  {
    if cs != [] {
      assert forall c :: c in cs[..|cs| - 1] ==> c in cs;
      ExpulsadasIguales(g, h, cs[..|cs| - 1], s, distancia);
    }
  }

  /** Each box receives, in handling order, the pieces that leave the board, as añadir takes
      them: its own side's pieces until it is full. */
  lemma {:induction false} MoverIntermediasCajas(e: EstadoArbitro, cs: seq<Coordenada>, s: Sentido, distancia: int, o: Coordenada)
    requires Recogidas(o, s, cs) && distancia > 0
    ensures var r, fuera := MoverIntermedias(e, cs, s, distancia), Expulsadas(e.tablero, cs, s, distancia);
      r.cajaBlancas == AnadidasTodas(e.cajaBlancas, Blanco, fuera) &&
      r.cajaNegras == AnadidasTodas(e.cajaNegras, Negro, fuera)
    decreases |cs|
  {
    if cs != [] {
      var n := |cs| - 1;
      var previas, u := cs[..n], cs[n];
      var e' := MoverUna(e, u, s, distancia);
      RecogidasPrevias(o, s, cs, distancia);
      MoverUnaMarco(e, u, s, distancia);
      MoverUnaEfectos(e, u, s, distancia);
      ExpulsadasIguales(e.tablero, e'.tablero, previas, s, distancia);
      MoverIntermediasCajas(e', previas, s, distancia, o);
      var resto := Expulsadas(e.tablero, previas, s, distancia);
      if En(e.tablero, u).Some? && !EstaEnTablero(Desplazar(u, s, distancia)) {
        var fuera := [En(e.tablero, u).value] + resto;
        assert fuera[0] == En(e.tablero, u).value && fuera[1..] == resto;
      } else {
        assert Expulsadas(e.tablero, cs, s, distancia) == resto;
      }
    }
  }

  /** The effects of empujar: the counter rises by one and the turn stays; the destination
      receives what the origin held and the origin is emptied when they differ; cells other than
      origin and destination change only when some piece lay in the way, and then only beyond
      the origin in the move's direction; the boxes are only extended, stay valid, and stay as
      they were when nothing lay in the way. */
  lemma {:induction false} EmpujadoEfectos(e: EstadoArbitro, j: Jugada)
    requires EstaEnTablero(j.origen) && EstaEnTablero(j.destino) && EmpujeSinExcepcion(e.tablero, j)
    ensures var r, o, d := Empujado(e, j), j.origen, j.destino;
      r.numeroJugadas == e.numeroJugadas + 1 && r.turno == e.turno &&
      En(r.tablero, d) == En(e.tablero, o) &&
      (o != d ==> En(r.tablero, o) == None) &&
      e.cajaBlancas <= r.cajaBlancas && e.cajaNegras <= r.cajaNegras &&
      (CajasValidas(e) ==> CajasValidas(r))
    ensures var r, o, d := Empujado(e, j), j.origen, j.destino;
      !HayPiezaEntre(e.tablero, o, d) ==>
        r.cajaBlancas == e.cajaBlancas && r.cajaNegras == e.cajaNegras &&
        forall x :: EstaEnTablero(x) && x != o && x != d ==> En(r.tablero, x) == En(e.tablero, x)
    ensures var r, o, d := Empujado(e, j), j.origen, j.destino;
      HayPiezaEntre(e.tablero, o, d) ==>
        forall x :: EstaEnTablero(x) && x != o && x != d && !Adelante(o, CalcularSentido(o, d).value, x) ==>
          En(r.tablero, x) == En(e.tablero, x)
  {
    var o, d, g := j.origen, j.destino, e.tablero;
    if HayPiezaEntre(g, o, d) {
      var s := CalcularSentido(o, d).value;
      MoverIntermediasMarco(e, Trayectoria(g, o, s), s, DistanciaEnSentido(o, d, s), o);
    }
  }

  /** Where the pieces in the way go: every collected piece that stays on the board ends
      `distancia` cells further on (beyond the destination, so the moving piece never lands on
      it); a collected cell other than the destination on which no piece lands is left empty;
      every other cell that is neither collected nor landed on keeps its content; and each box
      receives the pieces pushed off the board as `añadir` takes them. */
  lemma EmpujadoDesplaza(e: EstadoArbitro, j: Jugada)
    requires EstaEnTablero(j.origen) && EstaEnTablero(j.destino) && EmpujeSinExcepcion(e.tablero, j)
    requires HayPiezaEntre(e.tablero, j.origen, j.destino)
    ensures var o, d, g := j.origen, j.destino, e.tablero;
      var s := CalcularSentido(o, d).value; var distancia := DistanciaEnSentido(o, d, s);
      var cs, r := Trayectoria(g, o, s), Empujado(e, j);
      (forall c :: c in cs && EstaEnTablero(Desplazar(c, s, distancia)) ==>
        En(r.tablero, Desplazar(c, s, distancia)) == En(g, c)) &&
      (forall c :: c in cs && c != d && (forall k :: 0 <= k < |cs| ==> c != Desplazar(cs[k], s, distancia)) ==>
        En(r.tablero, c) == None) &&
      (forall x :: EstaEnTablero(x) && x != o && x != d && Intacta(cs, s, distancia, x) ==> En(r.tablero, x) == En(g, x)) &&
      r.cajaBlancas == AnadidasTodas(e.cajaBlancas, Blanco, Expulsadas(g, cs, s, distancia)) &&
      r.cajaNegras == AnadidasTodas(e.cajaNegras, Negro, Expulsadas(g, cs, s, distancia))
  {
    var o, d, g := j.origen, j.destino, e.tablero;
    var s := CalcularSentido(o, d).value;
    var distancia := DistanciaEnSentido(o, d, s);
    var cs := Trayectoria(g, o, s);
    TrayectoriaCaracterizada(g, o, s);
    SentidoYDistanciaLlevanAlDestino(o, d);
    AvanceDesplazar(o, s, o, distancia);
    assert Recogidas(o, s, cs);
    assert forall c :: c in cs ==> Ocupada(e.tablero, c);
    var tras := MoverIntermedias(e, cs, s, distancia);
    assert TrasIntermedias(e, o, d) == tras;
    MoverIntermediasDestinos(e, cs, s, distancia, o);
    MoverIntermediasVacias(e, cs, s, distancia, o);
    MoverIntermediasCajas(e, cs, s, distancia, o);
    MoverIntermediasFuera(e, cs, s, distancia);
    forall c | c in cs
      ensures Desplazar(c, s, distancia) != o && Desplazar(c, s, distancia) != d && c != o
    {
      AvanceDesplazar(o, s, c, distancia);
    }
    forall c | c in cs && EstaEnTablero(Desplazar(c, s, distancia))
      ensures En(Empujado(e, j).tablero, Desplazar(c, s, distancia)) == En(g, c)
    {
      var i :| 0 <= i < |cs| && cs[i] == c;
    }
    forall c | c in cs && c != d && (forall k :: 0 <= k < |cs| ==> c != Desplazar(cs[k], s, distancia))
      ensures En(Empujado(e, j).tablero, c) == None
    {
      var i :| 0 <= i < |cs| && cs[i] == c;
    }
  }

  /** The same effects for one ply of a legal move, where origin and destination always differ
      and the turn then passes to the other side. */
  lemma JugadoLegal(e: EstadoArbitro, j: Jugada)
    requires Legal(e, j)
    ensures var r := Jugado(e, j);
      r.numeroJugadas == e.numeroJugadas + 1 && e.turno.Some? && r.turno == Some(Contrario(e.turno.value)) &&
      En(r.tablero, j.destino) == En(e.tablero, j.origen) && En(r.tablero, j.origen) == None &&
      (CajasValidas(e) ==> CajasValidas(r))
  {
    LegalSii(e, j);
    EmpujadoEfectos(e, j);
  }

  /** Any ply, legal or not, adds at most one to the counter, keeps the boxes valid and keeps
      a set turn set. */
  lemma JugadoCuenta(e: EstadoArbitro, j: Jugada)
    ensures var r := Jugado(e, j);
      (Legal(e, j) ==> r.numeroJugadas == e.numeroJugadas + 1 && r.turno == Some(Contrario(e.turno.value))) &&
      (!Legal(e, j) ==> r == e) &&
      (CajasValidas(e) ==> CajasValidas(r)) && (e.turno.Some? ==> r.turno.Some?)
  {
    if Legal(e, j) {
      JugadoLegal(e, j);
    }
  }

}
