/** The referee (src/noventagrados/control/Arbitro.java) as an object: it owns a board, the
    move counter, the turn and the two capture boxes, and changes them in place. Each method
    is proved to leave the state that the functions of module Reglas describe. */
module Arbitros {
  import opened Opciones
  import opened Colores
  import opened Coordenadas
  import opened Sentidos
  import opened Piezas
  import opened Jugadas
  import opened Celdas
  import opened Tableros
  import opened Cajas
  import opened Consultor
  import opened Reglas

  class Arbitro {
    var tablero: Tablero
    var numeroJugadas: nat
    var turnoActual: Option<Color>
    var cajaBlancas: Caja
    var cajaNegras: Caja
    ghost var Repr: set<object>

    /** The referee owns its board (and the board's cells) and one box per side. */
    ghost predicate Valid()
      reads this, Repr
    {
      Repr == {this, tablero, tablero.celdas, cajaBlancas, cajaNegras} &&
      tablero.Valid() && cajaBlancas.Valid() && cajaNegras.Valid() &&
      cajaBlancas.color == Blanco && cajaNegras.color == Negro
    }

    /** The referee's state as a value; both boxes always keep the box invariant. */
    function Estado(): (e: EstadoArbitro)
      reads this, Repr
      requires Valid()
      ensures CajasValidas(e)
    {
      EstadoArbitro(tablero.Contenido(), numeroJugadas, turnoActual, cajaBlancas.piezas, cajaNegras.piezas)
    }

    /** new Arbitro(tablero): takes the given board, no moves, no turn, two empty boxes. */
    constructor (t: Tablero)
      requires t.Valid()
      ensures Valid() && tablero == t && fresh(Repr - {t, t.celdas})
      ensures Estado() == Nuevo(t.Contenido())
    {
      tablero := t;
      numeroJugadas := 0;
      turnoActual := None;
      cajaBlancas := new Caja(Blanco);
      cajaNegras := new Caja(Negro);
      Repr := {this, t, t.celdas, cajaBlancas, cajaNegras};
    }

    /** cambiarTurno */
    method CambiarTurno()
      requires Valid()
      modifies this
      ensures Valid() && Repr == old(Repr)
      ensures Estado() == ConTurnoCambiado(old(Estado()))
    {
      turnoActual := if turnoActual == Some(Blanco) then Some(Negro) else Some(Blanco);
    }

    /** clonar: a referee sharing no object with this one and holding the same state. */
    method Clonar() returns (clon: Arbitro)
      requires Valid()
      ensures fresh(clon.Repr) && clon.Valid()
      ensures clon.Estado() == Estado()
    {
      var t := tablero.Clonar();
      clon := new Arbitro(t);
      clon.numeroJugadas := numeroJugadas;
      clon.turnoActual := turnoActual;
      var blancas := cajaBlancas.Clonar();
      var negras := cajaNegras.Clonar();
      clon.cajaBlancas := blancas;
      clon.cajaNegras := negras;
      clon.Repr := {clon, t, t.celdas, blancas, negras};
    }

    /** colocarPiezas: lists of different lengths are refused with an illegal-argument error and
        change nothing; otherwise each piece is placed at its coordinate in list order and the
        turn is set. */
    method ColocarPiezas(piezas: seq<Pieza>, coordenadas: seq<Coordenada>, turnoInicial: Color) returns (r: Resultado)
      requires Valid()
      modifies Repr
      ensures Valid() && Repr == old(Repr)
      ensures r == Fallo(ArgumentoIlegal) <==> |piezas| != |coordenadas|
      ensures r.Fallo? ==> Estado() == old(Estado())
      ensures r.Hecho? ==> |piezas| == |coordenadas|
      ensures r.Hecho? ==> Estado() == old(Estado()).(
        tablero := Colocadas(old(tablero.Contenido()), piezas, coordenadas), turno := Some(turnoInicial))
    {
      if |piezas| != |coordenadas| {
        return Fallo(ArgumentoIlegal);
      }
      for i := 0 to |piezas|
        invariant Valid() && Repr == old(Repr)
        invariant Estado() == old(Estado()).(tablero := Colocadas(old(tablero.Contenido()), piezas[..i], coordenadas[..i]))
      {
        tablero.Colocar(Some(piezas[i]), coordenadas[i]);
        assert piezas[..i + 1][..i] == piezas[..i];
        assert coordenadas[..i + 1][..i] == coordenadas[..i];
      }
      assert piezas[..|piezas|] == piezas && coordenadas[..|coordenadas|] == coordenadas;
      turnoActual := Some(turnoInicial);
      r := Hecho;
    }

    /** colocarPiezasConfiguracionInicial: the opening pieces at their opening cells, with White
        to move. */
    method ColocarPiezasConfiguracionInicial()
      requires Valid()
      modifies Repr
      ensures Valid() && Repr == old(Repr)
      ensures Estado() == old(Estado()).(
        tablero := Colocadas(old(tablero.Contenido()), PIEZAS_INICIALES, COORDENADAS_INICIALES),
        turno := Some(Blanco))
    {
      CoordenadasInicialesDistintas();
      var r := ColocarPiezas(PIEZAS_INICIALES, COORDENADAS_INICIALES, Blanco);
    }

    /** consultarCaja: the referee's own box of the given side (not a copy). */
    method ConsultarCaja(color: Color) returns (caja: Caja)
      requires Valid()
      ensures caja in Repr && caja.color == color
      ensures caja.piezas == (if color == Blanco then Estado().cajaBlancas else Estado().cajaNegras)
    {
      if color == Blanco {
        caja := cajaBlancas;
      } else {
        caja := cajaNegras;
      }
    }

    /** consultarNumeroJugada */
    function ConsultarNumeroJugada(): (n: nat)
      reads this, Repr
      requires Valid()
      ensures n == Estado().numeroJugadas
    {
      numeroJugadas
    }

    /** consultarTurno: None until a turn has been set. */
    function ConsultarTurno(): (turno: Option<Color>)
      reads this, Repr
      requires Valid()
      ensures turno == Estado().turno
    {
      turnoActual
    }

    /** consultarTablero: a fresh copy of the board, so changing it leaves the game alone. */
    method ConsultarTablero() returns (copia: Tablero)
      requires Valid()
      ensures fresh(copia) && fresh(copia.celdas) && copia.Valid()
      ensures copia.Contenido() == Estado().tablero
    {
      copia := tablero.Clonar();
    }

    /** consultarTurnoGanador */
    method ConsultarTurnoGanador() returns (ganador: Option<Color>)
      requires Valid()
      ensures ganador == Ganador(Estado().tablero)
    {
      ganador := None;
      var reinaBlanca := HayReinaEn(tablero, Blanco);
      var reinaNegra := HayReinaEn(tablero, Negro);
      if reinaBlanca || reinaNegra {
        if !reinaBlanca {
          ganador := Some(Negro);
        } else if !reinaNegra {
          ganador := Some(Blanco);
        } else {
          var blancaCentrada := EstaReinaEnElCentroEn(tablero, Blanco);
          if blancaCentrada {
            ganador := Some(Blanco);
          } else {
            var negraCentrada := EstaReinaEnElCentroEn(tablero, Negro);
            if negraCentrada {
              ganador := Some(Negro);
            }
          }
        }
      }
    }

    /** estaFinalizadaPartida */
    method EstaFinalizadaPartida() returns (finalizada: bool)
      requires Valid()
      ensures finalizada == Finalizada(Estado().tablero)
    {
      var ganador := ConsultarTurnoGanador();
      var reinaBlanca := HayReinaEn(tablero, Blanco);
      var reinaNegra := HayReinaEn(tablero, Negro);
      finalizada := ganador.Some? || (!reinaBlanca && !reinaNegra);
    }

    /** esMovimientoLegal */
    method EsMovimientoLegal(j: Jugada) returns (esLegal: bool)
      requires Valid()
      ensures esLegal == Legal(Estado(), j)
    {
      var o, d := j.origen, j.destino;
      esLegal := false;
      var finalizada := EstaFinalizadaPartida();
      if !finalizada && EstaEnTablero(o) && EstaEnTablero(d) {
        var celdaOrigen := tablero.ConsultarCelda(o);
        if celdaOrigen != null && !celdaOrigen.EstaVacia() {
          var piezaOrigen := celdaOrigen.ConsultarPieza().value;
          var horizontal := o.fila == d.fila;
          var vertical := o.columna == d.columna;
          if Some(piezaOrigen.color) == turnoActual && (horizontal || vertical) {
            var enPerpendicular: nat;
            if horizontal {
              enPerpendicular := ConsultarNumeroPiezasEnVertical(tablero, o);
            } else {
              enPerpendicular := ConsultarNumeroPiezasEnHorizontal(tablero, o);
            }
            var distancia := if horizontal then Abs(d.columna - o.columna) else Abs(d.fila - o.fila);
            esLegal := distancia == enPerpendicular;
          }
        }
      }
    }

    /** empujar: resolves a move whose two coordinates are on the board and that does not
        make the scan read the piece of an empty origin. */
    method Empujar(j: Jugada)
      requires Valid() && EstaEnTablero(j.origen) && EstaEnTablero(j.destino)
      requires EmpujeSinExcepcion(Estado().tablero, j)
      modifies Repr
      ensures Valid() && Repr == old(Repr)
      ensures Estado() == Empujado(old(Estado()), j)
    {
      var o, d := j.origen, j.destino;
      ghost var e0 := Estado();
      var hay := HayPiezaEntreOrigenYDestino(o, d);
      var celdaOrigen := tablero.ConsultarCelda(o);
      var piezaMovida := celdaOrigen.ConsultarPieza();
      assert piezaMovida == En(e0.tablero, o);
      if hay {
        var sentido := CalcularSentido(o, d).value;
        var distancia := if EsHorizontal(sentido) then DistanciaEnHorizontal(o, d) else DistanciaEnVertical(o, d);
        assert distancia == DistanciaEnSentido(o, d, sentido);
        MoverPiezasIntermedias(o, sentido, distancia);
      }
      ghost var tras := Estado();
      assert tras == TrasIntermedias(e0, o, d);
      tablero.EliminarPieza(o);
      assert Estado() == tras.(tablero := Eliminada(tras.tablero, o));
      tablero.FijarCelda(d, piezaMovida);
      assert Estado() == tras.(tablero := Fijada(Eliminada(tras.tablero, o), d, piezaMovida));
      numeroJugadas := numeroJugadas + 1;
    }

    /** The test the scans apply to each visited cell: the board's copy of the cell exists (the
        coordinate is on the board) and is not empty. */
    method CeldaOcupada(c: Coordenada) returns (ocupada: bool)
      requires Valid()
      ensures ocupada == Ocupada(tablero.Contenido(), c)
    {
      var celda := tablero.ConsultarCelda(c);
      ocupada := celda != null && !celda.EstaVacia();
    }

    /** hayPiezaEntreOrigenYDestino: visits every cell after the origin up to and including the
        destination (the whole range, without stopping early). */
    method HayPiezaEntreOrigenYDestino(o: Coordenada, d: Coordenada) returns (encontrada: bool)
      requires Valid()
      ensures encontrada == HayPiezaEntre(Estado().tablero, o, d)
    {
      encontrada := false;
      var sentido := CalcularSentido(o, d);
      if sentido.Some? {
        var s := sentido.value;
        var fin := DistanciaEnSentido(o, d, s);
        ghost var g := tablero.Contenido();
        for k := 1 to fin + 1
          invariant encontrada <==> exists m :: 1 <= m < k && Ocupada(g, Desplazar(o, s, m))
        {
          var ocupada := CeldaOcupada(Desplazar(o, s, k));
          if ocupada {
            encontrada := true;
          }
        }
      }
    }

    /** obtenerPiezasEnTrayectoria: scans from the origin towards the edge in direction `s`,
        collecting occupied cells and stopping right after the empty cell that brings the count
        of empty cells to the number of pieces perpendicular to the move. A scan that runs to
        the edge goes on to read the side of the origin's piece, so the origin must then hold
        one. */
    method ObtenerPiezasEnTrayectoria(o: Coordenada, s: Sentido) returns (encontradas: seq<Coordenada>)
      requires Valid() && TrayectoriaSinExcepcion(Estado().tablero, o, s)
      ensures encontradas == Trayectoria(Estado().tablero, o, s)
    {
      var enPerpendicular: nat;
      if EsHorizontal(s) {
        enPerpendicular := ConsultarNumeroPiezasEnVertical(tablero, o);
      } else {
        enPerpendicular := ConsultarNumeroPiezasEnHorizontal(tablero, o);
      }
      encontradas := RecorrerTrayectoria(o, s, enPerpendicular, tablero.Contenido());
    }

    /** The scanning loop of obtenerPiezasEnTrayectoria, with `perpendicular` as the budget of
        empty cells. */
    method RecorrerTrayectoria(o: Coordenada, s: Sentido, perpendicular: int, ghost g: Rejilla)
      returns (encontradas: seq<Coordenada>)
      requires Valid() && g == tablero.Contenido()
      ensures encontradas == Recorrido(g, o, s, perpendicular, 1, 0, [])
    {
      ghost var objetivo := Recorrido(g, o, s, perpendicular, 1, 0, []);
      encontradas := [];
      var vacias := 0;
      var k := 1;
      while k <= PasosHastaBorde(o, s)
        invariant k >= 1 && Valid() && tablero.Contenido() == g
        invariant Recorrido(g, o, s, perpendicular, k, vacias, encontradas) == objetivo
        decreases PasosHastaBorde(o, s) + 1 - k
      {
        var c := Desplazar(o, s, k);
        var ocupada := CeldaOcupada(c);
        if ocupada {
          encontradas := encontradas + [c];
        } else {
          vacias := vacias + 1;
        }
        if vacias == perpendicular {
          return;
        }
        k := k + 1;
      }
    }

    /** moverPiezasIntermedias: the collected pieces, farthest first, each moved `distancia`
        cells on in direction `s`; one that would leave the board goes to its side's box. */
    method MoverPiezasIntermedias(o: Coordenada, s: Sentido, distancia: int)
      requires Valid() && EstaEnTablero(o) && TrayectoriaSinExcepcion(Estado().tablero, o, s)
      modifies Repr
      ensures Valid() && Repr == old(Repr)
      ensures Estado() == MoverIntermedias(old(Estado()), Trayectoria(old(Estado()).tablero, o, s), s, distancia)
    {
      ghost var inicial := Estado();
      var intermedias := ObtenerPiezasEnTrayectoria(o, s);
      assert intermedias == Trayectoria(inicial.tablero, o, s);
      ghost var objetivo := MoverIntermedias(inicial, intermedias, s, distancia);
      var i := |intermedias| - 1;
      assert intermedias[..i + 1] == intermedias;
      while i >= 0
        invariant -1 <= i < |intermedias|
        invariant forall c :: c in intermedias ==> EstaEnTablero(c)
        invariant Valid() && Repr == old(Repr)
        invariant MoverIntermedias(Estado(), intermedias[..i + 1], s, distancia) == objetivo
        decreases i
      {
        var intermedia := intermedias[i];
        ghost var antes := Estado();
        MoverIntermediasPaso(antes, intermedias, s, distancia, i);
        var celda := tablero.ConsultarCelda(intermedia);
        if !celda.EstaVacia() {
          var pieza := celda.ConsultarPieza().value;
          var nueva := Desplazar(intermedia, s, distancia);
          tablero.FijarCelda(intermedia, None);
          if !EstaEnTablero(nueva) {
            ManejarPiezaExpulsada(pieza);
          } else {
            tablero.FijarCelda(nueva, Some(pieza));
          }
        }
        assert Estado() == MoverUna(antes, intermedia, s, distancia);
        i := i - 1;
      }
    }

    /** manejarPiezaExpulsada: the piece goes to the box of its own side. */
    method ManejarPiezaExpulsada(p: Pieza)
      requires Valid()
      modifies cajaBlancas, cajaNegras
      ensures Valid() && Repr == old(Repr)
      ensures Estado() == Expulsada(old(Estado()), p)
    {
      if p.color == Blanco {
        cajaBlancas.Anadir(Some(p));
      } else {
        cajaNegras.Anadir(Some(p));
      }
    }

    /** equals: same boxes, counter, board and turn. */
    predicate Equals(otro: Arbitro)
      reads this, Repr, otro, otro.Repr
      requires Valid() && otro.Valid()
    {
      cajaBlancas.Equals(otro.cajaBlancas) && cajaNegras.Equals(otro.cajaNegras) &&
      numeroJugadas == otro.numeroJugadas && tablero.Equals(otro.tablero) && turnoActual == otro.turnoActual
    }

    /** Two referees are equal exactly when their states are. */
    lemma EqualsSiiMismoEstado(otro: Arbitro)
      requires Valid() && otro.Valid()
      ensures Equals(otro) <==> Estado() == otro.Estado()
    {
    }
  }

  /** What both undo mechanisms do with a move the referee accepts: empujar, then
      cambiarTurno. */
  method EmpujarYCambiarTurno(a: Arbitro, j: Jugada)
    requires a.Valid() && Legal(a.Estado(), j)
    modifies a.Repr
    ensures a.Valid() && a.Repr == old(a.Repr)
    ensures a.Estado() == Jugado(old(a.Estado()), j)
  {
    a.Empujar(j);
    a.CambiarTurno();
  }

  /** The replay step of the move log: the move is pushed, and the turn changed, only when the
      referee finds it legal; either way the referee ends in `Jugado` of its old state. */
  method JugarSiEsLegal(a: Arbitro, j: Jugada)
    requires a.Valid()
    modifies a.Repr
    ensures a.Valid() && a.Repr == old(a.Repr)
    ensures a.Estado() == Jugado(old(a.Estado()), j)
  {
    var legal := a.EsMovimientoLegal(j);
    if legal {
      EmpujarYCambiarTurno(a, j);
    }
  }
}
