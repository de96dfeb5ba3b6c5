/** Undo by snapshots (src/noventagrados/control/undo/MaquinaDelTiempoConArbitros.java): the
    history keeps one referee per position, starting with the opening; a move is played on a
    clone of the last one, and undoing drops the last snapshot. */
module MaquinasConArbitros {
  import opened Opciones
  import opened Jugadas
  import opened Tableros
  import opened Reglas
  import opened Arbitros
  import opened Historias

  class MaquinaDelTiempoConArbitros {
    var historico: seq<Arbitro>
    /** The snapshots' states, and the accepted moves that led to them. */
    ghost var Estados: seq<EstadoArbitro>
    ghost var Aceptadas: seq<Jugada>
    ghost var Repr: set<object>

    /** At least the opening snapshot; each snapshot valid, owned by the history and holding
        the state reached by replaying the first accepted moves; the history itself lies
        outside every snapshot. */
    ghost predicate Valid()
      reads this, Repr
    {
      this in Repr && |historico| >= 1 && |Estados| == |historico| &&
      (forall i :: 0 <= i < |historico| ==> historico[i] in Repr && historico[i].Repr <= Repr && this !in historico[i].Repr) &&
      (forall i :: 0 <= i < |historico| ==> historico[i].Valid() && historico[i].Estado() == Estados[i]) &&
      Estados[0] == Inicial() &&
      Historial(Estados, Aceptadas)
    }

    /** The state of the last snapshot. */
    ghost function Actual(): EstadoArbitro
      reads this, Repr
      requires Valid()
    {
      Estados[|Estados| - 1]
    }

    /** A new history holds one referee: an empty board set up with the opening layout. */
    constructor ()
      ensures Valid() && fresh(Repr)
      ensures Estados == [Inicial()] && Aceptadas == []
    {
      var tableroInicial := new Tablero();
      var arbitroInicial := new Arbitro(tableroInicial);
      arbitroInicial.ColocarPiezasConfiguracionInicial();
      ghost var inicial := arbitroInicial.Estado();
      assert inicial == Inicial();
      assert Historial([inicial], []);
      assert fresh(arbitroInicial.Repr - {tableroInicial, tableroInicial.celdas});
      assert fresh(tableroInicial) && fresh(tableroInicial.celdas);
      historico := [arbitroInicial];
      Estados := [inicial];
      Aceptadas := [];
      Repr := {this} + arbitroInicial.Repr;
    }

    /** consultarArbitroActual: a clone of the last snapshot, so changing it leaves the history
        alone. */
    method ConsultarArbitroActual() returns (a: Arbitro)
      requires Valid()
      ensures fresh(a.Repr) && a.Valid()
      ensures a.Estado() == Actual() && a.Estado() == Reproducir(Estados[0], Aceptadas) && Estados[0] == Inicial()
    {
      a := historico[|historico| - 1].Clonar();
      assert Aceptadas[..|Aceptadas|] == Aceptadas;
    }

    /** consultarNumeroJugadasEnHistorico: the snapshots beyond the opening one, which is the
        number of accepted moves. */
    function ConsultarNumeroJugadasEnHistorico(): (n: int)
      reads this, Repr
      requires Valid()
      ensures n == |Aceptadas| && n >= 0
    {
      |historico| - 1
    }

    /** deshacerJugada: drops the last snapshot unless only the opening one is left. */
    method DeshacerJugada()
      requires Valid()
      modifies this
      ensures Valid() && Repr <= old(Repr)
      ensures |old(historico)| > 1 ==> Estados == old(Estados)[..|old(Estados)| - 1] && Aceptadas == old(Aceptadas)[..|old(Aceptadas)| - 1]
      ensures |old(historico)| == 1 ==> Estados == old(Estados) && Aceptadas == old(Aceptadas)
    {
      if |historico| > 1 {
        HistorialRecortado(Estados, Aceptadas);
        historico := historico[..|historico| - 1];
        Estados := Estados[..|Estados| - 1];
        Aceptadas := Aceptadas[..|Aceptadas| - 1];
      }
    }

    /** hacerJugada: a move that is legal in the last snapshot is played on a clone of it (push,
        then turn change) and the clone is appended; any other move is refused with an
        illegal-argument error and the history stays as it was. */
    method HacerJugada(j: Jugada) returns (r: Resultado)
      requires Valid()
      modifies this
      ensures Valid() && old(Repr) <= Repr && fresh(Repr - old(Repr))
      ensures r.Hecho? <==> Legal(old(Actual()), j)
      ensures r.Fallo? ==> r == Fallo(ArgumentoIlegal) && Estados == old(Estados) && Aceptadas == old(Aceptadas)
      ensures r.Hecho? ==> Estados == old(Estados) + [Jugado(old(Actual()), j)] && Aceptadas == old(Aceptadas) + [j]
    {
      ghost var actual := Actual();
      var arbitroActual, legal := JugarSobreClon(j, actual);
      if legal {
        HistorialExtendido(Estados, Aceptadas, j);
        Apilar(arbitroActual, Jugado(actual, j), j);
        r := Hecho;
      } else {
        r := Fallo(ArgumentoIlegal);
      }
    }

    /** The first half of hacerJugada: a clone of the last snapshot, whose state is `actual`,
        asked whether the move is legal and, when it is, made to play it. */
    method JugarSobreClon(j: Jugada, ghost actual: EstadoArbitro) returns (a: Arbitro, legal: bool)
      requires Valid() && actual == Actual()
      ensures fresh(a.Repr) && a.Valid()
      ensures legal == Legal(actual, j)
      ensures legal ==> a.Estado() == Jugado(actual, j)
    {
      var ultimo := historico[|historico| - 1];
      assert ultimo.Valid() && ultimo.Estado() == actual;
      a := ultimo.Clonar();
      legal := a.EsMovimientoLegal(j);
      if legal {
        EmpujarYCambiarTurno(a, j);
      }
    }

    /** historicoArbitros.add: appends a snapshot that shares no object with the history and
        holds the state `e` the accepted moves and `j` lead to. */
    method Apilar(a: Arbitro, ghost e: EstadoArbitro, ghost j: Jugada)
      requires Valid() && a.Valid() && a.Repr !! Repr && a.Estado() == e
      requires Historial(Estados + [e], Aceptadas + [j])
      modifies this
      ensures Valid() && Repr == old(Repr) + a.Repr
      ensures historico == old(historico) + [a]
      ensures Estados == old(Estados) + [e] && Aceptadas == old(Aceptadas) + [j]
    {
      historico := historico + [a];
      Estados := Estados + [e];
      Aceptadas := Aceptadas + [j];
      Repr := Repr + a.Repr;
    }
  }

  /** hacerJugada, then deshacerJugada when the move was accepted (a refused move leaves
      nothing to undo): the history is back to the states and moves it held, so the current
      referee, the last of those states, is the one before the move. */
  method HacerYDeshacer(m: MaquinaDelTiempoConArbitros, j: Jugada) returns (r: Resultado)
    requires m.Valid()
    modifies m
    ensures m.Valid()
    ensures r.Hecho? <==> Legal(old(m.Actual()), j)
    ensures m.Estados == old(m.Estados) && m.Aceptadas == old(m.Aceptadas)
  {
    ghost var estados, aceptadas := m.Estados, m.Aceptadas;
    r := m.HacerJugada(j);
    if r.Hecho? {
      SinUltimo(estados, m.Estados[|m.Estados| - 1]);
      SinUltimo(aceptadas, j);
      m.DeshacerJugada();
    }
  }

  /** Dropping the element just appended gives the sequence back. */
  lemma SinUltimo<T>(s: seq<T>, x: T)
    ensures (s + [x])[..|s|] == s
  {
  }
}
