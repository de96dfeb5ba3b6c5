/** Undo by move log (src/noventagrados/control/undo/MaquinaDelTiempoConJugadas.java): the
    history keeps only the moves made; the current referee is rebuilt by replaying them from
    the opening, skipping any that are not legal at their turn. */
module MaquinasConJugadas {
  import opened Jugadas
  import opened Tableros
  import opened Reglas
  import opened Arbitros
  import opened Historias

  class MaquinaDelTiempoConJugadas {
    var historico: seq<Jugada>

    /** A new log is empty. */
    constructor ()
      ensures historico == []
    {
      historico := [];
    }

    /** consultarArbitroActual: a new referee on an empty board with the opening layout, then
        every logged move that is legal at its turn pushed and followed by a turn change. */
    method ConsultarArbitroActual() returns (a: Arbitro)
      ensures fresh(a.Repr) && a.Valid()
      ensures a.Estado() == Reproducir(Inicial(), historico)
    {
      var tableroInicial := new Tablero();
      a := new Arbitro(tableroInicial);
      a.ColocarPiezasConfiguracionInicial();
      ghost var inicial := a.Estado();
      assert inicial == Inicial();
      for i := 0 to |historico|
        invariant fresh(a.Repr) && a.Valid()
        invariant a.Estado() == Reproducir(inicial, historico[..i])
      {
        ReproducirPrefijo(inicial, historico, i);
        JugarSiEsLegal(a, historico[i]);
      }
      assert historico[..|historico|] == historico;
    }

    /** consultarNumeroJugadasEnHistorico: every logged move counts, legal or not. */
    function ConsultarNumeroJugadasEnHistorico(): (n: nat)
      reads this
      ensures n == |historico|
    {
      |historico|
    }

    /** deshacerJugada: drops the last logged move, if any. */
    method DeshacerJugada()
      modifies this
      ensures old(historico) != [] ==> historico == old(historico)[..|old(historico)| - 1]
      ensures old(historico) != [] ==> historico + [old(historico)[|old(historico)| - 1]] == old(historico)
      ensures old(historico) == [] ==> historico == []
    {
      if historico != [] {
        historico := historico[..|historico| - 1];
      }
    }

    /** hacerJugada: logs the move without checking it. */
    method HacerJugada(j: Jugada)
      modifies this
      ensures historico == old(historico) + [j]
    {
      historico := historico + [j];
    }
  }

  /** hacerJugada followed by deshacerJugada restores the log, so the replayed referee is the
      one before the move. */
  method HacerYDeshacer(m: MaquinaDelTiempoConJugadas, j: Jugada)
    modifies m
    ensures m.historico == old(m.historico)
  {
    m.HacerJugada(j);
    m.DeshacerJugada();
  }
}
