/** What both undo mechanisms compute, as functions of the move log: the referee state after
    replaying a log of moves from the opening (src/noventagrados/control/undo). */
module Historias {
  import opened Opciones
  import opened Colores
  import opened Jugadas
  import opened Reglas

  /** The state after the moves of `js` in order, each pushed and followed by a turn change
      when legal at that point and skipped otherwise. */
  function Reproducir(e: EstadoArbitro, js: seq<Jugada>): EstadoArbitro
    decreases |js|
  {
    if js == [] then e else Jugado(Reproducir(e, js[..|js| - 1]), js[|js| - 1])
  }

  /** Every move of `js` is legal in the state the earlier ones lead to. */
  predicate TodasLegales(e: EstadoArbitro, js: seq<Jugada>)
    decreases |js|
  {
    js == [] || (TodasLegales(e, js[..|js| - 1]) && Legal(Reproducir(e, js[..|js| - 1]), js[|js| - 1]))
  }

  /** Replaying never adds more than one to the counter per move, keeps the boxes valid and a
      set turn set; when every move is legal the counter rises by exactly the log's length and
      the turn alternates, back to the starting side after an even number of moves. */
  lemma {:induction false} ReproducirCuenta(e: EstadoArbitro, js: seq<Jugada>)
    ensures Reproducir(e, js).numeroJugadas <= e.numeroJugadas + |js|
    ensures CajasValidas(e) ==> CajasValidas(Reproducir(e, js))
    ensures e.turno.Some? ==> Reproducir(e, js).turno.Some?
    ensures TodasLegales(e, js) && e.turno.Some? ==>
      Reproducir(e, js).numeroJugadas == e.numeroJugadas + |js| &&
      Reproducir(e, js).turno == (if |js| % 2 == 0 then e.turno else Some(Contrario(e.turno.value)))
    decreases |js|
  {
    if js != [] {
      var previos := js[..|js| - 1];
      ReproducirCuenta(e, previos);
      JugadoCuenta(Reproducir(e, previos), js[|js| - 1]);
    }
    if TodasLegales(e, js) && e.turno.Some? {
      ReproducirLegales(e, js);
      AlternaParidad(e.turno.value, |js|);
    }
  }

  /** With every move legal, each ply adds one to the counter and passes the turn. */
  lemma {:induction false} ReproducirLegales(e: EstadoArbitro, js: seq<Jugada>)
    requires TodasLegales(e, js) && e.turno.Some?
    ensures Reproducir(e, js).numeroJugadas == e.numeroJugadas + |js|
    ensures Reproducir(e, js).turno == Some(Alterna(e.turno.value, |js|))
    decreases |js|
  {
    if js != [] {
      var previos := js[..|js| - 1];
      var antes, j := Reproducir(e, previos), js[|js| - 1];
      ReproducirLegales(e, previos);
      assert Legal(antes, j);
      JugadoLegal(antes, j);
    }
  }

  /** The side to move after `n` plies that each pass the turn, starting with `t`. */
  function Alterna(t: Color, n: nat): Color
  {
    if n == 0 then t else Contrario(Alterna(t, n - 1))
  }

  /** The turn comes back to the starting side after an even number of plies. */
  lemma {:induction false} AlternaParidad(t: Color, n: nat)
    ensures Alterna(t, n) == (if n % 2 == 0 then t else Contrario(t))
  {
    if n > 0 {
      AlternaParidad(t, n - 1);
      ContrarioInvolucion(t);
    }
  }

  /** Adding a move to the log and replaying is one more ply after the replay. */
  lemma ReproducirUnaMas(e: EstadoArbitro, js: seq<Jugada>, j: Jugada)
    ensures Reproducir(e, js + [j]) == Jugado(Reproducir(e, js), j)
    ensures TodasLegales(e, js + [j]) <==> TodasLegales(e, js) && Legal(Reproducir(e, js), j)
  {
    assert (js + [j])[..|js|] == js;
  }

  /** Replaying one more move of a log is one more ply after replaying the shorter prefix. */
  lemma ReproducirPrefijo(e: EstadoArbitro, js: seq<Jugada>, i: int)
    requires 0 <= i < |js|
    ensures Reproducir(e, js[..i + 1]) == Jugado(Reproducir(e, js[..i]), js[i])
  {
    assert js[..i + 1] == js[..i] + [js[i]];
    ReproducirUnaMas(e, js[..i], js[i]);
  }

  /** `estados` are the states a history passes through: the first one, then the replay of
      each prefix of the accepted moves. */
  predicate Historial(estados: seq<EstadoArbitro>, aceptadas: seq<Jugada>)
  {
    |estados| == |aceptadas| + 1 &&
    forall i {:trigger Reproducir(estados[0], aceptadas[..i])} ::
      0 <= i < |estados| ==> estados[i] == Reproducir(estados[0], aceptadas[..i])
  }

  /** Accepting one more move extends the history by the ply it makes. */
  lemma {:induction false} HistorialExtendido(estados: seq<EstadoArbitro>, aceptadas: seq<Jugada>, j: Jugada)
    requires Historial(estados, aceptadas)
    ensures Historial(estados + [Jugado(estados[|estados| - 1], j)], aceptadas + [j])
  {
    var todas := aceptadas + [j];
    var nuevos := estados + [Jugado(estados[|estados| - 1], j)];
    forall i | 0 <= i < |nuevos|
      ensures nuevos[i] == Reproducir(nuevos[0], todas[..i])
    {
      if i < |estados| {
        assert todas[..i] == aceptadas[..i];
      } else {
        assert todas[..i] == todas;
        assert aceptadas[..|aceptadas|] == aceptadas;
        ReproducirUnaMas(estados[0], aceptadas, j);
      }
    }
  }

  /** Dropping the last accepted move and the state it led to leaves a history. */
  lemma {:induction false} HistorialRecortado(estados: seq<EstadoArbitro>, aceptadas: seq<Jugada>)
    requires Historial(estados, aceptadas) && |estados| > 1
    ensures Historial(estados[..|estados| - 1], aceptadas[..|aceptadas| - 1])
  {
    var previas := aceptadas[..|aceptadas| - 1];
    forall i | 0 <= i <= |previas|
      ensures previas[..i] == aceptadas[..i]
    {
    }
  }
}
