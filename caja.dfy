/** The per-side capture box (src/noventagrados/control/Caja.java). */
module Cajas {
  import opened Opciones
  import opened Colores
  import opened TiposPieza
  import opened Piezas

  /** The most pieces a box ever holds. */
  const CAPACIDAD: int := 7

  /** The box invariant: at most seven pieces, all of the box's side. */
  predicate Invariante(piezas: seq<Pieza>, color: Color)
  {
    |piezas| <= CAPACIDAD && forall i :: 0 <= i < |piezas| ==> piezas[i].color == color
  }

  /** añadir on the box's contents: a missing piece, a piece of the other side and any piece
      offered to a full box are ignored; otherwise the piece is appended at the end. */
  function Anadida(piezas: seq<Pieza>, color: Color, p: Option<Pieza>): (r: seq<Pieza>)
    ensures Invariante(piezas, color) ==> Invariante(r, color)
    ensures r == piezas || (p.Some? && r == piezas + [p.value])
    ensures r != piezas <==> p.Some? && p.value.color == color && |piezas| < CAPACIDAD
  {
    if p.None? || p.value.color != color then piezas
    else if |piezas| < CAPACIDAD then piezas + [p.value]
    else piezas
  }

  /** Offering the pieces `ps` one after the other, first to last. */
  function AnadidasTodas(piezas: seq<Pieza>, color: Color, ps: seq<Pieza>): seq<Pieza>
    decreases |ps|
  {
    if ps == [] then piezas
    else AnadidasTodas(Anadida(piezas, color, Some(ps[0])), color, ps[1..])
  }

  /** The pieces of `ps` of side `color`, in order. */
  function DelColor(ps: seq<Pieza>, color: Color): (r: seq<Pieza>)
    ensures |r| <= |ps|
    decreases |ps|
  {
    if ps == [] then []
    else (if ps[0].color == color then [ps[0]] else []) + DelColor(ps[1..], color)
  }

  /** The most of `n` offered pieces that a box holding `piezas` still takes. */
  function Admitidas(piezas: seq<Pieza>, n: int): int
  {
    if n < CAPACIDAD - |piezas| then n else CAPACIDAD - |piezas|
  }

  /** A box with room that takes `p` and then the first pieces of `demas` has taken the first
      pieces of `[p] + demas`. */
  lemma TomaPrimera(piezas: seq<Pieza>, p: Pieza, demas: seq<Pieza>)
    requires |piezas| < CAPACIDAD
    ensures (piezas + [p]) + demas[..Admitidas(piezas + [p], |demas|)] ==
            piezas + ([p] + demas)[..Admitidas(piezas, |demas| + 1)]
  {
    var m := Admitidas(piezas + [p], |demas|);
    assert ([p] + demas)[..m + 1] == [p] + demas[..m];
  }

  /** A box that is offered several pieces keeps its contents and receives that side's offered
      pieces in order until it is full: it grows by one per piece of its side, up to seven. */
  lemma {:induction false} AnadidasTodasSon(piezas: seq<Pieza>, color: Color, ps: seq<Pieza>)
    requires |piezas| <= CAPACIDAD
    ensures var propias := DelColor(ps, color);
      AnadidasTodas(piezas, color, ps) == piezas + propias[..Admitidas(piezas, |propias|)]
    decreases |ps|
  {
    if ps != [] {
      var p, resto := ps[0], ps[1..];
      var siguiente := Anadida(piezas, color, Some(p));
      AnadidasTodasSon(siguiente, color, resto);
      var propias, demas := DelColor(ps, color), DelColor(resto, color);
      if p.color == color && |piezas| < CAPACIDAD {
        assert propias == [p] + demas;
        TomaPrimera(piezas, p, demas);
      } else if p.color == color {
        assert propias[..0] == [] && demas[..0] == [];
      } else {
        assert propias == demas;
      }
    }
  }

  /** The number of held pieces of kind `tipo`. */
  function ContarTipo(piezas: seq<Pieza>, tipo: TipoPieza): (n: nat)
    ensures n <= |piezas|
    decreases |piezas|
  {
    if piezas == [] then 0
    else ContarTipo(piezas[..|piezas| - 1], tipo) + (if piezas[|piezas| - 1].tipo == tipo then 1 else 0)
  }

  /** Every held piece is a pawn or a queen, so the two counts add up to the total. */
  lemma {:induction false} PeonesMasReinas(piezas: seq<Pieza>)
    ensures ContarTipo(piezas, Peon) + ContarTipo(piezas, Reina) == |piezas|
  {
    if piezas != [] {
      PeonesMasReinas(piezas[..|piezas| - 1]);
    }
  }

  class Caja {
    /** The side the box belongs to, fixed at construction (a null colour is ruled out by typing). */
    const color: Color
    /** The held pieces in insertion order. */
    var piezas: seq<Pieza>

    ghost predicate Valid()
      reads this
    {
      Invariante(piezas, color)
    }

    /** A new box of side `c` is empty. */
    constructor (c: Color)
      ensures Valid() && color == c && piezas == []
    {
      color := c;
      piezas := [];
    }

    /** añadir(pieza); the box invariant is kept. */
    method Anadir(p: Option<Pieza>)
      requires Valid()
      modifies this
      ensures Valid()
      ensures piezas == Anadida(old(piezas), color, p)
    {
      if p.None? || p.value.color != color {
        return;
      }
      if |piezas| < CAPACIDAD {
        piezas := piezas + [p.value];
      }
    }

    /** clonar: a new box of the same side re-filled piece by piece; every piece is accepted,
        so the clone holds the same sequence. */
    method Clonar() returns (clon: Caja)
      requires Valid()
      ensures fresh(clon) && clon.Valid()
      ensures clon.color == color && clon.piezas == piezas
    {
      clon := new Caja(color);
      for i := 0 to |piezas|
        invariant clon.Valid() && clon.color == color
        invariant clon.piezas == piezas[..i]
      {
        clon.Anadir(Some(piezas[i]));
      }
    }

    /** consultarColor */
    function ConsultarColor(): (c: Color)
      ensures c == color
    {
      color
    }

    /** consultarPiezas: the held pieces in insertion order, all of the box's side. */
    function ConsultarPiezas(): (r: seq<Pieza>)
      reads this
      requires Valid()
      ensures r == piezas
      ensures |r| <= CAPACIDAD && forall i :: 0 <= i < |r| ==> r[i].color == color
    {
      piezas
    }

    /** contarPiezas(): the number of held pieces, never more than seven. */
    function ContarPiezas(): (n: nat)
      reads this
      requires Valid()
      ensures n == |piezas|
      ensures n <= CAPACIDAD
    {
      |piezas|
    }

    /** contarPiezas(tipoPieza): counts the held pieces of that kind. */
    method ContarPiezasDeTipo(tipo: TipoPieza) returns (contador: nat)
      ensures contador == ContarTipo(piezas, tipo)
    {
      contador := 0;
      for i := 0 to |piezas|
        invariant contador == ContarTipo(piezas[..i], tipo)
      {
        assert piezas[..i + 1][..i] == piezas[..i];
        if piezas[i].tipo == tipo {
          contador := contador + 1;
        }
      }
      assert piezas[..|piezas|] == piezas;
    }

    /** equals: same side and the same pieces in the same order. */
    predicate Equals(otra: Caja)
      reads this, otra
    {
      color == otra.color && piezas == otra.piezas
    }
  }
}
