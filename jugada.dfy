/** A proposed move and its "00-11" notation (src/noventagrados/modelo/Jugada.java). The referee
    only reads the coordinates of the move's two cells, so a move is a pair of coordinates. */
module Jugadas {
  import opened Opciones
  import opened Coordenadas

  datatype Jugada = Jugada(origen: Coordenada, destino: Coordenada)

  /** aTexto: the origin text, a dash, then the destination text. */
  function ATexto(j: Jugada): (r: string)
    ensures |r| == |Coordenadas.ATexto(j.origen)| + 1 + |Coordenadas.ATexto(j.destino)| >= 5
    ensures r[|Coordenadas.ATexto(j.origen)|] == '-'
    ensures DeUnDigito(j.origen) && DeUnDigito(j.destino) ==>
      r == [Digito(j.origen.fila), Digito(j.origen.columna), '-', Digito(j.destino.fila), Digito(j.destino.columna)]
  {
    Coordenadas.ATexto(j.origen) + "-" + Coordenadas.ATexto(j.destino)
  }

  /** Reads a five-character move text back; the partner of ATexto. */
  function DesdeTexto(s: string): (r: Option<Jugada>)
    ensures r.Some? ==> DeUnDigito(r.value.origen) && DeUnDigito(r.value.destino) && ATexto(r.value) == s
  {
    if |s| == 5 && s[2] == '-' then
      match (Coordenadas.DesdeTexto(s[..2]), Coordenadas.DesdeTexto(s[3..]))
      case (Some(o), Some(d)) =>
        assert s == s[..2] + "-" + s[3..];
        Some(Jugada(o, d))
      case _ => None
    else
      None
  }

  /** For single-digit coordinates the text has length 5 with the dash at index 2; characters
      0..1 read back to the origin, 3..4 to the destination, and the whole text to the move. */
  lemma ATextoIdaYVuelta(j: Jugada)
    requires DeUnDigito(j.origen) && DeUnDigito(j.destino)
    ensures |ATexto(j)| == 5 && ATexto(j)[2] == '-'
    ensures Coordenadas.DesdeTexto(ATexto(j)[..2]) == Some(j.origen)
    ensures Coordenadas.DesdeTexto(ATexto(j)[3..]) == Some(j.destino)
    ensures DesdeTexto(ATexto(j)) == Some(j)
  {
    Coordenadas.ATextoIdaYVuelta(j.origen);
    Coordenadas.ATextoIdaYVuelta(j.destino);
    var s := ATexto(j);
    assert s[..2] == Coordenadas.ATexto(j.origen);
    assert s[3..] == Coordenadas.ATexto(j.destino);
  }

  /** The documented example: (0,0) to (1,1) renders as "00-11". */
  lemma ATextoEjemplo()
    ensures ATexto(Jugada(Coordenada(0, 0), Coordenada(1, 1))) == "00-11"
  {
  }
}
