/** Board coordinates and their text form (src/noventagrados/util/Coordenada.java). */
module Coordenadas {
  import opened Opciones

  /** An immutable (fila, columna) pair compared by value. The components are unbounded,
      because the referee computes landing coordinates that lie off the board. */
  datatype Coordenada = Coordenada(fila: int, columna: int)

  /** The decimal digit character for 0..9. */
  function Digito(d: int): (ch: char)
    requires 0 <= d < 10
    ensures '0' <= ch <= '9'
    ensures ch as int - '0' as int == d
  {
    ('0' as int + d) as char
  }

  /** The value of a decimal digit character. */
  function ValorDigito(ch: char): int
    requires '0' <= ch <= '9'
  {
    ch as int - '0' as int
  }

  /** A non-empty string of decimal digits. */
  predicate EsNatural(s: string)
  {
    |s| >= 1 && forall i :: 0 <= i < |s| ==> '0' <= s[i] <= '9'
  }

  /** Java's rendering of an int by string concatenation: a minus sign for negative values,
      then the digits of the magnitude without leading zeros. */
  function Decimal(n: int): (s: string)
    ensures |s| >= 1
    ensures n >= 0 ==> EsNatural(s)
    ensures n < 0 ==> s[0] == '-'
    ensures |s| == 1 <==> 0 <= n < 10
    decreases if n < 0 then 1 - n else n
  {
    if n < 0 then "-" + Decimal(-n)
    else if n < 10 then [Digito(n)]
    else Decimal(n / 10) + [Digito(n % 10)]
  }

  /** The number a string of digits denotes; the reading partner of Decimal. */
  function ValorNatural(s: string): nat
    requires EsNatural(s)
    decreases |s|
  {
    if |s| == 1 then ValorDigito(s[0])
    else ValorNatural(s[..|s| - 1]) * 10 + ValorDigito(s[|s| - 1])
  }

  /** Reading the decimal rendering of a natural number gives the number back. */
  lemma {:induction false} ValorDeDecimal(n: nat)
    ensures EsNatural(Decimal(n)) && ValorNatural(Decimal(n)) == n
  {
    if n >= 10 {
      ValorDeDecimal(n / 10);
      var s := Decimal(n);
      assert s[..|s| - 1] == Decimal(n / 10);
    }
  }

  /** aTexto: the decimal row immediately followed by the decimal column. */
  function ATexto(c: Coordenada): (r: string)
    ensures |r| >= 2
    ensures c.fila >= 0 && c.columna >= 0 ==> EsNatural(r)
    ensures 0 <= c.fila < 10 && 0 <= c.columna < 10 ==> r == [Digito(c.fila), Digito(c.columna)]
  {
    Decimal(c.fila) + Decimal(c.columna)
  }

  /** Both components are single decimal digits, as on the 7x7 board. */
  predicate DeUnDigito(c: Coordenada)
  {
    0 <= c.fila < 10 && 0 <= c.columna < 10
  }

  /** Reads a two-digit coordinate text back; the partner of ATexto. */
  function DesdeTexto(s: string): (r: Option<Coordenada>)
    ensures r.Some? ==> DeUnDigito(r.value) && ATexto(r.value) == s
  {
    if |s| == 2 && '0' <= s[0] <= '9' && '0' <= s[1] <= '9' then
      Some(Coordenada(ValorDigito(s[0]), ValorDigito(s[1])))
    else
      None
  }

  /** For single-digit components the text has length 2 and reads back to the coordinate. */
  lemma ATextoIdaYVuelta(c: Coordenada)
    requires DeUnDigito(c)
    ensures |ATexto(c)| == 2
    ensures ATexto(c)[0] == Digito(c.fila) && ATexto(c)[1] == Digito(c.columna)
    ensures DesdeTexto(ATexto(c)) == Some(c)
  {
  }

  /** The documented example: (3,5) renders as "35". */
  lemma ATextoEjemplo()
    ensures ATexto(Coordenada(3, 5)) == "35"
  {
  }
}
