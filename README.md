# Noventagrados rules engine in Dafny

This project models the rules engine of *Noventagrados*, a two-player push game on a 7×7
board. Each side has one queen and six pawns. A piece moves along its row or column. The
distance it moves must equal the number of pieces on the line perpendicular to the move
through its origin. Pieces in the way are pushed ahead by the same distance. A pushed piece
that leaves the board goes into the capture box of its own side. A side wins when the other
queen is gone, or when its own queen stands on the centre cell (3,3).

The model follows the Java packages module by module:

- **Value types** are datatypes with their text encodings and a reading partner for each
  encoding:
  - `Colores` (Color)
  - `TiposPieza` (TipoPieza)
  - `Piezas` (Pieza)
  - `Coordenadas` (Coordenada)
  - `Sentidos` (Sentido, plus `calcularNuevaCoordenada` as `Desplazar`)
  - `Jugadas` (Jugada)
- **Mutable objects** are classes that change their fields in place:
  - `Celdas.Celda`: one cell.
  - `Tableros.Tablero`: the board. Its 49 slots are one array in row-major order; cell
    (f,c) is slot 7f+c. Its value is a `Rejilla`.
  - `Cajas.Caja`: one capture box.
  - `Arbitros.Arbitro`: the referee.
  - The two undo histories.
- **Board queries** (`Consultor`, TableroConsultor) are functions of the board's value.
  The source's counting loops are methods over a `Tablero`, each proved equal to its function.
- **The referee's rules** (`Reglas`) are functions of an `EstadoArbitro` value. The state
  holds the board, the move counter, the turn (`None` until set) and both box contents. The
  rules are:
  - legality, winner and game over;
  - turn change and placement;
  - the push, as the source computes it wherever it completes (the one case in which it
    throws is excluded by a precondition, see below):
    - the test for a piece in the way (origin excluded, destination included);
    - the scan towards the board edge that stops once it has passed as many empty cells as
      the perpendicular count;
    - the farthest-first shift;
    - boxing of pieces shifted off the board.

  Each `Arbitro` method is proved to leave exactly the state the matching function gives.
- **Replays** (`Historias`) give the state after a log of moves. Each legal move is pushed and
  the turn then changes; an illegal move is skipped.
- **Undo histories**:
  - `MaquinasConArbitros` keeps a stack of referee snapshots whose bottom, the opening, is
    never popped.
  - `MaquinasConJugadas` keeps a move log that is replayed from the opening.

The model states these behaviours as they are written:

- **A shifted piece overwrites its landing cell.** It replaces whatever stands there.
  - This can be a piece further along the line that the scan did not collect. The scan
    stopped before reaching it because its empty-cell budget ran out.
  - The overwritten piece is neither moved nor boxed.
  - `MoverUnaEfectos` states where one shifted piece goes: its cell is emptied and the
    landing cell receives it, or it leaves the board and is offered to its side's box.
  - `EmpujadoDesplaza` lifts this to the whole push. Every collected piece that stays on the
    board ends that many cells further on. A collected cell on which nothing lands is left
    empty. Each box receives the pieces shifted off the board, farthest first, as `añadir`
    takes them, and `AnadidasTodasSon` says what that is: the box's own side's pieces, up
    to seven in all.
  - `EmpujadoEfectos` proves that cells behind the origin and off the line of the move never
    change.
- **The scan collects exactly the occupied cells up to its stop.** `TrayectoriaCaracterizada`
  describes its result without the loop. It holds the occupied cells 1 to n steps after the
  origin, nearest first. Here n, the `Parada`, is the first offset at which the number of
  empty cells passed equals the perpendicular count, or the board edge when no offset does.
- **`cambiarTurno` sends an unset turn to White.**
- **The move-log history logs every move, illegal ones included.**
  - Illegal moves count in `consultarNumeroJugadasEnHistorico`.
  - Replay skips them.
  - The snapshot history instead refuses an illegal move with an illegal-argument error.

Java `null` is `Option.None`. A thrown `IllegalArgumentException` is the result
`Fallo(ArgumentoIlegal)` where the caller can observe it.

## Model

| member | source | states |
|---|---|---|
| Colores.Contrario | src/noventagrados/util/Color.java:57-59 | the contrary side is never the argument: White gives Black and Black gives White |
| Colores.ContrarioInvolucion | src/noventagrados/util/Color.java:57-59 | taking the contrary twice gives back the side |
| Colores.ToChar | src/noventagrados/util/Color.java:26-31 | the letter is 'B' exactly for White and 'N' exactly for Black |
| Colores.DesdeChar | src/noventagrados/util/Color.java:70-72 | only 'B' and 'N' read back to a side, and that side's letter is the one read |
| Colores.IdaYVuelta | src/noventagrados/util/Color.java:70-72 | reading back the letter of a side gives the side |
| Colores.ToCharInyectivo | src/noventagrados/util/Color.java:26-31 | different sides have different letters |
| TiposPieza.ToChar | src/noventagrados/util/TipoPieza.java:26-31 | the letter is 'P' exactly for a pawn and 'R' exactly for a queen |
| TiposPieza.DesdeChar | src/noventagrados/util/TipoPieza.java:59-61 | only 'P' and 'R' read back to a kind, and that kind's letter is the one read |
| TiposPieza.IdaYVuelta | src/noventagrados/util/TipoPieza.java:59-61 | reading back the letter of a kind gives the kind |
| TiposPieza.ToCharInyectivo | src/noventagrados/util/TipoPieza.java:26-31 | different kinds have different letters |
| Piezas.ATexto | src/noventagrados/modelo/Pieza.java:49-51 | the text of a piece always has length 2 |
| Piezas.DesdeTexto | src/noventagrados/modelo/Pieza.java:49-51 | a text that reads back to a piece is exactly that piece's text |
| Piezas.ATextoIdaYVuelta | src/noventagrados/modelo/Pieza.java:49-51 | reading back the text of a piece gives the piece |
| Piezas.ATextoInyectivo | src/noventagrados/modelo/Pieza.java:49-51 | the text is injective over the four possible pieces |
| Piezas.ATextoEjemplos | src/noventagrados/modelo/Pieza.java:43-51 | a white pawn is "PB" and a black queen is "RN" |
| Coordenadas.Decimal | src/noventagrados/util/Coordenada.java:35-37 | Java's int-to-text is non-empty, all digits for non-negative values, starts with '-' for negative ones, and is one character exactly for 0..9 |
| Coordenadas.ValorDeDecimal | src/noventagrados/util/Coordenada.java:35-37 | the decimal text of a natural number reads back to the number |
| Coordenadas.DesdeTexto | src/noventagrados/util/Coordenada.java:35-37 | a two-digit text that reads back to a coordinate is that coordinate's text |
| Coordenadas.ATextoIdaYVuelta | src/noventagrados/util/Coordenada.java:35-37 | for single-digit components the text has length 2, its characters are the row and column digits, and it reads back to the coordinate |
| Coordenadas.ATextoEjemplo | src/noventagrados/util/Coordenada.java:24-37 | (3,5) renders as "35" |
| Coordenadas.ATexto | src/noventagrados/util/Coordenada.java:35-37 | the text has at least 2 characters, is all digits for non-negative components, and is the row digit then the column digit for single-digit components |
| Jugadas.ATexto | src/noventagrados/modelo/Jugada.java:31-33 | the origin's text, '-', then the destination's text: at least 5 characters with '-' right after the origin; for single-digit coordinates exactly the five digits and the dash |
| Jugadas.DesdeTexto | src/noventagrados/modelo/Jugada.java:31-33 | a five-character text that reads back to a move is that move's text, with single-digit coordinates |
| Jugadas.ATextoIdaYVuelta | src/noventagrados/modelo/Jugada.java:31-33 | for single-digit coordinates the text has length 5 with '-' at index 2; characters 0..1 read back to the origin, 3..4 to the destination, and the whole text to the move |
| Jugadas.ATextoEjemplo | src/noventagrados/modelo/Jugada.java:20-27 | (0,0) to (1,1) renders as "00-11" |
| Sentidos.DesplazamientoEnFilas | src/noventagrados/util/Sentido.java:27-42 | the row delta is in -1..1; it is -1 exactly for North and +1 exactly for South |
| Sentidos.DesplazamientoEnColumnas | src/noventagrados/util/Sentido.java:27-42 | the column delta is in -1..1; it is +1 exactly for East and -1 exactly for West |
| Sentidos.UnSoloEje | src/noventagrados/util/Sentido.java:27-42 | exactly one component of each delta is non-zero, and it is ±1 |
| Sentidos.SentidosOpuestos | src/noventagrados/util/Sentido.java:27-42 | North and South negate each other, and so do East and West |
| Sentidos.Desplazar | src/noventagrados/control/Arbitro.java:607-613 | moving k steps horizontally keeps the row and shifts the column by ±k (East +, West −); moving vertically keeps the column and shifts the row (South +, North −) |
| Sentidos.DesplazarEsProducto | src/noventagrados/control/Arbitro.java:607-613 | the reached coordinate is the origin plus each delta of the direction times the distance |
| Sentidos.DesplazarSuma | src/noventagrados/control/Arbitro.java:607-613 | two displacements in one direction add up |
| Celdas.Celda.constructor | src/noventagrados/modelo/Celda.java:29-32 | a new cell is empty and keeps the given coordinate |
| Celdas.Celda.Clonar | src/noventagrados/modelo/Celda.java:40-46 | the clone is a new cell equal to the original |
| Celdas.Celda.Colocar | src/noventagrados/modelo/Celda.java:54-56 | the cell then holds the given piece; placing nothing empties it |
| Celdas.Celda.ConsultarColorDePieza | src/noventagrados/modelo/Celda.java:64-66 | none exactly when the cell is empty, otherwise the held piece's side |
| Celdas.Celda.EliminarPieza | src/noventagrados/modelo/Celda.java:89-91 | the cell is empty afterwards |
| Celdas.Celda.EqualsEquivalencia | src/noventagrados/modelo/Celda.java:82-131 | `Equals` is reflexive, symmetric and transitive, and equal cells have the same `ConsultarPieza`, coordinate and `EstaVacia` |
| Tableros.Vacia | src/noventagrados/modelo/Tablero.java:29-38 | every one of the 49 cells is empty |
| Tableros.IndiceBiyectivo | src/noventagrados/modelo/Tablero.java:130-138 | the row-major slot of an on-board coordinate leads back to that coordinate |
| Tableros.IndiceInyectivo | src/noventagrados/modelo/Tablero.java:130-138 | distinct on-board coordinates are kept in distinct slots |
| Tableros.Fijada | src/noventagrados/modelo/Tablero.java:194-199 | writing through obtenerCelda changes the named on-board cell to the given content and no other cell |
| Tableros.Colocada | src/noventagrados/modelo/Tablero.java:105-112 | no change for a missing piece or an off-board coordinate; otherwise only that cell is overwritten |
| Tableros.Eliminada | src/noventagrados/modelo/Tablero.java:165-172 | no change off the board; otherwise only that cell is emptied |
| Tableros.Tablero.constructor | src/noventagrados/modelo/Tablero.java:29-38 | a new board has 49 empty cells |
| Tableros.Tablero.Clonar | src/noventagrados/modelo/Tablero.java:84-96 | the clone is a new board with the same content at every coordinate |
| Tableros.Tablero.Colocar | src/noventagrados/modelo/Tablero.java:105-112 | the new content is `Colocada` of the old one |
| Tableros.Tablero.FijarCelda | src/noventagrados/modelo/Tablero.java:194-199 | the new content is `Fijada` of the old one |
| Tableros.Tablero.ConsultarCelda | src/noventagrados/modelo/Tablero.java:120-123 | null exactly off the board; otherwise a new cell copy with that coordinate and that content |
| Tableros.Tablero.ConsultarCeldas | src/noventagrados/modelo/Tablero.java:130-138 | 49 new cell copies in row-major order, each with its coordinate and content |
| Tableros.Tablero.ConsultarNumeroFilas | src/noventagrados/modelo/Tablero.java:145-147 | always 7 |
| Tableros.Tablero.ConsultarNumeroColumnas | src/noventagrados/modelo/Tablero.java:154-156 | always 7 |
| Tableros.Tablero.EliminarPieza | src/noventagrados/modelo/Tablero.java:165-172 | the new content is `Eliminada` of the old one |
| Consultor.CalcularSentido | src/noventagrados/control/TableroConsultor.java:42-63 | East or West exactly along a shared row with a larger or smaller column; South or North exactly along a shared column with a larger or smaller row; none exactly for identical or diagonal points |
| Consultor.DistanciaEnHorizontal | src/noventagrados/control/TableroConsultor.java:72-77 | never below -1; -1 exactly when the rows differ; otherwise the column offset up to sign |
| Consultor.DistanciaEnVertical | src/noventagrados/control/TableroConsultor.java:86-91 | never below -1; -1 exactly when the columns differ; otherwise the row offset up to sign |
| Consultor.SentidoYDistanciaLlevanAlDestino | src/noventagrados/control/TableroConsultor.java:42-91 | when a direction exists, the distance along it is positive, and that many steps from the origin reach the destination |
| Consultor.ContarOcupadasEsCardinal | src/noventagrados/control/TableroConsultor.java:117-145 | the occupancy count is the size of the set of occupied positions |
| Consultor.ContarOcupadas | src/noventagrados/control/TableroConsultor.java:117-145 | the count of occupied cells in a line is at most its length, and 0 exactly when none of them is occupied |
| Consultor.NumeroPiezasEnHorizontal | src/noventagrados/control/TableroConsultor.java:117-127 | the row count is in 0..7, at least 1 when the coordinate itself is occupied, and 0 exactly when the row is empty |
| Consultor.NumeroPiezasEnVertical | src/noventagrados/control/TableroConsultor.java:135-145 | the column count covers the same three facts |
| Consultor.ContarPieza | src/noventagrados/control/TableroConsultor.java:100-109 | the count behind `NumeroPiezas`, taken over the first n slots: the count is at most the cells scanned, and 0 exactly when none of them holds that piece |
| Consultor.HayReinaSiiNumeroPositivo | src/noventagrados/control/TableroConsultor.java:171-179 | `HayReina`: a queen is present exactly when that side's queen count is positive |
| Consultor.ReinaEn | src/noventagrados/control/TableroConsultor.java:171-179 | a queen of a side on any cell means the side has its queen |
| Consultor.ReinaEnElCentro | src/noventagrados/control/TableroConsultor.java:154-162 | `EstaReinaEnElCentro`: the centre is (3,3); a centred queen is on the board; both sides cannot hold the centre |
| Consultor.ConsultarNumeroPiezasEnHorizontal | src/noventagrados/control/TableroConsultor.java:117-127 | the loop's count is the row count |
| Consultor.ConsultarNumeroPiezasEnVertical | src/noventagrados/control/TableroConsultor.java:135-145 | the loop's count is the column count |
| Consultor.ConsultarNumeroPiezas | src/noventagrados/control/TableroConsultor.java:100-109 | the loop's count is the number of cells holding that kind and side |
| Consultor.HayReinaEn | src/noventagrados/control/TableroConsultor.java:171-179 | the early-return loop answers whether some cell holds that side's queen |
| Consultor.EstaReinaEnElCentroEn | src/noventagrados/control/TableroConsultor.java:154-162 | true exactly when the centre holds that side's queen |
| Cajas.Anadida | src/noventagrados/control/Caja.java:51-58 | the box invariant is kept; the result is the old contents or those plus the piece at the end; it changes exactly for a piece of the box's side offered to a box with fewer than 7 |
| Cajas.DelColor | src/noventagrados/control/Caja.java:51-58 | the pieces of one side among those offered, never more than were offered |
| Cajas.AnadidasTodasSon | src/noventagrados/control/Caja.java:51-58 | a box offered several pieces keeps its contents and takes the offered pieces of its own side in order until it holds 7 |
| Cajas.ContarTipo | src/noventagrados/control/Caja.java:112-120 | the per-kind count never exceeds the number held |
| Cajas.PeonesMasReinas | src/noventagrados/control/Caja.java:112-120 | pawns plus queens is the number held |
| Cajas.Caja.constructor | src/noventagrados/control/Caja.java:34-40 | a new box has the given side and is empty |
| Cajas.Caja.Anadir | src/noventagrados/control/Caja.java:51-58 | the contents become `Anadida` of the old ones, and the invariant holds |
| Cajas.Caja.Clonar | src/noventagrados/control/Caja.java:66-72 | a new box with the same side and the same pieces in order |
| Cajas.Caja.ConsultarColor | src/noventagrados/control/Caja.java:79-81 | the box's side |
| Cajas.Caja.ConsultarPiezas | src/noventagrados/control/Caja.java:89-95 | exactly the held pieces, in insertion order: at most 7 and all of the box's side |
| Cajas.Caja.ContarPiezas | src/noventagrados/control/Caja.java:102-104 | exactly the number held, never more than 7 |
| Cajas.Caja.ContarPiezasDeTipo | src/noventagrados/control/Caja.java:112-120 | the loop's count is the per-kind count |
| Reglas.Nuevo | src/noventagrados/control/Arbitro.java:60-69 | a new referee's boxes are valid |
| Reglas.ConTurnoCambiado | src/noventagrados/control/Arbitro.java:74-76 | the turn is set and different afterwards: the contrary of a set turn, or White for an unset one; board, counter and boxes are unchanged |
| Reglas.TurnoCambiadoDosVeces | src/noventagrados/control/Arbitro.java:74-76 | once a turn is set, two changes restore the state |
| Reglas.ColocadasEn | src/noventagrados/control/Arbitro.java:102-118 | `Colocadas`: after placing, a listed on-board coordinate holds the piece of its last occurrence, and an unlisted one keeps its content |
| Reglas.ColocadasAusente | src/noventagrados/control/Arbitro.java:102-118 | a coordinate the list never names keeps its content |
| Reglas.ColocadasUltima | src/noventagrados/control/Arbitro.java:102-118 | a coordinate whose last occurrence in the list is at position i holds the piece at position i |
| Reglas.CoordenadasInicialesDistintas | src/noventagrados/control/Arbitro.java:124-166 | the opening lists have 14 entries each and name 14 distinct on-board cells |
| Reglas.AperturaDeLista | src/noventagrados/control/Arbitro.java:124-166 | each listed opening cell holds its listed piece in the reference layout, and every occupied cell of that layout is listed |
| Reglas.InicialEsApertura | src/noventagrados/control/Arbitro.java:124-166 | `Inicial` and its layout `Apertura`: the opening is White queen at (0,0), Black queen at (6,6), White pawns at (0,1..3) and (1..3,0), Black pawns at (3..5,6) and (6,3..5), and every other cell empty; White to move, 0 moves, empty boxes, both queens present |
| Reglas.ReinasDeApertura | src/noventagrados/control/Arbitro.java:124-166 | a board with the opening layout holds the queens of both colours |
| Reglas.AperturaTotal | src/noventagrados/control/Arbitro.java:124-166 | placing the layout's pieces at distinct cells that cover every occupied cell of the layout, on an empty board, yields exactly the layout |
| Reglas.Ganador | src/noventagrados/control/Arbitro.java:216-244 | a winner always has its queen on the board |
| Reglas.GanadorSii | src/noventagrados/control/Arbitro.java:216-244 | a side wins exactly when its queen is present and either the other queen is gone or its own queen holds the centre |
| Reglas.FinalizadaSii | src/noventagrados/control/Arbitro.java:678-689 | `Finalizada`: the game is over exactly when some queen is missing or some queen holds the centre; with no queens it is over with no winner |
| Reglas.LegalSii | src/noventagrados/control/Arbitro.java:629-667 | `Legal` (esMovimientoLegal): a move is legal exactly when all of these hold: the game is not over, both ends are on the board, the origin holds a piece of the side to move, a direction exists, and the distance along it equals the perpendicular count; a legal move never has origin equal to destination |
| Reglas.Trayectoria | src/noventagrados/control/Arbitro.java:459-533 | every collected coordinate is an occupied on-board cell beyond the origin in the move's direction; `TrayectoriaCaracterizada` gives completeness, order and the stop |
| Reglas.AvanceDesplazar | src/noventagrados/control/Arbitro.java:607-613 | k steps along a direction advance the distance from the origin by k; a cell beyond the origin stays beyond it; k steps from the origin are beyond it exactly when k > 0 |
| Reglas.AdelanteUnica | src/noventagrados/control/Arbitro.java:481-522 | two cells beyond the origin at the same distance along the direction are the same cell |
| Reglas.Parada | src/noventagrados/control/Arbitro.java:481-522 | the stop of the scan: the first offset in 1..edge at which the number of empty cells passed equals the budget, or the edge when no offset does |
| Reglas.ParadaUnica | src/noventagrados/control/Arbitro.java:481-522 | the scan has only one stop |
| Reglas.PiezasHastaMiembro | src/noventagrados/control/Arbitro.java:481-522 | a cell is among the occupied cells up to offset n exactly when it is occupied and lies 1..n steps after the origin |
| Reglas.PiezasHastaOrden | src/noventagrados/control/Arbitro.java:481-522 | the occupied cells up to offset n lie beyond the origin, at most n steps on, at strictly increasing distance |
| Reglas.RecorridoPaso | src/noventagrados/control/Arbitro.java:481-522 | one iteration of the scan before the stop: past the edge or at the stop it returns the occupied cells up to the stop, otherwise it continues with the counts taken one cell further |
| Reglas.RecorridoHastaParada | src/noventagrados/control/Arbitro.java:481-522 | `Recorrido`, the scan loop: started at any offset before the stop, with the empty count and the cells collected so far, it returns the occupied cells up to the stop |
| Reglas.TrayectoriaCaracterizada | src/noventagrados/control/Arbitro.java:459-533 | from an on-board origin the push collects exactly the occupied cells 1 up to the stop steps after the origin, nearest first, and nothing else |
| Reglas.HayPiezaEntreSii | src/noventagrados/control/Arbitro.java:300-345 | `HayPiezaEntre` holds exactly when the move has a direction and some occupied cell lies beyond the origin and no farther than the destination |
| Reglas.VaciasCrece | src/noventagrados/control/Arbitro.java:481-522 | the count of empty cells passed by the scan never decreases |
| Reglas.ColumnaVaciaSinParada | src/noventagrados/control/Arbitro.java:481-533 | with column 0 and (0,1) empty, the scan east from the empty (0,0) has budget 0, never stops before the edge, and so does not return normally |
| Reglas.EmpujeConOrigenVacioLanza | src/noventagrados/control/Arbitro.java:251-287 | with the only piece at (0,2), the move (0,0) to (0,2) has a piece in the way and is a push the source cannot complete (the read at line 529 of the empty origin throws) |
| Reglas.RecorridoAdelante | src/noventagrados/control/Arbitro.java:459-533 | the scan from any offset adds only occupied cells beyond the origin to what it has collected |
| Reglas.Expulsada | src/noventagrados/control/Arbitro.java:404-411 | an ejected piece is offered to its own side's box; board, counter, turn and the other box are unchanged |
| Reglas.MoverUna | src/noventagrados/control/Arbitro.java:362-391 | one intermediate move keeps counter and turn; `MoverUnaEfectos` states where the piece goes |
| Reglas.MoverIntermedias | src/noventagrados/control/Arbitro.java:362-391 | the farthest-first shift keeps counter and turn; `MoverIntermediasDestinos`, `MoverIntermediasVacias` and `MoverIntermediasCajas` state where the pieces go |
| Reglas.MoverUnaMarco | src/noventagrados/control/Arbitro.java:362-391 | one intermediate move changes only the emptied cell and the landing cell, only extends the boxes, and keeps them valid |
| Reglas.MoverIntermediasMarco | src/noventagrados/control/Arbitro.java:362-391 | the whole shift changes only cells beyond the origin, keeps counter and turn, only extends the boxes, and keeps them valid |
| Reglas.MoverUnaEfectos | src/noventagrados/control/Arbitro.java:362-411 | for a non-zero distance, moving an empty cell changes nothing; otherwise the cell is emptied and the piece is on its landing cell with the boxes unchanged, or, landing off the board, is offered to both boxes (only its own side's box takes it) |
| Reglas.MoverIntermediasFuera | src/noventagrados/control/Arbitro.java:362-391 | the shift leaves every cell that is neither collected nor a landing cell as it was |
| Reglas.MoverUnaPrevias | src/noventagrados/control/Arbitro.java:362-391 | moving the farthest collected piece leaves the nearer collected cells as they were |
| Reglas.MoverIntermediasDestinos | src/noventagrados/control/Arbitro.java:362-391 | for collected occupied cells beyond the origin, nearest first, and a positive distance, every piece that stays on the board ends on its landing cell |
| Reglas.UltimaVacia | src/noventagrados/control/Arbitro.java:362-391 | the farthest collected cell, when no piece lands on it, ends empty |
| Reglas.MoverIntermediasVacias | src/noventagrados/control/Arbitro.java:362-391 | with the same collected cells, every collected cell on which no piece lands ends empty |
| Reglas.ExpulsadasIguales | src/noventagrados/control/Arbitro.java:362-411 | the pieces shifted off the board depend only on what the collected cells hold |
| Reglas.MoverIntermediasCajas | src/noventagrados/control/Arbitro.java:362-411 | each box receives the pieces shifted off the board, farthest first, each offered as `añadir` takes it |
| Reglas.EmpujadoEfectos | src/noventagrados/control/Arbitro.java:251-287 | `Empujado`, through `TrasIntermedias`, on a push the source completes: counter +1 and turn kept; the destination gets the origin's piece and the origin is emptied when the two differ; the boxes only grow and stay valid; with nothing in the way, boxes and all other cells are unchanged; otherwise only cells beyond the origin change |
| Reglas.EmpujadoDesplaza | src/noventagrados/control/Arbitro.java:251-287 | `Empujado` with a piece in the way: every collected piece that stays on the board ends the move's distance further on; a collected cell other than the destination on which nothing lands ends empty; every other cell neither collected nor landed on keeps its content; each box receives the pieces shifted off the board as `añadir` takes them |
| Reglas.JugadoLegal | src/noventagrados/control/Arbitro.java:251-287 | `Jugado` of a legal move: the push completes, and the ply raises the counter by 1, passes the turn to the contrary side, leaves the origin empty with its piece on the destination, and keeps the boxes valid |
| Reglas.JugadoCuenta | src/noventagrados/control/undo/MaquinaDelTiempoConJugadas.java:51-56 | `Jugado`: an illegal ply changes nothing; a legal one adds exactly 1 and passes the turn; either keeps the boxes valid and a set turn set |
| Arbitros.Arbitro.Estado | src/noventagrados/control/Caja.java:51-58 | the referee's boxes always keep the box invariant |
| Arbitros.Arbitro.constructor | src/noventagrados/control/Arbitro.java:60-69 | the referee takes the given board, with 0 moves, no turn and two empty boxes |
| Arbitros.Arbitro.CambiarTurno | src/noventagrados/control/Arbitro.java:74-76 | the new state is `ConTurnoCambiado` of the old one |
| Arbitros.Arbitro.Clonar | src/noventagrados/control/Arbitro.java:84-91 | a referee sharing no object with the original and holding the same state |
| Arbitros.Arbitro.ColocarPiezas | src/noventagrados/control/Arbitro.java:102-118 | an illegal-argument error exactly for lists of different lengths, with the state unchanged; otherwise the board is the placement, the turn is the given one, and counter and boxes are unchanged |
| Arbitros.Arbitro.ColocarPiezasConfiguracionInicial | src/noventagrados/control/Arbitro.java:124-166 | the opening lists are placed and White is to move |
| Arbitros.Arbitro.ConsultarCaja | src/noventagrados/control/Arbitro.java:175-182 | the referee's own box of that side, holding that side's contents |
| Arbitros.Arbitro.ConsultarNumeroJugada | src/noventagrados/control/Arbitro.java:189-191 | the move counter |
| Arbitros.Arbitro.ConsultarTurno | src/noventagrados/control/Arbitro.java:207-209 | the turn, none until set |
| Arbitros.Arbitro.ConsultarTablero | src/noventagrados/control/Arbitro.java:198-200 | a new board with the referee's content |
| Arbitros.Arbitro.ConsultarTurnoGanador | src/noventagrados/control/Arbitro.java:216-244 | the winner the rules give |
| Arbitros.Arbitro.EstaFinalizadaPartida | src/noventagrados/control/Arbitro.java:678-689 | whether the game is over by the rules |
| Arbitros.Arbitro.EsMovimientoLegal | src/noventagrados/control/Arbitro.java:629-667 | the legality the rules give, with no state change |
| Arbitros.Arbitro.Empujar | src/noventagrados/control/Arbitro.java:251-287 | on a push the source completes (`EmpujeSinExcepcion`), the new state is `Empujado` of the old one, so `EmpujadoEfectos` and `EmpujadoDesplaza` apply |
| Arbitros.Arbitro.CeldaOcupada | src/noventagrados/control/Arbitro.java:319-322 | the board's copy of the cell exists and holds a piece |
| Arbitros.Arbitro.HayPiezaEntreOrigenYDestino | src/noventagrados/control/Arbitro.java:300-345 | the loop finds a piece exactly when some cell after the origin, up to and including the destination, is occupied |
| Arbitros.Arbitro.ObtenerPiezasEnTrayectoria | src/noventagrados/control/Arbitro.java:459-533 | on a scan the source completes (`TrayectoriaSinExcepcion`), returns exactly `Trayectoria`, with the perpendicular count of the origin as the budget of empty cells |
| Arbitros.Arbitro.RecorrerTrayectoria | src/noventagrados/control/Arbitro.java:481-522 | the scanning loop, with its early return, collects exactly the scan `Recorrido` from offset 1 |
| Arbitros.Arbitro.MoverPiezasIntermedias | src/noventagrados/control/Arbitro.java:362-391 | the reverse loop leaves exactly `MoverIntermedias` of the collected coordinates |
| Arbitros.Arbitro.ManejarPiezaExpulsada | src/noventagrados/control/Arbitro.java:404-411 | the new state is `Expulsada` of the old one |
| Arbitros.Arbitro.EqualsSiiMismoEstado | src/noventagrados/control/Arbitro.java:716-727 | `Equals`: two referees are equal exactly when their states are equal |
| Arbitros.EmpujarYCambiarTurno | src/noventagrados/control/undo/MaquinaDelTiempoConArbitros.java:85-87 | on a legal move, push then turn change leaves `Jugado` of the old state |
| Arbitros.JugarSiEsLegal | src/noventagrados/control/undo/MaquinaDelTiempoConJugadas.java:51-56 | a legal move is pushed and the turn changes, an illegal one changes nothing: the new state is `Jugado` of the old one |
| Historias.ReproducirCuenta | src/noventagrados/control/undo/MaquinaDelTiempoConJugadas.java:44-59 | `Reproducir`: the replayed counter is at most the log length; boxes stay valid; a set turn stays set; when every move is legal the counter is exactly the log length and the turn alternates |
| Historias.ReproducirLegales | src/noventagrados/control/undo/MaquinaDelTiempoConJugadas.java:44-59 | replaying an all-legal log adds its length to the counter and passes the turn once per move |
| Historias.AlternaParidad | src/noventagrados/control/undo/MaquinaDelTiempoConJugadas.java:44-59 | after an even number of turn passes the starting side moves again, after an odd number the other side |
| Historias.ReproducirUnaMas | src/noventagrados/control/undo/MaquinaDelTiempoConJugadas.java:51-56 | replaying one more move is one more ply after the replay, and the log is all-legal exactly when its prefix is and the new move is legal there |
| Historias.ReproducirPrefijo | src/noventagrados/control/undo/MaquinaDelTiempoConJugadas.java:51-56 | replaying the first i+1 moves is one more ply applied to the replay of the first i |
| Historias.HistorialExtendido | src/noventagrados/control/undo/MaquinaDelTiempoConArbitros.java:80-92 | appending the ply's state and its move keeps the sequence of states a history |
| Historias.HistorialRecortado | src/noventagrados/control/undo/MaquinaDelTiempoConArbitros.java:68-74 | dropping the last state and its move keeps a history |
| MaquinasConArbitros.MaquinaDelTiempoConArbitros.constructor | src/noventagrados/control/undo/MaquinaDelTiempoConArbitros.java:31-40 | one snapshot, the opening state, and no accepted moves |
| MaquinasConArbitros.MaquinaDelTiempoConArbitros.ConsultarArbitroActual | src/noventagrados/control/undo/MaquinaDelTiempoConArbitros.java:46-53 | a new clone whose state is the last snapshot's state, which is the replay of the accepted moves from the opening |
| MaquinasConArbitros.MaquinaDelTiempoConArbitros.ConsultarNumeroJugadasEnHistorico | src/noventagrados/control/undo/MaquinaDelTiempoConArbitros.java:59-62 | the number of accepted moves, never negative |
| MaquinasConArbitros.MaquinaDelTiempoConArbitros.DeshacerJugada | src/noventagrados/control/undo/MaquinaDelTiempoConArbitros.java:68-74 | with more than one snapshot the last state and move are dropped; with only the opening nothing changes |
| MaquinasConArbitros.MaquinaDelTiempoConArbitros.HacerJugada | src/noventagrados/control/undo/MaquinaDelTiempoConArbitros.java:80-92 | accepted exactly when legal in the current state, and then the ply's state and the move are appended; otherwise `Fallo(ArgumentoIlegal)` and nothing changes |
| MaquinasConArbitros.MaquinaDelTiempoConArbitros.JugarSobreClon | src/noventagrados/control/undo/MaquinaDelTiempoConArbitros.java:82-87 | a new clone, the move's legality in the current state, and for a legal move the ply applied to the clone |
| MaquinasConArbitros.MaquinaDelTiempoConArbitros.Apilar | src/noventagrados/control/undo/MaquinaDelTiempoConArbitros.java:88 | the new referee becomes the last snapshot, its state and the move are appended to the states and accepted moves, the history stays valid and its footprint grows by the new referee's objects only |
| MaquinasConArbitros.HacerYDeshacer | src/noventagrados/control/undo/MaquinaDelTiempoConArbitros.java:68-92 | making a move and undoing it if accepted restores the snapshot states and the accepted moves, and so the current referee (the last state); a move is accepted exactly when it is legal in the current one |
| MaquinasConJugadas.MaquinaDelTiempoConJugadas.constructor | src/noventagrados/control/undo/MaquinaDelTiempoConJugadas.java:33-36 | an empty log |
| MaquinasConJugadas.MaquinaDelTiempoConJugadas.ConsultarArbitroActual | src/noventagrados/control/undo/MaquinaDelTiempoConJugadas.java:44-59 | a new referee whose state is the replay of the log from the opening |
| MaquinasConJugadas.MaquinaDelTiempoConJugadas.ConsultarNumeroJugadasEnHistorico | src/noventagrados/control/undo/MaquinaDelTiempoConJugadas.java:67-69 | the log length, illegal moves included |
| MaquinasConJugadas.MaquinaDelTiempoConJugadas.DeshacerJugada | src/noventagrados/control/undo/MaquinaDelTiempoConJugadas.java:75-79 | a non-empty log loses its last move; an empty one stays empty |
| MaquinasConJugadas.MaquinaDelTiempoConJugadas.HacerJugada | src/noventagrados/control/undo/MaquinaDelTiempoConJugadas.java:87-89 | the move is appended without any check |
| MaquinasConJugadas.HacerYDeshacer | src/noventagrados/control/undo/MaquinaDelTiempoConJugadas.java:75-89 | making a move and undoing it restores the log, and so the replayed referee |

## Left out

- **Not modelled:**
  - The text UI, the `package-info` files and the undo interface and abstract base class.
    They hold no game logic.
  - The start `Date` of both histories, including `obtenerFechaInicio`. It is an opaque
    timestamp.
  - `hashCode`, `toString` and `Tablero.aTexto`. They are hashing and console rendering.
- **`obtenerPiezasEnPerpendicular`** (src/noventagrados/control/Arbitro.java:553-591) is left
  out. The scan calls it only once it reaches the board edge, and discards the result.
  - When the origin holds a piece, that call changes nothing.
  - Before the call, Arbitro.java:529 reads the side of the origin's piece. On an empty origin
    this throws a NullPointerException.
  - The model does not complete such a push. `Reglas.TrayectoriaSinExcepcion` and
    `Reglas.EmpujeSinExcepcion` give the exact condition under which the source returns
    normally, and the scan and push members require it.
- **Null arguments and null list elements are ruled out by typing.** This covers the null
  checks of the referee, box and piece constructors and of `colocarPiezas`. It also covers
  null entries in the lists given to `colocarPiezas`, which the source passes on to
  `Tablero.colocar`, which ignores them (src/noventagrados/modelo/Tablero.java:105-112).
  - The one place where null is part of the behaviour, an absent piece for `colocar` and
    `añadir`, is modelled with `Option`.
  - `Celda.equals` and `Pieza.equals` are datatype and field equality.
  - `Pieza.clonar` returns an equal immutable value, so a piece needs no clone member.
- **Some functions have no contract of their own.** These are `Tablero.estaEnTablero`,
  `Tablero.equals`, `Caja.equals`, `Celda.consultarCoordenada`, `Celda.consultarPieza`,
  `Celda.estaVacia` and the rule functions `Legal`, `Finalizada`, `Colocadas`, `Inicial`,
  `Apertura`, `Empujado`, `TrasIntermedias`, `Jugado`, `Recorrido`, `HayPiezaEntre`,
  `NumeroPiezas`, `HayReina`, `EstaReinaEnElCentro` and `Reproducir`. The rows of the lemmas
  that state their laws name them; `Celda.consultarCoordenada` returns the cell's immutable
  coordinate, which the `EqualsEquivalencia` row uses.
- **The board's cells are slots of one array, not separate `Celda` objects.**
  - Reads hand out new `Celda` copies, as the source's `consultarCelda` does.
  - Not modelled: a live `Celda` returned by `obtenerCelda`, and aliasing between a move's cells
    and the board. The referee reads only the coordinates of a move's cells.
- Arbitros.Arbitro.Empujar requires two things the source does not check before it starts:
  - Both coordinates of the move must be on the board. The source dereferences the cells of
    an off-board destination and fails with a NullPointerException.
  - `EmpujeSinExcepcion` must hold: no piece in the way, or, when there is one, a scan that
    stops before the edge or an occupied origin. Otherwise the source fails with a
    NullPointerException at Arbitro.java:529. `Reglas.EmpujeConOrigenVacioLanza` exhibits
    such a move: with a single piece on the board, at (0,2), it pushes from an empty (0,0)
    to (0,2).
  - Both undo histories only push moves that passed `esMovimientoLegal`. That check ensures
    both conditions, since a legal move starts from an occupied origin.
- Arbitros.Arbitro.ConsultarCaja returns the live box, as the source does. A caller that
  changes it changes the referee; the model does not track such changes.
- **Integers are unbounded.** The counter and the coordinates stay far from Java's `int` range
  on a 7×7 board, so overflow is not modelled.
- MaquinasConArbitros.MaquinaDelTiempoConArbitros.ConsultarArbitroActual never reaches the
  empty-history exception. The history always holds the opening snapshot, so that case does
  not exist in the model.
