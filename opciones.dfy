/** Optional values and error outcomes. The source uses `null` for "no piece", "no turn yet",
    "no direction" and "no cell", and throws IllegalArgumentException for rejected arguments. */
module Opciones {

  /** A value that may be absent; `None` stands for the source's `null`. */
  datatype Option<+T> = None | Some(value: T)

  /** The exceptions the modelled operations throw on purpose. */
  datatype Excepcion = ArgumentoIlegal

  /** Outcome of an operation that either completes or throws. */
  datatype Resultado = Hecho | Fallo(error: Excepcion)
}
