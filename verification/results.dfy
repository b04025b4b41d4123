/** The value-or-error shape every stage of the assembler returns
    (src/assembler/result.ts), and an optional value for the fields the
    source leaves `undefined`. */
module Results {

  datatype Option<+T> = None | Some(value: T)

  datatype Result<+T, +E> = Ok(value: T) | Err(error: E)

}
