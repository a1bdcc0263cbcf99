/** Result, Option and error types shared by every component. */
module Common {

  /** Errors of src/error.rs, without their message text. */
  datatype Error =
    | InvalidInput
    | StashOverflow
    | BlockNotFound(id: nat)

  datatype Result<+T> = Ok(value: T) | Err(error: Error)

  datatype Option<+T> = None | Some(value: T)

  /** A digest. Hash functions are parameters of the authenticated stores; nothing is assumed of them. */
  type Hash = int

  const U32_MAX: nat := 0xFFFF_FFFF
  const U64_MAX: nat := 0xFFFF_FFFF_FFFF_FFFF
}
