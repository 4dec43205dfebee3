/** The option type and the byte that the other modules share. An error is never inspected by the code modelled
    here, only its presence is, so a call that may fail gives an option too. */
module Wrappers {

  datatype Option<+T> = None | Some(value: T)

  type Byte = x: int | 0 <= x < 0x100
}
