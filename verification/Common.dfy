/** Types shared by all the models. */
module Common {

  datatype Option<+T> = None | Some(value: T)

  newtype byte = x: int | 0 <= x < 256
}
