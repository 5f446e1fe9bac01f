/** Types shared by several components. */
module Common {

  type Addr = nat

  datatype Option<T> = None | Some(value: T)
}
