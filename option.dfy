/** Python's `None` versus a present value. */
module Opt {

  datatype Option<+T> = None | Some(value: T)

}
