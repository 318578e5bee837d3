/** Types shared by the components: optional values and 32-bit unsigned integers. */
module Wrappers {

  datatype Option<+T> = None | Some(value: T)

  type u32 = x: int | 0 <= x < 0x1_0000_0000
}
