/** Types that several of the other modules use. */
module Prelude {

  datatype Option<T> = None | Some(value: T)

  type int8 = x: int | -128 <= x < 128
}
