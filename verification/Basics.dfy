/** Small things shared by the models. */
module Basics {

  newtype u8 = x: int | 0 <= x < 0x100

  type Bytes = seq<u8>

  datatype Option<T> = None | Some(value: T)

  lemma Assoc<T>(a: seq<T>, b: seq<T>, c: seq<T>)
    ensures a + b + c == a + (b + c)
  {
  }
}
