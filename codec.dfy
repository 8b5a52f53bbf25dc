/**
 * Serialisation of records into the bytes the store keeps. The JSON
 * encoder and decoder are not modelled: a codec is a pair of functions
 * given by the caller, and the lemmas that need it require that decoding
 * what was encoded gives the record back.
 */
module Codec {
  import opened Wrappers

  type Bytes = seq<bv8>

  datatype Codec<!T> = Codec(encode: T -> Bytes, decode: Bytes -> Option<T>)

  ghost predicate RoundTrips<T(!new)>(c: Codec<T>)
  {
    forall x: T :: c.decode(c.encode(x)) == Some(x)
  }
}
