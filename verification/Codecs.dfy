/** Cursors as texts: JSON inside base64, or base64 inside JSON, taken as an injective codec. */
module Codecs {
  import opened Wrappers

  datatype Codec<!C> = Codec(encode: C -> string, decode: string -> Option<C>)

  /** What was encoded decodes to itself, and is never the empty token. */
  ghost predicate IsCodec<C(!new)>(codec: Codec<C>) {
    forall c :: codec.encode(c) != "" && codec.decode(codec.encode(c)) == Some(c)
  }
}
