/**
 * The byte layer of the archive: `_to_json_bytes` followed by zstd
 * compression on the way in, decompression followed by `_from_json_bytes`
 * on the way out.  The model does not fix the bytes; the store is given an
 * `encode` and a `decode`, and a property that reads a value back assumes
 * only that decoding gives back that one value.
 */
module Codec {
  import opened Wrappers
  import opened Json

  newtype byte = x: int | 0 <= x < 256

  type Bytes = seq<byte>

  /** Decoding the encoding of `j` gives `j` back; `None` stands for a decode error. */
  predicate Decodes(encode: Json -> Bytes, decode: Bytes -> Option<Json>, j: Json) {
    decode(encode(j)) == Some(j)
  }
}
