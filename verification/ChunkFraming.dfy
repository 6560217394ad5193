/** The common shape of the two chunked codings, the transfer coding of HTTP (section 7.1 of RFC 9112)
    and aws-chunked: data chunks, a chunk of size zero, trailer lines and an empty line. */
module ChunkFraming {
  import opened Bytes

  /** A data chunk on the wire: its header line and its bytes. */
  datatype WireChunk = WireChunk(header: bytes, data: bytes)

  function EncodeChunk(c: WireChunk): bytes {
    c.header + CRLF + c.data + CRLF
  }

  function Encode(chunks: seq<WireChunk>): bytes {
    if chunks == [] then [] else EncodeChunk(chunks[0]) + Encode(chunks[1..])
  }

  function DataOf(chunks: seq<WireChunk>): bytes {
    if chunks == [] then [] else chunks[0].data + DataOf(chunks[1..])
  }

  /** Data chunks, the zero-size chunk, trailer lines and the empty line that ends them. */
  function Wire(chunks: seq<WireChunk>, zero: bytes, lines: seq<bytes>): bytes {
    Encode(chunks) + (zero + CRLF + (EncodeLines(lines) + CRLF))
  }
}
