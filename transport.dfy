/**
 * The abstract endpoint: what one `endpoint.Read(data)` call does to the
 * caller's 8-byte buffer. The USB library itself is not modelled; a read
 * is an input value.
 */
module Transport {
  import opened Common
  import opened HidCodec

  /**
   * One read on the IN endpoint: the bytes the transfer delivered and
   * whether the library also reported an error (a failed interrupt
   * transfer may still have delivered some bytes).
   */
  datatype Transfer = Transfer(bytes: seq<uint8>, failed: bool)

  /** The byte count the read returns: at most the buffer's length. */
  function Count(bytes: seq<uint8>): (n: nat)
    ensures n <= BufferLength && n <= |bytes|
    ensures n == BufferLength || n == |bytes|
  {
    if |bytes| < BufferLength then |bytes| else BufferLength
  }

  /** The buffer after a read: the delivered prefix, the rest left as it was. */
  function Fill(data: seq<uint8>, bytes: seq<uint8>): (r: seq<uint8>)
    requires |data| == BufferLength
    ensures |r| == BufferLength
    ensures forall i :: 0 <= i < Count(bytes) ==> r[i] == bytes[i]
    ensures forall i :: Count(bytes) <= i < BufferLength ==> r[i] == data[i]
  {
    bytes[..Count(bytes)] + data[Count(bytes)..]
  }

  /** A full read overwrites the whole buffer, so stale bytes play no part. */
  lemma FullReadOverwrites(data: seq<uint8>, bytes: seq<uint8>)
    requires |data| == BufferLength && |bytes| == BufferLength
    ensures Fill(data, bytes) == bytes
  {
  }

  /** A fresh 8-byte buffer, as `make([]byte, BufferLength)` gives. */
  const Zeros: seq<uint8> := [0, 0, 0, 0, 0, 0, 0, 0]

  /** `endpoint.Read(data)`: writes the delivered bytes into `data` in place. */
  method EndpointRead(data: array<uint8>, t: Transfer) returns (n: nat, failed: bool)
    requires data.Length == BufferLength
    modifies data
    ensures data[..] == Fill(old(data[..]), t.bytes)
    ensures n == Count(t.bytes) && failed == t.failed
  {
    n := Count(t.bytes);
    forall i | 0 <= i < n {
      data[i] := t.bytes[i];
    }
    failed := t.failed;
  }
}
