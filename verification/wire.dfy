/**
 * What the daemon and its clients see of a Unix stream socket. Socket
 * calls are not modelled; their outcomes arrive as values.
 */
module Wire {
  import opened Utf8

  /**
   * The outcome of the liveness probe both sides use: connect to the socket
   * path, send `ping`, read one reply of at most 64 bytes. `Missing` is
   * FileNotFoundError, `Refused` is ConnectionRefusedError and `OtherOsError`
   * any other OSError.
   */
  datatype Probe = Answered(reply: seq<byte>) | Missing | Refused | OtherOsError

  /** One `recv` on a socket with a timeout: the bytes it returned (empty once the peer has closed), or `socket.timeout`. */
  datatype Recv = Chunk(data: seq<byte>) | TimedOut

  /** The probe reads a single reply with `recv(64)`. */
  const PROBE_RECV_SIZE: nat := 64

  /** The bytes of `b"pong"`. */
  const PONG: seq<byte> := [0x70, 0x6F, 0x6E, 0x67]

  /** `b"".join(chunks)`. */
  function Flatten(chunks: seq<seq<byte>>): seq<byte>
  {
    if chunks == [] then [] else Flatten(chunks[..|chunks| - 1]) + chunks[|chunks| - 1]
  }

  lemma FlattenSnoc(chunks: seq<seq<byte>>, last: seq<byte>)
    ensures Flatten(chunks + [last]) == Flatten(chunks) + last
  {
    assert (chunks + [last])[..|chunks|] == chunks;
  }

  lemma {:induction false} FlattenCons(first: seq<byte>, rest: seq<seq<byte>>)
    ensures Flatten([first] + rest) == first + Flatten(rest)
    decreases |rest|
  {
    if rest == [] {
      assert [first] + rest == [first];
      assert Flatten([first]) == Flatten([]) + first;
    } else {
      var init := rest[..|rest| - 1];
      var last := rest[|rest| - 1];
      assert [first] + rest == ([first] + init) + [last];
      assert rest == init + [last];
      FlattenSnoc([first] + init, last);
      FlattenSnoc(init, last);
      FlattenCons(first, init);
    }
  }
}
