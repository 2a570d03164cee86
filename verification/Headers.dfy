/** The seven-byte plaintext record header: marker, two reserved bytes, padding and payload lengths. */
module Headers {
  import opened Protocol

  datatype Header = Header(paddingLen: nat, payloadLen: nat)

  function PlainHeader(paddingLen: nat, payloadLen: nat): (h: Bytes)
    requires paddingLen <= MAX_PACKET_SIZE_V6 && payloadLen <= MAX_PACKET_SIZE_V6
    ensures |h| == HEADER_PLAIN_LEN
  {
    [HEADER_VERSION_MARKER, 0, 0] + U16ToBytes(paddingLen) + U16ToBytes(payloadLen)
  }

  function Fields(h: Bytes): (r: Header)
    requires |h| == HEADER_PLAIN_LEN
    ensures r.paddingLen <= MAX_PACKET_SIZE_V6 && r.payloadLen <= MAX_PACKET_SIZE_V6
  {
    Header(U16FromBytes(h[3], h[4]), U16FromBytes(h[5], h[6]))
  }

  function ParseV4(h: Bytes): Result<Header>
    requires |h| == HEADER_PLAIN_LEN
  {
    if h[0] != HEADER_VERSION_MARKER then Err(InvalidHeader)
    else if Fields(h).paddingLen > MAX_PACKET_SIZE || Fields(h).payloadLen > MAX_PACKET_SIZE then Err(PayloadTooLarge)
    else Ok(Fields(h))
  }

  function ParseV6(h: Bytes): Result<Header>
    requires |h| == HEADER_PLAIN_LEN
  {
    if h[0] != HEADER_VERSION_MARKER then Err(InvalidHeader)
    else if h[1] != 0 || h[2] != 0 then Err(InvalidReserved(Or(h[1], h[2])))
    else Ok(Fields(h))
  }

  /** Bitwise or, from exclusive or and and. */
  function Or(a: byte, b: byte): byte
  {
    Xor(Xor(a, b), And(a, b))
  }

  /** Parsing a header returns the lengths it was built from; v4 refuses those above its own limit. */
  lemma HeaderRoundTrip(paddingLen: nat, payloadLen: nat)
    requires paddingLen <= MAX_PACKET_SIZE_V6 && payloadLen <= MAX_PACKET_SIZE_V6
    ensures ParseV6(PlainHeader(paddingLen, payloadLen)) == Ok(Header(paddingLen, payloadLen))
    ensures ParseV4(PlainHeader(paddingLen, payloadLen)) ==
      if paddingLen <= MAX_PACKET_SIZE && payloadLen <= MAX_PACKET_SIZE
      then Ok(Header(paddingLen, payloadLen)) else Err(PayloadTooLarge)
  {
    var h := PlainHeader(paddingLen, payloadLen);
    assert h[3..5] == U16ToBytes(paddingLen) && h[5..7] == U16ToBytes(payloadLen);
    U16RoundTrip(paddingLen);
    U16RoundTrip(payloadLen);
  }
}
