/** SOCKS5 messages (sections 3 to 7 of RFC 1928), parsed from as much as has arrived. */
module Socks5 {
  import opened Headers
  import opened Protocol

  const VERSION: byte := 5
  const ATYP_IPV4: byte := 1
  const ATYP_DOMAIN: byte := 3
  const ATYP_IPV6: byte := 4
  const MAX_DOMAIN_LEN := 255
  const MAX_GREETING_LEN := 257
  const MAX_REQUEST_LEN := 262

  datatype ParseState<+T> = Need(total: nat) | Done(value: T)

  datatype Address =
    | Ipv4(ip: Bytes, port: nat)
    | Ipv6(ip: Bytes, port: nat)
    | Domain(host: Bytes, port: nat)

  /** Which byte strings are text. */
  type Text = Bytes -> bool

  /** Addresses the encoder can be handed. */
  predicate Proper(utf8: Text, a: Address)
  {
    && a.port < 0x1_0000
    && match a
       case Ipv4(ip, _) => |ip| == 4
       case Ipv6(ip, _) => |ip| == 16
       case Domain(host, _) => utf8(host)
  }

  // ---- Addresses ----

  function EncodedAddrLen(a: Address): (r: Result<nat>)
    ensures r.Err? ==> a.Domain? && r.error == if a.host == [] then EmptyHost else HostTooLong
  {
    match a
    case Ipv4(_, _) => Ok(7)
    case Ipv6(_, _) => Ok(19)
    case Domain(host, _) =>
      if host == [] then Err(EmptyHost) else if |host| > MAX_DOMAIN_LEN then Err(HostTooLong) else Ok(4 + |host|)
  }

  function AddrBytes(a: Address): Bytes
    requires a.port < 0x1_0000
  {
    match a
    case Ipv4(ip, port) => [ATYP_IPV4] + ip + U16ToBytes(port)
    case Ipv6(ip, port) => [ATYP_IPV6] + ip + U16ToBytes(port)
    case Domain(host, port) => [ATYP_DOMAIN, (|host| % 256) as byte] + host + U16ToBytes(port)
  }

  /** `LEN HOST PORT`, with the host checked to be text. */
  function SplitHostPort(utf8: Text, src: Bytes): Result<(Bytes, nat)>
  {
    if src == [] then Err(Truncated)
    else
      var n := src[0] as nat;
      if |src| < 1 + n + 2 then Err(Truncated)
      else if !utf8(src[1..1 + n]) then Err(InvalidHostUtf8)
      else Ok((src[1..1 + n], U16FromBytes(src[1 + n], src[2 + n])))
  }

  /** The length an address takes, once its first bytes say so. */
  function AddrLen(buf: Bytes): (r: Result<ParseState<nat>>)
    ensures r.Ok? && r.value.Need? ==> |buf| < r.value.total <= 2
    ensures r.Ok? && r.value.Done? ==> 5 <= r.value.value <= 4 + MAX_DOMAIN_LEN && buf != []
  {
    if buf == [] then Ok(Need(1))
    else if buf[0] == ATYP_IPV4 then Ok(Done(7))
    else if buf[0] == ATYP_IPV6 then Ok(Done(19))
    else if buf[0] != ATYP_DOMAIN then Err(InvalidAddressType(buf[0]))
    else if |buf| == 1 then Ok(Need(2))
    else if buf[1] == 0 then Err(EmptyHost)
    else Ok(Done(4 + buf[1] as nat))
  }

  /** `ATYP ADDR PORT` at the start of `buf`, with the bytes it takes. */
  function ParseAddr(utf8: Text, buf: Bytes): (r: Result<ParseState<(Address, nat)>>)
    ensures r.Ok? && r.value.Need? ==> |buf| < r.value.total <= 4 + MAX_DOMAIN_LEN
    ensures r.Ok? && r.value.Done? ==> r.value.value.1 <= |buf|
  {
    match AddrLen(buf)
    case Err(e) => Err(e)
    case Ok(Need(n)) => Ok(Need(n))
    case Ok(Done(n)) =>
      if |buf| < n then Ok(Need(n))
      else if buf[0] == ATYP_IPV4 then Ok(Done((Ipv4(buf[1..5], U16FromBytes(buf[5], buf[6])), n)))
      else if buf[0] == ATYP_IPV6 then Ok(Done((Ipv6(buf[1..17], U16FromBytes(buf[17], buf[18])), n)))
      else
        match SplitHostPort(utf8, buf[1..])
        case Err(e) => Err(e)
        case Ok(pair) => Ok(Done((Domain(pair.0, pair.1), n)))
  }

  // ---- Requests and replies ----

  /** A request or reply: its code, its address and the bytes it takes. */
  datatype Message = Message(code: byte, address: Address, len: nat)

  function MessageLen(m: Message): nat { m.len }

  function ParseMessage(utf8: Text, buf: Bytes): (r: Result<ParseState<Message>>)
    ensures r.Ok? && r.value.Need? ==> |buf| < r.value.total <= MAX_REQUEST_LEN
    ensures r.Ok? && r.value.Done? ==> r.value.value.len <= |buf|
  {
    if |buf| < 4 then Ok(Need(4))
    else if buf[0] != VERSION then Err(InvalidVersion(buf[0]))
    else if buf[2] != 0 then Err(InvalidReserved(buf[2]))
    else
      match ParseAddr(utf8, buf[3..])
      case Err(e) => Err(e)
      case Ok(Need(n)) => Ok(Need(3 + n))
      case Ok(Done(pair)) => Ok(Done(Message(buf[1], pair.0, 3 + pair.1)))
  }

  function MessageBytes(code: byte, a: Address): Bytes
    requires a.port < 0x1_0000
  {
    [VERSION, code, 0] + AddrBytes(a)
  }

  /** A greeting: the methods offered and the bytes it takes. */
  datatype Greeting = Greeting(methods: Bytes, len: nat)

  function GreetingLen(g: Greeting): nat { g.len }

  function ParseGreeting(buf: Bytes): (r: Result<ParseState<Greeting>>)
    ensures r.Ok? && r.value.Need? ==> |buf| < r.value.total <= MAX_GREETING_LEN
    ensures r.Ok? && r.value.Done? ==> r.value.value.len <= |buf|
  {
    if |buf| < 2 then Ok(Need(2))
    else if buf[0] != VERSION then Err(InvalidVersion(buf[0]))
    else if buf[1] == 0 then Err(Malformed)
    else
      var n := buf[1] as nat;
      if |buf| < 2 + n then Ok(Need(2 + n)) else Ok(Done(Greeting(buf[2..2 + n], 2 + n)))
  }

  function GreetingBytes(methods: Bytes): Bytes
  {
    [VERSION, (|methods| % 256) as byte] + methods
  }

  // ---- Parsing from any part of a stream ----

  /**
    * More input never changes a decided parse; an undecided one asks for more
    * than it has and never for more than the message takes.
    */
  ghost predicate Steady<T(!new)>(parse: Bytes -> Result<ParseState<T>>, len: T -> nat, max: nat, x: Bytes, y: Bytes)
  {
    match parse(x)
    case Ok(Need(t)) =>
      && |x| < t <= max
      && (|x + y| < t ==> parse(x + y) == parse(x))
      && (parse(x + y).Ok? && parse(x + y).value.Done? ==> t <= len(parse(x + y).value.value) <= |x + y|)
    case Ok(Done(v)) => len(v) <= |x| && parse(x + y) == parse(x)
    case Err(_) => parse(x + y) == parse(x)
  }

  ghost predicate Steadfast<T(!new)>(parse: Bytes -> Result<ParseState<T>>, len: T -> nat, max: nat)
  {
    forall x, y :: Steady(parse, len, max, x, y)
  }

  lemma SplitExtends(utf8: Text, x: Bytes, y: Bytes)
    requires x != [] && 1 + x[0] as nat + 2 <= |x|
    ensures SplitHostPort(utf8, x + y) == SplitHostPort(utf8, x)
  {
    var n := x[0] as nat;
    assert (x + y)[1..1 + n] == x[1..1 + n];
  }

  lemma AddrExtends(utf8: Text, x: Bytes, y: Bytes)
    ensures
      match ParseAddr(utf8, x)
      case Ok(Need(t)) =>
        && (|x + y| < t ==> ParseAddr(utf8, x + y) == ParseAddr(utf8, x))
        && (ParseAddr(utf8, x + y).Ok? && ParseAddr(utf8, x + y).value.Done? ==> t <= ParseAddr(utf8, x + y).value.value.1)
      case _ => ParseAddr(utf8, x + y) == ParseAddr(utf8, x)
  {
    if x != [] {
      assert (x + y)[0] == x[0];
      var len := AddrLen(x);
      if len.Ok? && len.value.Done? && len.value.value <= |x| {
        if x[0] == ATYP_IPV4 {
          assert (x + y)[1..5] == x[1..5];
        } else if x[0] == ATYP_IPV6 {
          assert (x + y)[1..17] == x[1..17];
        } else {
          assert (x + y)[1..] == x[1..] + y;
          SplitExtends(utf8, x[1..], y);
        }
      }
    }
  }

  function MessageParser(utf8: Text): Bytes -> Result<ParseState<Message>>
  {
    (buf: Bytes) => ParseMessage(utf8, buf)
  }

  lemma MessagesSteadfast(utf8: Text)
    ensures Steadfast(MessageParser(utf8), MessageLen, MAX_REQUEST_LEN)
  {
    forall x, y
      ensures Steady(MessageParser(utf8), MessageLen, MAX_REQUEST_LEN, x, y)
    {
      if |x| >= 4 {
        assert (x + y)[3..] == x[3..] + y;
        AddrExtends(utf8, x[3..], y);
      }
    }
  }

  lemma GreetingsSteadfast()
    ensures Steadfast(ParseGreeting, GreetingLen, MAX_GREETING_LEN)
  {
    forall x, y
      ensures Steady(ParseGreeting, GreetingLen, MAX_GREETING_LEN, x, y)
    {
      if |x| >= 2 && |x| >= 2 + x[1] as nat {
        assert (x + y)[2..2 + x[1] as nat] == x[2..2 + x[1] as nat];
      }
    }
  }

  /**
    * The read loop: ask the parser, read exactly what it still needs, ask
    * again. Whatever the peer sends, the outcome is the one-shot parse of all
    * of it, a message is read to its last byte and not past it, and the fixed
    * buffer is never too small.
    */
  method ReadMessage<T(!new)>(parse: Bytes -> Result<ParseState<T>>, ghost len: T -> nat, max: nat, stream: Bytes)
    returns (r: Result<T>, filled: nat)
    requires Steadfast(parse, len, max)
    ensures filled <= |stream| && filled <= max
    ensures r.Ok? ==> parse(stream) == Ok(Done(r.value)) && filled == len(r.value)
    ensures r.Err? ==>
      || parse(stream) == Err(r.error)
      || (r.error == UnexpectedEof && parse(stream).Ok? && parse(stream).value.Need?)
  {
    filled := 0;
    while true
      invariant filled <= |stream| && filled <= max
      invariant parse(stream).Ok? && parse(stream).value.Done? ==> filled <= len(parse(stream).value.value)
      decreases |stream| - filled
    {
      ghost var rest := stream[filled..];
      assert stream[..filled] + rest == stream;
      assert Steady(parse, len, max, stream[..filled], rest);
      match parse(stream[..filled]) {
        case Err(e) =>
          return Err(e), filled;
        case Ok(Done(v)) =>
          return Ok(v), filled;
        case Ok(Need(total)) =>
          assert total <= max;
          if total > |stream| {
            return Err(UnexpectedEof), filled;
          }
          filled := total;
      }
    }
  }

  /** Every proper prefix of a message asks for more, by no more than the message. */
  lemma PrefixAsksForMore<T(!new)>(parse: Bytes -> Result<ParseState<T>>, len: T -> nat, max: nat, m: Bytes, n: nat)
    requires Steadfast(parse, len, max)
    requires parse(m).Ok? && parse(m).value.Done? && len(parse(m).value.value) == |m| && n < |m|
    ensures parse(m[..n]).Ok? && parse(m[..n]).value.Need? && n < parse(m[..n]).value.total <= |m|
  {
    assert m[..n] + m[n..] == m;
    assert Steady(parse, len, max, m[..n], m[n..]);
  }

  // ---- Round trips ----

  lemma PortRoundTrip(front: Bytes, port: nat)
    requires port < 0x1_0000
    ensures
      var b, n := front + U16ToBytes(port), |front|;
      U16FromBytes(b[n], b[n + 1]) == port
  {
    U16RoundTrip(port);
  }

  lemma DomainRoundTrip(utf8: Text, host: Bytes, port: nat)
    requires utf8(host) && 0 < |host| <= MAX_DOMAIN_LEN && port < 0x1_0000
    ensures SplitHostPort(utf8, [|host| as byte] + host + U16ToBytes(port)) == Ok((host, port))
  {
    var src := [|host| as byte] + host + U16ToBytes(port);
    assert src[1..1 + |host|] == host;
    PortRoundTrip([|host| as byte] + host, port);
  }

  lemma AddrRoundTrip(utf8: Text, a: Address)
    requires Proper(utf8, a) && EncodedAddrLen(a).Ok?
    ensures |AddrBytes(a)| == EncodedAddrLen(a).value
    ensures ParseAddr(utf8, AddrBytes(a)) == Ok(Done((a, |AddrBytes(a)|)))
  {
    var b := AddrBytes(a);
    match a
    case Ipv4(ip, port) =>
      assert b[1..5] == ip;
      PortRoundTrip([ATYP_IPV4] + ip, port);
    case Ipv6(ip, port) =>
      assert b[1..17] == ip;
      PortRoundTrip([ATYP_IPV6] + ip, port);
    case Domain(host, port) =>
      assert b[1..] == [|host| as byte] + host + U16ToBytes(port);
      DomainRoundTrip(utf8, host, port);
  }

  /** A request or reply comes back as sent, whatever follows it, and any part of it asks for the rest. */
  lemma MessageRoundTrip(utf8: Text, code: byte, a: Address, rest: Bytes, n: nat)
    requires Proper(utf8, a) && EncodedAddrLen(a).Ok?
    ensures
      var m := MessageBytes(code, a);
      && ParseMessage(utf8, m + rest) == Ok(Done(Message(code, a, |m|)))
      && (n < |m| ==> ParseMessage(utf8, m[..n]).Ok? && ParseMessage(utf8, m[..n]).value.Need?
                      && n < ParseMessage(utf8, m[..n]).value.total <= |m|)
  {
    var m := MessageBytes(code, a);
    AddrRoundTrip(utf8, a);
    assert m[3..] == AddrBytes(a);
    MessagesSteadfast(utf8);
    assert Steady(MessageParser(utf8), MessageLen, MAX_REQUEST_LEN, m, rest);
    if n < |m| {
      PrefixAsksForMore(MessageParser(utf8), MessageLen, MAX_REQUEST_LEN, m, n);
    }
  }

  /** The same for greetings of up to 255 methods; the count byte has no room for more. */
  lemma GreetingRoundTrip(methods: Bytes, rest: Bytes, n: nat)
    requires 0 < |methods| <= 255
    ensures
      var m := GreetingBytes(methods);
      && ParseGreeting(m + rest) == Ok(Done(Greeting(methods, |m|)))
      && (n < |m| ==> ParseGreeting(m[..n]).Ok? && ParseGreeting(m[..n]).value.Need?
                      && n < ParseGreeting(m[..n]).value.total <= |m|)
  {
    var m := GreetingBytes(methods);
    assert m[2..2 + |methods|] == methods;
    GreetingsSteadfast();
    assert Steady(ParseGreeting, GreetingLen, MAX_GREETING_LEN, m, rest);
    if n < |m| {
      PrefixAsksForMore(ParseGreeting, GreetingLen, MAX_GREETING_LEN, m, n);
    }
  }

  /** Longer lists do not survive their count byte. */
  lemma GreetingRoundTripExactly(methods: Bytes)
    requires methods != []
    ensures ParseGreeting(GreetingBytes(methods)) == Ok(Done(Greeting(methods, 2 + |methods|))) <==> |methods| <= 255
  {
    var m := GreetingBytes(methods);
    if |methods| <= 255 {
      assert m[2..2 + |methods|] == methods;
    } else {
      assert |methods| % 256 != |methods|;
    }
  }

  /** A relayed datagram: fragment number, destination, and the rest as payload. */
  datatype UdpPacket = UdpPacket(frag: byte, destination: Address, headerLen: nat, payload: Bytes)

  function ParseUdpPacket(utf8: Text, buf: Bytes): Result<UdpPacket>
  {
    if |buf| < 4 then Err(Truncated)
    else if buf[0] != 0 || buf[1] != 0 then Err(InvalidReserved(Or(buf[0], buf[1])))
    else
      match ParseAddr(utf8, buf[3..])
      case Err(e) => Err(e)
      case Ok(Need(_)) => Err(Truncated)
      case Ok(Done(pair)) => Ok(UdpPacket(buf[2], pair.0, 3 + pair.1, buf[3 + pair.1..]))
  }

  lemma UdpRoundTrip(utf8: Text, frag: byte, a: Address, payload: Bytes)
    requires Proper(utf8, a) && EncodedAddrLen(a).Ok?
    ensures
      var header := [0, 0, frag] + AddrBytes(a);
      ParseUdpPacket(utf8, header + payload) == Ok(UdpPacket(frag, a, |header|, payload))
  {
    AddrRoundTrip(utf8, a);
    AddrExtends(utf8, AddrBytes(a), payload);
    UdpParses(utf8, frag, a, AddrBytes(a), payload);
  }

  lemma UdpParses(utf8: Text, frag: byte, a: Address, addr: Bytes, payload: Bytes)
    requires addr != [] && ParseAddr(utf8, addr + payload) == Ok(Done((a, |addr|)))
    ensures ParseUdpPacket(utf8, [0, 0, frag] + addr + payload) == Ok(UdpPacket(frag, a, 3 + |addr|, payload))
  {
    var b := [0, 0, frag] + addr + payload;
    assert b[3..] == addr + payload;
    assert b[3 + |addr|..] == payload;
  }

  /** Three bytes and an address into the front of `dst`; on an error nothing is written. */
  method EncodeThreeAddr(dst: array<byte>, head: Bytes, a: Address) returns (r: Result<nat>)
    requires |head| == 3 && a.port < 0x1_0000 && (a.Ipv4? ==> |a.ip| == 4) && (a.Ipv6? ==> |a.ip| == 16)
    modifies dst
    ensures EncodedAddrLen(a).Err? ==> r == Err(EncodedAddrLen(a).error)
    ensures EncodedAddrLen(a).Ok? ==>
      r == if dst.Length < 3 + EncodedAddrLen(a).value then Err(BufferTooSmall(3 + EncodedAddrLen(a).value, dst.Length))
           else Ok(3 + EncodedAddrLen(a).value)
    ensures r.Ok? ==> dst[..r.value] == head + AddrBytes(a) && dst[r.value..] == old(dst[r.value..])
    ensures r.Err? ==> dst[..] == old(dst[..])
  {
    var len := EncodedAddrLen(a);
    if len.Err? {
      return Err(len.error);
    }
    var needed := 3 + len.value;
    if dst.Length < needed {
      return Err(BufferTooSmall(needed, dst.Length));
    }
    var bytes := head + AddrBytes(a);
    forall i | 0 <= i < needed {
      dst[i] := bytes[i];
    }
    r := Ok(needed);
  }
}
