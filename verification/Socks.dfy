/** The server side of a SOCKS version 5 handshake without authentication: exact reads from
    a peer, one method selection, one CONNECT request. RFC 1928, sections 3, 4 and 5. */
module Socks {
  type Byte = x: int | 0 <= x < 256

  const VERSION: Byte := 5
  const CONNECT: Byte := 1
  const NO_AUTHENTICATION: Byte := 0
  const NO_ACCEPTABLE_METHOD: Byte := 255
  const MAX_READ := 519

  datatype Address = IPv4(bytes: seq<Byte>) | IPv6(bytes: seq<Byte>) | Domain(bytes: seq<Byte>)

  datatype Target = Target(address: Address, port: nat)

  datatype Outcome = Accept(target: Target) | Refuse(code: Byte)

  // ------------------------------------------------------------------- encodings

  /** A printable ASCII character that cannot be taken for part of a port or a bracketed
      address. */
  predicate DomainByte(b: Byte) {
    32 < b < 127 && b != ':' as int && b != '[' as int && b != ']' as int
  }

  predicate ValidTarget(t: Target) {
    && 0 < t.port < 0x1_0000
    && match t.address
       case IPv4(b) => |b| == 4
       case IPv6(b) => |b| == 16
       case Domain(b) => 0 < |b| < 256 && forall i | 0 <= i < |b| :: DomainByte(b[i])
  }

  predicate ValidMethods(methods: seq<Byte>) {
    0 < |methods| < 256
  }

  function Greeting(methods: seq<Byte>): seq<Byte>
    requires ValidMethods(methods)
  {
    [VERSION, |methods|] + methods
  }

  function EncodeAddress(a: Address): seq<Byte>
    requires a.Domain? ==> |a.bytes| < 256
  {
    match a
    case IPv4(b) => [1] + b
    case IPv6(b) => [4] + b
    case Domain(b) => [3, |b|] + b
  }

  function Encode(t: Target): seq<Byte>
    requires ValidTarget(t)
  {
    [VERSION, CONNECT, 0] + EncodeAddress(t.address) + [t.port / 256, t.port % 256]
  }

  // --------------------------------------------------------------- what is parsed

  /** The outcome, how many bytes were taken from the peer, and what was sent to it. */
  datatype Parsed = Parsed(outcome: Outcome, read: nat, sent: seq<Byte>)

  /** The bytes end in the middle of something. */
  function Short(s: seq<Byte>, sent: seq<Byte>): Parsed {
    Parsed(Refuse(1), |s|, sent)
  }

  function Parse(s: seq<Byte>, writable: bool): Parsed {
    if |s| < 2 then Short(s, [])
    else if s[0] != VERSION || s[1] == 0 then Parsed(Refuse(1), 2, [])
    else ParseMethods(s, 2 + s[1] as int, writable)
  }

  /** The methods that the greeting offers, up to `end`. */
  function ParseMethods(s: seq<Byte>, end: nat, writable: bool): Parsed
    requires 2 <= end
  {
    if |s| < end then Short(s, [])
    else if !writable then Parsed(Refuse(1), end, [])
    else if NO_AUTHENTICATION !in s[2..end] then Parsed(Refuse(0), end, [VERSION, NO_ACCEPTABLE_METHOD])
    else ParseRequest(s, end, [VERSION, NO_AUTHENTICATION])
  }

  function ParseRequest(s: seq<Byte>, at: nat, sent: seq<Byte>): Parsed
    requires at <= |s|
  {
    if |s| < at + 4 then Short(s, sent)
    else if s[at] != VERSION || s[at + 2] != 0 then Parsed(Refuse(1), at + 4, sent)
    else if s[at + 1] != CONNECT then Parsed(Refuse(7), at + 4, sent)
    else if s[at + 3] == 1 then ParseFixed(s, at + 4, 4, sent)
    else if s[at + 3] == 4 then ParseFixed(s, at + 4, 16, sent)
    else if s[at + 3] == 3 then ParseDomain(s, at + 4, sent)
    else Parsed(Refuse(8), at + 4, sent)
  }

  function ParseFixed(s: seq<Byte>, at: nat, size: nat, sent: seq<Byte>): Parsed
    requires at <= |s|
  {
    if |s| < at + size then Short(s, sent)
    else ParsePort(s, at + size, if size == 4 then IPv4(s[at..at + size]) else IPv6(s[at..at + size]), sent)
  }

  function ParseDomain(s: seq<Byte>, at: nat, sent: seq<Byte>): Parsed
    requires at <= |s|
  {
    if |s| < at + 1 then Short(s, sent)
    else if s[at] == 0 then Parsed(Refuse(1), at + 1, sent)
    else
      var end := at + 1 + s[at] as int;
      if |s| < end then Short(s, sent)
      else if exists i | at + 1 <= i < end :: !DomainByte(s[i]) then Parsed(Refuse(1), end, sent)
      else ParsePort(s, end, Domain(s[at + 1..end]), sent)
  }

  function Port16(high: Byte, low: Byte): nat {
    high as int * 256 + low as int
  }

  function ParsePort(s: seq<Byte>, at: nat, address: Address, sent: seq<Byte>): Parsed
    requires at <= |s|
  {
    if |s| < at + 2 then Short(s, sent)
    else if s[at] == 0 && s[at + 1] == 0 then Parsed(Refuse(1), at + 2, sent)
    else Parsed(Accept(Target(address, Port16(s[at], s[at + 1]))), at + 2, sent)
  }

  // --------------------------------------------------------------- what it means

  /** Any supported greeting and request, followed by anything: the target comes back, the
      peer is told "no authentication", and what follows stays unread. */
  lemma RoundTrip(methods: seq<Byte>, t: Target, tail: seq<Byte>)
    requires ValidMethods(methods) && NO_AUTHENTICATION in methods && ValidTarget(t)
    ensures Parse(Greeting(methods) + Encode(t) + tail, true)
         == Parsed(Accept(t), |Greeting(methods)| + |Encode(t)|, [VERSION, NO_AUTHENTICATION])
  {
    hide Encode, ValidTarget, ParseRequest;
    var s := Greeting(methods) + Encode(t) + tail;
    var at := |Greeting(methods)|;
    assert s[2..at] == methods;
    assert s[at..at + |Encode(t)|] == Encode(t);
    EncodedRequest(s, at, t, [VERSION, NO_AUTHENTICATION]);
  }

  lemma EncodedRequest(s: seq<Byte>, at: nat, t: Target, sent: seq<Byte>)
    requires ValidTarget(t) && at + |Encode(t)| <= |s| && s[at..at + |Encode(t)|] == Encode(t)
    ensures ParseRequest(s, at, sent) == Parsed(Accept(t), at + |Encode(t)|, sent)
  {
    hide Encode, ParsePort, ParseFixed, ParseDomain, DomainByte;
    Layout(t);
    EncodedHeader(s, at, t);
    EncodedTail(s, at, t);
    if t.address.Domain? {
      EncodedDomain(s, at + 4, t.address.bytes, t.port, sent);
    } else {
      EncodedFixed(s, at + 4, t.address, t.port, sent);
    }
  }

  lemma EncodedHeader(s: seq<Byte>, at: nat, t: Target)
    requires ValidTarget(t) && at + |Encode(t)| <= |s| && s[at..at + |Encode(t)|] == Encode(t)
    ensures |s| >= at + 5 && s[at] == VERSION && s[at + 1] == CONNECT && s[at + 2] == 0
    ensures s[at + 3] == (match t.address case IPv4(_) => 1 case IPv6(_) => 4 case Domain(_) => 3)
    ensures t.address.Domain? ==> s[at + 4] == |t.address.bytes|
  {
    hide Encode;
    Layout(t);
    Inside(s, at, Encode(t), 0, 5);
  }

  lemma EncodedTail(s: seq<Byte>, at: nat, t: Target)
    requires ValidTarget(t) && at + |Encode(t)| <= |s| && s[at..at + |Encode(t)|] == Encode(t)
    ensures
      var b := t.address.bytes;
      var from := at + if t.address.Domain? then 5 else 4;
      && from + |b| + 2 == at + |Encode(t)| && s[from..from + |b|] == b
      && s[from + |b|] == t.port / 256 && s[from + |b| + 1] == t.port % 256
  {
    hide Encode;
    Layout(t);
    var from, n := if t.address.Domain? then 5 else 4, |t.address.bytes|;
    Inside(s, at, Encode(t), from, n);
    Inside(s, at, Encode(t), from + n, 2);
  }

  /** Where the parts of an encoded request are. */
  lemma Layout(t: Target)
    requires ValidTarget(t)
    ensures var b, e := t.address.bytes, Encode(t);
      var from := if t.address.Domain? then 5 else 4;
      && |e| == from + |b| + 2 && e[from..from + |b|] == b
      && e[0] == VERSION && e[1] == CONNECT && e[2] == 0
      && e[3] == (match t.address case IPv4(_) => 1 case IPv6(_) => 4 case Domain(_) => 3)
      && (t.address.Domain? ==> e[4] == |b|)
      && e[from + |b|] == t.port / 256 && e[from + |b| + 1] == t.port % 256
  {
  }

  lemma Inside(s: seq<Byte>, at: nat, e: seq<Byte>, from: nat, n: nat)
    requires at + |e| <= |s| && s[at..at + |e|] == e && from + n <= |e|
    ensures s[at + from..at + from + n] == e[from..from + n]
    ensures forall k | at + from <= k < at + from + n :: s[k] == e[k - at]
  {
    forall k | at + from <= k < at + from + n
      ensures s[k] == e[k - at]
    {
      assert s[at..at + |e|][k - at] == e[k - at];
    }
  }

  lemma EncodedFixed(s: seq<Byte>, at: nat, a: Address, port: nat, sent: seq<Byte>)
    requires (a.IPv4? && |a.bytes| == 4) || (a.IPv6? && |a.bytes| == 16)
    requires at + |a.bytes| + 2 <= |s| && s[at..at + |a.bytes|] == a.bytes
    requires 0 < port < 0x1_0000 && s[at + |a.bytes|] == port / 256 && s[at + |a.bytes| + 1] == port % 256
    ensures ParseFixed(s, at, |a.bytes|, sent) == Parsed(Accept(Target(a, port)), at + |a.bytes| + 2, sent)
  {
  }

  lemma EncodedDomain(s: seq<Byte>, at: nat, b: seq<Byte>, port: nat, sent: seq<Byte>)
    requires 0 < |b| < 256 && (forall i | 0 <= i < |b| :: DomainByte(b[i]))
    requires at + |b| + 3 <= |s| && s[at] == |b| && s[at + 1..at + 1 + |b|] == b
    requires 0 < port < 0x1_0000 && s[at + |b| + 1] == port / 256 && s[at + |b| + 2] == port % 256
    ensures ParseDomain(s, at, sent) == Parsed(Accept(Target(Domain(b), port)), at + |b| + 3, sent)
  {
  }

  /** Whatever is accepted is such an encoding, and it is all that was read. */
  lemma OnlyEncodings(s: seq<Byte>, writable: bool) returns (methods: seq<Byte>)
    requires Parse(s, writable).outcome.Accept?
    ensures var p := Parse(s, writable);
      && writable && p.read <= |s| && p.sent == [VERSION, NO_AUTHENTICATION]
      && ValidMethods(methods) && NO_AUTHENTICATION in methods && ValidTarget(p.outcome.target)
      && s[..p.read] == Greeting(methods) + Encode(p.outcome.target)
  {
    var at := 2 + s[1] as int;
    methods := s[2..at];
    assert s[..at] == Greeting(methods);
    AcceptedRequest(s, at, [VERSION, NO_AUTHENTICATION]);
    var read := Parse(s, writable).read;
    assert s[..read] == s[..at] + s[at..read];
  }

  lemma AcceptedRequest(s: seq<Byte>, at: nat, sent: seq<Byte>)
    requires at <= |s| && ParseRequest(s, at, sent).outcome.Accept?
    ensures var p := ParseRequest(s, at, sent);
      p.sent == sent && at <= p.read <= |s| && ValidTarget(p.outcome.target) &&
        s[at..p.read] == Encode(p.outcome.target)
  {
    hide ParseFixed, ParseDomain, ValidTarget;
    var p := ParseRequest(s, at, sent);
    if s[at + 3] == 3 {
      AcceptedDomain(s, at + 4, sent);
    } else {
      AcceptedFixed(s, at + 4, if s[at + 3] == 4 then 16 else 4, sent);
    }
    assert s[at..p.read] == [s[at], s[at + 1], s[at + 2], s[at + 3]] + s[at + 4..p.read];
  }

  lemma AcceptedFixed(s: seq<Byte>, at: nat, size: nat, sent: seq<Byte>)
    requires at <= |s| && size in {4, 16} && ParseFixed(s, at, size, sent).outcome.Accept?
    ensures var p := ParseFixed(s, at, size, sent);
      && p.sent == sent && at <= p.read <= |s| && ValidTarget(p.outcome.target) && !p.outcome.target.address.Domain?
      && (size == 16 <==> p.outcome.target.address.IPv6?)
      && s[at..p.read] == p.outcome.target.address.bytes + [p.outcome.target.port / 256, p.outcome.target.port % 256]
  {
  }

  lemma AcceptedDomain(s: seq<Byte>, at: nat, sent: seq<Byte>)
    requires at <= |s| && ParseDomain(s, at, sent).outcome.Accept?
    ensures var p := ParseDomain(s, at, sent);
      && p.sent == sent && at <= p.read <= |s| && ValidTarget(p.outcome.target) && p.outcome.target.address.Domain?
      && s[at..p.read] ==
           [|p.outcome.target.address.bytes|] + p.outcome.target.address.bytes +
             [p.outcome.target.port / 256, p.outcome.target.port % 256]
  {
  }

  /** No input makes it read more than 519 bytes. */
  lemma ReadsAreBounded(s: seq<Byte>, writable: bool)
    ensures Parse(s, writable).read <= if |s| <= MAX_READ then |s| else MAX_READ
  {
  }

  /** The special refusals, from the input: no acceptable method is 0, another command than
      CONNECT is 7, an unknown address type is 8; nothing behind the cause is read. */
  lemma Refusals(methods: seq<Byte>, command: Byte, kind: Byte, tail: seq<Byte>)
    requires ValidMethods(methods)
    ensures NO_AUTHENTICATION !in methods ==>
      Parse(Greeting(methods) + tail, true) == Parsed(Refuse(0), |Greeting(methods)|, [VERSION, NO_ACCEPTABLE_METHOD])
    ensures NO_AUTHENTICATION in methods && command != CONNECT ==>
      Parse(Greeting(methods) + [VERSION, command, 0, kind] + tail, true) ==
        Parsed(Refuse(7), |Greeting(methods)| + 4, [VERSION, NO_AUTHENTICATION])
    ensures NO_AUTHENTICATION in methods && kind !in {1, 3, 4} ==>
      Parse(Greeting(methods) + [VERSION, CONNECT, 0, kind] + tail, true) ==
        Parsed(Refuse(8), |Greeting(methods)| + 4, [VERSION, NO_AUTHENTICATION])
  {
    hide ParseFixed, ParseDomain;
    assert (Greeting(methods) + tail)[2..2 + |methods|] == methods;
    assert (Greeting(methods) + [VERSION, command, 0, kind] + tail)[2..2 + |methods|] == methods;
    assert (Greeting(methods) + [VERSION, CONNECT, 0, kind] + tail)[2..2 + |methods|] == methods;
  }

  /** And back: such a refusal means that such an input was read. */
  lemma RefusalMeans(s: seq<Byte>) returns (methods: seq<Byte>, command: Byte, kind: Byte)
    requires Parse(s, true).outcome in {Refuse(0), Refuse(7), Refuse(8)}
    ensures var p := Parse(s, true);
      && ValidMethods(methods) && p.read <= |s|
      && (p.outcome.code == 0 <==> NO_AUTHENTICATION !in methods)
      && (p.outcome.code == 0 ==> s[..p.read] == Greeting(methods))
      && (p.outcome.code != 0 ==> s[..p.read] == Greeting(methods) + [VERSION, command, 0, kind])
      && (p.outcome.code == 7 ==> command != CONNECT)
      && (p.outcome.code == 8 ==> command == CONNECT && kind !in {1, 3, 4})
  {
    var at := 2 + s[1] as int;
    methods, command, kind := s[2..at], 0, 0;
    assert s[..at] == Greeting(methods);
    if NO_AUTHENTICATION in methods {
      OrdinaryOutcomes(s, at, [VERSION, NO_AUTHENTICATION]);
      hide ParseFixed, ParseDomain;
      command, kind := s[at + 1], s[at + 3];
      assert s[..at + 4] == s[..at] + [VERSION, command, 0, kind];
    }
  }

  lemma OrdinaryOutcomes(s: seq<Byte>, at: nat, sent: seq<Byte>)
    requires at <= |s|
    ensures |s| >= at + 4 && ParseRequest(s, at, sent).outcome in {Refuse(0), Refuse(7), Refuse(8)} ==>
      ParseRequest(s, at, sent).read == at + 4 && (s[at + 1] != CONNECT || s[at + 3] !in {1, 3, 4})
    ensures |s| < at + 4 ==> ParseRequest(s, at, sent).outcome == Refuse(1)
    ensures ParseRequest(s, at, sent).outcome != Refuse(0)
  {
  }

  lemma SentIsCarried(s: seq<Byte>, at: nat, sent: seq<Byte>)
    requires at <= |s|
    ensures ParseRequest(s, at, sent) == ParseRequest(s, at, []).(sent := sent)
  {
  }

  // --------------------------------------------------------------------- the code

  /** A peer: the bytes it sends before closing, and the bytes it has been sent. */
  class Peer {
    const input: seq<Byte>
    const writable: bool
    var at: nat
    var output: seq<Byte>

    constructor (input: seq<Byte>, writable: bool)
      ensures this.input == input && this.writable == writable && at == 0 && output == []
    {
      this.input := input;
      this.writable := writable;
      this.at := 0;
      this.output := [];
    }

    ghost predicate Valid()
      reads this
    {
      at <= |input|
    }

    /** Fills the first n bytes of the buffer, or fails after taking all there is. */
    method ReadFull(buffer: array<Byte>, n: nat) returns (ok: bool)
      requires Valid() && n <= buffer.Length
      modifies this`at, buffer
      ensures Valid()
      ensures ok <==> old(at) + n <= |input|
      ensures at == if ok then old(at) + n else |input|
      ensures ok ==> forall i | 0 <= i < n :: buffer[i] == input[old(at) + i]
    {
      var i := 0;
      while i < n
        invariant 0 <= i <= n && at == old(at) + i <= |input|
        invariant forall k | 0 <= k < i :: buffer[k] == input[old(at) + k]
      {
        if at == |input| {
          return false;
        }
        buffer[i] := input[at];
        at, i := at + 1, i + 1;
      }
      return true;
    }

    method Write(bytes: seq<Byte>) returns (ok: bool)
      modifies this`output
      ensures ok == writable && output == if writable then old(output) + bytes else old(output)
    {
      if writable {
        output := output + bytes;
      }
      ok := writable;
    }
  }

  /** Whether the method is among those offered. */
  method Offers(methods: array<Byte>, count: nat) returns (offered: bool)
    requires count <= methods.Length
    ensures offered <==> NO_AUTHENTICATION in methods[..count]
  {
    offered := false;
    for i := 0 to count
      invariant offered <==> NO_AUTHENTICATION in methods[..i]
    {
      assert methods[..i + 1] == methods[..i] + [methods[i]];
      if methods[i] == NO_AUTHENTICATION {
        offered := true;
      }
    }
  }

  method Request(peer: Peer) returns (r: Outcome)
    requires peer.Valid()
    modifies peer
    ensures var p := Parse(old(peer.input[peer.at..]), peer.writable);
      r == p.outcome && peer.at == old(peer.at) + p.read && peer.output == old(peer.output) + p.sent
  {
    hide ParseMethods;
    ghost var s := peer.input[peer.at..];
    ghost var from := peer.at;
    assert peer.output == old(peer.output) + [];
    var header := new Byte[2];
    var ok := peer.ReadFull(header, 2);
    if !ok {
      return Refuse(1);
    }
    if header[0] != VERSION || header[1] == 0 {
      return Refuse(1);
    }
    r := RequestAfterHeader(peer, s, from, header[1]);
  }

  method RequestAfterHeader(peer: Peer, ghost s: seq<Byte>, ghost from: nat, count: nat) returns (r: Outcome)
    requires peer.Valid() && from + 2 <= |peer.input| && s == peer.input[from..] && count <= 255
    requires peer.at == from + 2
    modifies peer
    ensures var p := ParseMethods(s, 2 + count, peer.writable);
      r == p.outcome && peer.at == from + p.read && peer.output == old(peer.output) + p.sent
  {
    hide ParseRequest;
    assert peer.output == old(peer.output) + [];
    var methods := new Byte[255];
    var ok := peer.ReadFull(methods, count);
    if !ok {
      return Refuse(1);
    }
    var offered := Offers(methods, count);
    assert methods[..count] == s[2..2 + count];
    var selected := if offered then NO_AUTHENTICATION else NO_ACCEPTABLE_METHOD;
    ok := peer.Write([VERSION, selected]);
    if !ok {
      return Refuse(1);
    }
    if !offered {
      return Refuse(0);
    }
    SentIsCarried(s, 2 + count, [VERSION, NO_AUTHENTICATION]);
    r := RequestAfterGreeting(peer, s, from, 2 + count);
  }

  method RequestAfterGreeting(peer: Peer, ghost s: seq<Byte>, ghost from: nat, ghost at: nat) returns (r: Outcome)
    requires peer.Valid() && from <= |peer.input| && s == peer.input[from..] && at <= |s| && peer.at == from + at
    modifies peer`at
    ensures var p := ParseRequest(s, at, []); r == p.outcome && peer.at == from + p.read
  {
    var request := new Byte[4];
    var ok := peer.ReadFull(request, 4);
    if !ok {
      return Refuse(1);
    }
    assert forall i | 0 <= i < 4 :: request[i] == s[at + i];
    if request[0] != VERSION || request[2] != 0 {
      return Refuse(1);
    }
    if request[1] != CONNECT {
      return Refuse(7);
    }
    if request[3] == 1 || request[3] == 4 {
      r := FixedAddress(peer, request[3], s, from, at + 4);
    } else if request[3] == 3 {
      r := DomainAddress(peer, s, from, at + 4);
    } else {
      r := Refuse(8);
    }
  }

  method FixedAddress(peer: Peer, kind: Byte, ghost s: seq<Byte>, ghost from: nat, ghost at: nat) returns (r: Outcome)
    requires kind == 1 || kind == 4
    requires peer.Valid() && from <= |peer.input| && s == peer.input[from..] && at <= |s| && peer.at == from + at
    modifies peer`at
    ensures var p := ParseFixed(s, at, if kind == 4 then 16 else 4, []); r == p.outcome && peer.at == from + p.read
  {
    var size := 4;
    if kind == 4 {
      size := 16;
    }
    var address := new Byte[16];
    var ok := peer.ReadFull(address, size);
    if !ok {
      return Refuse(1);
    }
    assert address[..size] == s[at..at + size];
    r := Port(peer, if kind == 4 then IPv6(address[..size]) else IPv4(address[..size]), s, from, at + size);
  }

  method AllDomainBytes(host: seq<Byte>) returns (ok: bool)
    ensures ok <==> forall k | 0 <= k < |host| :: DomainByte(host[k])
  {
    for i := 0 to |host|
      invariant forall k | 0 <= k < i :: DomainByte(host[k])
    {
      if host[i] <= 32 || host[i] >= 127 || host[i] == ':' as int || host[i] == '[' as int || host[i] == ']' as int {
        return false;
      }
    }
    return true;
  }

  method DomainAddress(peer: Peer, ghost s: seq<Byte>, ghost from: nat, ghost at: nat) returns (r: Outcome)
    requires peer.Valid() && from <= |peer.input| && s == peer.input[from..] && at <= |s| && peer.at == from + at
    modifies peer`at
    ensures var p := ParseDomain(s, at, []); r == p.outcome && peer.at == from + p.read
  {
    var length := new Byte[1];
    var ok := peer.ReadFull(length, 1);
    if !ok {
      return Refuse(1);
    }
    if length[0] == 0 {
      return Refuse(1);
    }
    r := DomainBytes(peer, length[0], s, from, at);
  }

  method DomainBytes(peer: Peer, n: nat, ghost s: seq<Byte>, ghost from: nat, ghost at: nat) returns (r: Outcome)
    requires peer.Valid() && from <= |peer.input| && s == peer.input[from..] && at < |s| && peer.at == from + at + 1
    requires 0 < n < 256 && s[at] == n
    modifies peer`at
    ensures var p := ParseDomain(s, at, []); r == p.outcome && peer.at == from + p.read
  {
    hide DomainByte;
    var domain := new Byte[255];
    var ok := peer.ReadFull(domain, n);
    if !ok {
      return Refuse(1);
    }
    assert forall i | 0 <= i < n :: domain[i] == s[at + 1 + i];
    var host := domain[..n];
    assert host == s[at + 1..at + 1 + n];
    var printable := AllDomainBytes(host);
    assert forall k | at + 1 <= k < at + 1 + n :: s[k] == host[k - at - 1];
    if !printable {
      return Refuse(1);
    }
    r := Port(peer, Domain(host), s, from, at + 1 + n);
  }

  method Port(peer: Peer, address: Address, ghost s: seq<Byte>, ghost from: nat, ghost at: nat) returns (r: Outcome)
    requires peer.Valid() && from <= |peer.input| && s == peer.input[from..] && at <= |s| && peer.at == from + at
    modifies peer`at
    ensures var p := ParsePort(s, at, address, []); r == p.outcome && peer.at == from + p.read
  {
    var port := new Byte[2];
    var ok := peer.ReadFull(port, 2);
    if !ok {
      return Refuse(1);
    }
    assert port[0] == s[at] && port[1] == s[at + 1];
    var value := Port16(port[0], port[1]);
    if value == 0 {
      return Refuse(1);
    }
    return Accept(Target(address, value));
  }
}
