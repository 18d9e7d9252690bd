/** The protocol configuration options of 3GPP TS 24.008 section 10.5.6.3: a configuration protocol
    and up to eight containers, each with an identifier, a length and contents. */
module ProtocolConfigurationOptions {
  import opened Common
  import opened Octets

  const IEI: Octet := 0x27
  const IE_MIN_LENGTH: nat := 3
  const MAX_CONTAINERS: nat := 8

  type Id = n: nat | n < 0x1_0000

  /** `length` is a field of its own; contents may be missing. */
  datatype Container = Container(id: Id, length: Octet, contents: Option<seq<Octet>>)

  datatype Pco = Pco(protocol: ThreeBits, containers: seq<Container>)

  // ---------------------------------------------------------------- encoding

  function Contents(c: Container): (s: seq<Octet>) {
    if c.contents.Some? then c.contents.value else []
  }

  function One(c: Container): (s: seq<Octet>)
    ensures |s| == 3 + |Contents(c)|
  {
    U16(c.id) + [c.length] + Contents(c)
  }

  function All(cs: seq<Container>): (s: seq<Octet>) {
    if cs == [] then [] else One(cs[0]) + All(cs[1..])
  }

  function Body(p: Pco): (s: seq<Octet>)
    ensures |s| == 1 + |All(p.containers)|
  {
    [0x80 + p.protocol] + All(p.containers)
  }

  /** The length octet holds the low eight bits of the length of the body. */
  function Ie(p: Pco, withIei: bool): (s: seq<Octet>) {
    (if withIei then [IEI] else []) + [Low(|Body(p)|)] + Body(p)
  }

  // ---------------------------------------------------------------- decoding

  /** Containers are read as long as three octets are left; there is room for eight. */
  function DecodeContainers(b: seq<Octet>, at: nat, cs: seq<Container>): (r: Decoded<seq<Container>>)
    requires at <= |b|
    decreases |b| - at
  {
    if |b| - at < 3 then Ok(cs, at)
    else if |cs| >= MAX_CONTAINERS then Overrun
    else
      var id, length := FromU16(b[at..at + 2]), b[at + 2];
      if |b| - (at + 3) < length then Error(BUFFER_TOO_SHORT)
      else DecodeContainers(b, at + 3 + length, cs + [Read(id, b[at + 3..at + 3 + length])])
  }

  function Read(id: Id, contents: seq<Octet>): (c: Container)
    requires |contents| < 256
  {
    Container(id, |contents|, if contents == [] then None else Some(contents))
  }

  /** The first octet has its top bit set and its spare bits clear; the protocol is read one bit to
      the left of where it is written. */
  predicate FirstOctetOk(o: Octet) { o >= 0x80 && (o / 8) % 16 == 0 }

  function ProtocolOf(o: Octet): (p: ThreeBits) { (o / 2) % 8 }

  function DecodeAt(b: seq<Octet>, at: nat): (r: Decoded<Pco>)
    requires at <= |b|
  {
    if at == |b| then Overrun
    else if !FirstOctetOk(b[at]) then Error(VALUE_DOESNT_MATCH)
    else
      match DecodeContainers(b, at + 1, [])
      case Ok(cs, used) => Ok(Pco(ProtocolOf(b[at]), cs), used)
      case Error(code) => Error(code)
      case Overrun => Overrun
      case Abort => Abort
  }

  /** The whole rest of the buffer is decoded, not only the announced length. */
  function DecodeIe(b: seq<Octet>, withIei: bool): (r: Decoded<Pco>) {
    if |b| < (if withIei then IE_MIN_LENGTH else IE_MIN_LENGTH - 1) then Error(BUFFER_TOO_SHORT)
    else if withIei && b[0] != IEI then Error(UNEXPECTED_IEI)
    else
      var at := if withIei then 1 else 0;
      if |b| - (at + 1) < b[at] then Error(BUFFER_TOO_SHORT) else DecodeAt(b, at + 1)
  }

  // ---------------------------------------------------------------- round trip

  ghost predicate Canonical(c: Container) {
    c.length == |Contents(c)| && (c.contents.None? <==> c.length == 0)
  }

  ghost predicate AllCanonical(cs: seq<Container>) {
    forall i :: 0 <= i < |cs| ==> Canonical(cs[i])
  }

  /** The containers stand in the buffer, one after the other, from `at` to `end`. */
  ghost predicate StandAt(b: seq<Octet>, at: nat, cs: seq<Container>, end: nat)
    decreases |cs|
  {
    if cs == [] then at == end
    else at + |One(cs[0])| <= |b| && b[at..at + |One(cs[0])|] == One(cs[0]) && StandAt(b, at + |One(cs[0])|, cs[1..], end)
  }

  lemma {:induction false} AllStand(pre: seq<Octet>, cs: seq<Container>, post: seq<Octet>)
    ensures StandAt(pre + All(cs) + post, |pre|, cs, |pre| + |All(cs)|)
    decreases |cs|
  {
    if cs != [] {
      var one, rest := One(cs[0]), All(cs[1..]);
      AllStand(pre + one, cs[1..], post);
      hide One, All;
      Reassociate(pre, one, rest, post);
      Middle(pre, one, rest + post);
    }
  }

  lemma OneStands(b: seq<Octet>, at: nat, c: Container)
    requires at + |One(c)| <= |b| && b[at..at + |One(c)|] == One(c)
    ensures FromU16(b[at..at + 2]) == c.id && b[at + 2] == c.length
    ensures b[at + 3..at + |One(c)|] == Contents(c)
  {
    var n := |One(c)|;
    Part(b, at, n, 0, 2);
    Part(b, at, n, 2, 3);
    Part(b, at, n, 3, n);
    U16RoundTrip(c.id);
    OneParts(c);
    hide *;
  }

  lemma OneParts(c: Container)
    ensures One(c)[0..2] == U16(c.id) && One(c)[2] == c.length && One(c)[3..|One(c)|] == Contents(c)
  {
    hide U16;
  }

  lemma OneDecodes(b: seq<Octet>, at: nat, done: seq<Container>, c: Container)
    requires at + |One(c)| <= |b| && b[at..at + |One(c)|] == One(c) && Canonical(c) && |done| < MAX_CONTAINERS
    ensures DecodeContainers(b, at, done) == DecodeContainers(b, at + |One(c)|, done + [c])
  {
    OneStands(b, at, c);
    CanonicalRead(c);
    hide One, FromU16, Contents, Canonical, Read;
  }

  /** The decoder reads back the containers that stand in the buffer, when fewer than three octets
      follow. */
  lemma {:induction false} ContainersDecode(b: seq<Octet>, at: nat, done: seq<Container>, cs: seq<Container>, end: nat)
    requires StandAt(b, at, cs, end) && at <= |b| && AllCanonical(cs) && |done| + |cs| <= MAX_CONTAINERS && |b| - end < 3
    ensures DecodeContainers(b, at, done) == Ok(done + cs, end)
    decreases |cs|
  {
    hide DecodeContainers, One, Canonical;
    if cs == [] {
      NoneLeft(b, at, done);
      assert done + cs == done;
    } else {
      var c, rest := cs[0], cs[1..];
      FirstAndRest(cs);
      OneDecodes(b, at, done, c);
      ContainersDecode(b, at + |One(c)|, done + [c], rest, end);
    }
  }

  lemma NoneLeft(b: seq<Octet>, at: nat, cs: seq<Container>)
    requires at <= |b| && |b| - at < 3
    ensures DecodeContainers(b, at, cs) == Ok(cs, at)
  {
  }

  lemma FirstAndRest(cs: seq<Container>)
    requires cs != [] && AllCanonical(cs)
    ensures Canonical(cs[0]) && AllCanonical(cs[1..])
    ensures forall done: seq<Container> {:trigger done + [cs[0]]} :: done + [cs[0]] + cs[1..] == done + cs
  {
    hide Canonical;
  }

  lemma CanonicalRead(c: Container)
    requires Canonical(c)
    ensures |Contents(c)| < 256 && Read(c.id, Contents(c)) == c && |One(c)| == 3 + c.length
  {
  }

  /** With three octets or more behind the containers the decoder reads on. */
  lemma {:induction false} ReadsOn(b: seq<Octet>, at: nat, cs: seq<Container>)
    requires at <= |b|
    ensures DecodeContainers(b, at, cs).Ok? ==>
              |b| - DecodeContainers(b, at, cs).used < 3 && at <= DecodeContainers(b, at, cs).used <= |b|
    decreases |b| - at
  {
    if |b| - at >= 3 && |cs| < MAX_CONTAINERS && |b| - (at + 3) >= b[at + 2] {
      var length := b[at + 2];
      ReadsOn(b, at + 3 + length, cs + [Read(FromU16(b[at..at + 2]), b[at + 3..at + 3 + length])]);
    }
  }

  /** What the decoder returns has lengths that match. */
  lemma {:induction false} ReadIsCanonical(b: seq<Octet>, at: nat, cs: seq<Container>)
    requires at <= |b| && AllCanonical(cs)
    ensures DecodeContainers(b, at, cs).Ok? ==> AllCanonical(DecodeContainers(b, at, cs).value)
    decreases |b| - at
  {
    if |b| - at >= 3 && |cs| < MAX_CONTAINERS && |b| - (at + 3) >= b[at + 2] {
      var length := b[at + 2];
      var c := Read(FromU16(b[at..at + 2]), b[at + 3..at + 3 + length]);
      assert Canonical(c);
      ReadIsCanonical(b, at + 3 + length, cs + [c]);
    }
  }

  lemma FirstOctet(p: ThreeBits)
    ensures FirstOctetOk(0x80 + p) && ProtocolOf(0x80 + p) == p / 2
  {
  }

  /** Decoding an encoded value gives it back and takes exactly its octets if and only if its
      configuration protocol is 0, its length fields match its contents and fewer than three octets
      follow it in the buffer. */
  lemma RoundTripIff(pre: seq<Octet>, p: Pco, post: seq<Octet>)
    requires |p.containers| <= MAX_CONTAINERS
    ensures DecodeAt(pre + Body(p) + post, |pre|) == Ok(p, |pre| + |Body(p)|) <==>
            p.protocol == 0 && AllCanonical(p.containers) && |post| < 3
  {
    hide FirstOctetOk, ProtocolOf, DecodeContainers, StandAt, All, AllCanonical;
    var b, at, end := pre + Body(p) + post, |pre|, |pre| + |Body(p)|;
    BodyStands(pre, p, post);
    BodyStarts(pre, p, post);
    hide Body;
    FirstOctet(p.protocol);
    ReadsOn(b, at + 1, []);
    ReadIsCanonical(b, at + 1, []);
    if AllCanonical(p.containers) && |post| < 3 {
      ContainersDecode(b, at + 1, [], p.containers, end);
      assert [] + p.containers == p.containers;
    }
  }

  lemma BodyStands(pre: seq<Octet>, p: Pco, post: seq<Octet>)
    ensures StandAt(pre + Body(p) + post, |pre| + 1, p.containers, |pre| + |Body(p)|)
  {
    hide All, StandAt;
    FirstThen(pre, 0x80 + p.protocol, All(p.containers), post);
    AllStand(pre + [0x80 + p.protocol], p.containers, post);
  }

  lemma BodyStarts(pre: seq<Octet>, p: Pco, post: seq<Octet>)
    ensures (pre + Body(p) + post)[|pre|] == 0x80 + p.protocol
  {
    hide All;
  }

  /** The same of the whole information element, with and without its identifier. Whether the body
      fits its length octet makes no difference to the decoder. */
  lemma IeRoundTripIff(p: Pco, withIei: bool, post: seq<Octet>)
    requires |p.containers| <= MAX_CONTAINERS
    ensures DecodeIe(Ie(p, withIei) + post, withIei) == Ok(p, |Ie(p, withIei)|) <==>
            p.protocol == 0 && AllCanonical(p.containers) && |post| < 3
  {
    var pre := (if withIei then [IEI] else []) + [Low(|Body(p)|)];
    RoundTripIff(pre, p, post);
    LowBound(|Body(p)|);
    hide Low, Body, DecodeAt;
    assert Ie(p, withIei) + post == pre + Body(p) + post;
  }

  lemma LowBound(n: nat)
    ensures Low(n) <= n && (Low(n) == n <==> n < 256)
  {
  }

  /** The length octet announces the length of the body if and only if it fits one octet. */
  lemma LengthOctet(p: Pco, withIei: bool)
    ensures Ie(p, withIei)[if withIei then 1 else 0] == |Body(p)| <==> |Body(p)| < 256
  {
    LowBound(|Body(p)|);
    hide Low, Body;
  }

  // ---------------------------------------------------------------- the code

  lemma {:induction false} AllAppend(cs: seq<Container>, c: Container)
    ensures All(cs + [c]) == All(cs) + One(c)
  {
    if cs == [] {
      assert All([c]) == One(c) + All([]);
    } else {
      AllAppend(cs[1..], c);
      hide One;
      assert (cs + [c])[1..] == cs[1..] + [c];
    }
  }

  /** What is left of `len` octets after the first n, in an unsigned 32-bit variable. */
  function Left(len: nat, n: nat): (left: nat)
  {
    if n <= len then len - n else (len - n) % 0x1_0000_0000
  }

  /** Whether the contents of the container would be written after n octets. */
  predicate Fits(c: Container, len: nat, n: nat) {
    Contents(c) == [] || |Contents(c)| <= Left(len, n + 3)
  }

  ghost predicate AllFit(cs: seq<Container>, len: nat) {
    forall i :: 0 <= i < |cs| ==> Fits(cs[i], len, 1 + |All(cs[..i])|)
  }

  method EncodeContainer(c: Container, buffer: array<Octet>, at: nat, len: nat, encoded: nat) returns (r: int)
    requires at + |One(c)| <= buffer.Length
    modifies buffer
    ensures r < 0 <==> !Fits(c, len, encoded)
    ensures r < 0 ==> r == BUFFER_TOO_SHORT
    ensures r >= 0 ==> r == |One(c)| && Written(buffer[..], old(buffer[..]), at, One(c))
  {
    hide U16, Written, Contents;
    ghost var b0 := buffer[..];
    CopyOctets(buffer, at, U16(c.id));
    ghost var b1 := buffer[..];
    PutOctet(buffer, at + 2, c.length);
    WrittenTwice(buffer[..], b1, b0, at, U16(c.id), [c.length]);
    ghost var b2 := buffer[..];
    var contents := Contents(c);
    if |contents| > 0 {
      if Left(len, encoded + 3) < |contents| {
        return BUFFER_TOO_SHORT;
      }
    }
    CopyOctets(buffer, at + 3, contents);
    WrittenTwice(buffer[..], b2, b0, at, U16(c.id) + [c.length], contents);
    r := 3 + |contents|;
  }

  /** `encode_protocol_configuration_options`: `len` is what the caller says the buffer holds; it is
      only asked about contents. */
  method Encode(p: Pco, buffer: array<Octet>, start: nat, len: nat) returns (r: int)
    requires |p.containers| <= MAX_CONTAINERS && start + |Body(p)| <= buffer.Length
    modifies buffer
    ensures r < 0 <==> !AllFit(p.containers, len)
    ensures r < 0 ==> r == BUFFER_TOO_SHORT
    ensures r >= 0 ==> r == |Body(p)| && Written(buffer[..], old(buffer[..]), start, Body(p))
  {
    hide Written, Fits, All;
    var encoded: nat := 0;
    var cs := p.containers;
    PutOctet(buffer, start + encoded, 0x80 + p.protocol);
    encoded := encoded + 1;
    var num := 0;
    NoneYet(p);
    while num < |cs|
      invariant num <= |cs| && encoded == |First(p, num)|
      invariant forall i :: 0 <= i < num ==> Fits(cs[i], len, 1 + |All(cs[..i])|)
      invariant Written(buffer[..], old(buffer[..]), start, First(p, num))
    {
      OneMore(p, num);
      ghost var b1 := buffer[..];
      var encodeResult := EncodeContainer(cs[num], buffer, start + encoded, len, encoded);
      if encodeResult < 0 {
        return encodeResult;
      }
      WrittenTwice(buffer[..], b1, old(buffer[..]), start, First(p, num), One(cs[num]));
      encoded := encoded + encodeResult;
      num := num + 1;
    }
    assert cs[..num] == cs;
    r := encoded;
  }

  /** The encoding up to the first n containers. */
  ghost function First(p: Pco, n: nat): (s: seq<Octet>)
    requires n <= |p.containers|
  {
    Body(Pco(p.protocol, p.containers[..n]))
  }

  lemma NoneYet(p: Pco)
    ensures First(p, 0) == [0x80 + p.protocol]
  {
    assert p.containers[..0] == [];
  }

  lemma OneMore(p: Pco, n: nat)
    requires n < |p.containers|
    ensures First(p, n + 1) == First(p, n) + One(p.containers[n])
    ensures |First(p, n)| + |One(p.containers[n])| <= |Body(p)| && |First(p, n)| == 1 + |All(p.containers[..n])|
  {
    var cs := p.containers;
    assert cs[..n + 1] == cs[..n] + [cs[n]];
    AllAppend(cs[..n], cs[n]);
    AllPrefix(cs, n + 1);
  }

  /** `encode_protocol_configuration_options_ie`: a failure is added to what was encoded before it. */
  method EncodeIe(p: Pco, withIei: bool, buffer: array<Octet>, len: nat) returns (r: int)
    requires |p.containers| <= MAX_CONTAINERS && |Ie(p, withIei)| <= buffer.Length
    modifies buffer
    ensures len < (if withIei then IE_MIN_LENGTH else IE_MIN_LENGTH - 1) ==> r == BUFFER_TOO_SHORT && buffer[..] == old(buffer[..])
    ensures len >= (if withIei then IE_MIN_LENGTH else IE_MIN_LENGTH - 1) ==>
              var header := if withIei then 2 else 1;
              && (r < 0 <==> !AllFit(p.containers, len - header))
              && (r < 0 ==> r == header + BUFFER_TOO_SHORT)
              && (r >= 0 ==> r == |Ie(p, withIei)| && Written(buffer[..], old(buffer[..]), 0, Ie(p, withIei)))
  {
    hide Low, Body, AllFit, Written;
    ghost var b0 := buffer[..];
    var encoded: nat := 0;
    if withIei {
      if len < IE_MIN_LENGTH {
        return BUFFER_TOO_SHORT;
      }
      PutOctet(buffer, encoded, IEI);
      encoded := encoded + 1;
    } else if len < IE_MIN_LENGTH - 1 {
      return BUFFER_TOO_SHORT;
    }
    ghost var b1 := buffer[..];
    var lenPtr := encoded;
    encoded := encoded + 1;
    var body := Encode(p, buffer, encoded, len - encoded);
    ghost var b2 := buffer[..];
    r := encoded + body;
    PutOctet(buffer, lenPtr, Low(r - 1 - (if withIei then 1 else 0)));
    if r >= 0 {
      ElementWritten(buffer[..], b2, b1, b0, withIei, IEI, Low(|Body(p)|), Body(p));
    }
  }

  /** `decode_protocol_configuration_options`, reading only inside the buffer. */
  method Decode(b: seq<Octet>, start: nat) returns (r: Decoded<Pco>)
    requires start <= |b|
    ensures r == DecodeAt(b, start)
  {
    if start == |b| {
      return Overrun;
    }
    if b[start] < 0x80 || (b[start] / 8) % 16 != 0 {
      return Error(VALUE_DOESNT_MATCH);
    }
    var protocol := ProtocolOf(b[start]);
    var decoded := start + 1;
    var ids: seq<Container> := [];
    hide FromU16;
    while 3 <= |b| - decoded
      invariant decoded <= |b| && DecodeContainers(b, start + 1, []) == DecodeContainers(b, decoded, ids)
    {
      if |ids| >= MAX_CONTAINERS {
        return Overrun;
      }
      var id := FromU16(b[decoded..decoded + 2]);
      decoded := decoded + 2;
      var length := b[decoded];
      decoded := decoded + 1;
      var contents := None;
      if 0 < length {
        if |b| - decoded < length {
          return Error(BUFFER_TOO_SHORT);
        }
        contents := Some(b[decoded..decoded + length]);
        decoded := decoded + length;
      }
      ids := ids + [Container(id, length, contents)];
    }
    return Ok(Pco(protocol, ids), decoded);
  }

  lemma {:induction false} AllPrefix(cs: seq<Container>, n: nat)
    requires n <= |cs|
    ensures |All(cs[..n])| <= |All(cs)|
    decreases |cs| - n
  {
    if n < |cs| {
      AllPrefix(cs, n + 1);
      assert cs[..n + 1] == cs[..n] + [cs[n]];
      AllAppend(cs[..n], cs[n]);
    } else {
      assert cs[..n] == cs;
    }
  }
}
