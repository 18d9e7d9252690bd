/** One packet filter of a traffic flow template, 3GPP TS 24.008 section 10.5.6.12: up to ten
    components, each behind a tag that says what it is. */
module PacketFilter {
  import opened Common
  import opened Octets

  type TwoBits = n: nat | n < 4
  type FourBits = n: nat | n < 16
  type Word16 = n: nat | n < 0x1_0000
  type Ipv4Octets = s: seq<Octet> | |s| == 4 witness [0, 0, 0, 0]
  type Ipv6Octets = s: seq<Octet> | |s| == 16 witness seq(16, _ => 0)

  const COMPONENTS: nat := 10

  datatype Component =
    | Ipv4Remote(addr4: Ipv4Octets, mask4: Ipv4Octets)
    | Ipv6Remote(addr6: Ipv6Octets, mask6: Ipv6Octets)
    | Protocol(protocol: Octet)
    | LocalPort(port: Word16)
    | LocalPortRange(low: Word16, high: Word16)
    | RemotePort(port: Word16)
    | RemotePortRange(low: Word16, high: Word16)
    | SecurityParameterIndex(spi: Word32)
    | TypeOfService(value: Octet, mask: Octet)
    | FlowLabel(flow: Word32)

  /** Slot i holds the component of flag 1<<i, if the flag is set. */
  type Contents = cs: seq<Option<Component>> | ContentsOk(cs) witness NoContents()

  datatype Filter = Filter(direction: TwoBits, identifier: FourBits, precedence: Octet, contents: Contents)

  function Slot(c: Component): (i: nat)
    ensures i < COMPONENTS
  {
    match c
    case Ipv4Remote(_, _) => 0
    case Ipv6Remote(_, _) => 1
    case Protocol(_) => 2
    case LocalPort(_) => 3
    case LocalPortRange(_, _) => 4
    case RemotePort(_) => 5
    case RemotePortRange(_, _) => 6
    case SecurityParameterIndex(_) => 7
    case TypeOfService(_, _) => 8
    case FlowLabel(_) => 9
  }

  ghost predicate ContentsOk(cs: seq<Option<Component>>) {
    |cs| == COMPONENTS && forall i :: 0 <= i < COMPONENTS && cs[i].Some? ==> Slot(cs[i].value) == i
  }

  // ---------------------------------------------------------------- encoding

  function Tag(slot: nat): (t: Octet)
    requires slot < COMPONENTS
  {
    if slot == 0 then 0x10
    else if slot == 1 then 0x20
    else if slot == 2 then 0x30
    else if slot == 3 then 0x40
    else if slot == 4 then 0x41
    else if slot == 5 then 0x50
    else if slot == 6 then 0x51
    else if slot == 7 then 0x60
    else if slot == 8 then 0x70
    else 0x80
  }

  /** What is written behind the tag. The flow label is written as four octets of which the last is
      not counted. */
  function Image(c: Component): (s: seq<Octet>)
  {
    match c
    case Ipv4Remote(addr, mask) => addr + mask
    case Ipv6Remote(addr, mask) => addr + mask
    case Protocol(p) => [p]
    case LocalPort(port) => U16(port)
    case LocalPortRange(low, high) => U16(low) + U16(high)
    case RemotePort(port) => U16(port)
    case RemotePortRange(low, high) => U16(low) + U16(high)
    case SecurityParameterIndex(spi) => U32(spi)
    case TypeOfService(value, mask) => [value, mask]
    case FlowLabel(flow) => U32(flow % 0x10_0000)
  }

  /** How far the encoder moves on behind the tag: after an address it skips once more its size. */
  function Advance(slot: nat): (n: nat)
    requires slot < COMPONENTS
  {
    if slot == 0 then 12 else if slot == 1 then 48 else Size(slot)
  }

  /** How many octets the decoder takes behind the tag. */
  function Size(slot: nat): (n: nat)
    requires slot < COMPONENTS
  {
    if slot == 0 then 8
    else if slot == 1 then 32
    else if slot == 2 then 1
    else if slot == 3 || slot == 5 || slot == 8 then 2
    else if slot == 9 then 3
    else 4
  }

  lemma ImageSize(c: Component)
    ensures |Image(c)| == Size(Slot(c)) + if c.FlowLabel? then 1 else 0
    ensures Size(Slot(c)) <= Advance(Slot(c)) <= 48 && (Slot(c) > 1 ==> Size(Slot(c)) == Advance(Slot(c)))
  {
    hide U16, U32;
  }

  /** Where the encoder stands after the components from slot i on. */
  function End(at: nat, cs: Contents, i: nat): (end: nat)
    requires i <= COMPONENTS
    ensures at <= end <= at + 49 * (COMPONENTS - i)
    decreases COMPONENTS - i
  {
    if i == COMPONENTS then at
    else if cs[i].None? then End(at, cs, i + 1)
    else End(at + 1 + Advance(i), cs, i + 1)
  }

  /** The buffer with s at `at`. */
  function Splice(b: seq<Octet>, at: nat, s: seq<Octet>): (b': seq<Octet>)
    requires at + |s| <= |b|
    ensures |b'| == |b|
  {
    b[..at] + s + b[at + |s|..]
  }

  lemma SpliceAt(b: seq<Octet>, at: nat, s: seq<Octet>, j: nat)
    requires at + |s| <= |b| && j < |b|
    ensures Splice(b, at, s)[j] == if j < at || at + |s| <= j then b[j] else s[j - at]
  {
  }

  lemma WrittenIsSplice(b: seq<Octet>, b0: seq<Octet>, at: nat, s: seq<Octet>)
    requires Written(b, b0, at, s)
    ensures b == Splice(b0, at, s)
  {
    assert b == b[..at] + b[at..at + |s|] + b[at + |s|..];
  }

  /** The buffer after the components from slot i on have been written at `at`. */
  function PutFrom(b: seq<Octet>, at: nat, cs: Contents, i: nat): (b': seq<Octet>)
    requires i <= COMPONENTS && End(at, cs, i) < |b|
    ensures |b'| == |b|
    decreases COMPONENTS - i
  {
    if i == COMPONENTS then b
    else if cs[i].None? then PutFrom(b, at, cs, i + 1)
    else
      ImageSize(cs[i].value);
      PutFrom(Splice(b, at, [Tag(i)] + Image(cs[i].value)), at + 1 + Advance(i), cs, i + 1)
  }

  function HeadOctet(f: Filter): (o: Octet) { f.direction * 16 + f.identifier }

  /** The buffer after a filter has been written at `at`; the length octet is patched at the end. */
  function Put(b: seq<Octet>, at: nat, f: Filter): (b': seq<Octet>)
    requires End(at + 3, f.contents, 0) < |b|
    ensures |b'| == |b|
  {
    PutFrom(Splice(b, at, [HeadOctet(f), f.precedence]), at + 3, f.contents, 0)
      [at + 2 := Low(End(at + 3, f.contents, 0) - (at + 3))]
  }

  // ---------------------------------------------------------------- decoding

  function SlotOf(tag: Octet): (r: Option<nat>)
    ensures r.Some? ==> r.value < COMPONENTS && Tag(r.value) == tag
  {
    if tag == 0x10 then Some(0)
    else if tag == 0x20 then Some(1)
    else if tag == 0x30 then Some(2)
    else if tag == 0x40 then Some(3)
    else if tag == 0x41 then Some(4)
    else if tag == 0x50 then Some(5)
    else if tag == 0x51 then Some(6)
    else if tag == 0x60 then Some(7)
    else if tag == 0x70 then Some(8)
    else if tag == 0x80 then Some(9)
    else None
  }

  function Read(slot: nat, s: seq<Octet>): (c: Component)
    requires slot < COMPONENTS && |s| == Size(slot)
    ensures Slot(c) == slot
  {
    if slot == 0 then Ipv4Remote(s[..4], s[4..])
    else if slot == 1 then Ipv6Remote(s[..16], s[16..])
    else if slot == 2 then Protocol(s[0])
    else if slot == 3 then LocalPort(FromU16(s))
    else if slot == 4 then LocalPortRange(FromU16(s[..2]), FromU16(s[2..]))
    else if slot == 5 then RemotePort(FromU16(s))
    else if slot == 6 then RemotePortRange(FromU16(s[..2]), FromU16(s[2..]))
    else if slot == 7 then SecurityParameterIndex(FromU32(s))
    else if slot == 8 then TypeOfService(s[0], s[1])
    else FlowLabel(FromU32([0] + s))
  }

  /** How many octets the decoder touches behind the tag: one more than it takes for a flow label. */
  function Touched(slot: nat): (n: nat)
    requires slot < COMPONENTS
  {
    Size(slot) + if slot == 9 then 1 else 0
  }

  /** The components from `at` up to `end`; b is all the memory there is. */
  function ReadComponents(b: seq<Octet>, at: nat, end: nat, cs: Contents): (r: Decoded<Contents>)
    decreases |b| - at
  {
    if at >= end then Ok(cs, at)
    else if at >= |b| then Overrun
    else
      match SlotOf(b[at])
      case None => Error(UNEXPECTED_IEI)
      case Some(slot) =>
        if at + 1 + Touched(slot) > |b| then Overrun
        else ReadComponents(b, at + 1 + Size(slot), end,
                            cs[slot := Some(Read(slot, b[at + 1..at + 1 + Size(slot)]))])
  }

  function NoContents(): (cs: seq<Option<Component>>)
    ensures ContentsOk(cs) && |cs| == COMPONENTS && forall i :: 0 <= i < COMPONENTS ==> cs[i].None?
  {
    [None, None, None, None, None, None, None, None, None, None]
  }

  function Direction(o: Octet): (n: TwoBits) { (o / 16) % 4 }

  function Identifier(o: Octet): (n: FourBits) { o % 16 }

  /** A filter that starts at `at`; the announced buffer ends at `end`. */
  function DecodeAt(b: seq<Octet>, at: nat, end: nat): (r: Decoded<Filter>)
  {
    if at == end then Error(VALUE_DOESNT_MATCH)
    else if at + 3 > |b| then Overrun
    else
      match ReadComponents(b, at + 3, at + 3 + b[at + 2], NoContents())
      case Ok(cs, stop) =>
        if stop != end then Error(VALUE_DOESNT_MATCH)
        else Ok(Filter(Direction(b[at]), Identifier(b[at]), b[at + 1], cs), stop)
      case Error(code) => Error(code)
      case Overrun => Overrun
      case Abort => Abort
  }

  // ---------------------------------------------------------------- what arrives

  /** The octets of a component that are counted. */
  function Counted(c: Component): (s: seq<Octet>)
    ensures |s| == Size(Slot(c))
  {
    ImageSize(c);
    Image(c)[..Size(Slot(c))]
  }

  /** The component the decoder makes of what was written: a flow label loses its low octet. */
  function Arrives(c: Component): (c': Component)
    ensures Slot(c') == Slot(c)
  {
    if c.FlowLabel? then FlowLabel((c.flow % 0x10_0000) / 256) else c
  }

  function Received(cs: Contents): (r: Contents) {
    seq(|cs|, i requires 0 <= i < |cs| => if cs[i].None? then None else Some(Arrives(cs[i].value)))
  }

  lemma AddressArrives(c: Component)
    requires c.Ipv4Remote? || c.Ipv6Remote?
    ensures Read(Slot(c), Counted(c)) == c
  {
    hide U16, U32, FromU16, FromU32;
    var s := Counted(c);
    if c.Ipv4Remote? {
      assert s[..4] == c.addr4 && s[4..] == c.mask4;
    } else {
      assert s[..16] == c.addr6 && s[16..] == c.mask6;
    }
  }

  lemma PortArrives(c: Component)
    requires c.LocalPort? || c.RemotePort?
    ensures Read(Slot(c), Counted(c)) == c
  {
    assert Counted(c) == Image(c);
    U16RoundTrip(c.port);
    hide U16, FromU16;
  }

  lemma RangeArrives(c: Component)
    requires c.LocalPortRange? || c.RemotePortRange?
    ensures Read(Slot(c), Counted(c)) == c
  {
    U16RoundTrip(c.low);
    U16RoundTrip(c.high);
    hide U16, FromU16, U32, FromU32;
    var s := Counted(c);
    assert s == U16(c.low) + U16(c.high);
    assert s[..2] == U16(c.low) && s[2..] == U16(c.high);
  }

  lemma LabelArrives(c: Component)
    requires c.FlowLabel?
    ensures Read(Slot(c), Counted(c)) == Arrives(c)
  {
    var n: nat := c.flow % 0x10_0000;
    LabelOctets(n);
    assert [0] + Counted(c) == U32(n / 256) by {
      hide *;
      assert U32(n)[..3] == [U32(n)[0], U32(n)[1], U32(n)[2]];
    }
    U32RoundTrip(n / 256);
    hide U32, FromU32;
  }

  lemma LabelOctets(n: nat)
    requires n < 0x10_0000
    ensures U32(n / 256) == [0, U32(n)[0], U32(n)[1], U32(n)[2]]
  {
    assert n / 256 / 0x1_0000 == 0;
    assert n / 0x1_0000 < 256;
    assert (n / 256) / 256 == n / 0x1_0000;
    assert (n / 256) % 256 == (n % 0x1_0000) / 256;
  }

  lemma ComponentArrives(c: Component)
    ensures Read(Slot(c), Counted(c)) == Arrives(c)
  {
    match c
    case Ipv4Remote(_, _) => AddressArrives(c);
    case Ipv6Remote(_, _) => AddressArrives(c);
    case LocalPort(_) => PortArrives(c);
    case RemotePort(_) => PortArrives(c);
    case LocalPortRange(_, _) => RangeArrives(c);
    case RemotePortRange(_, _) => RangeArrives(c);
    case SecurityParameterIndex(spi) => U32RoundTrip(spi);
    case FlowLabel(_) => LabelArrives(c);
    case Protocol(_) =>
    case TypeOfService(_, _) =>
  }
}
