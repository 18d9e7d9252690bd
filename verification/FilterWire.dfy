/** Packet filters octet by octet, as section 10.5.6.12 of 3GPP TS 24.008 lays them out: what the encoder
    puts where, and what the decoder makes of any buffer that holds such octets. */
module FilterWire {
  import opened Common
  import opened Octets
  import opened PacketFilter
  import opened PacketFilterRoundTrip
  import Bits

  /** The octets of one component. */
  function Wire(c: Component): (s: seq<Octet>)
    ensures |s| > 0
  {
    match c
    case Ipv4Remote(a, m) => [0x10, a[0], a[1], a[2], a[3], m[0], m[1], m[2], m[3]]
    case Ipv6Remote(a, m) => [0x20] + a + m
    case Protocol(p) => [0x30, p]
    case LocalPort(p) => [0x40, p / 256, p % 256]
    case LocalPortRange(low, high) => [0x41, low / 256, low % 256, high / 256, high % 256]
    case RemotePort(p) => [0x50, p / 256, p % 256]
    case RemotePortRange(low, high) => [0x51, low / 256, low % 256, high / 256, high % 256]
    case SecurityParameterIndex(n) => [0x60, n / 0x100_0000, (n / 0x1_0000) % 256, (n / 256) % 256, n % 256]
    case TypeOfService(value, mask) => [0x70, value, mask]
    case FlowLabel(n) => [0x80, (n / 0x1_0000) % 256, (n / 256) % 256, n % 256]
  }

  /** What the encoder writes in place of a component: of a flow label the low octet is lost. */
  function Sent(c: Component): (c': Component) {
    if c.FlowLabel? then FlowLabel((c.flow % 0x10_0000) / 256) else c
  }

  /** How many octets the encoder leaves out behind a component. */
  function Gap(c: Component): (n: nat) { if c.Ipv4Remote? then 4 else if c.Ipv6Remote? then 16 else 0 }

  lemma WireIs(c: Component)
    ensures [Tag(Slot(c))] + Counted(c) == Wire(Sent(c)) && Sent(c) == Arrives(c)
    ensures 1 + Advance(Slot(c)) == |Wire(Sent(c))| + Gap(c) && |Wire(Sent(c))| == 1 + Size(Slot(c))
  {
    match c {
      case Ipv4Remote(a, m) => assert a == [a[0], a[1], a[2], a[3]] && m == [m[0], m[1], m[2], m[3]];
      case Ipv6Remote(a, m) => assert [0x20] + (a + m) == [0x20] + a + m;
      case SecurityParameterIndex(n) => Word32Octets(n);
      case FlowLabel(n) => LabelWire(n % 0x10_0000);
      case _ =>
    }
  }

  lemma FourOctets(a: Octet, b: Octet, c: Octet, d: Octet)
    ensures var n: nat := a as nat * 0x100_0000 + b as nat * 0x1_0000 + c as nat * 256 + d as nat;
            && n / 0x100_0000 == a && (n / 0x1_0000) % 256 == b && (n / 256) % 256 == c && n % 256 == d
            && n / 0x1_0000 == a as nat * 256 + b as nat && n % 0x1_0000 == c as nat * 256 + d as nat
  {
    var n: nat := a as nat * 0x100_0000 + b as nat * 0x1_0000 + c as nat * 256 + d as nat;
    Bits.DivModUnique(n, 0x100_0000, a, b as nat * 0x1_0000 + c as nat * 256 + d as nat);
    Bits.DivModUnique(n, 0x1_0000, a as nat * 256 + b as nat, c as nat * 256 + d as nat);
    Bits.DivModUnique(n, 256, a as nat * 0x1_0000 + b as nat * 256 + c as nat, d);
    Bits.DivModUnique(a as nat * 256 + b as nat, 256, a, b);
    Bits.DivModUnique(a as nat * 0x1_0000 + b as nat * 256 + c as nat, 256, a as nat * 256 + b as nat, c);
  }

  lemma Word32Octets(n: Word32)
    ensures U32(n) == [n / 0x100_0000, (n / 0x1_0000) % 256, (n / 256) % 256, n % 256]
  {
    var hi, lo := n / 0x1_0000, n % 0x1_0000;
    FourOctets(hi / 256, hi % 256, lo / 256, lo % 256);
    assert n == hi * 0x1_0000 + lo && hi == hi / 256 * 256 + hi % 256 && lo == lo / 256 * 256 + lo % 256;
  }

  lemma LabelWire(n: nat)
    requires n < 0x10_0000
    ensures U32(n)[..3] == [(n / 256 / 0x1_0000) % 256, (n / 256 / 256) % 256, n / 256 % 256]
  {
    Word32Octets(n);
    assert n / 256 / 0x1_0000 == n / 0x100_0000;
    assert n / 256 / 256 == n / 0x1_0000;
  }

  /** Which component belongs to which flag: slot i is that of flag 1<<i. */
  lemma FlagsOfComponents(cs: Contents)
    ensures cs[0].Some? ==> cs[0].value.Ipv4Remote?
    ensures cs[1].Some? ==> cs[1].value.Ipv6Remote?
    ensures cs[2].Some? ==> cs[2].value.Protocol?
    ensures cs[3].Some? ==> cs[3].value.LocalPort?
    ensures cs[4].Some? ==> cs[4].value.LocalPortRange?
    ensures cs[5].Some? ==> cs[5].value.RemotePort?
    ensures cs[6].Some? ==> cs[6].value.RemotePortRange?
    ensures cs[7].Some? ==> cs[7].value.SecurityParameterIndex?
    ensures cs[8].Some? ==> cs[8].value.TypeOfService?
    ensures cs[9].Some? ==> cs[9].value.FlowLabel?
  {
  }

  // ---------------------------------------------------------------- what the encoder writes

  /** The components stand in the buffer from `at` to `end`, in this order, each behind the gap the encoder
      leaves after the one before. */
  ghost predicate Laid(b: seq<Octet>, at: nat, ks: seq<Component>, end: nat)
    decreases |ks|
  {
    if ks == [] then at == end
    else
      var w := Wire(Sent(ks[0]));
      at + |w| <= |b| && b[at..at + |w|] == w && Laid(b, at + |w| + Gap(ks[0]), ks[1..], end)
  }

  /** The components of a filter from slot i on. */
  function Listed(cs: Contents, i: nat): (ks: seq<Component>)
    requires i <= COMPONENTS
    decreases COMPONENTS - i
  {
    if i == COMPONENTS then [] else (if cs[i].Some? then [cs[i].value] else []) + Listed(cs, i + 1)
  }

  lemma {:induction false} ListedExactly(cs: Contents, i: nat, c: Component)
    requires i <= COMPONENTS
    ensures c in Listed(cs, i) <==> exists j :: i <= j < COMPONENTS && cs[j] == Some(c)
    decreases COMPONENTS - i
  {
    if i < COMPONENTS {
      ListedExactly(cs, i + 1, c);
    }
  }

  lemma TagsGrow(i: nat, j: nat)
    requires i < j < COMPONENTS
    ensures Tag(i) < Tag(j)
  {
  }

  lemma FirstOctetIsTag(c: Component)
    ensures Wire(Sent(c))[0] == Wire(c)[0] == Tag(Slot(c))
  {
    hide U16, U32;
  }

  lemma {:induction false} ListedFrom(cs: Contents, i: nat, a: nat)
    requires i <= COMPONENTS && a < |Listed(cs, i)|
    ensures i <= Slot(Listed(cs, i)[a]) && cs[Slot(Listed(cs, i)[a])] == Some(Listed(cs, i)[a])
    decreases COMPONENTS - i
  {
    if cs[i].Some? {
      assert Slot(cs[i].value) == i;
      if a > 0 {
        ListedFrom(cs, i + 1, a - 1);
      }
    } else {
      ListedFrom(cs, i + 1, a);
    }
  }

  lemma {:induction false} ListedInOrder(cs: Contents, i: nat, a: nat, b: nat)
    requires i <= COMPONENTS && a < b < |Listed(cs, i)|
    ensures Slot(Listed(cs, i)[a]) < Slot(Listed(cs, i)[b])
    decreases COMPONENTS - i
  {
    hide Slot, Listed;
    if i == COMPONENTS {
      NoMore(cs);
    } else {
      NextListed(cs, i);
      if cs[i].None? {
        ListedInOrder(cs, i + 1, a, b);
      } else if a > 0 {
        ListedInOrder(cs, i + 1, a - 1, b - 1);
      } else {
        SlotIs(cs, i);
        ListedFrom(cs, i + 1, b - 1);
      }
    }
  }

  lemma NoMore(cs: Contents)
    ensures Listed(cs, COMPONENTS) == []
  {
  }

  lemma SlotIs(cs: Contents, i: nat)
    requires i < COMPONENTS && cs[i].Some?
    ensures Slot(cs[i].value) == i
  {
  }

  lemma StandsAsWire(b: seq<Octet>, at: nat, c: Component)
    requires OneStands(b, at, c)
    ensures var w := Wire(Sent(c)); at + |w| <= |b| && b[at..at + |w|] == w
  {
    WireIs(c);
    hide Wire, Counted, Tag, Sent, Size, Slot;
    var n := Size(Slot(c));
    assert b[at..at + 1 + n] == [b[at]] + b[at + 1..at + 1 + n];
  }

  lemma LaidBefore(b: seq<Octet>, at: nat, c: Component, ks: seq<Component>, end: nat)
    requires OneStands(b, at, c) && Laid(b, at + 1 + Advance(Slot(c)), ks, end)
    ensures Laid(b, at, [c] + ks, end)
  {
    StandsAsWire(b, at, c);
    WireIs(c);
    hide Wire, Sent, Gap, Advance, Slot, OneStands;
    assert ([c] + ks)[1..] == ks;
  }

  lemma {:induction false} PutLaid(b: seq<Octet>, at: nat, cs: Contents, i: nat)
    requires i <= COMPONENTS && End(at, cs, i) < |b|
    ensures Laid(PutFrom(b, at, cs, i), at, Listed(cs, i), End(at, cs, i))
    decreases COMPONENTS - i
  {
    hide PutFrom, End, Image, Size, Tag, Slot, Splice, Advance, OneStands, Laid, Listed;
    if i == COMPONENTS {
      PutNothing(b, at, cs);
      NoneListed(b, at, cs);
    } else {
      PutStep(b, at, cs, i);
      NextListed(cs, i);
      if cs[i].None? {
        PutLaid(b, at, cs, i + 1);
      } else {
        var c := cs[i].value;
        var b1, at1 := Splice(b, at, [Tag(i)] + Image(c)), at + 1 + Advance(i);
        PutLaid(b1, at1, cs, i + 1);
        ComponentStands(b, at, cs, i);
        SlotIs(cs, i);
        LaidBefore(PutFrom(b1, at1, cs, i + 1), at, c, Listed(cs, i + 1), End(at, cs, i));
      }
    }
  }

  lemma NoneListed(b: seq<Octet>, at: nat, cs: Contents)
    ensures Laid(b, at, Listed(cs, COMPONENTS), at)
  {
  }

  lemma ComponentStands(b: seq<Octet>, at: nat, cs: Contents, i: nat)
    requires i < COMPONENTS && End(at, cs, i) < |b| && cs[i].Some?
    ensures OneStands(PutFrom(b, at, cs, i), at, cs[i].value)
  {
    hide PutFrom, End, Image, Size, Tag, Slot, Splice, Advance, OneStands;
    var c := cs[i].value;
    PutStep(b, at, cs, i);
    SlotIs(cs, i);
    ImageSize(c);
    var b1, at1 := Splice(b, at, [Tag(i)] + Image(c)), at + 1 + Advance(i);
    forall j | at <= j < at1 ensures PutFrom(b1, at1, cs, i + 1)[j] == b1[j] {
      PutKeeps(b1, at1, cs, i + 1, j);
    }
    SpliceStands(b, PutFrom(b1, at1, cs, i + 1), at, c);
  }

  lemma NextListed(cs: Contents, i: nat)
    requires i < COMPONENTS
    ensures Listed(cs, i) == if cs[i].Some? then [cs[i].value] + Listed(cs, i + 1) else Listed(cs, i + 1)
  {
  }

  lemma {:induction false} LaidFrame(b: seq<Octet>, b': seq<Octet>, at: nat, ks: seq<Component>, end: nat)
    requires Laid(b, at, ks, end) && |b| == |b'| && forall j :: at <= j < |b| ==> b[j] == b'[j]
    ensures Laid(b', at, ks, end)
    decreases |ks|
  {
    hide Wire, Sent, Gap;
    if ks != [] {
      var w := Wire(Sent(ks[0]));
      assert b[at..at + |w|] == b'[at..at + |w|];
      LaidFrame(b, b', at + |w| + Gap(ks[0]), ks[1..], end);
    }
  }

  lemma {:induction false} LaidEnds(b: seq<Octet>, at: nat, ks: seq<Component>, end: nat)
    requires Laid(b, at, ks, end)
    ensures at <= end
    decreases |ks|
  {
    if ks != [] {
      LaidEnds(b, at + |Wire(Sent(ks[0]))| + Gap(ks[0]), ks[1..], end);
    }
  }

  /** Nothing from `end` on matters. */
  lemma {:induction false} LaidPrefix(b: seq<Octet>, b': seq<Octet>, at: nat, ks: seq<Component>, end: nat)
    requires Laid(b, at, ks, end) && |b| == |b'| && forall j :: at <= j < end && j < |b| ==> b[j] == b'[j]
    ensures Laid(b', at, ks, end)
    decreases |ks|
  {
    hide Wire, Sent, Gap;
    if ks != [] {
      var w := Wire(Sent(ks[0]));
      LaidEnds(b, at + |w| + Gap(ks[0]), ks[1..], end);
      assert b[at..at + |w|] == b'[at..at + |w|];
      LaidPrefix(b, b', at + |w| + Gap(ks[0]), ks[1..], end);
    }
  }

  /** A filter that stands at `at` and ends before `end`. */
  ghost predicate FilterAt(b: seq<Octet>, at: nat, f: Filter, ks: seq<Component>, end: nat) {
    && at + 3 <= end && at + 3 <= |b|
    && b[at] == f.direction * 16 + f.identifier
    && b[at + 1] == f.precedence
    && b[at + 2] == end - (at + 3)
    && Laid(b, at + 3, ks, end)
    && (forall c :: c in ks <==> Some(c) in f.contents)
    && (forall x, y :: 0 <= x < y < |ks| ==> Wire(ks[x])[0] < Wire(ks[y])[0])
  }

  lemma FilterPrefix(b: seq<Octet>, b': seq<Octet>, at: nat, f: Filter, ks: seq<Component>, end: nat)
    requires FilterAt(b, at, f, ks, end) && |b| == |b'| && forall j :: at <= j < end && j < |b| ==> b[j] == b'[j]
    ensures FilterAt(b', at, f, ks, end)
  {
    hide Laid, Wire;
    LaidPrefix(b, b', at + 3, ks, end);
  }

  /** Every filter on the wire: direction and identifier in one octet, the precedence, the length of the
      rest, and then exactly its components, in increasing order of their tags. */
  lemma FilterOnWire(b: seq<Octet>, at: nat, f: Filter) returns (ks: seq<Component>)
    requires End(at + 3, f.contents, 0) < |b|
    ensures FilterAt(Put(b, at, f), at, f, ks, End(at + 3, f.contents, 0))
  {
    hide Laid, PutFrom, End, Splice, Low, Listed, Slot, Wire, Tag;
    ks := Listed(f.contents, 0);
    var b1 := Splice(b, at, [HeadOctet(f), f.precedence]);
    PutHead(b, at, f);
    PutLaid(b1, at + 3, f.contents, 0);
    LaidFrame(PutFrom(b1, at + 3, f.contents, 0), Put(b, at, f), at + 3, ks, End(at + 3, f.contents, 0));
    forall c ensures c in ks <==> Some(c) in f.contents {
      ListedExactly(f.contents, 0, c);
    }
    forall x, y | 0 <= x < y < |ks| ensures Wire(ks[x])[0] < Wire(ks[y])[0] {
      ListedInOrder(f.contents, 0, x, y);
      FirstOctetIsTag(ks[x]);
      FirstOctetIsTag(ks[y]);
      TagsGrow(Slot(ks[x]), Slot(ks[y]));
    }
  }

  // ---------------------------------------------------------------- what the decoder reads

  /** The components stand in the buffer from `at` to `end`, one behind the other. */
  ghost predicate Stands(b: seq<Octet>, at: nat, ks: seq<Component>, end: nat)
    decreases |ks|
  {
    if ks == [] then at == end
    else
      var w := Wire(ks[0]);
      at + |w| <= end <= |b| && b[at..at + |w|] == w && Stands(b, at + |w|, ks[1..], end)
  }

  /** A flow label has 24 bits on the wire. */
  predicate Fits(c: Component) { c.FlowLabel? ==> c.flow < 0x100_0000 }

  /** The contents once the components have been entered one after the other. */
  function Entered(cs: Contents, ks: seq<Component>): (r: Contents)
    decreases |ks|
  {
    if ks == [] then cs else Entered(cs[Slot(ks[0]) := Some(ks[0])], ks[1..])
  }

  lemma Word24(n: nat)
    requires n < 0x100_0000
    ensures FromU32([0, (n / 0x1_0000) % 256, (n / 256) % 256, n % 256]) == n
  {
    Word32Octets(n);
    U32RoundTrip(n);
    assert n / 0x100_0000 == 0;
    hide U32, FromU32;
  }

  lemma Word32Read(n: Word32)
    ensures FromU32([n / 0x100_0000, (n / 0x1_0000) % 256, (n / 256) % 256, n % 256]) == n
  {
    Word32Octets(n);
    U32RoundTrip(n);
  }

  lemma TagIsKnown(c: Component)
    ensures SlotOf(Wire(c)[0]) == Some(Slot(c)) && |Wire(c)| == 1 + Size(Slot(c))
  {
  }

  lemma AddressRead(c: Component)
    requires c.Ipv4Remote? || c.Ipv6Remote?
    ensures |Wire(c)| == 1 + Size(Slot(c)) && Read(Slot(c), Wire(c)[1..]) == c
  {
    hide FromU16, FromU32;
    var s := Wire(c)[1..];
    if c.Ipv4Remote? {
      assert s[..4] == c.addr4 && s[4..] == c.mask4;
    } else {
      assert s == c.addr6 + c.mask6;
      assert s[..16] == c.addr6 && s[16..] == c.mask6;
    }
  }

  lemma PortRead(p: Word16)
    ensures FromU16([p / 256, p % 256]) == p
  {
  }

  lemma PortsRead(c: Component)
    requires c.LocalPort? || c.RemotePort? || c.LocalPortRange? || c.RemotePortRange?
    ensures |Wire(c)| == 1 + Size(Slot(c)) && Read(Slot(c), Wire(c)[1..]) == c
  {
    hide FromU16, FromU32;
    var s := Wire(c)[1..];
    if c.LocalPort? || c.RemotePort? {
      assert s == [c.port / 256, c.port % 256];
      PortRead(c.port);
    } else {
      assert s[..2] == [c.low / 256, c.low % 256] && s[2..] == [c.high / 256, c.high % 256];
      PortRead(c.low);
      PortRead(c.high);
    }
  }

  lemma WordsRead(c: Component)
    requires (c.SecurityParameterIndex? || c.FlowLabel?) && Fits(c)
    ensures |Wire(c)| == 1 + Size(Slot(c)) && Read(Slot(c), Wire(c)[1..]) == c
  {
    hide FromU16, FromU32;
    var s := Wire(c)[1..];
    if c.SecurityParameterIndex? {
      var n := c.spi;
      assert s == [n / 0x100_0000, (n / 0x1_0000) % 256, (n / 256) % 256, n % 256];
      Word32Read(n);
    } else {
      var n := c.flow;
      assert [0] + s == [0, (n / 0x1_0000) % 256, (n / 256) % 256, n % 256];
      Word24(n);
    }
  }

  lemma ReadsWire(c: Component)
    requires Fits(c)
    ensures SlotOf(Wire(c)[0]) == Some(Slot(c)) && |Wire(c)| == 1 + Size(Slot(c)) && Read(Slot(c), Wire(c)[1..]) == c
  {
    TagIsKnown(c);
    if c.Ipv4Remote? || c.Ipv6Remote? {
      AddressRead(c);
    } else if c.SecurityParameterIndex? || c.FlowLabel? {
      WordsRead(c);
    } else if !c.Protocol? && !c.TypeOfService? {
      PortsRead(c);
    }
    hide FromU16, FromU32;
  }

  lemma OneReadFromWire(b: seq<Octet>, at: nat, end: nat, cs: Contents, c: Component)
    requires Fits(c) && at + |Wire(c)| <= end <= |b| && b[at..at + |Wire(c)|] == Wire(c) && (c.FlowLabel? ==> end < |b|)
    ensures ReadComponents(b, at, end, cs) == ReadComponents(b, at + |Wire(c)|, end, cs[Slot(c) := Some(c)])
  {
    ReadsWire(c);
    LabelSlot(c);
    hide Wire, SlotOf, Read, Size, Slot, Fits;
    var n := |Wire(c)|;
    assert b[at] == b[at..at + n][0];
    assert b[at + 1..at + n] == b[at..at + n][1..];
  }

  lemma {:induction false} AllReadFromWire(b: seq<Octet>, at: nat, end: nat, cs: Contents, ks: seq<Component>)
    requires Stands(b, at, ks, end) && (forall k :: k in ks ==> Fits(k) && (k.FlowLabel? ==> end < |b|))
    ensures ReadComponents(b, at, end, cs) == Ok(Entered(cs, ks), end)
    decreases |ks|
  {
    hide ReadComponents, Wire, Fits, Slot;
    if ks == [] {
      NoneLeft(b, end, cs);
    } else {
      SlotBound(ks[0], cs);
      OneReadFromWire(b, at, end, cs, ks[0]);
      AllReadFromWire(b, at + |Wire(ks[0])|, end, cs[Slot(ks[0]) := Some(ks[0])], ks[1..]);
    }
  }

  lemma SlotBound(c: Component, cs: Contents)
    ensures Slot(c) < COMPONENTS == |cs| && ContentsOk(cs[Slot(c) := Some(c)])
  {
  }

  /** No two components of the same kind. */
  ghost predicate KindsDiffer(ks: seq<Component>) {
    forall x, y :: 0 <= x < y < |ks| ==> Wire(ks[x])[0] != Wire(ks[y])[0]
  }

  lemma {:induction false} EnteredAt(cs: Contents, ks: seq<Component>, i: nat)
    requires i < COMPONENTS
    ensures (forall k :: k in ks ==> Slot(k) != i) ==> Entered(cs, ks)[i] == cs[i]
    ensures Entered(cs, ks)[i] == cs[i] || exists k :: k in ks && Entered(cs, ks)[i] == Some(k)
    decreases |ks|
  {
    hide Slot;
    if ks != [] {
      SlotBound(ks[0], cs);
      EnteredAt(cs[Slot(ks[0]) := Some(ks[0])], ks[1..], i);
    }
  }

  lemma {:induction false} EnteredHas(cs: Contents, ks: seq<Component>, x: nat)
    requires x < |ks| && forall y :: x < y < |ks| ==> Slot(ks[y]) != Slot(ks[x])
    ensures Entered(cs, ks)[Slot(ks[x])] == Some(ks[x])
    decreases |ks|
  {
    hide Slot;
    SlotBound(ks[0], cs);
    var cs1 := cs[Slot(ks[0]) := Some(ks[0])];
    if x == 0 {
      SlotBound(ks[0], cs1);
      EnteredAt(cs1, ks[1..], Slot(ks[0]));
    } else {
      EnteredHas(cs1, ks[1..], x - 1);
    }
  }

  lemma EnteredExactly(ks: seq<Component>, c: Component)
    requires KindsDiffer(ks)
    ensures Some(c) in Entered(NoContents(), ks) <==> c in ks
  {
    hide Slot, Wire;
    var r := Entered(NoContents(), ks);
    if c in ks {
      var x :| 0 <= x < |ks| && ks[x] == c;
      forall y | x < y < |ks| ensures Slot(ks[y]) != Slot(ks[x]) {
        FirstOctetIsTag(ks[x]);
        FirstOctetIsTag(ks[y]);
      }
      EnteredHas(NoContents(), ks, x);
      SlotBound(c, r);
      assert r[Slot(c)] == Some(c);
    }
    if Some(c) in r {
      var i :| 0 <= i < |r| && r[i] == Some(c);
      EnteredAt(NoContents(), ks, i);
    }
  }

  /** The decoder on any buffer that holds a filter in this layout, its components in any order: it finds
      direction, identifier, precedence and exactly these components, and takes exactly these octets. The
      two spare bits are ignored. Behind a flow label there must be one octet more. */
  lemma WireIsRead(b: seq<Octet>, at: nat, spare: nat, direction: TwoBits, identifier: FourBits, precedence: Octet, ks: seq<Component>, end: nat)
    requires at + 3 <= |b| && spare < 4 && KindsDiffer(ks) && Stands(b, at + 3, ks, end)
    requires b[at] == spare * 64 + direction * 16 + identifier && b[at + 1] == precedence && b[at + 2] == end - (at + 3)
    requires forall k :: k in ks ==> Fits(k) && (k.FlowLabel? ==> end < |b|)
    ensures var r := DecodeAt(b, at, end);
            && r.Ok? && r.used == end
            && r.value.direction == direction && r.value.identifier == identifier && r.value.precedence == precedence
            && (forall c :: Some(c) in r.value.contents <==> c in ks)
  {
    hide ReadComponents, Entered, Wire, Fits, KindsDiffer, Stands;
    StandsAfter(b, at + 3, ks, end);
    AllReadFromWire(b, at + 3, end, NoContents(), ks);
    HeadDecoded(spare, direction, identifier);
    forall c ensures Some(c) in Entered(NoContents(), ks) <==> c in ks {
      EnteredExactly(ks, c);
    }
  }

  lemma {:induction false} StandsAfter(b: seq<Octet>, at: nat, ks: seq<Component>, end: nat)
    requires Stands(b, at, ks, end)
    ensures at <= end
    decreases |ks|
  {
    if ks != [] {
      StandsAfter(b, at + |Wire(ks[0])|, ks[1..], end);
    }
  }

  lemma HeadDecoded(spare: nat, direction: TwoBits, identifier: FourBits)
    requires spare < 4
    ensures Direction(spare * 64 + direction * 16 + identifier) == direction
    ensures Identifier(spare * 64 + direction * 16 + identifier) == identifier
  {
  }

  /** Every other tag is refused. */
  lemma TagsAreThese(tag: Octet)
    ensures SlotOf(tag).Some? <==> tag in [0x10, 0x20, 0x30, 0x40, 0x41, 0x50, 0x51, 0x60, 0x70, 0x80]
  {
  }
}
