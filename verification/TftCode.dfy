/** The encoder and the decoder of traffic flow templates as they run: cursors over a buffer that is
    written in place, with the length of a filter patched in when its end is known. */
module TftCode {
  import opened Common
  import opened Octets
  import opened PacketFilter
  import opened PacketFilterRoundTrip
  import opened TrafficFlowTemplate

  // ---------------------------------------------------------------- encoder

  /** The octets of an address and of its mask are written side by side. */
  method EncodeAddress(addr: seq<Octet>, mask: seq<Octet>, buffer: array<Octet>, at: nat)
    requires |addr| == |mask| && at + 2 * |addr| <= buffer.Length
    modifies buffer
    ensures Written(buffer[..], old(buffer[..]), at, addr + mask)
  {
    var n := |addr|;
    for j := 0 to n
      invariant forall k :: 0 <= k < at ==> buffer[k] == old(buffer[k])
      invariant forall k :: 0 <= k < j ==> buffer[at + k] == addr[k] && buffer[at + n + k] == mask[k]
      invariant forall k :: at + n + n <= k < buffer.Length ==> buffer[k] == old(buffer[k])
    {
      buffer[at + j] := addr[j];
      buffer[at + j + n] := mask[j];
    }
    assert buffer[at..at + n] == addr && buffer[at + n..at + n + n] == mask;
    assert buffer[at..at + n + n] == buffer[at..at + n] + buffer[at + n..at + n + n];
  }

  method EncodeComponent(c: Component, buffer: array<Octet>, at: nat) returns (n: nat)
    requires at + 1 + |Image(c)| <= buffer.Length
    modifies buffer
    ensures n == 1 + Advance(Slot(c)) && buffer[..] == Splice(old(buffer[..]), at, [Tag(Slot(c))] + Image(c))
  {
    hide Written, U16, U32, Splice;
    ghost var b0 := buffer[..];
    PutOctet(buffer, at, Tag(Slot(c)));
    ghost var b1 := buffer[..];
    match c {
      case Ipv4Remote(addr, mask) => EncodeAddress(addr, mask, buffer, at + 1);
      case Ipv6Remote(addr, mask) => EncodeAddress(addr, mask, buffer, at + 1);
      case Protocol(p) => PutOctet(buffer, at + 1, p);
      case LocalPort(port) => CopyOctets(buffer, at + 1, U16(port));
      case LocalPortRange(low, high) => EncodeRange(low, high, buffer, at + 1);
      case RemotePort(port) => CopyOctets(buffer, at + 1, U16(port));
      case RemotePortRange(low, high) => EncodeRange(low, high, buffer, at + 1);
      case SecurityParameterIndex(spi) => CopyOctets(buffer, at + 1, U32(spi));
      case TypeOfService(value, mask) => CopyOctets(buffer, at + 1, [value, mask]);
      case FlowLabel(flow) => CopyOctets(buffer, at + 1, U32(flow % 0x10_0000));
    }
    n := 1 + Advance(Slot(c));
    WrittenTwice(buffer[..], b1, b0, at, [Tag(Slot(c))], Image(c));
    WrittenIsSplice(buffer[..], b0, at, [Tag(Slot(c))] + Image(c));
  }

  method EncodeRange(low: Word16, high: Word16, buffer: array<Octet>, at: nat)
    requires at + 4 <= buffer.Length
    modifies buffer
    ensures Written(buffer[..], old(buffer[..]), at, U16(low) + U16(high))
  {
    hide Written, U16;
    ghost var b0 := buffer[..];
    CopyOctets(buffer, at, U16(low));
    ghost var b1 := buffer[..];
    CopyOctets(buffer, at + 2, U16(high));
    WrittenTwice(buffer[..], b1, b0, at, U16(low), U16(high));
  }

  /** `encode_traffic_flow_template_packet_filter`: one round for every flag, from 1<<0 to 1<<9. */
  method EncodeFilter(f: Filter, buffer: array<Octet>, at: nat, len: nat) returns (r: int)
    requires FilterEnd(at, f) < buffer.Length
    modifies buffer
    ensures len == 0 ==> r == VALUE_DOESNT_MATCH && buffer[..] == old(buffer[..])
    ensures len > 0 ==> r == FilterEnd(at, f) - at && buffer[..] == Put(old(buffer[..]), at, f)
  {
    if len == 0 {
      return VALUE_DOESNT_MATCH;
    }
    hide Put, End;
    var encoded := EncodeParts(f, buffer, at);
    r := encoded - at;
  }

  /** The head, then the components, then the length octet between them. */
  method EncodeParts(f: Filter, buffer: array<Octet>, at: nat) returns (encoded: nat)
    requires FilterEnd(at, f) < buffer.Length
    modifies buffer
    ensures encoded == FilterEnd(at, f) && buffer[..] == Put(old(buffer[..]), at, f)
  {
    hide Put, PutFrom, End, Splice, HeadOctet, Low, Written;
    ghost var b0 := buffer[..];
    EncodeHead(f, buffer, at);
    var pkflenPtr := at + 2;
    encoded := EncodeComponents(f.contents, buffer, at + 3);
    LengthPatched(b0, at, f, buffer[..]);
    PutOctet(buffer, pkflenPtr, Low(encoded - (at + 3)));
  }

  method EncodeHead(f: Filter, buffer: array<Octet>, at: nat)
    requires at + 3 <= buffer.Length
    modifies buffer
    ensures buffer[..] == Splice(old(buffer[..]), at, [HeadOctet(f), f.precedence])
  {
    hide Splice, Written, HeadOctet;
    ghost var b0 := buffer[..];
    CopyOctets(buffer, at, [HeadOctet(f), f.precedence]);
    WrittenIsSplice(buffer[..], b0, at, [HeadOctet(f), f.precedence]);
  }

  lemma LengthPatched(b0: seq<Octet>, at: nat, f: Filter, b1: seq<Octet>)
    requires FilterEnd(at, f) < |b0| && b1 == PutFrom(Splice(b0, at, [HeadOctet(f), f.precedence]), at + 3, f.contents, 0)
    ensures b1[at + 2 := Low(FilterEnd(at, f) - (at + 3))] == Put(b0, at, f)
  {
    hide PutFrom, End, Splice, HeadOctet, Low;
  }

  method EncodeComponents(cs: Contents, buffer: array<Octet>, at: nat) returns (encoded: nat)
    requires End(at, cs, 0) < buffer.Length
    modifies buffer
    ensures encoded == End(at, cs, 0) && buffer[..] == PutFrom(old(buffer[..]), at, cs, 0)
  {
    hide PutFrom, End, Splice, Slot, Image, Advance, Tag;
    ghost var b0 := buffer[..];
    encoded := at;
    var i: nat := 0;
    while i < COMPONENTS
      invariant i <= COMPONENTS && End(encoded, cs, i) == End(at, cs, 0)
      invariant PutFrom(b0, at, cs, 0) == PutFrom(buffer[..], encoded, cs, i)
    {
      PutStep(buffer[..], encoded, cs, i);
      if cs[i].Some? {
        SlotIs(cs, i);
        var n := EncodeComponent(cs[i].value, buffer, encoded);
        encoded := encoded + n;
      }
      i := i + 1;
    }
    Finished(buffer[..], encoded, cs);
  }

  lemma SlotIs(cs: Contents, i: nat)
    requires i < COMPONENTS && cs[i].Some?
    ensures Slot(cs[i].value) == i
  {
  }

  lemma Finished(b: seq<Octet>, at: nat, cs: Contents)
    requires End(at, cs, COMPONENTS) < |b|
    ensures End(at, cs, COMPONENTS) == at && PutFrom(b, at, cs, COMPONENTS) == b
  {
  }

  /** `encode_traffic_flow_template`, for a caller that leaves enough room. */
  method EncodeTft(t: Tft, buffer: array<Octet>, at: nat, len: nat) returns (encoded: nat)
    requires TftOk(t) && TftEnd(at, t) <= at + len && TftEnd(at, t) < buffer.Length
    modifies buffer
    ensures encoded == TftEnd(at, t) - at && buffer[..] == PutTft(old(buffer[..]), at, t)
  {
    hide Head;
    ghost var b0 := buffer[..];
    PutOctet(buffer, at, Head(t));
    if t.opcode == DELETE_FILTERS {
      EncodeIds(t.ids, buffer, at + 1);
      WrittenTwice(buffer[..], b0[at := Head(t)], b0, at, [Head(t)], t.ids);
      WrittenIsSplice(buffer[..], b0, at, [Head(t)] + t.ids);
      encoded := 1 + |t.ids|;
    } else {
      var n := EncodeFilters(t.filters, buffer, at + 1, len - 1);
      encoded := 1 + n;
    }
  }

  /** `encode_traffic_flow_template_ie`, for a caller that leaves enough room. */
  method EncodeIe(t: Tft, withIei: bool, buffer: array<Octet>, len: nat) returns (encoded: nat)
    requires TftOk(t) && TftEnd(IeStart(withIei), t) <= len && TftEnd(IeStart(withIei), t) < buffer.Length
    modifies buffer
    ensures encoded == TftEnd(IeStart(withIei), t) && buffer[..] == PutIe(old(buffer[..]), t, withIei)
  {
    hide PutTft, TftEnd, Low, Written;
    ghost var b0 := buffer[..];
    encoded := 0;
    if withIei {
      PutOctet(buffer, 0, ENCODER_IEI);
      encoded := encoded + 1;
    }
    var lenPtr := encoded;
    encoded := encoded + 1;
    var n := EncodeTft(t, buffer, encoded, len - encoded);
    encoded := encoded + n;
    PutOctet(buffer, lenPtr, Low(encoded - 1 - (if withIei then 1 else 0)));
  }

  method EncodeIds(ids: seq<Octet>, buffer: array<Octet>, at: nat)
    requires at + |ids| <= buffer.Length
    modifies buffer
    ensures Written(buffer[..], old(buffer[..]), at, ids)
  {
    CopyOctets(buffer, at, ids);
  }

  method EncodeFilters(fs: seq<Filter>, buffer: array<Octet>, at: nat, len: nat) returns (encoded: nat)
    requires FiltersEnd(at, fs, 0) <= at + len && FiltersEnd(at, fs, 0) < buffer.Length
    modifies buffer
    ensures encoded == FiltersEnd(at, fs, 0) - at && buffer[..] == PutFilters(old(buffer[..]), at, fs, 0)
  {
    hide Put, End;
    ghost var b0 := buffer[..];
    encoded := 0;
    var i := 0;
    while i < |fs|
      invariant i <= |fs| && FiltersEnd(at + encoded, fs, i) == FiltersEnd(at, fs, 0)
      invariant PutFilters(b0, at, fs, 0) == PutFilters(buffer[..], at + encoded, fs, i)
    {
      FiltersStep(buffer[..], at + encoded, fs, i);
      var n := EncodeFilter(fs[i], buffer, at + encoded, len - encoded);
      encoded := encoded + n;
      i := i + 1;
    }
  }

  lemma FiltersStep(b: seq<Octet>, at: nat, fs: seq<Filter>, i: nat)
    requires i < |fs| && FiltersEnd(at, fs, i) < |b|
    ensures at < FilterEnd(at, fs[i]) <= FiltersEnd(at, fs, i) == FiltersEnd(FilterEnd(at, fs[i]), fs, i + 1)
    ensures PutFilters(b, at, fs, i) == PutFilters(Put(b, at, fs[i]), FilterEnd(at, fs[i]), fs, i + 1)
  {
    hide Put, End;
  }

  // ---------------------------------------------------------------- decoder

  /** `decode_traffic_flow_template_packet_filter`, reading only inside the memory b. */
  method DecodeFilter(b: seq<Octet>, at: nat, end: nat) returns (r: Decoded<Filter>)
    ensures r == DecodeAt(b, at, end)
  {
    hide Read, SlotOf, Size, Direction, Identifier;
    if at == end {
      return Error(VALUE_DOESNT_MATCH);
    }
    if at + 3 > |b| {
      return Overrun;
    }
    var direction, identifier, precedence := Direction(b[at]), Identifier(b[at]), b[at + 1];
    var pkflen := b[at + 2];
    var decoded, pkfstart := at + 3, at + 3;
    var contents: Contents := NoContents();
    while decoded - pkfstart < pkflen
      invariant ReadComponents(b, pkfstart, pkfstart + pkflen, NoContents()) ==
                ReadComponents(b, decoded, pkfstart + pkflen, contents)
      decreases |b| - decoded
    {
      if decoded >= |b| {
        return Overrun;
      }
      var slot := SlotOf(b[decoded]);
      if slot.None? {
        return Error(UNEXPECTED_IEI);
      }
      if decoded + 1 + Touched(slot.value) > |b| {
        return Overrun;
      }
      var next := decoded + 1 + Size(slot.value);
      contents := contents[slot.value := Some(Read(slot.value, b[decoded + 1..next]))];
      decoded := next;
    }
    if decoded != end {
      return Error(VALUE_DOESNT_MATCH);
    }
    return Ok(Filter(direction, identifier, precedence, contents), decoded);
  }

  /** `decode_traffic_flow_template`. */
  method Decode(b: seq<Octet>, at: nat, end: nat) returns (r: Decoded<Tft>)
    ensures r == DecodeTft(b, at, end)
  {
    hide DecodeAt, Opcode, Ebit, Identifier;
    if at >= |b| {
      return Overrun;
    }
    var opcode, ebit, number := Opcode(b[at]), Ebit(b[at]), Identifier(b[at]);
    var decoded := at + 1;
    if opcode == DELETE_FILTERS {
      var ids: seq<Octet> := [];
      var i := 0;
      while i < number
        invariant i <= number && decoded == at + 1 + i <= |b| && ids == b[at + 1..decoded]
      {
        if decoded >= |b| {
          return Overrun;
        }
        ids := ids + [b[decoded]];
        decoded := decoded + 1;
        i := i + 1;
      }
      return Ok(Tft(opcode, ebit, number, [], ids), decoded);
    }
    var filters: seq<Filter> := [];
    if CarriesFilters(opcode) {
      var i := 0;
      while i < number
        invariant i <= number
        invariant ReadFilters(b, at + 1, end, number, []) == ReadFilters(b, decoded, end, number - i, filters)
      {
        var f := DecodeFilter(b, decoded, end);
        match f {
          case Ok(filter, next) =>
            filters := filters + [filter];
            decoded := next;
          case Error(code) => return Error(code);
          case Overrun => return Overrun;
          case Abort => return Abort;
        }
        i := i + 1;
      }
    }
    return Ok(Tft(opcode, ebit, number, filters, []), decoded);
  }
}
