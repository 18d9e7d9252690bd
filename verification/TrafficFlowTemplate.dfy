/** The traffic flow template of 3GPP TS 24.008 section 10.5.6.12: an operation on packet filters. */
module TrafficFlowTemplate {
  import opened Common
  import opened Octets
  import opened PacketFilter
  import opened PacketFilterRoundTrip

  const ENCODER_IEI: Octet := 0x36
  const DECODER_IEI: Octet := 0x27
  const IE_MIN_LENGTH: nat := 3

  const CREATE: nat := 1
  const ADD: nat := 3
  const REPLACE: nat := 4
  const DELETE_FILTERS: nat := 5
  const MAX_FILTERS: nat := 4

  type OneBit = n: nat | n < 2

  /** `number` is a field of its own; `filters` and `ids` are what the operation carries. */
  datatype Tft = Tft(opcode: ThreeBits, ebit: OneBit, number: FourBits, filters: seq<Filter>, ids: seq<Octet>)

  predicate CarriesFilters(opcode: ThreeBits) { opcode == CREATE || opcode == ADD || opcode == REPLACE }

  ghost predicate TftOk(t: Tft) {
    && |t.filters| == (if CarriesFilters(t.opcode) then t.number else 0)
    && |t.ids| == (if t.opcode == DELETE_FILTERS then t.number else 0)
    && |t.filters| <= MAX_FILTERS
  }

  function Head(t: Tft): (o: Octet) { t.opcode * 32 + t.ebit * 16 + t.number }

  function Opcode(o: Octet): (n: ThreeBits) { o / 32 }

  function Ebit(o: Octet): (n: OneBit) { (o / 16) % 2 }

  lemma HeadParts(t: Tft)
    ensures Opcode(Head(t)) == t.opcode && Ebit(Head(t)) == t.ebit && Identifier(Head(t)) == t.number
  {
  }

  // ---------------------------------------------------------------- encoding

  function FilterEnd(at: nat, f: Filter): (end: nat)
    ensures end > at
  {
    End(at + 3, f.contents, 0)
  }

  /** Where the encoder stands after the filters from i on. */
  function FiltersEnd(at: nat, fs: seq<Filter>, i: nat): (end: nat)
    requires i <= |fs|
    ensures end >= at
    decreases |fs| - i
  {
    if i == |fs| then at else FiltersEnd(FilterEnd(at, fs[i]), fs, i + 1)
  }

  /** The buffer after the filters from i on have been written. */
  function PutFilters(b: seq<Octet>, at: nat, fs: seq<Filter>, i: nat): (b': seq<Octet>)
    requires i <= |fs|
    requires FiltersEnd(at, fs, i) < |b|
    ensures |b'| == |b|
    decreases |fs| - i
  {
    if i == |fs| then b else PutFilters(Put(b, at, fs[i]), FilterEnd(at, fs[i]), fs, i + 1)
  }

  function TftEnd(at: nat, t: Tft): (end: nat)
    requires TftOk(t)
    ensures end > at
  {
    if t.opcode == DELETE_FILTERS then at + 1 + |t.ids| else FiltersEnd(at + 1, t.filters, 0)
  }

  /** The buffer after a template has been written at `at`. */
  function PutTft(b: seq<Octet>, at: nat, t: Tft): (b': seq<Octet>)
    requires TftOk(t) && TftEnd(at, t) < |b|
    ensures |b'| == |b|
  {
    if t.opcode == DELETE_FILTERS then Splice(b, at, [Head(t)] + t.ids) else PutList(b, at, Head(t), t.filters)
  }

  function PutList(b: seq<Octet>, at: nat, head: Octet, fs: seq<Filter>): (b': seq<Octet>)
    requires FiltersEnd(at + 1, fs, 0) < |b|
    ensures |b'| == |b|
  {
    PutFilters(b[at := head], at + 1, fs, 0)
  }

  // ---------------------------------------------------------------- decoding

  /** The n filters from `at` on; the announced buffer ends at `end`. */
  function ReadFilters(b: seq<Octet>, at: nat, end: nat, n: nat, fs: seq<Filter>): (r: Decoded<seq<Filter>>)
    decreases n
  {
    if n == 0 then Ok(fs, at)
    else
      match DecodeAt(b, at, end)
      case Ok(f, next) => ReadFilters(b, next, end, n - 1, fs + [f])
      case Error(code) => Error(code)
      case Overrun => Overrun
      case Abort => Abort
  }

  /** b is all the memory there is; the announced buffer goes from `at` to `end`. */
  function DecodeTft(b: seq<Octet>, at: nat, end: nat): (r: Decoded<Tft>) {
    if at >= |b| then Overrun
    else
      var opcode, ebit, number := Opcode(b[at]), Ebit(b[at]), Identifier(b[at]);
      if opcode == DELETE_FILTERS then
        if at + 1 + number > |b| then Overrun
        else Ok(Tft(opcode, ebit, number, [], b[at + 1..at + 1 + number]), at + 1 + number)
      else if CarriesFilters(opcode) then
        match ReadFilters(b, at + 1, end, number, [])
        case Ok(fs, stop) => Ok(Tft(opcode, ebit, number, fs, []), stop)
        case Error(code) => Error(code)
        case Overrun => Overrun
        case Abort => Abort
      else Ok(Tft(opcode, ebit, number, [], []), at + 1)
  }

  /** The information element. Its identifier is checked against that of another element. */
  function DecodeIe(b: seq<Octet>, len: nat, withIei: bool): (r: Decoded<Tft>)
    requires len <= |b|
  {
    if len < (if withIei then IE_MIN_LENGTH else IE_MIN_LENGTH - 1) then Error(BUFFER_TOO_SHORT)
    else if withIei && b[0] != DECODER_IEI then Error(UNEXPECTED_IEI)
    else
      var at := if withIei then 1 else 0;
      if len - (at + 1) < b[at] then Error(BUFFER_TOO_SHORT) else DecodeTft(b, at + 1, len)
  }

  // ---------------------------------------------------------------- round trip

  lemma DeleteReads(b: seq<Octet>, at: nat, t: Tft, end: nat)
    requires TftOk(t) && TftEnd(at, t) < |b| && t.opcode == DELETE_FILTERS
    ensures DecodeTft(PutTft(b, at, t), at, end) == Ok(t, TftEnd(at, t))
  {
    hide Head, Opcode, Ebit, Identifier;
    HeadParts(t);
    var s := [Head(t)] + t.ids;
    Middle(b[..at], s, b[at + |s|..]);
    var b' := PutTft(b, at, t);
    assert b'[at..at + |s|] == s;
    Part(b', at, |s|, 0, 1);
    Part(b', at, |s|, 1, |s|);
  }

  lemma EmptyReads(b: seq<Octet>, at: nat, t: Tft, end: nat)
    requires TftOk(t) && TftEnd(at, t) < |b| && t.opcode != DELETE_FILTERS && t.filters == []
    ensures DecodeTft(PutTft(b, at, t), at, end) == Ok(t, at + 1) && TftEnd(at, t) == at + 1
  {
    hide Head, Opcode, Ebit, Identifier;
    HeadParts(t);
  }

  /** A list of one filter is decoded if and only if the filter survives. */
  lemma OneReads(b: seq<Octet>, at: nat, t: Tft)
    requires TftOk(t) && TftEnd(at, t) < |b| && |t.filters| == 1
    requires forall j :: at <= j < |b| ==> b[j] == 0
    ensures DecodeTft(PutTft(b, at, t), at, TftEnd(at, t)) == Ok(t, TftEnd(at, t)) <==> Survives(t.filters[0])
  {
    hide Head, Put, End, DecodeAt, Survives, ReadFilters, DecodeTft, PutList;
    OneEnd(at, t);
    OneList(b, at, Head(t), t.filters);
    var f, b1, end := t.filters[0], b[at := Head(t)], TftEnd(at, t);
    var b' := Put(b1, at + 1, f);
    PutLeaves(b1, at + 1, f, at);
    FilterRoundTripIff(b1, at + 1, f);
    OneOnly(b', at + 1, end);
    ListReads(b', at, t, end);
    assert t.filters == [f] && t.ids == [];
  }

  lemma OneEnd(at: nat, t: Tft)
    requires TftOk(t) && |t.filters| == 1
    ensures TftEnd(at, t) == FilterEnd(at + 1, t.filters[0])
  {
    hide End;
    var end := FilterEnd(at + 1, t.filters[0]);
    assert FiltersEnd(end, t.filters, 1) == end;
  }

  lemma OneList(b: seq<Octet>, at: nat, head: Octet, fs: seq<Filter>)
    requires at < |b| && |fs| == 1 && FiltersEnd(at + 1, fs, 0) < |b| && FilterEnd(at + 1, fs[0]) < |b|
    ensures PutList(b, at, head, fs) == Put(b[at := head], at + 1, fs[0])
  {
    hide Put, End;
    JustOne(b[at := head], at + 1, fs);
  }

  lemma ListReads(b: seq<Octet>, at: nat, t: Tft, end: nat)
    requires at < |b| && b[at] == Head(t) && CarriesFilters(t.opcode)
    ensures DecodeTft(b, at, end) ==
            match ReadFilters(b, at + 1, end, t.number, [])
            case Ok(fs, stop) => Ok(Tft(t.opcode, t.ebit, t.number, fs, []), stop)
            case Error(code) => Error(code)
            case Overrun => Overrun
            case Abort => Abort
  {
    hide Head, ReadFilters, Opcode, Ebit, Identifier;
    HeadParts(t);
  }

  lemma JustOne(b: seq<Octet>, at: nat, fs: seq<Filter>)
    requires |fs| == 1 && FiltersEnd(at, fs, 0) < |b|
    ensures FiltersEnd(at, fs, 0) == FilterEnd(at, fs[0]) && PutFilters(b, at, fs, 0) == Put(b, at, fs[0])
  {
    hide Put, End;
    var end := FilterEnd(at, fs[0]);
    assert FiltersEnd(end, fs, 1) == end && FiltersEnd(at, fs, 0) == end;
    assert PutFilters(Put(b, at, fs[0]), end, fs, 1) == Put(b, at, fs[0]);
  }

  lemma PutLeaves(b: seq<Octet>, at: nat, f: Filter, j: nat)
    requires End(at + 3, f.contents, 0) < |b| && j < at
    ensures Put(b, at, f)[j] == b[j]
  {
    hide PutFrom, End, Low, HeadOctet, Splice;
    var s := [HeadOctet(f), f.precedence];
    SpliceAt(b, at, s, j);
    PutKeeps(Splice(b, at, s), at + 3, f.contents, 0, j);
  }

  lemma OneOnly(b: seq<Octet>, at: nat, end: nat)
    ensures ReadFilters(b, at, end, 1, []) ==
            match DecodeAt(b, at, end)
            case Ok(f, next) => Ok([f], next)
            case Error(code) => Error(code)
            case Overrun => Overrun
            case Abort => Abort
  {
    hide DecodeAt;
    assert forall f: Filter :: [] + [f] == [f];
  }

  /** The first filter of a list must end where the buffer ends, so there can be no second one. */
  lemma SecondFilterFails(b: seq<Octet>, at: nat, end: nat, n: nat)
    requires n >= 2
    ensures !ReadFilters(b, at, end, n, []).Ok?
  {
    hide ReadComponents;
    match DecodeAt(b, at, end)
    case Ok(f, next) =>
      assert next == end && DecodeAt(b, end, end) == Error(VALUE_DOESNT_MATCH);
      assert ReadFilters(b, end, end, n - 1, [] + [f]) == Error(VALUE_DOESNT_MATCH);
    case Error(code) =>
    case Overrun =>
    case Abort =>
  }

  /** A template written into a zeroed buffer is read back as it was, from exactly the octets
      counted, if and only if it carries no filter, or one that survives. */
  lemma RoundTripIff(b: seq<Octet>, at: nat, t: Tft)
    requires TftOk(t) && TftEnd(at, t) < |b| && forall j :: at <= j < |b| ==> b[j] == 0
    ensures DecodeTft(PutTft(b, at, t), at, TftEnd(at, t)) == Ok(t, TftEnd(at, t)) <==>
            t.filters == [] || (|t.filters| == 1 && Survives(t.filters[0]))
  {
    hide PutTft, DecodeTft, TftEnd, Survives;
    if t.opcode == DELETE_FILTERS {
      DeleteReads(b, at, t, TftEnd(at, t));
    } else if t.filters == [] {
      EmptyReads(b, at, t, TftEnd(at, t));
    } else if |t.filters| == 1 {
      OneReads(b, at, t);
    } else {
      ManyFail(b, at, t);
    }
  }

  lemma ManyFail(b: seq<Octet>, at: nat, t: Tft)
    requires TftOk(t) && TftEnd(at, t) < |b| && |t.filters| >= 2
    ensures !DecodeTft(PutTft(b, at, t), at, TftEnd(at, t)).Ok?
  {
    hide Head, ReadFilters, PutFilters, FiltersEnd, DecodeTft;
    var b', end := PutTft(b, at, t), TftEnd(at, t);
    FiltersLeave(b[at := Head(t)], at + 1, t.filters, 0, at);
    ListReads(b', at, t, end);
    SecondFilterFails(b', at + 1, end, t.number);
  }

  lemma {:induction false} FiltersLeave(b: seq<Octet>, at: nat, fs: seq<Filter>, i: nat, j: nat)
    requires i <= |fs| && FiltersEnd(at, fs, i) < |b| && j < at
    ensures PutFilters(b, at, fs, i)[j] == b[j]
    decreases |fs| - i
  {
    if i < |fs| {
      PutLeaves(b, at, fs[i], j);
      FiltersLeave(Put(b, at, fs[i]), FilterEnd(at, fs[i]), fs, i + 1, j);
    }
  }

  // ---------------------------------------------------------------- the element

  /** Where the contents of the element start. */
  function IeStart(withIei: bool): (at: nat) { if withIei then 2 else 1 }

  /** The buffer after a whole element has been written at its start: the identifier first, the length
      last. */
  function PutIe(b: seq<Octet>, t: Tft, withIei: bool): (b': seq<Octet>)
    requires TftOk(t) && TftEnd(IeStart(withIei), t) < |b|
    ensures |b'| == |b|
  {
    var at := IeStart(withIei);
    PutTft(if withIei then b[0 := ENCODER_IEI] else b, at, t)[at - 1 := Low(TftEnd(at, t) - at)]
  }

  ghost predicate SameFrom(b: seq<Octet>, b': seq<Octet>, low: nat) {
    |b| == |b'| && forall j :: low <= j < |b| ==> b[j] == b'[j]
  }

  lemma {:induction false} ComponentsFrame(b: seq<Octet>, b': seq<Octet>, low: nat, at: nat, end: nat, cs: Contents)
    requires SameFrom(b, b', low) && low <= at
    ensures ReadComponents(b, at, end, cs) == ReadComponents(b', at, end, cs)
    ensures ReadComponents(b, at, end, cs).Ok? ==> ReadComponents(b, at, end, cs).used >= at
    decreases |b| - at
  {
    hide Read, SlotOf, Size;
    if at < end && at < |b| && SlotOf(b[at]).Some? {
      var slot := SlotOf(b[at]).value;
      if at + 1 + Touched(slot) <= |b| {
        var next := at + 1 + Size(slot);
        assert b[at + 1..next] == b'[at + 1..next];
        ComponentsFrame(b, b', low, next, end, cs[slot := Some(Read(slot, b[at + 1..next]))]);
      }
    }
  }

  lemma FilterFrame(b: seq<Octet>, b': seq<Octet>, low: nat, at: nat, end: nat)
    requires SameFrom(b, b', low) && low <= at
    ensures DecodeAt(b, at, end) == DecodeAt(b', at, end)
    ensures DecodeAt(b, at, end).Ok? ==> DecodeAt(b, at, end).used >= at
  {
    hide ReadComponents, Direction, Identifier;
    if at != end && at + 3 <= |b| {
      ComponentsFrame(b, b', low, at + 3, at + 3 + b[at + 2], NoContents());
    }
  }

  lemma {:induction false} FiltersFrame(b: seq<Octet>, b': seq<Octet>, low: nat, at: nat, end: nat, n: nat, fs: seq<Filter>)
    requires SameFrom(b, b', low) && low <= at
    ensures ReadFilters(b, at, end, n, fs) == ReadFilters(b', at, end, n, fs)
    decreases n
  {
    hide DecodeAt;
    if n > 0 {
      FilterFrame(b, b', low, at, end);
      if DecodeAt(b, at, end).Ok? {
        FiltersFrame(b, b', low, DecodeAt(b, at, end).used, end, n - 1, fs + [DecodeAt(b, at, end).value]);
      }
    }
  }

  /** The decoder of a template looks at nothing before it. */
  lemma TftFrame(b: seq<Octet>, b': seq<Octet>, at: nat, end: nat)
    requires SameFrom(b, b', at)
    ensures DecodeTft(b, at, end) == DecodeTft(b', at, end)
  {
    hide ReadFilters, Opcode, Ebit, Identifier;
    if at < |b| {
      var number := Identifier(b[at]);
      FiltersFrame(b, b', at, at + 1, end, number, []);
      if at + 1 + number <= |b| {
        assert b[at + 1..at + 1 + number] == b'[at + 1..at + 1 + number];
      }
    }
  }

  /** With its identifier in front the encoder's own element is never decoded: the encoder writes 0x36
      where the decoder expects 0x27. */
  lemma IdentifierNeverMatches(b: seq<Octet>, t: Tft, len: nat)
    requires TftOk(t) && TftEnd(2, t) < |b| && len <= |b|
    ensures !DecodeIe(PutIe(b, t, true), len, true).Ok?
  {
    hide PutTft, TftEnd, Low, DecodeTft;
    TftLeaves(b[0 := ENCODER_IEI], 2, t, 0);
  }

  lemma TftLeaves(b: seq<Octet>, at: nat, t: Tft, j: nat)
    requires TftOk(t) && TftEnd(at, t) < |b| && j < at
    ensures PutTft(b, at, t)[j] == b[j]
  {
    if t.opcode == DELETE_FILTERS {
      SpliceAt(b, at, [Head(t)] + t.ids, j);
    } else {
      FiltersLeave(b[at := Head(t)], at + 1, t.filters, 0, j);
    }
    hide Head, PutFilters, FiltersEnd, Splice;
  }

  /** An element written into a zeroed buffer and handed to the decoder as long as it is comes back if
      and only if it has no identifier and its template is read back. */
  lemma IeRoundTripIff(b: seq<Octet>, t: Tft, withIei: bool)
    requires TftOk(t) && TftEnd(IeStart(withIei), t) < |b| && forall j :: 0 <= j < |b| ==> b[j] == 0
    ensures DecodeIe(PutIe(b, t, withIei), TftEnd(IeStart(withIei), t), withIei) == Ok(t, TftEnd(IeStart(withIei), t))
            <==> !withIei && (t.filters == [] || (|t.filters| == 1 && Survives(t.filters[0])))
  {
    hide PutTft, DecodeTft, Survives, Low, TftEnd;
    var end := TftEnd(IeStart(withIei), t);
    if withIei {
      IdentifierNeverMatches(b, t, end);
    } else {
      var b' := PutIe(b, t, false);
      RoundTripIff(b, 1, t);
      TftFrame(PutTft(b, 1, t), b', 1, end);
      LowIsLess(end - 1);
    }
  }

  lemma LowIsLess(n: nat)
    ensures Low(n) <= n
  {
  }
}
