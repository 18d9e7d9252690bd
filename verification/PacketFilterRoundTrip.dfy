/** What the decoder of packet filters makes of what their encoder writes. */
module PacketFilterRoundTrip {
  import opened Common
  import opened Octets
  import opened PacketFilter

  ghost predicate HasAddress(cs: Contents)
  {
    cs[0].Some? || cs[1].Some?
  }

  // ---------------------------------------------------------------- what is written

  /** Nothing before `at` is touched. */
  lemma {:induction false} PutKeeps(b: seq<Octet>, at: nat, cs: Contents, i: nat, j: nat)
    requires i <= COMPONENTS && End(at, cs, i) < |b| && j < at
    ensures PutFrom(b, at, cs, i)[j] == b[j]
    decreases COMPONENTS - i
  {
    hide PutFrom, End, Image, Advance, Size, Tag, Splice, Slot;
    if i < COMPONENTS {
      PutStep(b, at, cs, i);
      if cs[i].None? {
        PutKeeps(b, at, cs, i + 1, j);
      } else {
        var s := [Tag(i)] + Image(cs[i].value);
        SpliceAt(b, at, s, j);
        PutKeeps(Splice(b, at, s), at + 1 + Advance(i), cs, i + 1, j);
      }
    } else {
      PutNothing(b, at, cs);
    }
  }

  lemma PutNothing(b: seq<Octet>, at: nat, cs: Contents)
    requires at < |b|
    ensures PutFrom(b, at, cs, COMPONENTS) == b && End(at, cs, COMPONENTS) == at
  {
  }

  lemma PutStep(b: seq<Octet>, at: nat, cs: Contents, i: nat)
    requires i < COMPONENTS && End(at, cs, i) < |b|
    ensures cs[i].None? ==> End(at, cs, i + 1) == End(at, cs, i) && PutFrom(b, at, cs, i) == PutFrom(b, at, cs, i + 1)
    ensures cs[i].Some? ==>
              var s, at1 := [Tag(i)] + Image(cs[i].value), at + 1 + Advance(i);
              && at + |s| <= |b|
              && End(at1, cs, i + 1) == End(at, cs, i)
              && PutFrom(b, at, cs, i) == PutFrom(Splice(b, at, s), at1, cs, i + 1)
  {
    if cs[i].Some? {
      ImageSize(cs[i].value);
      assert Slot(cs[i].value) == i;
      hide Image, Tag, Splice, Slot;
    }
  }

  /** The components from slot i on stand in the buffer, one behind the other, from `at` to `end`. */
  ghost predicate StandAt(b: seq<Octet>, at: nat, cs: Contents, i: nat, end: nat)
    requires i <= COMPONENTS
    decreases COMPONENTS - i
  {
    if i == COMPONENTS then at == end
    else if cs[i].None? then StandAt(b, at, cs, i + 1, end)
    else OneStands(b, at, cs[i].value) && StandAt(b, at + 1 + Size(i), cs, i + 1, end)
  }

  ghost predicate OneStands(b: seq<Octet>, at: nat, c: Component) {
    var n := Size(Slot(c));
    at + 1 + n <= |b| && b[at] == Tag(Slot(c)) && b[at + 1..at + 1 + n] == Counted(c)
  }

  lemma SpliceStands(b: seq<Octet>, b': seq<Octet>, at: nat, c: Component)
    requires at + 1 + |Image(c)| <= |b| && |b'| == |b|
    requires forall j :: at <= j < at + 1 + Size(Slot(c)) ==> j < |b| && b'[j] == Splice(b, at, [Tag(Slot(c))] + Image(c))[j]
    ensures OneStands(b', at, c)
  {
    ImageSize(c);
    var n, s := Size(Slot(c)), [Tag(Slot(c))] + Image(c);
    hide Image, Size, Tag, Slot, Splice;
    SpliceAt(b, at, s, at);
    forall j | 0 <= j < n ensures b'[at + 1 + j] == Counted(c)[j] {
      SpliceAt(b, at, s, at + 1 + j);
    }
    assert b'[at + 1..at + 1 + n] == Counted(c);
  }

  /** Without addresses, every component stands where the decoder will look for it. */
  lemma {:induction false} PutStands(b: seq<Octet>, at: nat, cs: Contents, i: nat)
    requires i <= COMPONENTS && End(at, cs, i) < |b| && !HasAddress(cs)
    ensures StandAt(PutFrom(b, at, cs, i), at, cs, i, End(at, cs, i))
    decreases COMPONENTS - i
  {
    hide PutFrom, End, Image, Size, Tag, Slot, Splice, Advance, OneStands;
    if i == COMPONENTS {
      PutNothing(b, at, cs);
    } else {
      PutStep(b, at, cs, i);
      if cs[i].None? {
        PutStands(b, at, cs, i + 1);
      } else {
        var c := cs[i].value;
        NoAddressSize(cs, i);
        var b1, at1 := Splice(b, at, [Tag(i)] + Image(c)), at + 1 + Advance(i);
        PutStands(b1, at1, cs, i + 1);
        forall j | at <= j < at1 ensures PutFrom(b1, at1, cs, i + 1)[j] == b1[j] {
          PutKeeps(b1, at1, cs, i + 1, j);
        }
        SpliceStands(b, PutFrom(b1, at1, cs, i + 1), at, c);
      }
    }
  }

  /** Only for addresses does the encoder move on by more than the component takes. */
  lemma NoAddressSize(cs: Contents, i: nat)
    requires i < COMPONENTS && !HasAddress(cs) && cs[i].Some?
    ensures Advance(i) == Size(i) && Slot(cs[i].value) == i
  {
  }

  // ---------------------------------------------------------------- what is read

  /** What the decoder knows when it has read the components before slot i. */
  ghost function Upto(cs: Contents, i: nat): (r: Contents)
    requires i <= COMPONENTS
  {
    var r := Received(cs);
    assert ContentsOk(r);
    r[..i] + NoContents()[i..]
  }

  lemma {:induction false} EndsAfter(b: seq<Octet>, at: nat, cs: Contents, i: nat, end: nat)
    requires i <= COMPONENTS && StandAt(b, at, cs, i, end)
    ensures at <= end
    decreases COMPONENTS - i
  {
    if i < COMPONENTS {
      EndsAfter(b, if cs[i].None? then at else at + 1 + Size(i), cs, i + 1, end);
    }
  }

  lemma TagRead(i: nat)
    requires i < COMPONENTS
    ensures SlotOf(Tag(i)) == Some(i)
  {
  }

  lemma OneReads(b: seq<Octet>, at: nat, end: nat, cs: Contents, c: Component)
    requires OneStands(b, at, c) && at + 1 + Size(Slot(c)) <= end <= |b| && (c.FlowLabel? ==> end < |b|)
    ensures ReadComponents(b, at, end, cs) ==
            ReadComponents(b, at + 1 + Size(Slot(c)), end, cs[Slot(c) := Some(Arrives(c))])
  {
    TagRead(Slot(c));
    ComponentArrives(c);
    hide Tag, SlotOf, Size, Read, Arrives, Counted;
    assert c.FlowLabel? <==> Slot(c) == 9;
  }

  lemma {:induction false} ComponentsRead(b: seq<Octet>, at: nat, end: nat, cs: Contents, i: nat)
    requires i <= COMPONENTS && StandAt(b, at, cs, i, end) && end <= |b| && (cs[9].Some? ==> end < |b|)
    ensures ReadComponents(b, at, end, Upto(cs, i)) == Ok(Received(cs), end)
    decreases COMPONENTS - i
  {
    hide Upto, Received, OneStands, Size, Arrives, Slot, ReadComponents;
    UptoSteps(cs, i);
    if i == COMPONENTS {
      NoneLeft(b, end, Received(cs));
    } else {
      if cs[i].None? {
        ComponentsRead(b, at, end, cs, i + 1);
      } else {
        var c := cs[i].value;
        LabelSlot(c);
        var next := at + 1 + Size(i);
        EndsAfter(b, next, cs, i + 1, end);
        OneReads(b, at, end, Upto(cs, i), c);
        ComponentsRead(b, next, end, cs, i + 1);
      }
    }
  }

  lemma NoneLeft(b: seq<Octet>, end: nat, cs: Contents)
    ensures ReadComponents(b, end, end, cs) == Ok(cs, end)
  {
  }

  lemma LabelSlot(c: Component)
    ensures c.FlowLabel? <==> Slot(c) == 9
  {
  }

  lemma UptoSteps(cs: Contents, i: nat)
    requires i <= COMPONENTS
    ensures i == COMPONENTS ==> Upto(cs, i) == Received(cs)
    ensures i < COMPONENTS && cs[i].None? ==> Upto(cs, i) == Upto(cs, i + 1)
    ensures i < COMPONENTS && cs[i].Some? ==> Upto(cs, i)[i := Some(Arrives(cs[i].value))] == Upto(cs, i + 1)
  {
    hide Arrives;
    if i < COMPONENTS {
      assert forall j :: 0 <= j < COMPONENTS && j != i ==> Upto(cs, i)[j] == Upto(cs, i + 1)[j];
      assert Upto(cs, i + 1)[i] == Received(cs)[i];
    }
  }

  // ---------------------------------------------------------------- one filter

  function Rest(i: nat): (n: nat)
    requires i <= COMPONENTS
    decreases COMPONENTS - i
  {
    if i == COMPONENTS then 0 else 1 + Advance(i) + Rest(i + 1)
  }

  lemma {:induction false} EndBound(at: nat, cs: Contents, i: nat)
    requires i <= COMPONENTS
    ensures End(at, cs, i) <= at + Rest(i)
    decreases COMPONENTS - i
  {
    hide Advance;
    if i < COMPONENTS {
      EndBound(if cs[i].None? then at else at + 1 + Advance(i), cs, i + 1);
    }
  }

  /** The length of the contents always fits its octet. */
  lemma LengthFits(at: nat, cs: Contents)
    ensures End(at, cs, 0) <= at + 92
  {
    EndBound(at, cs, 0);
    assert Rest(10) == 0 && Rest(9) == 4 && Rest(8) == 7 && Rest(7) == 12 && Rest(6) == 17;
    assert Rest(5) == 20 && Rest(4) == 25 && Rest(3) == 28 && Rest(2) == 30 && Rest(1) == 79;
  }

  lemma {:induction false} StandFrame(b: seq<Octet>, b': seq<Octet>, at: nat, cs: Contents, i: nat, end: nat)
    requires i <= COMPONENTS && StandAt(b, at, cs, i, end)
    requires |b| == |b'| && forall j :: at <= j < |b| ==> b[j] == b'[j]
    ensures StandAt(b', at, cs, i, end)
    decreases COMPONENTS - i
  {
    hide OneStands, Size, Slot;
    if i < COMPONENTS {
      if cs[i].None? {
        StandFrame(b, b', at, cs, i + 1, end);
      } else {
        OneFrame(b, b', at, cs[i].value);
        StandFrame(b, b', at + 1 + Size(i), cs, i + 1, end);
      }
    }
  }

  lemma OneFrame(b: seq<Octet>, b': seq<Octet>, at: nat, c: Component)
    requires OneStands(b, at, c) && |b| == |b'| && forall j :: at <= j < |b| ==> b[j] == b'[j]
    ensures OneStands(b', at, c)
  {
    var n := Size(Slot(c));
    assert b[at + 1..at + 1 + n] == b'[at + 1..at + 1 + n];
  }

  /** The head of a filter as it stands in the buffer. */
  lemma PutHead(b: seq<Octet>, at: nat, f: Filter)
    requires End(at + 3, f.contents, 0) < |b|
    ensures var b', end := Put(b, at, f), End(at + 3, f.contents, 0);
            b'[at] == HeadOctet(f) && b'[at + 1] == f.precedence && b'[at + 2] == end - (at + 3)
  {
    hide PutFrom, End, Low, HeadOctet, Splice;
    var cs, s := f.contents, [HeadOctet(f), f.precedence];
    LengthFits(at + 3, cs);
    SpliceAt(b, at, s, at);
    SpliceAt(b, at, s, at + 1);
    PutKeeps(Splice(b, at, s), at + 3, cs, 0, at);
    PutKeeps(Splice(b, at, s), at + 3, cs, 0, at + 1);
    LowSmall(End(at + 3, cs, 0) - (at + 3));
  }

  lemma LowSmall(n: nat)
    requires n < 256
    ensures Low(n) == n
  {
  }

  lemma HeadReads(f: Filter)
    ensures Direction(HeadOctet(f)) == f.direction && Identifier(HeadOctet(f)) == f.identifier
  {
  }

  /** The decoder's answer about any filter whose components stand where it looks for them. */
  lemma FilterReads(b: seq<Octet>, at: nat, f: Filter)
    requires End(at + 3, f.contents, 0) < |b| && !HasAddress(f.contents)
    ensures var end := End(at + 3, f.contents, 0);
            DecodeAt(Put(b, at, f), at, end) == Ok(f.(contents := Received(f.contents)), end)
  {
    hide Put, StandAt, End, HeadOctet, ReadComponents, Direction, Identifier;
    var cs, b', end := f.contents, Put(b, at, f), End(at + 3, f.contents, 0);
    FilterStands(b, at, f);
    PutHead(b, at, f);
    HeadReads(f);
    ComponentsRead(b', at + 3, end, cs, 0);
    NothingYet(cs);
  }

  lemma FilterStands(b: seq<Octet>, at: nat, f: Filter)
    requires End(at + 3, f.contents, 0) < |b| && !HasAddress(f.contents)
    ensures StandAt(Put(b, at, f), at + 3, f.contents, 0, End(at + 3, f.contents, 0))
  {
    hide StandAt, PutFrom, End, Splice, HeadOctet, Low;
    var b1 := Splice(b, at, [HeadOctet(f), f.precedence]);
    PutStands(b1, at + 3, f.contents, 0);
    StandFrame(PutFrom(b1, at + 3, f.contents, 0), Put(b, at, f), at + 3, f.contents, 0, End(at + 3, f.contents, 0));
  }

  lemma NothingYet(cs: Contents)
    ensures Upto(cs, 0) == NoContents()
  {
    hide Received;
  }

  // ---------------------------------------------------------------- addresses

  /** After an address the encoder leaves as many octets out as the address has; in a zeroed buffer
      the decoder then finds the tag 0. */
  lemma AddressStops(b: seq<Octet>, at: nat, cs: Contents)
    requires End(at, cs, 0) < |b| && HasAddress(cs) && forall j :: at <= j < |b| ==> b[j] == 0
    ensures var slot := if cs[0].Some? then 0 else 1;
            var b', next := PutFrom(b, at, cs, 0), at + 1 + Size(slot);
            next + 1 < End(at, cs, 0) && b'[at] == Tag(slot) && b'[next] == 0
  {
    var slot := if cs[0].Some? then 0 else 1;
    var c := cs[slot].value;
    var s, at1 := [Tag(slot)] + Image(c), at + 1 + Advance(slot);
    var b1 := Splice(b, at, s);
    ImageSize(c);
    assert PutFrom(b, at, cs, 0) == PutFrom(b1, at1, cs, slot + 1) && End(at, cs, 0) == End(at1, cs, slot + 1);
    SpliceAt(b, at, s, at);
    SpliceAt(b, at, s, at + 1 + Size(slot));
    hide PutFrom, Image, Splice, End;
    PutKeeps(b1, at1, cs, slot + 1, at);
    PutKeeps(b1, at1, cs, slot + 1, at + 1 + Size(slot));
  }

  lemma AddressFails(b: seq<Octet>, at: nat, f: Filter)
    requires End(at + 3, f.contents, 0) < |b| && HasAddress(f.contents)
    requires forall j :: at <= j < |b| ==> b[j] == 0
    ensures DecodeAt(Put(b, at, f), at, End(at + 3, f.contents, 0)) == Error(UNEXPECTED_IEI)
  {
    hide Put, End, HeadOctet, ReadComponents, Size, Tag, Direction, Identifier;
    var cs, b', end := f.contents, Put(b, at, f), End(at + 3, f.contents, 0);
    AddressStands(b, at, f);
    PutHead(b, at, f);
    StopsAtZero(b', at + 3, end, if cs[0].Some? then 0 else 1);
  }

  lemma AddressStands(b: seq<Octet>, at: nat, f: Filter)
    requires End(at + 3, f.contents, 0) < |b| && HasAddress(f.contents)
    requires forall j :: at <= j < |b| ==> b[j] == 0
    ensures var slot := if f.contents[0].Some? then 0 else 1;
            var b', next := Put(b, at, f), at + 3 + 1 + Size(slot);
            next + 1 < End(at + 3, f.contents, 0) && b'[at + 3] == Tag(slot) && b'[next] == 0
  {
    hide PutFrom, End, Low, HeadOctet, Size, Tag, Splice;
    var b1 := Splice(b, at, [HeadOctet(f), f.precedence]);
    forall j | at + 3 <= j < |b| ensures b1[j] == 0 {
      SpliceAt(b, at, [HeadOctet(f), f.precedence], j);
    }
    AddressStops(b1, at + 3, f.contents);
  }

  lemma StopsAtZero(b: seq<Octet>, at: nat, end: nat, slot: nat)
    requires slot <= 1 && at + 1 + Size(slot) + 1 < end <= |b| && b[at] == Tag(slot) && b[at + 1 + Size(slot)] == 0
    ensures ReadComponents(b, at, end, NoContents()) == Error(UNEXPECTED_IEI)
  {
    TagRead(slot);
    hide Read, Tag;
    var next := at + 1 + Size(slot);
    var cs := NoContents()[slot := Some(Read(slot, b[at + 1..next]))];
    assert SlotOf(b[next]).None?;
    assert ReadComponents(b, next, end, cs) == Error(UNEXPECTED_IEI);
  }

  // ---------------------------------------------------------------- the condition

  ghost predicate Survives(f: Filter)
  {
    !HasAddress(f.contents) && (f.contents[9].Some? ==> f.contents[9].value == FlowLabel(0))
  }

  lemma LabelSurvivesIffZero(n: Word32)
    ensures (n % 0x10_0000) / 256 == n <==> n == 0
  {
  }

  lemma ReceivedIsSent(cs: Contents)
    ensures Received(cs) == cs <==> (cs[9].Some? ==> cs[9].value == FlowLabel(0))
  {
    if cs[9].Some? {
      assert cs[9].value.FlowLabel?;
      LabelSurvivesIffZero(cs[9].value.flow);
      assert Received(cs)[9] == Some(Arrives(cs[9].value));
    }
    forall i | 0 <= i < 9 ensures Received(cs)[i] == cs[i] {
      assert cs[i].Some? ==> !cs[i].value.FlowLabel?;
    }
  }

  /** A filter written into a zeroed buffer is read back as it was, from exactly the octets counted,
      if and only if it has no address and its flow label, if any, is 0. */
  lemma FilterRoundTripIff(b: seq<Octet>, at: nat, f: Filter)
    requires End(at + 3, f.contents, 0) < |b| && forall j :: at <= j < |b| ==> b[j] == 0
    ensures var end := End(at + 3, f.contents, 0);
            DecodeAt(Put(b, at, f), at, end) == Ok(f, end) <==> Survives(f)
  {
    hide DecodeAt, Put, End;
    if HasAddress(f.contents) {
      AddressFails(b, at, f);
    } else {
      FilterReads(b, at, f);
      ReceivedIsSent(f.contents);
    }
  }

  /** Where a filter with nothing but a flow label ends. */
  lemma LabelEnd(at: nat, cs: Contents)
    requires cs[9].Some? && forall i :: 0 <= i < 9 ==> cs[i].None?
    ensures End(at, cs, 0) == at + 4
  {
    assert End(at + 4, cs, 10) == at + 4;
    assert End(at, cs, 9) == at + 4;
    assert End(at, cs, 8) == at + 4 && End(at, cs, 7) == at + 4 && End(at, cs, 6) == at + 4 && End(at, cs, 5) == at + 4;
    assert End(at, cs, 4) == at + 4 && End(at, cs, 3) == at + 4 && End(at, cs, 2) == at + 4 && End(at, cs, 1) == at + 4;
  }

  /** A filter with the flow label 0x12345, written into any buffer, is read as one with the label
      0x123. */
  lemma FlowLabelExample(b: seq<Octet>, at: nat, f: Filter, g: Filter)
    requires at + 7 < |b| && f.contents == NoContents()[9 := Some(FlowLabel(0x12345))]
    requires g == f.(contents := NoContents()[9 := Some(FlowLabel(0x123))])
    ensures End(at + 3, f.contents, 0) == at + 7 && DecodeAt(Put(b, at, f), at, at + 7) == Ok(g, at + 7)
  {
    hide Put, DecodeAt, End;
    LabelEnd(at + 3, f.contents);
    FilterReads(b, at, f);
    assert Received(f.contents) == g.contents;
  }
}
