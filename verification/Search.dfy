/** The search manager: which channels are due, and the datagrams that ask for them. */
module Search {
  import opened Bytes
  import opened Updates
  import opened SearchFrame
  import opened BackOff

  // ----- packing -----

  /** Frames sent, and the entries in the frame under construction. */
  datatype Packing = Packing(sent: seq<seq<Entry>>, current: seq<Entry>)

  predicate AllShort(es: seq<Entry>)
  {
    forall e :: e in es ==> Short(e)
  }

  function Size(es: seq<Entry>, big: bool): nat
    requires AllShort(es)
  {
    HEAD_SIZE + |Body(es, big)|
  }

  /** The entry goes into the frame: room is reckoned with the longer length prefix. */
  predicate Room(es: seq<Entry>, e: Entry, big: bool)
    requires AllShort(es)
  {
    Size(es, big) + 9 + |e.name| <= MAX_UDP_UNFRAGMENTED_SEND
  }

  /** The name fits an empty frame. */
  predicate Fits(e: Entry)
  {
    HEAD_SIZE + 9 + |e.name| <= MAX_UDP_UNFRAGMENTED_SEND
  }

  /** An entry is refused only if it does not fit, or would leave less than the four bytes by which the
      reckoning exceeds a short length prefix. */
  lemma {:induction false} RoomTight(es: seq<Entry>, e: Entry, big: bool)
    requires AllShort(es) && Short(e)
    ensures AllShort(es + [e])
    ensures Room(es, e, big)
            <==> Size(es + [e], big) + (if |e.name| < 254 then 4 else 0) <= MAX_UDP_UNFRAGMENTED_SEND
  {
    BodyMore(es, e, big);
  }

  function PackOne(p: Packing, e: Entry, big: bool): Packing
    requires AllShort(p.current)
  {
    if Room(p.current, e, big) then p.(current := p.current + [e])
    else Packing(p.sent + [p.current], if Fits(e) then [e] else [])
  }

  function PackAll(p: Packing, es: seq<Entry>, big: bool): Packing
    requires AllShort(p.current)
    decreases |es|
  {
    if es == [] then p
    else
      assert AllShort(PackOne(p, es[0], big).current);
      PackAll(PackOne(p, es[0], big), es[1..], big)
  }

  /** All frames of one round. */
  function Packed(es: seq<Entry>, big: bool): seq<seq<Entry>>
  {
    if es == [] then [] else var p := PackAll(Packing([], []), es, big); p.sent + [p.current]
  }

  function Concat(fs: seq<seq<Entry>>): seq<Entry>
  {
    if fs == [] then [] else Concat(fs[..|fs| - 1]) + fs[|fs| - 1]
  }

  function Fitting(es: seq<Entry>): seq<Entry>
  {
    if es == [] then [] else (if Fits(es[0]) then [es[0]] else []) + Fitting(es[1..])
  }

  lemma {:induction false} ConcatMore(fs: seq<seq<Entry>>, f: seq<Entry>)
    ensures Concat(fs + [f]) == Concat(fs) + f
  {
    assert (fs + [f])[..|fs|] == fs;
  }

  predicate Good(f: seq<Entry>, big: bool)
  {
    AllShort(f) && Size(f, big) <= MAX_UDP_UNFRAGMENTED_SEND
  }

  predicate AllGood(p: Packing, big: bool)
  {
    Good(p.current, big) && forall f :: f in p.sent ==> Good(f, big)
  }

  /** The entries of all frames, the one under construction last. */
  function AskedIn(p: Packing): seq<Entry>
  {
    Concat(p.sent) + p.current
  }

  lemma {:induction false} PackOneRight(p: Packing, e: Entry, big: bool)
    requires AllGood(p, big)
    ensures AllGood(PackOne(p, e, big), big)
    ensures AskedIn(PackOne(p, e, big)) == AskedIn(p) + if Fits(e) then [e] else []
  {
    if Room(p.current, e, big) {
      BodyMore(p.current, e, big);
      ConcatAssociative(Concat(p.sent), p.current, [e]);
    } else {
      ConcatMore(p.sent, p.current);
      if Fits(e) {
        assert [] + [e] == [e];
        BodyMore([], e, big);
      }
    }
  }

  lemma {:induction false} PackAllRight(p: Packing, es: seq<Entry>, big: bool)
    requires AllGood(p, big)
    ensures AllGood(PackAll(p, es, big), big)
    ensures AskedIn(PackAll(p, es, big)) == AskedIn(p) + Fitting(es)
    decreases |es|
  {
    if es == [] {
      assert AskedIn(p) + [] == AskedIn(p);
    } else {
      PackOneRight(p, es[0], big);
      PackAllRight(PackOne(p, es[0], big), es[1..], big);
      var one := if Fits(es[0]) then [es[0]] else [];
      ConcatAssociative(AskedIn(p), one, Fitting(es[1..]));
    }
  }

  predicate NoneEmpty(fs: seq<seq<Entry>>)
  {
    forall i :: 0 <= i < |fs| ==> fs[i] != []
  }

  /** No name is too long next to another one that is, nor the first one. */
  predicate Spaced(es: seq<Entry>)
  {
    (es != [] ==> Fits(es[0])) && forall i :: 0 < i < |es| ==> Fits(es[i - 1]) || Fits(es[i])
  }

  lemma {:induction false} SpacedMore(es: seq<Entry>, e: Entry)
    requires es != []
    ensures Spaced(es + [e]) <==> Spaced(es) && (Fits(es[|es| - 1]) || Fits(e))
  {
    var all, n := es + [e], |es|;
    assert forall i :: 0 <= i < n ==> all[i] == es[i];
    if Spaced(all) {
      assert Fits(all[n - 1]) || Fits(all[n]);
      forall i | 0 < i < n
        ensures Fits(es[i - 1]) || Fits(es[i])
      {
        assert Fits(all[i - 1]) || Fits(all[i]);
      }
    }
  }

  lemma {:induction false} NoneEmptyMore(fs: seq<seq<Entry>>, f: seq<Entry>)
    ensures NoneEmpty(fs + [f]) <==> NoneEmpty(fs) && f != []
  {
    var all := fs + [f];
    assert all[|fs|] == f && forall i :: 0 <= i < |fs| ==> all[i] == fs[i];
  }

  /** Which frames are empty after some entries, and whether the one under construction is. */
  lemma {:induction false} PackAllFull(es: seq<Entry>, big: bool)
    requires es != []
    ensures var p := PackAll(Packing([], []), es, big);
            && AllShort(p.current) && (NoneEmpty(p.sent) <==> Spaced(es))
            && (p.current != [] <==> Fits(es[|es| - 1]))
    decreases |es|
  {
    var start, n := Packing([], []), |es| - 1;
    var e, before := es[n], es[..n];
    assert es == before + [e];
    PackMore(start, before, e, big);
    var p := PackAll(start, before, big);
    if before != [] {
      PackAllFull(before, big);
      SpacedMore(before, e);
    }
    PackOneFull(p, e, big);
  }

  lemma {:induction false} PackOneFull(p: Packing, e: Entry, big: bool)
    requires AllShort(p.current)
    ensures var q := PackOne(p, e, big);
            && (q.current != [] <==> Fits(e))
            && (NoneEmpty(q.sent) <==> NoneEmpty(p.sent) && (p.current != [] || Fits(e)))
  {
    var q := PackOne(p, e, big);
    assert Body([], big) == [];
    if !Room(p.current, e, big) {
      NoneEmptyMore(p.sent, p.current);
    }
  }

  /** One round asks for every channel whose name fits a frame exactly once and in order, and
      for no other; no frame outgrows a datagram. No frame is empty exactly if the round is, or
      its first and last names fit and no two neighbours are both too long. */
  lemma {:induction false} PackedRight(es: seq<Entry>, big: bool)
    ensures Concat(Packed(es, big)) == Fitting(es)
    ensures forall f :: f in Packed(es, big) ==> Good(f, big)
    ensures NoneEmpty(Packed(es, big)) <==> es == [] || (Spaced(es) && Fits(es[|es| - 1]))
    ensures (forall e :: e in es ==> Fits(e)) ==> Fitting(es) == es
  {
    if es != [] {
      PackedOnce(es, big);
      PackAllFull(es, big);
      var p := PackAll(Packing([], []), es, big);
      NoneEmptyMore(p.sent, p.current);
    }
    if forall e :: e in es ==> Fits(e) {
      FittingAll(es);
    }
  }

  lemma {:induction false} PackedOnce(es: seq<Entry>, big: bool)
    requires es != []
    ensures Concat(Packed(es, big)) == Fitting(es)
    ensures forall f :: f in Packed(es, big) ==> Good(f, big)
  {
    var start := Packing([], []);
    PackAllRight(start, es, big);
    var p := PackAll(start, es, big);
    ConcatMore(p.sent, p.current);
    assert AskedIn(start) == [] && [] + Fitting(es) == Fitting(es);
  }

  /** A channel whose name fits no frame is not asked for, and sends two empty frames instead. */
  lemma {:induction false} Oversize(e: Entry, big: bool)
    requires !Fits(e)
    ensures Packed([e], big) == [[], []]
  {
    var start := Packing([], []);
    assert !Room(start.current, e, big);
    assert [e][1..] == [] && PackAll(PackOne(start, e, big), [], big) == Packing([[]], []);
  }

  lemma {:induction false} PackMore(p: Packing, es: seq<Entry>, e: Entry, big: bool)
    requires AllShort(p.current)
    ensures AllShort(PackAll(p, es, big).current)
    ensures PackAll(p, es + [e], big) == PackOne(PackAll(p, es, big), e, big)
    decreases |es|
  {
    if es == [] {
      assert es + [e] == [e] && [e][1..] == [];
      assert PackAll(PackOne(p, e, big), [], big) == PackOne(p, e, big);
    } else {
      assert (es + [e])[1..] == es[1..] + [e];
      PackMore(PackOne(p, es[0], big), es[1..], e, big);
    }
  }

  // ----- datagrams -----

  function HeaderFor(f: seq<Entry>, seqNo: word, address: Origin, big: bool): Header
    requires Good(f, big) && |f| <= MAX_UDP_UNFRAGMENTED_SEND
  {
    Header(if f == [] then EMPTY_PAYLOAD else Size(f, big) - 8, seqNo, 0, address, |f|)
  }

  lemma {:induction false} FewEntries(f: seq<Entry>, big: bool)
    requires AllShort(f)
    ensures |f| <= |Body(f, big)|
  {
    if f != [] {
      FewEntries(f[1..], big);
    }
  }

  /** The two datagrams of a frame: to servers addressed directly, then to broadcast addresses. */
  function Pair(f: seq<Entry>, seqNo: word, address: Origin, big: bool): seq<seq<byte>>
    requires Good(f, big)
  {
    FewEntries(f, big);
    var h := HeaderFor(f, seqNo, address, big);
    [FrameBytes(h.(cast := 0x80), f, big), FrameBytes(h, f, big)]
  }

  /** The next sequence number of a 32-bit counter. */
  function Succ(n: word): word
  {
    if n == 0xFFFF_FFFF then 0 else n + 1
  }

  function Number(start: word, n: nat): word
  {
    if n == 0 then start else Succ(Number(start, n - 1))
  }

  function Datagrams(fs: seq<seq<Entry>>, seqNo: word, address: Origin, big: bool): seq<seq<byte>>
    requires forall f :: f in fs ==> Good(f, big)
  {
    if fs == [] then []
    else
      var n := |fs| - 1;
      Datagrams(fs[..n], seqNo, address, big) + Pair(fs[n], Number(seqNo, n), address, big)
  }

  lemma {:induction false} DatagramsMore(fs: seq<seq<Entry>>, f: seq<Entry>, seqNo: word, address: Origin, big: bool)
    requires Good(f, big) && forall f :: f in fs ==> Good(f, big)
    ensures Datagrams(fs + [f], seqNo, address, big)
         == Datagrams(fs, seqNo, address, big) + Pair(f, Number(seqNo, |fs|), address, big)
  {
    assert (fs + [f])[..|fs|] == fs;
  }

  /** Both datagrams of a frame fit the transport, and a receiver gets from each exactly one request,
      with the sequence number, the reply address and the entries, the first one marked as sent to
      servers directly; their size and count fields are right if and only if the frame is not empty. */
  lemma {:induction false} PairRight(f: seq<Entry>, seqNo: word, address: Origin, big: bool)
    requires Good(f, big)
    ensures |f| <= MAX_UDP_UNFRAGMENTED_SEND
    ensures forall d :: d in Pair(f, seqNo, address, big) ==> |d| == Size(f, big) <= MAX_UDP_UNFRAGMENTED_SEND
    ensures var ds := Pair(f, seqNo, address, big);
            && Received(ds[0]) == [Request(1, seqNo, 0x80, address.ip, address.port, [TCP], f)]
            && Received(ds[1]) == [Request(1, seqNo, 0x00, address.ip, address.port, [TCP], f)]
    ensures FieldsMatch(HeaderFor(f, seqNo, address, big), f, big) <==> f != []
  {
    FewEntries(f, big);
    var h := HeaderFor(f, seqNo, address, big);
    FrameBack(h, f, big);
    FrameBack(h.(cast := 0x80), f, big);
  }

  /** The sequence numbers of frames that follow each other differ by one, on a 32-bit counter. */
  lemma {:induction false} NumberIs(start: word, n: nat) returns (wraps: nat)
    ensures Number(start, n) + wraps * 0x1_0000_0000 == start + n
    decreases n
  {
    wraps := 0;
    if n > 0 {
      wraps := NumberIs(start, n - 1);
      if Number(start, n - 1) == 0xFFFF_FFFF {
        wraps := wraps + 1;
      }
    }
  }

  /** What receivers get of the datagrams of a list of frames: each frame twice, in order, first
      marked as sent directly, with consecutive sequence numbers. */
  lemma {:induction false} DatagramsRight(fs: seq<seq<Entry>>, seqNo: word, address: Origin, big: bool, i: nat)
    requires i < |fs| && forall f :: f in fs ==> Good(f, big)
    ensures var ds, k := Datagrams(fs, seqNo, address, big), Number(seqNo, i);
            && |ds| == 2 * |fs|
            && Received(ds[2 * i]) == [Request(1, k, 0x80, address.ip, address.port, [TCP], fs[i])]
            && Received(ds[2 * i + 1]) == [Request(1, k, 0x00, address.ip, address.port, [TCP], fs[i])]
  {
    DatagramsAt(fs, seqNo, address, big, i);
    assert fs[i] in fs;
    PairRight(fs[i], Number(seqNo, i), address, big);
  }

  lemma {:induction false} DatagramsAt(fs: seq<seq<Entry>>, seqNo: word, address: Origin, big: bool, i: nat)
    requires i < |fs| && forall f :: f in fs ==> Good(f, big)
    ensures fs[i] in fs
    ensures var ds, pair := Datagrams(fs, seqNo, address, big), Pair(fs[i], Number(seqNo, i), address, big);
            |ds| == 2 * |fs| && ds[2 * i] == pair[0] && ds[2 * i + 1] == pair[1]
    decreases |fs|
  {
    var n := |fs| - 1;
    DatagramsCount(fs[..n], seqNo, address, big);
    if i < n {
      DatagramsAt(fs[..n], seqNo, address, big, i);
    }
  }

  lemma {:induction false} DatagramsCount(fs: seq<seq<Entry>>, seqNo: word, address: Origin, big: bool)
    requires forall f :: f in fs ==> Good(f, big)
    ensures |Datagrams(fs, seqNo, address, big)| == 2 * |fs|
    decreases |fs|
  {
    if fs != [] {
      DatagramsCount(fs[..|fs| - 1], seqNo, address, big);
    }
  }

  lemma {:induction false} FittingAll(es: seq<Entry>)
    requires forall e :: e in es ==> Fits(e)
    ensures Fitting(es) == es
  {
    if es != [] {
      assert es[0] in es && forall e :: e in es[1..] ==> e in es;
      FittingAll(es[1..]);
    }
  }

  /** A frame with entries declares the payload and count it carries; a frame without any
      declares a payload that is too small. */
  predicate FieldsMatch(h: Header, es: seq<Entry>, big: bool)
    requires AllShort(es)
  {
    h.count == |es| && h.payload == Size(es, big) - 8
  }

  lemma {:induction false} CountField(h: Header, es: seq<Entry>, big: bool)
    requires AllShort(es)
    ensures FrameBytes(h, es, big)[DATA_COUNT_POSITION..DATA_COUNT_POSITION + 2] == HalfBytes(h.count, big)
  {
  }

  // ----- the manager -----

  class Channel {
    const id: word
    const name: seq<byte>
    var userValue: int

    constructor (id: word, name: seq<byte>)
      ensures this.id == id && this.name == name && userValue == DEFAULT_USER_VALUE
    {
      this.id, this.name, userValue := id, name, DEFAULT_USER_VALUE;
    }

    function Asks(): Entry
    {
      Entry(id, name)
    }
  }

  predicate DistinctChannels(channels: seq<Channel>)
  {
    forall i, j :: 0 <= i < j < |channels| ==> channels[i] != channels[j]
  }

  function Asks(channels: seq<Channel>): (es: seq<Entry>)
    ensures |es| == |channels|
  {
    seq(|channels|, i requires 0 <= i < |channels| => channels[i].Asks())
  }

  ghost function Counters(channels: seq<Channel>): (cs: seq<int>)
    reads channels
    ensures |cs| == |channels|
  {
    seq(|channels|, i requires 0 <= i < |channels| reads channels => channels[i].userValue)
  }

  /** What is asked for when the counters stand like this. */
  function Due(asks: seq<Entry>, counters: seq<int>): seq<Entry>
    requires |asks| == |counters|
  {
    if asks == [] then []
    else
      var n := |asks| - 1;
      Due(asks[..n], counters[..n]) + if IsPowerOfTwo(counters[n]) then [asks[n]] else []
  }

  lemma {:induction false} DueMore(asks: seq<Entry>, counters: seq<int>, i: nat)
    requires i < |asks| == |counters|
    ensures Due(asks[..i + 1], counters[..i + 1])
         == Due(asks[..i], counters[..i]) + if IsPowerOfTwo(counters[i]) then [asks[i]] else []
  {
    assert asks[..i + 1][..i] == asks[..i] && counters[..i + 1][..i] == counters[..i];
  }

  lemma {:induction false} AllDue(asks: seq<Entry>, counters: seq<int>)
    requires |asks| == |counters| && forall i :: 0 <= i < |counters| ==> counters[i] == BOOST_VALUE
    ensures Due(asks, counters) == asks
  {
    if asks != [] {
      var n := |asks| - 1;
      AllDue(asks[..n], counters[..n]);
      PowersOfTwo(BOOST_VALUE);
      assert asks == asks[..n] + [asks[n]];
    }
  }

  /** The packing of a round after `i` channels. */
  function RoundSoFar(asks: seq<Entry>, counters: seq<int>, i: nat, big: bool): Packing
    requires i <= |asks| == |counters|
  {
    PackAll(Packing([], []), Due(asks[..i], counters[..i]), big)
  }

  lemma {:induction false} RoundMore(asks: seq<Entry>, counters: seq<int>, i: nat, big: bool)
    requires i < |asks| == |counters|
    ensures AllShort(RoundSoFar(asks, counters, i, big).current)
    ensures RoundSoFar(asks, counters, i + 1, big)
         == if IsPowerOfTwo(counters[i]) then PackOne(RoundSoFar(asks, counters, i, big), asks[i], big)
            else RoundSoFar(asks, counters, i, big)
    ensures |Due(asks[..i + 1], counters[..i + 1])|
         == |Due(asks[..i], counters[..i])| + if IsPowerOfTwo(counters[i]) then 1 else 0
  {
    var due := Due(asks[..i], counters[..i]);
    DueMore(asks, counters, i);
    PackMore(Packing([], []), due, asks[i], big);
    assert due + [] == due;
  }

  class Manager {
    const buf: array<byte>
    const big: bool
    const address: Origin
    var pos: nat
    var sequenceNumber: word
    // the datagrams handed to the transport
    var sent: seq<seq<byte>>
    ghost var current: seq<Entry>

    /** The header of the frame under construction. */
    ghost function Current(): Header
      requires 8 <= pos <= MAX_UDP_UNFRAGMENTED_SEND && |current| <= pos
      reads this
    {
      Header(if current == [] then EMPTY_PAYLOAD else pos - 8, sequenceNumber, 0, address, |current|)
    }

    ghost predicate Valid()
      reads this, buf
    {
      && buf.Length == MAX_UDP_UNFRAGMENTED_SEND
      && AllShort(current) && |current| <= pos
      && HEAD_SIZE <= pos == Size(current, big) <= buf.Length
      && buf[..pos] == FrameBytes(Current(), current, big)
    }

    /** A manager whose first frame is prepared. */
    constructor (big: bool, address: Origin)
      ensures Valid() && current == [] && sent == [] && this.big == big && this.address == address && fresh(buf)
    {
      buf := new byte[MAX_UDP_UNFRAGMENTED_SEND];
      this.big, this.address := big, address;
      pos, sequenceNumber, sent, current := 0, 0, [], [];
      new;
      InitializeSendBuffer();
    }

    /** Overwrites bytes of the buffer. */
    method PutAt(at: nat, bytes: seq<byte>)
      requires at + |bytes| <= pos <= buf.Length
      modifies buf
      ensures buf[..pos] == Overwrite(old(buf[..pos]), at, bytes)
    {
      forall i | 0 <= i < |bytes| {
        buf[at + i] := bytes[i];
      }
    }

    method Put(bytes: seq<byte>)
      requires pos + |bytes| <= buf.Length
      modifies `pos, buf
      ensures pos == old(pos) + |bytes| && buf[..pos] == old(buf[..pos]) + bytes
    {
      forall i | 0 <= i < |bytes| {
        buf[pos + i] := bytes[i];
      }
      pos := pos + |bytes|;
    }

    method InitializeSendBuffer()
      requires buf.Length == MAX_UDP_UNFRAGMENTED_SEND
      modifies `pos, `sequenceNumber, `current, buf
      ensures Valid() && current == [] && sequenceNumber == Succ(old(sequenceNumber))
    {
      sequenceNumber := Succ(sequenceNumber);
      pos := 0;
      current := [];
      Put(Head(Header(EMPTY_PAYLOAD, sequenceNumber, 0, address, 0), big));
    }

    method ReadCount() returns (count: half)
      requires Valid()
      ensures count == |current|
    {
      count := HalfAt(buf[DATA_COUNT_POSITION..DATA_COUNT_POSITION + 2], big);
      CountField(Current(), current, big);
      assert buf[DATA_COUNT_POSITION..DATA_COUNT_POSITION + 2] == buf[..pos][DATA_COUNT_POSITION..DATA_COUNT_POSITION + 2];
    }

    /** Adds an entry if there is room for it, and keeps the size and count fields right. */
    method AddEntry(e: Entry) returns (added: bool)
      requires Valid()
      modifies `pos, `current, buf
      ensures Valid() && added == Room(old(current), e, big)
      ensures current == if added then old(current) + [e] else old(current)
    {
      if buf.Length - pos < 4 + (1 + 4 + |e.name|) {
        return false;
      }
      ghost var h, es := Current(), current;
      var count := ReadCount();
      Append(h, es, e);
      PatchFields(h, es + [e], pos - 8, count + 1);
      current := es + [e];
      return true;
    }

    /** Writes the entry behind the others. */
    method Append(ghost h: Header, ghost es: seq<Entry>, e: Entry)
      requires AllShort(es) && Short(e)
      requires pos + 9 + |e.name| <= buf.Length && buf[..pos] == FrameBytes(h, es, big)
      modifies `pos, buf
      ensures AllShort(es + [e]) && pos == Size(es + [e], big) <= buf.Length && old(pos) < pos
      ensures buf[..pos] == FrameBytes(h, es + [e], big)
    {
      BodyMore(es, e, big);
      ghost var all := buf[..pos];
      Put(EntryBytes(e, big));
      assert Head(h, big) + (Body(es, big) + EntryBytes(e, big)) == all + EntryBytes(e, big);
    }

    method PatchFields(ghost h: Header, ghost es: seq<Entry>, payload: word, count: half)
      requires AllShort(es) && HEAD_SIZE <= pos <= buf.Length && buf[..pos] == FrameBytes(h, es, big)
      modifies buf
      ensures buf[..pos] == FrameBytes(h.(payload := payload, count := count), es, big)
    {
      SetPayload(h, es, big, payload);
      PutAt(PAYLOAD_POSITION, WordBytes(payload, big));
      SetCount(h.(payload := payload), es, big, count);
      PutAt(DATA_COUNT_POSITION, HalfBytes(count, big));
    }

    /** Sends the frame to servers addressed directly, then to broadcast addresses, and starts anew. */
    method FlushSendBuffer()
      requires Valid()
      modifies `pos, `sequenceNumber, `sent, `current, buf
      ensures Valid() && current == [] && sequenceNumber == Succ(old(sequenceNumber))
      ensures Good(old(current), big)
      ensures sent == old(sent) + Pair(old(current), old(sequenceNumber), address, big)
    {
      ghost var h, es := Current(), current;
      FewEntries(es, big);
      assert h == HeaderFor(es, sequenceNumber, address, big);
      SetCast(h, es, big, 0x80);
      PutAt(CAST_POSITION, [0x80]);
      sent := sent + [buf[..pos]];
      SetCast(h.(cast := 0x80), es, big, 0x00);
      PutAt(CAST_POSITION, [0x00]);
      sent := sent + [buf[..pos]];
      InitializeSendBuffer();
    }

    /** The frames of a round so far are sent, and the frame under construction is in the buffer. */
    ghost predicate Sending(p: Packing, start: word, before: seq<seq<byte>>)
      reads this, buf
    {
      && Valid() && AllGood(p, big) && current == p.current
      && sequenceNumber == Number(start, |p.sent|)
      && sent == before + Datagrams(p.sent, start, address, big)
    }

    /** Sends the frame under construction. */
    method FlushFrame(ghost p: Packing, ghost start: word, ghost before: seq<seq<byte>>)
      requires Sending(p, start, before)
      modifies `pos, `sequenceNumber, `sent, `current, buf
      ensures Sending(Packing(p.sent + [p.current], []), start, before)
    {
      ghost var done, seqNo := Datagrams(p.sent, start, address, big), sequenceNumber;
      FlushSendBuffer();
      DatagramsMore(p.sent, p.current, start, address, big);
      ConcatAssociative(before, done, Pair(p.current, seqNo, address, big));
    }

    /** Puts an entry into the frame, sending the frame first if it is full. */
    method Generate(e: Entry, ghost p: Packing, ghost start: word, ghost before: seq<seq<byte>>)
      requires Sending(p, start, before)
      modifies `pos, `sequenceNumber, `sent, `current, buf
      ensures Sending(PackOne(p, e, big), start, before)
    {
      PackOneRight(p, e, big);
      var added := AddEntry(e);
      if !added {
        FlushFrame(p, start, before);
        assert Body([], big) == [] && [] + [e] == [e];
        added := AddEntry(e);
      }
    }

    /** Ticks one channel's counter, and asks for the channel if it is due. */
    method Serve(c: Channel, ghost p: Packing, ghost start: word, ghost before: seq<seq<byte>>) returns (asked: bool)
      requires Sending(p, start, before)
      modifies `pos, `sequenceNumber, `sent, `current, buf, c`userValue
      ensures c.userValue == Tick(old(c.userValue)) && asked == IsPowerOfTwo(old(c.userValue))
      ensures Sending(if asked then PackOne(p, c.Asks(), big) else p, start, before)
    {
      var skip := !IsPowerOfTwo(c.userValue);
      if c.userValue >= MAX_COUNT_VALUE {
        c.userValue := MAX_FALLBACK_COUNT_VALUE;
      } else {
        c.userValue := c.userValue + 1;
      }
      if !skip {
        Generate(c.Asks(), p, start, before);
      }
      asked := !skip;
    }

    /** Serves the next channel of a round. */
    method ServeAt(c: Channel, count: nat, ghost asks: seq<Entry>, ghost counters: seq<int>, ghost i: nat,
                   ghost start: word, ghost before: seq<seq<byte>>)
      returns (count': nat)
      requires i < |asks| == |counters| && c.Asks() == asks[i] && c.userValue == counters[i]
      requires count == |Due(asks[..i], counters[..i])| && Sending(RoundSoFar(asks, counters, i, big), start, before)
      modifies `pos, `sequenceNumber, `sent, `current, buf, c`userValue
      ensures c.userValue == Tick(counters[i]) && count' == |Due(asks[..i + 1], counters[..i + 1])|
      ensures Sending(RoundSoFar(asks, counters, i + 1, big), start, before)
    {
      RoundMore(asks, counters, i, big);
      var asked := Serve(c, RoundSoFar(asks, counters, i, big), start, before);
      count' := if asked then count + 1 else count;
    }

    /** Ticks every channel's counter and packs what is due. */
    method ServeAll(channels: seq<Channel>, ghost asks: seq<Entry>, ghost counters: seq<int>,
                    ghost start: word, ghost before: seq<seq<byte>>)
      returns (count: nat)
      requires DistinctChannels(channels) && asks == Asks(channels) && counters == Counters(channels)
      requires Sending(RoundSoFar(asks, counters, 0, big), start, before)
      modifies `pos, `sequenceNumber, `sent, `current, buf, channels
      ensures forall i :: 0 <= i < |channels| ==> channels[i].userValue == Tick(counters[i])
      ensures Sending(RoundSoFar(asks, counters, |asks|, big), start, before)
      ensures count == |Due(asks[..|asks|], counters[..|asks|])|
    {
      ghost var ticked := seq(|counters|, i requires 0 <= i < |counters| => Tick(counters[i]));
      count := 0;
      var i := 0;
      while i < |channels|
        invariant 0 <= i <= |channels| && count == |Due(asks[..i], counters[..i])|
        invariant Sending(RoundSoFar(asks, counters, i, big), start, before)
        invariant forall j :: 0 <= j < i ==> channels[j].userValue == ticked[j]
        invariant forall j :: i <= j < |channels| ==> channels[j].userValue == counters[j]
      {
        assert forall j :: 0 <= j < |channels| && j != i ==> channels[j] != channels[i];
        count := ServeAt(channels[i], count, asks, counters, i, start, before);
        i := i + 1;
      }
    }

    lemma {:induction false} RoundStarts(asks: seq<Entry>, counters: seq<int>)
      requires Valid() && current == [] && |asks| == |counters|
      ensures Due(asks[..0], counters[..0]) == [] && Sending(RoundSoFar(asks, counters, 0, big), sequenceNumber, sent)
    {
      assert RoundSoFar(asks, counters, 0, big) == Packing([], []);
      assert sent + [] == sent;
    }

    /** Sends what is left of a round that asked for something. */
    method EndRound(count: nat, ghost due: seq<Entry>, ghost start: word, ghost before: seq<seq<byte>>)
      requires count == |due| && Sending(PackAll(Packing([], []), due, big), start, before)
      modifies `pos, `sequenceNumber, `sent, `current, buf
      ensures Valid() && current == [] && forall f :: f in Packed(due, big) ==> Good(f, big)
      ensures sent == before + Datagrams(Packed(due, big), start, address, big)
    {
      if count > 0 {
        FlushFrame(PackAll(Packing([], []), due, big), start, before);
      }
    }

    /** One round: every channel's counter ticks, and the channels that are due are asked for. */
    method Callback(channels: seq<Channel>, tooSoon: bool)
      requires Valid() && current == [] && DistinctChannels(channels)
      modifies `pos, `sequenceNumber, `sent, `current, buf, channels
      ensures Valid() && current == []
      ensures tooSoon ==> sent == old(sent) && Counters(channels) == old(Counters(channels))
      ensures !tooSoon ==> forall i :: 0 <= i < |channels| ==> channels[i].userValue == Tick(old(channels[i].userValue))
      ensures !tooSoon ==>
                var frames := Packed(Due(Asks(channels), old(Counters(channels))), big);
                && (forall f :: f in frames ==> Good(f, big))
                && sent == old(sent) + Datagrams(frames, old(sequenceNumber), address, big)
    {
      if tooSoon {
        return;
      }
      ghost var asks, counters, start, before := Asks(channels), Counters(channels), sequenceNumber, sent;
      assert asks[..|asks|] == asks && counters[..|asks|] == counters;
      RoundStarts(asks, counters);
      var count := ServeAll(channels, asks, counters, start, before);
      EndRound(count, Due(asks, counters), start, before);
    }

    /** A new server: all channels are searched at the next tick. */
    method Boost(channels: seq<Channel>)
      modifies channels
      ensures forall c :: c in channels ==> c.userValue == BOOST_VALUE
      ensures Due(Asks(channels), Counters(channels)) == Asks(channels)
    {
      for i := 0 to |channels|
        invariant forall j :: 0 <= j < i ==> channels[j].userValue == BOOST_VALUE
      {
        channels[i].userValue := BOOST_VALUE;
      }
      AllDue(Asks(channels), Counters(channels));
    }
  }
}
