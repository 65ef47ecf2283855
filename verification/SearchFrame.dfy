/** Search requests on the wire: their layout, how a server reads them, and how a list of
    channels is packed into datagrams. */
module SearchFrame {
  import opened Bytes
  import opened Frames
  import opened Updates

  const CMD_SEARCH: byte := 3
  const MAX_UDP_UNFRAGMENTED_SEND := 1440
  const PAYLOAD_POSITION := 4
  const CAST_POSITION := 12
  const DATA_COUNT_POSITION := 39
  const HEAD_SIZE := 41
  const EMPTY_PAYLOAD: word := 27

  datatype Entry = Entry(id: word, name: seq<byte>)

  /** The length prefix of a string. */
  function SizeBytes(n: nat, big: bool): (s: seq<byte>)
    requires n < 0x1_0000_0000
    ensures |s| == if n < 254 then 1 else 5
  {
    if n < 254 then [n] else [0xFE] + WordBytes(n, big)
  }

  function EntryBytes(e: Entry, big: bool): (s: seq<byte>)
    requires Short(e)
    ensures |s| <= 9 + |e.name|
  {
    WordBytes(e.id, big) + (SizeBytes(|e.name|, big) + e.name)
  }

  /** Names are strings a 32-bit length can describe. */
  predicate Short(e: Entry)
  {
    |e.name| < 0x1_0000_0000
  }

  function Body(es: seq<Entry>, big: bool): seq<byte>
    requires forall e :: e in es ==> Short(e)
  {
    if es == [] then [] else EntryBytes(es[0], big) + Body(es[1..], big)
  }

  lemma {:induction false} BodyMore(es: seq<Entry>, e: Entry, big: bool)
    requires Short(e) && forall e :: e in es ==> Short(e)
    ensures Body(es + [e], big) == Body(es, big) + EntryBytes(e, big)
    decreases |es|
  {
    if es == [] {
      assert es + [e] == [e] && [e][1..] == [];
      assert Body([e], big) == EntryBytes(e, big) + [];
    } else {
      BodyMore(es[1..], e, big);
      assert (es + [e])[1..] == es[1..] + [e];
    }
  }

  /** Where replies go: a 128-bit address and a port. */
  datatype Place = Place(ip: seq<byte>, port: half)

  type Origin = o: Place | |o.ip| == 16 witness Place(seq(16, _ => 0), 0)

  datatype Header = Header(payload: word, seqNo: word, cast: byte, address: Origin, count: half)

  /** The message header and the sequence number. */
  function Front(payload: word, seqNo: word, big: bool): (s: seq<byte>)
    ensures |s| == 12
  {
    [MAGIC, VERSION, if big then 0x80 else 0, CMD_SEARCH] + WordBytes(payload, big) + WordBytes(seqNo, big)
  }

  /** The reserved bytes, and the response address with its port. */
  function Reply(address: Origin, big: bool): (s: seq<byte>)
    ensures |s| == 21
  {
    [0, 0, 0] + address.ip + HalfBytes(address.port, big)
  }

  /** The list of one protocol, "tcp". */
  function Protocols(): (s: seq<byte>)
    ensures |s| == 5
  {
    [1, 3, 0x74, 0x63, 0x70]
  }

  function Head(h: Header, big: bool): (s: seq<byte>)
    ensures |s| == HEAD_SIZE
  {
    Front(h.payload, h.seqNo, big) + [h.cast] + (Reply(h.address, big) + Protocols()) + HalfBytes(h.count, big)
  }

  function FrameBytes(h: Header, es: seq<Entry>, big: bool): seq<byte>
    requires forall e :: e in es ==> Short(e)
  {
    Head(h, big) + Body(es, big)
  }

  /** Replaces bytes in the middle. */
  function Overwrite(s: seq<byte>, at: nat, bytes: seq<byte>): seq<byte>
    requires at + |bytes| <= |s|
  {
    s[..at] + bytes + s[at + |bytes|..]
  }

  lemma {:induction false} SetPayload(h: Header, es: seq<Entry>, big: bool, payload: word)
    requires forall e :: e in es ==> Short(e)
    ensures Overwrite(FrameBytes(h, es, big), PAYLOAD_POSITION, WordBytes(payload, big))
         == FrameBytes(h.(payload := payload), es, big)
  {
    var four := [MAGIC, VERSION, if big then 0x80 else 0, CMD_SEARCH];
    var back := Reply(h.address, big) + Protocols() + HalfBytes(h.count, big) + Body(es, big);
    var rest := WordBytes(h.seqNo, big) + ([h.cast] + back);
    Replace(four, WordBytes(h.payload, big), rest, WordBytes(payload, big));
    SameFrame(h, es, big);
    SameFrame(h.(payload := payload), es, big);
    Regrouped(four, WordBytes(h.payload, big), WordBytes(h.seqNo, big), [h.cast] + back);
    Regrouped(four, WordBytes(payload, big), WordBytes(h.seqNo, big), [h.cast] + back);
  }

  lemma {:induction false} Regrouped(a: seq<byte>, b: seq<byte>, c: seq<byte>, d: seq<byte>)
    ensures a + b + c + d == a + b + (c + d)
  {
  }

  lemma {:induction false} SameFrame(h: Header, es: seq<Entry>, big: bool)
    requires forall e :: e in es ==> Short(e)
    ensures FrameBytes(h, es, big)
         == Front(h.payload, h.seqNo, big)
            + ([h.cast] + (Reply(h.address, big) + Protocols() + HalfBytes(h.count, big) + Body(es, big)))
  {
  }

  lemma {:induction false} SetCount(h: Header, es: seq<Entry>, big: bool, count: half)
    requires forall e :: e in es ==> Short(e)
    ensures Overwrite(FrameBytes(h, es, big), DATA_COUNT_POSITION, HalfBytes(count, big))
         == FrameBytes(h.(count := count), es, big)
  {
    var front := Front(h.payload, h.seqNo, big) + [h.cast] + (Reply(h.address, big) + Protocols());
    Replace(front, HalfBytes(h.count, big), Body(es, big), HalfBytes(count, big));
  }

  lemma {:induction false} SetCast(h: Header, es: seq<Entry>, big: bool, cast: byte)
    requires forall e :: e in es ==> Short(e)
    ensures Overwrite(FrameBytes(h, es, big), CAST_POSITION, [cast]) == FrameBytes(h.(cast := cast), es, big)
  {
    var front := Front(h.payload, h.seqNo, big);
    var back := Reply(h.address, big) + Protocols() + HalfBytes(h.count, big) + Body(es, big);
    Replace(front, [h.cast], back, [cast]);
    SameFrame(h, es, big);
    SameFrame(h.(cast := cast), es, big);
    ConcatAssociative(front, [h.cast], back);
    ConcatAssociative(front, [cast], back);
  }

  lemma {:induction false} Replace(front: seq<byte>, x: seq<byte>, back: seq<byte>, y: seq<byte>)
    requires |x| == |y|
    ensures Overwrite(front + x + back, |front|, y) == front + y + back
  {
    var s := front + x + back;
    assert s[..|front|] == front && s[|front| + |y|..] == back;
  }

  // ----- how a server reads a frame -----

  /** A length prefix and the number of bytes it takes. */
  function TakeSize(s: seq<byte>, big: bool): Option<(nat, nat)>
  {
    if s == [] then None
    else if s[0] == 0xFF then Some((0, 1))
    else if s[0] < 0xFE then Some((s[0], 1))
    else if |s| < 5 then None
    else Some((WordAt(s[1..5], big), 5))
  }

  function TakeString(s: seq<byte>, big: bool): Option<(seq<byte>, seq<byte>)>
  {
    match TakeSize(s, big)
    case None => None
    case Some((n, k)) => if |s| < k + n then None else Some((s[k..k + n], s[k + n..]))
  }

  function TakeStrings(s: seq<byte>, count: nat, big: bool): Option<(seq<seq<byte>>, seq<byte>)>
    decreases count
  {
    if count == 0 then Some(([], s))
    else match TakeString(s, big)
         case None => None
         case Some((first, rest)) =>
           match TakeStrings(rest, count - 1, big)
           case None => None
           case Some((others, end)) => Some(([first] + others, end))
  }

  function TakeEntry(s: seq<byte>, big: bool): Option<(Entry, seq<byte>)>
  {
    if |s| < 4 then None
    else match TakeString(s[4..], big)
         case None => None
         case Some((name, rest)) => Some((Entry(WordAt(s[..4], big), name), rest))
  }

  function TakeEntries(s: seq<byte>, count: nat, big: bool): Option<seq<Entry>>
    decreases count
  {
    if count == 0 then Some([])
    else match TakeEntry(s, big)
         case None => None
         case Some((e, rest)) =>
           match TakeEntries(rest, count - 1, big)
           case None => None
           case Some(es) => Some([e] + es)
  }

  /** What a search request says. */
  datatype Request = Request(version: byte, seqNo: word, cast: byte, address: seq<byte>, port: half,
                             protocols: seq<seq<byte>>, entries: seq<Entry>)

  /** The search handler, given everything behind the message header. */
  function ReadSearch(s: seq<byte>, version: byte, big: bool): Option<Request>
  {
    if |s| < 26 then None
    else match TakeSize(s[26..], big)
         case None => None
         case Some((n, k)) =>
           match TakeStrings(s[26..][k..], n, big)
           case None => None
           case Some((protocols, rest)) =>
             if |rest| < 2 then None
             else match TakeEntries(rest[2..], HalfAt(rest[..2], big), big)
                  case None => None
                  case Some(es) =>
                    Some(Request(version, WordAt(s[..4], big), s[4], s[8..24], HalfAt(s[24..26], big), protocols, es))
  }

  /** The search requests a receiver handles of a datagram: it takes the byte order from each header,
      skips control messages and other commands, and stops at anything it cannot read. */
  function Received(s: seq<byte>): seq<Request>
    decreases |s|
  {
    if |s| < HEADER_SIZE || s[0] != MAGIC then []
    else
      var big := s[2] >= BIG_ENDIAN_BIT;
      var size := SizeField(s, big);
      if IsControl(s[2]) then Received(s[8..])
      else if size < 0 || 8 + size > |s| then []
      else if s[3] != CMD_SEARCH then Received(s[8 + size..])
      else match ReadSearch(s[8..], s[1], big)
           case None => []
           case Some(r) => [r] + Received(s[8 + size..])
  }

  lemma {:induction false} StringBack(name: seq<byte>, rest: seq<byte>, big: bool)
    requires |name| < 0x1_0000_0000
    ensures TakeString(SizeBytes(|name|, big) + name + rest, big) == Some((name, rest))
  {
    var p := SizeBytes(|name|, big);
    var s := p + name + rest;
    assert s[..|p|] == p;
    if |name| >= 254 {
      assert s[1..5] == WordBytes(|name|, big);
    }
    assert s[|p|..|p| + |name|] == name && s[|p| + |name|..] == rest;
  }

  lemma {:induction false} EntryBack(e: Entry, rest: seq<byte>, big: bool)
    requires Short(e)
    ensures TakeEntry(EntryBytes(e, big) + rest, big) == Some((e, rest))
  {
    var s := EntryBytes(e, big) + rest;
    assert s[..4] == WordBytes(e.id, big);
    assert s[4..] == SizeBytes(|e.name|, big) + e.name + rest;
    StringBack(e.name, rest, big);
  }

  lemma {:induction false} EntriesBack(es: seq<Entry>, big: bool)
    requires forall e :: e in es ==> Short(e)
    ensures TakeEntries(Body(es, big), |es|, big) == Some(es)
    decreases |es|
  {
    if es != [] {
      EntryBack(es[0], Body(es[1..], big), big);
      EntriesBack(es[1..], big);
      assert [es[0]] + es[1..] == es;
    }
  }

  const TCP: seq<byte> := [0x74, 0x63, 0x70]

  lemma {:induction false} ProtocolsSkipped(tail: seq<byte>, big: bool)
    ensures TakeSize(Protocols() + tail, big) == Some((1, 1))
    ensures TakeStrings((Protocols() + tail)[1..], 1, big) == Some(([TCP], tail))
  {
    assert (Protocols() + tail)[1..] == SizeBytes(3, big) + TCP + tail;
    StringBack(TCP, tail, big);
    assert TakeStrings(tail, 0, big) == Some(([], tail)) && [TCP] + [] == [TCP];
  }

  /** Behind the message header: sequence number, cast, reserved bytes, address and port, then the rest. */
  lemma {:induction false} Laid(h: Header, es: seq<Entry>, big: bool)
    requires forall e :: e in es ==> Short(e)
    ensures var s := FrameBytes(h, es, big)[8..];
            && |s| >= 26 && s[..4] == WordBytes(h.seqNo, big) && s[4] == h.cast && s[8..24] == h.address.ip
            && s[24..26] == HalfBytes(h.address.port, big)
            && s[26..] == Protocols() + (HalfBytes(h.count, big) + Body(es, big))
  {
    var four := [MAGIC, VERSION, if big then 0x80 else 0, CMD_SEARCH];
    var size, seqNo, port := WordBytes(h.payload, big), WordBytes(h.seqNo, big), HalfBytes(h.address.port, big);
    var back := Protocols() + (HalfBytes(h.count, big) + Body(es, big));
    var front := seqNo + [h.cast, 0, 0, 0] + h.address.ip + port;
    assert FrameBytes(h, es, big) == (four + size) + (front + back);
    var s := front + back;
    assert FrameBytes(h, es, big)[8..] == s && |front| == 26;
    assert s[..4] == front[..4] && s[8..24] == front[8..24] && s[24..26] == front[24..26] && s[26..] == back;
  }

  lemma {:induction false} HeaderLaid(h: Header, es: seq<Entry>, big: bool)
    requires forall e :: e in es ==> Short(e)
    ensures var s := FrameBytes(h, es, big);
            && |s| >= 8 && s[0] == MAGIC && s[1] == VERSION && !IsControl(s[2]) && (s[2] >= BIG_ENDIAN_BIT <==> big) && s[3] == CMD_SEARCH
            && WordAt(s[4..8], big) == h.payload
  {
    var four := [MAGIC, VERSION, if big then 0x80 else 0, CMD_SEARCH];
    var size := WordBytes(h.payload, big);
    var s := FrameBytes(h, es, big);
    assert s[..8] == four + size;
    assert s[4..8] == s[..8][4..8] == size;
  }

  /** What a frame has to say. */
  function Says(h: Header, es: seq<Entry>): Request
  {
    Request(1, h.seqNo, h.cast, h.address.ip, h.address.port, [TCP], es)
  }

  lemma {:induction false} SearchBack(h: Header, es: seq<Entry>, big: bool)
    requires h.count == |es| && forall e :: e in es ==> Short(e)
    ensures ReadSearch(FrameBytes(h, es, big)[8..], 1, big) == Some(Says(h, es))
  {
    var tail := HalfBytes(h.count, big) + Body(es, big);
    Laid(h, es, big);
    ProtocolsSkipped(tail, big);
    assert tail[..2] == HalfBytes(h.count, big) && tail[2..] == Body(es, big);
    EntriesBack(es, big);
  }

  /** A receiver that knows nothing but the datagram gets exactly what was put in, if the count is
      right and the size stays within the datagram and leaves no room for another header. */
  lemma {:induction false} FrameBack(h: Header, es: seq<Entry>, big: bool)
    requires h.count == |es| && forall e :: e in es ==> Short(e)
    requires h.payload < 0x8000_0000 && 8 + h.payload <= |FrameBytes(h, es, big)| < 16 + h.payload
    ensures Received(FrameBytes(h, es, big)) == [Says(h, es)]
  {
    var s := FrameBytes(h, es, big);
    HeaderLaid(h, es, big);
    SearchBack(h, es, big);
    assert SizeField(s, big) == h.payload;
    assert Received(s[8 + h.payload..]) == [];
  }
}
