/** Frames as values, their encoding, and the grammar that groups them into messages. */
module Framing {
  import opened Bytes
  import opened Frames
  import opened Dispatch

  /** A data frame carries `size` payload bytes; a control frame carries `size` as its
      data and no payload. */
  datatype Frame = Frame(flags: byte, command: byte, size: word, payload: seq<byte>)

  const MAX_PAYLOAD := 0x8000_0000

  predicate WellFormed(f: Frame, big: bool)
  {
    && (f.flags >= BIG_ENDIAN_BIT <==> big)
    && if IsControl(f.flags) then f.payload == [] else f.size == |f.payload| < MAX_PAYLOAD
  }

  function HeaderBytes(flags: byte, command: byte, size: word, big: bool): (s: seq<byte>)
    ensures |s| == HEADER_SIZE
  {
    [MAGIC, VERSION, flags, command] + WordBytes(size, big)
  }

  function Encode(f: Frame, big: bool): seq<byte>
  {
    HeaderBytes(f.flags, f.command, f.size, big) + f.payload
  }

  function EncodeAll(fs: seq<Frame>, big: bool): seq<byte>
  {
    if fs == [] then [] else Encode(fs[0], big) + EncodeAll(fs[1..], big)
  }

  lemma {:induction false} EncodeAppend(fs: seq<Frame>, f: Frame, big: bool)
    ensures EncodeAll(fs + [f], big) == EncodeAll(fs, big) + Encode(f, big)
  {
    if fs == [] {
      assert fs + [f] == [f];
      assert [f][1..] == [] && Encode(f, big) + [] == Encode(f, big);
    } else {
      EncodeAppend(fs[1..], f, big);
      assert (fs + [f])[1..] == fs[1..] + [f];
      ConcatAssociative(Encode(fs[0], big), EncodeAll(fs[1..], big), Encode(f, big));
    }
  }

  /** What a peer sends: messages and control messages, in order. */
  datatype Item = Data(message: Message) | Control(command: byte, data: word)

  /** State of reading a frame sequence: between messages, or inside a segmented one. */
  datatype Parse =
    | Bad
    | Between(items: seq<Item>)
    | Inside(items: seq<Item>, command: byte, body: seq<byte>)

  predicate HasFirst(flags: byte) { Has(flags, FIRST_BIT) }

  /** One frame of the grammar: a message is a single plain frame, or first, middle*, last
      frames with one command, and control frames stand between messages. */
  function Step(p: Parse, f: Frame, big: bool): Parse
  {
    if p.Bad? || !WellFormed(f, big) then Bad
    else if IsControl(f.flags) then
      if p.Between? then Between(p.items + [Control(f.command, f.size)]) else Bad
    else if p.Between? then
      if NotFirst(f.flags) then Bad
      else if HasFirst(f.flags) then Inside(p.items, f.command, f.payload)
      else Between(p.items + [Data(Message(f.command, f.payload))])
    else if !NotFirst(f.flags) || f.command != p.command then Bad
    else if HasFirst(f.flags) then Inside(p.items, p.command, p.body + f.payload)
    else Between(p.items + [Data(Message(p.command, p.body + f.payload))])
  }

  function ParseFrom(p: Parse, fs: seq<Frame>, big: bool): Parse
    decreases |fs|
  {
    if fs == [] then p else ParseFrom(Step(p, fs[0], big), fs[1..], big)
  }

  function ParseAll(fs: seq<Frame>, big: bool): Parse
  {
    ParseFrom(Between([]), fs, big)
  }

  lemma {:induction false} ParseAppend(p: Parse, fs: seq<Frame>, f: Frame, big: bool)
    ensures ParseFrom(p, fs + [f], big) == Step(ParseFrom(p, fs, big), f, big)
    decreases |fs|
  {
    if fs == [] {
      assert fs + [f] == [f] && [f][1..] == [];
    } else {
      ParseAppend(Step(p, fs[0], big), fs[1..], f, big);
      assert (fs + [f])[1..] == fs[1..] + [f];
    }
  }

  /** The four kinds of data frame and the control frame, told apart by their bits. */
  lemma {:induction false} FrameKinds(base: byte)
    requires base in {0, 0x40, 0x80, 0xC0}
    ensures var b := base; !IsControl(b) && !HasFirst(b) && !NotFirst(b)
    ensures var b := base + 0x10; !IsControl(b) && HasFirst(b) && !NotFirst(b)
    ensures var b := base + 0x30; !IsControl(b) && HasFirst(b) && NotFirst(b)
    ensures var b := base + 0x20; !IsControl(b) && !HasFirst(b) && NotFirst(b)
    ensures IsControl(base + 1)
  {
  }

  /** How a segment of a message that goes on moves the grammar. */
  lemma {:induction false} SegmentSteps(base: byte, big: bool, items: seq<Item>, c: byte, body: seq<byte>,
                                        segment: seq<byte>)
    requires base in {0, 0x40, 0x80, 0xC0} && (base >= BIG_ENDIAN_BIT <==> big) && |segment| < MAX_PAYLOAD
    ensures Step(Between(items), Frame(base + 0x10, c, |segment|, segment), big) == Inside(items, c, segment)
    ensures Step(Inside(items, c, body), Frame(base + 0x30, c, |segment|, segment), big)
         == Inside(items, c, body + segment)
  {
    FrameKinds(base);
  }

  /** How the last or only frame of a message moves the grammar. */
  lemma {:induction false} LastSteps(base: byte, big: bool, items: seq<Item>, c: byte, body: seq<byte>,
                                     segment: seq<byte>)
    requires base in {0, 0x40, 0x80, 0xC0} && (base >= BIG_ENDIAN_BIT <==> big) && |segment| < MAX_PAYLOAD
    ensures Step(Between(items), Frame(base, c, |segment|, segment), big)
         == Between(items + [Data(Message(c, segment))])
    ensures Step(Inside(items, c, body), Frame(base + 0x20, c, |segment|, segment), big)
         == Between(items + [Data(Message(c, body + segment))])
  {
    FrameKinds(base);
  }

  lemma {:induction false} ControlStep(base: byte, big: bool, items: seq<Item>, c: byte, data: word)
    requires base in {0, 0x40, 0x80, 0xC0} && (base >= BIG_ENDIAN_BIT <==> big)
    ensures Step(Between(items), Frame(base + 1, c, data, []), big) == Between(items + [Control(c, data)])
  {
    FrameKinds(base);
  }
}
