/** The send half of the TCP codec: messages written into a fixed buffer, cut into
    segments whenever it fills up. */
module Sender {
  import opened Bytes
  import opened Frames
  import opened Dispatch
  import opened Framing

  const DIRECT_LIMIT := 64 * 1024
  const MAX_MESSAGE_SEND := 100
  const NONE := -1

  /** What the sender is doing, apart from buffers and frames. */
  datatype Phase =
    | Quiet                                             // between messages
    | Suspended(command: byte, payload: seq<byte>)      // inside a message, no header open
    | Writing(command: byte, payload: seq<byte>)        // inside a message, behind an open header

  /** The same message, behind a header again. */
  function Continued(p: Phase): Phase
  {
    if p.Suspended? then Writing(p.command, p.payload) else p
  }

  /** What ending the message in hand adds to the items sent. */
  function Completed(p: Phase): seq<Item>
  {
    if p.Writing? then [Data(Message(p.command, p.payload))] else []
  }

  /** What a sender does at a time: a write it reserves room for, or a whole block it
      offers for sending past the buffer. */
  datatype Piece = Small(bytes: seq<byte>) | Block(bytes: seq<byte>)

  function Joined(pieces: seq<Piece>): seq<byte>
  {
    if pieces == [] then [] else pieces[0].bytes + Joined(pieces[1..])
  }

  /** A message as a sender writes it; after an urgent one it flushes. */
  datatype Outgoing = Outgoing(command: byte, capacity: nat, pieces: seq<Piece>, urgent: bool)

  function Said(o: Outgoing): Item
  {
    Data(Message(o.command, Joined(o.pieces)))
  }

  function AllSaid(os: seq<Outgoing>): seq<Item>
  {
    seq(|os|, i requires 0 <= i < |os| => Said(os[i]))
  }

  /** A queued sender: one that sends messages, ending all but the last one itself, or a control
      message. */
  datatype Job = Send(first: Outgoing, more: seq<Outgoing>) | Tell(command: byte, data: word)

  function Meaning(job: Job): seq<Item>
  {
    match job
    case Send(first, more) => AllSaid([first] + more)
    case Tell(c, data) => [Control(c, data)]
  }

  function Items(jobs: seq<Job>): seq<Item>
  {
    if jobs == [] then [] else Items(jobs[..|jobs| - 1]) + Meaning(jobs[|jobs| - 1])
  }

  lemma {:induction false} ItemsMore(before: seq<Item>, jobs: seq<Job>, i: nat)
    requires i < |jobs|
    ensures before + Items(jobs[..i]) + Meaning(jobs[i]) == before + Items(jobs[..i + 1])
  {
    assert jobs[..i + 1][..i] == jobs[..i];
    ConcatAssociative(before, Items(jobs[..i]), Meaning(jobs[i]));
  }

  lemma {:induction false} SaidMore(before: seq<Item>, os: seq<Outgoing>, i: nat)
    requires i < |os|
    ensures before + AllSaid(os[..i]) + [Said(os[i])] == before + AllSaid(os[..i + 1])
  {
    assert AllSaid(os[..i + 1]) == AllSaid(os[..i]) + [Said(os[i])];
  }

  predicate Writable(o: Outgoing)
  {
    forall piece :: piece in o.pieces ==> |piece.bytes| < MAX_PAYLOAD
  }

  /** No write of the job overflows a size field. */
  predicate Sendable(job: Job)
  {
    job.Send? ==> Writable(job.first) && forall o :: o in job.more ==> Writable(o)
  }

  /** The piece is not beyond the largest request a buffer of `size` bytes can ever meet. */
  predicate PieceFitsIn(piece: Piece, size: nat)
  {
    piece.Small? ==> |piece.bytes| <= size - 2 * HEADER_SIZE
  }

  predicate Fits(o: Outgoing, size: nat)
  {
    o.capacity <= size - 3 * HEADER_SIZE && forall piece :: piece in o.pieces ==> PieceFitsIn(piece, size)
  }

  predicate FitsIn(job: Job, size: nat)
  {
    job.Send? ==> Fits(job.first, size) && forall o :: o in job.more ==> Fits(o, size)
  }

  lemma {:induction false} SplitAt(p: seq<byte>, bytes: seq<byte>, n: nat)
    requires n <= |bytes|
    ensures (p + bytes[..n]) + bytes[n..] == p + bytes
    ensures n == |bytes| ==> bytes[..n] == bytes
  {
    assert bytes[..n] + bytes[n..] == bytes;
  }

  lemma {:induction false} Regroup(a: seq<byte>, b: seq<byte>, c: seq<byte>, d: seq<byte>)
    ensures a + (b + c) + d == (a + b) + (c + d)
  {
  }

  class Codec {
    const buf: array<byte>
    const big: bool
    const server: bool
    var pos: nat
    var lastStart: int
    var lastSegType: byte
    var lastSegCommand: byte
    // everything handed to the socket so far
    var sent: seq<byte>

    // the finished frames, in the socket or still in the buffer, and what they say
    ghost var frames: seq<Frame>
    ghost var items: seq<Item>
    // payload of the finished segments of the message in hand
    ghost var body: seq<byte>
    // command and size field of the open header
    ghost var command: byte
    ghost var declared: word
    ghost var flushes: nat

    function Base(): byte
    {
      (if big then 0x80 else 0) + if server then 0x40 else 0
    }

    /** `mark` with the byte order and direction flags or'ed in. */
    function WithBase(mark: byte): byte
    {
      var m := if big then Set(mark, BIG_ENDIAN_BIT) else mark;
      if server then Set(m, SERVER_BIT) else m
    }

    ghost predicate OpenHeader()
      reads `pos, `sent, `frames, `lastStart, `lastSegType, `lastSegCommand, `command, `declared, buf
    {
      && 0 <= lastStart && lastStart + HEADER_SIZE <= pos <= buf.Length
      && sent + buf[..lastStart] == EncodeAll(frames, big)
      && buf[lastStart..lastStart + HEADER_SIZE] == HeaderBytes(WithBase(lastSegType), command, declared, big)
      && (lastSegType != 0 ==> command == lastSegCommand)
    }

    /** The base flags, with the marks of a control message or of a first, last or middle segment. */
    predicate Owned(flags: byte)
    {
      || flags == Base() || flags == Base() + 0x01
      || flags == Base() + 0x10 || flags == Base() + 0x20 || flags == Base() + 0x30
    }

    /** Such flags say who sends, and in which byte order. */
    lemma {:induction false} OwnedSays(flags: byte)
      requires Owned(flags)
      ensures Has(flags, SERVER_BIT) <==> server
      ensures Has(flags, BIG_ENDIAN_BIT) <==> big
    {
    }

    ghost predicate AllOwned()
      reads `frames
    {
      forall i :: 0 <= i < |frames| ==> Owned(frames[i].flags)
    }

    ghost predicate Marked()
      reads `lastSegType, `lastSegCommand, `frames, `items, `body
    {
      && AllOwned()
      && (lastSegType == 0 || lastSegType == Base() + 0x30)
      && ParseAll(frames, big) == if lastSegType == 0 then Between(items) else Inside(items, lastSegCommand, body)
    }

    ghost predicate Spelled()
      reads `pos, `sent, `frames, buf
    {
      pos <= buf.Length && sent + buf[..pos] == EncodeAll(frames, big)
    }

    ghost predicate Valid()
      reads this, buf
    {
      && 2 * MAX_ENSURE_SIZE <= buf.Length < MAX_PAYLOAD
      && Marked()
      && if lastStart == NONE then Spelled() else OpenHeader()
    }

    /** Payload the message in hand has in finished segments. */
    ghost function Before(): seq<byte>
      reads `lastSegType, `body
    {
      if lastSegType == 0 then [] else body
    }

    ghost function State(): Phase
      requires Valid()
      reads this, buf
    {
      if lastStart != NONE then Writing(command, Before() + buf[lastStart + HEADER_SIZE..pos])
      else if lastSegType == 0 then Quiet
      else Suspended(lastSegCommand, Before())
    }

    function Remaining(): int
      reads this
    {
      buf.Length - pos
    }

    /** Writes a header at the position. */
    method PutHeader(flags: byte, command: byte, size: word)
      requires pos + HEADER_SIZE <= buf.Length
      modifies `pos, buf
      ensures pos == old(pos) + HEADER_SIZE
      ensures buf[..old(pos)] == old(buf[..pos])
      ensures buf[old(pos)..pos] == HeaderBytes(flags, command, size, big)
    {
      var w := WordBytes(size, big);
      buf[pos], buf[pos + 1], buf[pos + 2], buf[pos + 3] := MAGIC, VERSION, flags, command;
      buf[pos + 4], buf[pos + 5], buf[pos + 6], buf[pos + 7] := w[0], w[1], w[2], w[3];
      pos := pos + HEADER_SIZE;
    }

    /** Overwrites flags and size of the header at `at`. */
    method PatchHeader(at: nat, flags: byte, size: word, ghost f: byte, ghost c: byte, ghost w: word)
      requires at + HEADER_SIZE <= pos <= buf.Length
      requires buf[at..at + HEADER_SIZE] == HeaderBytes(f, c, w, big)
      modifies buf
      ensures buf[..at] == old(buf[..at])
      ensures buf[at..at + HEADER_SIZE] == HeaderBytes(flags, c, size, big)
      ensures buf[at + HEADER_SIZE..pos] == old(buf[at + HEADER_SIZE..pos])
    {
      var b := WordBytes(size, big);
      ghost var h := HeaderBytes(f, c, w, big);
      assert buf[at] == h[0] && buf[at + 1] == h[1] && buf[at + 3] == h[3];
      buf[at + 2] := flags;
      buf[at + 4], buf[at + 5], buf[at + 6], buf[at + 7] := b[0], b[1], b[2], b[3];
    }

    /** The finished frame `f` is added to what has been spelled. */
    ghost method Finish(f: Frame, before: seq<byte>)
      requires before == EncodeAll(frames, big) && AllOwned() && Owned(f.flags)
      modifies `frames
      ensures frames == old(frames) + [f] && AllOwned()
      ensures before + Encode(f, big) == EncodeAll(frames, big)
      ensures ParseAll(frames, big) == Step(ParseAll(old(frames), big), f, big)
    {
      EncodeAppend(frames, f, big);
      ParseAppend(Between([]), frames, f, big);
      frames := frames + [f];
    }

    /** The finished frame has no payload: its header is all there is. */
    ghost method FinishBare(f: Frame, out: seq<byte>, head: seq<byte>, h: seq<byte>)
      requires out + head == EncodeAll(frames, big)
      requires f.payload == [] && h == HeaderBytes(f.flags, f.command, f.size, big) && AllOwned() && Owned(f.flags)
      modifies `frames
      ensures frames == old(frames) + [f] && AllOwned()
      ensures out + (head + h) == EncodeAll(frames, big)
      ensures ParseAll(frames, big) == Step(ParseAll(old(frames), big), f, big)
    {
      assert h + [] == h;
      ConcatAssociative(out, head, h);
      Finish(f, out + head);
    }

    /** Patches flags and size of the open header, so that its frame is finished. */
    method CloseFrame(flags: byte)
      requires OpenHeader() && buf.Length < MAX_PAYLOAD && AllOwned() && Owned(flags)
      modifies `lastStart, `frames, buf
      ensures lastStart == NONE && Spelled() && AllOwned()
      ensures var segment := old(buf[lastStart + HEADER_SIZE..pos]);
              var f := Frame(flags, command, |segment|, segment);
              frames == old(frames) + [f] && ParseAll(frames, big) == Step(ParseAll(old(frames), big), f, big)
    {
      ghost var head, segment := buf[..lastStart], buf[lastStart + HEADER_SIZE..pos];
      var size := pos - lastStart - HEADER_SIZE;
      PatchHeader(lastStart, flags, size, WithBase(lastSegType), command, declared);
      ghost var f := Frame(flags, command, size, segment);
      assert buf[..pos] == head + (HeaderBytes(flags, command, size, big) + segment);
      Finish(f, sent + head);
      ConcatAssociative(sent, head, Encode(f, big));
      lastStart := NONE;
    }

    lemma {:induction false} FlagValues()
      ensures Base() in {0, 0x40, 0x80, 0xC0} && (Base() >= BIG_ENDIAN_BIT <==> big)
      ensures WithBase(0) == Base() && WithBase(Base() + 0x30) == Base() + 0x30
      ensures Set(Base(), FIRST_BIT) == Base() + 0x10 && Set(Base() + 0x10, LAST_BIT) == Base() + 0x30
      ensures Clear(Base() + 0x30, FIRST_BIT) == Base() + 0x20
      ensures WithBase(CONTROL_BIT) == Base() + 1
    {
    }

    /** The flags of a first segment, and of those after it. */
    method FirstFlags(flags: byte) returns (first: byte, middle: byte)
      requires flags == WithBase(0)
      ensures first == Base() + 0x10 && middle == Base() + 0x30
    {
      FlagValues();
      first := Set(flags, FIRST_BIT);
      middle := Set(first, LAST_BIT);
    }

    /** The flags of a last segment. */
    method LastFlags() returns (last: byte)
      requires lastSegType == Base() + 0x30
      ensures last == Base() + 0x20
    {
      FlagValues();
      last := Clear(lastSegType, FIRST_BIT);
    }

    /** Ends the first segment of a message that goes on. */
    method EndFirst(flags: byte, cmd: byte)
      requires Valid() && lastStart != NONE && lastSegType == 0 && flags == WithBase(lastSegType) && cmd == command
      modifies `lastStart, `lastSegType, `lastSegCommand, `frames, `body, buf
      ensures Valid() && State() == Suspended(cmd, old(State().payload))
    {
      ghost var segment := buf[lastStart + HEADER_SIZE..pos];
      SegmentSteps(Base(), big, items, cmd, body, segment);
      assert State().payload == [] + segment == segment;
      var first, middle := FirstFlags(flags);
      CloseFrame(first);
      assert ParseAll(frames, big) == Inside(items, cmd, segment);
      lastSegType, lastSegCommand, body := middle, cmd, segment;
      assert Marked();
    }

    /** Ends a further segment of a message that goes on. */
    method EndMiddle(flags: byte, cmd: byte)
      requires Valid() && lastStart != NONE && lastSegType != 0 && flags == WithBase(lastSegType) && cmd == command
      modifies `lastStart, `frames, `body, buf
      ensures Valid() && State() == Suspended(cmd, old(State().payload))
    {
      ghost var payload, segment := State().payload, buf[lastStart + HEADER_SIZE..pos];
      FlagValues();
      SegmentSteps(Base(), big, items, cmd, body, segment);
      CloseFrame(flags);
      body := payload;
    }

    /** Ends a segment of a message that goes on. */
    method EndSegment(flags: byte, cmd: byte)
      requires Valid() && lastStart != NONE && flags == WithBase(lastSegType) && cmd == command
      modifies `lastStart, `lastSegType, `lastSegCommand, `frames, `body, buf
      ensures Valid() && State() == Suspended(cmd, old(State().payload))
    {
      if lastSegType == 0 {
        EndFirst(flags, cmd);
      } else {
        EndMiddle(flags, cmd);
      }
    }

    /** Ends the only frame of a message. */
    method EndOnly(flags: byte, cmd: byte)
      requires Valid() && lastStart != NONE && lastSegType == 0 && flags == WithBase(lastSegType) && cmd == command
      modifies `lastStart, `frames, `items, buf
      ensures Valid() && State() == Quiet
      ensures items == old(items) + [Data(Message(cmd, old(State().payload)))]
    {
      ghost var segment := buf[lastStart + HEADER_SIZE..pos];
      FlagValues();
      LastSteps(Base(), big, items, cmd, body, segment);
      assert State().payload == [] + segment == segment;
      CloseFrame(flags);
      items := items + [Data(Message(cmd, segment))];
      assert Marked();
    }

    /** Ends the last of several frames of a message. */
    method EndFinal(cmd: byte)
      requires Valid() && lastStart != NONE && lastSegType != 0 && cmd == command
      modifies `lastStart, `lastSegType, `frames, `items, buf
      ensures Valid() && State() == Quiet
      ensures items == old(items) + [Data(Message(cmd, old(State().payload)))]
    {
      ghost var payload, segment := State().payload, buf[lastStart + HEADER_SIZE..pos];
      LastSteps(Base(), big, items, cmd, body, segment);
      var last := LastFlags();
      CloseFrame(last);
      lastSegType := 0;
      items := items + [Data(Message(cmd, payload))];
      assert Marked();
    }

    /** Ends the last or only frame of a message. */
    method EndLast(flags: byte, cmd: byte)
      requires Valid() && lastStart != NONE && flags == WithBase(lastSegType) && cmd == command
      modifies `lastStart, `lastSegType, `frames, `items, buf
      ensures Valid() && State() == Quiet
      ensures items == old(items) + [Data(Message(cmd, old(State().payload)))]
    {
      if lastSegType != 0 {
        EndFinal(cmd);
      } else {
        EndOnly(flags, cmd);
      }
    }

    /** Ends the frame in hand, of a message that goes on if `more`. */
    method EndMessage(more: bool)
      requires Valid()
      modifies `lastStart, `lastSegType, `lastSegCommand, `frames, `items, `body, buf
      ensures Valid() && lastStart == NONE
      ensures match old(State()) {
                case Writing(c, p) =>
                  if more then State() == Suspended(c, p) && items == old(items)
                  else State() == Quiet && items == old(items) + [Data(Message(c, p))]
                case other => State() == other && items == old(items) && frames == old(frames)
              }
    {
      if lastStart == NONE {
        return;
      }
      var flags := buf[lastStart + 2];
      var cmd := buf[lastStart + 3];
      ghost var h := HeaderBytes(WithBase(lastSegType), command, declared, big);
      assert flags == buf[lastStart..lastStart + HEADER_SIZE][2] == h[2];
      assert cmd == buf[lastStart..lastStart + HEADER_SIZE][3] == h[3];
      if more {
        EndSegment(flags, cmd);
      } else {
        EndLast(flags, cmd);
      }
    }

    /** Hands the buffer to the socket. */
    method FlushSendBuffer()
      requires Valid() && lastStart == NONE
      modifies `pos, `sent, `flushes
      ensures Valid() && pos == 0 && State() == old(State())
      ensures sent == EncodeAll(frames, big) && flushes == old(flushes) + 1
    {
      sent := sent + buf[..pos];
      pos := 0;
      flushes := flushes + 1;
    }

    /** Writes a header with the current marks behind what has been spelled. */
    method OpenFrame(cmd: byte, size: word)
      requires Valid() && lastStart == NONE && pos + HEADER_SIZE <= buf.Length
      requires lastSegType != 0 ==> cmd == lastSegCommand
      modifies `pos, `lastStart, `command, `declared, buf
      ensures Valid() && lastStart == old(pos) && pos == old(pos) + HEADER_SIZE && declared == size
      ensures State() == Writing(cmd, old(Before()))
    {
      ghost var head := buf[..pos];
      lastStart := pos;
      PutHeader(WithBase(lastSegType), cmd, size);
      command, declared := cmd, size;
      assert buf[..lastStart] == head;
      assert buf[lastStart + HEADER_SIZE..pos] == [] && Before() + [] == Before();
    }

    /** Forgets an open header whose frame is complete as it stands: no payload, and size zero. */
    method LeaveEmptyFrame()
      requires Valid() && lastStart != NONE && pos == lastStart + HEADER_SIZE && declared == 0 && lastSegType != 0
      modifies `lastStart, `frames
      ensures Valid() && State() == Suspended(old(State()).command, old(State()).payload)
    {
      FlagValues();
      SegmentSteps(Base(), big, items, command, body, []);
      ghost var f := Frame(WithBase(lastSegType), command, 0, []);
      ghost var head := buf[..lastStart];
      assert buf[..pos] == head + buf[lastStart..pos];
      FinishBare(f, sent, head, buf[lastStart..pos]);
      assert body + [] == body;
      lastStart := NONE;
    }

    /** A message may start here. Right before a sender runs, the codec marks the position
        as the start of its message although no header is there yet. */
    ghost predicate Startable(cmd: byte)
      reads this, buf
    {
      && 2 * MAX_ENSURE_SIZE <= buf.Length < MAX_PAYLOAD
      && Marked() && Spelled()
      && (lastStart == NONE || lastStart == pos)
      && (lastSegType != 0 ==> cmd == lastSegCommand)
    }

    /** Right behind a fresh continuation header. */
    ghost predicate Restarted()
      reads this
    {
      lastStart == 0 && pos == HEADER_SIZE && declared == 0 && lastSegType != 0
    }

    /** Makes room for `size` bytes, if need be by flushing the segment in hand. */
    method EnsureBuffer(size: nat) returns (ok: bool)
      requires Valid()
      modifies this, buf
      ensures Valid() && items == old(items)
      ensures ok <==> size <= Max(old(Remaining()), buf.Length - 2 * HEADER_SIZE)
      ensures ok ==> Remaining() >= size
      ensures if ok && old(Remaining()) < size
              then State() == Continued(old(State())) && (Restarted() || State().Quiet?) && flushes == old(flushes) + 1
              else State() == old(State()) && pos == old(pos) && lastStart == old(lastStart) && sent == old(sent)
                   && flushes == old(flushes)
      decreases if Remaining() >= size then 0 else 4
    {
      if Remaining() >= size {
        return true;
      }
      if buf.Length - 2 * HEADER_SIZE < size {
        return false;
      }
      ghost var flushed := false;
      while Remaining() < size
        invariant Valid() && items == old(items)
        invariant if flushed
                  then Remaining() >= size && flushes == old(flushes) + 1
                       && State() == Continued(old(State())) && (Restarted() || State().Quiet?)
                  else State() == old(State()) && flushes == old(flushes) && pos == old(pos)
        decreases !flushed
      {
        Flush(false);
        flushed := true;
      }
      return true;
    }

    /** Ends the frame in hand, sends everything, and restarts a message that is not completed. */
    method Flush(lastMessageCompleted: bool)
      requires Valid() && (lastMessageCompleted ==> !State().Suspended?)
      modifies this, buf
      ensures Valid() && flushes == old(flushes) + 1
      ensures if lastMessageCompleted
              then State() == Quiet && pos == 0 && sent == EncodeAll(frames, big)
                   && items == old(items) + Completed(old(State()))
              else State() == Continued(old(State())) && items == old(items)
                   && if State().Quiet? then pos == 0 else Restarted()
      decreases 3
    {
      EndMessage(!lastMessageCompleted);
      FlushSendBuffer();
      if !lastMessageCompleted && lastSegType != 0 {
        var ok := StartMessage(lastSegCommand, 0, 0);
      }
    }

    /** Makes room for a frame where none is open. */
    method PrepareFrame(size: nat) returns (ok: bool)
      requires Valid() && lastStart == NONE
      modifies this, buf
      ensures Valid() && State() == old(State()) && items == old(items)
      ensures ok <==> size <= Max(old(Remaining()), buf.Length - 2 * HEADER_SIZE)
      ensures ok ==> Remaining() >= size
      ensures old(Remaining()) >= size ==> pos == old(pos) && flushes == old(flushes)
      decreases if Remaining() >= size then 1 else 5
    {
      ok := EnsureBuffer(size);
      if lastStart != NONE {
        LeaveEmptyFrame();
      }
    }

    /** Starts a message, or a further segment of the message in hand. */
    method StartMessage(cmd: byte, ensureCapacity: nat, payloadSize: word) returns (ok: bool)
      requires Startable(cmd)
      modifies this, buf
      ensures Valid() && items == old(items)
      ensures ok <==> HEADER_SIZE + ensureCapacity <= Max(old(Remaining()), buf.Length - 2 * HEADER_SIZE)
      ensures ok ==> State() == Writing(cmd, old(Before())) && Remaining() >= ensureCapacity
      ensures ok ==> pos == lastStart + HEADER_SIZE && declared == payloadSize && lastSegType == old(lastSegType)
      ensures !ok ==> lastStart == NONE && Before() == old(Before()) && lastSegType == old(lastSegType)
      ensures old(Remaining()) >= HEADER_SIZE + ensureCapacity ==> lastStart == old(pos) && flushes == old(flushes)
      decreases if Remaining() >= HEADER_SIZE + ensureCapacity then 2 else 6
    {
      lastStart := NONE;
      ok := PrepareFrame(HEADER_SIZE + ensureCapacity);
      if ok {
        OpenFrame(cmd, payloadSize);
      }
    }

    /** A fresh connection with a cleared send buffer. */
    constructor (size: nat, big: bool, server: bool)
      requires size < MAX_PAYLOAD
      ensures Valid() && State() == Quiet && items == [] && sent == [] && pos == 0
      ensures this.big == big && this.server == server && fresh(buf)
      ensures buf.Length == BufferSize(size)
    {
      buf := new byte[BufferSize(size)];
      this.big, this.server := big, server;
      pos, lastStart, lastSegType, lastSegCommand, sent := 0, NONE, 0, 0, [];
      frames, items, body, command, declared, flushes := [], [], [], 0, 0, 0;
    }

    method Append(bytes: seq<byte>)
      requires pos + |bytes| <= buf.Length
      modifies `pos, buf
      ensures pos == old(pos) + |bytes|
      ensures buf[..old(pos)] == old(buf[..pos])
      ensures buf[old(pos)..pos] == bytes
    {
      forall i | 0 <= i < |bytes| {
        buf[pos + i] := bytes[i];
      }
      pos := pos + |bytes|;
    }

    /** A sender writes bytes for which there is room. */
    method Put(bytes: seq<byte>)
      requires Valid() && State().Writing? && |bytes| <= Remaining()
      modifies `pos, buf
      ensures Valid() && State() == Writing(old(State()).command, old(State()).payload + bytes)
      ensures pos == old(pos) + |bytes|
    {
      ghost var from, at, all := lastStart + HEADER_SIZE, pos, buf[..pos];
      ghost var segment := buf[from..at];
      assert segment == all[from..] && buf[..lastStart] == all[..lastStart] && buf[lastStart..from] == all[lastStart..from];
      Append(bytes);
      assert buf[..at] == all;
      assert buf[..lastStart] == buf[..at][..lastStart];
      assert buf[lastStart..from] == buf[..at][lastStart..from];
      assert buf[from..at] == buf[..at][from..] == segment;
      assert buf[from..pos] == buf[from..at] + buf[at..pos];
      ConcatAssociative(Before(), segment, bytes);
    }

    /** Hands the buffer, up to and including the open header, to the socket. */
    method SendHeader(block: seq<byte>) returns (ghost f: Frame)
      requires OpenHeader() && pos == lastStart + HEADER_SIZE && declared == |block| && lastSegType != 0
      modifies `pos, `lastStart, `sent, `flushes
      ensures pos == 0 && lastStart == NONE && f == Frame(WithBase(lastSegType), command, declared, block)
      ensures sent + block == EncodeAll(frames, big) + Encode(f, big)
    {
      f := Frame(WithBase(lastSegType), command, declared, block);
      ghost var head, h := buf[..lastStart], buf[lastStart..pos];
      assert buf[..pos] == head + h;
      Regroup(sent, head, h, block);
      sent := sent + buf[..pos];
      pos := 0;
      lastStart := NONE;
      flushes := flushes + 1;
    }

    /** The finished frame `f` is a further segment of the message in hand. */
    ghost method FinishSegment(f: Frame)
      requires Marked() && lastSegType != 0 && |f.payload| == f.size < MAX_PAYLOAD
      requires f.flags == WithBase(lastSegType) && f.command == lastSegCommand
      requires sent == EncodeAll(frames, big) + Encode(f, big)
      modifies `frames, `body
      ensures Marked() && body == old(body) + f.payload && sent == EncodeAll(frames, big)
    {
      FlagValues();
      SegmentSteps(Base(), big, items, lastSegCommand, body, f.payload);
      Finish(f, EncodeAll(frames, big));
      body := body + f.payload;
    }

    /** Sends the open header and, straight after it, the block it announces. */
    method SendBlock(block: seq<byte>)
      requires Valid() && lastStart != NONE && pos == lastStart + HEADER_SIZE && lastSegType != 0
      requires declared == |block| < MAX_PAYLOAD
      modifies `pos, `lastStart, `sent, `frames, `body, `flushes
      ensures Valid() && pos == 0
      ensures State() == Suspended(old(State()).command, old(State()).payload + block)
    {
      assert buf[lastStart + HEADER_SIZE..pos] == [] && body + [] == body;
      ghost var f := SendHeader(block);
      sent := sent + block;
      FinishSegment(f);
      assert buf[..pos] == [] && sent + [] == sent;
    }

    /** Sends a large block past the buffer, as a segment of its own. */
    method DirectSerialize(block: seq<byte>) returns (done: bool)
      requires Valid() && State().Writing? && |block| < MAX_PAYLOAD
      modifies this, buf
      ensures done <==> |block| >= DIRECT_LIMIT
      ensures Valid() && items == old(items)
      ensures State() == if done then Writing(old(State()).command, old(State()).payload + block) else old(State())
      ensures done ==> pos == lastStart + HEADER_SIZE
    {
      if |block| < DIRECT_LIMIT {
        return false;
      }
      EndMessage(true);
      var ok := StartMessage(lastSegCommand, 0, |block|);
      SendBlock(block);
      ok := StartMessage(lastSegCommand, 0, 0);
      return true;
    }

    /** Writes a control frame for which there is room. */
    method PutControlFrame(cmd: byte, data: word)
      requires Valid() && State() == Quiet && HEADER_SIZE <= Remaining()
      modifies `pos, `frames, `items, buf
      ensures Valid() && State() == Quiet && items == old(items) + [Control(cmd, data)]
    {
      FlagValues();
      var flags := WithBase(CONTROL_BIT);
      ghost var head, h, at := buf[..pos], HeaderBytes(flags, cmd, data, big), pos;
      ghost var f := Frame(flags, cmd, data, []);
      PutHeader(flags, cmd, data);
      assert buf[..at] == head && buf[at..pos] == h;
      assert buf[..pos] == buf[..at] + buf[at..pos];
      FinishBare(f, sent, head, h);
      ControlStep(Base(), big, items, cmd, data);
      items := items + [Control(cmd, data)];
    }

    /** Sends a control message between messages. */
    method PutControlMessage(cmd: byte, data: word)
      requires Startable(cmd) && lastSegType == 0
      modifies this, buf
      ensures Valid() && State() == Quiet && items == old(items) + [Control(cmd, data)]
    {
      lastStart := NONE;
      var ok := EnsureBuffer(HEADER_SIZE);
      PutControlFrame(cmd, data);
    }

    /** Writes as many of the bytes as there is room for, and sends them if some are left. */
    method PutSome(bytes: seq<byte>) returns (n: nat)
      requires Valid() && State().Writing?
      modifies this, buf
      ensures n <= |bytes| && (n == 0 < |bytes| ==> old(Remaining()) == 0)
      ensures Valid() && items == old(items) && (n == |bytes| || Remaining() > 0)
      ensures State() == Writing(old(State()).command, old(State()).payload + bytes[..n])
    {
      n := Min(Remaining(), |bytes|);
      Put(bytes[..n]);
      if n < |bytes| {
        Flush(false);
      }
    }

    /** Writes any number of bytes through the buffer. */
    method PutChunked(bytes: seq<byte>)
      requires Valid() && State().Writing?
      modifies this, buf
      ensures Valid() && items == old(items)
      ensures State() == Writing(old(State()).command, old(State()).payload + bytes)
      decreases |bytes|, Remaining() == 0
    {
      ghost var p := State().payload;
      var n := PutSome(bytes);
      if n < |bytes| {
        PutChunked(bytes[n..]);
      }
      SplitAt(p, bytes, n);
    }

    method WritePiece(piece: Piece) returns (ok: bool)
      requires Valid() && State().Writing? && |piece.bytes| < MAX_PAYLOAD
      modifies this, buf
      ensures Valid() && items == old(items)
      ensures ok ==> State() == Writing(old(State()).command, old(State()).payload + piece.bytes)
      ensures PieceFitsIn(piece, buf.Length) ==> ok
    {
      match piece
      case Small(bytes) =>
        ok := EnsureBuffer(|bytes|);
        if ok {
          Put(bytes);
        }
      case Block(bytes) =>
        var done := DirectSerialize(bytes);
        if !done {
          PutChunked(bytes);
        }
        ok := true;
    }

    method WritePieces(pieces: seq<Piece>) returns (ok: bool)
      requires Valid() && State().Writing? && forall piece :: piece in pieces ==> |piece.bytes| < MAX_PAYLOAD
      modifies this, buf
      ensures Valid() && items == old(items)
      ensures ok ==> State() == Writing(old(State()).command, old(State()).payload + Joined(pieces))
      ensures (forall piece :: piece in pieces ==> PieceFitsIn(piece, buf.Length)) ==> ok
      decreases |pieces|
    {
      if pieces == [] {
        assert State().payload + [] == State().payload;
        return true;
      }
      ghost var p := State().payload;
      ok := WritePiece(pieces[0]);
      if ok {
        ok := WritePieces(pieces[1..]);
        ConcatAssociative(p, pieces[0].bytes, Joined(pieces[1..]));
      }
    }

    /** Starts a message and writes its pieces. */
    method WriteMessage(o: Outgoing) returns (ok: bool)
      requires Startable(o.command) && Before() == [] && Writable(o)
      modifies this, buf
      ensures Valid() && items == old(items)
      ensures ok ==> State() == Writing(o.command, Joined(o.pieces))
      ensures Fits(o, buf.Length) ==> ok
    {
      ok := StartMessage(o.command, o.capacity, 0);
      if ok {
        ok := WritePieces(o.pieces);
        assert [] + Joined(o.pieces) == Joined(o.pieces);
      }
    }

    /** Marks the position as the start of a sender's message, and lets the sender write it. */
    method BeginSender(o: Outgoing) returns (ok: bool)
      requires Valid() && State() == Quiet && Writable(o)
      modifies this, buf
      ensures Valid() && items == old(items)
      ensures ok ==> State() == Writing(o.command, Joined(o.pieces))
      ensures Fits(o, buf.Length) ==> ok
    {
      lastStart := pos;
      ok := WriteMessage(o);
    }

    /** Ends the message in hand, after a flush if it is urgent. */
    method FinishMessage(urgent: bool, ghost last: Outgoing)
      requires Valid() && State() == Writing(last.command, Joined(last.pieces))
      modifies this, buf
      ensures Valid() && State() == Quiet && items == old(items) + [Said(last)]
      ensures urgent ==> pos == 0 && sent == EncodeAll(frames, big)
    {
      if urgent {
        Flush(true);
      }
      EndMessage(false);
    }

    /** Ends the message in hand and writes the next one. */
    method NextMessage(o: Outgoing, last: Outgoing) returns (ok: bool)
      requires Valid() && State() == Writing(last.command, Joined(last.pieces)) && Writable(o)
      modifies this, buf
      ensures Valid() && items == old(items) + [Said(last)]
      ensures ok ==> State() == Writing(o.command, Joined(o.pieces))
      ensures Fits(o, buf.Length) ==> ok
    {
      FinishMessage(last.urgent, last);
      ok := WriteMessage(o);
    }

    /** Writes messages after the first one, ending each when the next one starts. */
    method WriteMore(all: seq<Outgoing>) returns (ok: bool)
      requires all != [] && forall o :: o in all[1..] ==> Writable(o)
      requires Valid() && State() == Writing(all[0].command, Joined(all[0].pieces))
      modifies this, buf
      ensures ok ==> Valid() && State() == Writing(all[|all| - 1].command, Joined(all[|all| - 1].pieces))
      ensures ok ==> items == old(items) + AllSaid(all[..|all| - 1])
      ensures (forall o :: o in all[1..] ==> Fits(o, buf.Length)) ==> ok
    {
      assert AllSaid(all[..0]) == [] && items + [] == items;
      var i := 0;
      while i + 1 < |all|
        invariant 0 <= i < |all|
        invariant Valid() && State() == Writing(all[i].command, Joined(all[i].pieces))
        invariant items == old(items) + AllSaid(all[..i])
      {
        SaidMore(old(items), all, i);
        assert all[i + 1] == all[1..][i];
        ok := NextMessage(all[i + 1], all[i]);
        if !ok {
          return;
        }
        i := i + 1;
      }
      ok := true;
    }

    /** Runs one sender, which writes its messages one after the other. */
    method ProcessSender(first: Outgoing, more: seq<Outgoing>) returns (ok: bool)
      requires Valid() && State() == Quiet
      requires Writable(first) && forall o :: o in more ==> Writable(o)
      modifies this, buf
      ensures ok ==> Valid() && State() == Quiet && items == old(items) + AllSaid([first] + more)
      ensures Fits(first, buf.Length) && (forall o :: o in more ==> Fits(o, buf.Length)) ==> ok
    {
      ghost var before := items;
      var all := [first] + more;
      assert all[1..] == more;
      ok := BeginSender(first);
      if ok {
        ok := WriteMore(all);
      }
      if ok {
        var last := all[|more|];
        FinishMessage(last.urgent, last);
        SaidMore(before, all, |more|);
        assert all[..|more| + 1] == all;
      }
    }

    method ProcessJob(job: Job) returns (ok: bool)
      requires Valid() && State() == Quiet && Sendable(job)
      modifies this, buf
      ensures ok ==> Valid() && State() == Quiet && items == old(items) + Meaning(job)
      ensures FitsIn(job, buf.Length) ==> ok
    {
      match job
      case Send(first, more) =>
        ok := ProcessSender(first, more);
      case Tell(c, data) =>
        PutControlMessage(c, data);
        ok := true;
    }

    /** Sends out what has been written, if anything. */
    method FlushPending()
      requires Valid() && State() == Quiet
      modifies this, buf
      ensures Valid() && State() == Quiet && items == old(items)
      ensures pos == 0 && sent == EncodeAll(frames, big)
    {
      assert buf[..0] == [] && sent + [] == sent;
      if pos > 0 {
        Flush(true);
      }
    }

    lemma {:induction false} DirectionSaid()
      requires AllOwned()
      ensures forall i :: 0 <= i < |frames| ==> (Has(frames[i].flags, SERVER_BIT) <==> server)
    {
      forall i | 0 <= i < |frames|
        ensures Has(frames[i].flags, SERVER_BIT) <==> server
      {
        OwnedSays(frames[i].flags);
      }
    }

    /** Serves a queue of senders, and sends out what they have written. */
    method ProcessSendQueue(jobs: seq<Job>) returns (ok: bool)
      requires Valid() && State() == Quiet
      requires forall job :: job in jobs ==> Sendable(job)
      modifies this, buf
      ensures ok ==> Valid() && State() == Quiet && pos == 0 && sent == EncodeAll(frames, big)
      ensures ok ==> items == old(items) + Items(jobs)
      ensures ok ==> forall i :: 0 <= i < |frames| ==> (Has(frames[i].flags, SERVER_BIT) <==> server)
      ensures (forall job :: job in jobs ==> FitsIn(job, buf.Length)) ==> ok
    {
      ghost var before := items;
      var i := 0;
      while i < |jobs|
        invariant 0 <= i <= |jobs|
        invariant Valid() && State() == Quiet && items == before + Items(jobs[..i])
      {
        ok := ProcessJob(jobs[i]);
        if !ok {
          return;
        }
        ItemsMore(before, jobs, i);
        i := i + 1;
        var idle: bool := *;  // the queue was found empty
        if idle || i % MAX_MESSAGE_SEND == 0 {
          FlushPending();
        }
      }
      assert jobs[..i] == jobs;
      FlushPending();
      DirectionSaid();
      ok := true;
    }
  }
}
