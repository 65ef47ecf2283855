/** The receive half of the TCP codec: one byte array that is reused in place. */
module Receiver {
  import opened Bytes
  import opened Frames
  import opened Dispatch

  const MAX_ENSURE_DATA_SIZE := MAX_ENSURE_SIZE / 2
  const MAX_MESSAGE_PROCESS := 100

  /** Chunks plus bytes still to be delivered: what every `read` uses up. */
  ghost function WireSize(wire: seq<seq<byte>>): nat
  {
    |wire| + |Flatten(wire)|
  }

  /** What the codec demands of a handler: no single request beyond the maximum. */
  ghost predicate Bounded(h: Handler)
  {
    forall log, command, got :: h(log, command, got) <= MAX_ENSURE_DATA_SIZE
  }

  /** The wire once the first `k` bytes of its first chunk are delivered. */
  function Delivered(wire: seq<seq<byte>>, k: nat): (w: seq<seq<byte>>)
    requires wire != [] && k <= |wire[0]|
    ensures Flatten(wire) == wire[0][..k] + Flatten(w)
  {
    if k == |wire[0]| then wire[1..]
    else
      var w := [wire[0][k..]] + wire[1..];
      assert w[1..] == wire[1..] && wire[0] == wire[0][..k] + wire[0][k..];
      w
  }

  /** The first chunk has the bytes that are wanted and all of it fits. */
  predicate FirstSuffices(wire: seq<seq<byte>>, wanted: int, room: int)
  {
    wire != [] && 0 < wanted <= |wire[0]| <= room
  }

  /** Copying `n` bytes one at a time, lowest first. */
  function CopyUp(s: seq<byte>, from: nat, to: nat, n: nat): (t: seq<byte>)
    requires from + n <= |s| && to + n <= |s|
    ensures |t| == |s|
  {
    if n == 0 then s
    else var t := CopyUp(s, from, to, n - 1); t[to + n - 1 := t[from + n - 1]]
  }

  /** The destination does not start inside the source. */
  predicate Apart(from: nat, to: nat, n: nat)
  {
    to <= from || from + n <= to
  }

  lemma {:induction false} CopyUpRight(s: seq<byte>, from: nat, to: nat, n: nat)
    requires from + n <= |s| && to + n <= |s| && Apart(from, to, n)
    ensures var t := CopyUp(s, from, to, n);
            && t[to..to + n] == s[from..from + n]
            && forall i :: 0 <= i < |s| && !(to <= i < to + n) ==> t[i] == s[i]
  {
    if n > 0 {
      CopyUpRight(s, from, to, n - 1);
      var t := CopyUp(s, from, to, n - 1);
      assert t[from + n - 1] == s[from + n - 1];
      assert CopyUp(s, from, to, n)[to..to + n] == t[to..to + n - 1] + [s[from + n - 1]];
      assert s[from..from + n] == s[from..from + n - 1] + [s[from + n - 1]];
    }
  }

  lemma {:induction false} CopyUpAt(s: seq<byte>, from: nat, to: nat, n: nat, k: nat)
    requires from + n <= |s| && to + n <= |s| && k < n
    ensures CopyUp(s, from, to, n)[to + k] == CopyUp(s, from, to, k)[from + k]
  {
    if k < n - 1 {
      CopyUpAt(s, from, to, n - 1, k);
    }
  }

  /** The copy delivers the bytes it was given, whatever they are, exactly if the destination
      does not start inside the source. */
  lemma {:induction false} ForwardCopySafe(length: nat, from: nat, to: nat, n: nat)
    requires from + n <= length && to + n <= length
    ensures (forall s: seq<byte> :: |s| == length ==> CopyUp(s, from, to, n)[to..to + n] == s[from..from + n])
            <==> Apart(from, to, n)
  {
    if Apart(from, to, n) {
      forall s: seq<byte> | |s| == length
        ensures CopyUp(s, from, to, n)[to..to + n] == s[from..from + n]
      {
        CopyUpRight(s, from, to, n);
      }
    } else {
      var s: seq<byte> := seq(length, i => if i == from then 1 else 0);
      var d := to - from;
      CopyUpAt(s, from, to, n, d);
      CopyUpAt(s, from, to, d, 0);
      var t := CopyUp(s, from, to, n);
      assert t[to..to + n][d] == t[to + d] == 1 && s[from..from + n][d] == s[to] == 0;
    }
  }

  lemma {:induction false} CopyUpBelow(s: seq<byte>, from: nat, to: nat, n: nat, i: nat)
    requires from + n <= |s| && to + n <= |s| && i < to && i < |s|
    ensures CopyUp(s, from, to, n)[i] == s[i]
  {
    if n > 0 {
      CopyUpBelow(s, from, to, n - 1, i);
    }
  }

  /** A destination inside the source gets the bytes in front of it over and over. */
  lemma {:induction false} CopyUpRepeats(s: seq<byte>, from: nat, to: nat, n: nat, k: nat)
    requires from < to && to + n <= |s| && k < n
    ensures var t, d := CopyUp(s, from, to, n), to - from;
            t[to + k] == if k < d then s[from + k] else t[to + (k - d)]
  {
    CopyUpAt(s, from, to, n, k);
    var d := to - from;
    if k < d {
      CopyUpBelow(s, from, to, k, from + k);
    } else {
      CopyUpAt(s, from, to, k, k - d);
      CopyUpAt(s, from, to, n, k - d);
    }
  }

  /** From `to` on, the bytes are those that came `d` places before. */
  predicate Repeats(s: seq<byte>, to: nat, end: nat, d: nat)
    requires d <= to && end <= |s|
  {
    forall i :: to <= i < end ==> s[i] == s[i - d]
  }

  lemma {:induction false} RepeatsCopied(s: seq<byte>, from: nat, to: nat, n: nat, k: nat)
    requires from < to && to + n <= |s| && k < n && Repeats(s, to, from + n, to - from)
    ensures CopyUp(s, from, to, n)[to + k] == s[from + k]
    decreases k
  {
    CopyUpRepeats(s, from, to, n, k);
    if k >= to - from {
      RepeatsCopied(s, from, to, n, k - (to - from));
      assert s[from + k] == s[from + k - (to - from)];
    }
  }

  /** Which bytes survive a copy into their own middle: those that repeat at the distance moved. */
  lemma {:induction false} SmearedCopy(s: seq<byte>, from: nat, to: nat, n: nat)
    requires from < to && to + n <= |s|
    ensures CopyUp(s, from, to, n)[to..to + n] == s[from..from + n] <==> Repeats(s, to, from + n, to - from)
  {
    var t, d := CopyUp(s, from, to, n), to - from;
    var copied, given := t[to..to + n], s[from..from + n];
    if copied == given {
      forall i | to <= i < from + n
        ensures s[i] == s[i - d]
      {
        CopyUpRepeats(s, from, to, n, i - from);
        assert copied[i - from] == given[i - from] && copied[i - from - d] == given[i - from - d];
      }
    }
    if Repeats(s, to, from + n, d) {
      forall k | 0 <= k < n
        ensures copied[k] == given[k]
      {
        RepeatsCopied(s, from, to, n, k);
      }
    }
  }

  const WORD64 := 0x1_0000_0000_0000_0000

  /** Where the frame whose payload starts at `at` ends, as the codec reckons it: the signed
      size is kept in an unsigned 64-bit variable. */
  function FrameEnd(at: nat, size: int): nat
  {
    (at + size % WORD64) % WORD64
  }

  /** The limit put on a frame is where its bytes end, or where the buffered ones do, exactly if
      its size has no sign bit. A negative size that does not reach beyond the start of the
      buffer puts the limit before the position; any other one is taken for a huge size. */
  lemma {:induction false} FrameEndRight(at: nat, size: int, limit: nat)
    requires at <= limit < 0x8000_0000_0000_0000 && -0x8000_0000 <= size < 0x8000_0000
    ensures FrameEnd(at, size) == at + size <==> at + size >= 0
    ensures at <= Min(FrameEnd(at, size), limit) <==> size >= 0 || at + size < 0
    ensures at + size < 0 ==> FrameEnd(at, size) > limit
  {
    if size >= 0 {
      assert size % WORD64 == size;
    } else {
      assert size % WORD64 == size + WORD64;
    }
  }

  datatype ReadResult = Enough | NotYet | Lost

  datatype EnsureResult = Ready | TooLarge | Failed

  class Codec {
    const buf: array<byte>
    var pos: nat
    var lim: nat
    var startPosition: nat
    var storedPayloadSize: nat
    var storedPosition: nat
    var storedLimit: nat
    var flags: byte
    var command: byte
    var payloadSize: int
    var big: bool
    var open: bool
    // what the network has yet to deliver, one element per successful read;
    // an empty chunk is a read that finds nothing, and no chunk is a lost connection
    var wire: seq<seq<byte>>
    // the messages handled so far, with what their handlers read
    var log: seq<Message>

    ghost predicate Valid()
      reads this
    {
      2 * MAX_ENSURE_SIZE <= buf.Length && pos <= lim <= buf.Length
    }

    /** An empty buffer of the selected size, on a fresh connection. */
    constructor (size: nat, wire: seq<seq<byte>>, big: bool)
      ensures Valid() && buf.Length == BufferSize(size) && fresh(buf)
      ensures pos == lim == buf.Length && open && log == []
      ensures this.wire == wire && this.big == big
    {
      var n := BufferSize(size);
      buf := new byte[n];
      pos, lim, startPosition := n, n, n;
      storedPayloadSize, storedPosition, storedLimit := 0, 0, 0;
      flags, command, payloadSize := 0, 0, 0;
      this.big, open, this.wire, log := big, true, wire, [];
    }

    /** Every byte that is buffered or still to come, when no message is being read. */
    ghost function Unread(): seq<byte>
      requires Valid()
      reads this, buf
    {
      buf[pos..lim] + Flatten(wire)
    }

    /** `read` appends at the position whatever part of the next chunk fits. */
    method Read() returns (n: int)
      requires Valid() && pos < lim
      modifies `pos, `wire, buf
      ensures n < 0 ==> wire == old(wire) == [] && pos == old(pos)
      ensures n >= 0 ==> pos == old(pos) + n <= lim
      ensures n >= 0 ==> Flatten(old(wire)) == buf[old(pos)..pos] + Flatten(wire)
      ensures n >= 0 ==> WireSize(wire) < WireSize(old(wire)) && |wire| <= |old(wire)|
      ensures n == 0 ==> |wire| < |old(wire)|
      ensures old(wire) != [] && |old(wire)[0]| <= lim - old(pos) ==> wire == old(wire)[1..] && n == |old(wire)[0]|
      ensures buf[..old(pos)] == old(buf[..pos])
    {
      if wire == [] {
        return -1;
      }
      var chunk := wire[0];
      var k := Min(|chunk|, lim - pos);
      forall i | pos <= i < pos + k {
        buf[i] := chunk[i - pos];
      }
      assert buf[pos..pos + k] == chunk[..k];
      wire := Delivered(wire, k);
      pos := pos + k;
      return k;
    }

    /** Copies the unread bytes to index `to`, one at a time from the front. */
    method CopyUnread(to: nat)
      requires Valid() && to + (lim - pos) <= buf.Length
      modifies `pos, buf
      ensures pos == lim
      ensures buf[..] == CopyUp(old(buf[..]), old(pos), to, lim - old(pos))
    {
      var i := to;
      while pos < lim
        invariant old(pos) <= pos <= lim && i == to + (pos - old(pos))
        invariant buf[..] == CopyUp(old(buf[..]), old(pos), to, pos - old(pos))
      {
        buf[i] := buf[pos];
        pos := pos + 1;
        i := i + 1;
      }
    }

    /** Makes room behind the unread bytes. */
    method Rewind()
      requires Valid() && MAX_ENSURE_SIZE + (lim - pos) <= buf.Length
      requires Apart(pos, MAX_ENSURE_SIZE, lim - pos)
      modifies `pos, `startPosition, `lim, buf
      ensures startPosition == MAX_ENSURE_SIZE && lim == buf.Length && pos == MAX_ENSURE_SIZE + old(lim - pos)
      ensures buf[..MAX_ENSURE_SIZE] == old(buf[..MAX_ENSURE_SIZE])
      ensures buf[MAX_ENSURE_SIZE..pos] == old(buf[pos..lim])
    {
      var n := lim - pos;
      ghost var s, from := buf[..], pos;
      startPosition := MAX_ENSURE_SIZE;
      CopyUnread(MAX_ENSURE_SIZE);
      CopyUpRight(s, from, MAX_ENSURE_SIZE, n);
      ghost var t := buf[..];
      assert buf[..MAX_ENSURE_SIZE] == t[..MAX_ENSURE_SIZE] == s[..MAX_ENSURE_SIZE];
      assert buf[MAX_ENSURE_SIZE..MAX_ENSURE_SIZE + n] == t[MAX_ENSURE_SIZE..MAX_ENSURE_SIZE + n] == s[from..from + n];
      lim := buf.Length;
      pos := startPosition + n;
    }

    /** Reads until `required` bytes lie behind the start position. */
    method Fill(required: nat, persistent: bool) returns (r: ReadResult)
      requires Valid() && required <= buf.Length - MAX_ENSURE_SIZE
      requires startPosition == MAX_ENSURE_SIZE <= pos && lim == buf.Length
      modifies `pos, `wire, `open, buf
      ensures old(pos) <= pos <= lim
      ensures buf[..MAX_ENSURE_SIZE] == old(buf[..MAX_ENSURE_SIZE])
      ensures buf[MAX_ENSURE_SIZE..pos] + Flatten(wire) == old(buf[MAX_ENSURE_SIZE..pos] + Flatten(wire))
      ensures r.Enough? ==> pos >= MAX_ENSURE_SIZE + required
      ensures r.NotYet? ==> !persistent && |wire| < |old(wire)|
      ensures r.Lost? ==> !open && wire == [] && pos < MAX_ENSURE_SIZE + required
      ensures !r.Lost? ==> open == old(open)
      ensures FirstSuffices(old(wire), MAX_ENSURE_SIZE + required - old(pos), lim - old(pos)) ==> wire == old(wire)[1..]
    {
      ghost var enough := FirstSuffices(wire, MAX_ENSURE_SIZE + required - pos, lim - pos);
      while pos < startPosition + required
        invariant old(pos) <= pos <= lim && open == old(open)
        invariant buf[..MAX_ENSURE_SIZE] == old(buf[..MAX_ENSURE_SIZE])
        invariant buf[MAX_ENSURE_SIZE..pos] + Flatten(wire) == old(buf[MAX_ENSURE_SIZE..pos] + Flatten(wire))
        invariant |wire| <= |old(wire)|
        invariant enough ==> if pos == old(pos) then wire == old(wire)
                             else wire == old(wire)[1..] && pos >= startPosition + required
        decreases WireSize(wire)
      {
        ghost var at, had := pos, buf[MAX_ENSURE_SIZE..pos];
        ghost var before := buf[..at];
        var n := Read();
        assert buf[MAX_ENSURE_SIZE..at] == buf[..at][MAX_ENSURE_SIZE..] == had;
        assert buf[..MAX_ENSURE_SIZE] == buf[..at][..MAX_ENSURE_SIZE] == before[..MAX_ENSURE_SIZE];
        if n < 0 {
          open := false;
          return Lost;
        }
        assert buf[MAX_ENSURE_SIZE..pos] == had + buf[at..pos];
        ConcatAssociative(had, buf[at..pos], Flatten(wire));
        if n == 0 && !persistent {
          return NotYet;
        }
      }
      return Enough;
    }

    method ReadToBuffer(required: nat, persistent: bool) returns (r: ReadResult)
      requires Valid() && required <= buf.Length - MAX_ENSURE_SIZE
      requires lim - pos < required ==> Apart(pos, MAX_ENSURE_SIZE, lim - pos)
      modifies `pos, `lim, `startPosition, `wire, `open, buf
      ensures Valid()
      ensures buf[..MAX_ENSURE_SIZE] == old(buf[..MAX_ENSURE_SIZE])
      ensures old(lim - pos) >= required ==> r.Enough? && pos == old(pos) && lim == old(lim)
      ensures old(lim - pos) < required && !r.Lost? ==> pos == MAX_ENSURE_SIZE
      ensures r.Enough? ==> lim - pos >= required
      ensures !r.Lost? ==> Unread() == old(Unread())
      ensures r.NotYet? ==> !persistent && |wire| < |old(wire)|
      ensures r.Lost? ==> !open && |old(Unread())| < required
      ensures !r.Lost? ==> open == old(open)
      ensures FirstSuffices(old(wire), required - old(lim - pos), buf.Length - MAX_ENSURE_SIZE - old(lim - pos))
              ==> wire == old(wire)[1..]
    {
      var remaining := lim - pos;
      if remaining >= required {
        return Enough;
      }
      Rewind();
      r := Fill(required, persistent);
      if !r.Lost? {
        lim := pos;
        pos := startPosition;
      }
    }

    method ProcessHeader() returns (ok: bool)
      requires Valid() && lim - pos >= HEADER_SIZE
      modifies `pos, `flags, `command, `payloadSize, `open
      ensures Valid() && pos == old(pos) + HEADER_SIZE
      ensures Unread() == old(Unread())[8..]
      ensures flags == old(Unread())[2] && command == old(Unread())[3]
      ensures payloadSize == SizeField(old(Unread()), big)
      ensures ok <==> old(Unread())[0] == MAGIC
      ensures open == (old(open) && ok)
    {
      ghost var head, s := buf[pos..lim], Unread();
      SplitFront(head, Flatten(wire), 8);
      assert head[8..] == buf[pos + 8..lim];
      assert s[4..8] == s[..8][4..8] == head[4..8] == buf[pos + 4..pos + 8];
      var magic := buf[pos];
      flags := buf[pos + 2];
      command := buf[pos + 3];
      payloadSize := Signed(WordAt(buf[pos + 4..pos + 8], big));
      pos := pos + HEADER_SIZE;
      ok := magic == MAGIC;
      if !ok {
        open := false;
      }
    }

    method ProcessControlMessage()
      modifies `big
      ensures big == OrderAfter(flags, command, old(big))
    {
      if command == CMD_SET_ENDIANESS {
        big := flags >= BIG_ENDIAN_BIT;
      }
    }

    /** Waits for a header and reads its fields. */
    method ReadHeader() returns (ok: bool)
      requires Valid() && open && pos >= MAX_ENSURE_SIZE
      modifies `pos, `lim, `startPosition, `wire, `open, `flags, `command, `payloadSize, buf
      ensures Valid() && open == ok && (ok ==> pos >= MAX_ENSURE_SIZE)
      ensures buf[..MAX_ENSURE_SIZE] == old(buf[..MAX_ENSURE_SIZE])
      ensures ok <==> |old(Unread())| >= HEADER_SIZE && old(Unread())[0] == MAGIC
      ensures ok ==> Unread() == old(Unread())[8..]
      ensures ok ==> flags == old(Unread())[2] && command == old(Unread())[3]
      ensures ok ==> payloadSize == SizeField(old(Unread()), big)
      ensures ok && old(lim - pos) >= HEADER_SIZE ==> lim - pos == old(lim - pos) - HEADER_SIZE
    {
      var r := ReadToBuffer(HEADER_SIZE, true);
      if r.Lost? {
        return false;
      }
      ok := ProcessHeader();
    }

    /** Reads headers until the next segment of the message in hand. */
    method ProcessReadSegmented() returns (ok: bool)
      requires Valid() && open && pos >= MAX_ENSURE_SIZE
      requires SizesOk(Unread(), big)
      modifies `pos, `lim, `startPosition, `wire, `open, `flags, `command, `payloadSize, `big, `storedPayloadSize, buf
      ensures Valid() && open == ok && (ok ==> pos >= MAX_ENSURE_SIZE)
      ensures buf[..MAX_ENSURE_SIZE] == old(buf[..MAX_ENSURE_SIZE])
      ensures ok <==> NextSegment(old(Unread()), old(big)).Segment?
      ensures ok ==> NextSegment(old(Unread()), old(big)) == Segment(storedPayloadSize, Unread(), big)
      ensures ok && old(lim - pos) >= HEADER_SIZE && !IsControl(old(Unread())[2]) ==> lim - pos == old(lim - pos) - HEADER_SIZE
    {
      ghost var scan := NextSegment(Unread(), big);
      while true
        invariant Valid() && open && pos >= MAX_ENSURE_SIZE
        invariant buf[..MAX_ENSURE_SIZE] == old(buf[..MAX_ENSURE_SIZE])
        invariant SizesOk(Unread(), big)
        invariant NextSegment(Unread(), big) == scan
        invariant old(lim - pos) >= HEADER_SIZE && !IsControl(old(Unread())[2]) ==>
                    lim - pos == old(lim - pos) && Unread() == old(Unread())
        decreases |Unread()|
      {
        var valid := ReadHeader();
        if !valid {
          return false;
        }
        if IsControl(flags) {
          ProcessControlMessage();
        } else {
          if !NotFirst(flags) {
            open := false;
            return false;
          }
          storedPayloadSize := payloadSize;
          return true;
        }
      }
    }

    /** Copies what is left of the segment to the front of the array. */
    method SaveToSafeArea()
      requires Valid() && lim - pos <= MAX_ENSURE_DATA_SIZE <= pos && lim <= storedLimit <= buf.Length
      modifies `pos, buf
      ensures pos == lim
      ensures buf[..lim - old(pos)] == old(buf[pos..lim])
      ensures buf[lim..storedLimit] == old(buf[lim..storedLimit])
    {
      ghost var s, from, n := buf[..], pos, lim - pos;
      CopyUnread(0);
      CopyUpRight(s, from, 0, n);
      ghost var t := buf[..];
      assert buf[..n] == t[0..n] && buf[lim..storedLimit] == t[lim..storedLimit] == s[lim..storedLimit];
    }

    /** Puts the first `count` bytes of the array back, right before the position. */
    method RestoreBeforePosition(count: nat)
      requires Valid() && count <= MAX_ENSURE_DATA_SIZE && MAX_ENSURE_SIZE <= pos
      modifies buf
      ensures buf[pos - count..lim] == old(buf[..count] + buf[pos..lim])
    {
      var i, j := count, pos;
      while i > 0
        invariant 0 <= i <= count && pos - j == count - i
        invariant forall k :: i <= k < count ==> buf[pos - count + k] == old(buf[k])
        invariant forall k :: 0 <= k < i ==> buf[k] == old(buf[k])
        invariant forall k :: pos <= k < buf.Length ==> buf[k] == old(buf[k])
      {
        i, j := i - 1, j - 1;
        buf[j] := buf[i];
      }
    }

    /** A message is being read: the limit hides what lies behind the current segment. */
    ghost predicate InMessage()
      reads this
    {
      && Valid()
      && storedPosition <= pos <= lim <= storedLimit <= buf.Length
      && lim == Min(storedPosition + storedPayloadSize, storedLimit)
      && MAX_ENSURE_SIZE <= storedPosition + storedPayloadSize
      && MAX_ENSURE_DATA_SIZE <= pos
    }

    /** Where the reader is in the message. */
    ghost function Reader(): Cursor
      requires InMessage()
      reads this, buf
    {
      Cursor(storedPosition + storedPayloadSize - pos, buf[pos..storedLimit] + Flatten(wire), big)
    }

    /** SPLIT: the segment goes on beyond the buffered bytes, so read more of the stream. */
    method ReadSplit(size: nat, ghost v: Cursor) returns (ok: bool)
      requires Valid() && open && Apart(pos, MAX_ENSURE_SIZE, lim - pos)
      requires lim == storedLimit && lim - pos < size <= MAX_ENSURE_DATA_SIZE
      requires v == Cursor(storedPayloadSize, Unread(), big)
      modifies `pos, `lim, `startPosition, `wire, `open, `storedPosition, `storedLimit, buf
      ensures open == ok
      ensures ok ==> InMessage() && Reader() == v && storedLimit - pos >= size
      ensures ok ==> pos == MAX_ENSURE_SIZE
      ensures !ok ==> |v.raw| < size
    {
      var r := ReadToBuffer(size, true);
      if r.Lost? {
        return false;
      }
      storedPosition := pos;
      storedLimit := lim;
      lim := Min(storedPosition + storedPayloadSize, storedLimit);
      return true;
    }

    /** Saves what is left of the segment and moves behind the header of the next one. */
    method EnterNextSegment(ghost v: Cursor) returns (ok: bool)
      requires Valid() && open && MAX_ENSURE_DATA_SIZE <= pos && MAX_ENSURE_SIZE <= lim < storedLimit <= buf.Length
      requires lim - pos == v.left <= MAX_ENSURE_DATA_SIZE
      requires v == Cursor(v.left, buf[pos..storedLimit] + Flatten(wire), big)
      requires SizesOkAhead(v)
      modifies `pos, `lim, `startPosition, `wire, `open, `flags, `command, `payloadSize, `big, `storedPayloadSize, buf
      ensures Valid() && open == ok && (ok ==> pos >= MAX_ENSURE_SIZE)
      ensures buf[..v.left] == v.raw[..v.left]
      ensures ok <==> NextSegment(v.raw[v.left..], v.big).Segment?
      ensures ok ==> NextSegment(v.raw[v.left..], v.big) == Segment(storedPayloadSize, Unread(), big)
      ensures ok && old(storedLimit - lim) == HEADER_SIZE && ComesNext(v) ==> lim == pos
    {
      assert v.raw[..v.left] == buf[pos..lim];
      ghost var rest := buf[lim..storedLimit];
      assert v.raw[v.left..] == rest + Flatten(wire);
      SaveToSafeArea();
      lim := storedLimit;
      assert buf[..v.left] == buf[..MAX_ENSURE_SIZE][..v.left];
      assert Unread() == v.raw[v.left..];
      ok := ProcessReadSegmented();
      assert buf[..v.left] == buf[..MAX_ENSURE_SIZE][..v.left];
    }

    /** Makes the saved bytes and the segment at the position one contiguous payload. */
    method PrependSaved(saved: nat)
      requires Valid() && pos >= MAX_ENSURE_SIZE && saved <= MAX_ENSURE_DATA_SIZE
      modifies `pos, `lim, `startPosition, `storedPayloadSize, `storedPosition, `storedLimit, buf
      ensures InMessage() && pos == old(pos) - saved && storedLimit == old(lim)
      ensures Reader() == Cursor(saved + old(storedPayloadSize), old(buf[..saved]) + old(Unread()), big)
    {
      ghost var front, back := buf[..saved], buf[pos..lim];
      RestoreBeforePosition(saved);
      startPosition := pos - saved;
      pos := startPosition;
      storedPayloadSize := storedPayloadSize + saved;
      storedPosition := startPosition;
      storedLimit := lim;
      lim := Min(storedPosition + storedPayloadSize, storedLimit);
      assert Reader().raw == front + (back + Flatten(wire));
    }

    /** Puts the saved bytes in front of a segment of which `needed` bytes are read first. */
    method JoinSaved(saved: nat, needed: nat) returns (ok: bool)
      requires Valid() && open && pos >= MAX_ENSURE_SIZE
      requires saved <= MAX_ENSURE_DATA_SIZE && 0 < needed <= MAX_ENSURE_DATA_SIZE
      modifies `pos, `lim, `startPosition, `wire, `open, `storedPayloadSize, `storedPosition, `storedLimit, buf
      ensures open == ok
      ensures ok ==> InMessage() && storedLimit - pos >= saved + needed && pos + saved >= MAX_ENSURE_SIZE
      ensures ok ==> Reader() == Cursor(saved + old(storedPayloadSize), old(buf[..saved]) + old(Unread()), big)
      ensures !ok ==> |old(Unread())| < needed
      ensures ok && old(lim == pos) ==> pos == MAX_ENSURE_SIZE - saved
    {
      assert buf[..saved] == buf[..MAX_ENSURE_SIZE][..saved];
      var r := ReadToBuffer(needed, true);
      if r.Lost? {
        return false;
      }
      assert buf[..saved] == buf[..MAX_ENSURE_SIZE][..saved];
      PrependSaved(saved);
      return true;
    }

    /** SEGMENTED: the segment ends within the buffered bytes, so glue the next one to it. */
    method ReadNextSegment(size: nat, ghost v: Cursor) returns (ok: bool)
      requires Valid() && open && MAX_ENSURE_DATA_SIZE <= pos && MAX_ENSURE_SIZE <= lim < storedLimit <= buf.Length
      requires lim - pos == v.left < size <= MAX_ENSURE_DATA_SIZE
      requires v == Cursor(v.left, buf[pos..storedLimit] + Flatten(wire), big)
      requires SizesOkAhead(v)
      modifies `pos, `lim, `startPosition, `wire, `open, `flags, `command, `payloadSize, `big,
               `storedPayloadSize, `storedPosition, `storedLimit, buf
      ensures open == ok
      ensures ok ==> NextSegment(v.raw[v.left..], v.big).Segment?
      ensures ok ==> InMessage() && Reader() == Glued(v)
      ensures ok ==> storedLimit - pos >= size && pos + size > MAX_ENSURE_SIZE
      ensures !ok ==> |Payload(v)| < size
      ensures ok && old(storedLimit - lim) == HEADER_SIZE && ComesNext(v) ==> pos == MAX_ENSURE_SIZE - v.left
    {
      var remaining := lim - pos;
      ok := EnterNextSegment(v);
      if ok {
        ok := JoinSaved(remaining, size - remaining);
      }
      if !ok {
        PayloadRunsOut(v, size);
      }
    }

    /** Reads on so that `size` bytes are buffered behind the position: more of the segment, or
        the next one glued to what is left of it. */
    method ReadOn(size: nat, ghost v: Cursor) returns (ok: bool)
      requires InMessage() && open && v == Reader() && SizesOkAhead(v)
      requires lim - pos < size <= MAX_ENSURE_DATA_SIZE
      requires lim == storedLimit ==> Apart(pos, MAX_ENSURE_SIZE, lim - pos)
      modifies `pos, `lim, `startPosition, `wire, `open, `flags, `command, `payloadSize, `big,
               `storedPayloadSize, `storedPosition, `storedLimit, buf
      ensures open == ok
      ensures ok ==> InMessage() && SizesOkAhead(Reader())
      ensures ok ==> storedLimit - pos >= size && pos + size >= MAX_ENSURE_SIZE
      ensures ok ==> if old(lim == storedLimit) then Reader() == v
                     else v.left < size && Continues(v) && Reader() == Glued(v)
      ensures ok && old(storedLimit - lim) == HEADER_SIZE && ComesNext(v) ==> pos == MAX_ENSURE_SIZE - v.left
      ensures !ok ==> |Payload(v)| < size
    {
      storedPayloadSize := storedPayloadSize - (pos - storedPosition);
      if storedPayloadSize >= storedLimit - pos {
        ok := ReadSplit(size, v);
        if !ok {
          PayloadBound(v);
        }
      } else {
        ok := ReadNextSegment(size, v);
        if ok {
          GluedSizesOk(v);
        }
      }
    }

    /** Makes the next `size` bytes of the payload available in one piece. */
    method EnsureData(size: nat) returns (r: EnsureResult)
      requires InMessage() && open && SizesOkAhead(Reader())
      requires lim == storedLimit && lim - pos < size ==> Apart(pos, MAX_ENSURE_SIZE, lim - pos)
      modifies `pos, `lim, `startPosition, `wire, `open, `flags, `command, `payloadSize, `big,
               `storedPayloadSize, `storedPosition, `storedLimit, buf
      ensures r.TooLarge? <==> old(lim - pos) < size && size > MAX_ENSURE_DATA_SIZE
      ensures !r.Failed? ==> InMessage() && open && SizesOkAhead(Reader())
      ensures r.TooLarge? ==> Reader() == old(Reader()) && pos == old(pos)
      ensures r.Ready? ==> lim - pos >= size && Payload(Reader()) == old(Payload(Reader()))
      ensures r.Ready? ==> Advance(Reader(), size) == Advance(old(Reader()), size)
      ensures r.Ready? ==> pos == old(pos) || pos + size >= MAX_ENSURE_SIZE
      ensures r.Failed? ==> !open
      ensures !r.TooLarge? ==> (r.Ready? <==> size <= |old(Payload(Reader()))|)
      ensures old(lim - pos) >= size ==> pos == old(pos)
      ensures r.Ready? && old(lim - pos < size && storedLimit - lim == HEADER_SIZE && ComesNext(Reader())) ==>
                (Glued(old(Reader())).left >= size ==> pos == MAX_ENSURE_SIZE - old(lim - pos))
      decreases |Reader().raw|, if storedLimit - pos >= size then 0 else 1
    {
      ghost var v := Reader();
      if lim - pos >= size {
        assert size <= |Payload(v)|;
        return Ready;
      }
      if size > MAX_ENSURE_DATA_SIZE {
        return TooLarge;
      }
      var ok := ReadOn(size, v);
      if !ok {
        return Failed;
      }
      ghost var w := Reader();
      if w != v {
        GluedPayload(v);
      }
      r := EnsureData(size);
      if r.Ready? && w != v {
        GluedAdvance(v, size);
      }
    }

    method TakeRaw(n: nat) returns (bytes: seq<byte>)
      requires InMessage() && n <= lim - pos
      modifies `pos
      ensures InMessage() && pos == old(pos) + n && n <= |old(Reader()).raw|
      ensures bytes == old(Reader()).raw[..n]
      ensures Reader() == Cursor(old(Reader()).left - n, old(Reader()).raw[n..], big)
    {
      ghost var b := buf[pos..storedLimit];
      SplitFront(b, Flatten(wire), n);
      bytes := buf[pos..pos + n];
      assert bytes == b[..n] && buf[pos + n..storedLimit] == b[n..];
      pos := pos + n;
    }

    /** Reads `n` bytes that are available. */
    method Take(n: nat) returns (bytes: seq<byte>)
      requires InMessage() && n <= lim - pos && SizesOkAhead(Reader())
      modifies `pos
      ensures InMessage() && pos == old(pos) + n
      ensures n <= |Payload(old(Reader()))|
      ensures bytes == Payload(old(Reader()))[..n]
      ensures Reader() == Advance(old(Reader()), n) && SizesOkAhead(Reader())
    {
      AdvanceInSegment(Reader(), n);
      bytes := TakeRaw(n);
    }

    /** Runs the handler of one message; `done` unless it asks for more than there is. */
    method ProcessApplicationMessage(h: Handler) returns (done: bool, ghost got: seq<byte>)
      requires InMessage() && open && pos >= MAX_ENSURE_SIZE && SizesOkAhead(Reader())
      requires Bounded(h)
      modifies this, buf
      ensures open == done
      ensures done ==> InMessage() && SizesOkAhead(Reader())
      ensures done ==> Consume(h, old(log), old(command), [], old(Reader())) == Finished(got, Reader())
      ensures done ==> log == old(log) + [Message(old(command), got)]
      ensures !done ==> Consume(h, old(log), old(command), [], old(Reader())).Stuck? && log == old(log)
    {
      var cmd := command;
      var bytes := [];
      var n := h(log, cmd, bytes);
      while n > 0
        invariant InMessage() && open && pos >= MAX_ENSURE_SIZE && SizesOkAhead(Reader())
        invariant log == old(log) && n == h(log, cmd, bytes)
        invariant Consume(h, log, cmd, bytes, Reader()) == Consume(h, log, cmd, [], old(Reader()))
        decreases |Reader().raw|
      {
        assert n <= MAX_ENSURE_DATA_SIZE;
        ghost var v := Reader();
        var r := EnsureData(n);
        if !r.Ready? {
          return false, [];
        }
        assert Advance(Reader(), n) == Advance(v, n);
        var next := Take(n);
        bytes := bytes + next;
        n := h(log, cmd, bytes);
      }
      log := log + [Message(cmd, bytes)];
      return true, bytes;
    }

    /** Moves behind the segment the handler ended in, discarding what it left unread. */
    method PostProcessApplicationMessage() returns (ok: bool)
      requires InMessage() && open
      modifies `pos, `lim, `open
      ensures open == ok
      ensures ok ==> Valid() && pos >= MAX_ENSURE_SIZE
      ensures ok ==> old(Reader()).left <= |old(Reader()).raw|
      ensures ok ==> Unread() == old(Reader()).raw[old(Reader()).left..]
      ensures !ok ==> old(Reader()).left > 0
      ensures ok <==> old(storedPosition + storedPayloadSize) <= old(storedLimit)
    {
      ghost var v := Reader();
      var newPosition := storedPosition + storedPayloadSize;
      if newPosition > storedLimit {
        var bytesNotRead := newPosition - pos;
        assert bytesNotRead > 0;
        open := false;
        return false;
      }
      assert v.raw[v.left..] == buf[newPosition..storedLimit] + Flatten(wire);
      lim := storedLimit;
      pos := newPosition;
      return true;
    }

    /** Hides what lies behind the first segment of the message that starts here. */
    method BoundMessage(ghost s: seq<byte>)
      requires Valid() && pos >= MAX_ENSURE_SIZE
      requires StartsMessage(s, big) && SizesOk(s, big)
      requires s[8..] == Unread() && payloadSize == SizeField(s, big)
      modifies `lim, `storedPayloadSize, `storedPosition, `storedLimit
      ensures InMessage() && Reader() == FirstCursor(s, big) && SizesOkAhead(Reader())
    {
      storedPayloadSize := payloadSize;
      storedPosition := pos;
      storedLimit := lim;
      lim := Min(storedPosition + storedPayloadSize, storedLimit);
      ghost var v := FirstCursor(s, big);
      assert |v.raw| >= v.left ==> v.raw[v.left..] == s[8 + v.left..];
    }

    /** Ends a message that its handler is done with. */
    method LeaveMessage(h: Handler, ghost s: seq<byte>, ghost b: bool, ghost l: seq<Message>, ghost got: seq<byte>)
      returns (more: bool)
      requires InMessage() && open && SizesOkAhead(Reader())
      requires StartsMessage(s, b) && Consume(h, l, s[3], [], FirstCursor(s, b)) == Finished(got, Reader())
      modifies `pos, `lim, `open
      ensures more == open
      ensures more ==> Valid() && pos >= MAX_ENSURE_SIZE && SizesOk(Unread(), big)
      ensures more ==> |Unread()| < |s|
      ensures Refines(h, s, b, l, if more then Unread() else [], big, l + [Message(s[3], got)], more)
    {
      ghost var w := Reader();
      more := PostProcessApplicationMessage();
      if more {
        MessageHandled(h, s, b, l, got, w);
      } else {
        MessageCutOff(h, s, b, l, got, w);
      }
    }

    /** Handles a message whose header has just been read. */
    method ProcessMessage(h: Handler, ghost s: seq<byte>) returns (more: bool)
      requires Valid() && open && pos >= MAX_ENSURE_SIZE && Bounded(h)
      requires StartsMessage(s, big) && SizesOk(s, big)
      requires s[8..] == Unread() && command == s[3] && payloadSize == SizeField(s, big)
      modifies this, buf
      ensures more == open
      ensures more ==> Valid() && pos >= MAX_ENSURE_SIZE && SizesOk(Unread(), big)
      ensures more ==> |Unread()| < |s|
      ensures Refines(h, s, old(big), old(log), if more then Unread() else [], big, log, more)
    {
      ghost var v, l := FirstCursor(s, big), log;
      BoundMessage(s);
      var done, got := ProcessApplicationMessage(h);
      if !done {
        MessageStuck(h, s, v.big, l);
        return false;
      }
      more := LeaveMessage(h, s, v.big, l, got);
    }

    /** Between messages, at a frame header. */
    ghost predicate Idle()
      reads this, buf
    {
      Valid() && pos >= MAX_ENSURE_SIZE && SizesOk(Unread(), big)
    }

    /** Handles the frame whose header is buffered. */
    method ProcessFrame(h: Handler)
      requires Idle() && open && Bounded(h) && lim - pos >= HEADER_SIZE
      modifies this, buf
      ensures open ==> Idle() && |Unread()| < |old(Unread())|
      ensures Refines(h, old(Unread()), old(big), old(log), if open then Unread() else [], big, log, open)
    {
      ghost var s, b, l := Unread(), big, log;
      var valid := ProcessHeader();
      if !valid {
        StreamStops(h, s, b, l);
        return;
      }
      if IsControl(flags) {
        ProcessControlMessage();
        FrameSkipped(h, s, b, big, l);
      } else if NotFirst(flags) {
        if payloadSize == 0 {
          FrameSkipped(h, s, b, b, l);
          return;
        }
        StreamStops(h, s, b, l);
        open := false;
      } else {
        var more := ProcessMessage(h, s);
      }
    }

    /** Waits for a header and handles its frame; false if nothing more is there for now. */
    method ProcessNext(h: Handler) returns (more: bool)
      requires Idle() && open && Bounded(h)
      modifies this, buf
      ensures open ==> Idle()
      ensures Refines(h, old(Unread()), old(big), old(log), if open then Unread() else [], big, log, open)
      ensures more ==> open && |Unread()| < |old(Unread())|
      ensures !more && open ==> |Unread()| == |old(Unread())| && |wire| < |old(wire)|
    {
      ghost var s, b, l := Unread(), big, log;
      var r := ReadToBuffer(HEADER_SIZE, false);
      if r.Lost? {
        StreamStops(h, s, b, l);
        return false;
      } else if r.NotYet? {
        return false;
      }
      ProcessFrame(h);
      return open;
    }

    method ProcessReadNormal(h: Handler)
      requires Idle() && open && Bounded(h)
      modifies this, buf
      ensures open ==> Idle()
      ensures Refines(h, old(Unread()), old(big), old(log), if open then Unread() else [], big, log, open)
      ensures open ==> |Unread()| < |old(Unread())| || (|Unread()| == |old(Unread())| && |wire| < |old(wire)|)
    {
      ghost var s, b, l, n := Unread(), big, log, |wire|;
      var count := 0;
      while count < MAX_MESSAGE_PROCESS
        invariant Idle() && open
        invariant Refines(h, s, b, l, Unread(), big, log, true)
        invariant if count == 0 then |Unread()| == |s| && |wire| == n else |Unread()| < |s|
      {
        count := count + 1;
        ghost var t, c, m := Unread(), big, log;
        var more := ProcessNext(h);
        RefinesTransitive(h, s, b, l, t, c, m, if open then Unread() else [], big, log, open);
        if !more {
          return;
        }
      }
    }

    /** Handles everything that arrives until the connection is lost or closed. */
    method ReceiveThread(h: Handler)
      requires Idle() && open && Bounded(h)
      modifies this, buf
      ensures !open
      ensures log <= old(log) + Ideal(old(Unread()), old(big), h, old(log))
      ensures Thorough(old(Unread()), old(big), h, old(log)) ==> log == old(log) + Ideal(old(Unread()), old(big), h, old(log))
    {
      ghost var s, b, l := Unread(), big, log;
      assert Refines(h, s, b, l, s, b, l, true);
      while open
        invariant open ==> Idle()
        invariant Refines(h, s, b, l, if open then Unread() else [], big, log, open)
        decreases if open then 1 else 0, if open then |Unread()| else 0, |wire|
      {
        ghost var t, c, m := Unread(), big, log;
        ProcessReadNormal(h);
        RefinesTransitive(h, s, b, l, t, c, m, if open then Unread() else [], big, log, open);
      }
    }
  }

  /** The first segment of a message holds one byte, the second eight; the header of the second
      arrives with the first, and three of its bytes later. */
  const FIRST_CHUNK: seq<byte> := [MAGIC, VERSION, 0x90, 0, 0, 0, 0, 1, 10, MAGIC, VERSION, 0xA0, 0, 0, 0, 0, 8]
  const LATER_CHUNK: seq<byte> := [11, 12, 13]

  lemma {:induction false} TwoSegmentsRead(s: seq<byte>)
    requires s == FIRST_CHUNK + LATER_CHUNK
    ensures StartsMessage(s, true) && SizesOk(s, true) && s[0] == MAGIC
    ensures var v := FirstCursor(s, true);
            && v.left == 1 && |v.raw| == 12 && ComesNext(v) && Glued(v) == Cursor(9, [10, 11, 12, 13], true)
            && Payload(v) == [10, 11, 12, 13]
  {
    assert s[4..8] == [0, 0, 0, 1] && s[13..17] == [0, 0, 0, 8];
    assert s[9..][4..8] == s[13..17] && s[8 + 1..] == s[9..];
    var v := FirstCursor(s, true);
    assert v.raw[1..] == s[9..] && s[9..][8..] == [11, 12, 13] && v.raw[..1] == [10];
    assert NextSegment(v.raw[1..], true) == Segment(8, [11, 12, 13], true);
    GluedPayload(v);
  }

  /** A new connection on which a message arrives in two chunks, once its header is there. */
  method Arrive(first: seq<byte>, later: seq<byte>) returns (rx: Codec)
    requires HEADER_SIZE <= |first| <= MAX_ENSURE_SIZE
    ensures fresh(rx) && fresh(rx.buf) && rx.Valid() && rx.open && rx.big
    ensures rx.Unread() == first + later && rx.lim - rx.pos == |first| && rx.pos >= MAX_ENSURE_SIZE
  {
    var chunks := [first, later];
    ghost var rest := chunks[1..];
    ghost var last := rest[1..];
    assert rest == [later] && last == [];
    assert Flatten(rest) == later + Flatten(last) == later;
    assert Flatten(chunks) == first + later;
    rx := new Codec(0, chunks, true);
    assert rx.Unread() == [] + Flatten(chunks) == first + later;
    var r := rx.ReadToBuffer(HEADER_SIZE, false);
    assert |rx.Unread()| == (rx.lim - rx.pos) + |later|;
  }

  /** The same with the message's handler about to run. */
  method ArriveAtHandler(first: seq<byte>, later: seq<byte>) returns (rx: Codec)
    requires HEADER_SIZE <= |first| <= MAX_ENSURE_SIZE
    requires StartsMessage(first + later, true) && SizesOk(first + later, true)
    ensures fresh(rx) && fresh(rx.buf) && rx.InMessage() && rx.open && rx.pos >= MAX_ENSURE_SIZE
    ensures rx.Reader() == FirstCursor(first + later, true) && rx.storedLimit - rx.pos == |first| - HEADER_SIZE
  {
    rx := Arrive(first, later);
    var ok := rx.ProcessHeader();
    rx.BoundMessage(first + later);
  }

  /** A handler asks for two bytes of that message. They are made contiguous right before the
      fixed start position, so that the bytes that have arrived lie across it. */
  method ReachOverlap() returns (rx: Codec)
    ensures fresh(rx) && fresh(rx.buf) && rx.InMessage() && rx.open
    ensures rx.lim == rx.storedLimit && Payload(rx.Reader()) == [10, 11, 12, 13]
    ensures rx.pos == MAX_ENSURE_SIZE - 1 && rx.lim >= MAX_ENSURE_SIZE + 1
    ensures rx.buf[rx.pos..rx.lim] <= [10, 11, 12, 13]
    ensures !Apart(rx.pos, MAX_ENSURE_SIZE, rx.lim - rx.pos)
  {
    TwoSegmentsRead(FIRST_CHUNK + LATER_CHUNK);
    rx := ArriveAtHandler(FIRST_CHUNK, LATER_CHUNK);
    var e := rx.EnsureData(2);
    ghost var v, n := rx.Reader(), rx.lim - rx.pos;
    AdvanceInSegment(v, n);
    assert v.raw[..n] == rx.buf[rx.pos..rx.lim];
  }

  /** What the SPLIT branch does there with bytes that are not all the same. */
  method MoveOnto(rx: Codec) returns (arrived: seq<byte>, moved: seq<byte>)
    requires rx.Valid() && rx.pos == MAX_ENSURE_SIZE - 1 && MAX_ENSURE_SIZE < rx.lim < rx.buf.Length
    requires rx.buf[rx.pos] != rx.buf[rx.pos + 1]
    modifies rx`pos, rx.buf
    ensures arrived == old(rx.buf[rx.pos..rx.lim]) && |moved| == |arrived| && moved != arrived
    ensures moved == rx.buf[MAX_ENSURE_SIZE..MAX_ENSURE_SIZE + |arrived|]
  {
    arrived := rx.buf[rx.pos..rx.lim];
    var n := |arrived|;
    ghost var s := rx.buf[..];
    assert arrived == s[MAX_ENSURE_SIZE - 1..MAX_ENSURE_SIZE - 1 + n];
    rx.CopyUnread(MAX_ENSURE_SIZE);
    moved := rx.buf[MAX_ENSURE_SIZE..MAX_ENSURE_SIZE + n];
    assert moved == rx.buf[..][MAX_ENSURE_SIZE..MAX_ENSURE_SIZE + n];
    SmearedCopy(s, MAX_ENSURE_SIZE - 1, MAX_ENSURE_SIZE, n);
  }

  /** If the handler now asks for more without having read those two bytes, the SPLIT branch moves
      what has arrived onto itself, and the message goes on with wrong bytes. */
  method OverlapGarbles() returns (arrived: seq<byte>, moved: seq<byte>)
    ensures arrived <= Payload(FirstCursor(FIRST_CHUNK + LATER_CHUNK, true))
    ensures |moved| == |arrived| && moved != arrived
  {
    TwoSegmentsRead(FIRST_CHUNK + LATER_CHUNK);
    var rx := ReachOverlap();
    ghost var bytes := rx.buf[rx.pos..rx.lim];
    assert rx.buf[rx.pos] == bytes[0] == 10 && rx.buf[rx.pos + 1] == bytes[1] == 11;
    assert |bytes| <= 4;
    arrived, moved := MoveOnto(rx);
  }
}
