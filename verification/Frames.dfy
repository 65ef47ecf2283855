/** What a byte stream means: frame headers, continuation segments and the
    logical payload of a message, without buffers or TCP chunks. */
module Frames {
  import opened Bytes

  const MAGIC: byte := 0xCA
  const VERSION: byte := 1
  const HEADER_SIZE := 8
  const MAX_ENSURE_SIZE := 1024
  const MAX_ENSURE_DATA_BUFFER_SIZE := 1024
  const MAX_TCP_RECV := 1024 * 16

  /** The buffer size used when `request` is asked for. */
  function BufferSize(request: nat): (n: nat)
    ensures n >= request && n >= MAX_TCP_RECV + MAX_ENSURE_DATA_BUFFER_SIZE
    ensures n == request || n == MAX_TCP_RECV + MAX_ENSURE_DATA_BUFFER_SIZE
  {
    Max(request, MAX_TCP_RECV + MAX_ENSURE_DATA_BUFFER_SIZE)
  }

  const CONTROL_BIT: bit := 0x01
  const FIRST_BIT: bit := 0x10
  const LAST_BIT: bit := 0x20
  const SERVER_BIT: bit := 0x40
  const BIG_ENDIAN_BIT: bit := 0x80
  const CMD_SET_ENDIANESS: byte := 2

  predicate IsControl(flags: byte) { Has(flags, CONTROL_BIT) }

  predicate NotFirst(flags: byte) { Has(flags, LAST_BIT) }

  /** Byte order in force after a control message. */
  function OrderAfter(flags: byte, command: byte, big: bool): bool
  {
    if command == CMD_SET_ENDIANESS then flags >= BIG_ENDIAN_BIT else big
  }

  /** The signed payload size field of the header at the head of `s`. */
  function SizeField(s: seq<byte>, big: bool): int
    requires |s| >= HEADER_SIZE
  {
    Signed(WordAt(s[4..8], big))
  }

  /** No data frame of the stream carries a size field with the sign bit set. */
  predicate SizesOk(s: seq<byte>, big: bool)
    decreases |s|
  {
    if |s| < HEADER_SIZE || s[0] != MAGIC then true
    else if IsControl(s[2]) then SizesOk(s[8..], OrderAfter(s[2], s[3], big))
    else
      var n := SizeField(s, big);
      n >= 0 && (|s| < 8 + n || SizesOk(s[8 + n..], big))
  }

  /** `t` is what remains of `s` after some number of whole frames, and `c` the
      byte order then in force. */
  predicate Synced(s: seq<byte>, b: bool, t: seq<byte>, c: bool)
    decreases |s|
  {
    || (s == t && b == c)
    || (&& |s| >= HEADER_SIZE
        && if IsControl(s[2]) then Synced(s[8..], OrderAfter(s[2], s[3], b), t, c)
           else
             var n := SizeField(s, b);
             n >= 0 && |s| >= 8 + n && Synced(s[8 + n..], b, t, c))
  }

  lemma {:induction false} SyncedTransitive(s: seq<byte>, b: bool, t: seq<byte>, c: bool, u: seq<byte>, d: bool)
    requires Synced(s, b, t, c) && Synced(t, c, u, d)
    ensures Synced(s, b, u, d)
    decreases |s|
  {
    if s == t && b == c {
    } else if IsControl(s[2]) {
      SyncedTransitive(s[8..], OrderAfter(s[2], s[3], b), t, c, u, d);
    } else {
      SyncedTransitive(s[8 + SizeField(s, b)..], b, t, c, u, d);
    }
  }

  /** Outcome of looking for the next segment of a message. */
  datatype Scan =
    | Short                                             // the stream ends first
    | Broken                                            // bad magic, or a frame that starts a message
    | Segment(size: nat, rest: seq<byte>, big: bool)    // payload of `size` bytes starts at `rest`

  /** Skips control messages up to the next data frame, which has to continue a message. */
  function NextSegment(s: seq<byte>, big: bool): (r: Scan)
    ensures r.Segment? ==> |r.rest| + 8 <= |s|
    decreases |s|
  {
    if |s| < HEADER_SIZE then Short
    else if s[0] != MAGIC then Broken
    else if IsControl(s[2]) then NextSegment(s[8..], OrderAfter(s[2], s[3], big))
    else if !NotFirst(s[2]) || SizeField(s, big) < 0 then Broken
    else Segment(SizeField(s, big), s[8..], big)
  }

  /** A reader inside a message: `left` bytes of the current segment are unread,
      and `raw` is every byte not read yet, headers included. */
  datatype Cursor = Cursor(left: nat, raw: seq<byte>, big: bool)

  /** The payload still to come: the rest of this segment and of all continuations. */
  function Payload(v: Cursor): seq<byte>
    decreases |v.raw|, 1
  {
    if |v.raw| <= v.left then v.raw
    else v.raw[..v.left] + Continuation(v.raw[v.left..], v.big)
  }

  /** The payload that the segments after a finished one add. */
  function Continuation(s: seq<byte>, big: bool): seq<byte>
    decreases |s|, 0
  {
    match NextSegment(s, big)
    case Segment(n, rest, b) => Payload(Cursor(n, rest, b))
    case _ => []
  }

  /** The reader after `m` bytes of payload: in the first segment that holds them all. */
  function Advance(v: Cursor, m: nat): (r: Cursor)
    requires m <= |Payload(v)|
    ensures |r.raw| + m <= |v.raw|
    decreases |v.raw|
  {
    if m <= v.left then Cursor(v.left - m, v.raw[m..], v.big)
    else
      var seg := NextSegment(v.raw[v.left..], v.big);
      assert Payload(v) == v.raw[..v.left] + Continuation(v.raw[v.left..], v.big);
      Advance(Cursor(seg.size, seg.rest, seg.big), m - v.left)
  }

  lemma {:induction false} PayloadBound(v: Cursor)
    ensures |Payload(v)| <= |v.raw|
    decreases |v.raw|
  {
    if |v.raw| > v.left {
      var scan := NextSegment(v.raw[v.left..], v.big);
      if scan.Segment? {
        PayloadBound(Cursor(scan.size, scan.rest, scan.big));
      }
    }
  }

  /** When the stream breaks off inside the next segment, the payload does too. */
  lemma {:induction false} PayloadRunsOut(v: Cursor, size: nat)
    requires v.left < |v.raw| && v.left < size
    requires var scan := NextSegment(v.raw[v.left..], v.big);
             !scan.Segment? || |scan.rest| < size - v.left
    ensures |Payload(v)| < size
  {
    var scan := NextSegment(v.raw[v.left..], v.big);
    if scan.Segment? {
      PayloadBound(Cursor(scan.size, scan.rest, scan.big));
    }
  }

  lemma {:induction false} PayloadAfterAdvance(v: Cursor, m: nat)
    requires m <= |Payload(v)|
    ensures Payload(Advance(v, m)) == Payload(v)[m..]
    decreases |v.raw|
  {
    if m <= v.left {
      if |v.raw| > v.left {
        assert v.raw[m..][v.left - m..] == v.raw[v.left..];
        assert v.raw[m..][..v.left - m] == v.raw[..v.left][m..];
      }
    } else {
      var seg := NextSegment(v.raw[v.left..], v.big);
      PayloadAfterAdvance(Cursor(seg.size, seg.rest, seg.big), m - v.left);
    }
  }

  lemma {:induction false} SizesOkAfterSegment(s: seq<byte>, big: bool)
    requires SizesOk(s, big) && NextSegment(s, big).Segment?
    ensures var seg := NextSegment(s, big); |seg.rest| < seg.size || SizesOk(seg.rest[seg.size..], seg.big)
    decreases |s|
  {
    if IsControl(s[2]) {
      SizesOkAfterSegment(s[8..], OrderAfter(s[2], s[3], big));
    } else {
      var n := SizeField(s, big);
      assert |s| >= 8 + n ==> s[8..][n..] == s[8 + n..];
    }
  }

  /** The frame after the current segment, if it has arrived, is well-sized. */
  predicate SizesOkAhead(v: Cursor)
  {
    |v.raw| < v.left || SizesOk(v.raw[v.left..], v.big)
  }

  /** Behind the current segment there is another one of the same message. */
  predicate Continues(v: Cursor)
  {
    v.left < |v.raw| && NextSegment(v.raw[v.left..], v.big).Segment?
  }

  /** The cursor with the next segment glued to what is left of the current one. */
  function Glued(v: Cursor): Cursor
    requires Continues(v)
  {
    var seg := NextSegment(v.raw[v.left..], v.big);
    Cursor(v.left + seg.size, v.raw[..v.left] + seg.rest, seg.big)
  }

  /** The next header belongs to the next segment of the message: no control message is in between. */
  predicate ComesNext(v: Cursor)
  {
    Continues(v) && !IsControl(v.raw[v.left + 2])
  }

  lemma {:induction false} GluedPayload(v: Cursor)
    requires Continues(v)
    ensures Payload(Glued(v)) == Payload(v)
  {
    var seg := NextSegment(v.raw[v.left..], v.big);
    var c, w := Cursor(seg.size, seg.rest, seg.big), Glued(v);
    assert Payload(v) == v.raw[..v.left] + Payload(c);
    if |c.raw| > c.left {
      assert w.raw[w.left..] == c.raw[c.left..];
      assert w.raw[..w.left] == v.raw[..v.left] + c.raw[..c.left];
    }
  }

  /** A read that spans both segments ends up in the same place. */
  lemma {:induction false} GluedAdvance(v: Cursor, size: nat)
    requires Continues(v)
    requires v.left < size <= |Payload(v)|
    ensures size <= |Payload(Glued(v))|
    ensures Advance(Glued(v), size) == Advance(v, size)
  {
    GluedPayload(v);
    var seg := NextSegment(v.raw[v.left..], v.big);
    var c, w := Cursor(seg.size, seg.rest, seg.big), Glued(v);
    if size <= w.left {
      assert w.raw[size..] == c.raw[size - v.left..];
    } else {
      assert w.raw[w.left..] == c.raw[c.left..];
    }
  }

  lemma {:induction false} GluedSizesOk(v: Cursor)
    requires Continues(v)
    requires SizesOkAhead(v)
    ensures SizesOkAhead(Glued(v))
  {
    var seg := NextSegment(v.raw[v.left..], v.big);
    SizesOkAfterSegment(v.raw[v.left..], v.big);
    assert |seg.rest| >= seg.size ==> Glued(v).raw[Glued(v).left..] == seg.rest[seg.size..];
  }

  /** Reading on behind the current segment. */
  lemma {:induction false} AdvanceOver(v: Cursor, n: nat, c: Cursor)
    requires v.left <= |v.raw| && v.left < n <= |Payload(v)|
    requires NextSegment(v.raw[v.left..], v.big) == Segment(c.left, c.raw, c.big)
    ensures n - v.left <= |Payload(c)| && Advance(v, n) == Advance(c, n - v.left)
  {
    assert Cursor(c.left, c.raw, c.big) == c;
  }

  /** Reading on inside the current segment. */
  lemma {:induction false} AdvanceInSegment(v: Cursor, n: nat)
    requires n <= v.left && n <= |v.raw| && SizesOkAhead(v)
    ensures n <= |Payload(v)| && Payload(v)[..n] == v.raw[..n]
    ensures Advance(v, n) == Cursor(v.left - n, v.raw[n..], v.big)
    ensures SizesOkAhead(Advance(v, n))
  {
    assert |v.raw| >= v.left ==> v.raw[n..][v.left - n..] == v.raw[v.left..];
  }
}
