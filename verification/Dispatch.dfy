/** What a receiver should hand to its handlers, given the whole byte stream at once. */
module Dispatch {
  import opened Bytes
  import opened Frames

  datatype Message = Message(command: byte, payload: seq<byte>)

  /** The message handlers of a receiver: from the messages handled before, the command and
      the payload bytes read so far they decide how many bytes to read next, and zero ends
      the message. */
  type Handler = (seq<Message>, byte, seq<byte>) -> nat

  datatype Reading =
    | Stuck                                    // asks for more than the message has
    | Finished(got: seq<byte>, at: Cursor)     // has read `got` and stands at `at`

  function Consume(h: Handler, log: seq<Message>, command: byte, got: seq<byte>, v: Cursor): (r: Reading)
    ensures r.Finished? ==> |r.at.raw| <= |v.raw|
    decreases |v.raw|
  {
    var n := h(log, command, got);
    if n == 0 then Finished(got, v)
    else if n > |Payload(v)| then Stuck
    else Consume(h, log, command, got + Payload(v)[..n], Advance(v, n))
  }

  /** The messages of a stream, as long as it is well-formed. Bytes of a segment that
      its handler leaves unread are skipped. */
  function Ideal(s: seq<byte>, big: bool, h: Handler, log: seq<Message>): seq<Message>
    decreases |s|
  {
    if |s| < HEADER_SIZE || s[0] != MAGIC then []
    else if IsControl(s[2]) then Ideal(s[8..], OrderAfter(s[2], s[3], big), h, log)
    else if NotFirst(s[2]) then
      if SizeField(s, big) == 0 then Ideal(s[8..], big, h, log) else []
    else if SizeField(s, big) < 0 then []
    else
      match Consume(h, log, s[3], [], Cursor(SizeField(s, big), s[8..], big))
      case Stuck => []
      case Finished(got, v) =>
        var done := [Message(s[3], got)];
        done + if |v.raw| < v.left then [] else Ideal(v.raw[v.left..], v.big, h, log + done)
  }

  /** Every handler call of the run reads its last segment to the end. */
  predicate Thorough(s: seq<byte>, big: bool, h: Handler, log: seq<Message>)
    decreases |s|
  {
    if |s| < HEADER_SIZE || s[0] != MAGIC then true
    else if IsControl(s[2]) then Thorough(s[8..], OrderAfter(s[2], s[3], big), h, log)
    else if NotFirst(s[2]) then SizeField(s, big) == 0 ==> Thorough(s[8..], big, h, log)
    else if SizeField(s, big) < 0 then true
    else
      match Consume(h, log, s[3], [], Cursor(SizeField(s, big), s[8..], big))
      case Stuck => true
      case Finished(got, v) => v.left == 0 && Thorough(v.raw, v.big, h, log + [Message(s[3], got)])
  }

  /** A receiver went from stream `s` and log `l` to stream `t` and log `m`. While it is
      open it owes exactly the messages it has not logged, and stands at a frame header;
      once closed, what it has logged is right, and complete if handlers are thorough. */
  ghost predicate Refines(h: Handler, s: seq<byte>, b: bool, l: seq<Message>,
                          t: seq<byte>, c: bool, m: seq<Message>, open: bool)
  {
    if open then
      && m + Ideal(t, c, h, m) == l + Ideal(s, b, h, l)
      && Synced(s, b, t, c)
      && (Thorough(s, b, h, l) ==> Thorough(t, c, h, m))
    else
      && m <= l + Ideal(s, b, h, l)
      && (Thorough(s, b, h, l) ==> m == l + Ideal(s, b, h, l))
  }

  lemma {:induction false} RefinesBySteps(h: Handler, s: seq<byte>, b: bool, l: seq<Message>,
                                          t: seq<byte>, c: bool, handled: seq<Message>)
    requires Ideal(s, b, h, l) == handled + Ideal(t, c, h, l + handled)
    requires Synced(s, b, t, c) && (Thorough(s, b, h, l) ==> Thorough(t, c, h, l + handled))
    ensures Refines(h, s, b, l, t, c, l + handled, true)
  {
    ConcatAssociative(l, handled, Ideal(t, c, h, l + handled));
  }

  lemma {:induction false} RefinesTransitive(h: Handler, s: seq<byte>, b: bool, l: seq<Message>,
                          t: seq<byte>, c: bool, m: seq<Message>,
                          u: seq<byte>, d: bool, k: seq<Message>, open: bool)
    requires Refines(h, s, b, l, t, c, m, true) && Refines(h, t, c, m, u, d, k, open)
    ensures Refines(h, s, b, l, u, d, k, open)
  {
    if open {
      SyncedTransitive(s, b, t, c, u, d);
    }
  }

  lemma {:induction false} SegmentSynced(s: seq<byte>, big: bool)
    requires NextSegment(s, big).Segment?
    requires |NextSegment(s, big).rest| >= NextSegment(s, big).size
    ensures var seg := NextSegment(s, big); Synced(s, big, seg.rest[seg.size..], seg.big)
    decreases |s|
  {
    if IsControl(s[2]) {
      SegmentSynced(s[8..], OrderAfter(s[2], s[3], big));
    } else {
      var n := SizeField(s, big);
      assert s[8..][n..] == s[8 + n..];
    }
  }

  /** From the end of one segment of a message to the end of a later one are whole frames. */
  lemma {:induction false} AdvanceSynced(v: Cursor, m: nat)
    requires m <= |Payload(v)| && v.left <= |v.raw|
    requires Advance(v, m).left <= |Advance(v, m).raw|
    ensures var w := Advance(v, m); Synced(v.raw[v.left..], v.big, w.raw[w.left..], w.big)
    decreases |v.raw|
  {
    var w := Advance(v, m);
    if m <= v.left {
      assert v.raw[m..][v.left - m..] == v.raw[v.left..];
    } else {
      var seg := NextSegment(v.raw[v.left..], v.big);
      var c := Cursor(seg.size, seg.rest, seg.big);
      SegmentSynced(v.raw[v.left..], v.big);
      AdvanceSynced(c, m - v.left);
      SyncedTransitive(v.raw[v.left..], v.big, c.raw[c.left..], c.big, w.raw[w.left..], w.big);
    }
  }

  lemma {:induction false} ConsumeSynced(h: Handler, log: seq<Message>, command: byte, got: seq<byte>, v: Cursor)
    requires v.left <= |v.raw| && Consume(h, log, command, got, v).Finished?
    requires var w := Consume(h, log, command, got, v).at; w.left <= |w.raw|
    ensures var w := Consume(h, log, command, got, v).at;
            Synced(v.raw[v.left..], v.big, w.raw[w.left..], w.big)
    decreases |v.raw|
  {
    var n := h(log, command, got);
    if n > 0 {
      var u := Advance(v, n);
      if |u.raw| < u.left {
        ConsumeStaysShort(h, log, command, got + Payload(v)[..n], u);
        assert false;
      }
      AdvanceSynced(v, n);
      ConsumeSynced(h, log, command, got + Payload(v)[..n], u);
      var w := Consume(h, log, command, got, v).at;
      SyncedTransitive(v.raw[v.left..], v.big, u.raw[u.left..], u.big, w.raw[w.left..], w.big);
    }
  }

  lemma {:induction false} ConsumeStaysShort(h: Handler, log: seq<Message>, command: byte, got: seq<byte>, v: Cursor)
    requires |v.raw| < v.left && Consume(h, log, command, got, v).Finished?
    ensures var w := Consume(h, log, command, got, v).at; w.left > |w.raw|
    decreases |v.raw|
  {
    var n := h(log, command, got);
    if n > 0 {
      ConsumeStaysShort(h, log, command, got + Payload(v)[..n], Advance(v, n));
    }
  }

  lemma {:induction false} ConsumeAhead(h: Handler, log: seq<Message>, command: byte, got: seq<byte>, v: Cursor)
    requires Consume(h, log, command, got, v).Finished?
    requires var w := Consume(h, log, command, got, v).at; w.left <= |w.raw|
    ensures v.left <= |v.raw|
  {
    if |v.raw| < v.left {
      ConsumeStaysShort(h, log, command, got, v);
    }
  }

  /** The header at the head of `s` starts a message. */
  predicate StartsMessage(s: seq<byte>, big: bool)
  {
    |s| >= HEADER_SIZE && s[0] == MAGIC && !IsControl(s[2]) && !NotFirst(s[2]) && SizeField(s, big) >= 0
  }

  function FirstCursor(s: seq<byte>, big: bool): Cursor
    requires StartsMessage(s, big)
  {
    Cursor(SizeField(s, big), s[8..], big)
  }

  lemma {:induction false} HandledSynced(h: Handler, s: seq<byte>, b: bool, l: seq<Message>, got: seq<byte>, w: Cursor)
    requires StartsMessage(s, b) && Consume(h, l, s[3], [], FirstCursor(s, b)) == Finished(got, w)
    requires w.left <= |w.raw|
    ensures Synced(s, b, w.raw[w.left..], w.big)
  {
    var v := FirstCursor(s, b);
    ConsumeAhead(h, l, s[3], [], v);
    ConsumeSynced(h, l, s[3], [], v);
    assert v.raw[v.left..] == s[8 + v.left..];
  }

  lemma {:induction false} HandledIdeal(h: Handler, s: seq<byte>, b: bool, l: seq<Message>, got: seq<byte>, w: Cursor)
    requires StartsMessage(s, b) && Consume(h, l, s[3], [], FirstCursor(s, b)) == Finished(got, w)
    requires w.left <= |w.raw|
    ensures Ideal(s, b, h, l) == [Message(s[3], got)] + Ideal(w.raw[w.left..], w.big, h, l + [Message(s[3], got)])
    ensures Thorough(s, b, h, l) <==> w.left == 0 && Thorough(w.raw[w.left..], w.big, h, l + [Message(s[3], got)])
  {
    assert w.left == 0 ==> w.raw[w.left..] == w.raw;
  }

  /** A message was handled and the receiver moved behind its last segment. */
  lemma {:induction false} MessageHandled(h: Handler, s: seq<byte>, b: bool, l: seq<Message>, got: seq<byte>, w: Cursor)
    requires StartsMessage(s, b) && Consume(h, l, s[3], [], FirstCursor(s, b)) == Finished(got, w)
    requires w.left <= |w.raw|
    ensures Refines(h, s, b, l, w.raw[w.left..], w.big, l + [Message(s[3], got)], true)
  {
    HandledSynced(h, s, b, l, got, w);
    HandledIdeal(h, s, b, l, got, w);
    RefinesBySteps(h, s, b, l, w.raw[w.left..], w.big, [Message(s[3], got)]);
  }

  /** A message was handled, but the receiver closed as the rest of its segment was missing. */
  lemma {:induction false} MessageCutOff(h: Handler, s: seq<byte>, b: bool, l: seq<Message>, got: seq<byte>, w: Cursor)
    requires StartsMessage(s, b) && Consume(h, l, s[3], [], FirstCursor(s, b)) == Finished(got, w)
    requires w.left > 0
    ensures Refines(h, s, b, l, [], b, l + [Message(s[3], got)], false)
  {
    assert [Message(s[3], got)] <= Ideal(s, b, h, l);
  }

  /** The handler asked for more than its message has, and the receiver closed. */
  lemma {:induction false} MessageStuck(h: Handler, s: seq<byte>, b: bool, l: seq<Message>)
    requires StartsMessage(s, b) && Consume(h, l, s[3], [], FirstCursor(s, b)).Stuck?
    ensures Refines(h, s, b, l, [], b, l, false)
  {
    assert Ideal(s, b, h, l) == [];
  }

  /** The frame at the head of `s` says nothing to a handler, and `c` is the byte order behind it. */
  predicate Skippable(s: seq<byte>, b: bool, c: bool)
  {
    && |s| >= HEADER_SIZE && s[0] == MAGIC
    && if IsControl(s[2]) then c == OrderAfter(s[2], s[3], b)
       else NotFirst(s[2]) && SizeField(s, b) == 0 && c == b
  }

  lemma {:induction false} SkippedIdeal(h: Handler, s: seq<byte>, b: bool, c: bool, l: seq<Message>)
    requires Skippable(s, b, c)
    ensures Ideal(s, b, h, l) == Ideal(s[8..], c, h, l)
    ensures Thorough(s, b, h, l) <==> Thorough(s[8..], c, h, l)
  {
  }

  /** A control message, or a continuation without payload, only moves the receiver on. */
  lemma {:induction false} FrameSkipped(h: Handler, s: seq<byte>, b: bool, c: bool, l: seq<Message>)
    requires Skippable(s, b, c)
    ensures Refines(h, s, b, l, s[8..], c, l, true)
  {
    SkippedIdeal(h, s, b, c, l);
    assert [] + Ideal(s[8..], c, h, l) == Ideal(s[8..], c, h, l);
    assert l + [] == l;
    RefinesBySteps(h, s, b, l, s[8..], c, []);
  }

  /** The stream ends, or a frame that may not come here closes the receiver. */
  lemma {:induction false} StreamStops(h: Handler, s: seq<byte>, b: bool, l: seq<Message>)
    requires |s| < HEADER_SIZE || s[0] != MAGIC || (!IsControl(s[2]) && NotFirst(s[2]) && SizeField(s, b) != 0)
    ensures Refines(h, s, b, l, [], b, l, false)
  {
    assert Ideal(s, b, h, l) == [];
  }
}
