/** What one codec sends is what another one dispatches. */
module RoundTrip {
  import opened Bytes
  import opened Frames
  import opened Dispatch
  import opened Framing
  import Sender
  import Receiver

  /** The messages among the items; control messages reach no handler. */
  function Messages(items: seq<Item>): seq<Message>
  {
    if items == [] then []
    else (if items[0].Data? then [items[0].message] else []) + Messages(items[1..])
  }

  lemma {:induction false} MessagesAppend(a: seq<Item>, b: seq<Item>)
    ensures Messages(a + b) == Messages(a) + Messages(b)
  {
    if a == [] {
      assert a + b == b;
    } else {
      MessagesAppend(a[1..], b);
      assert (a + b)[1..] == a[1..] + b;
      ConcatAssociative(if a[0].Data? then [a[0].message] else [], Messages(a[1..]), Messages(b));
    }
  }

  lemma {:induction false} MessagesOne(a: seq<Item>, i: Item)
    ensures Messages(a + [i]) == Messages(a) + if i.Data? then [i.message] else []
  {
    MessagesAppend(a, [i]);
    assert [i][1..] == [];
  }

  /** The handler, after the messages `log` and having read `got`, reads `payload` to its end and no further. */
  predicate ReadsAll(h: Handler, log: seq<Message>, command: byte, got: seq<byte>, payload: seq<byte>)
    requires |got| <= |payload|
    decreases |payload| - |got|
  {
    var n := h(log, command, got);
    if n == 0 then got == payload
    else |got| + n <= |payload| && ReadsAll(h, log, command, payload[..|got| + n], payload)
  }

  /** The state of the grammar behind a frame of a message whose payload so far is `body`. */
  function Behind(items: seq<Item>, c: byte, body: seq<byte>, inside: bool): Parse
  {
    if inside then Inside(items, c, body) else Between(items + [Data(Message(c, body))])
  }

  lemma {:induction false} ItemsStay(p: Parse, fs: seq<Frame>, big: bool)
    requires ParseFrom(p, fs, big).Between?
    ensures !p.Bad? && p.items <= ParseFrom(p, fs, big).items
    decreases |fs|
  {
    if fs != [] {
      ItemsStay(Step(p, fs[0], big), fs[1..], big);
    }
  }

  /** Inside a message the next frame goes on with it. */
  lemma {:induction false} InsideStep(items: seq<Item>, c: byte, body: seq<byte>, fs: seq<Frame>, big: bool)
    requires ParseFrom(Inside(items, c, body), fs, big).Between?
    ensures fs != [] && WellFormed(fs[0], big) && !IsControl(fs[0].flags) && NotFirst(fs[0].flags)
    ensures Step(Inside(items, c, body), fs[0], big) == Behind(items, c, body + fs[0].payload, HasFirst(fs[0].flags))
    ensures ParseFrom(Inside(items, c, body), fs, big)
         == ParseFrom(Behind(items, c, body + fs[0].payload, HasFirst(fs[0].flags)), fs[1..], big)
  {
    ItemsStay(Step(Inside(items, c, body), fs[0], big), fs[1..], big);
  }

  /** A message under way ends up in the items, with what it had so far as a prefix. */
  lemma {:induction false} BodyGrows(items: seq<Item>, c: byte, body: seq<byte>, inside: bool, fs: seq<Frame>, big: bool)
    requires ParseFrom(Behind(items, c, body, inside), fs, big).Between?
    ensures var all := ParseFrom(Behind(items, c, body, inside), fs, big).items;
            && |items| < |all| && items <= all && all[|items|].Data?
            && all[|items|].message.command == c && body <= all[|items|].message.payload
            && (!inside ==> body == all[|items|].message.payload)
    decreases |fs|
  {
    ItemsStay(Behind(items, c, body, inside), fs, big);
    if inside {
      InsideStep(items, c, body, fs, big);
      BodyGrows(items, c, body + fs[0].payload, HasFirst(fs[0].flags), fs[1..], big);
    }
  }

  /** Reading the header that starts an encoded frame. */
  lemma {:induction false} HeaderOf(f: Frame, fs: seq<Frame>, big: bool)
    requires WellFormed(f, big)
    ensures var s := EncodeAll([f] + fs, big);
            && |s| >= HEADER_SIZE && s[0] == MAGIC && s[1] == 1 && s[2] == f.flags && s[3] == f.command
            && s[8..] == f.payload + EncodeAll(fs, big)
            && (!IsControl(f.flags) ==> SizeField(s, big) == |f.payload|)
  {
    assert ([f] + fs)[1..] == fs;
    var s := EncodeAll([f] + fs, big);
    var h := HeaderBytes(f.flags, f.command, f.size, big);
    assert s == h + (f.payload + EncodeAll(fs, big));
    assert s[4..8] == WordBytes(f.size, big);
  }

  lemma {:induction false} HeaderHere(fs: seq<Frame>, big: bool)
    requires fs != [] && WellFormed(fs[0], big)
    ensures var s := EncodeAll(fs, big);
            && |s| >= HEADER_SIZE && s[0] == MAGIC && s[2] == fs[0].flags && s[3] == fs[0].command
            && s[8..] == fs[0].payload + EncodeAll(fs[1..], big)
            && (!IsControl(fs[0].flags) ==> SizeField(s, big) == |fs[0].payload|)
  {
    HeaderOf(fs[0], fs[1..], big);
    assert [fs[0]] + fs[1..] == fs;
  }

  /** A control frame of the codec leaves the byte order alone. */
  lemma {:induction false} OrderKept(f: Frame, big: bool)
    requires WellFormed(f, big)
    ensures OrderAfter(f.flags, f.command, big) == big
  {
  }

  /** Between messages no frame continues the last one. */
  lemma {:induction false} NoContinuation(items: seq<Item>, fs: seq<Frame>, big: bool)
    requires ParseFrom(Between(items), fs, big).Between?
    ensures !NextSegment(EncodeAll(fs, big), big).Segment?
    decreases |fs|
  {
    if fs != [] {
      ItemsStay(Step(Between(items), fs[0], big), fs[1..], big);
      HeaderHere(fs, big);
      if IsControl(fs[0].flags) {
        assert [] + EncodeAll(fs[1..], big) == EncodeAll(fs[1..], big);
        NoContinuation(items + [Control(fs[0].command, fs[0].size)], fs[1..], big);
      }
    }
  }

  /** Inside a message the next frame continues it. */
  lemma {:induction false} NextContinues(items: seq<Item>, c: byte, body: seq<byte>, fs: seq<Frame>, big: bool)
    requires ParseFrom(Inside(items, c, body), fs, big).Between?
    ensures fs != []
    ensures NextSegment(EncodeAll(fs, big), big)
         == Segment(|fs[0].payload|, fs[0].payload + EncodeAll(fs[1..], big), big)
  {
    InsideStep(items, c, body, fs, big);
    HeaderHere(fs, big);
  }

  /** A reader that has `v.left` bytes of a segment before it and frames `fs` behind that. */
  predicate At(v: Cursor, fs: seq<Frame>, big: bool)
  {
    v.big == big && v.left <= |v.raw| && v.raw[v.left..] == EncodeAll(fs, big)
  }

  lemma {:induction false} AtNext(f: Frame, fs: seq<Frame>, big: bool)
    ensures At(Cursor(|f.payload|, f.payload + EncodeAll(fs, big), big), fs, big)
    ensures Cursor(|f.payload|, f.payload + EncodeAll(fs, big), big).raw[..|f.payload|] == f.payload
  {
  }

  /** The frame that the next segment of the message at hand starts. */
  function NextCursor(fs: seq<Frame>, big: bool): Cursor
    requires fs != []
  {
    Cursor(|fs[0].payload|, fs[0].payload + EncodeAll(fs[1..], big), big)
  }

  lemma {:induction false} PayloadUnfolds(v: Cursor, items: seq<Item>, c: byte, body: seq<byte>, inside: bool,
                                          fs: seq<Frame>, big: bool)
    requires At(v, fs, big) && ParseFrom(Behind(items, c, body, inside), fs, big).Between?
    requires inside ==> fs != []
    ensures Payload(v) == v.raw[..v.left] + if inside then Payload(NextCursor(fs, big)) else []
  {
    assert v.raw == v.raw[..v.left] + v.raw[v.left..];
    if inside {
      NextContinues(items, c, body, fs, big);
    } else {
      NoContinuation(items + [Data(Message(c, body))], fs, big);
    }
  }

  lemma {:induction false} PayloadLeft(v: Cursor, items: seq<Item>, c: byte, body: seq<byte>, inside: bool,
                                       fs: seq<Frame>, big: bool)
    requires At(v, fs, big) && ParseFrom(Behind(items, c, body, inside), fs, big).Between?
    ensures var all := ParseFrom(Behind(items, c, body, inside), fs, big).items;
            && |items| < |all| && all[|items|].Data? && |body| <= |all[|items|].message.payload|
            && Payload(v) == v.raw[..v.left] + all[|items|].message.payload[|body|..]
    decreases |fs|
  {
    BodyGrows(items, c, body, inside, fs, big);
    if inside {
      InsideStep(items, c, body, fs, big);
      AtNext(fs[0], fs[1..], big);
      var more := body + fs[0].payload;
      BodyGrows(items, c, more, HasFirst(fs[0].flags), fs[1..], big);
      PayloadLeft(NextCursor(fs, big), items, c, more, HasFirst(fs[0].flags), fs[1..], big);
      var m := ParseFrom(Inside(items, c, body), fs, big).items[|items|].message.payload;
      assert m[|body|..] == fs[0].payload + m[|more|..];
    }
    PayloadUnfolds(v, items, c, body, inside, fs, big);
  }

  /** `v` stands in a message behind `got`: with what is left of its segment, `body` is the
      payload known so far. */
  predicate Within(v: Cursor, got: seq<byte>, body: seq<byte>, fs: seq<Frame>, big: bool)
  {
    At(v, fs, big) && body == got + v.raw[..v.left]
  }

  lemma {:induction false} AdvanceHere(v: Cursor, n: nat, got: seq<byte>, body: seq<byte>, fs: seq<Frame>, big: bool)
    requires Within(v, got, body, fs, big) && n <= v.left && n <= |Payload(v)|
    ensures Within(Advance(v, n), got + Payload(v)[..n], body, fs, big)
  {
    var segment, w := v.raw[..v.left], Advance(v, n);
    SplitSegment(v.raw, v.left, n);
    assert Payload(v)[..n] == segment[..n];
    assert got + segment[..n] + segment[n..] == got + segment;
  }

  lemma {:induction false} SplitSegment(raw: seq<byte>, left: nat, n: nat)
    requires n <= left <= |raw|
    ensures raw[n..][left - n..] == raw[left..] && raw[n..][..left - n] == raw[..left][n..]
    ensures raw[..left] == raw[..left][..n] + raw[..left][n..]
  {
  }

  /** A read beyond the segment is possible only inside a message that goes on. */
  lemma {:induction false} MustContinue(v: Cursor, n: nat, items: seq<Item>, c: byte, body: seq<byte>, inside: bool,
                                        fs: seq<Frame>, big: bool)
    requires ParseFrom(Behind(items, c, body, inside), fs, big).Between?
    requires At(v, fs, big) && v.left < n <= |Payload(v)|
    ensures inside
  {
    PayloadLeft(v, items, c, body, inside, fs, big);
    BodyGrows(items, c, body, inside, fs, big);
  }

  /** A read beyond the segment goes on in the next frame. */
  lemma {:induction false} AdvanceToNext(v: Cursor, n: nat, items: seq<Item>, c: byte, got: seq<byte>, body: seq<byte>,
                                         fs: seq<Frame>, big: bool)
    requires ParseFrom(Inside(items, c, body), fs, big).Between? && fs != []
    requires Within(v, got, body, fs, big) && v.left < n <= |Payload(v)|
    ensures var w := NextCursor(fs, big);
            && Within(w, body, body + fs[0].payload, fs[1..], big)
            && n - v.left <= |Payload(w)| && Advance(v, n) == Advance(w, n - v.left)
            && body + Payload(w)[..n - v.left] == got + Payload(v)[..n]
  {
    AtNext(fs[0], fs[1..], big);
    PayloadUnfolds(v, items, c, body, true, fs, big);
    AdvanceSkips(v, n, items, c, body, fs, big);
    SplitRead(got, v.raw[..v.left], Payload(NextCursor(fs, big)), n);
  }

  lemma {:induction false} SplitRead(got: seq<byte>, a: seq<byte>, b: seq<byte>, n: nat)
    requires |a| <= n <= |a| + |b|
    ensures (got + a) + b[..n - |a|] == got + (a + b)[..n]
  {
    assert (a + b)[..n] == a + b[..n - |a|];
  }

  lemma {:induction false} AdvanceSkips(v: Cursor, n: nat, items: seq<Item>, c: byte, body: seq<byte>,
                                        fs: seq<Frame>, big: bool)
    requires ParseFrom(Inside(items, c, body), fs, big).Between? && fs != []
    requires At(v, fs, big) && v.left < n <= |Payload(v)| && n - v.left <= |Payload(NextCursor(fs, big))|
    ensures Advance(v, n) == Advance(NextCursor(fs, big), n - v.left)
  {
    NextContinues(items, c, body, fs, big);
    AdvanceOver(v, n, NextCursor(fs, big));
  }

  lemma {:induction false} AdvanceWithin(v: Cursor, n: nat, items: seq<Item>, c: byte, got: seq<byte>, body: seq<byte>,
                                         inside: bool, fs: seq<Frame>, big: bool)
    returns (body': seq<byte>, inside': bool, fs': seq<Frame>)
    requires ParseFrom(Behind(items, c, body, inside), fs, big).Between?
    requires Within(v, got, body, fs, big) && n <= |Payload(v)|
    ensures Within(Advance(v, n), got + Payload(v)[..n], body', fs', big) && |fs'| <= |fs|
    ensures ParseFrom(Behind(items, c, body', inside'), fs', big) == ParseFrom(Behind(items, c, body, inside), fs, big)
    decreases |fs|, 1
  {
    if n <= v.left {
      body', inside', fs' := body, inside, fs;
      AdvanceHere(v, n, got, body, fs, big);
    } else {
      MustContinue(v, n, items, c, body, inside, fs, big);
      body', inside', fs' := AdvanceBeyond(v, n, items, c, got, body, fs, big);
    }
  }

  lemma {:induction false} AdvanceBeyond(v: Cursor, n: nat, items: seq<Item>, c: byte, got: seq<byte>, body: seq<byte>,
                                         fs: seq<Frame>, big: bool)
    returns (body': seq<byte>, inside': bool, fs': seq<Frame>)
    requires ParseFrom(Inside(items, c, body), fs, big).Between?
    requires Within(v, got, body, fs, big) && v.left < n <= |Payload(v)|
    ensures Within(Advance(v, n), got + Payload(v)[..n], body', fs', big) && |fs'| <= |fs|
    ensures ParseFrom(Behind(items, c, body', inside'), fs', big) == ParseFrom(Inside(items, c, body), fs, big)
    decreases |fs|, 0
  {
    InsideStep(items, c, body, fs, big);
    AdvanceToNext(v, n, items, c, got, body, fs, big);
    var w, more, first := NextCursor(fs, big), body + fs[0].payload, HasFirst(fs[0].flags);
    var at, read, k := Advance(v, n), got + Payload(v)[..n], n - v.left;
    assert at == Advance(w, k) && read == body + Payload(w)[..k];
    body', inside', fs' := AdvanceWithin(w, k, items, c, body, more, first, fs[1..], big);
    assert Within(at, read, body', fs', big);
  }

  /** What a handler reads next is the next part of the message. */
  lemma {:induction false} ReadNext(got: seq<byte>, v: Cursor, n: nat, items: seq<Item>, c: byte, body: seq<byte>,
                                    inside: bool, fs: seq<Frame>, big: bool, m: seq<byte>)
    requires var p := ParseFrom(Behind(items, c, body, inside), fs, big);
             p.Between? && |p.items| > |items| && p.items[|items|] == Data(Message(c, m))
    requires Within(v, got, body, fs, big) && |got| + n <= |m|
    ensures n <= |Payload(v)| && got + Payload(v)[..n] == m[..|got| + n]
  {
    BodyGrows(items, c, body, inside, fs, big);
    PayloadLeft(v, items, c, body, inside, fs, big);
    assert m == body + m[|body|..] == got + Payload(v);
  }

  /** A handler that reads all of a message ends with all of it, in front of whole frames. */
  lemma {:induction false} ConsumeWhole(h: Handler, log: seq<Message>, got: seq<byte>, v: Cursor, items: seq<Item>, c: byte,
                                        body: seq<byte>, inside: bool, fs: seq<Frame>, big: bool, m: seq<byte>)
    returns (inside': bool, fs': seq<Frame>)
    requires var p := ParseFrom(Behind(items, c, body, inside), fs, big);
             p.Between? && |p.items| > |items| && p.items[|items|] == Data(Message(c, m))
    requires Within(v, got, body, fs, big) && |got| <= |m| && ReadsAll(h, log, c, got, m)
    ensures Consume(h, log, c, got, v) == Finished(m, Cursor(0, EncodeAll(fs', big), big)) && |fs'| <= |fs|
    ensures ParseFrom(Behind(items, c, m, inside'), fs', big) == ParseFrom(Behind(items, c, body, inside), fs, big)
    decreases |m| - |got|
  {
    var n := h(log, c, got);
    if n == 0 {
      inside', fs' := inside, fs;
      BodyGrows(items, c, body, inside, fs, big);
      assert v.left == 0 && v.raw[0..] == v.raw && got + [] == got;
    } else {
      ReadNext(got, v, n, items, c, body, inside, fs, big, m);
      var body1, inside1, fs1 := AdvanceWithin(v, n, items, c, got, body, inside, fs, big);
      inside', fs' := ConsumeWhole(h, log, m[..|got| + n], Advance(v, n), items, c, body1, inside1, fs1, big, m);
    }
  }

  /** The items of a state in which everything received so far has been handled. */
  function Handled(p: Parse): seq<Item>
    requires !p.Bad?
  {
    if p.Between? then p.items else p.items + [Data(Message(p.command, p.body))]
  }

  /** Every message from index `from` on is read to its end. */
  ghost predicate AllRead(h: Handler, items: seq<Item>, from: nat)
  {
    forall i :: from <= i < |items| && items[i].Data? ==>
      ReadsAll(h, Messages(items[..i]), items[i].message.command, [], items[i].message.payload)
  }

  /** Handlers that know what will come and read it in the largest pieces allowed. */
  function Expecting(ms: seq<Message>): Handler
  {
    (log: seq<Message>, command: byte, got: seq<byte>) =>
      if |log| < |ms| && |got| < |ms[|log|].payload|
      then Min(Receiver.MAX_ENSURE_DATA_SIZE, |ms[|log|].payload| - |got|)
      else 0
  }

  lemma {:induction false} ExpectingReads(ms: seq<Message>, log: seq<Message>, command: byte, k: nat)
    requires |log| < |ms| && k <= |ms[|log|].payload|
    ensures var m := ms[|log|].payload; ReadsAll(Expecting(ms), log, command, m[..k], m)
    decreases |ms[|log|].payload| - k
  {
    var m := ms[|log|].payload;
    if k < |m| {
      ExpectingReads(ms, log, command, k + Expecting(ms)(log, command, m[..k]));
    }
  }

  /** Whatever is sent, some handlers within the codec's limits read all of it. */
  lemma {:induction false} SomeHandlerReads(items: seq<Item>) returns (h: Handler)
    ensures Receiver.Bounded(h) && AllRead(h, items, 0)
  {
    var ms := Messages(items);
    h := Expecting(ms);
    forall i | 0 <= i < |items| && items[i].Data?
      ensures ReadsAll(h, Messages(items[..i]), items[i].message.command, [], items[i].message.payload)
    {
      assert items == items[..i] + items[i..];
      MessagesAppend(items[..i], items[i..]);
      var log := Messages(items[..i]);
      assert ms[|log|] == items[i].message;
      ExpectingReads(ms, log, items[i].message.command, 0);
    }
  }

  /** Main step: a handler that reads whole messages is handed exactly the messages sent. */
  lemma {:induction false} IdealIsSent(h: Handler, p: Parse, fs: seq<Frame>, big: bool)
    requires ParseFrom(p, fs, big).Between? && !p.Bad?
    requires var all := ParseFrom(p, fs, big).items;
             Handled(p) <= all && AllRead(h, all, |Handled(p)|)
    ensures Messages(ParseFrom(p, fs, big).items) == Messages(Handled(p)) + Ideal(EncodeAll(fs, big), big, h, Messages(Handled(p)))
    ensures Thorough(EncodeAll(fs, big), big, h, Messages(Handled(p)))
    decreases |fs|
  {
    var all := ParseFrom(p, fs, big).items;
    if fs == [] {
    } else if p.Inside? {
      DrainedStep(h, p, fs, big);
    } else if IsControl(fs[0].flags) {
      ControlIsSkipped(h, p, fs, big);
    } else {
      MessageIsSent(h, p, fs, big);
    }
  }

  lemma {:induction false} DrainedStep(h: Handler, p: Parse, fs: seq<Frame>, big: bool)
    requires p.Inside? && ParseFrom(p, fs, big).Between?
    requires var all := ParseFrom(p, fs, big).items;
             Handled(p) <= all && AllRead(h, all, |Handled(p)|)
    ensures Messages(ParseFrom(p, fs, big).items) == Messages(Handled(p)) + Ideal(EncodeAll(fs, big), big, h, Messages(Handled(p)))
    ensures Thorough(EncodeAll(fs, big), big, h, Messages(Handled(p)))
    decreases |fs|, 0
  {
    var c, body := p.command, p.body;
    InsideStep(p.items, c, body, fs, big);
    BodyGrows(p.items, c, body + fs[0].payload, HasFirst(fs[0].flags), fs[1..], big);
    assert ParseFrom(p, fs, big).items[|p.items|] == Handled(p)[|p.items|];
    assert fs[0].payload == [] && body + [] == body;
    HeaderHere(fs, big);
    assert [] + EncodeAll(fs[1..], big) == EncodeAll(fs[1..], big);
    SkippedIdeal(h, EncodeAll(fs, big), big, big, Messages(Handled(p)));
    IdealIsSent(h, Behind(p.items, c, body, HasFirst(fs[0].flags)), fs[1..], big);
  }

  lemma {:induction false} ControlAhead(items: seq<Item>, fs: seq<Frame>, big: bool) returns (i: Item)
    requires fs != [] && IsControl(fs[0].flags) && ParseFrom(Between(items), fs, big).Between?
    ensures i == Control(fs[0].command, fs[0].size)
    ensures Skippable(EncodeAll(fs, big), big, big) && EncodeAll(fs, big)[8..] == EncodeAll(fs[1..], big)
    ensures ParseFrom(Between(items), fs, big) == ParseFrom(Between(items + [i]), fs[1..], big)
    ensures items + [i] <= ParseFrom(Between(items), fs, big).items
  {
    i := Control(fs[0].command, fs[0].size);
    ItemsStay(Step(Between(items), fs[0], big), fs[1..], big);
    HeaderHere(fs, big);
    OrderKept(fs[0], big);
    assert [] + EncodeAll(fs[1..], big) == EncodeAll(fs[1..], big);
  }

  lemma {:induction false} ControlIsSkipped(h: Handler, p: Parse, fs: seq<Frame>, big: bool)
    requires p.Between? && fs != [] && IsControl(fs[0].flags) && ParseFrom(p, fs, big).Between?
    requires AllRead(h, ParseFrom(p, fs, big).items, |p.items|)
    ensures Messages(ParseFrom(p, fs, big).items) == Messages(p.items) + Ideal(EncodeAll(fs, big), big, h, Messages(p.items))
    ensures Thorough(EncodeAll(fs, big), big, h, Messages(p.items))
    decreases |fs|, 0
  {
    var i := ControlAhead(p.items, fs, big);
    SkippedIdeal(h, EncodeAll(fs, big), big, big, Messages(p.items));
    IdealIsSent(h, Between(p.items + [i]), fs[1..], big);
    MessagesOne(p.items, i);
    assert Messages(p.items) + [] == Messages(p.items);
  }

  /** The first message of the stream is read whole, and whole frames are left. */
  lemma {:induction false} FirstMessage(h: Handler, items: seq<Item>, fs: seq<Frame>, big: bool, m: Message)
    returns (inside: bool, fs': seq<Frame>)
    requires fs != [] && !IsControl(fs[0].flags)
    requires var p := ParseFrom(Between(items), fs, big);
             p.Between? && |p.items| > |items| && p.items[|items|] == Data(m) && ReadsAll(h, Messages(items), m.command, [], m.payload)
    ensures var s := EncodeAll(fs, big);
            && StartsMessage(s, big) && s[3] == m.command && |fs'| < |fs|
            && Consume(h, Messages(items), m.command, [], FirstCursor(s, big)) == Finished(m.payload, Cursor(0, EncodeAll(fs', big), big))
    ensures ParseFrom(Behind(items, m.command, m.payload, inside), fs', big) == ParseFrom(Between(items), fs, big)
  {
    var f, rest, first := fs[0], fs[1..], HasFirst(fs[0].flags);
    ItemsStay(Step(Between(items), f, big), rest, big);
    assert Step(Between(items), f, big) == Behind(items, f.command, f.payload, first);
    BodyGrows(items, f.command, f.payload, first, rest, big);
    HeaderHere(fs, big);
    AtNext(f, rest, big);
    var v := NextCursor(fs, big);
    assert [] + f.payload == f.payload;
    inside, fs' := ConsumeWhole(h, Messages(items), [], v, items, f.command, f.payload, first, rest, big, m.payload);
    assert FirstCursor(EncodeAll(fs, big), big) == v;
  }

  lemma {:induction false} FirstIsData(items: seq<Item>, fs: seq<Frame>, big: bool) returns (m: Message)
    requires fs != [] && !IsControl(fs[0].flags) && ParseFrom(Between(items), fs, big).Between?
    ensures var all := ParseFrom(Between(items), fs, big).items;
            |all| > |items| && all[|items|] == Data(m) && items + [Data(m)] <= all
  {
    var f, rest, first := fs[0], fs[1..], HasFirst(fs[0].flags);
    ItemsStay(Step(Between(items), f, big), rest, big);
    assert Step(Between(items), f, big) == Behind(items, f.command, f.payload, first);
    BodyGrows(items, f.command, f.payload, first, rest, big);
    m := ParseFrom(Between(items), fs, big).items[|items|].message;
  }

  lemma {:induction false} MessageIsSent(h: Handler, p: Parse, fs: seq<Frame>, big: bool)
    requires p.Between? && fs != [] && !IsControl(fs[0].flags) && ParseFrom(p, fs, big).Between?
    requires AllRead(h, ParseFrom(p, fs, big).items, |p.items|)
    ensures Messages(ParseFrom(p, fs, big).items) == Messages(p.items) + Ideal(EncodeAll(fs, big), big, h, Messages(p.items))
    ensures Thorough(EncodeAll(fs, big), big, h, Messages(p.items))
    decreases |fs|, 0
  {
    var m := FirstIsData(p.items, fs, big);
    assert ParseFrom(p, fs, big).items[..|p.items|] == p.items;
    var inside, fs' := FirstMessage(h, p.items, fs, big, m);
    var t := EncodeAll(fs', big);
    assert t[0..] == t;
    HandledIdeal(h, EncodeAll(fs, big), big, Messages(p.items), m.payload, Cursor(0, t, big));
    IdealIsSent(h, Behind(p.items, m.command, m.payload, inside), fs', big);
    MessagesOne(p.items, Data(m));
    ConcatAssociative(Messages(p.items), [m], Ideal(t, big, h, Messages(p.items) + [m]));
  }

  /** Frames of the grammar carry sizes that no sign bit spoils. */
  lemma {:induction false} SizesAreOk(p: Parse, fs: seq<Frame>, big: bool)
    requires ParseFrom(p, fs, big).Between?
    ensures SizesOk(EncodeAll(fs, big), big)
    decreases |fs|
  {
    if fs != [] {
      ItemsStay(Step(p, fs[0], big), fs[1..], big);
      SizesAreOk(Step(p, fs[0], big), fs[1..], big);
      HeaderHere(fs, big);
      OrderKept(fs[0], big);
      var s, n := EncodeAll(fs, big), |fs[0].payload|;
      assert s[8 + n..] == s[8..][n..] == EncodeAll(fs[1..], big);
    }
  }

  /** The stream starts by telling the byte order. */
  predicate TellsOrder(items: seq<Item>)
  {
    items != [] && items[0].Control? && items[0].command == CMD_SET_ENDIANESS
  }

  lemma {:induction false} FirstOrder(h: Handler, items: seq<Item>, fs: seq<Frame>, big: bool, order: bool)
    requires ParseAll(fs, big) == Between(items) && (order == big || TellsOrder(items))
    ensures Ideal(EncodeAll(fs, big), order, h, []) == Ideal(EncodeAll(fs, big), big, h, [])
    ensures Thorough(EncodeAll(fs, big), order, h, []) == Thorough(EncodeAll(fs, big), big, h, [])
    ensures SizesOk(EncodeAll(fs, big), order) == SizesOk(EncodeAll(fs, big), big)
  {
    if order != big {
      if !IsControl(fs[0].flags) {
        var m := FirstIsData([], fs, big);
        assert false;
      }
      ItemsStay(Step(Between([]), fs[0], big), fs[1..], big);
      HeaderHere(fs, big);
      var s := EncodeAll(fs, big);
      SkippedIdeal(h, s, order, big, []);
      SkippedIdeal(h, s, big, big, []);
    }
  }

  /** What a peer sends for a list of jobs. */
  method Transmit(jobs: seq<Sender.Job>, size: nat, big: bool, server: bool)
    returns (ok: bool, bytes: seq<byte>, ghost fs: seq<Frame>)
    requires size < MAX_PAYLOAD && forall job :: job in jobs ==> Sender.Sendable(job)
    ensures ok ==> bytes == EncodeAll(fs, big) && ParseAll(fs, big) == Between(Sender.Items(jobs))
    ensures (forall job :: job in jobs ==> Sender.FitsIn(job, BufferSize(size))) ==> ok
  {
    var tx := new Sender.Codec(size, big, server);
    ok := tx.ProcessSendQueue(jobs);
    bytes, fs := tx.sent, tx.frames;
    assert [] + Sender.Items(jobs) == Sender.Items(jobs);
  }

  /** What a peer's handlers see of a stream. */
  method Deliver(wire: seq<seq<byte>>, size: nat, order: bool, h: Handler,
                 ghost items: seq<Item>, ghost fs: seq<Frame>, ghost big: bool)
    returns (log: seq<Message>)
    requires Flatten(wire) == EncodeAll(fs, big) && ParseAll(fs, big) == Between(items)
    requires AllRead(h, items, 0) && Receiver.Bounded(h) && (order == big || TellsOrder(items))
    ensures log == Messages(items)
  {
    var s: seq<byte> := Flatten(wire);
    IdealIsSent(h, Between([]), fs, big);
    SizesAreOk(Between([]), fs, big);
    FirstOrder(h, items, fs, big, order);
    var rx := new Receiver.Codec(size, wire, order);
    assert rx.buf[rx.pos..rx.lim] == [] && [] + s == s;
    rx.ReceiveThread(h);
    log := rx.log;
    assert [] + Ideal(s, order, h, []) == Ideal(s, order, h, []);
  }

  /** For every list of jobs, every way their writes and the send buffer cut them into
      segments, and every way the network cuts the bytes into chunks, the receiver hands
      its handlers exactly the messages sent, in order. The receiver may start in either
      byte order if the first thing it is told is the order to use. */
  method Exchange(jobs: seq<Sender.Job>, sendSize: nat, receiveSize: nat, big: bool, server: bool, order: bool,
                  h: Handler, cut: seq<byte> -> seq<seq<byte>>)
    returns (ok: bool, log: seq<Message>)
    requires sendSize < MAX_PAYLOAD && forall job :: job in jobs ==> Sender.Sendable(job)
    requires AllRead(h, Sender.Items(jobs), 0) && Receiver.Bounded(h)
    requires forall s :: Flatten(cut(s)) == s
    requires order == big || TellsOrder(Sender.Items(jobs))
    ensures ok ==> log == Messages(Sender.Items(jobs))
    ensures (forall job :: job in jobs ==> Sender.FitsIn(job, BufferSize(sendSize))) ==> ok
  {
    var bytes: seq<byte>;
    ghost var fs: seq<Frame>;
    ok, bytes, fs := Transmit(jobs, sendSize, big, server);
    log := [];
    if ok {
      log := Deliver(cut(bytes), receiveSize, order, h, Sender.Items(jobs), fs, big);
    }
  }
}
