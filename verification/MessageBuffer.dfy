/** One writer and one reader on a message buffer, without a lock.

    The two sides share only the cells, the head index and the tail index.  A
    step samples the other side's index, copies one byte, or publishes an
    index, so the two sides may be interleaved anywhere in between.
 */
module MessageBuffer {
  import opened Framing
  import opened RingArithmetic

  datatype Writer =
    | Quiet
    | WritingLength(message: Message, copied: nat)
    | WritingData(message: Message, copied: nat)

  datatype Reader =
    | Waiting
    | ReadingLength(available: nat, got: seq<Byte>)
    | ReadingData(count: nat, got: seq<Byte>)
    | Restoring(originalTail: nat)

  /** What has happened so far: the messages admitted, the bytes of their
      frames, how many of those bytes the writer has published and the reader
      has given back, and the messages received. */
  datatype History = History(
    sent: seq<Message>,
    stream: seq<Byte>,
    published: nat,
    consumed: int,
    received: seq<Message>
  )

  datatype Buffer = Buffer(
    width: nat,            // sizeof( size_t ), the bytes of a length prefix
    length: nat,
    cells: seq<Byte>,
    head: nat,
    tail: nat,
    writer: Writer,
    reader: Reader,
    past: History
  ) {
    /** The bytes the writer is copying. */
    function Source(): seq<Byte>
      requires !writer.Quiet?
    {
      if writer.WritingLength? then Encode(|writer.message|, width) else writer.message
    }

    /** How many bytes the reader is copying. */
    function Wanted(): nat
      requires reader.ReadingLength? || reader.ReadingData?
    {
      if reader.ReadingLength? then width else reader.count
    }

    /** Bytes copied in but not yet published. */
    function Unpublished(): nat {
      if writer.Quiet? then 0 else writer.copied
    }

    /** Indices and counts are in range. */
    predicate Shaped() {
      && |cells| == length && head < length && tail < length
      && (!writer.Quiet? ==> writer.copied <= |Source()| <= length && |writer.message| < length)
      && (reader.ReadingLength? ==> width < reader.available <= length)
      && (reader.ReadingLength? || reader.ReadingData? ==> |reader.got| <= Wanted() <= length)
      && (reader.Restoring? ==> reader.originalTail < length)
    }
  }

  datatype Step =
    | Offer(message: Message)   // xStreamBufferSend samples the free space
    | CopyIn                    // one byte of either memcpy in prvWriteBytesToBuffer
    | PublishHead
    | Look                      // xStreamBufferReceive samples the bytes available
    | CopyOut                   // one byte of either memcpy in prvReadBytesFromBuffer
    | PublishTail(room: nat)    // room is the size of the caller's buffer
    | RestoreTail

  predicate Enabled(b: Buffer, step: Step) {
    match step
    case Offer(message) => b.writer.Quiet? && message != []
    case CopyIn => !b.writer.Quiet? && b.writer.copied < |b.Source()|
    case PublishHead => !b.writer.Quiet? && b.writer.copied == |b.Source()|
    case Look => b.reader.Waiting?
    case CopyOut => (b.reader.ReadingLength? || b.reader.ReadingData?) && |b.reader.got| < b.Wanted()
    case PublishTail(_) => (b.reader.ReadingLength? || b.reader.ReadingData?) && |b.reader.got| == b.Wanted()
    case RestoreTail => b.reader.Restoring?
  }

  predicate IsWriterStep(step: Step) {
    step.Offer? || step.CopyIn? || step.PublishHead?
  }

  function ApplyWriter(b: Buffer, step: Step): (b': Buffer)
    requires Enabled(b, step) && b.Shaped() && IsWriterStep(step)
    ensures b'.Shaped() && b'.length == b.length
  {
    var past := b.past;
    match step
    case Offer(message) =>
      if Spaces(b.length, b.tail, b.head) >= b.width + |message| then
        b.(writer := WritingLength(message, 0),
           past := past.(sent := past.sent + [message], stream := past.stream + Frame(message, b.width)))
      else b
    case CopyIn =>
      b.(cells := b.cells[Slot(b.head + b.writer.copied, b.length) := b.Source()[b.writer.copied]],
         writer := b.writer.(copied := b.writer.copied + 1))
    case PublishHead =>
      b.(head := Slot(b.head + |b.Source()|, b.length),
         past := past.(published := past.published + |b.Source()|),
         writer := if b.writer.WritingLength? then WritingData(b.writer.message, 0) else Quiet)
  }

  function ApplyReader(b: Buffer, step: Step): (b': Buffer)
    requires Enabled(b, step) && b.Shaped() && !IsWriterStep(step)
    ensures b'.Shaped() && b'.length == b.length
  {
    var past := b.past;
    match step
    case Look =>
      var available := Bytes(b.length, b.tail, b.head);
      if available > b.width then b.(reader := ReadingLength(available, [])) else b
    case CopyOut =>
      b.(reader := b.reader.(got := b.reader.got + [b.cells[Slot(b.tail + |b.reader.got|, b.length)]]))
    case PublishTail(room) =>
      var tail, consumed := Slot(b.tail + b.Wanted(), b.length), past.consumed + b.Wanted();
      if b.reader.ReadingLength? then
        var n, left := Decode(b.reader.got), b.reader.available - b.width;
        var next := if n > room then Restoring(b.tail) else ReadingData(if left < n then left else n, []);
        b.(tail := tail, reader := next, past := past.(consumed := consumed))
      else
        b.(tail := tail, reader := Waiting,
           past := past.(consumed := consumed, received := past.received + [b.reader.got]))
    case RestoreTail =>
      b.(tail := b.reader.originalTail, reader := Waiting, past := past.(consumed := past.consumed - b.width))
  }

  function Apply(b: Buffer, step: Step): (b': Buffer)
    requires Enabled(b, step) && b.Shaped()
    ensures b'.Shaped() && b'.length == b.length
  {
    if IsWriterStep(step) then ApplyWriter(b, step) else ApplyReader(b, step)
  }

  /** The cells carry the stream from the tail to what the writer has copied,
      and everything admitted fits before the tail comes round again. */
  ghost predicate Carries(b: Buffer)
    requires b.Shaped()
  {
    var t, h := b.past.consumed, b.past.published;
    && 0 <= t <= h && h + b.Unpublished() <= |b.past.stream| < t + b.length
    && b.head == Cell(h, b.length) && b.tail == Cell(t, b.length)
    && Held(b.cells, b.past.stream, t, h + b.Unpublished())
  }

  /** The cells hold the bytes of the stream between two positions. */
  ghost predicate Held(cells: seq<Byte>, stream: seq<Byte>, first: nat, end: nat)
    requires |cells| > 0 && end <= |stream|
  {
    forall k :: first <= k < end ==> cells[Cell(k, |cells|)] == stream[k]
  }

  /** What is left of the stream is what the writer is still to publish. */
  ghost predicate WriterAhead(b: Buffer) {
    && b.past.published <= |b.past.stream|
    && var rest := b.past.stream[b.past.published..];
       match b.writer
       case Quiet => rest == []
       case WritingLength(m, _) => rest == Frame(m, b.width)
       case WritingData(m, _) => rest == m
  }

  /** The stream is that of the messages sent, none of them empty. */
  ghost predicate Framed(b: Buffer) {
    && b.past.stream == Frames(b.past.sent, b.width)
    && (forall i :: 0 <= i < |b.past.sent| ==> 0 < |b.past.sent[i]| < b.length)
    && (!b.writer.Quiet? ==> b.past.sent != [] && b.past.sent[|b.past.sent| - 1] == b.writer.message)
  }

  /** The reader is at a frame boundary or behind a length prefix, with the
      messages in front received, and has so far copied what is there. */
  ghost predicate ReaderBehind(b: Buffer) {
    var sent, r, unread := b.past.sent, |b.past.received|, b.past.published - b.past.consumed;
    && b.past.received <= sent
    && b.past.consumed == |Frames(sent[..r], b.width)| + (if b.reader.ReadingData? then b.width else 0)
    && match b.reader
       case Waiting => true
       case ReadingLength(available, got) =>
         r < |sent| && b.width + |sent[r]| <= available <= unread && got <= Encode(|sent[r]|, b.width)
       case ReadingData(count, got) =>
         r < |sent| && count == |sent[r]| <= unread && got <= sent[r]
       case Restoring(_) => false
  }

  /** What the writer keeps: the cells carry the stream of what it sent. */
  ghost predicate WriterSide(b: Buffer) {
    b.Shaped() && Carries(b) && WriterAhead(b) && Framed(b)
  }

  ghost predicate Invariant(b: Buffer) {
    WriterSide(b) && b.length <= Pow256(b.width) && ReaderBehind(b)
  }

  /* The writer's steps. */

  lemma OfferKeepsSide(b: Buffer, m: Message)
    requires WriterSide(b) && Enabled(b, Offer(m))
    ensures WriterSide(ApplyWriter(b, Offer(m)))
  {
    var b' := ApplyWriter(b, Offer(m));
    if Spaces(b.length, b.tail, b.head) >= b.width + |m| {
      BytesIsDistance(b.length, b.past.consumed, b.past.published);
      SpacesPlusBytes(b.length, b.tail, b.head);
      assert b'.past.sent[..|b.past.sent|] == b.past.sent;
      assert b'.past.stream[b.past.published..] == Frame(m, b.width);
    }
  }

  lemma OfferBehind(b: Buffer, m: Message)
    requires b.Shaped() && ReaderBehind(b) && Enabled(b, Offer(m))
    ensures ReaderBehind(ApplyWriter(b, Offer(m)))
  {
    var sent, sent', r := b.past.sent, ApplyWriter(b, Offer(m)).past.sent, |b.past.received|;
    assert sent'[..r] == sent[..r];
  }

  lemma NextByteIn(b: Buffer)
    requires b.Shaped() && WriterAhead(b) && Enabled(b, CopyIn)
    ensures b.past.published + b.writer.copied < |b.past.stream|
    ensures b.past.stream[b.past.published + b.writer.copied] == b.Source()[b.writer.copied]
  {
    assert b.past.stream[b.past.published + b.writer.copied] == b.past.stream[b.past.published..][b.writer.copied];
  }

  lemma TargetCell(b: Buffer)
    requires b.Shaped() && Enabled(b, CopyIn) && b.head == Cell(b.past.published, b.length)
    ensures Slot(b.head + b.writer.copied, b.length) == Cell(b.past.published + b.writer.copied, b.length)
  {
    SlotOfCell(b.past.published, b.writer.copied, b.length);
  }

  lemma ByteWritten(cells: seq<Byte>, stream: seq<Byte>, t: nat, end: nat, n: nat, at: nat, byte: Byte)
    requires |cells| == n > 0 && t <= end < t + n && end < |stream| && Held(cells, stream, t, end)
    requires at == Cell(end, n) && byte == stream[end]
    ensures Held(cells[at := byte], stream, t, end + 1)
  {
    forall k | t <= k < end
      ensures Cell(k, n) != Cell(end, n)
    {
      CellsDiffer(k, end, n);
    }
  }

  lemma CopyInCarries(b: Buffer)
    requires b.Shaped() && Carries(b) && WriterAhead(b) && Enabled(b, CopyIn)
    ensures Carries(ApplyWriter(b, CopyIn))
  {
    TargetCell(b);
    NextByteIn(b);
    var at, byte := Slot(b.head + b.writer.copied, b.length), b.Source()[b.writer.copied];
    ByteWritten(b.cells, b.past.stream, b.past.consumed, b.past.published + b.writer.copied, b.length, at, byte);
  }

  lemma PublishHeadCarries(b: Buffer)
    requires b.Shaped() && Carries(b) && Enabled(b, PublishHead)
    ensures Carries(ApplyWriter(b, PublishHead))
  {
    SlotOfCell(b.past.published, |b.Source()|, b.length);
  }

  lemma PublishHeadAhead(b: Buffer)
    requires b.Shaped() && WriterAhead(b) && Enabled(b, PublishHead)
    ensures WriterAhead(ApplyWriter(b, PublishHead))
  {
    var h, n := b.past.published, |b.Source()|;
    assert b.past.stream[h + n..] == b.past.stream[h..][n..];
  }

  lemma CopyInAhead(b: Buffer)
    requires b.Shaped() && WriterAhead(b) && Framed(b) && Enabled(b, CopyIn)
    ensures var b' := ApplyWriter(b, CopyIn); WriterAhead(b') && Framed(b')
  {
  }

  lemma CopyInBehind(b: Buffer)
    requires b.Shaped() && ReaderBehind(b) && Enabled(b, CopyIn)
    ensures ReaderBehind(ApplyWriter(b, CopyIn))
  {
  }

  lemma PublishHeadFramed(b: Buffer)
    requires b.Shaped() && Framed(b) && Enabled(b, PublishHead)
    ensures Framed(ApplyWriter(b, PublishHead))
  {
  }

  lemma PublishHeadBehind(b: Buffer)
    requires b.Shaped() && ReaderBehind(b) && Enabled(b, PublishHead)
    ensures ReaderBehind(ApplyWriter(b, PublishHead))
  {
  }

  lemma WriterStepKeepsSide(b: Buffer, step: Step)
    requires WriterSide(b) && Enabled(b, step) && IsWriterStep(step)
    ensures WriterSide(ApplyWriter(b, step))
  {
    match step
    case Offer(m) =>
      OfferKeepsSide(b, m);
    case CopyIn =>
      CopyInCarries(b);
      CopyInAhead(b);
    case PublishHead =>
      PublishHeadCarries(b);
      PublishHeadAhead(b);
      PublishHeadFramed(b);
  }

  lemma WriterStepKeepsInvariant(b: Buffer, step: Step)
    requires Invariant(b) && Enabled(b, step) && IsWriterStep(step)
    ensures Invariant(ApplyWriter(b, step))
  {
    WriterStepKeepsSide(b, step);
    match step
    case Offer(m) => OfferBehind(b, m);
    case CopyIn => CopyInBehind(b);
    case PublishHead => PublishHeadBehind(b);
  }

  /* The reader's steps. */

  lemma PrefixGrows<T>(p: seq<T>, s: seq<T>)
    requires p <= s && |p| < |s|
    ensures p + [s[|p|]] <= s
  {
  }

  /** How far the writer has published, in frames. */
  lemma PublishedFrames(b: Buffer) returns (c: nat)
    requires WriterAhead(b) && Framed(b)
    ensures c <= |b.past.sent|
    ensures |Frames(b.past.sent[..c], b.width)| <= b.past.published <= |Frames(b.past.sent[..c], b.width)| + b.width
  {
    var sent := b.past.sent;
    assert b.past.published == |b.past.stream| - |b.past.stream[b.past.published..]|;
    assert sent[..|sent|] == sent;
    if b.writer.Quiet? {
      c := |sent|;
    } else {
      c := |sent| - 1;
      FrameAt(sent, c, b.width);
    }
  }

  /** A reader that sees more than a length prefix sees the oldest unread
      message whole: the writer publishes a length and its data separately,
      but never leaves a message half visible. */
  lemma WholeMessageVisible(b: Buffer)
    requires WriterAhead(b) && Framed(b) && ReaderBehind(b) && b.reader.Waiting?
    requires b.past.published - b.past.consumed > b.width
    ensures |b.past.received| < |b.past.sent|
    ensures b.width + |b.past.sent[|b.past.received|]| <= b.past.published - b.past.consumed
  {
    var c := PublishedFrames(b);
    FrameInFront(b.past.sent, |b.past.received|, c, b.width, b.past.published);
  }

  lemma LookBehind(b: Buffer)
    requires b.Shaped() && Carries(b) && WriterAhead(b) && Framed(b) && ReaderBehind(b) && Enabled(b, Look)
    ensures ReaderBehind(ApplyReader(b, Look))
  {
    BytesIsDistance(b.length, b.past.consumed, b.past.published);
    if b.past.published - b.past.consumed > b.width {
      WholeMessageVisible(b);
    }
  }

  lemma LookKeepsRest(b: Buffer)
    requires b.Shaped() && Carries(b) && WriterAhead(b) && Framed(b) && Enabled(b, Look)
    ensures var b' := ApplyReader(b, Look); Carries(b') && WriterAhead(b') && Framed(b')
  {
  }

  lemma CellBehindTail(b: Buffer, i: nat)
    requires b.Shaped() && Carries(b) && i < b.past.published - b.past.consumed
    ensures b.cells[Slot(b.tail + i, b.length)] == b.past.stream[b.past.consumed + i]
  {
    SlotOfCell(b.past.consumed, i, b.length);
  }

  /** The byte of the stream that is i bytes behind the reader's position is one
      of the frame being read. */
  lemma UnreadByte(past: History, w: nat, offset: nat, i: nat)
    requires past.stream == Frames(past.sent, w) && |past.received| < |past.sent|
    requires past.consumed == |Frames(past.sent[..|past.received|], w)| + offset
    requires offset + i < w + |past.sent[|past.received|]|
    ensures past.consumed + i < |past.stream|
    ensures past.stream[past.consumed + i] == FrameByte(past.sent[|past.received|], w, offset + i)
  {
    FrameByteAt(past.sent, |past.received|, w, offset + i);
  }

  /** The message being read and how far into its frame the reader's position
      is: the byte to copy next is published, and the next of that frame. */
  lemma Unread(b: Buffer) returns (m: Message, offset: nat)
    requires b.past.stream == Frames(b.past.sent, b.width) && ReaderBehind(b) && Enabled(b, CopyOut)
    ensures |b.past.received| < |b.past.sent| && m == b.past.sent[|b.past.received|]
    ensures offset == if b.reader.ReadingLength? then 0 else b.width
    ensures offset + |b.reader.got| < b.width + |m| && b.Wanted() <= b.past.published - b.past.consumed
    ensures 0 <= b.past.consumed + |b.reader.got| < |b.past.stream|
    ensures b.past.stream[b.past.consumed + |b.reader.got|] == FrameByte(m, b.width, offset + |b.reader.got|)
  {
    m := b.past.sent[|b.past.received|];
    offset := if b.reader.ReadingLength? then 0 else b.width;
    UnreadByte(b.past, b.width, offset, |b.reader.got|);
  }

  lemma NextByteOut(b: Buffer, byte: Byte)
    requires b.Shaped() && Carries(b) && Enabled(b, CopyOut) && b.Wanted() <= b.past.published - b.past.consumed
    requires byte == b.past.stream[b.past.consumed + |b.reader.got|]
    ensures b.cells[Slot(b.tail + |b.reader.got|, b.length)] == byte
  {
    CellBehindTail(b, |b.reader.got|);
  }

  lemma GotMore(b: Buffer, b': Buffer, byte: Byte, whole: seq<Byte>)
    requires ReaderBehind(b) && (b.reader.ReadingLength? || b.reader.ReadingData?)
    requires b' == b.(reader := b.reader.(got := b.reader.got + [byte])) && b.reader.got + [byte] <= whole
    requires |b.past.received| < |b.past.sent|
    requires var m := b.past.sent[|b.past.received|];
             whole == if b.reader.ReadingLength? then Encode(|m|, b.width) else m
    ensures ReaderBehind(b')
  {
  }

  lemma LengthByteOut(b: Buffer, m: Message, byte: Byte)
    requires b.Shaped() && ReaderBehind(b) && Enabled(b, CopyOut) && b.reader.ReadingLength?
    requires m == b.past.sent[|b.past.received|]
    requires b.cells[Slot(b.tail + |b.reader.got|, b.length)] == byte == FrameByte(m, b.width, |b.reader.got|)
    ensures ReaderBehind(ApplyReader(b, CopyOut))
  {
    var whole := Encode(|m|, b.width);
    PrefixGrows(b.reader.got, whole);
    GotMore(b, ApplyReader(b, CopyOut), byte, whole);
  }

  lemma DataByteOut(b: Buffer, m: Message)
    requires b.Shaped() && ReaderBehind(b) && Enabled(b, CopyOut) && b.reader.ReadingData?
    requires m == b.past.sent[|b.past.received|]
    requires b.cells[Slot(b.tail + |b.reader.got|, b.length)] == FrameByte(m, b.width, b.width + |b.reader.got|)
    ensures ReaderBehind(ApplyReader(b, CopyOut))
  {
    PrefixGrows(b.reader.got, m);
    GotMore(b, ApplyReader(b, CopyOut), b.cells[Slot(b.tail + |b.reader.got|, b.length)], m);
  }

  lemma CopyOutBehind(b: Buffer)
    requires b.Shaped() && Carries(b) && b.past.stream == Frames(b.past.sent, b.width)
    requires ReaderBehind(b) && Enabled(b, CopyOut)
    ensures ReaderBehind(ApplyReader(b, CopyOut))
  {
    var m, offset := Unread(b);
    var byte := FrameByte(m, b.width, offset + |b.reader.got|);
    NextByteOut(b, byte);
    if b.reader.ReadingLength? {
      LengthByteOut(b, m, byte);
    } else {
      DataByteOut(b, m);
    }
  }

  lemma CopyOutKeepsRest(b: Buffer)
    requires b.Shaped() && Carries(b) && WriterAhead(b) && Framed(b) && Enabled(b, CopyOut)
    ensures var b' := ApplyReader(b, CopyOut); Carries(b') && WriterAhead(b') && Framed(b')
  {
  }

  lemma PublishTailCarries(b: Buffer, room: nat)
    requires b.Shaped() && Carries(b) && ReaderBehind(b) && Enabled(b, PublishTail(room))
    ensures Carries(ApplyReader(b, PublishTail(room)))
  {
    SlotOfCell(b.past.consumed, b.Wanted(), b.length);
  }

  lemma PublishTailBehind(b: Buffer, room: nat)
    requires b.Shaped() && b.length <= Pow256(b.width) && Framed(b) && ReaderBehind(b)
    requires Enabled(b, PublishTail(room)) && Roomy(b, PublishTail(room))
    ensures ReaderBehind(ApplyReader(b, PublishTail(room)))
  {
    var sent, r := b.past.sent, |b.past.received|;
    if b.reader.ReadingLength? {
      assert b.reader.got == Encode(|sent[r]|, b.width);
      DecodeEncode(|sent[r]|, b.width);
    } else {
      FrameAt(sent, r, b.width);
      PrefixGrows(b.past.received, sent);
      assert b.reader.got == sent[r];
    }
  }

  lemma PublishTailKeepsRest(b: Buffer, room: nat)
    requires b.Shaped() && WriterAhead(b) && Framed(b) && Enabled(b, PublishTail(room))
    ensures var b' := ApplyReader(b, PublishTail(room)); WriterAhead(b') && Framed(b')
  {
  }

  /** The receiver's buffer has room for the message whose length was just read. */
  predicate Roomy(b: Buffer, step: Step) {
    step.PublishTail? && b.reader.ReadingLength? ==> Decode(b.reader.got) <= step.room
  }

  lemma ReaderStepKeepsInvariant(b: Buffer, step: Step)
    requires Invariant(b) && Enabled(b, step) && !IsWriterStep(step) && Roomy(b, step)
    ensures Invariant(ApplyReader(b, step))
  {
    match step
    case Look =>
      LookBehind(b);
      LookKeepsRest(b);
    case CopyOut =>
      CopyOutBehind(b);
      CopyOutKeepsRest(b);
    case PublishTail(room) =>
      PublishTailCarries(b, room);
      PublishTailBehind(b, room);
      PublishTailKeepsRest(b, room);
  }

  /* Whole runs. */

  function Initial(width: nat, cells: seq<Byte>): Buffer {
    Buffer(width, |cells|, cells, 0, 0, Quiet, Waiting, History([], [], 0, 0, []))
  }

  ghost predicate LegalRun(b: Buffer, steps: seq<Step>)
    requires b.Shaped()
    decreases |steps|
  {
    steps == [] ||
    (Enabled(b, steps[0]) && Roomy(b, steps[0]) && LegalRun(Apply(b, steps[0]), steps[1..]))
  }

  ghost function Final(b: Buffer, steps: seq<Step>): Buffer
    requires b.Shaped() && LegalRun(b, steps)
    decreases |steps|
  {
    if steps == [] then b else Final(Apply(b, steps[0]), steps[1..])
  }

  lemma {:induction false} RunKeepsInvariant(b: Buffer, steps: seq<Step>)
    requires Invariant(b) && LegalRun(b, steps)
    ensures Invariant(Final(b, steps))
    decreases |steps|
  {
    if steps != [] {
      if IsWriterStep(steps[0]) {
        WriterStepKeepsInvariant(b, steps[0]);
      } else {
        ReaderStepKeepsInvariant(b, steps[0]);
      }
      RunKeepsInvariant(Apply(b, steps[0]), steps[1..]);
    }
  }

  /** However writer and reader are interleaved, the messages received are the
      messages sent, whole, in order and without gaps; and a receive about to
      return hands over exactly the oldest unread one. */
  lemma MessagesArriveWhole(width: nat, cells: seq<Byte>, steps: seq<Step>)
    requires 0 < |cells| <= Pow256(width) && LegalRun(Initial(width, cells), steps)
    ensures var b := Final(Initial(width, cells), steps);
            && b.past.received <= b.past.sent
            && (b.reader.ReadingData? && |b.reader.got| == b.reader.count ==>
                  |b.past.received| < |b.past.sent| && b.reader.got == b.past.sent[|b.past.received|])
  {
    RunKeepsInvariant(Initial(width, cells), steps);
  }

  /* A receiver whose buffer is too small. */

  /** The steps lead from one state to the other. */
  ghost predicate Leads(b: Buffer, steps: seq<Step>, end: Buffer)
    requires b.Shaped()
    decreases |steps|
  {
    if steps == [] then b == end
    else Enabled(b, steps[0]) && Leads(Apply(b, steps[0]), steps[1..], end)
  }

  /** Where the reader was before it moved the tail over the length prefix. */
  function Restored(b: Buffer): int {
    b.past.consumed - b.width
  }

  /** The tail is behind the length prefix of the oldest unread message, which
      is published whole, and is to be put back. */
  ghost predicate Restorable(b: Buffer) {
    && b.reader.Restoring? && 0 <= Restored(b) && b.length > 0
    && b.reader.originalTail == Cell(Restored(b), b.length)
    && b.past.received <= b.past.sent && |b.past.received| < |b.past.sent|
    && Restored(b) == |Frames(b.past.sent[..|b.past.received|], b.width)|
    && b.width < b.past.published - Restored(b)
  }

  /** The bytes of the prefix are there until the writer comes round to them. */
  ghost predicate PrefixKept(b: Buffer) {
    && b.length == |b.cells| > 0 && b.past.consumed <= |b.past.stream|
    && forall k: nat :: Restored(b) <= k < b.past.consumed && b.past.published + b.Unpublished() <= k + b.length ==>
                          b.cells[Cell(k, b.length)] == b.past.stream[k]
  }

  ghost predicate InWindow(b: Buffer) {
    WriterSide(b) && Restorable(b) && PrefixKept(b)
  }

  lemma OfferRestorable(b: Buffer, m: Message)
    requires b.Shaped() && Restorable(b) && Enabled(b, Offer(m))
    ensures Restorable(ApplyWriter(b, Offer(m)))
  {
    var sent, sent', r := b.past.sent, ApplyWriter(b, Offer(m)).past.sent, |b.past.received|;
    assert sent'[..r] == sent[..r];
  }

  lemma OfferKeepsPrefix(b: Buffer, m: Message)
    requires b.Shaped() && PrefixKept(b) && Enabled(b, Offer(m))
    ensures PrefixKept(ApplyWriter(b, Offer(m)))
  {
  }

  lemma CopyInKeepsPrefix(b: Buffer)
    requires b.Shaped() && PrefixKept(b) && Enabled(b, CopyIn)
    requires b.past.consumed <= b.past.published && b.head == Cell(b.past.published, b.length)
    ensures PrefixKept(ApplyWriter(b, CopyIn))
  {
    var b', n, end := ApplyWriter(b, CopyIn), b.length, b.past.published + b.writer.copied;
    TargetCell(b);
    forall k: nat | Restored(b) <= k < b.past.consumed && end + 1 <= k + n
      ensures b'.cells[Cell(k, n)] == b.past.stream[k]
    {
      CellsDiffer(k, end, n);
    }
  }

  lemma PublishHeadKeepsPrefix(b: Buffer)
    requires b.Shaped() && PrefixKept(b) && Enabled(b, PublishHead)
    ensures PrefixKept(ApplyWriter(b, PublishHead))
  {
  }

  lemma StepRestorable(b: Buffer, step: Step)
    requires b.Shaped() && Restorable(b) && Enabled(b, step) && IsWriterStep(step)
    ensures Restorable(ApplyWriter(b, step))
  {
    if step.Offer? {
      OfferRestorable(b, step.message);
    }
  }

  lemma StepKeepsPrefix(b: Buffer, step: Step)
    requires b.Shaped() && Carries(b) && PrefixKept(b) && Enabled(b, step) && IsWriterStep(step)
    ensures PrefixKept(ApplyWriter(b, step))
  {
    match step
    case Offer(m) => OfferKeepsPrefix(b, m);
    case CopyIn => CopyInKeepsPrefix(b);
    case PublishHead => PublishHeadKeepsPrefix(b);
  }

  lemma StepFrame(b: Buffer, step: Step)
    requires b.Shaped() && Enabled(b, step) && IsWriterStep(step)
    ensures var b' := ApplyWriter(b, step);
            && b'.length == b.length && b'.width == b.width && b'.past.consumed == b.past.consumed
            && b'.tail == b.tail && b'.past.received == b.past.received && b'.reader == b.reader
            && b.past.sent <= b'.past.sent
  {
  }

  lemma {:induction false} WriterInWindow(b: Buffer, steps: seq<Step>, end: Buffer)
    requires InWindow(b) && Leads(b, steps, end) && forall i :: 0 <= i < |steps| ==> IsWriterStep(steps[i])
    ensures InWindow(end) && end.length == b.length && end.width == b.width && end.reader == b.reader
    ensures end.past.consumed == b.past.consumed && end.past.received == b.past.received
    ensures b.past.sent <= end.past.sent
    decreases |steps|
  {
    if steps != [] {
      WriterStepKeepsSide(b, steps[0]);
      StepRestorable(b, steps[0]);
      StepKeepsPrefix(b, steps[0]);
      StepFrame(b, steps[0]);
      WriterInWindow(Apply(b, steps[0]), steps[1..], end);
    }
  }

  predicate TooSmall(b: Buffer, room: nat) {
    b.reader.ReadingLength? && |b.reader.got| == b.width && Decode(b.reader.got) > room
  }

  lemma OpensRestorable(b: Buffer, room: nat)
    requires b.Shaped() && Carries(b) && ReaderBehind(b) && TooSmall(b, room)
    ensures Restorable(ApplyReader(b, PublishTail(room)))
  {
  }

  lemma OpensWithPrefix(b: Buffer, room: nat)
    requires b.Shaped() && Carries(b) && ReaderBehind(b) && TooSmall(b, room)
    ensures PrefixKept(ApplyReader(b, PublishTail(room)))
  {
  }

  /** The receive that finds its buffer too small opens the window. */
  lemma WindowOpens(b: Buffer, room: nat)
    requires Invariant(b) && TooSmall(b, room)
    ensures var b' := ApplyReader(b, PublishTail(room));
            && InWindow(b') && Restored(b') == b.past.consumed && b'.reader == Restoring(b.tail)
            && b'.past.sent == b.past.sent && b'.past.received == b.past.received
            && b'.length == b.length && b'.width == b.width
  {
    PublishTailCarries(b, room);
    PublishTailKeepsRest(b, room);
    OpensRestorable(b, room);
    OpensWithPrefix(b, room);
  }

  lemma RestoreCarries(b: Buffer)
    requires b.Shaped() && Carries(b) && Restorable(b) && PrefixKept(b)
    ensures Carries(ApplyReader(b, RestoreTail)) <==> |b.past.stream| - Restored(b) < b.length
  {
  }

  lemma RestoreBehind(b: Buffer)
    requires b.Shaped() && Restorable(b)
    ensures ReaderBehind(ApplyReader(b, RestoreTail))
  {
  }

  lemma RestoreKeepsRest(b: Buffer)
    requires b.Shaped() && b.reader.Restoring? && WriterAhead(b) && Framed(b)
    ensures var b' := ApplyReader(b, RestoreTail); WriterAhead(b') && Framed(b')
  {
  }

  lemma AllPublished(b: Buffer)
    requires WriterAhead(b) && b.writer.Quiet?
    ensures b.past.published == |b.past.stream|
  {
    assert |b.past.stream[b.past.published..]| == |b.past.stream| - b.past.published;
  }

  /** What the bytes available come to once all is published. */
  lemma RestoredCount(b: Buffer)
    requires b.Shaped() && Carries(b) && WriterAhead(b) && Restorable(b) && b.writer.Quiet?
    requires b.width <= b.length
    ensures Bytes(b.length, b.reader.originalTail, b.head) > b.width <==> |b.past.stream| - Restored(b) < b.length
  {
    AllPublished(b);
    BytesOneRoundOn(b.length, Restored(b), b.past.published, b.width);
  }

  lemma {:induction false} FramesConcat(a: seq<Message>, c: seq<Message>, w: nat)
    ensures |Frames(a + c, w)| == |Frames(a, w)| + |Frames(c, w)|
    decreases |c|
  {
    if c == [] {
      assert a + c == a;
    } else {
      FramesConcat(a, c[..|c| - 1], w);
      assert (a + c)[..|a + c| - 1] == a + c[..|c| - 1];
    }
  }

  /** The bytes that have to fit in front of the restored tail: those unread or
      unwritten when the receive began, and the frames of all messages admitted
      until the tail is put back. */
  function Load(b: Buffer, end: Buffer): int
    requires |b.past.sent| <= |end.past.sent|
  {
    |b.past.stream| - b.past.consumed + |Frames(end.past.sent[|b.past.sent|..], b.width)|
  }

  lemma LoadIsStream(b: Buffer, end: Buffer)
    requires Framed(b) && Framed(end) && b.past.sent <= end.past.sent && b.width == end.width
    ensures Load(b, end) == |end.past.stream| - b.past.consumed
  {
    FramesConcat(b.past.sent, end.past.sent[|b.past.sent|..], b.width);
    assert end.past.sent == b.past.sent + end.past.sent[|b.past.sent|..];
  }

  lemma RestoreExactly(b: Buffer)
    requires InWindow(b) && b.width <= b.length <= Pow256(b.width)
    ensures var b', fits := ApplyReader(b, RestoreTail), |b.past.stream| - Restored(b) < b.length;
            && (Invariant(b') <==> fits)
            && (b.writer.Quiet? ==> (ApplyReader(b', Look).reader.ReadingLength? <==> fits))
  {
    RestoreCarries(b);
    RestoreBehind(b);
    RestoreKeepsRest(b);
    if b.writer.Quiet? {
      RestoredCount(b);
    }
  }

  lemma WindowRun(b: Buffer, room: nat, steps: seq<Step>, end: Buffer)
    requires Invariant(b) && TooSmall(b, room) && Leads(ApplyReader(b, PublishTail(room)), steps, end)
    requires forall i :: 0 <= i < |steps| ==> IsWriterStep(steps[i])
    ensures InWindow(end) && end.length == b.length && end.width == b.width && end.reader == Restoring(b.tail)
    ensures Restored(end) == b.past.consumed && end.past.received == b.past.received && b.past.sent <= end.past.sent
  {
    WindowOpens(b, room);
    WriterInWindow(ApplyReader(b, PublishTail(room)), steps, end);
  }

  /** What the restriction to roomy receivers is for.  A receiver whose buffer
      is too small moves the tail forward over the length prefix and back.
      Whatever the writer does in between, all is well, and so all messages
      arrive whole from then on, if and only if everything admitted meanwhile
      fits in front of the restored tail too.  If it does not, and the writer is
      done, the next receive finds nothing, although there are messages to be
      read; for a writer that is not done see NextReceiveFinds. */
  lemma TooSmallReceiveRaces(b: Buffer, room: nat, steps: seq<Step>, end: Buffer)
    requires Invariant(b) && TooSmall(b, room) && Leads(ApplyReader(b, PublishTail(room)), steps, end)
    requires forall i :: 0 <= i < |steps| ==> IsWriterStep(steps[i])
    ensures end.Shaped() && Enabled(end, RestoreTail) && b.past.sent <= end.past.sent
    ensures var restored := ApplyReader(end, RestoreTail);
            && restored.tail == b.tail && restored.past.consumed == b.past.consumed
            && restored.past.received == b.past.received < restored.past.sent
            && (Invariant(restored) <==> Load(b, end) < b.length)
            && (end.writer.Quiet? ==>
                  (ApplyReader(restored, Look).reader.ReadingLength? <==> Load(b, end) < b.length))
  {
    WindowRun(b, room, steps, end);
    LoadIsStream(b, end);
    RestoreExactly(end);
  }

  /* The next receive, once the writer has finished its message. */

  /** The tail is back, and the writer is to finish what it has begun. */
  ghost predicate TailBack(b: Buffer) {
    && b.Shaped() && WriterAhead(b) && b.reader.Waiting? && b.width <= b.length
    && 0 <= b.past.consumed && b.tail == Cell(b.past.consumed, b.length) && b.head == Cell(b.past.published, b.length)
    && b.width < b.past.published - b.past.consumed && |b.past.stream| - b.past.consumed < b.length + b.width
  }

  predicate FinishesMessage(step: Step) {
    step.CopyIn? || step.PublishHead?
  }

  lemma RestoreOpensTailBack(b: Buffer)
    requires b.Shaped() && Carries(b) && WriterAhead(b) && Restorable(b) && b.width <= b.length
    ensures TailBack(ApplyReader(b, RestoreTail))
  {
  }

  lemma CopyInTailBack(b: Buffer)
    requires TailBack(b) && Enabled(b, CopyIn)
    ensures TailBack(ApplyWriter(b, CopyIn))
  {
  }

  lemma PublishHeadTailBack(b: Buffer)
    requires TailBack(b) && Enabled(b, PublishHead)
    ensures TailBack(ApplyWriter(b, PublishHead))
  {
    PublishHeadAhead(b);
    SlotOfCell(b.past.published, |b.Source()|, b.length);
  }

  lemma {:induction false} WriterFinishes(b: Buffer, steps: seq<Step>, end: Buffer)
    requires TailBack(b) && Leads(b, steps, end) && forall i :: 0 <= i < |steps| ==> FinishesMessage(steps[i])
    ensures TailBack(end) && end.length == b.length && end.width == b.width
    ensures end.past.stream == b.past.stream && end.past.consumed == b.past.consumed
    decreases |steps|
  {
    if steps != [] {
      if steps[0].CopyIn? {
        CopyInTailBack(b);
      } else {
        PublishHeadTailBack(b);
      }
      WriterFinishes(Apply(b, steps[0]), steps[1..], end);
    }
  }

  lemma LookFinds(b: Buffer, left: int)
    requires TailBack(b) && b.writer.Quiet? && left == |b.past.stream| - b.past.consumed
    ensures b.Shaped() && Enabled(b, Look)
    ensures ApplyReader(b, Look).reader.ReadingLength? <==> left < b.length
  {
    AllPublished(b);
    BytesOneRoundOn(b.length, b.past.consumed, b.past.published, b.width);
  }

  lemma TailBackAfterWindow(b: Buffer, room: nat, steps: seq<Step>, end: Buffer)
    requires Invariant(b) && TooSmall(b, room) && Leads(ApplyReader(b, PublishTail(room)), steps, end)
    requires forall i :: 0 <= i < |steps| ==> IsWriterStep(steps[i])
    ensures end.Shaped() && Enabled(end, RestoreTail) && TailBack(ApplyReader(end, RestoreTail))
    ensures end.length == b.length && b.past.sent <= end.past.sent
    ensures Load(b, end) == |end.past.stream| - ApplyReader(end, RestoreTail).past.consumed
  {
    WindowRun(b, room, steps, end);
    LoadIsStream(b, end);
    RestoreOpensTailBack(end);
  }

  /** The writer may be anywhere in a message when the tail is put back: once it
      has finished that message, the next receive finds what is there to be read
      if and only if everything admitted until then fits in front of the tail. */
  lemma NextReceiveFinds(b: Buffer, room: nat, steps: seq<Step>, end: Buffer, more: seq<Step>, done: Buffer)
    requires Invariant(b) && TooSmall(b, room) && Leads(ApplyReader(b, PublishTail(room)), steps, end)
    requires forall i :: 0 <= i < |steps| ==> IsWriterStep(steps[i])
    requires end.Shaped() && Enabled(end, RestoreTail) && Leads(ApplyReader(end, RestoreTail), more, done)
    requires (forall i :: 0 <= i < |more| ==> FinishesMessage(more[i])) && done.writer.Quiet?
    ensures done.Shaped() && Enabled(done, Look) && b.past.sent <= end.past.sent
    ensures ApplyReader(done, Look).reader.ReadingLength? <==> Load(b, end) < b.length
  {
    TailBackAfterWindow(b, room, steps, end);
    WriterFinishes(ApplyReader(end, RestoreTail), more, done);
    LookFinds(done, Load(b, end));
  }

  lemma LeadsOn(b: Buffer, step: Step, next: Buffer, steps: seq<Step>, end: Buffer)
    requires b.Shaped() && Enabled(b, step) && next == Apply(b, step) && Leads(next, steps, end)
    ensures Leads(b, [step] + steps, end)
  {
    assert ([step] + steps)[1..] == steps;
  }

  lemma {:induction false} LeadsTogether(b: Buffer, first: seq<Step>, middle: Buffer, second: seq<Step>, end: Buffer)
    requires b.Shaped() && middle.Shaped() && Leads(b, first, middle) && Leads(middle, second, end)
    ensures Leads(b, first + second, end)
    decreases |first|
  {
    if first == [] {
      assert first + second == second;
    } else {
      LeadsTogether(Apply(b, first[0]), first[1..], middle, second, end);
      LeadsOn(b, first[0], Apply(b, first[0]), first[1..] + second, end);
      assert first + second == [first[0]] + (first[1..] + second);
    }
  }

  /* What a send admits, and what a receive finds and hands over. */

  /** A message is admitted just when it fits, with its length, beside what has
      been admitted and not yet been read; a byte always stays free. */
  lemma AdmitsExactly(b: Buffer, m: Message)
    requires Invariant(b) && Enabled(b, Offer(m))
    ensures var b', load := Apply(b, Offer(m)), |Frames(b.past.sent, b.width)| - b.past.consumed;
            if load + b.width + |m| < b.length then
              b'.past.sent == b.past.sent + [m] && b'.writer == WritingLength(m, 0) && b'.head == b.head
            else b' == b
  {
    BytesIsDistance(b.length, b.past.consumed, b.past.published);
    SpacesPlusBytes(b.length, b.tail, b.head);
    assert b.past.stream[b.past.published..] == [];
  }

  /** The oldest unread message has been published whole. */
  ghost predicate WholeWaits(b: Buffer) {
    var sent, r := b.past.sent, |b.past.received|;
    r < |sent| && |Frames(sent[..r + 1], b.width)| <= b.past.published
  }

  /** A receive finds a message just when one has been published whole. */
  lemma FindsExactly(b: Buffer)
    requires Invariant(b) && Enabled(b, Look)
    ensures if WholeWaits(b) then Apply(b, Look).reader.ReadingLength? else Apply(b, Look) == b
    ensures Apply(b, Look).(reader := Waiting) == b
  {
    var sent, r := b.past.sent, |b.past.received|;
    BytesIsDistance(b.length, b.past.consumed, b.past.published);
    if b.past.published - b.past.consumed > b.width {
      WholeMessageVisible(b);
    }
    if r < |sent| {
      FrameAt(sent, r, b.width);
    }
  }

  /** The reader copies all that it wants. */
  lemma {:induction false} CopyAllOut(b: Buffer) returns (steps: seq<Step>, end: Buffer)
    requires Invariant(b) && (b.reader.ReadingLength? || b.reader.ReadingData?)
    ensures Leads(b, steps, end) && Invariant(end) && end.past == b.past && Enabled(end, PublishTail(0))
    ensures end.width == b.width && end.length == b.length
    ensures if b.reader.ReadingLength? then end.reader.ReadingLength? && end.reader.available == b.reader.available
            else end.reader.ReadingData? && end.reader.count == b.reader.count
    decreases b.Wanted() - |b.reader.got|
  {
    if |b.reader.got| == b.Wanted() {
      steps, end := [], b;
    } else {
      var next := Apply(b, CopyOut);
      ReaderStepKeepsInvariant(b, CopyOut);
      var rest;
      rest, end := CopyAllOut(next);
      LeadsOn(b, CopyOut, next, rest, end);
      steps := [CopyOut] + rest;
    }
  }

  /** What a receive has done when it returns the message. */
  ghost predicate Delivered(past: History, past': History, m: Message, w: nat) {
    && past'.received == past.received + [m] && past'.consumed == past.consumed + w + |m|
    && past'.sent == past.sent && past'.published == past.published
  }

  lemma LengthGot(b: Buffer)
    requires ReaderBehind(b) && Framed(b) && b.length <= Pow256(b.width)
    requires b.reader.ReadingLength? && |b.reader.got| == b.width
    ensures |b.past.received| < |b.past.sent| && Decode(b.reader.got) == |b.past.sent[|b.past.received|]|
  {
    var m := b.past.sent[|b.past.received|];
    assert |m| < b.length;
    assert b.reader.got == Encode(|m|, b.width);
    DecodeEncode(|m|, b.width);
  }

  /** The length read, the reader turns to the data. */
  lemma LengthOut(b: Buffer, room: nat) returns (next: Buffer)
    requires Invariant(b) && b.reader.ReadingLength? && Enabled(b, PublishTail(room))
    requires |b.past.received| < |b.past.sent| ==> |b.past.sent[|b.past.received|]| <= room
    ensures next == Apply(b, PublishTail(room)) && Invariant(next) && next.reader.ReadingData?
    ensures next.past == b.past.(consumed := b.past.consumed + b.width)
  {
    LengthGot(b);
    next := Apply(b, PublishTail(room));
    ReaderStepKeepsInvariant(b, PublishTail(room));
  }

  /** The data read, the message is handed over. */
  lemma DataOut(b: Buffer, room: nat) returns (next: Buffer)
    requires Invariant(b) && b.reader.ReadingData? && Enabled(b, PublishTail(room))
    ensures next == Apply(b, PublishTail(room)) && Invariant(next) && next.reader.Waiting?
    ensures |b.past.received| < |b.past.sent|
    ensures var m := b.past.sent[|b.past.received|];
            next.past == b.past.(consumed := b.past.consumed + |m|, received := b.past.received + [m])
  {
    next := Apply(b, PublishTail(room));
    ReaderStepKeepsInvariant(b, PublishTail(room));
  }

  lemma LengthReceived(b: Buffer, room: nat) returns (steps: seq<Step>, next: Buffer)
    requires Invariant(b) && b.reader.ReadingLength?
    requires |b.past.received| < |b.past.sent| ==> |b.past.sent[|b.past.received|]| <= room
    ensures Leads(b, steps, next) && Invariant(next) && next.reader.ReadingData?
    ensures next.past == b.past.(consumed := b.past.consumed + b.width) && next.width == b.width
  {
    var copies, copied := CopyAllOut(b);
    next := LengthOut(copied, room);
    LeadsOn(copied, PublishTail(room), next, [], next);
    steps := copies + ([PublishTail(room)] + []);
    LeadsTogether(b, copies, copied, [PublishTail(room)] + [], next);
  }

  lemma DataReceived(b: Buffer, room: nat) returns (steps: seq<Step>, end: Buffer)
    requires Invariant(b) && b.reader.ReadingData?
    ensures Leads(b, steps, end) && Invariant(end) && end.reader.Waiting?
    ensures |b.past.received| < |b.past.sent|
    ensures var m := b.past.sent[|b.past.received|];
            end.past == b.past.(consumed := b.past.consumed + |m|, received := b.past.received + [m])
  {
    var copies, copied := CopyAllOut(b);
    end := DataOut(copied, room);
    LeadsOn(copied, PublishTail(room), end, [], end);
    steps := copies + ([PublishTail(room)] + []);
    LeadsTogether(b, copies, copied, [PublishTail(room)] + [], end);
  }

  /** A receive with room for a message that has been published whole goes
      through to its end and hands it over. */
  lemma ReceiveDelivers(b: Buffer, room: nat) returns (steps: seq<Step>, end: Buffer)
    requires Invariant(b) && b.reader.Waiting? && WholeWaits(b) && |b.past.sent[|b.past.received|]| <= room
    ensures Leads(b, steps, end) && Invariant(end) && end.reader.Waiting?
    ensures Delivered(b.past, end.past, b.past.sent[|b.past.received|], b.width)
  {
    FindsExactly(b);
    var looked := Apply(b, Look);
    ReaderStepKeepsInvariant(b, Look);
    var first, middle := LengthReceived(looked, room);
    var second;
    second, end := DataReceived(middle, room);
    LeadsTogether(looked, first, middle, second, end);
    LeadsOn(b, Look, looked, first + second, end);
    steps := [Look] + (first + second);
  }

  /** A state of a buffer with prefixes of one byte and a length of six. */
  function Six(cells: seq<Byte>, head: nat, tail: nat, writer: Writer, reader: Reader, past: History): Buffer {
    Buffer(1, 6, cells, head, tail, writer, reader, past)
  }

  lemma OneByte(m: Message)
    requires |m| == 1
    ensures Encode(1, 1) == [1] && Frame(m, 1) == [1, m[0]] && Decode([1]) == 1
  {
    assert Encode(1 / 256, 0) == [];
    assert Decode([1]) == 1 + 256 * Decode([]);
  }

  lemma ThreeBytes()
    ensures Encode(3, 1) == [3] && Decode([3]) == 3
  {
    assert Encode(3 / 256, 0) == [];
    assert Decode([3]) == 3 + 256 * Decode([]);
  }

  ghost predicate Goes(b: Buffer, step: Step, next: Buffer) {
    b.Shaped() && Enabled(b, step) && next == Apply(b, step)
  }

  lemma Stepping(b: Buffer, step: Step, next: Buffer, steps: seq<Step>, end: Buffer)
    requires Goes(b, step, next) && Leads(next, steps, end)
    ensures Leads(b, [step] + steps, end)
  {
    LeadsOn(b, step, next, steps, end);
  }

  lemma ThreeSteps(b: Buffer, s1: Step, b1: Buffer, s2: Step, b2: Buffer, s3: Step, b3: Buffer)
    requires Goes(b, s1, b1) && Goes(b1, s2, b2) && Goes(b2, s3, b3)
    ensures Leads(b, [s1] + ([s2] + ([s3] + [])), b3)
  {
    Stepping(b2, s3, b3, [], b3);
    Stepping(b1, s2, b2, [s3] + [], b3);
    Stepping(b, s1, b1, [s2] + ([s3] + []), b3);
  }

  /** The writer puts the length of a message of one byte. */
  lemma LengthIn(b: Buffer, m: Message) returns (b1: Buffer, b2: Buffer)
    requires b.Shaped() && b.width == 1 && b.length == 6 && b.writer == WritingLength(m, 0) && |m| == 1
    ensures Goes(b, CopyIn, b1) && Goes(b1, PublishHead, b2)
    ensures b2 == b.(cells := b.cells[b.head := 1], head := Slot(b.head + 1, 6), writer := WritingData(m, 0),
                     past := b.past.(published := b.past.published + 1))
  {
    OneByte(m);
    b1 := Apply(b, CopyIn);
    assert b1.cells == b.cells[b.head := 1] && b1.writer == WritingLength(m, 1);
    b2 := Apply(b1, PublishHead);
  }

  lemma DataIn(b: Buffer, m: Message) returns (b1: Buffer, b2: Buffer)
    requires b.Shaped() && b.width == 1 && b.length == 6 && b.writer == WritingData(m, 0) && |m| == 1
    ensures Goes(b, CopyIn, b1) && Goes(b1, PublishHead, b2)
    ensures b2 == b.(cells := b.cells[b.head := m[0]], head := Slot(b.head + 1, 6), writer := Quiet,
                     past := b.past.(published := b.past.published + 1))
  {
    b1 := Apply(b, CopyIn);
    assert b1.cells == b.cells[b.head := m[0]] && b1.writer == WritingData(m, 1);
    b2 := Apply(b1, PublishHead);
  }

  lemma Offered(b: Buffer, m: Message) returns (next: Buffer)
    requires b.Shaped() && b.width == 1 && b.length == 6 && b.writer.Quiet? && |m| == 1
    requires Spaces(6, b.tail, b.head) >= 2
    ensures Goes(b, Offer(m), next)
    ensures next == b.(writer := WritingLength(m, 0),
                       past := b.past.(sent := b.past.sent + [m], stream := b.past.stream + [1, m[0]]))
  {
    OneByte(m);
    next := Apply(b, Offer(m));
  }

  /** The writer puts a message of one byte into an empty place. */
  lemma OneByteSent(b: Buffer, m: Message) returns (steps: seq<Step>, end: Buffer)
    requires b.Shaped() && b.width == 1 && b.length == 6 && b.writer.Quiet? && |m| == 1
    requires Spaces(6, b.tail, b.head) >= 2
    ensures Leads(b, steps, end)
    ensures end == b.(cells := b.cells[b.head := 1][Slot(b.head + 1, 6) := m[0]],
                      head := Slot(Slot(b.head + 1, 6) + 1, 6),
                      past := b.past.(sent := b.past.sent + [m], stream := b.past.stream + [1, m[0]],
                                      published := b.past.published + 1 + 1))
  {
    var b1 := Offered(b, m);
    var b2, b3 := LengthIn(b1, m);
    var b4, b5 := DataIn(b3, m);
    Stepping(b4, PublishHead, b5, [], b5);
    Stepping(b3, CopyIn, b4, [PublishHead] + [], b5);
    ThreeSteps(b, Offer(m), b1, CopyIn, b2, PublishHead, b3);
    steps := [Offer(m)] + ([CopyIn] + ([PublishHead] + [])) + ([CopyIn] + ([PublishHead] + []));
    end := b5;
    LeadsTogether(b, [Offer(m)] + ([CopyIn] + ([PublishHead] + [])), b3, [CopyIn] + ([PublishHead] + []), b5);
  }

  /** States of an empty buffer as the writer puts the message [7, 7, 7] into it. */
  function Empty(): Buffer {
    Six([0, 0, 0, 0, 0, 0], 0, 0, Quiet, Waiting, History([], [], 0, 0, []))
  }

  function SevensPast(published: nat, consumed: int): History {
    History([[7, 7, 7]], [3, 7, 7, 7], published, consumed, [])
  }

  function Writing(cells: seq<Byte>, head: nat, writer: Writer): Buffer {
    Six(cells, head, 0, writer, Waiting, SevensPast(head, 0))
  }

  function Sevens(): Buffer {
    Six([3, 7, 7, 7, 0, 0], 4, 0, Quiet, Waiting, SevensPast(4, 0))
  }

  lemma SevensOffered()
    ensures Goes(Empty(), Offer([7, 7, 7]), Writing([0, 0, 0, 0, 0, 0], 0, WritingLength([7, 7, 7], 0)))
  {
    ThreeBytes();
    var m: Message := [7, 7, 7];
    assert Frame(m, 1) == [3, 7, 7, 7];
  }

  lemma SevensLength()
    ensures Goes(Writing([0, 0, 0, 0, 0, 0], 0, WritingLength([7, 7, 7], 0)), CopyIn,
                 Writing([3, 0, 0, 0, 0, 0], 0, WritingLength([7, 7, 7], 1)))
    ensures Goes(Writing([3, 0, 0, 0, 0, 0], 0, WritingLength([7, 7, 7], 1)), PublishHead,
                 Writing([3, 0, 0, 0, 0, 0], 1, WritingData([7, 7, 7], 0)))
  {
    ThreeBytes();
  }

  lemma SevensData()
    ensures Goes(Writing([3, 0, 0, 0, 0, 0], 1, WritingData([7, 7, 7], 0)), CopyIn,
                 Writing([3, 7, 0, 0, 0, 0], 1, WritingData([7, 7, 7], 1)))
    ensures Goes(Writing([3, 7, 0, 0, 0, 0], 1, WritingData([7, 7, 7], 1)), CopyIn,
                 Writing([3, 7, 7, 0, 0, 0], 1, WritingData([7, 7, 7], 2)))
  {
  }

  lemma SevensEnd()
    ensures Goes(Writing([3, 7, 7, 0, 0, 0], 1, WritingData([7, 7, 7], 2)), CopyIn,
                 Writing([3, 7, 7, 7, 0, 0], 1, WritingData([7, 7, 7], 3)))
    ensures Goes(Writing([3, 7, 7, 7, 0, 0], 1, WritingData([7, 7, 7], 3)), PublishHead, Sevens())
  {
  }

  lemma ThreeBytesSent() returns (steps: seq<Step>)
    ensures Leads(Empty(), steps, Sevens())
  {
    var m: Message := [7, 7, 7];
    var b1 := Writing([0, 0, 0, 0, 0, 0], 0, WritingLength(m, 0));
    var b2 := Writing([3, 0, 0, 0, 0, 0], 0, WritingLength(m, 1));
    var b3, b4 := Writing([3, 0, 0, 0, 0, 0], 1, WritingData(m, 0)), Writing([3, 7, 0, 0, 0, 0], 1, WritingData(m, 1));
    var b5, b6 := Writing([3, 7, 7, 0, 0, 0], 1, WritingData(m, 2)), Writing([3, 7, 7, 7, 0, 0], 1, WritingData(m, 3));
    SevensOffered();
    SevensLength();
    SevensData();
    SevensEnd();
    var begin, copies := [Offer(m)] + ([CopyIn] + ([PublishHead] + [])), [CopyIn] + ([CopyIn] + ([CopyIn] + []));
    ThreeSteps(Empty(), Offer(m), b1, CopyIn, b2, PublishHead, b3);
    ThreeSteps(b3, CopyIn, b4, CopyIn, b5, CopyIn, b6);
    Stepping(b6, PublishHead, Sevens(), [], Sevens());
    LeadsTogether(b3, copies, b6, [PublishHead] + [], Sevens());
    LeadsTogether(Empty(), begin, b3, copies + ([PublishHead] + []), Sevens());
    steps := begin + (copies + ([PublishHead] + []));
  }

  /** Where the tail is to go back. */
  function Refused(): Buffer {
    Six([3, 7, 7, 7, 0, 0], 4, 1, Quiet, Restoring(0), SevensPast(4, 1))
  }

  lemma SevensSeen()
    ensures Goes(Sevens(), Look, Sevens().(reader := ReadingLength(4, [])))
    ensures Goes(Sevens().(reader := ReadingLength(4, [])), CopyOut, Sevens().(reader := ReadingLength(4, [3])))
  {
  }

  lemma SevensTooLong()
    ensures Goes(Sevens().(reader := ReadingLength(4, [3])), PublishTail(1), Refused())
  {
    ThreeBytes();
  }

  /** A receiver with room for one byte finds the message too long. */
  lemma ReceiveRefused() returns (steps: seq<Step>)
    ensures Leads(Sevens(), steps, Refused())
  {
    SevensSeen();
    SevensTooLong();
    steps := [Look] + ([CopyOut] + ([PublishTail(1)] + []));
    ThreeSteps(Sevens(), Look, Sevens().(reader := ReadingLength(4, [])),
               CopyOut, Sevens().(reader := ReadingLength(4, [3])), PublishTail(1), Refused());
  }

  lemma ByteSeen(b: Buffer) returns (b1: Buffer, b2: Buffer)
    requires b.Shaped() && b.width == 1 && b.length == 6 && b.tail == 0 && b.head == 2 && b.reader.Waiting?
    requires b.cells[0] == 1
    ensures Goes(b, Look, b1) && Goes(b1, CopyOut, b2) && b2 == b.(reader := ReadingLength(2, [1]))
  {
    b1 := Apply(b, Look);
    b2 := Apply(b1, CopyOut);
    assert b2.reader.got == [1];
  }

  lemma LengthTaken(b: Buffer) returns (next: Buffer)
    requires b.Shaped() && b.width == 1 && b.length == 6 && b.tail == 0 && b.reader == ReadingLength(2, [1])
    ensures Goes(b, PublishTail(1), next)
    ensures next == b.(tail := 1, reader := ReadingData(1, []), past := b.past.(consumed := b.past.consumed + 1))
  {
    OneByte([b.cells[1]]);
    next := Apply(b, PublishTail(1));
  }

  lemma ByteTaken(b: Buffer) returns (b1: Buffer, b2: Buffer)
    requires b.Shaped() && b.width == 1 && b.length == 6 && b.tail == 1 && b.reader == ReadingData(1, [])
    ensures Goes(b, CopyOut, b1) && Goes(b1, PublishTail(1), b2)
    ensures b2.past.sent == b.past.sent && b2.past.received == b.past.received + [[b.cells[1]]]
  {
    b1 := Apply(b, CopyOut);
    assert b1.reader.got == [b.cells[1]];
    b2 := Apply(b1, PublishTail(1));
  }

  /** The same receiver takes the one byte that it finds at the tail. */
  lemma ByteReceived(b: Buffer) returns (steps: seq<Step>, end: Buffer)
    requires b.Shaped() && b.width == 1 && b.length == 6 && b.tail == 0 && b.head == 2 && b.reader.Waiting?
    requires b.cells[0] == 1
    ensures Leads(b, steps, end) && end.past.sent == b.past.sent
    ensures end.past.received == b.past.received + [[b.cells[1]]]
  {
    var b1, b2 := ByteSeen(b);
    var b3 := LengthTaken(b2);
    var b4, b5 := ByteTaken(b3);
    Stepping(b4, PublishTail(1), b5, [], b5);
    Stepping(b3, CopyOut, b4, [PublishTail(1)] + [], b5);
    ThreeSteps(b, Look, b1, CopyOut, b2, PublishTail(1), b3);
    steps := [Look] + ([CopyOut] + ([PublishTail(1)] + [])) + ([CopyOut] + ([PublishTail(1)] + []));
    end := b5;
    LeadsTogether(b, [Look] + ([CopyOut] + ([PublishTail(1)] + [])), b3, [CopyOut] + ([PublishTail(1)] + []), b5);
  }

  lemma TailRestored(b: Buffer) returns (next: Buffer)
    requires b.Shaped() && b.width == 1 && b.reader == Restoring(0)
    ensures Goes(b, RestoreTail, next)
    ensures next == b.(tail := 0, reader := Waiting, past := b.past.(consumed := b.past.consumed - 1))
  {
    next := Apply(b, RestoreTail);
  }

  /** Two messages of one byte, the first of them sent before the tail is put
      back: the second takes the place of the oldest, and is received first. */
  lemma SecondReceivedFirst() returns (steps: seq<Step>, end: Buffer)
    ensures Leads(Refused(), steps, end) && end.past.sent == [[7, 7, 7], [9], [5]] && end.past.received == [[5]]
  {
    var s1, b1 := OneByteSent(Refused(), [9]);
    var b2 := TailRestored(b1);
    var s3, b3 := OneByteSent(b2, [5]);
    var s4;
    s4, end := ByteReceived(b3);
    LeadsTogether(b2, s3, b3, s4, end);
    Stepping(b1, RestoreTail, b2, s3 + s4, end);
    LeadsTogether(Refused(), s1, b1, [RestoreTail] + (s3 + s4), end);
    steps := s1 + ([RestoreTail] + (s3 + s4));
  }

  /** A run in which messages are lost: one byte sent while the receive that is
      too small for the first message puts the tail back. */
  lemma MessagesLost() returns (steps: seq<Step>, end: Buffer)
    ensures Leads(Initial(1, [0, 0, 0, 0, 0, 0]), steps, end)
    ensures end.past.sent == [[7, 7, 7], [9], [5]] && end.past.received == [[5]]
    ensures !(end.past.received <= end.past.sent)
  {
    var s1 := ThreeBytesSent();
    var s2 := ReceiveRefused();
    var s3;
    s3, end := SecondReceivedFirst();
    LeadsTogether(Sevens(), s2, Refused(), s3, end);
    LeadsTogether(Empty(), s1, Sevens(), s2 + s3, end);
    steps := s1 + (s2 + s3);
    assert Empty() == Initial(1, [0, 0, 0, 0, 0, 0]);
    assert end.past.received[0] != end.past.sent[0];
  }
}
