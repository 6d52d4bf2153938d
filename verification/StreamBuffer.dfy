/** Bytes, the length prefix of a message, and the byte stream that a sequence
    of messages makes in a message buffer. */
module Framing {

  type Byte = x: int | 0 <= x < 256

  function Pow256(w: nat): nat {
    if w == 0 then 1 else 256 * Pow256(w - 1)
  }

  /** The bytes of n in memory, lowest first. */
  function Encode(n: nat, w: nat): (s: seq<Byte>)
    ensures |s| == w
  {
    if w == 0 then [] else [n % 256] + Encode(n / 256, w - 1)
  }

  function Decode(s: seq<Byte>): nat {
    if s == [] then 0 else s[0] + 256 * Decode(s[1..])
  }

  lemma {:induction false} DecodeEncode(n: nat, w: nat)
    requires n < Pow256(w)
    ensures Decode(Encode(n, w)) == n
  {
    if w > 0 {
      DecodeEncode(n / 256, w - 1);
    }
  }

  type Message = seq<Byte>

  /** A message with its length in front, in w = sizeof( size_t ) bytes. */
  function Frame(m: Message, w: nat): (f: seq<Byte>)
    ensures |f| == w + |m|
  {
    Encode(|m|, w) + m
  }

  function Frames(ms: seq<Message>, w: nat): seq<Byte> {
    if ms == [] then [] else Frames(ms[..|ms| - 1], w) + Frame(ms[|ms| - 1], w)
  }

  /** Where the frame of message r starts, and what it consists of. */
  lemma {:induction false} FrameAt(ms: seq<Message>, r: nat, w: nat)
    requires r < |ms|
    ensures |Frames(ms[..r + 1], w)| == |Frames(ms[..r], w)| + w + |ms[r]| <= |Frames(ms, w)|
    ensures Frames(ms, w)[|Frames(ms[..r], w)|..][..w + |ms[r]|] == Frame(ms[r], w)
  {
    var init := ms[..|ms| - 1];
    assert ms[..r + 1][..r] == ms[..r];
    if r == |ms| - 1 {
      assert ms[..r + 1] == ms;
      assert Frames(ms, w)[|Frames(init, w)|..] == Frame(ms[r], w);
    } else {
      FrameAt(init, r, w);
      assert init[..r] == ms[..r] && init[..r + 1] == ms[..r + 1];
      var start := |Frames(ms[..r], w)|;
      assert Frames(ms, w)[start..][..w + |ms[r]|] == Frames(init, w)[start..][..w + |ms[r]|];
    }
  }

  lemma {:induction false} FramesMonotone(ms: seq<Message>, r: nat, c: nat, w: nat)
    requires r <= c <= |ms|
    ensures |Frames(ms[..r], w)| <= |Frames(ms[..c], w)|
    decreases c - r
  {
    if r < c {
      FrameAt(ms, r, w);
      FramesMonotone(ms, r + 1, c, w);
    }
  }

  lemma FramesOfLast(init: seq<Message>, last: Message, w: nat)
    ensures Frames(init + [last], w) == Frames(init, w) + Frame(last, w)
  {
    assert (init + [last])[..|init|] == init;
  }

  lemma Regrouped(init: seq<Byte>, first: seq<Byte>, middle: seq<Byte>, last: seq<Byte>)
    requires init == first + middle
    ensures init + last == first + (middle + last)
  {
  }

  /** The oldest message comes first. */
  lemma {:induction false} FramesOfFirst(ms: seq<Message>, w: nat)
    requires ms != []
    ensures Frames(ms, w) == Frame(ms[0], w) + Frames(ms[1..], w)
  {
    var n := |ms| - 1;
    var init, last := ms[..n], ms[n];
    FramesOfLast(init, last, w);
    assert ms == init + [last];
    if n > 0 {
      FramesOfFirst(init, w);
      FramesOfLast(init[1..], last, w);
      assert ms[1..] == init[1..] + [last];
      Regrouped(Frames(init, w), Frame(ms[0], w), Frames(init[1..], w), Frame(last, w));
    }
  }

  lemma SliceIndex<T>(s: seq<T>, start: nat, slice: seq<T>, i: nat)
    requires start + |slice| <= |s| && s[start..][..|slice|] == slice && i < |slice|
    ensures s[start + i] == slice[i]
  {
  }

  function FrameByte(m: Message, w: nat, i: nat): (byte: Byte)
    requires i < w + |m|
    ensures byte == Frame(m, w)[i]
  {
    if i < w then Encode(|m|, w)[i] else m[i - w]
  }

  lemma FrameByteAt(ms: seq<Message>, r: nat, w: nat, i: nat)
    requires r < |ms| && i < w + |ms[r]|
    ensures |Frames(ms[..r], w)| + i < |Frames(ms, w)|
    ensures Frames(ms, w)[|Frames(ms[..r], w)| + i] == FrameByte(ms[r], w, i)
  {
    FrameAt(ms, r, w);
    SliceIndex(Frames(ms, w), |Frames(ms[..r], w)|, Frame(ms[r], w), i);
  }

  /** A position at most one length prefix behind the start of frame c, and
      more than a length prefix behind the start of frame r, has frame r in
      front of it. */
  lemma FrameInFront(ms: seq<Message>, r: nat, c: nat, w: nat, h: nat)
    requires r <= |ms| && c <= |ms|
    requires |Frames(ms[..c], w)| <= h <= |Frames(ms[..c], w)| + w
    requires h - |Frames(ms[..r], w)| > w
    ensures r < c && w + |ms[r]| <= h - |Frames(ms[..r], w)|
  {
    if c <= r {
      FramesMonotone(ms, c, r, w);
    } else {
      FrameAt(ms, r, w);
      FramesMonotone(ms, r + 1, c, w);
    }
  }
}

/** Positions in a byte ring of given length. */
module RingArithmetic {
  import opened Arithmetic

  /** An index that has run past the end of the ring by less than one round. */
  function Slot(p: nat, length: nat): (i: nat)
    requires p < 2 * length
    ensures i < length
  {
    if p < length then p else p - length
  }

  /** The cell that holds byte number k of the stream. */
  function Cell(k: nat, length: nat): (i: nat)
    requires length > 0
    ensures i < length
  {
    k % length
  }

  /** xStreamBufferSpacesAvailable. */
  function Spaces(length: nat, tail: nat, head: nat): (n: nat)
    requires tail < length && head < length
  {
    var space := length + tail - head - 1;
    if space >= length then space - length else space
  }

  /** prvBytesInBuffer. */
  function Bytes(length: nat, tail: nat, head: nat): (n: nat)
    requires tail < length && head < length
  {
    var count := length + head - tail;
    if count >= length then count - length else count
  }

  /** Bytes held and bytes free always make the length less one. */
  lemma SpacesPlusBytes(length: nat, tail: nat, head: nat)
    requires tail < length && head < length
    ensures Spaces(length, tail, head) + Bytes(length, tail, head) == length - 1
  {
  }

  /** Stepping on from the cell of k, wrapping once, gives the cell of k + i. */
  lemma SlotOfCell(k: nat, i: nat, length: nat)
    requires length > 0 && i <= length
    ensures Slot(Cell(k, length) + i, length) == Cell(k + i, length)
  {
    var q, m := k / length, k % length;
    assert k == q * length + m;
    if m + i < length {
      DivModUnique(k + i, q, m + i, length);
    } else {
      assert k + i == (q + 1) * length + (m + i - length);
      DivModUnique(k + i, q + 1, m + i - length, length);
    }
  }

  /** Within one round no two positions share a cell. */
  lemma CellsDiffer(k: nat, j: nat, length: nat)
    requires length > 0 && k < j < k + length
    ensures Cell(k, length) != Cell(j, length)
  {
    SlotOfCell(k, j - k, length);
  }

  /** The byte count computed from the two indices is the true distance, as
      long as the head is less than one round ahead. */
  lemma BytesIsDistance(length: nat, t: nat, h: nat)
    requires length > 0 && t <= h < t + length
    ensures Bytes(length, Cell(t, length), Cell(h, length)) == h - t
  {
    SlotOfCell(t, h - t, length);
  }

  /** The byte count is too small by a round when there is more than fits. */
  lemma BytesOneRoundOn(length: nat, t: nat, h: nat, extra: nat)
    requires 0 < length && extra <= length && t + extra < h < t + length + extra
    ensures Bytes(length, Cell(t, length), Cell(h, length)) > extra <==> h - t < length
  {
    if h < t + length {
      BytesIsDistance(length, t, h);
    } else {
      DivModUnique(h, (h - length) / length + 1, (h - length) % length, length);
      BytesIsDistance(length, t, h - length);
    }
  }
}

/** stream_buffer.c, called by one task at a time. */
module StreamBuffers {
  import opened Framing
  import opened RingArithmetic

  function Min(a: nat, b: nat): nat {
    if a < b then a else b
  }

  /** memcpy into a buffer. */
  method CopyIn(a: array<Byte>, at: nat, data: seq<Byte>)
    requires at + |data| <= a.Length
    modifies a
    ensures forall j :: 0 <= j < a.Length ==> a[j] == if at <= j < at + |data| then data[j - at] else old(a[j])
  {
    for i := 0 to |data|
      invariant forall j :: 0 <= j < a.Length ==> a[j] == if at <= j < at + i then data[j - at] else old(a[j])
    {
      a[at + i] := data[i];
    }
  }

  /** The cells from the tail on, once round, hold the bytes of s. */
  ghost predicate Holds(cells: seq<Byte>, tail: nat, s: seq<Byte>)
    requires tail < |cells| && |s| <= |cells|
  {
    forall i :: 0 <= i < |s| ==> cells[Slot(tail + i, |cells|)] == s[i]
  }

  /** How far cell j is behind the head. */
  function Offset(j: nat, head: nat, length: nat): (d: nat)
    requires j < length && head < length
    ensures d < length && Slot(head + d, length) == j
  {
    if j >= head then j - head else j + length - head
  }

  /** The cells after data has been written from the head on. */
  function Overwritten(cells: seq<Byte>, head: nat, data: seq<Byte>): (r: seq<Byte>)
    requires head < |cells| && |data| <= |cells|
    ensures |r| == |cells|
    ensures forall j :: 0 <= j < |r| ==>
              var d := Offset(j, head, |cells|); r[j] == if d < |data| then data[d] else cells[j]
  {
    seq(|cells|, j requires 0 <= j < |cells| =>
      var d := Offset(j, head, |cells|); if d < |data| then data[d] else cells[j])
  }

  /** Writing behind what is held appends to it. */
  lemma OverwriteAppends(cells: seq<Byte>, tail: nat, s: seq<Byte>, data: seq<Byte>)
    requires tail < |cells| && |s| + |data| < |cells| && Holds(cells, tail, s)
    ensures Holds(Overwritten(cells, Slot(tail + |s|, |cells|), data), tail, s + data)
  {
    var n, head := |cells|, Slot(tail + |s|, |cells|);
    forall i | 0 <= i < |s + data|
      ensures Overwritten(cells, head, data)[Slot(tail + i, n)] == (s + data)[i]
    {
      assert Offset(Slot(tail + i, n), head, n) == if i < |s| then n - |s| + i else i - |s|;
    }
  }

  /** memcpy of data into the ring, in one piece or two. */
  method CopyInRing(a: array<Byte>, head: nat, data: seq<Byte>)
    requires head < a.Length && |data| <= a.Length
    modifies a
    ensures a[..] == Overwritten(old(a[..]), head, data)
  {
    var first := Min(a.Length - head, |data|);
    CopyIn(a, head, data[..first]);
    if |data| > first {
      CopyIn(a, 0, data[first..]);
    }
  }

  /** The two slices read out are the first bytes held. */
  lemma SliceHolds(cells: seq<Byte>, tail: nat, s: seq<Byte>, n: nat)
    requires tail < |cells| && n <= |s| < |cells| && Holds(cells, tail, s)
    ensures var first := Min(|cells| - tail, n);
            cells[tail..tail + first] + cells[..n - first] == s[..n]
  {
    var first := Min(|cells| - tail, n);
    var r := cells[tail..tail + first] + cells[..n - first];
    assert forall i :: 0 <= i < n ==> r[i] == cells[Slot(tail + i, |cells|)];
  }

  lemma DropHolds(cells: seq<Byte>, tail: nat, s: seq<Byte>, n: nat)
    requires tail < |cells| && n <= |s| < |cells| && Holds(cells, tail, s)
    ensures Holds(cells, Slot(tail + n, |cells|), s[n..])
  {
    forall i | 0 <= i < |s| - n
      ensures cells[Slot(Slot(tail + n, |cells|) + i, |cells|)] == s[n..][i]
    {
      assert Slot(Slot(tail + n, |cells|) + i, |cells|) == Slot(tail + (n + i), |cells|);
    }
  }

  lemma Associates(a: seq<Byte>, b: seq<Byte>, c: seq<Byte>)
    ensures a + b + c == a + (b + c)
  {
  }

  lemma FewerBytes(length: nat, tail: nat, head: nat, n: nat)
    requires tail < length && head < length && n <= Bytes(length, tail, head)
    ensures Bytes(length, Slot(tail + n, length), head) == Bytes(length, tail, head) - n
  {
  }

  class StreamBuffer {
    const width: nat              // sizeof( size_t )
    const isMessageBuffer: bool
    const bytes: array<Byte>
    var head: nat
    var tail: nat

    ghost var contents: seq<Byte>

    ghost predicate Valid()
      reads `head, `tail, `contents, bytes
    {
      && head < bytes.Length && tail < bytes.Length
      && |contents| == Bytes(bytes.Length, tail, head)
      && Holds(bytes[..], tail, contents)
    }

    constructor (size: nat, width: nat, isMessageBuffer: bool)
      ensures Valid() && fresh(bytes) && contents == []
      ensures bytes.Length == size + 1 && this.width == width && this.isMessageBuffer == isMessageBuffer
    {
      this.width, this.isMessageBuffer := width, isMessageBuffer;
      bytes := new Byte[size + 1];
      head, tail, contents := 0, 0, [];
    }

    /** prvWriteBytesToBuffer. */
    method WriteBytes(data: seq<Byte>) returns (n: nat)
      requires Valid() && 0 < |data| <= Spaces(bytes.Length, tail, head)
      modifies this`head, this`contents, bytes
      ensures Valid() && contents == old(contents) + data && n == |data|
    {
      OverwriteAppends(bytes[..], tail, contents, data);
      CopyInRing(bytes, head, data);
      var next := head + |data|;
      if next >= bytes.Length {
        next := next - bytes.Length;
      }
      head, contents := next, contents + data;
      n := |data|;
    }

    /** prvReadBytesFromBuffer: one slice of the buffer, or two when the data wraps. */
    method ReadBytes(max: nat, available: nat) returns (data: seq<Byte>)
      requires Valid() && available <= |contents|
      modifies this`tail, this`contents
      ensures Valid()
      ensures var n := Min(available, max); data == old(contents)[..n] && contents == old(contents)[n..]
    {
      var count := Min(available, max);
      data := [];
      if count > 0 {
        data := TakeBytes(count);
      }
    }

    method TakeBytes(count: nat) returns (data: seq<Byte>)
      requires Valid() && 0 < count <= |contents|
      modifies this`tail, this`contents
      ensures Valid() && data == old(contents)[..count] && contents == old(contents)[count..]
    {
      var next := tail;
      var first := Min(bytes.Length - next, count);
      data := bytes[next..next + first];
      if count > first {
        data := data + bytes[..count - first];
      }
      SliceHolds(bytes[..], tail, contents, count);
      assert data == contents[..count];
      MoveTail(count);
    }

    method MoveTail(count: nat)
      requires Valid() && 0 < count <= |contents|
      modifies this`tail, this`contents
      ensures Valid() && contents == old(contents)[count..]
    {
      var next := tail + count;
      if next >= bytes.Length {
        next := next - bytes.Length;
      }
      DropHolds(bytes[..], tail, contents, count);
      FewerBytes(bytes.Length, tail, head, count);
      tail := next;
      contents := contents[count..];
    }

    /** prvWriteMessageToBuffer, given the free space the caller has sampled. */
    method WriteMessage(data: seq<Byte>, space: nat) returns (n: nat)
      requires Valid() && width > 0 && data != [] && space <= Spaces(bytes.Length, tail, head)
      modifies this`head, this`contents, bytes
      ensures Valid()
      ensures isMessageBuffer ==>
                && n == (if space >= width + |data| then |data| else 0)
                && contents == old(contents) + (if n > 0 then Frame(data, width) else [])
      ensures !isMessageBuffer ==> n == Min(|data|, space) && contents == old(contents) + data[..n]
    {
      var write, out := false, data;
      ghost var before := contents;
      if space == 0 {
      } else if !isMessageBuffer {
        write := true;
        out := data[..Min(|data|, space)];
      } else if space >= width + |data| {
        write := true;
        Associates(contents, Encode(|data|, width), data);
        var _ := WriteBytes(Encode(|data|, width));
      }
      n := 0;
      if write {
        n := WriteBytes(out);
      }
      assert before + [] == before;
    }

    /** prvReadMessageFromBuffer.  A message longer than the caller's room stays. */
    method ReadMessage(room: nat, available: nat, ghost m: Message, ghost rest: seq<Byte>) returns (data: seq<Byte>)
      requires Valid() && width > 0 && available <= |contents|
      requires isMessageBuffer ==>
                 contents == Frame(m, width) + rest && |m| < Pow256(width) && width + |m| <= available
      modifies this`tail, this`contents
      ensures Valid()
      ensures isMessageBuffer && |m| <= room ==> data == m && contents == rest
      ensures isMessageBuffer && |m| > room ==> data == [] && tail == old(tail) && contents == old(contents)
      ensures !isMessageBuffer ==>
                var n := Min(room, available); data == old(contents)[..n] && contents == old(contents)[n..]
    {
      var next, left := room, available;
      if isMessageBuffer {
        var originalTail := tail;
        ghost var original := contents;
        var prefix := ReadBytes(width, left);
        DecodeEncode(|m|, width);
        assert prefix == Encode(|m|, width);
        next := Decode(prefix);
        left := left - width;
        if next > room {
          tail, contents := originalTail, original;
          next := 0;
        }
      }
      data := ReadBytes(next, left);
    }

    /** xStreamBufferSend without a block time, on a buffer of messages. */
    method Send(data: Message, ghost ms: seq<Message>) returns (n: nat)
      requires Valid() && width > 0 && isMessageBuffer && data != [] && contents == Frames(ms, width)
      modifies this`head, this`contents, bytes
      ensures Valid()
      ensures n == if width + |data| <= old(Spaces(bytes.Length, tail, head)) then |data| else 0
      ensures contents == Frames(if n > 0 then ms + [data] else ms, width)
    {
      n := WriteMessage(data, Spaces(bytes.Length, tail, head));
      assert (ms + [data])[..|ms|] == ms;
    }

    /** xStreamBufferReceive without a block time: the oldest message or nothing. */
    method Receive(room: nat, ghost ms: seq<Message>) returns (data: seq<Byte>)
      requires Valid() && width > 0 && isMessageBuffer && contents == Frames(ms, width)
      requires forall i :: 0 <= i < |ms| ==> 0 < |ms[i]| < Pow256(width)
      modifies this`tail, this`contents
      ensures Valid()
      ensures ms != [] && |ms[0]| <= room ==> data == ms[0] && contents == Frames(ms[1..], width)
      ensures ms == [] || |ms[0]| > room ==> data == [] && tail == old(tail) && contents == old(contents)
    {
      data := [];
      var available := Bytes(bytes.Length, tail, head);
      if ms != [] {
        FramesOfFirst(ms, width);
      }
      if available > width {
        data := ReadMessage(room, available, ms[0], Frames(ms[1..], width));
      }
    }
  }
}
