// Frames on a byte pipe whose reads and writes may move only part of what was asked for.
module Pipe {
  import opened Basics

  type Byte = x: int | 0 <= x < 256

  const MAXIMUM_PIPE_FRAME_SIZE: nat := 64 * 1024 * 1024

  // ---- the format ----

  // The length, least significant byte first.
  function Header(n: nat): (h: seq<Byte>)
    requires n < 0x1_0000_0000
    ensures |h| == 4
  {
    [n % 256, n / 256 % 256, n / 65536 % 256, n / 16777216]
  }

  // The bytes shifted into place and combined.
  function HeaderValue(h: seq<Byte>): (n: nat)
    requires |h| == 4
    ensures n < 0x1_0000_0000
  {
    h[0] as int + 256 * h[1] as int + 65536 * h[2] as int + 16777216 * h[3] as int
  }

  lemma HeaderReadsBack(n: nat)
    requires n < 0x1_0000_0000
    ensures HeaderValue(Header(n)) == n
  {
    assert n == n / 256 * 256 + n % 256;
    assert n / 256 == n / 65536 * 256 + n / 256 % 256;
    assert n / 65536 == n / 16777216 * 256 + n / 65536 % 256;
  }

  lemma HeaderIsUnique(h: seq<Byte>)
    requires |h| == 4
    ensures Header(HeaderValue(h)) == h
  {
    var n := HeaderValue(h);
    LowestByte(h[2], h[3]);
    LowestByte(h[1], h[2] as int + 256 * h[3] as int);
    LowestByte(h[0], h[1] as int + 256 * h[2] as int + 65536 * h[3] as int);
    assert n / 65536 == n / 256 / 256 && n / 16777216 == n / 65536 / 256;
  }

  lemma LowestByte(low: Byte, high: nat)
    ensures (low as int + 256 * high) % 256 == low && (low as int + 256 * high) / 256 == high
  {}

  // What one frame may carry.
  predicate FrameOk(payload: seq<Byte>, maximum: nat) { |payload| <= maximum && |payload| <= MAXIMUM_PIPE_FRAME_SIZE }

  function Frame(payload: seq<Byte>): seq<Byte>
    requires |payload| <= MAXIMUM_PIPE_FRAME_SIZE
  {
    Header(|payload|) + payload
  }

  predicate AllOk(payloads: seq<seq<Byte>>, maximum: nat) {
    forall i :: 0 <= i < |payloads| ==> FrameOk(payloads[i], maximum)
  }

  function Frames(payloads: seq<seq<Byte>>, maximum: nat): seq<Byte>
    requires AllOk(payloads, maximum)
  {
    if payloads == [] then [] else Frame(payloads[0]) + Frames(payloads[1..], maximum)
  }

  lemma {:induction false} FramesNext(payloads: seq<seq<Byte>>, last: seq<Byte>, maximum: nat)
    requires AllOk(payloads, maximum) && FrameOk(last, maximum)
    ensures AllOk(payloads + [last], maximum)
    ensures Frames(payloads + [last], maximum) == Frames(payloads, maximum) + Frame(last)
  {
    hide Frame;
    var all := payloads + [last];
    if payloads == [] {
      assert all[1..] == [];
      assert Frames(all, maximum) == Frame(last) + Frames([], maximum);
    } else {
      FramesNext(payloads[1..], last, maximum);
      assert all[1..] == payloads[1..] + [last];
    }
  }

  // A stream can be cut into frames in one way only.
  lemma {:induction false} FramesAreUnambiguous(a: seq<seq<Byte>>, more: seq<Byte>, b: seq<seq<Byte>>, maximum: nat)
    requires AllOk(a, maximum) && AllOk(b, maximum) && Frames(a, maximum) + more == Frames(b, maximum)
    ensures |a| <= |b| && a == b[..|a|] && more == Frames(b[|a|..], maximum)
  {
    if a == [] {
      assert b[0..] == b;
      assert Frames(a, maximum) + more == more;
    } else {
      LongerThanHeader(a, maximum);
      assert b != [];
      var rest := Frames(a[1..], maximum) + more;
      assert Frames(a, maximum) + more == Header(|a[0]|) + (a[0] + rest);
      FirstFrameAgrees(a[0], rest, b[0], Frames(b[1..], maximum));
      FramesAreUnambiguous(a[1..], more, b[1..], maximum);
      assert b[1..][..|a| - 1] == b[1..|a|] && b[1..][|a| - 1..] == b[|a|..];
      assert a == [a[0]] + a[1..];
      assert b[..|a|] == [b[0]] + b[1..|a|];
    }
  }

  lemma LongerThanHeader(payloads: seq<seq<Byte>>, maximum: nat)
    requires AllOk(payloads, maximum) && payloads != []
    ensures |Frames(payloads, maximum)| >= 4
  {}

  lemma FirstFrameAgrees(a: seq<Byte>, more: seq<Byte>, b: seq<Byte>, rest: seq<Byte>)
    requires |a| <= MAXIMUM_PIPE_FRAME_SIZE && |b| <= MAXIMUM_PIPE_FRAME_SIZE
    requires Header(|a|) + (a + more) == Frame(b) + rest
    ensures a == b && more == rest
  {
    hide Header, HeaderValue;
    var s := Header(|a|) + (a + more);
    assert s == Header(|b|) + (b + rest);
    assert s[..4] == Header(|a|) && s[..4] == Header(|b|);
    HeaderReadsBack(|a|);
    HeaderReadsBack(|b|);
    assert s[4..] == a + more && s[4..] == b + rest;
    assert (a + more)[..|a|] == a && (b + rest)[..|b|] == b;
    assert (a + more)[|a|..] == more && (b + rest)[|b|..] == rest;
  }

  // ---- transfers ----

  datatype Status = Completed | Disconnected | Cancelled | TimedOut | InvalidData | BufferOverflow | Failed(code: nat)

  // What the system does with one read or write request: it moves some bytes, or the request ends otherwise.
  datatype Outcome = Moved(count: nat) | Ended(status: Status)

  // The system's behaviour at the first, second, ... request.
  type System = nat -> Outcome

  // A system that moves something at every request.
  ghost predicate Cooperative(system: System) { forall k: nat :: system(k).Moved? && system(k).count > 0 }

  lemma SameTail(a: seq<Byte>, b: seq<Byte>, k: nat, n: nat)
    requires k + n <= |a| == |b| && a[k..] == b[k..]
    ensures a[k + n..] == b[k + n..]
  {
    assert a[k + n..] == a[k..][n..] && b[k + n..] == b[k..][n..];
  }

  // Of a transfer that began with `before` on the wire and `content` in the buffer, the first k bytes are done.
  ghost predicate Progress(write: bool, before: seq<Byte>, content: seq<Byte>, bytes: seq<Byte>, data: seq<Byte>, k: nat) {
    && k <= |data| == |content|
    && (write ==> data == content && bytes == before + data[..k])
    && (!write ==> before == data[..k] + bytes && data[k..] == content[k..])
  }

  lemma NoProgress(write: bool, before: seq<Byte>, content: seq<Byte>)
    ensures Progress(write, before, content, before, content, 0)
  {}

  lemma ProgressMeans(write: bool, before: seq<Byte>, content: seq<Byte>, bytes: seq<Byte>, data: seq<Byte>, k: nat)
    requires Progress(write, before, content, bytes, data, k)
    ensures write ==> data == content && bytes == before + data[..k]
    ensures !write ==> before == data[..k] + bytes && data[k..] == content[k..]
  {}

  lemma ProgressSent(before: seq<Byte>, content: seq<Byte>, bytes: seq<Byte>, data: seq<Byte>, k: nat, n: nat)
    requires Progress(true, before, content, bytes, data, k) && k + n <= |data|
    ensures Progress(true, before, content, bytes + data[k..k + n], data, k + n)
  {
    assert data[..k + n] == data[..k] + data[k..k + n];
  }

  lemma ProgressReceived(before: seq<Byte>, content: seq<Byte>, wire: seq<Byte>, buffer: seq<Byte>, bytes: seq<Byte>, data: seq<Byte>,
                         k: nat, n: nat)
    requires Progress(false, before, content, wire, buffer, k) && k + n <= |buffer| == |data|
    requires data[k + n..] == buffer[k + n..] && data[..k + n] + bytes == buffer[..k] + wire
    ensures Progress(false, before, content, bytes, data, k + n)
  {
    SameTail(buffer, content, k, n);
  }

  class Wire {
    // The bytes written and not yet read.
    var bytes: seq<Byte>
    var requests: nat

    constructor ()
      ensures bytes == [] && requests == 0
    {
      bytes, requests := [], 0;
    }

    // Moves all of data through the pipe, piece by piece; on any other end, a part from the front has been moved.
    method Transfer(data: array<Byte>, write: bool, system: System) returns (status: Status, ghost moved: nat)
      modifies this, data
      ensures moved <= data.Length
      ensures status == Completed <==> moved == data.Length
      ensures write ==> data[..] == old(data[..]) && bytes == old(bytes) + data[..moved]
      ensures !write ==> old(bytes) == data[..moved] + bytes && data[moved..] == old(data[moved..])
      ensures Cooperative(system) && (write || data.Length <= |old(bytes)|) ==> status == Completed
    {
      hide Progress;
      var cursor: nat, remaining: nat := 0, data.Length;
      moved := 0;
      ghost var before, content := bytes, data[..];
      NoProgress(write, before, content);
      while remaining > 0
        invariant cursor + remaining == data.Length && moved == cursor
        invariant Progress(write, before, content, bytes, data[..], cursor)
        invariant !write ==> |bytes| + cursor == |before|
      {
        var outcome := system(requests);
        requests := requests + 1;
        if outcome.Ended? {
          status := if outcome.status == Completed then Disconnected else outcome.status;
          ProgressMeans(write, before, content, bytes, data[..], cursor);
          return;
        }
        var transferred := if outcome.count <= remaining then outcome.count else remaining;
        if !write && transferred > |bytes| { transferred := |bytes|; }
        if transferred == 0 {
          ProgressMeans(write, before, content, bytes, data[..], cursor);
          return Disconnected, moved;
        }
        ghost var wire, buffer := bytes, data[..];
        if write {
          bytes := bytes + data[cursor..cursor + transferred];
          ProgressSent(before, content, wire, buffer, cursor, transferred);
        } else {
          CopyIn(data, cursor, transferred);
          ProgressReceived(before, content, wire, buffer, bytes, data[..], cursor, transferred);
        }
        cursor, remaining := cursor + transferred, remaining - transferred;
        moved := cursor;
      }
      ProgressMeans(write, before, content, bytes, data[..], cursor);
      status := Completed;
    }

    // Takes bytes off the wire into the buffer.
    method CopyIn(data: array<Byte>, cursor: nat, count: nat)
      requires cursor + count <= data.Length && count <= |bytes|
      modifies this`bytes, data
      ensures data[..cursor] == old(data[..cursor]) && data[cursor + count..] == old(data[cursor + count..])
      ensures data[cursor..cursor + count] == old(bytes)[..count] && bytes == old(bytes)[count..]
      ensures data[..cursor + count] + bytes == old(data[..cursor]) + old(bytes)
    {
      forall k | cursor <= k < cursor + count { data[k] := bytes[k - cursor]; }
      ghost var before := bytes;
      bytes := bytes[count..];
      assert data[..cursor + count] == data[..cursor] + data[cursor..cursor + count];
      assert before == before[..count] + before[count..];
    }

    // Writes one frame whole, or reports why only a part from its front was written.
    method WriteFrame(payload: array<Byte>, maximum: nat, system: System) returns (status: Status)
      modifies this, payload
      ensures payload[..] == old(payload[..])
      ensures status == InvalidData && bytes == old(bytes) <== !FrameOk(payload[..], maximum)
      ensures FrameOk(payload[..], maximum) ==>
                && (status == Completed ==> bytes == old(bytes) + Frame(payload[..]))
                && (status != Completed ==> exists n :: 0 <= n < |Frame(payload[..])| && bytes == old(bytes) + Frame(payload[..])[..n])
                && (Cooperative(system) ==> status == Completed)
    {
      hide Header;
      if payload.Length > maximum || payload.Length > MAXIMUM_PIPE_FRAME_SIZE { return InvalidData; }
      var size := payload.Length;
      var header := new Byte[4];
      ghost var before, h := bytes, Header(size);
      FillHeader(header, size);
      ghost var sent, body;
      status, sent := Transfer(header, true, system);
      if status != Completed {
        assert Frame(payload[..])[..sent] == h[..sent];
        return;
      }
      assert header[..4] == header[..];
      if size == 0 {
        assert Frame(payload[..]) == h;
        return;
      }
      status, body := Transfer(payload, true, system);
      assert before + h + payload[..body] == before + (h + payload[..body]);
      assert Frame(payload[..])[..4 + body] == h + payload[..body];
      if status == Completed { assert payload[..body] == payload[..]; }
    }

    method FillHeader(header: array<Byte>, size: nat)
      requires header.Length == 4 && size < 0x1_0000_0000
      modifies header
      ensures header[..] == Header(size)
    {
      header[0] := size % 256;
      header[1] := size / 256 % 256;
      header[2] := size / 65536 % 256;
      header[3] := size / 16777216;
    }

    // Reads one frame off the front of the wire, or reports why only a part of it was read; never anything beyond it. The
    // reader below, fed with the same bytes in any pieces, delivers the same payload.
    method ReadFrame(maximum: nat, system: System) returns (status: Status, payload: seq<Byte>)
      modifies this
      ensures status == Completed ==> FrameOk(payload, maximum) && old(bytes) == Frame(payload) + bytes
      ensures status == Completed ==> FedAlike(old(bytes), payload, bytes, maximum)
      ensures forall p :: FrameOk(p, maximum) && Frame(p) <= old(bytes) && Cooperative(system) ==> status == Completed && payload == p
      ensures status != Completed ==> payload == [] && exists n: nat :: PartRead(old(bytes), n, bytes, maximum)
      ensures TooLong(old(bytes), maximum) && Cooperative(system) ==> status == BufferOverflow && bytes == old(bytes)[4..]
    {
      hide Header, HeaderValue;
      payload := [];
      var header := new Byte[4];
      ghost var before := bytes;
      ghost var got, body;
      forall p | FrameOk(p, maximum) && Frame(p) <= before ensures StartsWith(before, p) { FrontFrame(before, p); }
      status, got := Transfer(header, false, system);
      assert before[got..] == bytes;
      assert header[..4] == header[..] && (got == 4 ==> before[..4] == header[..]);
      assert got <= 4 ==> PartRead(before, got, bytes, maximum);
      if status != Completed { return; }
      var size := ReadHeader(header);
      if size > maximum || size > MAXIMUM_PIPE_FRAME_SIZE { return BufferOverflow, []; }
      HeaderIsUnique(header[..]);
      if size == 0 {
        assert before == Frame([]) + bytes;
        ReadIsFed(before, [], bytes, maximum);
        return Completed, [];
      }
      var buffer := new Byte[size];
      ghost var h := header[..];
      status, body := Transfer(buffer, false, system);
      assert h + (buffer[..body] + bytes) == h + buffer[..body] + bytes;
      assert before[4 + body..] == bytes;
      if status != Completed {
        assert before[..4] == h && PartRead(before, 4 + body, bytes, maximum);
        return;
      }
      assert buffer[..body] == buffer[..];
      payload := buffer[..];
      ReadIsFed(before, payload, bytes, maximum);
    }

    // A length in front that is not accepted.
    ghost predicate TooLong(stream: seq<Byte>, maximum: nat) {
      |stream| >= 4 && (HeaderValue(stream[..4]) > maximum || HeaderValue(stream[..4]) > MAXIMUM_PIPE_FRAME_SIZE)
    }

    // What a reading that fails has consumed: no more than the length, or a part of the payload of an accepted length.
    ghost predicate PartRead(before: seq<Byte>, n: nat, after: seq<Byte>, maximum: nat) {
      && n <= |before| && after == before[n..]
      && (n <= 4 || (!TooLong(before, maximum) && n < 4 + HeaderValue(before[..4])))
    }

    // The length and the payload of the frame a stream begins with.
    ghost predicate StartsWith(stream: seq<Byte>, p: seq<Byte>) {
      && |stream| >= 4 + |p| && |p| <= MAXIMUM_PIPE_FRAME_SIZE
      && HeaderValue(stream[..4]) == |p| && stream[4..4 + |p|] == p
    }

    lemma FrontFrame(stream: seq<Byte>, p: seq<Byte>)
      requires |p| <= MAXIMUM_PIPE_FRAME_SIZE && Frame(p) <= stream
      ensures StartsWith(stream, p)
    {
      hide Header, HeaderValue;
      HeaderReadsBack(|p|);
      assert stream[..4 + |p|] == Frame(p);
      assert stream[..4] == Frame(p)[..4] && stream[4..4 + |p|] == Frame(p)[4..];
    }

    method ReadHeader(header: array<Byte>) returns (size: nat)
      requires header.Length == 4
      ensures size == HeaderValue(header[..])
    {
      size := header[0] as int + 256 * header[1] as int + 65536 * header[2] as int + 16777216 * header[3] as int;
    }
  }

  // ---- both ends at once ----

  // A reader between two pieces: what it delivered, the length it has read if it is inside a frame, and the bytes of
  // the header or payload read so far.
  datatype Reader = Reader(delivered: seq<seq<Byte>>, size: Option<nat>, buffer: seq<Byte>, overflow: bool)

  function Wanted(r: Reader): int { (if r.size.Some? then r.size.value else 4) - |r.buffer| }

  // One more piece arrives.
  function Feed(r: Reader, piece: seq<Byte>, maximum: nat): Reader {
    var buffer := r.buffer + piece;
    if |piece| < Wanted(r) then r.(buffer := buffer)
    else if r.size.Some? then Reader(r.delivered + [buffer], None, [], r.overflow)
    else if |buffer| != 4 then r
    else
      var n := HeaderValue(buffer);
      if n > maximum || n > MAXIMUM_PIPE_FRAME_SIZE then r.(overflow := true)
      else if n == 0 then Reader(r.delivered + [[]], None, [], r.overflow)
      else Reader(r.delivered, Some(n), [], r.overflow)
  }

  // What is still to be written, what is on the wire, and the reader.
  datatype Link = Link(unsent: seq<Byte>, wire: seq<Byte>, reader: Reader)

  datatype Step = Write(count: nat) | Read(count: nat)

  predicate Possible(l: Link, s: Step) {
    match s
    case Write(n) => 0 < n <= |l.unsent|
    case Read(n) => 0 < n <= |l.wire| && n <= Wanted(l.reader) && !l.reader.overflow
  }

  function Next(l: Link, s: Step, maximum: nat): Link
    requires Possible(l, s)
  {
    match s
    case Write(n) => l.(unsent := l.unsent[n..], wire := l.wire + l.unsent[..n])
    case Read(n) => l.(wire := l.wire[n..], reader := Feed(l.reader, l.wire[..n], maximum))
  }

  function Start(payloads: seq<seq<Byte>>, maximum: nat): Link
    requires AllOk(payloads, maximum)
  {
    Link(Frames(payloads, maximum), [], Reader([], None, [], false))
  }

  // The bytes the reader has consumed.
  function Consumed(r: Reader, maximum: nat): seq<Byte>
    requires AllOk(r.delivered, maximum) && (r.size.Some? ==> r.size.value <= MAXIMUM_PIPE_FRAME_SIZE)
  {
    Frames(r.delivered, maximum) + (if r.size.Some? then Header(r.size.value) else []) + r.buffer
  }

  ghost predicate ReaderOk(r: Reader, maximum: nat) {
    && AllOk(r.delivered, maximum) && Wanted(r) > 0
    && (r.size.Some? ==> 0 < r.size.value <= maximum && r.size.value <= MAXIMUM_PIPE_FRAME_SIZE)
  }

  // No byte is lost, added or reordered between the two ends.
  ghost predicate Intact(l: Link, payloads: seq<seq<Byte>>, maximum: nat)
    requires AllOk(payloads, maximum)
  {
    ReaderOk(l.reader, maximum) && Consumed(l.reader, maximum) + l.wire + l.unsent == Frames(payloads, maximum)
  }

  lemma FeedConsumes(r: Reader, piece: seq<Byte>, maximum: nat)
    requires ReaderOk(r, maximum) && 0 < |piece| <= Wanted(r) && !r.overflow
    ensures var q := Feed(r, piece, maximum);
            !q.overflow ==> ReaderOk(q, maximum) && Consumed(q, maximum) == Consumed(r, maximum) + piece
  {
    hide Header, HeaderValue, Frames;
    var buffer := r.buffer + piece;
    var front := Frames(r.delivered, maximum);
    if |piece| == Wanted(r) {
      if r.size.Some? {
        FramesNext(r.delivered, buffer, maximum);
        assert front + Header(r.size.value) + r.buffer + piece == front + Frame(buffer);
      } else {
        HeaderIsUnique(buffer);
        var n := HeaderValue(buffer);
        assert front + [] + r.buffer + piece == front + buffer;
        assert front + buffer + [] == front + buffer;
        if n <= maximum && n == 0 {
          FramesNext(r.delivered, [], maximum);
          assert Frame([]) == buffer;
          assert Frames(r.delivered + [[]], maximum) + [] + [] == front + buffer;
        }
      }
    } else {
      var h := if r.size.Some? then Header(r.size.value) else [];
      assert front + h + r.buffer + piece == front + h + buffer;
    }
  }

  // The reader never sees a length it has to refuse.
  lemma NoOverflow(r: Reader, piece: seq<Byte>, rest: seq<Byte>, payloads: seq<seq<Byte>>, maximum: nat)
    requires ReaderOk(r, maximum) && 0 < |piece| <= Wanted(r) && !r.overflow && AllOk(payloads, maximum)
    requires Consumed(r, maximum) + (piece + rest) == Frames(payloads, maximum)
    ensures !Feed(r, piece, maximum).overflow
  {
    hide Header, HeaderValue;
    if r.size.None? && |piece| == Wanted(r) {
      var front, buffer := Frames(r.delivered, maximum), r.buffer + piece;
      assert front + [] + r.buffer + (piece + rest) == front + (buffer + rest);
      FramesAreUnambiguous(r.delivered, buffer + rest, payloads, maximum);
      var left := payloads[|r.delivered|..];
      assert left != [];
      assert left[0] == payloads[|r.delivered|];
      assert (buffer + rest)[..4] == buffer;
      assert (Frame(left[0]) + Frames(left[1..], maximum))[..4] == Header(|left[0]|);
      HeaderReadsBack(|left[0]|);
    }
  }

  lemma StepKeepsIntact(l: Link, s: Step, payloads: seq<seq<Byte>>, maximum: nat)
    requires AllOk(payloads, maximum) && Intact(l, payloads, maximum) && Possible(l, s) && !l.reader.overflow
    ensures Intact(Next(l, s, maximum), payloads, maximum) && !Next(l, s, maximum).reader.overflow
  {
    hide Frames, Feed, Header, HeaderValue;
    var c := Consumed(l.reader, maximum);
    match s
    case Write(n) =>
      assert l.unsent == l.unsent[..n] + l.unsent[n..];
      assert c + (l.wire + l.unsent[..n]) + l.unsent[n..] == c + l.wire + l.unsent;
    case Read(n) =>
      var piece, rest := l.wire[..n], l.wire[n..] + l.unsent;
      assert l.wire == piece + l.wire[n..];
      assert c + l.wire + l.unsent == c + (piece + rest);
      NoOverflow(l.reader, piece, rest, payloads, maximum);
      FeedConsumes(l.reader, piece, maximum);
      assert c + piece + l.wire[n..] + l.unsent == c + (piece + rest);
  }

  ghost predicate RunPossible(l: Link, steps: seq<Step>, maximum: nat)
    decreases |steps|
  {
    steps == [] || (Possible(l, steps[0]) && RunPossible(Next(l, steps[0], maximum), steps[1..], maximum))
  }

  function Run(l: Link, steps: seq<Step>, maximum: nat): Link
    requires RunPossible(l, steps, maximum)
    decreases |steps|
  {
    if steps == [] then l else Run(Next(l, steps[0], maximum), steps[1..], maximum)
  }

  lemma {:induction false} RunKeepsIntact(l: Link, steps: seq<Step>, payloads: seq<seq<Byte>>, maximum: nat)
    requires AllOk(payloads, maximum) && Intact(l, payloads, maximum) && !l.reader.overflow && RunPossible(l, steps, maximum)
    ensures var r := Run(l, steps, maximum); Intact(r, payloads, maximum) && !r.reader.overflow
    decreases |steps|
  {
    hide Intact, Next;
    if steps == [] {
    } else {
      StepKeepsIntact(l, steps[0], payloads, maximum);
      RunKeepsIntact(Next(l, steps[0], maximum), steps[1..], payloads, maximum);
    }
  }

  // However writing and reading interleave and into whatever pieces they fall: at every moment the reader has delivered
  // the first payloads that were written, unaltered and in order; it never meets a length it must refuse; and when
  // everything has come through, it has delivered them all and is not waiting inside a frame.
  lemma EveryInterleavingDelivers(payloads: seq<seq<Byte>>, steps: seq<Step>, maximum: nat)
    requires AllOk(payloads, maximum) && RunPossible(Start(payloads, maximum), steps, maximum)
    ensures var l := Run(Start(payloads, maximum), steps, maximum);
            && |l.reader.delivered| <= |payloads| && l.reader.delivered == payloads[..|l.reader.delivered|]
            && !l.reader.overflow
            && (l.unsent == [] && l.wire == [] ==> l.reader.delivered == payloads && l.reader.size == None && l.reader.buffer == [])
  {
    hide Frames, Header, Feed, Next, RunPossible, Run;
    var start := Start(payloads, maximum);
    assert Intact(start, payloads, maximum) by { StartIsIntact(payloads, maximum); }
    RunKeepsIntact(start, steps, payloads, maximum);
    var l := Run(start, steps, maximum);
    var front := Frames(l.reader.delivered, maximum);
    var inside := (if l.reader.size.Some? then Header(l.reader.size.value) else []) + l.reader.buffer;
    assert Consumed(l.reader, maximum) + l.wire + l.unsent == front + (inside + l.wire + l.unsent);
    FramesAreUnambiguous(l.reader.delivered, inside + l.wire + l.unsent, payloads, maximum);
    if l.unsent == [] && l.wire == [] {
      assert inside + [] + [] == inside;
      InsideNothing(l.reader, payloads[|l.reader.delivered|..], maximum);
    }
  }

  lemma StartIsIntact(payloads: seq<seq<Byte>>, maximum: nat)
    requires AllOk(payloads, maximum)
    ensures Intact(Start(payloads, maximum), payloads, maximum)
  {
    assert Frames([], maximum) == [];
    assert [] + [] + [] + [] + Frames(payloads, maximum) == Frames(payloads, maximum);
  }

  // A reader in the middle of a frame has not read all of it.
  lemma InsideNothing(r: Reader, left: seq<seq<Byte>>, maximum: nat)
    requires ReaderOk(r, maximum) && AllOk(left, maximum)
    requires (if r.size.Some? then Header(r.size.value) else []) + r.buffer == Frames(left, maximum)
    ensures left == [] && r.size == None && r.buffer == []
  {
    hide Header, HeaderValue;
    if left != [] {
      var inside := (if r.size.Some? then Header(r.size.value) else []) + r.buffer;
      LongerThanHeader(left, maximum);
      assert r.size.Some?;
      assert inside[..4] == Header(r.size.value);
      assert (Frame(left[0]) + Frames(left[1..], maximum))[..4] == Header(|left[0]|);
      HeaderReadsBack(r.size.value);
      HeaderReadsBack(|left[0]|);
      assert false;
    }
  }

  // ---- the reader and ReadFrame ----

  const FRESH := Reader([], None, [], false)

  function Joined(pieces: seq<seq<Byte>>): seq<Byte> {
    if pieces == [] then [] else pieces[0] + Joined(pieces[1..])
  }

  function FeedAll(r: Reader, pieces: seq<seq<Byte>>, maximum: nat): Reader
    decreases |pieces|
  {
    if pieces == [] then r else FeedAll(Feed(r, pieces[0], maximum), pieces[1..], maximum)
  }

  // Pieces as the loop asks for them: not empty, no more than is wanted, and none after a length that is refused.
  predicate Feedable(r: Reader, pieces: seq<seq<Byte>>, maximum: nat)
    decreases |pieces|
  {
    pieces == [] ||
    (!r.overflow && 0 < |pieces[0]| <= Wanted(r) && Feedable(Feed(r, pieces[0], maximum), pieces[1..], maximum))
  }

  lemma {:induction false} FeedAllConsumes(r: Reader, pieces: seq<seq<Byte>>, maximum: nat)
    requires ReaderOk(r, maximum) && !r.overflow && Feedable(r, pieces, maximum)
    ensures var q := FeedAll(r, pieces, maximum);
            !q.overflow ==> ReaderOk(q, maximum) && Consumed(q, maximum) == Consumed(r, maximum) + Joined(pieces)
    decreases |pieces|
  {
    hide Feed, Frames, Header, Wanted;
    if pieces == [] {
    } else {
      var next := Feed(r, pieces[0], maximum);
      FeedConsumes(r, pieces[0], maximum);
      if !next.overflow {
        FeedAllConsumes(next, pieces[1..], maximum);
        assert Consumed(r, maximum) + pieces[0] + Joined(pieces[1..]) == Consumed(r, maximum) + (pieces[0] + Joined(pieces[1..]));
      }
    }
  }

  // Payloads that were written never make the reader refuse a length.
  lemma {:induction false} FeedAllAccepts(r: Reader, pieces: seq<seq<Byte>>, payloads: seq<seq<Byte>>, maximum: nat)
    requires ReaderOk(r, maximum) && !r.overflow && Feedable(r, pieces, maximum) && AllOk(payloads, maximum)
    requires Consumed(r, maximum) + Joined(pieces) == Frames(payloads, maximum)
    ensures !FeedAll(r, pieces, maximum).overflow
    decreases |pieces|
  {
    hide Feed, Consumed, Frames;
    if pieces == [] {
    } else {
      var rest := Joined(pieces[1..]);
      NoOverflow(r, pieces[0], rest, payloads, maximum);
      FeedConsumes(r, pieces[0], maximum);
      assert Consumed(r, maximum) + pieces[0] + rest == Consumed(r, maximum) + (pieces[0] + rest);
      FeedAllAccepts(Feed(r, pieces[0], maximum), pieces[1..], payloads, maximum);
    }
  }

  // Whatever pieces its bytes come in, the reader has delivered one payload and stands between frames exactly when the
  // bytes it took are the frame of that payload: what ReadFrame promises of a frame that it read.
  lemma FeedReadsFrames(pieces: seq<seq<Byte>>, payload: seq<Byte>, maximum: nat)
    requires Feedable(FRESH, pieces, maximum)
    ensures FeedAll(FRESH, pieces, maximum) == Reader([payload], None, [], false) <==>
            FrameOk(payload, maximum) && Joined(pieces) == Frame(payload)
  {
    hide Header, Frame, FeedAll, Joined, Feedable;
    var q := FeedAll(FRESH, pieces, maximum);
    assert Consumed(FRESH, maximum) == [];
    assert [] + Joined(pieces) == Joined(pieces);
    FeedAllConsumes(FRESH, pieces, maximum);
    if FrameOk(payload, maximum) && Joined(pieces) == Frame(payload) {
      OneFrame(payload, maximum);
      FeedAllAccepts(FRESH, pieces, [payload], maximum);
      var inside := (if q.size.Some? then Header(q.size.value) else []) + q.buffer;
      assert Consumed(q, maximum) == Frames(q.delivered, maximum) + inside;
      FramesAreUnambiguous(q.delivered, inside, [payload], maximum);
      InsideNothing(q, [payload][|q.delivered|..], maximum);
    }
    if q == Reader([payload], None, [], false) {
      assert FrameOk(q.delivered[0], maximum);
      OneFrame(payload, maximum);
      assert Consumed(q, maximum) == Frames([payload], maximum);
    }
  }

  lemma OneFrame(payload: seq<Byte>, maximum: nat)
    requires FrameOk(payload, maximum)
    ensures AllOk([payload], maximum) && Frames([payload], maximum) == Frame(payload)
  {
    assert [payload][1..] == [];
    assert Frames([], maximum) == [];
  }

  // Whatever pieces lead from one wire to the other, the reader makes this payload of them.
  ghost predicate FedAlike(before: seq<Byte>, payload: seq<Byte>, after: seq<Byte>, maximum: nat) {
    forall pieces :: Feedable(FRESH, pieces, maximum) && Joined(pieces) + after == before ==>
      FeedAll(FRESH, pieces, maximum) == Reader([payload], None, [], false)
  }

  lemma ReadIsFed(before: seq<Byte>, payload: seq<Byte>, after: seq<Byte>, maximum: nat)
    requires FrameOk(payload, maximum) && before == Frame(payload) + after
    ensures FedAlike(before, payload, after, maximum)
  {
    hide Feedable, FeedAll, Joined, Frame;
    forall pieces | Feedable(FRESH, pieces, maximum) && Joined(pieces) + after == before
      ensures FeedAll(FRESH, pieces, maximum) == Reader([payload], None, [], false)
    {
      assert Joined(pieces) == before[..|before| - |after|] == Frame(payload);
      FeedReadsFrames(pieces, payload, maximum);
    }
  }

  // Until everything has come through, some end can go on.
  lemma NeverStuck(l: Link, maximum: nat)
    requires ReaderOk(l.reader, maximum) && !l.reader.overflow && (l.unsent != [] || l.wire != [])
    ensures Possible(l, Write(1)) || Possible(l, Read(1))
  {}
}
