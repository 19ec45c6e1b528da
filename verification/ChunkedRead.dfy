/**
 Reading bytes out of a queue of chunks: `ChunkedReader` and the address reader on top of it. The same class stands
 for the QUIC and TCP streams that the TUIC and VLESS readers consume, since all they rely on is the promise made
 here: the bytes come in order, cut anywhere, until the end of the stream.
*/
module ChunkedRead {
  import opened Bytes
  import opened Address
  import opened Utf8

  // Ready([]) into a non-empty destination is how a poll reports the end of the stream.
  datatype Poll = Ready(data: seq<byte>) | Pending
  datatype Polled = Polled(poll: Poll, pending: seq<byte>, queue: seq<seq<byte>>)

  // What one poll does to the unread part `pending` of the current chunk and the queued chunks behind it.
  function PollQueue(pending: seq<byte>, queue: seq<seq<byte>>, closed: bool, room: nat): Polled
    decreases |queue|
  {
    if pending != [] then
      var n := if room < |pending| then room else |pending|;
      Polled(Ready(pending[..n]), pending[n..], queue)
    else if queue != [] then PollQueue(queue[0], queue[1..], closed, room)
    else Polled(if closed then Ready([]) else Pending, [], [])
  }

  // A poll moves bytes from the front of the stream to the caller, loses none, and reports the end of the stream or
  // waits only when every queued byte is gone: the end exactly if the sender has closed.
  lemma {:induction false} PollConserves(pending: seq<byte>, queue: seq<seq<byte>>, closed: bool, room: nat)
    requires room > 0
    ensures var r := PollQueue(pending, queue, closed, room);
            var data := if r.poll.Ready? then r.poll.data else [];
            && data + r.pending + Flatten(r.queue) == pending + Flatten(queue)
            && |data| <= room
            && |r.queue| <= |queue|
            && (data == [] <==> pending + Flatten(queue) == [])
            && (data == [] ==> r.pending == [] && r.queue == [] && (r.poll.Pending? <==> !closed))
    decreases |queue|
  {
    if pending == [] && queue != [] {
      PollConserves(queue[0], queue[1..], closed, room);
      assert pending + Flatten(queue) == queue[0] + Flatten(queue[1..]);
    } else if pending != [] {
      var n := if room < |pending| then room else |pending|;
      assert pending[..n] + pending[n..] == pending;
    }
  }

  // The same on the whole stream, with the chunks the sender has yet to queue.
  lemma PollKeepsStream(pending: seq<byte>, queue: seq<seq<byte>>, later: seq<seq<byte>>, closed: bool, room: nat)
    requires room > 0 && (closed ==> later == [])
    ensures var r := PollQueue(pending, queue, closed, room);
            var rest := r.pending + Flatten(r.queue + later);
            match r.poll
            case Ready(d) =>
              d + rest == pending + Flatten(queue + later) && |d| <= room && (d == [] ==> rest == [])
            case Pending => rest == pending + Flatten(queue + later) && !closed
  {
    var r := PollQueue(pending, queue, closed, room);
    PollConserves(pending, queue, closed, room);
    FlattenConcat(queue, later);
    FlattenConcat(r.queue, later);
    var data := if r.poll.Ready? then r.poll.data else [];
    Regroup(data, r.pending, Flatten(r.queue), pending, Flatten(queue), Flatten(later));
  }

  lemma Regroup(d: seq<byte>, p: seq<byte>, q: seq<byte>, p0: seq<byte>, q0: seq<byte>, tail: seq<byte>)
    requires d + p + q == p0 + q0
    ensures d + (p + (q + tail)) == p0 + (q0 + tail)
  {
    assert d + (p + (q + tail)) == (d + p + q) + tail;
    assert p0 + (q0 + tail) == (p0 + q0) + tail;
  }

  datatype Received = Chunk(chunk: seq<byte>) | Closed | Waiting

  /** The receiving half of a stream queue. `later` is what the sender has not queued yet. */
  class Receiver {
    var queue: seq<seq<byte>>
    var later: seq<seq<byte>>
    var closed: bool

    constructor (chunks: seq<seq<byte>>)
      ensures queue == [] && later == chunks && !closed
    {
      queue, later, closed := [], chunks, false;
    }

    method PollRecv() returns (r: Received)
      modifies this`queue
      ensures old(queue) != [] ==> r == Chunk(old(queue)[0]) && queue == old(queue)[1..]
      ensures old(queue) == [] ==> queue == [] && r == if closed then Closed else Waiting
    {
      if queue != [] {
        r, queue := Chunk(queue[0]), queue[1..];
      } else {
        r := if closed then Closed else Waiting;
      }
    }

    // Sleeping until the sender acts: it queues its next chunk, or drops its half of the queue.
    method Await()
      requires !closed
      modifies this
      ensures queue + later == old(queue + later) && |later| + (if closed then 0 else 1) < |old(later)| + 1
      ensures closed ==> later == []
    {
      if later != [] {
        queue, later := queue + [later[0]], later[1..];
      } else {
        closed := true;
      }
    }
  }

  datatype ReadError = UnexpectedEof | UnsupportedTag(tag: byte)
  datatype ReadResult = Addressed(addr: Addr) | Failed(error: ReadError)

  class ChunkedReader {
    var buf: seq<byte>
    var pos: nat
    const rx: Receiver

    ghost predicate Valid()
      reads this, rx
    {
      pos <= |buf| && (rx.closed ==> rx.later == [])
    }

    // Every byte still to be read before the end of the stream.
    ghost function Contents(): seq<byte>
      reads this, rx
      requires Valid()
    {
      buf[pos..] + Flatten(rx.queue + rx.later)
    }

    constructor (rx: Receiver)
      requires rx.closed ==> rx.later == []
      ensures Valid() && this.rx == rx && Contents() == Flatten(rx.queue + rx.later)
    {
      buf, pos := [], 0;
      this.rx := rx;
    }

    method PollRead(room: nat) returns (r: Poll)
      requires Valid()
      modifies this, rx`queue
      ensures Valid()
      ensures PollQueue(old(buf[pos..]), old(rx.queue), rx.closed, room) == Polled(r, buf[pos..], rx.queue)
    {
      while true
        invariant Valid()
        invariant PollQueue(buf[pos..], rx.queue, rx.closed, room)
               == PollQueue(old(buf[pos..]), old(rx.queue), rx.closed, room)
        decreases |rx.queue|
      {
        if pos < |buf| {
          var n := if room < |buf| - pos then room else |buf| - pos;
          r := Ready(buf[pos..pos + n]);
          assert buf[pos..][..n] == buf[pos..pos + n] && buf[pos..][n..] == buf[pos + n..];
          pos := pos + n;
          if pos == |buf| {
            buf, pos := [], 0;
          }
          return;
        }
        var got := rx.PollRecv();
        match got {
          case Chunk(c) => buf, pos := c, 0;
          case Closed => return Ready([]);
          case Waiting => return Pending;
        }
      }
    }

    // One poll, seen on the flat stream.
    method PollBytes(room: nat) returns (r: Poll)
      requires Valid() && room > 0
      modifies this, rx`queue
      ensures Valid()
      ensures r.Ready? ==> r.data + Contents() == old(Contents()) && |r.data| <= room
      ensures r.Ready? && r.data == [] ==> Contents() == []
      ensures r.Pending? ==> Contents() == old(Contents()) && !rx.closed
    {
      PollKeepsStream(buf[pos..], rx.queue, rx.later, rx.closed, room);
      r := PollRead(room);
    }

    // `read_exact`: gathers n bytes over as many polls as it takes, or fails at the end of the stream.
    method ReadExact(n: nat) returns (r: Option<seq<byte>>)
      requires Valid()
      modifies this, rx
      ensures Valid()
      ensures r.Some? <==> n <= |old(Contents())|
      ensures r.Some? ==> r.value == old(Contents())[..n] && Contents() == old(Contents())[n..]
    {
      ghost var all := Contents();
      var got: seq<byte> := [];
      while |got| < n
        invariant Valid()
        invariant |got| <= n && got + Contents() == all
        decreases |rx.later| + (if rx.closed then 0 else 1), n - |got|
      {
        var p := PollBytes(n - |got|);
        match p {
          case Ready(d) =>
            if d == [] {
              return None;
            }
            got := got + d;
          case Pending =>
            rx.Await();
        }
      }
      r := Some(got);
    }

    // The address proper and the port behind it.
    method ReadSized(n: nat) returns (r: Option<(seq<byte>, u16)>)
      requires Valid()
      modifies this, rx
      ensures Valid()
      ensures r.Some? <==> n + 2 <= |old(Contents())|
      ensures r.Some? ==>
                && r.value.0 == old(Contents())[..n]
                && r.value.1 == U16Of(old(Contents())[n..n + 2])
                && Contents() == old(Contents())[n + 2..]
    {
      ghost var all := Contents();
      var body := ReadExact(n);
      if body.None? {
        return None;
      }
      assert Contents() == all[n..];
      var port := ReadExact(2);
      if port.None? {
        return None;
      }
      assert all[n..][..2] == all[n..n + 2] && all[n..][2..] == all[n + 2..];
      r := Some((body.value, U16Of(port.value)));
    }

    method ReadIp(tags: Tags, tag: byte, ghost all: seq<byte>) returns (r: ReadResult)
      requires Valid() && all != [] && all[0] == tag && Contents() == all[1..]
      requires tag == tags.ipv4 || tag == tags.ipv6
      modifies this, rx
      ensures Valid() && ReadsLikeParse(tags, all, r, Contents())
    {
      var n := if tag == tags.ipv4 then 4 else 16;
      var t := ReadSized(n);
      if t.None? {
        return Failed(UnexpectedEof);
      }
      assert all[1..][..n] == all[1..1 + n] && all[1..][n..n + 2] == all[1 + n..3 + n];
      assert all[1..][n + 2..] == all[3 + n..];
      r := Addressed(if tag == tags.ipv4 then Ipv4(t.value.0, t.value.1) else Ipv6(t.value.0, t.value.1));
    }

    method ReadDomain(tags: Tags, ghost all: seq<byte>) returns (r: ReadResult)
      requires Valid() && all != [] && all[0] == tags.domain && Contents() == all[1..]
      modifies this, rx
      ensures Valid() && ReadsLikeParse(tags, all, r, Contents())
    {
      var len := ReadExact(1);
      if len.None? {
        return Failed(UnexpectedEof);
      }
      var n: nat := len.value[0];
      assert n == all[1] && all[1..][1..] == all[2..];
      var t := ReadSized(n);
      if t.None? {
        return Failed(UnexpectedEof);
      }
      assert all[2..][..n] == all[2..2 + n] && all[2..][n..n + 2] == all[2 + n..4 + n];
      assert all[2..][n + 2..] == all[4 + n..];
      r := Addressed(Domain(Lossy(t.value.0), t.value.1));
    }

    // `read_socksaddr`, and `read_addr` of TUIC under its own tags: succeeds exactly when parsing the flat bytes
    // does, with the same address and the same unread bytes, however the stream was cut into chunks.
    method ReadAddr(tags: Tags) returns (r: ReadResult)
      requires Valid()
      modifies this, rx
      ensures Valid() && ReadsLikeParse(tags, old(Contents()), r, Contents())
    {
      ghost var all := Contents();
      var atyp := ReadExact(1);
      if atyp.None? {
        return Failed(UnexpectedEof);
      }
      var tag := atyp.value[0];
      if tag == tags.ipv4 || tag == tags.ipv6 {
        r := ReadIp(tags, tag, all);
      } else if tag == tags.domain {
        r := ReadDomain(tags, all);
      } else {
        r := Failed(UnsupportedTag(tag));
      }
    }
  }

  // The outcome of reading an address off a stream whose bytes were `all` and are now `rest`.
  ghost predicate ReadsLikeParse(tags: Tags, all: seq<byte>, r: ReadResult, rest: seq<byte>) {
    match ParseAddr(tags, all)
    case Ok(a, used) => r == Addressed(a) && used <= |all| && rest == all[used..]
    case Err(Unsupported(t)) => r == Failed(UnsupportedTag(t))
    case Err(_) => r == Failed(UnexpectedEof)
  }
}
