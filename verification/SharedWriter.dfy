/**
 The write half shared by the reader loop and every stream task, at the grain of single writes: `send_frame` takes the
 lock, pushes the frame's bytes out in as many pieces as the socket takes, and releases the lock.
*/
module SharedWriter {
  import opened Bytes
  import opened AnyTlsFrames

  datatype Hold = Hold(task: nat, frame: Frame, written: nat)

  datatype Writer = Writer(
    wire: seq<byte>,
    done: seq<(nat, Frame)>,       // frames sent in full, with the task that sent each
    holder: Option<Hold>,          // who has the lock, and how far its frame has got
    todo: seq<seq<Frame>>,         // what each task has yet to send, in its own order
    dead: bool                     // a write failed: the connection takes no more bytes
  )

  datatype Event = Lock(task: nat) | Write(n: nat) | Unlock | Fail

  function Init(programs: seq<seq<Frame>>): Writer {
    Writer([], [], None, programs, false)
  }

  function Step(w: Writer, e: Event): Writer {
    if w.dead then w else
    match e
    case Lock(t) =>
      if w.holder.None? && t < |w.todo| && w.todo[t] != [] then
        w.(holder := Some(Hold(t, w.todo[t][0], 0)), todo := w.todo[t := w.todo[t][1..]])
      else w
    case Write(n) =>
      if w.holder.None? then w else
      var h := w.holder.value;
      var bytes := EncodeFrame(h.frame);
      if h.written + n > |bytes| then w else
      w.(wire := w.wire + bytes[h.written..h.written + n], holder := Some(h.(written := h.written + n)))
    case Unlock =>
      if w.holder.Some? && w.holder.value.written == |EncodeFrame(w.holder.value.frame)| then
        w.(holder := None, done := w.done + [(w.holder.value.task, w.holder.value.frame)])
      else w
    case Fail =>
      w.(dead := true)
  }

  function Run(w: Writer, es: seq<Event>): Writer {
    if es == [] then w else Step(Run(w, es[..|es| - 1]), es[|es| - 1])
  }

  function Frames(done: seq<(nat, Frame)>): seq<Frame> {
    seq(|done|, i requires 0 <= i < |done| => done[i].1)
  }

  // The frames of one task among those sent.
  function SentBy(done: seq<(nat, Frame)>, t: nat): seq<Frame> {
    if done == [] then [] else
    var last := done[|done| - 1];
    SentBy(done[..|done| - 1], t) + if last.0 == t then [last.1] else []
  }

  function InHand(w: Writer, t: nat): seq<Frame> {
    if w.holder.Some? && w.holder.value.task == t then [w.holder.value.frame] else []
  }

  function Partial(w: Writer): seq<byte> {
    if w.holder.Some? && w.holder.value.written <= |EncodeFrame(w.holder.value.frame)|
    then EncodeFrame(w.holder.value.frame)[..w.holder.value.written] else []
  }

  ghost predicate Inv(w: Writer, programs: seq<seq<Frame>>) {
    && |w.todo| == |programs|
    && w.wire == EncodeAll(Frames(w.done)) + Partial(w)
    && (w.holder.Some? ==> w.holder.value.written <= |EncodeFrame(w.holder.value.frame)|
                           && w.holder.value.task < |programs|)
    && (forall i | 0 <= i < |w.done| :: w.done[i].0 < |programs| && w.done[i].1 in programs[w.done[i].0])
    && (forall t | 0 <= t < |programs| :: SentBy(w.done, t) + (InHand(w, t) + w.todo[t]) == programs[t])
  }

  lemma LockShares(w: Writer, next: Writer, t: nat, u: nat)
    requires w.holder.None? && t < |w.todo| && w.todo[t] != [] && u < |w.todo|
    requires next.holder == Some(Hold(t, w.todo[t][0], 0)) && next.todo == w.todo[t := w.todo[t][1..]]
    ensures InHand(next, u) + next.todo[u] == InHand(w, u) + w.todo[u]
  {
    assert w.todo[t] == [w.todo[t][0]] + w.todo[t][1..];
  }

  lemma LockKeeps(w: Writer, t: nat, programs: seq<seq<Frame>>)
    requires Inv(w, programs) && w.holder.None? && t < |w.todo| && w.todo[t] != [] && !w.dead
    ensures Inv(Step(w, Lock(t)), programs)
  {
    var next := Step(w, Lock(t));
    assert Partial(next) == [];
    forall u | 0 <= u < |programs|
      ensures InHand(next, u) + next.todo[u] == InHand(w, u) + w.todo[u]
    {
      LockShares(w, next, t, u);
    }
  }

  lemma SameHands(w: Writer, next: Writer, programs: seq<seq<Frame>>)
    requires Inv(w, programs) && w.holder.Some? && next.holder.Some?
    requires next == w.(wire := next.wire, holder := Some(w.holder.value.(written := next.holder.value.written)))
    requires next.holder.value.written <= |EncodeFrame(w.holder.value.frame)|
    requires next.wire == EncodeAll(Frames(w.done)) + EncodeFrame(w.holder.value.frame)[..next.holder.value.written]
    ensures Inv(next, programs)
  {
    assert forall t | 0 <= t < |programs| :: InHand(next, t) == InHand(w, t);
  }

  lemma WriteKeeps(w: Writer, n: nat, programs: seq<seq<Frame>>)
    requires Inv(w, programs) && w.holder.Some? && !w.dead
    ensures Inv(Step(w, Write(n)), programs)
  {
    var h := w.holder.value;
    var bytes := EncodeFrame(h.frame);
    if h.written + n <= |bytes| {
      var next := Step(w, Write(n));
      var piece := bytes[h.written..h.written + n];
      Assoc(EncodeAll(Frames(w.done)), bytes[..h.written], piece);
      assert bytes[..h.written] + piece == bytes[..h.written + n];
      SameHands(w, next, programs);
    }
  }

  lemma HandBelongs(w: Writer, programs: seq<seq<Frame>>)
    requires Inv(w, programs) && w.holder.Some?
    ensures w.holder.value.frame in programs[w.holder.value.task]
  {
    var t := w.holder.value.task;
    assert programs[t][|SentBy(w.done, t)|] == w.holder.value.frame;
  }

  lemma SentBySnoc(done: seq<(nat, Frame)>, t: nat, task: nat, f: Frame)
    ensures SentBy(done + [(task, f)], t) == SentBy(done, t) + if task == t then [f] else []
  {
    assert (done + [(task, f)])[..|done|] == done;
  }

  lemma FramesSnoc(done: seq<(nat, Frame)>, task: nat, f: Frame)
    ensures Frames(done + [(task, f)]) == Frames(done) + [f]
  {
  }

  lemma UnlockShares(w: Writer, next: Writer, t: nat, program: seq<Frame>)
    requires w.holder.Some? && next.holder.None? && next.todo == w.todo && t < |w.todo|
    requires next.done == w.done + [(w.holder.value.task, w.holder.value.frame)]
    requires SentBy(w.done, t) + (InHand(w, t) + w.todo[t]) == program
    ensures SentBy(next.done, t) + (InHand(next, t) + next.todo[t]) == program
  {
    SentBySnoc(w.done, t, w.holder.value.task, w.holder.value.frame);
    Assoc(SentBy(w.done, t), InHand(w, t), w.todo[t]);
    assert InHand(next, t) + next.todo[t] == next.todo[t];
  }

  lemma UnlockWire(w: Writer)
    requires w.holder.Some? && w.holder.value.written == |EncodeFrame(w.holder.value.frame)|
    requires w.wire == EncodeAll(Frames(w.done)) + Partial(w)
    ensures w.wire == EncodeAll(Frames(w.done + [(w.holder.value.task, w.holder.value.frame)]))
  {
    var h := w.holder.value;
    FramesSnoc(w.done, h.task, h.frame);
    EncodeAllSnoc(Frames(w.done), h.frame);
    assert Partial(w) == EncodeFrame(h.frame);
  }

  lemma UnlockKeeps(w: Writer, programs: seq<seq<Frame>>)
    requires Inv(w, programs) && w.holder.Some? && !w.dead
    requires w.holder.value.written == |EncodeFrame(w.holder.value.frame)|
    ensures Inv(Step(w, Unlock), programs)
  {
    var next := Step(w, Unlock);
    UnlockWire(w);
    HandBelongs(w, programs);
    assert Partial(next) == [];
    forall i | 0 <= i < |next.done|
      ensures next.done[i].0 < |programs| && next.done[i].1 in programs[next.done[i].0]
    {
      assert i < |w.done| ==> next.done[i] == w.done[i];
    }
    forall t | 0 <= t < |programs|
      ensures SentBy(next.done, t) + (InHand(next, t) + next.todo[t]) == programs[t]
    {
      UnlockShares(w, next, t, programs[t]);
    }
  }

  lemma {:induction false} RunKeeps(programs: seq<seq<Frame>>, es: seq<Event>)
    ensures Inv(Run(Init(programs), es), programs)
  {
    if es == [] {
      assert Frames([]) == [];
    } else {
      RunKeeps(programs, es[..|es| - 1]);
      var w := Run(Init(programs), es[..|es| - 1]);
      match es[|es| - 1] {
        case Lock(t) =>
          if !w.dead && w.holder.None? && t < |w.todo| && w.todo[t] != [] {
            LockKeeps(w, t, programs);
          }
        case Write(n) =>
          if !w.dead && w.holder.Some? {
            WriteKeeps(w, n, programs);
          }
        case Unlock =>
          if !w.dead && w.holder.Some? && w.holder.value.written == |EncodeFrame(w.holder.value.frame)| {
            UnlockKeeps(w, programs);
          }
        case Fail =>
          assert Partial(Step(w, Fail)) == Partial(w);
          assert forall t :: InHand(Step(w, Fail), t) == InHand(w, t);
      }
    }
  }

  // Frame atomicity, for every interleaving of any tasks: the wire is the frames sent, whole and in the order the lock
  // was taken, and a piece of at most one more; each task's frames appear in its own order.
  lemma WholeFrames(programs: seq<seq<Frame>>, es: seq<Event>)
    ensures var w := Run(Init(programs), es);
            && w.wire == EncodeAll(Frames(w.done)) + Partial(w)
            && (w.holder.None? ==> Partial(w) == [])
            && (forall t | 0 <= t < |programs| :: SentBy(w.done, t) <= programs[t])
  {
    RunKeeps(programs, es);
  }

  // What a peer decodes at any moment: exactly the frames sent, plus the last one if its bytes are all out already.
  lemma PeerSeesWholeFrames(programs: seq<seq<Frame>>, es: seq<Event>)
    requires forall t | 0 <= t < |programs| :: AllFit(programs[t])
    ensures var w := Run(Init(programs), es);
            var got := Decode(w.wire).frames;
            got == Frames(w.done) || (w.holder.Some? && got == Frames(w.done) + [w.holder.value.frame])
  {
    RunKeeps(programs, es);
    var w := Run(Init(programs), es);
    var hand := if w.holder.Some? then [w.holder.value.frame] else [];
    if w.holder.Some? {
      HandBelongs(w, programs);
      EncodeAllSnoc(Frames(w.done), w.holder.value.frame);
    } else {
      assert Frames(w.done) + hand == Frames(w.done);
    }
    DecodePrefix(Frames(w.done) + hand, w.wire);
    NoneMissing(Frames(w.done), hand, Decode(w.wire), w.wire);
    Pinned(Frames(w.done), hand, Decode(w.wire).frames);
  }

  lemma NoneMissing(done: seq<Frame>, hand: seq<Frame>, d: Decoded, wire: seq<byte>)
    requires CleanCut(done + hand, wire, d) && |EncodeAll(done)| <= |wire|
    ensures |done| <= |d.frames|
  {
    if |d.frames| < |done| {
      var next := done[|d.frames|];
      assert next == (done + hand)[|d.frames|];
      assert d.frames + [next] <= done;
      TooShort(done, d.frames, next);
    }
  }

  lemma Pinned(done: seq<Frame>, hand: seq<Frame>, got: seq<Frame>)
    requires |hand| <= 1 && got <= done + hand && |done| <= |got|
    ensures got == done || got == done + hand
  {
    if |got| == |done| {
      assert got == (done + hand)[..|done|] == done;
    }
  }

  lemma TooShort(done: seq<Frame>, got: seq<Frame>, next: Frame)
    requires got + [next] <= done
    ensures |EncodeAll(got)| + |EncodeFrame(next)| <= |EncodeAll(done)|
  {
    var more := got + [next];
    var rest := done[|more|..];
    assert done == more + rest;
    EncodeAllSnoc(got, next);
    EncodeAllConcat(more, rest);
  }

  // ---- What can always happen, and what no longer does ----

  // As long as the connection takes bytes: whoever has the lock can write the rest of its frame and release it, and then any task
  // that has a frame to send can send it whole.
  lemma HolderCanFinish(w: Writer, programs: seq<seq<Frame>>)
    requires Inv(w, programs) && !w.dead && w.holder.Some?
    ensures var h := w.holder.value;
            var bytes := EncodeFrame(h.frame);
            && h.written <= |bytes|
            && Step(Step(w, Write(|bytes| - h.written)), Unlock)
               == w.(wire := w.wire + bytes[h.written..], holder := None, done := w.done + [(h.task, h.frame)])
  {
  }

  lemma TaskCanSend(w: Writer, t: nat)
    requires !w.dead && w.holder.None? && t < |w.todo| && w.todo[t] != []
    ensures var f := w.todo[t][0];
            Step(Step(Step(w, Lock(t)), Write(|EncodeFrame(f)|)), Unlock)
            == w.(wire := w.wire + EncodeFrame(f), done := w.done + [(t, f)], todo := w.todo[t := w.todo[t][1..]])
  {
    var bytes := EncodeFrame(w.todo[t][0]);
    assert bytes[0..|bytes|] == bytes;
  }

  // Nobody else gets in between.
  lemma LockExcludes(w: Writer, t: nat)
    requires w.holder.Some?
    ensures Step(w, Lock(t)) == w
  {
  }

  // Once a write has failed nothing more is sent.
  lemma {:induction false} DeadForever(w: Writer, es: seq<Event>)
    requires w.dead
    ensures Run(w, es) == w
  {
    if es != [] {
      DeadForever(w, es[..|es| - 1]);
    }
  }
}
