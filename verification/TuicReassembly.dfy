/** Out-of-order reassembly of fragmented UDP packets in `relay_udp`. */
module TuicReassembly {
  import opened Bytes
  import opened TuicPacket

  datatype Key = Key(assoc: u16, pkt: u16)
  datatype Fragment = Fragment(id: byte, data: seq<byte>)
  type Fragments = map<Key, seq<Fragment>>

  function KeyOf(p: Packet): Key { Key(p.assoc, p.pkt) }

  // ---- sort_by_key on the fragment id: stable ----

  function Insert(f: Fragment, sorted: seq<Fragment>): seq<Fragment> {
    if sorted == [] || f.id < sorted[0].id then [f] + sorted
    else [sorted[0]] + Insert(f, sorted[1..])
  }

  function SortById(list: seq<Fragment>): seq<Fragment> {
    if list == [] then [] else Insert(list[|list| - 1], SortById(list[..|list| - 1]))
  }

  function Join(list: seq<Fragment>): seq<byte> {
    if list == [] then [] else list[0].data + Join(list[1..])
  }

  datatype Collected = Collected(list: seq<Fragment>, ready: Option<seq<byte>>)

  // One fragment appended to its list; the whole payload once the list is as long as this fragment says.
  function Collect(list: seq<Fragment>, p: Packet): Collected {
    var all := list + [Fragment(p.id, p.data)];
    if |all| == p.total then Collected([], Some(Join(SortById(all)))) else Collected(all, None)
  }

  function ListAt(m: Fragments, k: Key): seq<Fragment> {
    if k in m then m[k] else []
  }

  datatype Accepted = Accepted(pieces: Fragments, ready: Option<seq<byte>>)

  // The critical section of relay_udp on the shared map.
  function Accept(m: Fragments, p: Packet): Accepted {
    var r := Collect(ListAt(m, KeyOf(p)), p);
    Accepted(if r.ready.Some? then m - {KeyOf(p)} else m[KeyOf(p) := r.list], r.ready)
  }

  /** The fragment map behind its lock. */
  class FragmentMap {
    var pieces: Fragments

    constructor ()
      ensures pieces == map[]
    {
      pieces := map[];
    }

    method AcceptFragment(p: Packet) returns (ready: Option<seq<byte>>)
      modifies this
      ensures Accepted(pieces, ready) == Accept(old(pieces), p)
    {
      var key := KeyOf(p);
      if key !in pieces {
        pieces := pieces[key := []];
      }
      pieces := pieces[key := pieces[key] + [Fragment(p.id, p.data)]];
      ready := None;
      if |pieces[key]| == p.total {
        var data := Concatenate(SortById(pieces[key]));
        pieces := pieces - {key};
        assert pieces == old(pieces) - {key};
        ready := Some(data);
      }
    }
  }

  method Concatenate(list: seq<Fragment>) returns (data: seq<byte>)
    ensures data == Join(list)
  {
    data := [];
    for i := 0 to |list|
      invariant data + Join(list[i..]) == Join(list)
    {
      Assoc(data, list[i].data, Join(list[i + 1..]));
      assert list[i..][1..] == list[i + 1..];
      data := data + list[i].data;
    }
  }

  // ---- Sequences of arrivals ----

  datatype Fed = Fed(pieces: Fragments, done: seq<Option<seq<byte>>>)

  // The map after the arrivals ps, and what each of them completed.
  function Feed(m: Fragments, ps: seq<Packet>): (r: Fed)
    ensures |r.done| == |ps|
  {
    if ps == [] then Fed(m, []) else
    var before := Feed(m, ps[..|ps| - 1]);
    var last := Accept(before.pieces, ps[|ps| - 1]);
    Fed(last.pieces, before.done + [last.ready])
  }

  // The arrivals of one association's one packet.
  function Mine(ps: seq<Packet>, k: Key): seq<Packet> {
    if ps == [] then [] else
    var p := ps[|ps| - 1];
    Mine(ps[..|ps| - 1], k) + if p.assoc == k.assoc && p.pkt == k.pkt then [p] else []
  }

  // The same for one key alone.
  function FeedList(list: seq<Fragment>, ps: seq<Packet>): Collected {
    if ps == [] then Collected(list, None) else Collect(FeedList(list, ps[..|ps| - 1]).list, ps[|ps| - 1])
  }

  lemma AcceptAt(m: Fragments, p: Packet, k: Key)
    ensures var r := Accept(m, p);
            if KeyOf(p) == k then Collected(ListAt(r.pieces, k), r.ready) == Collect(ListAt(m, k), p)
            else ListAt(r.pieces, k) == ListAt(m, k) && (k in r.pieces <==> k in m)
    ensures var r := Accept(m, p);
            KeyOf(p) == k ==> (k in r.pieces <==> r.ready.None?)
  {
  }

  lemma MineLast(ps: seq<Packet>, p: Packet, k: Key)
    ensures Mine(ps + [p], k) == if KeyOf(p) == k then Mine(ps, k) + [p] else Mine(ps, k)
  {
    assert (ps + [p])[..|ps|] == ps;
  }

  lemma FeedListLast(list: seq<Fragment>, ps: seq<Packet>, p: Packet)
    ensures FeedList(list, ps + [p]) == Collect(FeedList(list, ps).list, p)
  {
    assert (ps + [p])[..|ps|] == ps;
  }

  lemma FeedLast(m: Fragments, ps: seq<Packet>, p: Packet)
    ensures var r := Accept(Feed(m, ps).pieces, p);
            Feed(m, ps + [p]) == Fed(r.pieces, Feed(m, ps).done + [r.ready])
  {
    assert (ps + [p])[..|ps|] == ps;
  }

  // What one key's arrivals leave behind and, if its own arrival was the last, complete.
  ghost predicate Tracks(f: Fed, own: bool, r: Collected, k: Key) {
    && ListAt(f.pieces, k) == r.list
    && (own ==> f.done != [] && f.done[|f.done| - 1] == r.ready)
  }

  lemma TracksNext(f: Fed, p: Packet, k: Key, r: Collected, next: Collected)
    requires Tracks(f, false, r, k)
    requires next.list == if KeyOf(p) == k then Collect(r.list, p).list else r.list
    requires KeyOf(p) == k ==> next.ready == Collect(r.list, p).ready
    ensures var a := Accept(f.pieces, p);
            Tracks(Fed(a.pieces, f.done + [a.ready]), KeyOf(p) == k, next, k)
  {
    AcceptAt(f.pieces, p, k);
  }

  // Arrivals under other keys neither help nor disturb: the state of a key, and what its arrivals complete, depend on
  // its own arrivals only.
  lemma {:induction false} KeysAreIndependent(m: Fragments, ps: seq<Packet>, k: Key)
    ensures Tracks(Feed(m, ps), ps != [] && KeyOf(ps[|ps| - 1]) == k, FeedList(ListAt(m, k), Mine(ps, k)), k)
  {
    if ps != [] {
      var before, p := ps[..|ps| - 1], ps[|ps| - 1];
      KeysAreIndependent(m, before, k);
      assert ps == before + [p];
      FeedLast(m, before, p);
      MineLast(before, p, k);
      FeedListLast(ListAt(m, k), Mine(before, k), p);
      TracksNext(Feed(m, before), p, k, FeedList(ListAt(m, k), Mine(before, k)), FeedList(ListAt(m, k), Mine(ps, k)));
    }
  }

  lemma DoneGrows(m: Fragments, ps: seq<Packet>)
    requires ps != []
    ensures Feed(m, ps[..|ps| - 1]).done <= Feed(m, ps).done
  {
  }

  lemma FirstOf<T>(a: seq<T>, b: seq<T>, n: nat)
    requires a <= b && n <= |a|
    ensures a[..n] == b[..n]
  {
  }

  lemma {:induction false} FeedPrefix(m: Fragments, ps: seq<Packet>, n: nat)
    requires n <= |ps|
    ensures Feed(m, ps[..n]).done == Feed(m, ps).done[..n]
  {
    if n < |ps| {
      var before := ps[..|ps| - 1];
      FeedPrefix(m, before, n);
      FirstOf(before, ps, n);
      DoneGrows(m, ps);
      FirstOf(Feed(m, before).done, Feed(m, ps).done, n);
    } else {
      assert ps[..n] == ps;
    }
  }

  lemma {:induction false} MinePrefix(ps: seq<Packet>, n: nat, k: Key)
    requires n <= |ps|
    ensures Mine(ps[..n], k) <= Mine(ps, k)
    ensures Mine(ps, k) == Mine(ps[..n], k) + Mine(ps[n..], k)
  {
    if n < |ps| {
      var before := ps[..|ps| - 1];
      MinePrefix(before, n, k);
      assert before[..n] == ps[..n];
      assert ps[n..][..|ps[n..]| - 1] == before[n..];
      assert ps[n..][|ps[n..]| - 1] == ps[|ps| - 1];
    } else {
      assert ps[..n] == ps;
    }
  }

  // ---- Order independence ----

  // The fragments with ids in `ids` among the first n, in id order.
  function Pick(frags: seq<seq<byte>>, ids: set<nat>, n: nat): seq<Fragment>
    requires n <= |frags| <= 0x100
  {
    if n == 0 then [] else Pick(frags, ids, n - 1) + if n - 1 in ids then [Fragment(n - 1, frags[n - 1])] else []
  }

  lemma {:induction false} PickBounds(frags: seq<seq<byte>>, ids: set<nat>, n: nat)
    requires n <= |frags| <= 0x100
    ensures forall i | 0 <= i < |Pick(frags, ids, n)| :: Pick(frags, ids, n)[i].id < n
  {
    if n > 0 {
      PickBounds(frags, ids, n - 1);
    }
  }

  lemma {:induction false} InsertBefore(f: Fragment, s: seq<Fragment>, last: Fragment)
    requires f.id < last.id
    ensures Insert(f, s + [last]) == Insert(f, s) + [last]
  {
    if s == [] || f.id < s[0].id {
    } else {
      assert (s + [last])[1..] == s[1..] + [last];
      InsertBefore(f, s[1..], last);
    }
  }

  lemma {:induction false} InsertLast(f: Fragment, s: seq<Fragment>)
    requires forall i | 0 <= i < |s| :: s[i].id <= f.id
    ensures Insert(f, s) == s + [f]
  {
    if s != [] {
      InsertLast(f, s[1..]);
    }
  }

  lemma InsertOnTop(frags: seq<seq<byte>>, ids: set<nat>, n: nat)
    requires 0 < n <= |frags| <= 0x100 && n - 1 !in ids
    ensures Insert(Fragment(n - 1, frags[n - 1]), Pick(frags, ids, n)) == Pick(frags, ids + {n - 1}, n)
  {
    assert Pick(frags, ids, n) == Pick(frags, ids, n - 1);
    PickBounds(frags, ids, n - 1);
    InsertLast(Fragment(n - 1, frags[n - 1]), Pick(frags, ids, n - 1));
    PickSame(frags, ids, ids + {n - 1}, n - 1);
  }

  // The fragment above the one inserted stays on top.
  lemma InsertBelow(frags: seq<seq<byte>>, ids: set<nat>, j: nat, n: nat)
    requires j < n - 1 < |frags| <= 0x100 && n - 1 in ids
    requires Insert(Fragment(j, frags[j]), Pick(frags, ids, n - 1)) == Pick(frags, ids + {j}, n - 1)
    ensures Insert(Fragment(j, frags[j]), Pick(frags, ids, n)) == Pick(frags, ids + {j}, n)
  {
    InsertBefore(Fragment(j, frags[j]), Pick(frags, ids, n - 1), Fragment(n - 1, frags[n - 1]));
  }

  lemma InsertUnder(frags: seq<seq<byte>>, ids: set<nat>, j: nat, n: nat)
    requires j < n - 1 < |frags| <= 0x100 && n - 1 !in ids
    requires Insert(Fragment(j, frags[j]), Pick(frags, ids, n - 1)) == Pick(frags, ids + {j}, n - 1)
    ensures Insert(Fragment(j, frags[j]), Pick(frags, ids, n)) == Pick(frags, ids + {j}, n)
  {
    assert Pick(frags, ids, n) == Pick(frags, ids, n - 1);
    assert Pick(frags, ids + {j}, n) == Pick(frags, ids + {j}, n - 1);
  }

  lemma InsertNext(frags: seq<seq<byte>>, ids: set<nat>, j: nat, n: nat)
    requires j < n - 1 < |frags| <= 0x100
    requires Insert(Fragment(j, frags[j]), Pick(frags, ids, n - 1)) == Pick(frags, ids + {j}, n - 1)
    ensures Insert(Fragment(j, frags[j]), Pick(frags, ids, n)) == Pick(frags, ids + {j}, n)
  {
    if n - 1 in ids {
      InsertBelow(frags, ids, j, n);
    } else {
      InsertUnder(frags, ids, j, n);
    }
  }

  // Inserting a fragment not yet there is picking one more.
  lemma {:induction false} InsertPicks(frags: seq<seq<byte>>, ids: set<nat>, j: nat, n: nat)
    requires j < n <= |frags| <= 0x100 && j !in ids
    ensures Insert(Fragment(j, frags[j]), Pick(frags, ids, n)) == Pick(frags, ids + {j}, n)
    decreases n
  {
    if j < n - 1 {
      InsertPicks(frags, ids, j, n - 1);
      InsertNext(frags, ids, j, n);
    } else {
      InsertOnTop(frags, ids, n);
      assert n - 1 == j;
    }
  }

  lemma {:induction false} PickSame(frags: seq<seq<byte>>, a: set<nat>, b: set<nat>, n: nat)
    requires n <= |frags| <= 0x100 && forall i | 0 <= i < n :: i in a <==> i in b
    ensures Pick(frags, a, n) == Pick(frags, b, n)
  {
    if n > 0 {
      PickSame(frags, a, b, n - 1);
    }
  }

  // Distinct fragments of one payload, in any order.
  predicate Shuffled(list: seq<Fragment>, frags: seq<seq<byte>>) {
    && |frags| <= 0x100
    && (forall i | 0 <= i < |list| :: list[i].id < |frags| && list[i].data == frags[list[i].id])
    && (forall i, j | 0 <= i < j < |list| :: list[i].id != list[j].id)
  }

  function Ids(list: seq<Fragment>): set<nat> {
    set i | 0 <= i < |list| :: list[i].id as nat
  }

  lemma {:induction false} SortPicks(list: seq<Fragment>, frags: seq<seq<byte>>)
    requires Shuffled(list, frags)
    ensures SortById(list) == Pick(frags, Ids(list), |frags|)
  {
    if list == [] {
      assert Ids(list) == {};
      NothingPicked(frags, |frags|);
    } else {
      var before, f := list[..|list| - 1], list[|list| - 1];
      SortPicks(before, frags);
      assert Ids(list) == Ids(before) + {f.id as nat};
      InsertPicks(frags, Ids(before), f.id, |frags|);
    }
  }

  lemma {:induction false} NothingPicked(frags: seq<seq<byte>>, n: nat)
    requires n <= |frags| <= 0x100
    ensures Pick(frags, {}, n) == []
  {
    if n > 0 {
      NothingPicked(frags, n - 1);
    }
  }

  lemma {:induction false} JoinConcat(a: seq<Fragment>, b: seq<Fragment>)
    ensures Join(a + b) == Join(a) + Join(b)
  {
    if a == [] {
      assert a + b == b;
    } else {
      assert (a + b)[1..] == a[1..] + b;
      JoinConcat(a[1..], b);
    }
  }

  lemma {:induction false} JoinAll(frags: seq<seq<byte>>, ids: set<nat>, n: nat)
    requires n <= |frags| <= 0x100 && forall i | 0 <= i < n :: i in ids
    ensures Join(Pick(frags, ids, n)) == Flatten(frags[..n])
  {
    if n > 0 {
      JoinAll(frags, ids, n - 1);
      var last := Fragment(n - 1, frags[n - 1]);
      JoinConcat(Pick(frags, ids, n - 1), [last]);
      assert Join([last]) == frags[n - 1] + Join([]);
      FlattenSnoc(frags[..n - 1], frags[n - 1]);
      assert frags[..n] == frags[..n - 1] + [frags[n - 1]];
    }
  }

  // As many distinct ids below n as there are ids below n are all of them.
  lemma {:induction false} AllIds(ids: set<nat>, n: nat)
    requires |ids| == n && forall i | i in ids :: i < n
    ensures forall i | 0 <= i < n :: i in ids
  {
    if n > 0 {
      if n - 1 in ids {
        AllIds(ids - {n - 1}, n - 1);
      } else {
        TooFew(ids, n - 1);
      }
    }
  }

  lemma {:induction false} TooFew(ids: set<nat>, n: nat)
    requires forall i | i in ids :: i < n
    ensures |ids| <= n
  {
    if n > 0 {
      TooFew(ids - {n - 1}, n - 1);
    } else {
      assert ids == {};
    }
  }

  lemma {:induction false} IdCount(list: seq<Fragment>, frags: seq<seq<byte>>)
    requires Shuffled(list, frags)
    ensures |Ids(list)| == |list|
  {
    if list != [] {
      var before, f := list[..|list| - 1], list[|list| - 1];
      IdCount(before, frags);
      assert Ids(list) == Ids(before) + {f.id as nat};
    }
  }

  lemma ShuffledJoins(list: seq<Fragment>, frags: seq<seq<byte>>)
    requires Shuffled(list, frags) && |list| == |frags|
    ensures Join(SortById(list)) == Flatten(frags)
  {
    SortPicks(list, frags);
    IdCount(list, frags);
    AllIds(Ids(list), |frags|);
    JoinAll(frags, Ids(list), |frags|);
    assert frags[..|frags|] == frags;
  }

  // The n fragments of one payload, each once, in any order, each saying there are n.
  predicate FragmentsOf(ps: seq<Packet>, frags: seq<seq<byte>>) {
    && |ps| == |frags| <= 0xFF
    && (forall i | 0 <= i < |ps| :: ps[i].total == |frags| && ps[i].id < |frags| && ps[i].data == frags[ps[i].id])
    && (forall i, j | 0 <= i < j < |ps| :: ps[i].id != ps[j].id)
  }

  function Pairs(ps: seq<Packet>): seq<Fragment> {
    seq(|ps|, i requires 0 <= i < |ps| => Fragment(ps[i].id, ps[i].data))
  }

  // Arrivals that agree on how many they are.
  predicate SameTotal(ps: seq<Packet>) {
    0 < |ps| <= 0xFF && forall i | 0 <= i < |ps| :: ps[i].total == |ps|
  }

  lemma {:induction false} FeedListGrows(ps: seq<Packet>, n: nat)
    requires SameTotal(ps) && n < |ps|
    ensures FeedList([], ps[..n]) == Collected(Pairs(ps[..n]), None)
  {
    if n > 0 {
      FeedListGrows(ps, n - 1);
      assert ps[..n][..n - 1] == ps[..n - 1];
      assert Pairs(ps[..n]) == Pairs(ps[..n - 1]) + [Fragment(ps[n - 1].id, ps[n - 1].data)];
    }
  }

  lemma FeedListCompletes(ps: seq<Packet>)
    requires SameTotal(ps)
    ensures FeedList([], ps) == Collected([], Some(Join(SortById(Pairs(ps)))))
  {
    var n := |ps| - 1;
    FeedListGrows(ps, n);
    assert Pairs(ps[..n]) + [Fragment(ps[n].id, ps[n].data)] == Pairs(ps);
  }

  // The arrivals under k complete `payload`, on the last of them and not before.
  ghost predicate Completes(m: Fragments, ps: seq<Packet>, k: Key, payload: seq<byte>) {
    && ListAt(Feed(m, ps).pieces, k) == []
    && forall i | 0 <= i < |ps| && KeyOf(ps[i]) == k ::
         Feed(m, ps).done[i] == if Mine(ps[i + 1..], k) == [] then Some(payload) else None
  }

  // Whatever their ids, and whatever else arrives in between, as many arrivals as they say they are complete exactly once,
  // on the last of them; the key is then free again.
  lemma ArrivalsComplete(m: Fragments, ps: seq<Packet>, k: Key)
    requires k !in m && SameTotal(Mine(ps, k))
    ensures Completes(m, ps, k, Join(SortById(Pairs(Mine(ps, k)))))
  {
    KeysAreIndependent(m, ps, k);
    FeedListCompletes(Mine(ps, k));
    forall i | 0 <= i < |ps| && KeyOf(ps[i]) == k
      ensures Feed(m, ps).done[i] == if Mine(ps[i + 1..], k) == [] then Some(Join(SortById(Pairs(Mine(ps, k))))) else None
    {
      ArrivalCompletes(m, ps, k, i);
    }
  }

  lemma ArrivalCompletes(m: Fragments, ps: seq<Packet>, k: Key, i: nat)
    requires k !in m && SameTotal(Mine(ps, k)) && i < |ps| && KeyOf(ps[i]) == k
    ensures Feed(m, ps).done[i] == if Mine(ps[i + 1..], k) == [] then Some(Join(SortById(Pairs(Mine(ps, k))))) else None
  {
    var upto, mine := ps[..i + 1], Mine(ps, k);
    ArrivalReady(m, ps, k, i);
    MinePrefix(ps, i + 1, k);
    if Mine(ps[i + 1..], k) == [] {
      assert Mine(upto, k) == mine;
      FeedListCompletes(mine);
    } else {
      FeedListGrows(mine, |Mine(upto, k)|);
      assert mine[..|Mine(upto, k)|] == Mine(upto, k);
    }
  }

  // Reassembly in any order: whatever else arrives in between, the fragments of one packet, each once and in any order,
  // complete exactly once, on the last of them to arrive, with the payload in id order; the key is then free again.
  lemma ReassemblyInAnyOrder(m: Fragments, ps: seq<Packet>, k: Key, frags: seq<seq<byte>>)
    requires k !in m && frags != [] && FragmentsOf(Mine(ps, k), frags)
    ensures Completes(m, ps, k, Flatten(frags))
  {
    ArrivalsComplete(m, ps, k);
    ShuffledJoins(Pairs(Mine(ps, k)), frags);
  }

  // ---- Exactly when ----

  // What the sender put into the fragment of each id.
  type Contents = byte -> seq<byte>

  function Carrying(ids: seq<byte>, c: Contents): seq<Fragment> {
    seq(|ids|, i requires 0 <= i < |ids| => Fragment(ids[i], c(ids[i])))
  }

  function Pieces(n: nat, c: Contents): seq<seq<byte>>
    requires n <= 0xFF
  {
    seq(n, i requires 0 <= i < n => c(i))
  }

  predicate EachOnce(ids: seq<byte>) {
    && (forall i | 0 <= i < |ids| :: ids[i] < |ids|)
    && (forall i, j | 0 <= i < j < |ids| :: ids[i] != ids[j])
  }

  function IdSet(ids: seq<byte>): set<nat> {
    set i | 0 <= i < |ids| :: ids[i] as nat
  }

  lemma {:induction false} DistinctCount(ids: seq<byte>)
    ensures |IdSet(ids)| <= |ids|
    ensures |IdSet(ids)| == |ids| ==> forall i, j | 0 <= i < j < |ids| :: ids[i] != ids[j]
  {
    if ids != [] {
      var before, last := ids[..|ids| - 1], ids[|ids| - 1];
      DistinctCount(before);
      assert IdSet(ids) == IdSet(before) + {last as nat};
      if |IdSet(ids)| == |ids| {
        assert last as nat !in IdSet(before);
        assert forall i | 0 <= i < |before| :: before[i] as nat in IdSet(before);
      }
    }
  }

  lemma {:induction false} FullSet(ids: set<nat>, n: nat)
    requires forall i: nat | i < n :: i in ids
    ensures |ids| >= n
    ensures |ids| == n ==> forall i | i in ids :: i < n
  {
    if n > 0 {
      FullSet(ids - {n - 1}, n - 1);
      assert |ids - {n - 1}| == |ids| - 1;
      assert forall i | i in ids :: i == n - 1 || i in ids - {n - 1};
    } else if |ids| == 0 {
      assert ids == {};
    }
  }

  lemma AllThereIsOnce(ids: seq<byte>)
    requires forall i: nat | i < |ids| :: i in IdSet(ids)
    ensures EachOnce(ids)
  {
    FullSet(IdSet(ids), |ids|);
    DistinctCount(ids);
    assert forall i | 0 <= i < |ids| :: ids[i] as nat in IdSet(ids);
  }

  // With a bad id or a repeated one, some fragment is missing.
  lemma MissingId(ids: seq<byte>) returns (m: nat)
    requires !EachOnce(ids)
    ensures m < |ids| && m !in IdSet(ids)
  {
    if forall i: nat | i < |ids| :: i in IdSet(ids) {
      AllThereIsOnce(ids);
    }
    m :| m < |ids| && m !in IdSet(ids);
  }

  lemma {:induction false} InsertJoinsNothing(f: Fragment, s: seq<Fragment>)
    requires f.data == [] && Join(s) == []
    ensures Join(Insert(f, s)) == []
  {
    if s != [] && f.id >= s[0].id {
      InsertJoinsNothing(f, s[1..]);
      assert Insert(f, s)[1..] == Insert(f, s[1..]);
    }
  }

  lemma {:induction false} NothingJoined(list: seq<Fragment>)
    requires forall i | 0 <= i < |list| :: list[i].data == []
    ensures Join(SortById(list)) == []
  {
    if list != [] {
      NothingJoined(list[..|list| - 1]);
      InsertJoinsNothing(list[|list| - 1], SortById(list[..|list| - 1]));
    }
  }

  lemma {:induction false} SomePiece(pieces: seq<seq<byte>>, m: nat)
    requires m < |pieces| && pieces[m] != []
    ensures Flatten(pieces) != []
  {
    if m > 0 {
      SomePiece(pieces[1..], m - 1);
    }
  }

  // Contents that an arrival pattern with a missing id gets wrong: only the missing fragment carries anything.
  function OnlyAt(m: nat): Contents {
    (id: byte) => if id as nat == m then [0] else []
  }

  lemma WrongContents(ids: seq<byte>) returns (c: Contents)
    requires |ids| <= 0xFF && !EachOnce(ids)
    ensures Join(SortById(Carrying(ids, c))) != Flatten(Pieces(|ids|, c))
  {
    var m := MissingId(ids);
    c := OnlyAt(m);
    assert forall i | 0 <= i < |ids| :: ids[i] as nat in IdSet(ids);
    NothingJoined(Carrying(ids, c));
    SomePiece(Pieces(|ids|, c), m);
  }

  // Sorting by id and joining is right, whatever the fragments carry, exactly if every id is in range and occurs once.
  lemma JoinsExactlyWhen(ids: seq<byte>)
    requires |ids| <= 0xFF
    ensures (forall c: Contents :: Join(SortById(Carrying(ids, c))) == Flatten(Pieces(|ids|, c))) <==> EachOnce(ids)
  {
    if EachOnce(ids) {
      forall c: Contents
        ensures Join(SortById(Carrying(ids, c))) == Flatten(Pieces(|ids|, c))
      {
        ShuffledJoins(Carrying(ids, c), Pieces(|ids|, c));
      }
    } else {
      var c := WrongContents(ids);
    }
  }

  function IdsOf(ps: seq<Packet>): seq<byte> {
    seq(|ps|, i requires 0 <= i < |ps| => ps[i].id)
  }

  // The same arrivals, those under k carrying what c says.
  function Filled(ps: seq<Packet>, k: Key, c: Contents): seq<Packet> {
    seq(|ps|, i requires 0 <= i < |ps| => if KeyOf(ps[i]) == k then ps[i].(data := c(ps[i].id)) else ps[i])
  }

  lemma {:induction false} MineFilled(ps: seq<Packet>, k: Key, c: Contents)
    ensures var mine := Mine(Filled(ps, k, c), k);
            && |mine| == |Mine(ps, k)|
            && forall i | 0 <= i < |mine| :: mine[i] == Mine(ps, k)[i].(data := c(Mine(ps, k)[i].id))
  {
    if ps != [] {
      MineFilled(ps[..|ps| - 1], k, c);
      assert Filled(ps, k, c)[..|ps| - 1] == Filled(ps[..|ps| - 1], k, c);
    }
  }

  lemma {:induction false} LastOfMine(ps: seq<Packet>, k: Key) returns (i: nat)
    requires Mine(ps, k) != []
    ensures i < |ps| && KeyOf(ps[i]) == k && Mine(ps[i + 1..], k) == []
  {
    if KeyOf(ps[|ps| - 1]) == k {
      i := |ps| - 1;
    } else {
      i := LastOfMine(ps[..|ps| - 1], k);
      assert ps[i + 1..][..|ps[i + 1..]| - 1] == ps[..|ps| - 1][i + 1..];
    }
  }

  // Only one payload can be the one completed.
  lemma CompletesOnce(m: Fragments, ps: seq<Packet>, k: Key, a: seq<byte>, b: seq<byte>)
    requires Mine(ps, k) != [] && Completes(m, ps, k, a) && Completes(m, ps, k, b)
    ensures a == b
  {
    var i := LastOfMine(ps, k);
  }

  // Reassembly is right whatever the fragments carry, with anything else arriving in between, exactly if the arrivals under
  // the key, having agreed on their number, have every id once.
  lemma ReassemblyExactlyWhen(m: Fragments, ps: seq<Packet>, k: Key)
    requires k !in m && SameTotal(Mine(ps, k))
    ensures (forall c: Contents :: Completes(m, Filled(ps, k, c), k, Flatten(Pieces(|Mine(ps, k)|, c))))
       <==> EachOnce(IdsOf(Mine(ps, k)))
  {
    var ids := IdsOf(Mine(ps, k));
    forall c: Contents
      ensures Completes(m, Filled(ps, k, c), k, Flatten(Pieces(|ids|, c)))
         <==> Join(SortById(Carrying(ids, c))) == Flatten(Pieces(|ids|, c))
    {
      MineFilled(ps, k, c);
      var filled := Filled(ps, k, c);
      ArrivalsComplete(m, filled, k);
      assert Pairs(Mine(filled, k)) == Carrying(ids, c);
      if Completes(m, filled, k, Flatten(Pieces(|ids|, c))) {
        CompletesOnce(m, filled, k, Flatten(Pieces(|ids|, c)), Join(SortById(Carrying(ids, c))));
      }
    }
    JoinsExactlyWhen(ids);
  }

  // ---- More arrivals than one packet's ----

  // Arrivals that all say there are n.
  predicate AllSay(ps: seq<Packet>, n: byte) { n > 0 && forall i | 0 <= i < |ps| :: ps[i].total == n }

  // What is left of m after taking n away as often as possible.
  function Left(m: nat, n: byte): (r: nat)
    requires n > 0
    ensures r < n as nat && r <= m
  {
    if m < n as nat then m else Left(m - n as nat, n)
  }

  lemma {:induction false} LeftNext(m: nat, n: byte)
    requires n > 0
    ensures Left(m + 1, n) == if Left(m, n) + 1 == n as nat then 0 else Left(m, n) + 1
  {
    if m >= n as nat {
      LeftNext(m - n as nat, n);
    }
  }

  // The list is what is left over after whole blocks of n; the last arrival completes something exactly if it fills a block.
  ghost predicate InBlocks(ps: seq<Packet>, n: byte, fed: Collected)
    requires n > 0
  {
    var r := Left(|ps|, n);
    && fed.list == Pairs(ps[|ps| - r..])
    && (ps != [] ==>
          if r > 0 then fed.ready.None?
          else |ps| >= n as nat && fed.ready == Some(Join(SortById(Pairs(ps[|ps| - n as nat..])))))
  }

  lemma {:induction false} BlocksComplete(ps: seq<Packet>, n: byte)
    requires AllSay(ps, n)
    ensures InBlocks(ps, n, FeedList([], ps))
    decreases |ps|
  {
    if ps != [] {
      var before, last := ps[..|ps| - 1], ps[|ps| - 1];
      BlocksComplete(before, n);
      assert ps == before + [last];
      FeedListLast([], before, last);
      BlockNext(before, last, n, FeedList([], before), FeedList([], ps));
    }
  }

  lemma BlockNext(before: seq<Packet>, last: Packet, n: byte, fed: Collected, next: Collected)
    requires n > 0 && last.total == n && InBlocks(before, n, fed) && next == Collect(fed.list, last)
    ensures InBlocks(before + [last], n, next)
  {
    var left, ps := Left(|before|, n), before + [last];
    LeftNext(|before|, n);
    var block := before[|before| - left..] + [last];
    assert block == ps[|before| - left..];
    assert Pairs(block) == fed.list + [Fragment(last.id, last.data)];
    CollectsAll(fed.list, last, Pairs(block));
    assert Pairs(ps[|ps|..]) == [];
  }

  lemma CollectsAll(list: seq<Fragment>, p: Packet, all: seq<Fragment>)
    requires all == list + [Fragment(p.id, p.data)]
    ensures Collect(list, p) == if |all| == p.total as int then Collected([], Some(Join(SortById(all)))) else Collected(all, None)
  {
  }

  // Whatever else arrives in between, every n-th arrival under a key completes what sorting and joining the last n gives, and
  // no other completes anything; by `JoinsExactlyWhen` a block is right exactly if it has every id once.
  lemma EveryNthCompletes(m: Fragments, ps: seq<Packet>, k: Key, n: byte, i: nat, upto: seq<Packet>)
    requires k !in m && AllSay(Mine(ps, k), n) && i < |ps| && KeyOf(ps[i]) == k && upto == Mine(ps[..i + 1], k)
    ensures if Left(|upto|, n) > 0 then Feed(m, ps).done[i].None?
            else |upto| >= n as nat && Feed(m, ps).done[i] == Some(Join(SortById(Pairs(upto[|upto| - n as nat..]))))
  {
    ArrivalReady(m, ps, k, i);
    MinePrefix(ps, i + 1, k);
    BlocksComplete(upto, n);
  }

  // What an arrival completes depends on the arrivals under its key up to it.
  lemma ArrivalReady(m: Fragments, ps: seq<Packet>, k: Key, i: nat)
    requires k !in m && i < |ps| && KeyOf(ps[i]) == k
    ensures Mine(ps[..i + 1], k) != [] && Feed(m, ps).done[i] == FeedList([], Mine(ps[..i + 1], k)).ready
  {
    FeedPrefix(m, ps, i + 1);
    KeysAreIndependent(m, ps[..i + 1], k);
    assert ps[..i + 1][|ps[..i + 1]| - 1] == ps[i];
    assert Feed(m, ps).done[i] == Feed(m, ps[..i + 1]).done[i];
  }

  // ---- Any arrivals at all ----

  // The arrivals under k since the last of them that completed something.
  function Pending(ps: seq<Packet>, done: seq<Option<seq<byte>>>, k: Key): seq<Packet>
    requires |ps| == |done|
  {
    if ps == [] then [] else
    var n := |ps| - 1;
    if KeyOf(ps[n]) != k then Pending(ps[..n], done[..n], k)
    else if done[n].Some? then []
    else Pending(ps[..n], done[..n], k) + [ps[n]]
  }

  lemma PendingSnoc(before: seq<Packet>, done: seq<Option<seq<byte>>>, p: Packet, x: Option<seq<byte>>, k: Key)
    requires |before| == |done|
    ensures Pending(before + [p], done + [x], k)
         == if KeyOf(p) != k then Pending(before, done, k) else if x.Some? then [] else Pending(before, done, k) + [p]
  {
    assert (before + [p])[..|before|] == before && (done + [x])[..|before|] == done;
  }

  lemma PairsSnoc(ps: seq<Packet>, p: Packet)
    ensures Pairs(ps + [p]) == Pairs(ps) + [Fragment(p.id, p.data)] && |Pairs(ps)| == |ps|
  {
  }

  // One arrival more, its key's fragments being those that wait.
  lemma OneMorePending(f: Fed, before: seq<Packet>, p: Packet, k: Key, a: Accepted)
    requires |f.done| == |before| && ListAt(f.pieces, k) == Pairs(Pending(before, f.done, k)) && a == Accept(f.pieces, p)
    requires k in f.pieces <==> Pending(before, f.done, k) != []
    ensures ListAt(a.pieces, k) == Pairs(Pending(before + [p], f.done + [a.ready], k))
    ensures k in a.pieces <==> Pending(before + [p], f.done + [a.ready], k) != []
    ensures KeyOf(p) == k ==>
              var waiting := Pending(before, f.done, k) + [p];
              a.ready == if |waiting| == p.total as int then Some(Join(SortById(Pairs(waiting)))) else None
  {
    var waiting := Pending(before, f.done, k);
    AcceptAt(f.pieces, p, k);
    PendingSnoc(before, f.done, p, a.ready, k);
    PairsSnoc(waiting, p);
    CollectsAll(Pairs(waiting), p, Pairs(waiting + [p]));
    assert Pairs([]) == [];
  }

  // Whether they agree on their number or not: what waits under a key is what came since its last completion, the key being there
  // only while something does; and an arrival completes something exactly if it makes them as many as it says itself, and then
  // all of them, sorted and joined.
  lemma {:induction false} ArrivalsExactly(m: Fragments, ps: seq<Packet>, k: Key)
    requires k !in m
    ensures ListAt(Feed(m, ps).pieces, k) == Pairs(Pending(ps, Feed(m, ps).done, k))
    ensures k in Feed(m, ps).pieces <==> Pending(ps, Feed(m, ps).done, k) != []
    ensures ps != [] && KeyOf(ps[|ps| - 1]) == k ==>
              var n, done := |ps| - 1, Feed(m, ps).done;
              var waiting := Pending(ps[..n], done[..n], k) + [ps[n]];
              done[n] == if |waiting| == ps[n].total as int then Some(Join(SortById(Pairs(waiting)))) else None
  {
    if ps == [] {
      assert Pairs([]) == [];
    } else {
      var before, p := ps[..|ps| - 1], ps[|ps| - 1];
      ArrivalsExactly(m, before, k);
      assert ps == before + [p];
      FeedLast(m, before, p);
      var a := Accept(Feed(m, before).pieces, p);
      OneMorePending(Feed(m, before), before, p, k, a);
      assert (Feed(m, before).done + [a.ready])[..|before|] == Feed(m, before).done;
    }
  }

  // The same of any arrival, the last or not.
  lemma CompletesExactlyWhen(m: Fragments, ps: seq<Packet>, k: Key, i: nat)
    requires k !in m && i < |ps| && KeyOf(ps[i]) == k
    ensures var done := Feed(m, ps).done;
            var waiting := Pending(ps[..i], done[..i], k) + [ps[i]];
            done[i] == if |waiting| == ps[i].total as int then Some(Join(SortById(Pairs(waiting)))) else None
  {
    FeedPrefix(m, ps, i + 1);
    LastCompletes(m, ps[..i + 1], k);
    SlicesAgree(ps, Feed(m, ps).done, i);
  }

  lemma SlicesAgree<A, B>(a: seq<A>, b: seq<B>, i: nat)
    requires i < |a| && |a| == |b|
    ensures a[..i + 1][..i] == a[..i] && a[..i + 1][i] == a[i] && b[..i + 1][..i] == b[..i] && b[..i + 1][i] == b[i]
  {
  }

  // The last arrival alone.
  lemma LastCompletes(m: Fragments, ps: seq<Packet>, k: Key)
    requires k !in m && ps != [] && KeyOf(ps[|ps| - 1]) == k
    ensures var n, done := |ps| - 1, Feed(m, ps).done;
            var waiting := Pending(ps[..n], done[..n], k) + [ps[n]];
            done[n] == if |waiting| == ps[n].total as int then Some(Join(SortById(Pairs(waiting)))) else None
  {
    ArrivalsExactly(m, ps, k);
  }

  // ---- What sorting is ----

  function WithId(list: seq<Fragment>, id: byte): seq<Fragment> {
    if list == [] then []
    else if list[0].id == id then [list[0]] + WithId(list[1..], id)
    else WithId(list[1..], id)
  }

  predicate InOrder(list: seq<Fragment>) { forall i, j | 0 <= i < j < |list| :: list[i].id <= list[j].id }

  lemma {:induction false} WithIdSnoc(list: seq<Fragment>, f: Fragment, id: byte)
    ensures WithId(list + [f], id) == if f.id == id then WithId(list, id) + [f] else WithId(list, id)
  {
    if list == [] {
      assert [f][1..] == [] && [] + [f] == [f];
    } else {
      assert (list + [f])[1..] == list[1..] + [f];
      WithIdSnoc(list[1..], f, id);
    }
  }

  lemma {:induction false} NoneBelow(list: seq<Fragment>, id: byte)
    requires forall i | 0 <= i < |list| :: list[i].id > id
    ensures WithId(list, id) == []
  {
    if list != [] {
      NoneBelow(list[1..], id);
    }
  }

  // The first is least, and the rest in order.
  lemma OrderedFirst(list: seq<Fragment>)
    requires list != []
    ensures InOrder(list) <==> InOrder(list[1..]) && forall g | g in list[1..] :: list[0].id <= g.id
  {
    if InOrder(list) {
      forall g | g in list[1..]
        ensures list[0].id <= g.id
      {
        var i :| 0 <= i < |list[1..]| && list[1..][i] == g;
        assert list[i + 1] == g;
      }
    }
    if InOrder(list[1..]) && forall g | g in list[1..] :: list[0].id <= g.id {
      assert forall i | 1 <= i < |list| :: list[i] == list[1..][i - 1] && list[i] in list[1..];
    }
  }

  lemma {:induction false} InsertKeepsOrder(f: Fragment, s: seq<Fragment>)
    requires InOrder(s)
    ensures InOrder(Insert(f, s)) && |Insert(f, s)| == |s| + 1
    ensures forall g | g in Insert(f, s) :: g == f || g in s
  {
    OrderedFirst(Insert(f, s));
    if s != [] {
      OrderedFirst(s);
    }
    if s == [] || f.id < s[0].id {
      assert ([f] + s)[1..] == s;
    } else {
      InsertKeepsOrder(f, s[1..]);
      assert ([s[0]] + Insert(f, s[1..]))[1..] == Insert(f, s[1..]);
      assert forall g | g in s[1..] :: g in s;
    }
  }

  // Inserting puts a fragment behind those with its id.
  lemma {:induction false} InsertGoesLast(f: Fragment, s: seq<Fragment>, id: byte)
    requires InOrder(s)
    ensures WithId(Insert(f, s), id) == if f.id == id then WithId(s, id) + [f] else WithId(s, id)
  {
    if s == [] || f.id < s[0].id {
      assert ([f] + s)[1..] == s;
      if f.id == id {
        NoneBelow(s, id);
      }
    } else {
      OrderedFirst(s);
      InsertGoesLast(f, s[1..], id);
      assert ([s[0]] + Insert(f, s[1..]))[1..] == Insert(f, s[1..]);
    }
  }

  // Sorting gives the same fragments by increasing id, and those of one id in the order they came.
  lemma {:induction false} SortIsStable(list: seq<Fragment>, id: byte)
    ensures InOrder(SortById(list)) && |SortById(list)| == |list|
    ensures WithId(SortById(list), id) == WithId(list, id)
  {
    if list != [] {
      var n := |list| - 1;
      SortIsStable(list[..n], id);
      InsertKeepsOrder(list[n], SortById(list[..n]));
      InsertGoesLast(list[n], SortById(list[..n]), id);
      WithIdSnoc(list[..n], list[n], id);
      assert list == list[..n] + [list[n]];
    }
  }

  // ---- What the code does not promise ----

  // Arrivals that say the total is zero never complete anything, and pile up.
  lemma {:induction false} ZeroTotalNeverCompletes(list: seq<Fragment>, ps: seq<Packet>)
    requires forall i | 0 <= i < |ps| :: ps[i].total == 0
    ensures FeedList(list, ps) == Collected(list + Pairs(ps), None)
  {
    if ps == [] {
      assert list + Pairs(ps) == list;
    } else {
      var n := |ps| - 1;
      ZeroTotalNeverCompletes(list, ps[..n]);
      assert Pairs(ps) == Pairs(ps[..n]) + [Fragment(ps[n].id, ps[n].data)];
      Assoc(list, Pairs(ps[..n]), [Fragment(ps[n].id, ps[n].data)]);
    }
  }

  // A repeated fragment counts as a new one: two copies of the first of two fragments complete a wrong payload.
  lemma {:induction false} DuplicateCounts(p: Packet)
    requires p.total == 2
    ensures FeedList([], [p, p]) == Collected([], Some(p.data + p.data))
  {
    var f := Fragment(p.id, p.data);
    FeedListLast([], [], p);
    assert [] + [p] == [p];
    FeedListLast([], [p], p);
    assert [p] + [p] == [p, p];
    TwoSorted(f);
    assert [] + [f] == [f] && [f] + [f] == [f, f];
  }

  lemma TwoSorted(f: Fragment)
    ensures Join(SortById([f, f])) == f.data + f.data
  {
    assert [f, f][..1] == [f];
    assert [f][..0] == [];
    assert SortById([f]) == Insert(f, []) == [f];
    assert SortById([f, f]) == Insert(f, [f]) == [f] + Insert(f, [f][1..]);
    assert Join([f, f]) == f.data + Join([f, f][1..]) && Join([f]) == f.data + Join([]);
  }
}
