/**
 Runs in which no block is returned and every delivery is a full block that is in flight: each block
 arrives exactly once and the hash is checked when, and only when, the whole piece has arrived.
 */
module Assembly {
  import opened Base
  import opened Bits
  import opened Pieces
  import opened PieceInvariants
  import opened Runs

  predicate CleanEvent(s: State, e: Event) {
    match e
    case Requested(_) => true
    case Delivered(i, offset, data) => Key(i, offset) in s.pendingBlocks && |data| == s.pendingBlocks[Key(i, offset)]
    case Returned(_) => false
  }

  ghost predicate CleanRun(t: Torrent, run: seq<Event>) {
    ValidRun(t, run) && forall m :: 0 <= m < |run| ==> CleanEvent(After(t, run[..m]), run[m])
  }

  /** The buffer holds what was delivered at each received offset. */
  ghost predicate Holds(buffer: Bytes, got: map<nat, Bytes>, len: nat) {
    && |buffer| == len
    && forall o :: o in got ==>
                     OnGrid(o, len) && |got[o]| == Clamp(o, len) && buffer[o..o + Clamp(o, len)] == got[o]
  }

  /** In flight, received and not yet granted blocks partition the grid of an unfinished piece. */
  ghost predicate Partition(pending: map<Key, nat>, got: map<nat, Bytes>, i: nat, next: nat, len: nat) {
    && (forall o :: o in got ==> OnGrid(o, len) && o < next)
    && forall o: nat :: OnGrid(o, len) ==>
                          (Key(i, o) in pending <==> o < next && o !in got)
  }

  ghost predicate CleanPiece(t: Torrent, s: State, got: map<nat, Bytes>, i: nat)
    requires ValidTorrent(t) && Shape(t, s) && i < |t.hashes|
  {
    var len := PieceLength(t, i);
    if s.finished[i] then forall k :: k in s.pendingBlocks ==> k.piece != i
    else
      && Received(s, i) == |got|
      && Partition(s.pendingBlocks, got, i, s.nextOffsets[i], len)
      && Holds(Opened(t, s, i).data, got, len)
  }

  ghost predicate CleanInv(t: Torrent, s: State, got: Got)
    requires ValidTorrent(t)
  {
    Inv(t, s, got) && forall i :: 0 <= i < |t.hashes| ==> CleanPiece(t, s, got[i], i)
  }

  ghost predicate AllReceived(got: map<nat, Bytes>, len: nat) {
    forall o: nat :: OnGrid(o, len) ==> o in got
  }

  /** The received blocks of a piece, from an offset on, in offset order. */
  ghost function Assemble(got: map<nat, Bytes>, offset: nat, len: nat): Bytes
    requires CursorOk(offset, len) && AllReceived(got, len)
    decreases len - offset
  {
    if offset >= len then []
    else
      assert OnGrid(offset, len);
      got[offset] + Assemble(got, offset + Clamp(offset, len), len)
  }

  lemma SplitAt(s: Bytes, a: nat, b: nat)
    requires a <= b <= |s|
    ensures s[a..] == s[a..b] + s[b..]
  {
  }

  /** Blocks that are all slices of one byte string assemble to it. */
  lemma {:induction false} SlicesAssemble(s: Bytes, got: map<nat, Bytes>, offset: nat)
    requires CursorOk(offset, |s|) && AllReceived(got, |s|) && Holds(s, got, |s|)
    ensures Assemble(got, offset, |s|) == s[offset..]
    decreases |s| - offset
  {
    if offset < |s| {
      assert OnGrid(offset, |s|);
      var next := offset + Clamp(offset, |s|);
      SlicesAssemble(s, got, next);
      SplitAt(s, offset, next);
    }
  }

  lemma SpliceSlices(buffer: Bytes, offset: nat, data: Bytes, lo: nat, hi: nat)
    requires offset + |data| <= |buffer| && lo <= hi <= |buffer|
    ensures hi <= offset || offset + |data| <= lo ==> Splice(buffer, offset, data)[lo..hi] == buffer[lo..hi]
    ensures Splice(buffer, offset, data)[offset..offset + |data|] == data
  {
  }

  lemma GridApart(o: nat, p: nat, len: nat)
    requires OnGrid(o, len) && OnGrid(p, len) && o != p
    ensures o + Clamp(o, len) <= p || p + Clamp(p, len) <= o
  {
  }

  /** Blocks on the grid do not overlap, so storing one keeps the others. */
  lemma HoldsAfterSplice(buffer: Bytes, got: map<nat, Bytes>, len: nat, offset: nat, data: Bytes)
    requires Holds(buffer, got, len) && OnGrid(offset, len) && |data| == Clamp(offset, len)
    ensures Holds(Splice(buffer, offset, data), Add(got, offset, data), len)
  {
    var more, after := Add(got, offset, data), Splice(buffer, offset, data);
    forall o | o in more
      ensures OnGrid(o, len) && |more[o]| == Clamp(o, len) && after[o..o + Clamp(o, len)] == more[o]
    {
      if o != offset {
        assert o in got && more[o] == got[o];
        GridApart(o, offset, len);
        SpliceSlices(buffer, offset, data, o, o + Clamp(o, len));
      } else {
        SpliceSlices(buffer, offset, data, o, o);
      }
    }
  }

  /** All blocks of a piece are received exactly when as many were received as the piece has. */
  lemma AllReceivedIffCount(got: map<nat, Bytes>, len: nat)
    requires forall o :: o in got ==> OnGrid(o, len)
    ensures |got| <= BlockCount(len)
    ensures AllReceived(got, len) <==> |got| == BlockCount(len)
  {
    var grid := Grid(BlockCount(len));
    assert |got| == |got.Keys|;
    forall o: nat
      ensures o in grid <==> OnGrid(o, len)
    {
      GridIsAll(len, o);
    }
    SubsetSize(got.Keys, grid);
    if AllReceived(got, len) {
      assert got.Keys == grid;
    }
  }

  lemma OneMoreReceived(got: map<nat, Bytes>, offset: nat, data: Bytes, len: nat)
    requires forall o :: o in got ==> OnGrid(o, len)
    requires OnGrid(offset, len) && offset !in got
    ensures |Add(got, offset, data)| == |got| + 1
    ensures AllReceived(Add(got, offset, data), len) <==> |got| + 1 == BlockCount(len)
  {
    AddSize(got, offset, data);
    AllReceivedIffCount(Add(got, offset, data), len);
  }

  /** What a clean delivery finds: room for its data, and a block not received before. */
  lemma CleanSlot(t: Torrent, s: State, got: Got, i: nat, offset: nat, data: Bytes)
    requires ValidTorrent(t) && CleanInv(t, s, got) && i < |t.hashes|
    requires CleanEvent(s, Delivered(i, offset, data))
    ensures var p, len := Opened(t, s, i), PieceLength(t, i);
            && !s.finished[i] && OnGrid(offset, len) && |data| == Clamp(offset, len) && offset !in got[i]
            && p.received == |got[i]| && p.needed == BlockCount(len) && Holds(p.data, got[i], len)
            && Partition(s.pendingBlocks, got[i], i, s.nextOffsets[i], len)
  {
    assert CleanPiece(t, s, got[i], i) && PieceOk(t, s, got[i], i);
  }

  /**
   The hash check runs exactly when the last missing block arrives, and on the concatenation of the
   delivered blocks in offset order.
   */
  lemma CheckedWhenWhole(t: Torrent, s: State, got: Got, i: nat, offset: nat, data: Bytes)
    requires ValidTorrent(t) && CleanInv(t, s, got) && i < |t.hashes|
    requires CleanEvent(s, Delivered(i, offset, data))
    ensures !s.finished[i] && offset !in got[i]
    ensures var v := Judge(t, s, i, offset, data);
            var more := Add(got[i], offset, data);
            var len := PieceLength(t, i);
            && !v.OutOfBounds?
            && (v.Stored? <==> !AllReceived(more, len))
            && (!v.Stored? ==> Checked(t, s, i, offset, data) == Assemble(more, 0, len))
  {
    CleanSlot(t, s, got, i, offset, data);
    JudgeWhole(t, s, got[i], i, offset, data);
  }

  lemma JudgeWhole(t: Torrent, s: State, got: map<nat, Bytes>, i: nat, offset: nat, data: Bytes)
    requires ValidTorrent(t) && Shape(t, s) && i < |t.hashes| && !s.finished[i]
    requires var p, len := Opened(t, s, i), PieceLength(t, i);
             && OnGrid(offset, len) && |data| == Clamp(offset, len) && offset !in got
             && p.received == |got| && p.needed == BlockCount(len) && Holds(p.data, got, len)
    ensures var v := Judge(t, s, i, offset, data);
            var more := Add(got, offset, data);
            var len := PieceLength(t, i);
            && !v.OutOfBounds? && !v.AlreadyFinished?
            && (v.Stored? <==> !AllReceived(more, len))
            && (!v.Stored? ==> Checked(t, s, i, offset, data) == Assemble(more, 0, len))
  {
    var p, len := Opened(t, s, i), PieceLength(t, i);
    OneMoreReceived(got, offset, data, len);
    SpliceAssembles(p.data, got, len, offset, data);
    JudgeByCount(t, s, i, offset, data);
  }

  lemma SpliceAssembles(buffer: Bytes, got: map<nat, Bytes>, len: nat, offset: nat, data: Bytes)
    requires Holds(buffer, got, len) && OnGrid(offset, len) && |data| == Clamp(offset, len)
    ensures AllReceived(Add(got, offset, data), len) ==>
              Splice(buffer, offset, data) == Assemble(Add(got, offset, data), 0, len)
  {
    HoldsAfterSplice(buffer, got, len, offset, data);
    if AllReceived(Add(got, offset, data), len) {
      SlicesAssemble(Splice(buffer, offset, data), Add(got, offset, data), 0);
    }
  }

  lemma JudgeByCount(t: Torrent, s: State, i: nat, offset: nat, data: Bytes)
    requires ValidTorrent(t) && Shape(t, s) && i < |t.hashes| && !s.finished[i]
    requires offset + |data| <= |Opened(t, s, i).data|
    ensures var v, p := Judge(t, s, i, offset, data), Opened(t, s, i);
            && !v.OutOfBounds? && !v.AlreadyFinished?
            && (v.Stored? <==> p.received + 1 != p.needed)
            && (!v.Stored? ==> Checked(t, s, i, offset, data) == Splice(p.data, offset, data))
  {
  }

  lemma CleanFrame(t: Torrent, s: State, s': State, got: map<nat, Bytes>, j: nat)
    requires ValidTorrent(t) && Shape(t, s) && Shape(t, s') && j < |t.hashes|
    requires SamePiece(t, s, s', j) && CleanPiece(t, s, got, j)
    ensures CleanPiece(t, s', got, j)
  {
    assert Received(s', j) == Received(s, j) && Opened(t, s', j) == Opened(t, s, j);
    if !s.finished[j] {
      var len := PieceLength(t, j);
      forall o: nat | OnGrid(o, len)
        ensures Key(j, o) in s'.pendingBlocks <==> o < s.nextOffsets[j] && o !in got
      {
        assert Key(j, o) in s'.pendingBlocks <==> Key(j, o) in s.pendingBlocks;
      }
    }
  }

  lemma CleanDeliver(t: Torrent, s: State, got: Got, i: nat, offset: nat, data: Bytes)
    requires ValidTorrent(t) && CleanInv(t, s, got) && i < |t.hashes|
    requires CleanEvent(s, Delivered(i, offset, data))
    ensures CleanInv(t, Deliver(t, s, i, offset, data), GotAfter(t, s, got, i, offset, data))
  {
    var s', got' := Deliver(t, s, i, offset, data), GotAfter(t, s, got, i, offset, data);
    DeliverInv(t, s, got, i, offset, data);
    forall j | 0 <= j < |t.hashes|
      ensures CleanPiece(t, s', got'[j], j)
    {
      if j == i {
        CleanDeliverPiece(t, s, got, i, offset, data);
      } else {
        DeliverSame(t, s, i, offset, data, j);
        CleanFrame(t, s, s', got[j], j);
      }
    }
  }

  lemma PartitionStored(pending: map<Key, nat>, got: map<nat, Bytes>, i: nat, next: nat, len: nat, offset: nat, data: Bytes)
    requires Partition(pending, got, i, next, len) && OnGrid(offset, len) && Key(i, offset) in pending
    ensures Partition(pending - {Key(i, offset)}, Add(got, offset, data), i, next, len)
  {
  }

  /** Once everything was received nothing of the piece is in flight. */
  lemma NothingInFlight(t: Torrent, s: State, got: map<nat, Bytes>, i: nat, offset: nat, data: Bytes)
    requires ValidTorrent(t) && Shape(t, s) && PendingOk(t, s) && i < |t.hashes|
    requires Partition(s.pendingBlocks, got, i, s.nextOffsets[i], PieceLength(t, i))
    requires AllReceived(Add(got, offset, data), PieceLength(t, i))
    ensures forall k :: k in s.pendingBlocks - {Key(i, offset)} ==> k.piece != i
  {
    forall k | k in s.pendingBlocks && k != Key(i, offset)
      ensures k.piece != i
    {
      assert k.piece == i ==> k == Key(i, k.offset);
    }
  }

  lemma CleanDeliverPiece(t: Torrent, s: State, got: Got, i: nat, offset: nat, data: Bytes)
    requires ValidTorrent(t) && CleanInv(t, s, got) && i < |t.hashes|
    requires CleanEvent(s, Delivered(i, offset, data))
    ensures CleanPiece(t, Deliver(t, s, i, offset, data), GotAfter(t, s, got, i, offset, data)[i], i)
  {
    CheckedWhenWhole(t, s, got, i, offset, data);
    CleanSlot(t, s, got, i, offset, data);
    match Judge(t, s, i, offset, data)
    case Stored =>
      CleanStored(t, s, got[i], i, offset, data);
    case Verified =>
      NothingInFlight(t, s, got[i], i, offset, data);
    case Mismatch =>
      NothingInFlight(t, s, got[i], i, offset, data);
      CleanReset(t, Deliver(t, s, i, offset, data), i);
  }

  lemma CleanStored(t: Torrent, s: State, got: map<nat, Bytes>, i: nat, offset: nat, data: Bytes)
    requires ValidTorrent(t) && Shape(t, s) && i < |t.hashes| && Judge(t, s, i, offset, data).Stored?
    requires var p, len := Opened(t, s, i), PieceLength(t, i);
             && OnGrid(offset, len) && |data| == Clamp(offset, len) && offset !in got
             && p.received == |got| && Holds(p.data, got, len)
             && Partition(s.pendingBlocks, got, i, s.nextOffsets[i], len)
    requires Key(i, offset) in s.pendingBlocks
    ensures CleanPiece(t, Deliver(t, s, i, offset, data), Add(got, offset, data), i)
  {
    var len := PieceLength(t, i);
    HoldsAfterSplice(Opened(t, s, i).data, got, len, offset, data);
    PartitionStored(s.pendingBlocks, got, i, s.nextOffsets[i], len, offset, data);
    AddSize(got, offset, data);
    StoredState(t, s, i, offset, data);
  }

  lemma AddSize(got: map<nat, Bytes>, offset: nat, data: Bytes)
    requires offset !in got
    ensures |Add(got, offset, data)| == |got| + 1
  {
    var more := Add(got, offset, data);
    assert |more| == |more.Keys| == |got.Keys| + 1;
  }

  lemma StoredState(t: Torrent, s: State, i: nat, offset: nat, data: Bytes)
    requires ValidTorrent(t) && Shape(t, s) && i < |t.hashes| && Judge(t, s, i, offset, data).Stored?
    ensures var s', p := Deliver(t, s, i, offset, data), Opened(t, s, i);
            && !s'.finished[i] && s'.nextOffsets == s.nextOffsets
            && s'.pendingBlocks == s.pendingBlocks - {Key(i, offset)}
            && offset + |data| <= |p.data| && Opened(t, s', i).data == Splice(p.data, offset, data)
            && Received(s', i) == p.received + 1
  {
  }

  lemma CleanReset(t: Torrent, s: State, i: nat)
    requires ValidTorrent(t) && Shape(t, s) && i < |t.hashes|
    requires !s.finished[i] && i !in s.pendingPieces && s.nextOffsets[i] == 0
    requires forall k :: k in s.pendingBlocks ==> k.piece != i
    ensures CleanPiece(t, s, map[], i)
  {
  }

  lemma CleanRequest(t: Torrent, s: State, got: Got, peer: seq<bv8>)
    requires ValidTorrent(t) && CleanInv(t, s, got) && ValidPeer(t, peer)
    ensures CleanInv(t, Request(t, s, peer), got)
  {
    var s' := Request(t, s, peer);
    RequestInv(t, s, got, peer);
    var i := Pick(t, s, peer, 0);
    if i.Some? {
      forall j | 0 <= j < |t.hashes|
        ensures CleanPiece(t, s', got[j], j)
      {
        assert CleanPiece(t, s, got[j], j);
        if j == i.value {
          CleanGrantPiece(t, s, got, j);
        } else {
          CleanFrame(t, s, s', got[j], j);
        }
      }
    }
  }

  lemma PartitionGranted(pending: map<Key, nat>, got: map<nat, Bytes>, i: nat, next: nat, len: nat)
    requires CursorOk(next, len) && Partition(pending, got, i, next, len)
    requires NextFree(pending, i, next, len).Some?
    ensures var o := NextFree(pending, i, next, len).value;
            OnGrid(o, len) && Partition(pending[Key(i, o) := Clamp(o, len)], got, i, o + Clamp(o, len), len)
  {
    NextFreeLeast(pending, i, next, len);
    var o := NextFree(pending, i, next, len).value;
    assert o > next ==> OnGrid(next, len);
    assert o == next;
  }

  lemma CleanGrantPiece(t: Torrent, s: State, got: Got, i: nat)
    requires ValidTorrent(t) && CleanInv(t, s, got) && i < |t.hashes|
    requires !s.finished[i] && Grantable(t, s, i).Some?
    ensures CleanPiece(t, Grant(t, s, i), got[i], i)
  {
    assert CleanPiece(t, s, got[i], i) && PieceOk(t, s, got[i], i);
    PartitionGranted(s.pendingBlocks, got[i], i, s.nextOffsets[i], PieceLength(t, i));
    assert Opened(t, Grant(t, s, i), i) == Opened(t, s, i);
  }

  /** Clean runs keep blocks in flight, received and never granted apart. */
  lemma {:induction false} CleanRunInv(t: Torrent, run: seq<Event>)
    requires CleanRun(t, run)
    ensures CleanInv(t, After(t, run), GotIn(t, run))
  {
    if run == [] {
      InitInv(t);
    } else {
      var before, e := run[..|run| - 1], run[|run| - 1];
      forall m | 0 <= m < |before|
        ensures CleanEvent(After(t, before[..m]), before[m])
      {
        assert before[..m] == run[..m];
      }
      CleanRunInv(t, before);
      assert CleanEvent(After(t, before), e);
      match e
      case Requested(peer) => CleanRequest(t, After(t, before), GotIn(t, before), peer);
      case Delivered(i, offset, data) => CleanDeliver(t, After(t, before), GotIn(t, before), i, offset, data);
    }
  }

  /** Exactly-once assembly, over whole runs: what the next delivery of a clean run does. */
  lemma ExactlyOnce(t: Torrent, run: seq<Event>, i: nat, offset: nat, data: Bytes)
    requires CleanRun(t, run) && i < |t.hashes| && CleanEvent(After(t, run), Delivered(i, offset, data))
    ensures var s, got := After(t, run), GotIn(t, run)[i];
            var v := Judge(t, s, i, offset, data);
            var more, len := Add(got, offset, data), PieceLength(t, i);
            && Received(s, i) == |got| && offset !in got
            && (v.Stored? <==> !AllReceived(more, len))
            && (v.Verified? <==> AllReceived(more, len) && t.sha1(Assemble(more, 0, len)) == t.hashes[i])
            && (v.Mismatch? <==> AllReceived(more, len) && t.sha1(Assemble(more, 0, len)) != t.hashes[i])
  {
    CleanRunInv(t, run);
    assert CleanPiece(t, After(t, run), GotIn(t, run)[i], i);
    CheckedWhenWhole(t, After(t, run), GotIn(t, run), i, offset, data);
  }

  // ---------------------------------------------------------------- honest peers

  /** True piece contents: the right sizes and the expected hashes. */
  ghost predicate TrueContent(t: Torrent, content: seq<Bytes>)
    requires ValidTorrent(t)
  {
    && |content| == |t.hashes|
    && forall i :: 0 <= i < |content| ==> |content[i]| == PieceLength(t, i) && t.sha1(content[i]) == t.hashes[i]
  }

  predicate HonestEvent(t: Torrent, content: seq<Bytes>, s: State, e: Event)
    requires ValidTorrent(t) && |content| == |t.hashes|
  {
    && CleanEvent(s, e)
    && (e.Delivered? ==>
          && e.piece < |content| && e.offset + |e.data| <= |content[e.piece]|
          && e.data == content[e.piece][e.offset..e.offset + |e.data|])
  }

  ghost predicate HonestRun(t: Torrent, content: seq<Bytes>, run: seq<Event>) {
    && ValidRun(t, run) && TrueContent(t, content)
    && forall m :: 0 <= m < |run| ==> HonestEvent(t, content, After(t, run[..m]), run[m])
  }

  /** Everything received is a slice of the true content. */
  ghost predicate Genuine(got: map<nat, Bytes>, content: Bytes) {
    Holds(content, got, |content|)
  }

  /** An honest delivery is never refused, and a piece whose blocks have all arrived verifies. */
  lemma HonestDeliver(t: Torrent, content: seq<Bytes>, s: State, got: Got, i: nat, offset: nat, data: Bytes)
    requires ValidTorrent(t) && CleanInv(t, s, got) && TrueContent(t, content) && i < |t.hashes|
    requires Genuine(got[i], content[i])
    requires HonestEvent(t, content, s, Delivered(i, offset, data))
    ensures Genuine(Add(got[i], offset, data), content[i])
    ensures var v := Judge(t, s, i, offset, data);
            && (v.Stored? || v.Verified?)
            && (v.Verified? <==> AllReceived(Add(got[i], offset, data), PieceLength(t, i)))
            && (v.Verified? ==> Checked(t, s, i, offset, data) == content[i])
  {
    var more, len := Add(got[i], offset, data), PieceLength(t, i);
    CheckedWhenWhole(t, s, got, i, offset, data);
    assert s.pendingBlocks[Key(i, offset)] == Clamp(offset, len);
    GenuineMore(got[i], content[i], offset, data);
    if AllReceived(more, len) {
      SlicesAssemble(content[i], more, 0);
    }
  }

  lemma GenuineMore(got: map<nat, Bytes>, content: Bytes, offset: nat, data: Bytes)
    requires Genuine(got, content) && OnGrid(offset, |content|) && |data| == Clamp(offset, |content|)
    requires data == content[offset..offset + |data|]
    ensures Genuine(Add(got, offset, data), content)
  {
  }

  lemma HonestIsClean(t: Torrent, content: seq<Bytes>, run: seq<Event>)
    requires HonestRun(t, content, run)
    ensures CleanRun(t, run)
  {
    forall m | 0 <= m < |run|
      ensures CleanEvent(After(t, run[..m]), run[m])
    {
      assert HonestEvent(t, content, After(t, run[..m]), run[m]);
    }
  }

  ghost predicate AllGenuine(t: Torrent, got: Got, content: seq<Bytes>) {
    |got| == |content| == |t.hashes| && forall j :: 0 <= j < |got| ==> Genuine(got[j], content[j])
  }

  lemma GenuineStep(t: Torrent, content: seq<Bytes>, s: State, got: Got, e: Event)
    requires ValidTorrent(t) && CleanInv(t, s, got) && TrueContent(t, content) && ValidEvent(t, e)
    requires AllGenuine(t, got, content) && HonestEvent(t, content, s, e)
    ensures AllGenuine(t, GotApply(t, s, got, e), content)
  {
    if e.Delivered? {
      HonestDeliver(t, content, s, got, e.piece, e.offset, e.data);
      GotGrows(t, s, got, e.piece, e.offset, e.data);
      GenuineUpdate(t, got, content, e.piece, Add(got[e.piece], e.offset, e.data));
    }
  }

  lemma GotGrows(t: Torrent, s: State, got: Got, i: nat, offset: nat, data: Bytes)
    requires ValidTorrent(t) && Shape(t, s) && i < |t.hashes| == |got|
    requires var v := Judge(t, s, i, offset, data); v.Stored? || v.Verified?
    ensures GotAfter(t, s, got, i, offset, data) == got[i := Add(got[i], offset, data)]
  {
  }

  lemma GenuineUpdate(t: Torrent, got: Got, content: seq<Bytes>, i: nat, more: map<nat, Bytes>)
    requires AllGenuine(t, got, content) && i < |got| && Genuine(more, content[i])
    ensures AllGenuine(t, got[i := more], content)
  {
  }

  lemma {:induction false} HonestRunInv(t: Torrent, content: seq<Bytes>, run: seq<Event>)
    requires HonestRun(t, content, run)
    ensures CleanRun(t, run) && CleanInv(t, After(t, run), GotIn(t, run))
    ensures AllGenuine(t, GotIn(t, run), content)
  {
    HonestIsClean(t, content, run);
    CleanRunInv(t, run);
    if run != [] {
      var before, e := run[..|run| - 1], run[|run| - 1];
      HonestPrefix(t, content, run);
      HonestRunInv(t, content, before);
      assert HonestEvent(t, content, After(t, before), e);
      GenuineStep(t, content, After(t, before), GotIn(t, before), e);
    }
  }

  lemma HonestPrefix(t: Torrent, content: seq<Bytes>, run: seq<Event>)
    requires HonestRun(t, content, run) && run != []
    ensures HonestRun(t, content, run[..|run| - 1])
  {
    var before := run[..|run| - 1];
    forall m | 0 <= m < |before|
      ensures HonestEvent(t, content, After(t, before[..m]), before[m])
    {
      assert before[..m] == run[..m];
    }
  }

  // ---------------------------------------------------------------- how many deliveries it takes

  ghost function MissingIn(t: Torrent, s: State, i: nat): int
    requires ValidTorrent(t) && Shape(t, s) && i < |t.hashes|
  {
    if s.finished[i] then 0 else BlockCount(PieceLength(t, i)) - Received(s, i)
  }

  /** Blocks still to arrive, over the first n pieces. */
  ghost function Missing(t: Torrent, s: State, n: nat): int
    requires ValidTorrent(t) && Shape(t, s) && n <= |t.hashes|
  {
    if n == 0 then 0 else Missing(t, s, n - 1) + MissingIn(t, s, n - 1)
  }

  /** The number of blocks of the first n pieces. */
  function TotalBlocks(t: Torrent, n: nat): nat
    requires ValidTorrent(t)
  {
    if n == 0 then 0 else TotalBlocks(t, n - 1) + BlockCount(PieceLength(t, n - 1))
  }

  function Deliveries(run: seq<Event>): nat {
    if run == [] then 0 else Deliveries(run[..|run| - 1]) + if run[|run| - 1].Delivered? then 1 else 0
  }

  lemma {:induction false} MissingAtFirst(t: Torrent, n: nat)
    requires ValidTorrent(t) && n <= |t.hashes|
    ensures Missing(t, Init(t), n) == TotalBlocks(t, n)
  {
    if n > 0 {
      MissingAtFirst(t, n - 1);
    }
  }

  lemma {:induction false} MissingChange(t: Torrent, s: State, s': State, i: nat, n: nat)
    requires ValidTorrent(t) && Shape(t, s) && Shape(t, s') && i < |t.hashes| && n <= |t.hashes|
    requires forall j :: 0 <= j < |t.hashes| && j != i ==> MissingIn(t, s', j) == MissingIn(t, s, j)
    ensures Missing(t, s', n) == Missing(t, s, n) + if i < n then MissingIn(t, s', i) - MissingIn(t, s, i) else 0
  {
    if n > 0 {
      MissingChange(t, s, s', i, n - 1);
    }
  }

  lemma {:induction false} NothingMissing(t: Torrent, s: State, got: Got, n: nat)
    requires ValidTorrent(t) && Inv(t, s, got) && n <= |t.hashes|
    ensures Missing(t, s, n) >= 0
    ensures Missing(t, s, n) == 0 <==> forall i :: 0 <= i < n ==> s.finished[i]
  {
    if n > 0 {
      NothingMissing(t, s, got, n - 1);
      MissingOne(t, s, got, n - 1);
      if Missing(t, s, n) == 0 {
        assert MissingIn(t, s, n - 1) == 0 && Missing(t, s, n - 1) == 0;
      }
    }
  }

  lemma MissingOne(t: Torrent, s: State, got: Got, i: nat)
    requires ValidTorrent(t) && Inv(t, s, got) && i < |t.hashes|
    ensures MissingIn(t, s, i) >= 0
    ensures MissingIn(t, s, i) == 0 <==> s.finished[i]
  {
    assert PieceOk(t, s, got[i], i);
  }

  lemma MissingHere(t: Torrent, s: State, got: Got, i: nat, offset: nat, data: Bytes)
    requires ValidTorrent(t) && CleanInv(t, s, got) && i < |t.hashes|
    requires CleanEvent(s, Delivered(i, offset, data)) && !Judge(t, s, i, offset, data).Mismatch?
    ensures MissingIn(t, Deliver(t, s, i, offset, data), i) == MissingIn(t, s, i) - 1
  {
    CheckedWhenWhole(t, s, got, i, offset, data);
    assert CleanPiece(t, s, got[i], i) && PieceOk(t, s, got[i], i);
  }

  lemma MissingElsewhere(t: Torrent, s: State, i: nat, offset: nat, data: Bytes)
    requires ValidTorrent(t) && Shape(t, s) && i < |t.hashes|
    ensures forall j :: 0 <= j < |t.hashes| && j != i ==>
                          MissingIn(t, Deliver(t, s, i, offset, data), j) == MissingIn(t, s, j)
  {
    forall j | 0 <= j < |t.hashes| && j != i
      ensures MissingIn(t, Deliver(t, s, i, offset, data), j) == MissingIn(t, s, j)
    {
      DeliverSame(t, s, i, offset, data, j);
    }
  }

  lemma {:induction false} MissingUnchanged(t: Torrent, s: State, peer: seq<bv8>, n: nat)
    requires ValidTorrent(t) && Shape(t, s) && ValidPeer(t, peer) && n <= |t.hashes|
    ensures Missing(t, Request(t, s, peer), n) == Missing(t, s, n)
  {
    if n > 0 {
      MissingUnchanged(t, s, peer, n - 1);
    }
  }

  /** An accepted clean delivery leaves exactly one block fewer to come; a request changes nothing. */
  lemma MissingStep(t: Torrent, content: seq<Bytes>, s: State, got: Got, e: Event)
    requires ValidTorrent(t) && CleanInv(t, s, got) && TrueContent(t, content) && ValidEvent(t, e)
    requires AllGenuine(t, got, content)
    requires HonestEvent(t, content, s, e)
    ensures Missing(t, Apply(t, s, e), |t.hashes|) ==
            Missing(t, s, |t.hashes|) - if e.Delivered? then 1 else 0
  {
    match e
    case Requested(peer) =>
      MissingUnchanged(t, s, peer, |t.hashes|);
    case Delivered(i, offset, data) =>
      HonestDeliver(t, content, s, got, i, offset, data);
      MissingElsewhere(t, s, i, offset, data);
      MissingHere(t, s, got, i, offset, data);
      MissingChange(t, s, Deliver(t, s, i, offset, data), i, |t.hashes|);
  }

  lemma {:induction false} DeliveriesAndMissing(t: Torrent, content: seq<Bytes>, run: seq<Event>)
    requires HonestRun(t, content, run)
    ensures Deliveries(run) + Missing(t, After(t, run), |t.hashes|) == TotalBlocks(t, |t.hashes|)
  {
    if run == [] {
      MissingAtFirst(t, |t.hashes|);
    } else {
      var before, e := run[..|run| - 1], run[|run| - 1];
      HonestPrefix(t, content, run);
      DeliveriesAndMissing(t, content, before);
      HonestRunInv(t, content, before);
      assert HonestEvent(t, content, After(t, before), e);
      MissingStep(t, content, After(t, before), GotIn(t, before), e);
    }
  }

  /**
   Honest completion: the download is complete after exactly as many deliveries as the torrent has
   blocks, and never takes more.
   */
  lemma HonestCompletion(t: Torrent, content: seq<Bytes>, run: seq<Event>)
    requires HonestRun(t, content, run)
    ensures Deliveries(run) <= TotalBlocks(t, |t.hashes|)
    ensures IsComplete(t, After(t, run)) <==> Deliveries(run) == TotalBlocks(t, |t.hashes|)
  {
    DeliveriesAndMissing(t, content, run);
    HonestRunInv(t, content, run);
    NothingMissing(t, After(t, run), GotIn(t, run), |t.hashes|);
    CompleteIffAllFinished(t, run);
  }

  /** No delivery of an honest run is refused or sees a wrong hash; what is verified is the content. */
  lemma HonestNeverRefused(t: Torrent, content: seq<Bytes>, run: seq<Event>, i: nat, offset: nat, data: Bytes)
    requires HonestRun(t, content, run) && i < |t.hashes|
    requires HonestEvent(t, content, After(t, run), Delivered(i, offset, data))
    ensures var v := Judge(t, After(t, run), i, offset, data);
            && (v.Stored? || v.Verified?)
            && (v.Verified? ==> Checked(t, After(t, run), i, offset, data) == content[i])
  {
    HonestRunInv(t, content, run);
    HonestDeliver(t, content, After(t, run), GotIn(t, run), i, offset, data);
  }

  /**
   Progress: while an honest download is incomplete, a peer that has everything is given a block or
   some block in flight can be delivered.
   */
  lemma HonestProgress(t: Torrent, content: seq<Bytes>, run: seq<Event>, peer: seq<bv8>)
    requires HonestRun(t, content, run) && !IsComplete(t, After(t, run))
    requires ValidPeer(t, peer) && forall i :: 0 <= i < |t.hashes| ==> HasBit(peer, i)
    ensures RequestResult(t, After(t, run), peer).Some? ||
            exists i: nat, offset: nat, data: Bytes :: i < |t.hashes| && HonestEvent(t, content, After(t, run), Delivered(i, offset, data))
  {
    var s := After(t, run);
    HonestRunInv(t, content, run);
    CompleteIffAllFinished(t, run);
    if s.pendingBlocks == map[] {
      var i :| 0 <= i < |t.hashes| && !s.finished[i];
      IdleManagerGrants(t, run, peer, i);
    } else {
      var k :| k in s.pendingBlocks;
      var data := InFlightContent(t, content, s, k);
    }
  }

  lemma InFlightContent(t: Torrent, content: seq<Bytes>, s: State, k: Key) returns (data: Bytes)
    requires ValidTorrent(t) && Shape(t, s) && PendingOk(t, s) && TrueContent(t, content) && k in s.pendingBlocks
    ensures k.piece < |t.hashes| && HonestEvent(t, content, s, Delivered(k.piece, k.offset, data))
  {
    data := content[k.piece][k.offset..k.offset + s.pendingBlocks[k]];
    assert Key(k.piece, k.offset) == k;
  }
}
