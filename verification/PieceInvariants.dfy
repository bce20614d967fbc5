/**
 What every operation of the piece manager keeps, whatever peers deliver: duplicate, short,
 unaligned and out-of-bounds blocks, returned blocks and hash mismatches included.
 */
module PieceInvariants {
  import opened Base
  import opened Bits
  import opened Pieces

  /** History the manager does not keep: per piece, the deliveries accepted since its last reset. */
  type Got = seq<map<nat, Bytes>>

  function Add(got: map<nat, Bytes>, offset: nat, data: Bytes): (more: map<nat, Bytes>)
    ensures more.Keys == got.Keys + {offset}
  {
    got[offset := data]
  }

  function GotAfter(t: Torrent, s: State, got: Got, i: nat, offset: nat, data: Bytes): (g: Got)
    requires ValidTorrent(t) && Shape(t, s) && i < |t.hashes| == |got|
    ensures |g| == |got|
  {
    match Judge(t, s, i, offset, data)
    case AlreadyFinished => got
    case OutOfBounds => got
    case Mismatch => got[i := map[]]
    case Stored => got[i := Add(got[i], offset, data)]
    case Verified => got[i := Add(got[i], offset, data)]
  }

  function CountTrue(flags: seq<bool>): nat {
    if flags == [] then 0 else (if flags[0] then 1 else 0) + CountTrue(flags[1..])
  }

  /** The cursor is on the block grid or at the end of the piece. */
  ghost predicate CursorOk(next: nat, len: nat) {
    next <= len && (next % BLOCK_LEN == 0 || next == len)
  }

  /** Every grid block below the cursor is in flight or was received since the last reset. */
  ghost predicate Covered(pending: map<Key, nat>, got: map<nat, Bytes>, i: nat, next: nat, len: nat) {
    forall o: nat :: OnGrid(o, len) && o < next ==> Key(i, o) in pending || o in got
  }

  function Received(s: State, i: nat): nat {
    if i in s.pendingPieces then s.pendingPieces[i].received else 0
  }

  ghost predicate PieceOk(t: Torrent, s: State, got: map<nat, Bytes>, i: nat)
    requires ValidTorrent(t) && Shape(t, s) && i < |t.hashes|
  {
    var len := PieceLength(t, i);
    && CursorOk(s.nextOffsets[i], len)
    && (i in s.pendingPieces ==>
          !s.finished[i] && |s.pendingPieces[i].data| == len && s.pendingPieces[i].needed == BlockCount(len))
    && (!s.finished[i] ==>
          && |got| <= Received(s, i) < BlockCount(len)
          && Covered(s.pendingBlocks, got, i, s.nextOffsets[i], len))
  }

  /** Every block in flight is on the grid of its piece and has exactly its clamped length. */
  ghost predicate PendingOk(t: Torrent, s: State)
    requires ValidTorrent(t) && Shape(t, s)
  {
    forall k :: k in s.pendingBlocks ==>
                  && OnGrid(k.offset, PieceLength(t, k.piece))
                  && s.pendingBlocks[k] == Clamp(k.offset, PieceLength(t, k.piece))
  }

  /** The three records of finished pieces agree, and completion was signalled exactly when reached. */
  ghost predicate ViewsAgree(t: Torrent, s: State)
    requires Shape(t, s)
  {
    && (forall j :: 0 <= j < 8 * |s.bitfield| ==> (HasBit(s.bitfield, j) <==> j < |t.hashes| && s.finished[j]))
    && s.piecesFinished == CountTrue(s.finished)
    && s.notified == if 0 < |t.hashes| == s.piecesFinished then 1 else 0
  }

  ghost predicate Inv(t: Torrent, s: State, got: Got)
    requires ValidTorrent(t)
  {
    && Shape(t, s)
    && |got| == |t.hashes|
    && (forall i :: i in s.pendingPieces ==> i < |t.hashes|)
    && PendingOk(t, s)
    && ViewsAgree(t, s)
    && forall i :: 0 <= i < |t.hashes| ==> PieceOk(t, s, got[i], i)
  }

  // ---------------------------------------------------------------- counting

  lemma {:induction false} CountTrueBounds(flags: seq<bool>)
    ensures CountTrue(flags) <= |flags|
    ensures CountTrue(flags) == |flags| <==> forall i :: 0 <= i < |flags| ==> flags[i]
  {
    if flags != [] {
      CountTrueBounds(flags[1..]);
      if forall i :: 0 <= i < |flags| ==> flags[i] {
        assert flags[0];
        forall i | 0 <= i < |flags[1..]|
          ensures flags[1..][i]
        {
          assert flags[i + 1];
        }
      } else {
        var i :| 0 <= i < |flags| && !flags[i];
        assert i > 0 ==> !flags[1..][i - 1];
      }
    }
  }

  lemma {:induction false} CountTrueSet(flags: seq<bool>, i: nat)
    requires i < |flags| && !flags[i]
    ensures CountTrue(flags[i := true]) == CountTrue(flags) + 1
  {
    if i == 0 {
      assert flags[0 := true][1..] == flags[1..];
    } else {
      assert flags[i := true][1..] == flags[1..][i - 1 := true];
      CountTrueSet(flags[1..], i - 1);
    }
  }

  lemma {:induction false} CountTrueNone(flags: seq<bool>)
    requires forall i :: 0 <= i < |flags| ==> !flags[i]
    ensures CountTrue(flags) == 0
  {
    if flags != [] {
      CountTrueNone(flags[1..]);
    }
  }

  /** The grid offsets of the first k blocks. */
  function Grid(k: nat): (offsets: set<nat>)
    ensures forall o: nat :: o in offsets <==> o % BLOCK_LEN == 0 && o < k * BLOCK_LEN
    ensures |offsets| == k
  {
    if k == 0 then {} else Grid(k - 1) + {(k - 1) * BLOCK_LEN}
  }

  lemma GridIsAll(len: nat, o: nat)
    ensures o in Grid(BlockCount(len)) <==> OnGrid(o, len)
  {
  }

  lemma SubsetSize<T>(a: set<T>, b: set<T>)
    requires a <= b
    ensures |a| <= |b|
    ensures |a| == |b| ==> a == b
  {
    assert b == a + (b - a);
  }

  // ---------------------------------------------------------------- the search for a free block

  /** NextFree finds the least grid offset from the cursor on that is not in flight, or there is none. */
  lemma {:induction false} NextFreeLeast(pending: map<Key, nat>, i: nat, next: nat, len: nat)
    requires CursorOk(next, len)
    ensures var r := NextFree(pending, i, next, len);
            && (r.Some? ==> OnGrid(r.value, len) && next <= r.value && Key(i, r.value) !in pending)
            && forall o: nat :: OnGrid(o, len) && next <= o < (if r.Some? then r.value else len) ==> Key(i, o) in pending
    decreases len - next
  {
    if next < len && Key(i, next) in pending {
      NextFreeLeast(pending, i, next + Clamp(next, len), len);
    }
  }

  // ---------------------------------------------------------------- preservation

  lemma InitInv(t: Torrent)
    requires ValidTorrent(t)
    ensures Inv(t, Init(t), seq(|t.hashes|, _ => map[]))
  {
    var s := Init(t);
    CountTrueNone(s.finished);
    forall i | 0 <= i < |t.hashes|
      ensures PieceOk(t, s, map[], i)
    {
    }
    forall j | 0 <= j < 8 * |s.bitfield|
      ensures !HasBit(s.bitfield, j)
    {
      ZeroHasNoBits(7 - j % 8);
    }
  }

  lemma RequestInv(t: Torrent, s: State, got: Got, peer: seq<bv8>)
    requires ValidTorrent(t) && Inv(t, s, got) && ValidPeer(t, peer)
    ensures Inv(t, Request(t, s, peer), got)
  {
    var i := Pick(t, s, peer, 0);
    if i.Some? {
      GrantInv(t, s, got, i.value);
    }
  }

  lemma GrantInv(t: Torrent, s: State, got: Got, i: nat)
    requires ValidTorrent(t) && Inv(t, s, got) && i < |t.hashes| && Grantable(t, s, i).Some?
    ensures Inv(t, Grant(t, s, i), got)
  {
    var s' := Grant(t, s, i);
    var len := PieceLength(t, i);
    assert PieceOk(t, s, got[i], i);
    NextFreeLeast(s.pendingBlocks, i, s.nextOffsets[i], len);
    GrantCovers(s.pendingBlocks, got[i], i, s.nextOffsets[i], len);
    forall j | 0 <= j < |t.hashes|
      ensures PieceOk(t, s', got[j], j)
    {
      assert PieceOk(t, s, got[j], j);
      if j != i {
        PieceFrame(t, s, s', got[j], j);
      }
    }
  }

  lemma GrantCovers(pending: map<Key, nat>, got: map<nat, Bytes>, i: nat, next: nat, len: nat)
    requires CursorOk(next, len) && NextFree(pending, i, next, len).Some?
    ensures var o := NextFree(pending, i, next, len).value;
            && OnGrid(o, len)
            && CursorOk(o + Clamp(o, len), len)
            && (Covered(pending, got, i, next, len) ==>
                  Covered(pending[Key(i, o) := Clamp(o, len)], got, i, o + Clamp(o, len), len))
  {
    NextFreeLeast(pending, i, next, len);
  }

  lemma ReturnInv(t: Torrent, s: State, got: Got, b: Block)
    requires ValidTorrent(t) && Inv(t, s, got)
    ensures Inv(t, Return(t, s, b), got)
  {
    var s' := Return(t, s, b);
    forall j | 0 <= j < |t.hashes|
      ensures PieceOk(t, s', got[j], j)
    {
      assert PieceOk(t, s, got[j], j);
    }
  }

  lemma DeliverInv(t: Torrent, s: State, got: Got, i: nat, offset: nat, data: Bytes)
    requires ValidTorrent(t) && Inv(t, s, got) && i < |t.hashes|
    ensures Inv(t, Deliver(t, s, i, offset, data), GotAfter(t, s, got, i, offset, data))
  {
    var s' := Deliver(t, s, i, offset, data);
    var got' := GotAfter(t, s, got, i, offset, data);
    DeliverViews(t, s, got, i, offset, data);
    DeliverPending(t, s, got, i, offset, data);
    forall j | 0 <= j < |t.hashes|
      ensures PieceOk(t, s', got'[j], j)
    {
      if j == i {
        DeliverPiece(t, s, got, i, offset, data);
      } else {
        DeliverSame(t, s, i, offset, data, j);
        PieceFrame(t, s, s', got[j], j);
      }
    }
  }

  lemma DeliverPending(t: Torrent, s: State, got: Got, i: nat, offset: nat, data: Bytes)
    requires ValidTorrent(t) && Inv(t, s, got) && i < |t.hashes|
    ensures var s' := Deliver(t, s, i, offset, data);
            PendingOk(t, s') && forall j :: j in s'.pendingPieces ==> j < |t.hashes|
  {
  }

  /** Nothing about piece j differs between the two states. */
  ghost predicate SamePiece(t: Torrent, s: State, s': State, j: nat)
    requires Shape(t, s) && Shape(t, s') && j < |t.hashes|
  {
    && s'.finished[j] == s.finished[j]
    && s'.nextOffsets[j] == s.nextOffsets[j]
    && (j in s'.pendingPieces <==> j in s.pendingPieces)
    && (j in s.pendingPieces ==> s'.pendingPieces[j] == s.pendingPieces[j])
    && forall k: Key :: k.piece == j ==> (k in s'.pendingBlocks <==> k in s.pendingBlocks)
  }

  lemma DeliverSame(t: Torrent, s: State, i: nat, offset: nat, data: Bytes, j: nat)
    requires ValidTorrent(t) && Shape(t, s) && i < |t.hashes| && j < |t.hashes| && j != i
    ensures SamePiece(t, s, Deliver(t, s, i, offset, data), j)
  {
  }

  lemma PieceFrame(t: Torrent, s: State, s': State, got: map<nat, Bytes>, j: nat)
    requires ValidTorrent(t) && Shape(t, s) && Shape(t, s') && j < |t.hashes|
    requires SamePiece(t, s, s', j) && PieceOk(t, s, got, j)
    ensures PieceOk(t, s', got, j)
  {
    assert Received(s', j) == Received(s, j);
    if !s.finished[j] {
      forall o: nat | OnGrid(o, PieceLength(t, j)) && o < s.nextOffsets[j]
        ensures Key(j, o) in s'.pendingBlocks || o in got
      {
        assert Key(j, o) in s'.pendingBlocks <==> Key(j, o) in s.pendingBlocks;
      }
    }
  }

  lemma DeliverViews(t: Torrent, s: State, got: Got, i: nat, offset: nat, data: Bytes)
    requires ValidTorrent(t) && Inv(t, s, got) && i < |t.hashes|
    ensures ViewsAgree(t, Deliver(t, s, i, offset, data))
  {
    if Judge(t, s, i, offset, data).Verified? {
      var s' := Deliver(t, s, i, offset, data);
      CountTrueSet(s.finished, i);
      CountTrueBounds(s.finished);
      forall j | 0 <= j < 8 * |s.bitfield|
        ensures HasBit(s'.bitfield, j) <==> j < |t.hashes| && s'.finished[j]
      {
        SetBitSetsOne(s.bitfield, i, j);
      }
    }
  }

  lemma DeliverPiece(t: Torrent, s: State, got: Got, i: nat, offset: nat, data: Bytes)
    requires ValidTorrent(t) && Inv(t, s, got) && i < |t.hashes|
    ensures PieceOk(t, Deliver(t, s, i, offset, data), GotAfter(t, s, got, i, offset, data)[i], i)
  {
    match Judge(t, s, i, offset, data)
    case AlreadyFinished =>
    case Stored => StoredPiece(t, s, got[i], i, offset, data);
    case OutOfBounds => OpenedPiece(t, s, got[i], i, offset, data);
    case _ => ClosedPiece(t, s, got[i], GotAfter(t, s, got, i, offset, data)[i], i, offset, data);
  }

  lemma OpenedPiece(t: Torrent, s: State, got: map<nat, Bytes>, i: nat, offset: nat, data: Bytes)
    requires ValidTorrent(t) && Shape(t, s) && i < |t.hashes| && PieceOk(t, s, got, i)
    requires Judge(t, s, i, offset, data).OutOfBounds?
    ensures PieceOk(t, Deliver(t, s, i, offset, data), got, i)
  {
  }

  lemma ClosedPiece(t: Torrent, s: State, got: map<nat, Bytes>, after: map<nat, Bytes>, i: nat, offset: nat, data: Bytes)
    requires ValidTorrent(t) && Shape(t, s) && i < |t.hashes| && PieceOk(t, s, got, i)
    requires var v := Judge(t, s, i, offset, data); v.Verified? || (v.Mismatch? && after == map[])
    ensures PieceOk(t, Deliver(t, s, i, offset, data), after, i)
  {
  }

  lemma StoredPiece(t: Torrent, s: State, got: map<nat, Bytes>, i: nat, offset: nat, data: Bytes)
    requires ValidTorrent(t) && Shape(t, s) && i < |t.hashes| && PieceOk(t, s, got, i)
    requires Judge(t, s, i, offset, data).Stored?
    ensures PieceOk(t, Deliver(t, s, i, offset, data), Add(got, offset, data), i)
  {
    var more := Add(got, offset, data);
    assert |more| == |more.Keys| && |got| == |got.Keys|;
    StoredCovers(s.pendingBlocks, got, i, s.nextOffsets[i], PieceLength(t, i), offset, data);
  }

  lemma StoredCovers(pending: map<Key, nat>, got: map<nat, Bytes>, i: nat, next: nat, len: nat, offset: nat, data: Bytes)
    requires Covered(pending, got, i, next, len)
    ensures Covered(pending - {Key(i, offset)}, Add(got, offset, data), i, next, len)
  {
  }

  // ---------------------------------------------------------------- no piece is ever stuck

  /**
   Deadlock-freedom: an unfinished piece has a block in flight or the manager would grant one.
   By counting: a cursor at the end with nothing in flight means every block was received, but then
   the hash check would have run.
   */
  lemma NeverStuck(t: Torrent, s: State, got: Got, i: nat)
    requires ValidTorrent(t) && Inv(t, s, got) && i < |t.hashes| && !s.finished[i]
    ensures (exists k :: k in s.pendingBlocks && k.piece == i) || Grantable(t, s, i).Some?
  {
    var len := PieceLength(t, i);
    assert PieceOk(t, s, got[i], i);
    NextFreeLeast(s.pendingBlocks, i, s.nextOffsets[i], len);
    if Grantable(t, s, i).None? && !exists k :: k in s.pendingBlocks && k.piece == i {
      forall o | o in Grid(BlockCount(len))
        ensures o in got[i].Keys
      {
        GridIsAll(len, o);
      }
      assert |got[i]| == |got[i].Keys|;
      SubsetSize(Grid(BlockCount(len)), got[i].Keys);
    }
  }
}
