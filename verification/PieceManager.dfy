/**
 The piece manager as the source has it: one object whose methods update its fields in place, a scan
 of two bitfields byte by byte and bit by bit, and a loop over a piece's offsets.
 */
module PieceManager {
  import opened Base
  import opened Bits
  import opened Pieces
  import opened PieceInvariants
  import opened FileLayout

  /** The lesser of two numbers. */
  function Lower(a: int, b: int): int {
    if a < b then a else b
  }

  /** What an answer to a request changes: nothing without a block; with one, an entry in flight and a cursor. */
  ghost predicate Granted(t: Torrent, s: State, block: Option<Block>, s': State)
    requires ValidTorrent(t)
  {
    match block
    case None => s' == s
    case Some(b) =>
      && Key(b.piece, b.offset) !in s.pendingBlocks
      && b.piece < |s.nextOffsets| && s.nextOffsets[b.piece] <= b.offset < PieceLength(t, b.piece)
      && b.length == Lower(BLOCK_LEN, PieceLength(t, b.piece) - b.offset)
      && s' == s.(pendingBlocks := s.pendingBlocks[Key(b.piece, b.offset) := b.length],
                  nextOffsets := s.nextOffsets[b.piece := b.offset + b.length])
  }

  lemma RequestGrants(t: Torrent, s: State, peer: seq<bv8>)
    requires ValidTorrent(t) && Shape(t, s) && ValidPeer(t, peer)
    ensures Granted(t, s, RequestResult(t, s, peer), Request(t, s, peer))
  {
    var i := Pick(t, s, peer, 0);
    if i.Some? {
      NextFreeInside(s.pendingBlocks, i.value, s.nextOffsets[i.value], PieceLength(t, i.value));
    }
  }

  class PieceManager {
    const torrent: Torrent
    const fileHandler: FileHandler
    var bitfield: seq<bv8>
    var pendingPieces: map<nat, PendingPiece>
    var finished: seq<bool>
    var piecesFinished: nat
    var pendingBlocks: map<Key, nat>
    var nextOffsets: seq<nat>
    var notified: nat // how often the completion condition variable was notified

    ghost var got: Got

    function Now(): State
      reads this
    {
      State(pendingBlocks, nextOffsets, pendingPieces, finished, bitfield, piecesFinished, notified)
    }

    ghost predicate Valid()
      reads this
    {
      ValidTorrent(torrent) && fileHandler.pieceSize == torrent.pieceLength && Inv(torrent, Now(), got)
    }

    /** What the code inside a locked section needs of the fields. */
    predicate Sized()
      reads this
    {
      ValidTorrent(torrent) && fileHandler.pieceSize == torrent.pieceLength && Shape(torrent, Now())
    }

    constructor (torrent: Torrent, existing: Bytes)
      requires ValidTorrent(torrent)
      ensures Valid() && Now() == Init(torrent) && this.torrent == torrent
      ensures fresh(fileHandler) && fileHandler.file == existing
    {
      this.torrent := torrent;
      fileHandler := new FileHandler(existing, torrent.pieceLength);
      pendingBlocks, pendingPieces := map[], map[];
      nextOffsets := seq(|torrent.hashes|, _ => 0);
      finished := seq(|torrent.hashes|, _ => false);
      bitfield := seq((|torrent.hashes| + 7) / 8, _ => 0);
      piecesFinished, notified := 0, 0;
      got := seq(|torrent.hashes|, _ => map[]);
      new;
      InitInv(torrent);
    }

    /** The last piece may be shorter. It is the file's own length wherever the narrowing drops nothing that counts. */
    method GetPieceLength(index: nat) returns (pieceLength: nat)
      requires ValidTorrent(torrent) && index < |torrent.hashes|
      ensures pieceLength == PieceLength(torrent, index)
      ensures Fits(torrent) && Dropped(torrent) % torrent.pieceLength == 0 ==> pieceLength == TrueLength(torrent, index)
    {
      if Fits(torrent) {
        LengthsExact(torrent);
      }
      pieceLength := torrent.pieceLength;
      if index == |torrent.hashes| - 1 {
        var totalSize := torrent.fileLength % TWO_TO_THE_32;
        var remainder := totalSize % pieceLength;
        if remainder != 0 {
          pieceLength := remainder;
        }
      }
    }

    /**
     Grants the piece's least block from its cursor on that is not in flight and moves the cursor
     behind it, or finds that there is none.
     */
    method GetNextBlockForPiece(index: nat) returns (block: Option<Block>)
      requires Sized() && index < |torrent.hashes|
      modifies this`pendingBlocks, this`nextOffsets
      ensures Sized()
      ensures block.None? <==> old(Grantable(torrent, Now(), index)).None?
      ensures block.None? ==> Now() == old(Now())
      ensures block.Some? ==> block.value == old(BlockAt(torrent, Now(), index))
      ensures block.Some? ==> Now() == old(Grant(torrent, Now(), index))
    {
      var pieceLength := GetPieceLength(index);
      var currentOffset := nextOffsets[index];
      ghost var was := Now();
      while currentOffset < pieceLength
        invariant Now() == was
        invariant NextFree(pendingBlocks, index, currentOffset, pieceLength) == Grantable(torrent, was, index)
        decreases pieceLength - currentOffset
      {
        var length := if pieceLength - currentOffset < BLOCK_LEN then pieceLength - currentOffset else BLOCK_LEN;
        if Key(index, currentOffset) !in pendingBlocks {
          pendingBlocks := pendingBlocks[Key(index, currentOffset) := length];
          nextOffsets := nextOffsets[index := currentOffset + length];
          assert Now() == Grant(torrent, was, index);
          return Some(Block(index, currentOffset, length));
        }
        currentOffset := currentOffset + length;
      }
      return None;
    }

    /**
     A block of the least piece that the peer has, that we lack and that still has a block to grant;
     nothing exactly when no piece qualifies.
     */
    method RequestBlock(peer: seq<bv8>) returns (block: Option<Block>)
      requires Valid() && ValidPeer(torrent, peer)
      modifies this`pendingBlocks, this`nextOffsets
      ensures Valid()
      ensures block.None? ==> forall i :: 0 <= i < |torrent.hashes| ==> !old(Eligible(torrent, Now(), peer, i))
      ensures block.Some? ==>
                var i := block.value.piece;
                && i < |torrent.hashes| && old(Eligible(torrent, Now(), peer, i))
                && forall j :: 0 <= j < i ==> !old(Eligible(torrent, Now(), peer, j))
      ensures Granted(torrent, old(Now()), block, Now())
      ensures block == old(RequestResult(torrent, Now(), peer))
      ensures Now() == old(Request(torrent, Now(), peer))
    {
      ghost var was := Now();
      RequestGrants(torrent, was, peer);
      RequestInv(torrent, was, got, peer);
      block := ScanBitfields(peer);
      if block.Some? {
        PickIs(torrent, was, peer, block.value.piece);
      } else {
        PickNone(torrent, was, peer);
      }
    }

    /** The locked section of requestBlock. */
    method ScanBitfields(peer: seq<bv8>) returns (block: Option<Block>)
      requires Sized() && ValidPeer(torrent, peer)
      modifies this`pendingBlocks, this`nextOffsets
      ensures block.None? ==> Now() == old(Now()) && NoneEligible(torrent, Now(), peer, 0, |torrent.hashes|)
      ensures block.Some? ==>
                var k := block.value.piece;
                && k < |torrent.hashes| && old(Eligible(torrent, Now(), peer, k))
                && NoneEligible(torrent, old(Now()), peer, 0, k)
                && block.value == old(BlockAt(torrent, Now(), k)) && Now() == old(Grant(torrent, Now(), k))
    {
      ghost var was := Now();
      var i := 0;
      while i < |bitfield|
        invariant 0 <= i <= |bitfield|
        invariant Now() == was
        invariant NoneEligible(torrent, was, peer, 0, 8 * i)
      {
        var needed := Needed(peer[i], bitfield[i]);
        if needed > 0 {
          ghost var wanted := Wanted(torrent, was, peer);
          NeededBits(torrent, was, peer, i);
          block := ScanByte(i, needed, wanted);
          ByteScanned(torrent, was, peer, 8 * i, if block.Some? then block.value.piece else 8 * i + 8);
          if block.Some? {
            return block;
          }
        } else {
          NothingNeeded(torrent, was, peer, i);
        }
        i := i + 1;
      }
      return None;
    }

    /**
     The inner loop of requestBlock: the needed bits of byte i from the most significant down, `wanted`
     saying which piece each needed bit stands for.
     */
    method ScanByte(i: nat, needed: bv8, ghost wanted: set<nat>) returns (block: Option<Block>)
      requires Sized() && i < |bitfield|
      requires forall j :: j in wanted ==> j < |torrent.hashes|
      requires forall bit: nat :: bit < 8 ==> (BitOf(needed, bit) <==> 8 * i + (7 - bit) in wanted)
      modifies this`pendingBlocks, this`nextOffsets
      ensures block.None? ==> Now() == old(Now())
      ensures forall j :: j in wanted && 8 * i <= j < (if block.Some? then block.value.piece else 8 * i + 8) ==>
                            old(Grantable(torrent, Now(), j)).None?
      ensures block.Some? ==>
                var k := block.value.piece;
                && k in wanted && 8 * i <= k && old(Grantable(torrent, Now(), k)).Some?
                && block.value == old(BlockAt(torrent, Now(), k)) && Now() == old(Grant(torrent, Now(), k))
    {
      ghost var was := Now();
      var bit := 7;
      while bit >= 0
        invariant -1 <= bit <= 7
        invariant Now() == was
        invariant forall j :: j in wanted && 8 * i <= j < 8 * i + 7 - bit ==> Grantable(torrent, was, j).None?
      {
        var pieceIndex: nat := i * 8 + (7 - bit);
        if BitOf(needed, bit) {
          block := GetNextBlockForPiece(pieceIndex);
          if block.Some? {
            return block;
          }
        }
        bit := bit - 1;
      }
      return None;
    }

    /**
     The answer to a delivery, from the fields: the piece was finished before, or the data fits its buffer
     and leaves the count short or completes a buffer with the expected hash.
     */
    predicate AnswersTrue(idx: nat, offset: nat, data: Bytes)
      requires Sized() && idx < |torrent.hashes|
      reads this
    {
      || finished[idx]
      || (var p := Opened(torrent, Now(), idx);
          && offset + |data| <= |p.data|
          && (p.received + 1 == p.needed ==> torrent.sha1(Splice(p.data, offset, data)) == torrent.hashes[idx]))
    }

    /**
     Counts the data into its piece and, on the piece's last expected block, checks the hash. As
     coded, what goes to the file is the data of this delivery, not the piece.
     */
    method DeliverBlock(idx: nat, offset: nat, data: Bytes) returns (ok: bool)
      requires Valid() && idx < |torrent.hashes|
      modifies this, fileHandler
      ensures Valid()
      ensures ok <==> old(AnswersTrue(idx, offset, data))
      ensures old(finished[idx]) ==> ok && Now() == old(Now())
      ensures var p := old(Opened(torrent, Now(), idx));
              old(!finished[idx]) && offset + |data| > |p.data| ==>
                Now() == old(Now()).(pendingPieces := old(pendingPieces)[idx := p])
      ensures ok <==> Accepted(old(Judge(torrent, Now(), idx, offset, data)))
      ensures Now() == old(Deliver(torrent, Now(), idx, offset, data))
      ensures got == old(GotAfter(torrent, Now(), got, idx, offset, data))
      ensures fileHandler.file == if old(Judge(torrent, Now(), idx, offset, data)).Verified?
                                  then WriteAt(old(fileHandler.file), StartOf(idx, torrent.pieceLength), data)
                                  else old(fileHandler.file)
    {
      DeliverInv(torrent, Now(), got, idx, offset, data);
      assert PieceOk(torrent, Now(), got[idx], idx);
      got := GotAfter(torrent, Now(), got, idx, offset, data);
      ok := StoreBlock(idx, offset, data);
    }

    /** The locked section of deliverBlock. */
    method StoreBlock(idx: nat, offset: nat, data: Bytes) returns (ok: bool)
      requires Sized() && idx < |torrent.hashes|
      requires |Opened(torrent, Now(), idx).data| <= torrent.pieceLength
      modifies this`pendingPieces, this`pendingBlocks, this`finished, this`bitfield, this`piecesFinished
      modifies this`nextOffsets, this`notified, fileHandler
      ensures ok <==> old(AnswersTrue(idx, offset, data))
      ensures old(finished[idx]) ==> ok && Now() == old(Now())
      ensures var p := old(Opened(torrent, Now(), idx));
              old(!finished[idx]) && offset + |data| > |p.data| ==>
                Now() == old(Now()).(pendingPieces := old(pendingPieces)[idx := p])
      ensures ok <==> Accepted(old(Judge(torrent, Now(), idx, offset, data)))
      ensures Now() == old(Deliver(torrent, Now(), idx, offset, data))
      ensures fileHandler.file == if old(Judge(torrent, Now(), idx, offset, data)).Verified?
                                  then WriteAt(old(fileHandler.file), StartOf(idx, torrent.pieceLength), data)
                                  else old(fileHandler.file)
    {
      ghost var was, start := Now(), Opened(torrent, Now(), idx);
      ghost var verdict, next := Judge(torrent, was, idx, offset, data), Deliver(torrent, was, idx, offset, data);
      if finished[idx] {
        return true;
      }
      if idx !in pendingPieces {
        var len := GetPieceLength(idx);
        var totalBlocks := (len + BLOCK_LEN - 1) / BLOCK_LEN;
        pendingPieces := pendingPieces[idx := PendingPiece(seq(len, _ => 0), 0, totalBlocks)];
      }
      assert pendingPieces == was.pendingPieces[idx := start];
      var pending := pendingPieces[idx];
      if offset + |data| > |pending.data| {
        assert verdict.OutOfBounds? && Now() == next;
        return false;
      }
      pending := PendingPiece(Splice(pending.data, offset, data), pending.received + 1, pending.needed);
      SetTwice(was.pendingPieces, idx, start, pending);
      pendingPieces := pendingPieces[idx := pending];
      pendingBlocks := pendingBlocks - {Key(idx, offset)};
      if pending.received == pending.needed {
        if torrent.sha1(pending.data) == torrent.hashes[idx] {
          FinishPiece(idx, data);
          assert verdict.Verified? && Now() == next;
          return true;
        } else {
          pendingPieces := pendingPieces - {idx};
          nextOffsets := nextOffsets[idx := 0];
          assert verdict.Mismatch? && Now() == next;
          return false;
        }
      }
      assert verdict.Stored? && Now() == next;
      return true;
    }

    /** The branch of deliverBlock for a matching hash. */
    method FinishPiece(idx: nat, data: Bytes)
      requires Sized() && idx < |torrent.hashes| && |data| <= torrent.pieceLength
      modifies this`pendingPieces, this`finished, this`bitfield, this`piecesFinished, this`notified, fileHandler
      ensures fileHandler.file == WriteAt(old(fileHandler.file), StartOf(idx, torrent.pieceLength), data)
      ensures finished == old(finished)[idx := true] && pendingPieces == old(pendingPieces) - {idx}
      ensures bitfield == SetBit(old(bitfield), idx) && piecesFinished == old(piecesFinished) + 1
      ensures notified == if piecesFinished >= |torrent.hashes| then old(notified) + 1 else old(notified)
    {
      fileHandler.WritePiece(idx, data);
      finished := finished[idx := true];
      pendingPieces := pendingPieces - {idx};
      bitfield := SetBit(bitfield, idx);
      piecesFinished := piecesFinished + 1;
      if piecesFinished >= |torrent.hashes| {
        notified := notified + 1;
      }
    }

    method ReturnBlock(block: Block) returns (ok: bool)
      requires Valid()
      modifies this`pendingBlocks, this`nextOffsets
      ensures Valid()
      ensures ok <==> Key(block.piece, block.offset) in old(pendingBlocks)
      ensures pendingBlocks == old(pendingBlocks) - {Key(block.piece, block.offset)}
      ensures ok ==> block.piece < |nextOffsets| &&
                     nextOffsets == old(nextOffsets)[block.piece := Lower(block.offset, old(nextOffsets)[block.piece])]
      ensures !ok ==> nextOffsets == old(nextOffsets)
      ensures Now() == old(Return(torrent, Now(), block))
    {
      ReturnInv(torrent, Now(), got, block);
      if Key(block.piece, block.offset) in pendingBlocks {
        if block.offset < nextOffsets[block.piece] {
          nextOffsets := nextOffsets[block.piece := block.offset];
        }
        pendingBlocks := pendingBlocks - {Key(block.piece, block.offset)};
        return true;
      } else {
        return false;
      }
    }

    method IsComplete() returns (complete: bool)
      requires Valid()
      ensures complete <==> forall i :: 0 <= i < |torrent.hashes| ==> finished[i]
    {
      CountTrueBounds(finished);
      complete := piecesFinished >= |torrent.hashes|;
    }
  }

  /** What becomes of a map entry that is set, set again and possibly removed. */
  lemma SetTwice<K, V>(m: map<K, V>, k: K, a: V, b: V)
    ensures m[k := a][k := b] == m[k := b]
    ensures m[k := a][k := b] - {k} == m - {k}
  {
  }

  // What the scan's outcome says about Pick.

  ghost predicate NoneEligible(t: Torrent, s: State, peer: seq<bv8>, from: nat, to: nat)
    requires ValidTorrent(t) && Shape(t, s) && ValidPeer(t, peer)
  {
    forall j :: from <= j < to && j < |t.hashes| ==> !Eligible(t, s, peer, j)
  }

  /** The pieces the peer has and we lack. */
  ghost function Wanted(t: Torrent, s: State, peer: seq<bv8>): set<nat>
    requires Shape(t, s) && ValidPeer(t, peer)
  {
    set j: nat | j < |t.hashes| && HasBit(peer, j) && !HasBit(s.bitfield, j)
  }

  lemma NeededBit(t: Torrent, s: State, peer: seq<bv8>, i: nat, bit: nat)
    requires Shape(t, s) && ValidPeer(t, peer) && i < |peer| && bit < 8
    ensures BitOf(Needed(peer[i], s.bitfield[i]), bit) <==> 8 * i + (7 - bit) in Wanted(t, s, peer)
  {
    var j := 8 * i + (7 - bit);
    assert j / 8 == i && 7 - j % 8 == bit;
    assert HasBit(peer, j) ==> j < |t.hashes|;
    AndNotBit(peer[i], s.bitfield[i], bit);
  }

  lemma NeededBits(t: Torrent, s: State, peer: seq<bv8>, i: nat)
    requires Shape(t, s) && ValidPeer(t, peer) && i < |peer|
    ensures forall bit: nat :: bit < 8 ==>
                                 (BitOf(Needed(peer[i], s.bitfield[i]), bit) <==> 8 * i + (7 - bit) in Wanted(t, s, peer))
  {
    forall bit: nat | bit < 8
      ensures BitOf(Needed(peer[i], s.bitfield[i]), bit) <==> 8 * i + (7 - bit) in Wanted(t, s, peer)
    {
      NeededBit(t, s, peer, i, bit);
    }
  }

  lemma ByteScanned(t: Torrent, s: State, peer: seq<bv8>, from: nat, to: nat)
    requires ValidTorrent(t) && Shape(t, s) && ValidPeer(t, peer) && NoneEligible(t, s, peer, 0, from)
    requires forall j :: j in Wanted(t, s, peer) && from <= j < to ==> Grantable(t, s, j).None?
    ensures NoneEligible(t, s, peer, 0, to)
  {
    forall j | from <= j < to && j < |t.hashes|
      ensures !Eligible(t, s, peer, j)
    {
      assert j in Wanted(t, s, peer) <==> HasBit(peer, j) && !HasBit(s.bitfield, j);
    }
  }

  lemma NothingNeeded(t: Torrent, s: State, peer: seq<bv8>, i: nat)
    requires ValidTorrent(t) && Shape(t, s) && ValidPeer(t, peer) && i < |s.bitfield|
    requires Needed(peer[i], s.bitfield[i]) == 0 && NoneEligible(t, s, peer, 0, 8 * i)
    ensures NoneEligible(t, s, peer, 0, 8 * i + 8)
  {
    forall j | 8 * i <= j < 8 * i + 8 && j < |t.hashes|
      ensures !Eligible(t, s, peer, j)
    {
      AndNotBit(peer[i], s.bitfield[i], 7 - j % 8);
      ZeroHasNoBits(7 - j % 8);
    }
  }

  lemma PickIs(t: Torrent, s: State, peer: seq<bv8>, i: nat)
    requires ValidTorrent(t) && Shape(t, s) && ValidPeer(t, peer) && i < |t.hashes| && Eligible(t, s, peer, i)
    requires NoneEligible(t, s, peer, 0, i)
    ensures Pick(t, s, peer, 0) == Some(i)
  {
  }

  lemma PickNone(t: Torrent, s: State, peer: seq<bv8>)
    requires ValidTorrent(t) && Shape(t, s) && ValidPeer(t, peer)
    requires NoneEligible(t, s, peer, 0, |t.hashes|)
    ensures Pick(t, s, peer, 0) == None
  {
  }
}
