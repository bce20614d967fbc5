/**
 A peer session as the source has it: an object that updates its own fields and calls the shared
 manager. A coroutine is cut at its suspensions, so each method runs without interruption and `mode`
 records where the session goes on.
 */
module PeerSession {
  import opened Base
  import opened Pieces
  import opened FileLayout
  import opened PieceManager
  import S = Sessions

  class PeerSession {
    const pieceManager: PieceManager
    var peerBitfield: Option<seq<bv8>>
    var peerChoking: bool
    var pendingBlocks: set<Key>
    var mode: S.Mode

    function Now(): S.Session
      reads this
    {
      S.Session(peerBitfield, peerChoking, pendingBlocks, mode)
    }

    predicate Ok()
      reads this, pieceManager
    {
      pieceManager.Sized() && S.SessionOk(pieceManager.torrent, Now())
    }

    /** Blocks outstanding and refill iterations left stay within the window. */
    predicate InWindow()
      reads this
    {
      |pendingBlocks| + S.Room(mode) <= S.MAX_PIPELINE_SIZE
    }

    constructor (pieceManager: PieceManager)
      ensures this.pieceManager == pieceManager && Now() == S.NEW_SESSION && InWindow()
    {
      this.pieceManager := pieceManager;
      peerBitfield, peerChoking, pendingBlocks, mode := None, true, {}, S.Idle;
    }

    method HandleBitfield(payload: seq<bv8>)
      modifies this`peerBitfield
      ensures Now() == S.OnBitfield(pieceManager.torrent, old(Now()), payload)
      ensures |payload| != (|pieceManager.torrent.hashes| + 7) / 8 ==> Now() == old(Now())
      ensures old(Ok()) && ValidPeer(pieceManager.torrent, payload) ==> Ok() && peerBitfield == Some(payload)
    {
      var pieces := |pieceManager.torrent.hashes|;
      if |payload| != (pieces + 7) / 8 {
        return;
      }
      peerBitfield := Some(payload);
    }

    method HandleChoke()
      modifies this`peerChoking
      ensures Now() == old(Now()).(choked := true)
    {
      peerChoking := true;
    }

    method HandleUnchoke()
      modifies this`peerChoking, this`mode
      ensures !peerChoking && pendingBlocks == old(pendingBlocks) && peerBitfield == old(peerBitfield)
      ensures Now() == S.OnUnchoke(old(Now()))
      ensures |pendingBlocks| <= S.MAX_PIPELINE_SIZE ==> |pendingBlocks| + S.Room(mode) == S.MAX_PIPELINE_SIZE
      ensures |pendingBlocks| > S.MAX_PIPELINE_SIZE ==> mode.Idle?
    {
      peerChoking := false;
      var needed := S.MAX_PIPELINE_SIZE - |pendingBlocks|;
      mode := if needed > 0 then S.Refilling(needed) else S.Idle;
    }

    /** An iteration of a refill loop up to the write of its request. */
    method RequestBlock() returns (block: Option<Block>)
      requires Ok() && pieceManager.Valid() && mode.Refilling?
      modifies this`mode, pieceManager`pendingBlocks, pieceManager`nextOffsets
      ensures pieceManager.Valid() && Ok()
      ensures block == old(RequestResult(pieceManager.torrent, pieceManager.Now(), peerBitfield.value))
      ensures pieceManager.Now() == old(Request(pieceManager.torrent, pieceManager.Now(), peerBitfield.value))
      ensures S.Room(mode) == old(S.Room(mode)) - if block.None? then 1 else 0
      ensures block.None? ==> mode.Idle? || mode.Refilling?
      ensures Now() == S.OnAnswer(old(Now()), block)
      ensures block.Some? ==>
                var k := Key(block.value.piece, block.value.offset);
                && k !in old(pieceManager.pendingBlocks) && k in pieceManager.pendingBlocks
                && S.Owned(Now()) == old(S.Owned(Now())) + {k}
      ensures old(InWindow()) ==> InWindow()
    {
      S.GrantIsFree(pieceManager.torrent, pieceManager.Now(), peerBitfield.value);
      block := pieceManager.RequestBlock(peerBitfield.value);
      match block
      case None => mode := S.Loop(mode.left - 1);
      case Some(b) => mode := S.Writing(mode.left, Key(b.piece, b.offset));
    }

    /** The rest of the iteration, once the write ended. Only a failed write gives up the block that was asked for. */
    method RequestWritten(ok: bool)
      requires Ok() && mode.Writing?
      modifies this`mode, this`pendingBlocks
      ensures S.Room(mode) == old(S.Room(mode)) - 1 && (mode.Returning? <==> !ok)
      ensures Now() == S.OnWritten(old(Now()), ok)
      ensures ok ==> S.Owned(Now()) == old(S.Owned(Now()))
      ensures !ok && old(mode).key !in pendingBlocks ==> S.Owned(Now()) == old(S.Owned(Now())) - {old(mode).key}
      ensures old(InWindow()) ==> InWindow()
    {
      assert |pendingBlocks + {mode.key}| <= |pendingBlocks| + 1;
      if !ok {
        mode := S.Returning(mode.left - 1, pendingBlocks);
        return;
      }
      pendingBlocks := pendingBlocks + {mode.key};
      mode := S.Loop(mode.left - 1);
    }

    /**
     A refill loop that no other session interrupts and whose writes succeed: it ends with the window
     full or with nothing that the manager would grant to this peer.
     */
    method RefillUndisturbed()
      requires Ok() && pieceManager.Valid() && peerBitfield.Some? && pendingBlocks <= pieceManager.pendingBlocks.Keys
      requires |pendingBlocks| <= S.MAX_PIPELINE_SIZE && mode == S.Loop(S.MAX_PIPELINE_SIZE - |pendingBlocks|)
      modifies this`mode, this`pendingBlocks, pieceManager`pendingBlocks, pieceManager`nextOffsets
      ensures Ok() && pieceManager.Valid() && mode.Idle? && peerBitfield == old(peerBitfield)
      ensures old(pendingBlocks) <= pendingBlocks <= pieceManager.pendingBlocks.Keys
      ensures |pendingBlocks| == S.MAX_PIPELINE_SIZE ||
              RequestResult(pieceManager.torrent, pieceManager.Now(), peerBitfield.value).None?
    {
      ghost var t, result := pieceManager.torrent, S.RefillAlone(pieceManager.torrent, pieceManager.Now(), Now());
      S.RefillFills(t, pieceManager.Now(), Now());
      while mode.Refilling?
        invariant Ok() && pieceManager.Valid() && peerBitfield == old(peerBitfield)
        invariant S.RefillAlone(t, pieceManager.Now(), Now()) == result
        decreases S.Room(mode)
      {
        var block := RequestBlock();
        if block.Some? {
          RequestWritten(true);
        }
      }
    }

    method HandlePiece(index: nat, offset: nat, data: Bytes)
      requires Ok() && pieceManager.Valid() && mode.Idle? && index < |pieceManager.torrent.hashes|
      modifies this`mode, this`pendingBlocks, pieceManager, pieceManager.fileHandler
      ensures pieceManager.Valid()
      ensures pieceManager.Now() == old(Deliver(pieceManager.torrent, pieceManager.Now(), index, offset, data))
      ensures !old(pieceManager.AnswersTrue(index, offset, data)) ==> Now() == old(Now())
      ensures old(pieceManager.AnswersTrue(index, offset, data)) ==>
                && pendingBlocks == old(pendingBlocks) - {Key(index, offset)}
                && (|pendingBlocks| <= S.MAX_PIPELINE_SIZE ==> |pendingBlocks| + S.Room(mode) == S.MAX_PIPELINE_SIZE)
                && (|pendingBlocks| > S.MAX_PIPELINE_SIZE ==> mode.Idle?)
                && (mode.Idle? || mode.Refilling?)
      ensures old(pieceManager.finished[index]) ==> Key(index, offset) !in pendingBlocks
      ensures peerBitfield == old(peerBitfield) && peerChoking == old(peerChoking)
      ensures Now() == S.OnPiece(old(Now()), Key(index, offset),
                                 Accepted(old(Judge(pieceManager.torrent, pieceManager.Now(), index, offset, data))))
      ensures pieceManager.fileHandler.file ==
              if old(Judge(pieceManager.torrent, pieceManager.Now(), index, offset, data)).Verified?
              then WriteAt(old(pieceManager.fileHandler.file), StartOf(index, pieceManager.torrent.pieceLength), data)
              else old(pieceManager.fileHandler.file)
      ensures old(InWindow()) ==> InWindow()
    {
      var accepted := pieceManager.DeliverBlock(index, offset, data);
      if accepted {
        BlockReceived(Key(index, offset));
      }
    }

    /** An accepted block leaves the window, and a refill loop starts. */
    method BlockReceived(k: Key)
      requires mode.Idle?
      modifies this`mode, this`pendingBlocks
      ensures pendingBlocks == old(pendingBlocks) - {k} && (mode.Idle? || mode.Refilling?)
      ensures |pendingBlocks| <= S.MAX_PIPELINE_SIZE ==> |pendingBlocks| + S.Room(mode) == S.MAX_PIPELINE_SIZE
      ensures |pendingBlocks| > S.MAX_PIPELINE_SIZE ==> mode.Idle?
      ensures Now() == S.OnPiece(old(Now()), k, true)
      ensures old(InWindow()) ==> InWindow()
    {
      pendingBlocks := pendingBlocks - {k};
      var needed := S.MAX_PIPELINE_SIZE - |pendingBlocks|;
      mode := if needed > 0 then S.Refilling(needed) else S.Idle;
    }

    /**
     _returnBlocks, after a failed read or a failed write: gives every outstanding block back. In
     whatever order that happens, exactly the blocks among them that were in flight leave the manager's
     set, and each piece's cursor ends at the least of where it was and the offsets given back. The
     session's own set stays as it was.
     */
    method ReturnBlocks()
      requires pieceManager.Valid() && (mode.Returning? || mode.Closing?) && mode.todo == pendingBlocks
      modifies this`mode, pieceManager`pendingBlocks, pieceManager`nextOffsets
      ensures pieceManager.Valid() && Now() == S.OnReturnsDone(old(Now()))
      ensures pieceManager.pendingBlocks == old(pieceManager.pendingBlocks) - pendingBlocks
      ensures Lowered(old(pieceManager.nextOffsets), pieceManager.nextOffsets,
                      pendingBlocks * old(pieceManager.pendingBlocks).Keys)
    {
      ghost var inFlight, next := pieceManager.pendingBlocks, pieceManager.nextOffsets;
      var todo := pendingBlocks;
      while todo != {}
        invariant todo <= pendingBlocks && mode == old(mode) && pieceManager.Valid()
        invariant pieceManager.pendingBlocks == inFlight - (pendingBlocks - todo)
        invariant Lowered(next, pieceManager.nextOffsets, (pendingBlocks - todo) * inFlight.Keys)
        decreases todo
      {
        var k :| k in todo;
        ghost var given, was := (pendingBlocks - todo) * inFlight.Keys, pieceManager.nextOffsets;
        var _ := pieceManager.ReturnBlock(Block(k.piece, k.offset, 0));
        GivenMore(pendingBlocks, todo, k, inFlight);
        if k in inFlight {
          LoweredMore(next, was, given, k);
        }
        todo := todo - {k};
      }
      mode := if mode.Returning? then S.Loop(mode.left) else S.Closed;
    }
  }

  /** Each cursor is the least of its old position and the offsets of the keys of its piece. */
  ghost predicate Lowered(before: seq<nat>, after: seq<nat>, keys: set<Key>) {
    && |after| == |before|
    && (forall k :: k in keys ==> k.piece < |before| && after[k.piece] <= k.offset)
    && forall i :: 0 <= i < |before| ==>
                     && after[i] <= before[i]
                     && (after[i] == before[i] || exists k :: k in keys && k.piece == i && k.offset == after[i])
  }

  lemma GivenMore(all: set<Key>, todo: set<Key>, k: Key, inFlight: map<Key, nat>)
    requires k in todo && todo <= all
    ensures k in inFlight <==> k in inFlight - (all - todo)
    ensures k in inFlight ==> inFlight - (all - todo) - {k} == inFlight - (all - (todo - {k}))
    ensures k !in inFlight ==> inFlight - (all - todo) == inFlight - (all - (todo - {k}))
    ensures (all - (todo - {k})) * inFlight.Keys ==
            (all - todo) * inFlight.Keys + if k in inFlight then {k} else {}
  {
  }

  lemma LoweredMore(before: seq<nat>, mid: seq<nat>, keys: set<Key>, k: Key)
    requires Lowered(before, mid, keys) && k.piece < |before|
    ensures Lowered(before, if k.offset < mid[k.piece] then mid[k.piece := k.offset] else mid, keys + {k})
  {
    var after := if k.offset < mid[k.piece] then mid[k.piece := k.offset] else mid;
    forall i | 0 <= i < |before| && after[i] != before[i]
      ensures exists q :: q in keys + {k} && q.piece == i && q.offset == after[i]
    {
      if after[i] == mid[i] {
        var q :| q in keys && q.piece == i && q.offset == mid[i];
        assert q in keys + {k};
      } else {
        assert k in keys + {k};
      }
    }
  }
}
