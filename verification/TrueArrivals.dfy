/**
 Honest peers when blocks are returned: every delivery is the true content of a block in flight, but a
 returned block can make the manager grant, and count, blocks that it already received.
 */
module TrueArrivals {
  import opened Base
  import opened Pieces
  import opened PieceInvariants
  import opened Runs
  import opened Assembly
  import opened Arrivals

  /** A request, a return, or the true content of a block in flight. */
  predicate TrueEvent(t: Torrent, content: seq<Bytes>, s: State, e: Event)
    requires ValidTorrent(t) && |content| == |t.hashes|
  {
    e.Returned? || HonestEvent(t, content, s, e)
  }

  ghost predicate TrueRun(t: Torrent, content: seq<Bytes>, run: seq<Event>) {
    && ValidRun(t, run) && TrueContent(t, content)
    && forall m :: 0 <= m < |run| ==> TrueEvent(t, content, After(t, run[..m]), run[m])
  }

  ghost predicate TrueArrival(a: Arrival, piece: Bytes) {
    FullBlock(a, |piece|) && a.data == piece[a.offset..a.offset + |a.data|]
  }

  ghost predicate TrueLog(log: seq<Arrival>, piece: Bytes) {
    forall k :: 0 <= k < |log| ==> TrueArrival(log[k], piece)
  }

  /** A true delivery is a full block on the grid. */
  lemma TrueDelivery(t: Torrent, content: seq<Bytes>, run: seq<Event>, e: Event)
    requires ValidRun(t, run) && TrueContent(t, content) && ValidEvent(t, e) && e.Delivered?
    requires HonestEvent(t, content, After(t, run), e)
    ensures TrueArrival(Arrival(e.offset, e.data), content[e.piece])
  {
    RunInv(t, run);
    assert PieceOk(t, After(t, run), GotIn(t, run)[e.piece], e.piece);
    assert After(t, run).pendingBlocks[Key(e.piece, e.offset)] == Clamp(e.offset, PieceLength(t, e.piece));
  }

  lemma TrueLogGrows(log: seq<Arrival>, a: Arrival, piece: Bytes)
    requires TrueLog(log, piece) && TrueArrival(a, piece)
    ensures TrueLog(log + [a], piece)
  {
  }

  /** What is counted into a piece is always true. */
  lemma {:induction false} CountedIsTrue(t: Torrent, content: seq<Bytes>, run: seq<Event>, i: nat)
    requires TrueRun(t, content, run) && i < |t.hashes|
    ensures TrueLog(Counted(t, run, i), content[i])
  {
    if run != [] {
      var before, e := run[..|run| - 1], run[|run| - 1];
      forall m | 0 <= m < |before|
        ensures TrueEvent(t, content, After(t, before[..m]), before[m])
      {
        assert before[..m] == run[..m];
      }
      CountedIsTrue(t, content, before, i);
      assert TrueEvent(t, content, After(t, before), e);
      if e.Delivered? && e.piece == i {
        TrueDelivery(t, content, before, e);
        TrueLogGrows(Counted(t, before, i), Arrival(e.offset, e.data), content[i]);
      }
    }
  }

  /** True arrivals leave the content where anything arrived, and zeros elsewhere. */
  lemma {:induction false} TrueReplay(log: seq<Arrival>, piece: Bytes, x: nat)
    requires TrueLog(log, piece) && x < |piece|
    ensures Fit(log, |piece|)
    ensures Replay(log, |piece|)[x] == if Arrived(log, x) then piece[x] else 0
  {
    if log != [] {
      var front, last := log[..|log| - 1], log[|log| - 1];
      TrueReplay(front, piece, x);
      assert TrueArrival(last, piece);
      assert Arrived(log, x) <==> Arrived(front, x) || Covers(last, x) by {
        assert forall k :: 0 <= k < |front| ==> front[k] == log[k];
      }
    }
  }

  /** The content has zeros wherever nothing arrived. */
  ghost predicate ZeroElsewhere(log: seq<Arrival>, piece: Bytes) {
    forall x: nat :: x < |piece| && !Arrived(log, x) ==> piece[x] == 0
  }

  lemma TrueReplayIff(log: seq<Arrival>, piece: Bytes)
    requires TrueLog(log, piece) && Fit(log, |piece|)
    ensures Replay(log, |piece|) == piece <==> ZeroElsewhere(log, piece)
  {
    forall x: nat | x < |piece|
      ensures Replay(log, |piece|)[x] == if Arrived(log, x) then piece[x] else 0
    {
      TrueReplay(log, piece, x);
    }
  }

  lemma NoneTwiceIsAll(log: seq<Arrival>, piece: Bytes)
    requires TrueLog(log, piece) && |log| == BlockCount(|piece|)
    ensures NoneTwice(log) <==> BytesIn(log, |piece|)
  {
    assert FullBlocks(log, |piece|) by {
      assert forall k :: 0 <= k < |log| ==> TrueArrival(log[k], piece);
    }
    FullStaysWithin(log, |piece|);
    AllBytesIffBlocks(log, |piece|);
  }

  /**
   The check that a true delivery sets off, in any history of requests, returns and true deliveries: it
   sees the content exactly when the content has zeros wherever nothing arrived. Everything arrived
   exactly when no block came twice since the last reset, so a mismatch means that some block did.
   */
  lemma TrueCheck(t: Torrent, content: seq<Bytes>, run: seq<Event>, i: nat, offset: nat, data: Bytes)
    requires TrueRun(t, content, run) && i < |t.hashes|
    requires HonestEvent(t, content, After(t, run), Delivered(i, offset, data)) && SetsOffCheck(t, run, i, offset, data)
    ensures var v, log := Judge(t, After(t, run), i, offset, data), CheckedLog(t, run, i, offset, data);
            var seen := Checked(t, After(t, run), i, offset, data);
            && (seen == content[i] <==> ZeroElsewhere(log, content[i]))
            && (NoneTwice(log) <==> BytesIn(log, PieceLength(t, i)))
            && (NoneTwice(log) ==> seen == content[i] && v.Verified?)
            && (v.Mismatch? ==> !NoneTwice(log) && !ZeroElsewhere(log, content[i]))
  {
    var log := CheckedLog(t, run, i, offset, data);
    CheckedIsReplay(t, run, i, offset, data);
    CountedIsTrue(t, content, run, i);
    TrueDelivery(t, content, run, Delivered(i, offset, data));
    TrueLogGrows(Counted(t, run, i), Arrival(offset, data), content[i]);
    TrueReplayIff(log, content[i]);
    NoneTwiceIsAll(log, content[i]);
    ContentVerifies(t, content, run, i, offset, data);
  }

  lemma ContentVerifies(t: Torrent, content: seq<Bytes>, run: seq<Event>, i: nat, offset: nat, data: Bytes)
    requires ValidRun(t, run) && TrueContent(t, content) && i < |t.hashes| && SetsOffCheck(t, run, i, offset, data)
    ensures Checked(t, After(t, run), i, offset, data) == content[i] ==>
              Judge(t, After(t, run), i, offset, data).Verified?
  {
  }
}
