/**
 Recovery: from every state a history can lead to, whatever was delivered, returned or discarded in it,
 one peer that has everything and sends true blocks can complete the download, if it also sends those in
 flight that others were asked for. With none of these in flight it only needs to send what it is asked for.
 */
module Recovery {
  import opened Base
  import opened Bits
  import opened Pieces
  import opened PieceInvariants
  import opened Runs
  import opened Assembly

  predicate Seeder(t: Torrent, peer: seq<bv8>) {
    ValidPeer(t, peer) && forall i :: 0 <= i < |t.hashes| ==> HasBit(peer, i)
  }

  /** A request for the seeder, or the true content of a block in flight of an unfinished piece. */
  predicate Seeds(t: Torrent, content: seq<Bytes>, peer: seq<bv8>, s: State, e: Event)
    requires ValidTorrent(t) && Shape(t, s) && |content| == |t.hashes|
  {
    && HonestEvent(t, content, s, e)
    && (e.Requested? ==> e.peer == peer)
    && (e.Delivered? ==> !s.finished[e.piece])
  }

  /** A history that from position m on consists of the seeder's requests and deliveries. */
  ghost predicate SeededFrom(t: Torrent, content: seq<Bytes>, peer: seq<bv8>, run: seq<Event>, m: nat) {
    && ValidRun(t, run) && TrueContent(t, content) && Seeder(t, peer) && m <= |run|
    && forall k :: m <= k < |run| ==> Seeds(t, content, peer, After(t, run[..k]), run[k])
  }

  /** The event is a delivery that has a piece's buffer discarded. */
  predicate Discarded(t: Torrent, s: State, e: Event)
    requires ValidTorrent(t) && Shape(t, s) && ValidEvent(t, e)
  {
    e.Delivered? && Judge(t, s, e.piece, e.offset, e.data).Mismatch?
  }

  /** How many buffers were discarded. */
  ghost function Discards(t: Torrent, run: seq<Event>): nat
    requires ValidRun(t, run)
  {
    if run == [] then 0
    else
      var before := run[..|run| - 1];
      Discards(t, before) + if Discarded(t, After(t, before), run[|run| - 1]) then 1 else 0
  }

  ghost predicate KeepsFinished(s: State, s': State) {
    |s.finished| == |s'.finished| && forall j :: 0 <= j < |s.finished| && s.finished[j] ==> s'.finished[j]
  }

  lemma Extend(t: Torrent, content: seq<Bytes>, peer: seq<bv8>, run: seq<Event>, m: nat, e: Event)
    requires SeededFrom(t, content, peer, run, m) && ValidEvent(t, e) && Seeds(t, content, peer, After(t, run), e)
    ensures SeededFrom(t, content, peer, run + [e], m)
    ensures After(t, run + [e]) == Apply(t, After(t, run), e)
    ensures GotIn(t, run + [e]) == GotApply(t, After(t, run), GotIn(t, run), e)
    ensures Deliveries(run + [e]) == Deliveries(run) + if e.Delivered? then 1 else 0
    ensures Discards(t, run + [e]) == Discards(t, run) + if Discarded(t, After(t, run), e) then 1 else 0
    ensures KeepsFinished(After(t, run), After(t, run + [e]))
  {
    var more := run + [e];
    assert more[..|run|] == run;
    forall k | m <= k < |more|
      ensures Seeds(t, content, peer, After(t, more[..k]), more[k])
    {
      if k < |run| {
        assert more[..k] == run[..k];
      }
    }
    StillFinished(t, After(t, run), e);
  }

  lemma StillFinished(t: Torrent, s: State, e: Event)
    requires ValidTorrent(t) && Shape(t, s) && ValidEvent(t, e)
    ensures KeepsFinished(s, Apply(t, s, e))
  {
    forall i | 0 <= i < |t.hashes|
      ensures s.finished[i] ==> Apply(t, s, e).finished[i]
    {
      FinishedChange(t, s, e, i);
    }
  }

  // ---------------------------------------------------------------- asking for all there is

  function AheadIn(t: Torrent, s: State, i: nat): nat
    requires ValidTorrent(t) && Shape(t, s) && i < |t.hashes|
  {
    if s.nextOffsets[i] < PieceLength(t, i) then PieceLength(t, i) - s.nextOffsets[i] else 0
  }

  /** How far the cursors of the first n pieces are from their ends. */
  function Ahead(t: Torrent, s: State, n: nat): nat
    requires ValidTorrent(t) && Shape(t, s) && n <= |t.hashes|
  {
    if n == 0 then 0 else Ahead(t, s, n - 1) + AheadIn(t, s, n - 1)
  }

  lemma {:induction false} AheadChange(t: Torrent, s: State, s': State, i: nat, n: nat)
    requires ValidTorrent(t) && Shape(t, s) && Shape(t, s') && i < |t.hashes| && n <= |t.hashes|
    requires forall j :: 0 <= j < |t.hashes| && j != i ==> s'.nextOffsets[j] == s.nextOffsets[j]
    ensures Ahead(t, s', n) == Ahead(t, s, n) + if i < n then AheadIn(t, s', i) - AheadIn(t, s, i) else 0
  {
    if n > 0 {
      AheadChange(t, s, s', i, n - 1);
    }
  }

  /** A granted request moves a cursor forward and leaves everything received as it is. */
  lemma GrantAdvances(t: Torrent, s: State, peer: seq<bv8>)
    requires ValidTorrent(t) && Shape(t, s) && ValidPeer(t, peer) && Pick(t, s, peer, 0).Some?
    ensures var s' := Request(t, s, peer);
            && Ahead(t, s', |t.hashes|) < Ahead(t, s, |t.hashes|)
            && s'.finished == s.finished && s'.pendingPieces == s.pendingPieces
  {
    var i := Pick(t, s, peer, 0).value;
    NextFreeInside(s.pendingBlocks, i, s.nextOffsets[i], PieceLength(t, i));
    AheadChange(t, s, Request(t, s, peer), i, |t.hashes|);
  }

  /** A seeder that is given nothing shows that no unfinished piece has a block to grant. */
  lemma NothingToGrant(t: Torrent, s: State, peer: seq<bv8>, i: nat)
    requires ValidTorrent(t) && Shape(t, s) && ViewsAgree(t, s) && Seeder(t, peer) && Pick(t, s, peer, 0).None?
    requires i < |t.hashes| && !s.finished[i]
    ensures Grantable(t, s, i).None?
  {
    assert !Eligible(t, s, peer, i);
  }

  ghost predicate AllAsked(t: Torrent, s: State)
    requires ValidTorrent(t) && Shape(t, s)
  {
    forall i :: 0 <= i < |t.hashes| && !s.finished[i] ==> Grantable(t, s, i).None?
  }

  /** Asking the seeder until it is given nothing more. */
  lemma {:induction false} AskForAll(t: Torrent, content: seq<Bytes>, peer: seq<bv8>, run: seq<Event>, m: nat) returns (more: seq<Event>)
    requires SeededFrom(t, content, peer, run, m)
    ensures run <= more && SeededFrom(t, content, peer, more, m)
    ensures Deliveries(more) == Deliveries(run) && Discards(t, more) == Discards(t, run)
    ensures GotIn(t, more) == GotIn(t, run) && AllAsked(t, After(t, more))
    ensures After(t, more).finished == After(t, run).finished && After(t, more).pendingPieces == After(t, run).pendingPieces
    decreases Ahead(t, After(t, run), |t.hashes|)
  {
    var s := After(t, run);
    if Pick(t, s, peer, 0).None? {
      RunInv(t, run);
      more := run;
      forall i | 0 <= i < |t.hashes| && !s.finished[i]
        ensures Grantable(t, s, i).None?
      {
        NothingToGrant(t, s, peer, i);
      }
    } else {
      Extend(t, content, peer, run, m, Requested(peer));
      GrantAdvances(t, s, peer);
      more := AskForAll(t, content, peer, run + [Requested(peer)], m);
    }
  }

  // ---------------------------------------------------------------- delivering all that was asked for

  /** Every block of the piece is in flight or was received since the last reset. */
  ghost predicate InSight(t: Torrent, s: State, got: map<nat, Bytes>, i: nat)
    requires ValidTorrent(t)
  {
    Covered(s.pendingBlocks, got, i, PieceLength(t, i), PieceLength(t, i))
  }

  /** The buffer holds what was received, each block once, and all of it is true. */
  ghost predicate Pure(t: Torrent, content: seq<Bytes>, s: State, got: map<nat, Bytes>, i: nat)
    requires ValidTorrent(t) && |content| == |t.hashes| && i < |t.hashes|
  {
    && Received(s, i) == |got| && Holds(Opened(t, s, i).data, got, PieceLength(t, i))
    && Genuine(got, content[i])
  }

  lemma AskedIsInSight(t: Torrent, s: State, got: Got, i: nat)
    requires ValidTorrent(t) && Inv(t, s, got) && i < |t.hashes| && !s.finished[i] && Grantable(t, s, i).None?
    ensures InSight(t, s, got[i], i)
  {
    assert PieceOk(t, s, got[i], i);
    NextFreeLeast(s.pendingBlocks, i, s.nextOffsets[i], PieceLength(t, i));
  }

  /** An unfinished piece in sight has a block in flight that was not received. */
  lemma BlockToDeliver(t: Torrent, s: State, got: Got, i: nat) returns (o: nat)
    requires ValidTorrent(t) && Inv(t, s, got) && i < |t.hashes| && !s.finished[i] && InSight(t, s, got[i], i)
    ensures o !in got[i] && Key(i, o) in s.pendingBlocks
    ensures OnGrid(o, PieceLength(t, i)) && s.pendingBlocks[Key(i, o)] == Clamp(o, PieceLength(t, i))
  {
    var grid := Grid(BlockCount(PieceLength(t, i)));
    assert PieceOk(t, s, got[i], i);
    assert |got[i]| == |got[i].Keys|;
    if grid <= got[i].Keys {
      SubsetSize(grid, got[i].Keys);
    }
    o :| o in grid && o !in got[i].Keys;
    GridIsAll(PieceLength(t, i), o);
  }

  /** What is left to count before the piece's hash is checked. */
  function ToCount(t: Torrent, s: State, i: nat): int
    requires ValidTorrent(t)
  {
    BlockCount(PieceLength(t, i)) - Received(s, i)
  }

  /** The piece is finished, or discarded because it was not pure, or one block closer to its check. */
  ghost predicate Advances(t: Torrent, content: seq<Bytes>, s: State, got: map<nat, Bytes>, s': State, got': map<nat, Bytes>, i: nat, discarded: bool)
    requires ValidTorrent(t) && Shape(t, s) && Shape(t, s') && |content| == |t.hashes| && i < |t.hashes|
  {
    || (s'.finished[i] && !discarded)
    || (got' == map[] && i !in s'.pendingPieces && discarded && !Pure(t, content, s, got, i))
    || (i in s'.pendingPieces && !discarded && InSight(t, s', got', i) && ToCount(t, s', i) == ToCount(t, s, i) - 1
        && (Pure(t, content, s, got, i) ==> Pure(t, content, s', got', i)))
  }

  /** What the delivery of such a block does. */
  lemma DeliverInSight(t: Torrent, content: seq<Bytes>, s: State, got: Got, i: nat, o: nat, data: Bytes)
    requires ValidTorrent(t) && Inv(t, s, got) && TrueContent(t, content) && i < |t.hashes| && !s.finished[i]
    requires OnGrid(o, PieceLength(t, i)) && o !in got[i] && |data| == Clamp(o, PieceLength(t, i))
    requires data == content[i][o..o + |data|] && InSight(t, s, got[i], i)
    ensures Advances(t, content, s, got[i], Deliver(t, s, i, o, data), GotAfter(t, s, got, i, o, data)[i], i,
                     Judge(t, s, i, o, data).Mismatch?)
  {
    BufferFits(t, s, got, i);
    var v := Judge(t, s, i, o, data);
    if v.Stored? {
      StoredState(t, s, i, o, data);
      StoredCovers(s.pendingBlocks, got[i], i, PieceLength(t, i), PieceLength(t, i), o, data);
    } else {
      JudgeByCount(t, s, i, o, data);
      CheckedState(t, s, i, o, data);
    }
    if Pure(t, content, s, got[i], i) {
      PureDelivery(t, content, s, got[i], i, o, data);
    }
  }

  lemma BufferFits(t: Torrent, s: State, got: Got, i: nat)
    requires ValidTorrent(t) && Inv(t, s, got) && i < |t.hashes| && !s.finished[i]
    ensures var p, len := Opened(t, s, i), PieceLength(t, i); |p.data| == len && p.needed == BlockCount(len)
  {
    assert PieceOk(t, s, got[i], i);
  }

  lemma CheckedState(t: Torrent, s: State, i: nat, offset: nat, data: Bytes)
    requires ValidTorrent(t) && Shape(t, s) && i < |t.hashes| && !s.finished[i]
    ensures var v, s' := Judge(t, s, i, offset, data), Deliver(t, s, i, offset, data);
            && (v.Verified? ==> s'.finished[i])
            && (v.Mismatch? ==> i !in s'.pendingPieces && !s'.finished[i])
  {
  }

  lemma PureDelivery(t: Torrent, content: seq<Bytes>, s: State, got: map<nat, Bytes>, i: nat, o: nat, data: Bytes)
    requires ValidTorrent(t) && Shape(t, s) && TrueContent(t, content) && i < |t.hashes| && !s.finished[i]
    requires Pure(t, content, s, got, i) && Opened(t, s, i).needed == BlockCount(PieceLength(t, i))
    requires OnGrid(o, PieceLength(t, i)) && o !in got && |data| == Clamp(o, PieceLength(t, i))
    requires data == content[i][o..o + |data|]
    ensures var v := Judge(t, s, i, o, data);
            && !v.Mismatch?
            && (v.Stored? ==> Pure(t, content, Deliver(t, s, i, o, data), Add(got, o, data), i))
  {
    JudgeWhole(t, s, got, i, o, data);
    GenuineMore(got, content[i], o, data);
    AddSize(got, o, data);
    if Judge(t, s, i, o, data).Stored? {
      StoredState(t, s, i, o, data);
      HoldsAfterSplice(Opened(t, s, i).data, got, PieceLength(t, i), o, data);
    } else {
      SlicesAssemble(content[i], Add(got, o, data), 0);
    }
  }

  /** The piece is unfinished, nothing of it is received and it has no buffer. */
  ghost predicate Afresh(t: Torrent, run: seq<Event>, i: nat)
    requires ValidRun(t, run) && i < |t.hashes|
  {
    GotIn(t, run)[i] == map[] && i !in After(t, run).pendingPieces && !After(t, run).finished[i]
  }

  ghost predicate PureIn(t: Torrent, content: seq<Bytes>, run: seq<Event>, i: nat)
    requires ValidRun(t, run) && |content| == |t.hashes| && i < |t.hashes|
  {
    Pure(t, content, After(t, run), GotIn(t, run)[i], i)
  }

  ghost predicate InSightIn(t: Torrent, run: seq<Event>, i: nat)
    requires ValidRun(t, run) && i < |t.hashes|
  {
    !After(t, run).finished[i] && InSight(t, After(t, run), GotIn(t, run)[i], i)
  }

  lemma SliceIsSeed(t: Torrent, content: seq<Bytes>, peer: seq<bv8>, s: State, i: nat, o: nat)
    requires ValidTorrent(t) && TrueContent(t, content) && i < |t.hashes| && OnGrid(o, PieceLength(t, i))
    requires Shape(t, s) && !s.finished[i]
    requires Key(i, o) in s.pendingBlocks && s.pendingBlocks[Key(i, o)] == Clamp(o, PieceLength(t, i))
    ensures Seeds(t, content, peer, s, Delivered(i, o, content[i][o..o + Clamp(o, PieceLength(t, i))]))
  {
  }

  /** The delivery of one more block of a piece. */
  lemma TrueDelivery(t: Torrent, content: seq<Bytes>, peer: seq<bv8>, s: State, got: Got, i: nat) returns (e: Event)
    requires ValidTorrent(t) && Inv(t, s, got) && TrueContent(t, content) && i < |t.hashes| && !s.finished[i]
    requires InSight(t, s, got[i], i)
    ensures e.Delivered? && ValidEvent(t, e) && Seeds(t, content, peer, s, e)
    ensures Advances(t, content, s, got[i], Apply(t, s, e), GotApply(t, s, got, e)[i], i, Discarded(t, s, e))
  {
    var o := BlockToDeliver(t, s, got, i);
    var data := content[i][o..o + Clamp(o, PieceLength(t, i))];
    SliceIsSeed(t, content, peer, s, i, o);
    DeliverInSight(t, content, s, got, i, o, data);
    e := Delivered(i, o, data);
  }

  lemma StillToCount(t: Torrent, s: State, got: Got, i: nat)
    requires ValidTorrent(t) && Inv(t, s, got) && i < |t.hashes| && !s.finished[i]
    ensures ToCount(t, s, i) > 0
  {
    assert PieceOk(t, s, got[i], i);
  }

  lemma DeliverOne(t: Torrent, content: seq<Bytes>, peer: seq<bv8>, run: seq<Event>, m: nat, i: nat)
    returns (more: seq<Event>)
    requires SeededFrom(t, content, peer, run, m) && i < |t.hashes| && InSightIn(t, run, i)
    ensures run <= more && SeededFrom(t, content, peer, more, m) && KeepsFinished(After(t, run), After(t, more))
    ensures Deliveries(more) == Deliveries(run) + 1 && ToCount(t, After(t, run), i) > 0
    ensures Discards(t, more) == Discards(t, run) + if Afresh(t, more, i) then 1 else 0
    ensures || After(t, more).finished[i]
            || (Afresh(t, more, i) && !PureIn(t, content, run, i))
            || (InSightIn(t, more, i) && !Afresh(t, more, i)
                && ToCount(t, After(t, more), i) == ToCount(t, After(t, run), i) - 1
                && (PureIn(t, content, run, i) ==> PureIn(t, content, more, i)))
  {
    RunInv(t, run);
    StillToCount(t, After(t, run), GotIn(t, run), i);
    var e := TrueDelivery(t, content, peer, After(t, run), GotIn(t, run), i);
    Extend(t, content, peer, run, m, e);
    more := run + [e];
  }

  /**
   Delivering a piece's blocks until its hash is checked. If what was received before was true and
   undamaged the piece is finished; in any case it is finished or starts afresh.
   */
  lemma {:induction false} DeliverAll(t: Torrent, content: seq<Bytes>, peer: seq<bv8>, run: seq<Event>, m: nat, i: nat)
    returns (more: seq<Event>)
    requires SeededFrom(t, content, peer, run, m) && i < |t.hashes| && InSightIn(t, run, i)
    ensures run <= more && SeededFrom(t, content, peer, more, m) && KeepsFinished(After(t, run), After(t, more))
    ensures Deliveries(more) <= Deliveries(run) + ToCount(t, After(t, run), i)
    ensures Discards(t, more) == Discards(t, run) + if After(t, more).finished[i] then 0 else 1
    ensures After(t, more).finished[i] || (Afresh(t, more, i) && !PureIn(t, content, run, i))
    decreases ToCount(t, After(t, run), i)
  {
    more := DeliverOne(t, content, peer, run, m, i);
    if InSightIn(t, more, i) && !Afresh(t, more, i) {
      more := DeliverAll(t, content, peer, more, m, i);
    }
  }

  lemma AfreshIsPure(t: Torrent, content: seq<Bytes>, run: seq<Event>, i: nat)
    requires ValidRun(t, run) && TrueContent(t, content) && i < |t.hashes| && Afresh(t, run, i)
    ensures PureIn(t, content, run, i)
  {
  }

  lemma SamePurity(t: Torrent, content: seq<Bytes>, run: seq<Event>, asked: seq<Event>, i: nat)
    requires ValidRun(t, run) && ValidRun(t, asked) && |content| == |t.hashes| && i < |t.hashes|
    requires GotIn(t, asked) == GotIn(t, run) && After(t, asked).pendingPieces == After(t, run).pendingPieces
    ensures PureIn(t, content, asked, i) <==> PureIn(t, content, run, i)
    ensures ToCount(t, After(t, asked), i) == ToCount(t, After(t, run), i)
  {
  }

  /** Asking for everything, then delivering a piece until its hash is checked. */
  lemma Round(t: Torrent, content: seq<Bytes>, peer: seq<bv8>, run: seq<Event>, m: nat, i: nat) returns (more: seq<Event>)
    requires SeededFrom(t, content, peer, run, m) && i < |t.hashes| && !After(t, run).finished[i]
    ensures run <= more && SeededFrom(t, content, peer, more, m) && KeepsFinished(After(t, run), After(t, more))
    ensures Deliveries(more) <= Deliveries(run) + BlockCount(PieceLength(t, i))
    ensures Discards(t, more) == Discards(t, run) + if After(t, more).finished[i] then 0 else 1
    ensures After(t, more).finished[i] || (Afresh(t, more, i) && !PureIn(t, content, run, i))
  {
    var asked := AskForAll(t, content, peer, run, m);
    RunInv(t, asked);
    AskedIsInSight(t, After(t, asked), GotIn(t, asked), i);
    SamePurity(t, content, run, asked, i);
    more := DeliverAll(t, content, peer, asked, m, i);
  }

  /**
   One piece: at worst what is there is discarded, once, and a second round finishes it. Nothing is
   discarded if what is there is true and undamaged.
   */
  lemma FinishPiece(t: Torrent, content: seq<Bytes>, peer: seq<bv8>, run: seq<Event>, m: nat, i: nat) returns (more: seq<Event>)
    requires SeededFrom(t, content, peer, run, m) && i < |t.hashes|
    ensures run <= more && SeededFrom(t, content, peer, more, m) && KeepsFinished(After(t, run), After(t, more))
    ensures After(t, more).finished[i]
    ensures || (Discards(t, more) == Discards(t, run) && Deliveries(more) <= Deliveries(run) + BlockCount(PieceLength(t, i)))
            || (!PureIn(t, content, run, i) && Discards(t, more) == Discards(t, run) + 1
                && Deliveries(more) <= Deliveries(run) + 2 * BlockCount(PieceLength(t, i)))
  {
    if After(t, run).finished[i] {
      return run;
    }
    more := Round(t, content, peer, run, m, i);
    if !After(t, more).finished[i] {
      AfreshIsPure(t, content, more, i);
      more := Round(t, content, peer, more, m, i);
    }
  }

  /** The pieces from one on. */
  lemma {:induction false} FinishFrom(t: Torrent, content: seq<Bytes>, peer: seq<bv8>, run: seq<Event>, m: nat, i: nat)
    returns (more: seq<Event>)
    requires SeededFrom(t, content, peer, run, m) && i <= |t.hashes|
    requires forall j :: 0 <= j < i ==> After(t, run).finished[j]
    ensures run <= more && SeededFrom(t, content, peer, more, m)
    ensures forall j :: 0 <= j < |t.hashes| ==> After(t, more).finished[j]
    ensures Deliveries(more) + 2 * TotalBlocks(t, i) <= Deliveries(run) + 2 * TotalBlocks(t, |t.hashes|)
    ensures Discards(t, more) + i <= Discards(t, run) + |t.hashes|
    decreases |t.hashes| - i
  {
    if i == |t.hashes| {
      more := run;
    } else {
      more := FinishPiece(t, content, peer, run, m, i);
      more := FinishFrom(t, content, peer, more, m, i + 1);
    }
  }

  /**
   From every state of every history, mismatches, returns and false blocks included, some run of a
   single seeder that sends true blocks in flight, asked of it or of others, completes the download,
   with at most two deliveries for each block and one discarded buffer for each piece.
   */
  lemma AlwaysCompletable(t: Torrent, content: seq<Bytes>, peer: seq<bv8>, run: seq<Event>) returns (more: seq<Event>)
    requires ValidRun(t, run) && TrueContent(t, content) && Seeder(t, peer)
    ensures run <= more && SeededFrom(t, content, peer, more, |run|)
    ensures IsComplete(t, After(t, more))
    ensures Deliveries(more) <= Deliveries(run) + 2 * TotalBlocks(t, |t.hashes|)
    ensures Discards(t, more) <= Discards(t, run) + |t.hashes|
  {
    more := FinishFrom(t, content, peer, run, |run|, 0);
    CompleteIffAllFinished(t, more);
  }

  // ---------------------------------------------------------------- a seeder that only answers

  /** Since position m the block was granted, which is to the seeder. */
  ghost predicate AskedOfSeeder(t: Torrent, run: seq<Event>, m: nat, d: nat, k: Key)
    requires ValidRun(t, run) && m <= d <= |run|
  {
    exists g :: m <= g < d && GrantsKey(t, After(t, run[..g]), run[g], k)
  }

  /** What the seeder sends was asked of it, or was in flight for an unfinished piece when it began. */
  lemma SeederAnswers(t: Torrent, content: seq<Bytes>, peer: seq<bv8>, run: seq<Event>, m: nat, d: nat)
    requires SeededFrom(t, content, peer, run, m) && m <= d < |run| && run[d].Delivered?
    ensures var k := Key(run[d].piece, run[d].offset);
            AskedOfSeeder(t, run, m, d, k) || (k in After(t, run[..m]).pendingBlocks && !After(t, run[..m]).finished[k.piece])
  {
    var k := Key(run[d].piece, run[d].offset);
    assert Seeds(t, content, peer, After(t, run[..d]), run[d]);
    if k in After(t, run[..m]).pendingBlocks {
      if After(t, run[..m]).finished[k.piece] {
        FinishedForever(t, run, m, d, k.piece);
      }
    } else {
      var g := GrantedSince(t, run, m, d, k);
    }
  }

  /** No unfinished piece has a block in flight, as when all other sessions have given theirs back. */
  ghost predicate NoneOutstanding(t: Torrent, s: State)
    requires ValidTorrent(t) && Shape(t, s)
  {
    forall k :: k in s.pendingBlocks && k.piece < |t.hashes| ==> s.finished[k.piece]
  }

  /**
   If no unfinished piece has a block in flight, a seeder that sends only blocks it is asked for from
   then on completes the download, within the same bounds.
   */
  lemma CompletableByAnswers(t: Torrent, content: seq<Bytes>, peer: seq<bv8>, run: seq<Event>) returns (more: seq<Event>)
    requires ValidRun(t, run) && TrueContent(t, content) && Seeder(t, peer) && NoneOutstanding(t, After(t, run))
    ensures run <= more && SeededFrom(t, content, peer, more, |run|)
    ensures forall d :: |run| <= d < |more| && more[d].Delivered? ==>
                          AskedOfSeeder(t, more, |run|, d, Key(more[d].piece, more[d].offset))
    ensures IsComplete(t, After(t, more))
    ensures Deliveries(more) <= Deliveries(run) + 2 * TotalBlocks(t, |t.hashes|)
    ensures Discards(t, more) <= Discards(t, run) + |t.hashes|
  {
    more := AlwaysCompletable(t, content, peer, run);
    assert more[..|run|] == run;
    forall d | |run| <= d < |more| && more[d].Delivered?
      ensures AskedOfSeeder(t, more, |run|, d, Key(more[d].piece, more[d].offset))
    {
      SeederAnswers(t, content, peer, more, |run|, d);
    }
  }
}
