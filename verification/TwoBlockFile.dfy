/**
 Two downloads of a file of two blocks that go wrong: one leaves a wrong file, one checks the hash
 before the first block has arrived.
 */
module TwoBlockFile {
  import opened Base
  import opened Bits
  import opened Pieces
  import opened Runs
  import opened Assembly
  import opened Arrivals
  import opened FinalFile

  const FULL_PEER: seq<bv8> := [0x80]

  /** One piece of two blocks. */
  predicate TwoBlocks(t: Torrent) {
    |t.hashes| == 1 && t.pieceLength == t.fileLength == 2 * BLOCK_LEN
  }

  /** The same, with the hash of a known content. */
  predicate TwoBlocksOf(t: Torrent, c: Bytes) {
    TwoBlocks(t) && |c| == 2 * BLOCK_LEN && t.hashes[0] == t.sha1(c)
  }

  /** The torrent of a file of two blocks, for any hash function. */
  function TwoBlockTorrent(c: Bytes, sha1: Bytes -> Bytes): (t: Torrent)
    requires |c| == 2 * BLOCK_LEN
    ensures TwoBlocksOf(t, c)
  {
    Torrent([sha1(c)], 2 * BLOCK_LEN, 2 * BLOCK_LEN, sha1)
  }

  function TwoBlockRun(c: Bytes): seq<Event>
    requires |c| == 2 * BLOCK_LEN
  {
    [Requested(FULL_PEER), Requested(FULL_PEER), Delivered(0, 0, c[..BLOCK_LEN]), Delivered(0, BLOCK_LEN, c[BLOCK_LEN..])]
  }

  lemma FullPeer(t: Torrent)
    requires TwoBlocks(t)
    ensures ValidPeer(t, FULL_PEER) && HasBit(FULL_PEER, 0)
  {
    forall j | 1 <= j < 8
      ensures !HasBit(FULL_PEER, j)
    {
      OneBit(7 - j as bv8);
    }
  }

  lemma OneBit(b: bv8)
    requires b < 7
    ensures ((0x80 as bv8) >> b) & 1 == 0
  {
  }

  /** A request to a manager that lacks the piece is answered from the cursor on. */
  lemma TwoBlockRequest(t: Torrent, s: State)
    requires TwoBlocks(t) && Shape(t, s) && ManagerLacks(t, s) && Grantable(t, s, 0).Some?
    ensures ValidPeer(t, FULL_PEER) && Request(t, s, FULL_PEER) == Grant(t, s, 0)
  {
    FullPeer(t);
    assert Eligible(t, s, FULL_PEER, 0);
  }

  predicate ManagerLacks(t: Torrent, s: State)
    requires TwoBlocks(t) && Shape(t, s)
  {
    !HasBit(s.bitfield, 0) && !s.finished[0]
  }

  const GRANTED1: State := State(map[Key(0, 0) := BLOCK_LEN], [BLOCK_LEN], map[], [false], [0], 0, 0)

  const GRANTED2: State :=
    State(map[Key(0, 0) := BLOCK_LEN, Key(0, BLOCK_LEN) := BLOCK_LEN], [2 * BLOCK_LEN], map[], [false], [0], 0, 0)

  function HalfStored(c: Bytes): State
    requires |c| == 2 * BLOCK_LEN
  {
    State(map[Key(0, BLOCK_LEN) := BLOCK_LEN], [2 * BLOCK_LEN],
          map[0 := PendingPiece(c[..BLOCK_LEN] + seq(BLOCK_LEN, _ => 0), 1, 2)], [false], [0], 0, 0)
  }

  lemma TwoBlockGrants(t: Torrent)
    requires TwoBlocks(t)
    ensures Init(t) == State(map[], [0], map[], [false], [0], 0, 0)
    ensures ValidPeer(t, FULL_PEER)
    ensures Apply(t, Init(t), Requested(FULL_PEER)) == GRANTED1
    ensures Apply(t, GRANTED1, Requested(FULL_PEER)) == GRANTED2
  {
    ZeroHasNoBits(7);
    assert Grantable(t, Init(t), 0) == Some(0);
    TwoBlockRequest(t, Init(t));
    assert Grantable(t, GRANTED1, 0) == Some(BLOCK_LEN);
    TwoBlockRequest(t, GRANTED1);
  }

  lemma TwoBlockDeliveries(t: Torrent, c: Bytes)
    requires TwoBlocksOf(t, c)
    ensures Judge(t, GRANTED2, 0, 0, c[..BLOCK_LEN]).Stored?
    ensures Apply(t, GRANTED2, Delivered(0, 0, c[..BLOCK_LEN])) == HalfStored(c)
    ensures Judge(t, HalfStored(c), 0, BLOCK_LEN, c[BLOCK_LEN..]).Verified?
    ensures Checked(t, HalfStored(c), 0, BLOCK_LEN, c[BLOCK_LEN..]) == c
  {
    var zeros: Bytes := seq(2 * BLOCK_LEN, _ => 0);
    assert Opened(t, GRANTED2, 0) == PendingPiece(zeros, 0, 2);
    assert Splice(zeros, 0, c[..BLOCK_LEN]) == c[..BLOCK_LEN] + seq(BLOCK_LEN, _ => 0);
    assert Deliver(t, GRANTED2, 0, 0, c[..BLOCK_LEN]).pendingBlocks == HalfStored(c).pendingBlocks;
    var half := c[..BLOCK_LEN] + seq(BLOCK_LEN, _ => 0);
    assert Splice(half, BLOCK_LEN, c[BLOCK_LEN..]) == c;
  }

  lemma TwoBlockStates(t: Torrent, c: Bytes)
    requires TwoBlocksOf(t, c)
    ensures var run := TwoBlockRun(c);
            && ValidRun(t, run)
            && After(t, run[..0]) == Init(t) && After(t, run[..1]) == GRANTED1
            && After(t, run[..2]) == GRANTED2 && After(t, run[..3]) == HalfStored(c)
            && After(t, run[..4]) == Deliver(t, HalfStored(c), 0, BLOCK_LEN, c[BLOCK_LEN..])
  {
    var run := TwoBlockRun(c);
    TwoBlockGrants(t);
    TwoBlockDeliveries(t, c);
    assert run[..0] == [];
    StepTo(t, run, 0, Init(t), Requested(FULL_PEER));
    StepTo(t, run, 1, GRANTED1, Requested(FULL_PEER));
    StepTo(t, run, 2, GRANTED2, Delivered(0, 0, c[..BLOCK_LEN]));
    StepTo(t, run, 3, HalfStored(c), Delivered(0, BLOCK_LEN, c[BLOCK_LEN..]));
  }

  /**
   Two honest deliveries of any two-block file into an empty file, under any hash function: the
   download completes, and the file holds only the second block, at the place of the first.
   */
  lemma TwoBlockFileWrong(c: Bytes, sha1: Bytes -> Bytes)
    requires |c| == 2 * BLOCK_LEN
    ensures var t, run := TwoBlockTorrent(c, sha1), TwoBlockRun(c);
            && HonestRun(t, [c], run) && IsComplete(t, After(t, run))
            && CodedFile(t, run, []) == c[BLOCK_LEN..] && VerifiedFile(t, run, []) == c
  {
    var t := TwoBlockTorrent(c, sha1);
    TwoBlockHonest(t, c);
    TwoBlockWrites(t, c, false);
    TwoBlockWrites(t, c, true);
    OneWrite(c[BLOCK_LEN..], 2 * BLOCK_LEN);
    OneWrite(c, 2 * BLOCK_LEN);
  }

  lemma TwoBlockHonest(t: Torrent, c: Bytes)
    requires TwoBlocksOf(t, c)
    ensures HonestRun(t, [c], TwoBlockRun(c)) && IsComplete(t, After(t, TwoBlockRun(c)))
  {
    var run := TwoBlockRun(c);
    TwoBlockStates(t, c);
    TwoBlockDeliveries(t, c);
    assert run[..4] == run;
    forall m | 0 <= m < |run|
      ensures HonestEvent(t, [c], After(t, run[..m]), run[m])
    {
      assert m == 0 || m == 1 || m == 2 || m == 3;
    }
  }

  /** One write at the start of an empty file. */
  lemma OneWrite(bytes: Bytes, pieceLength: nat)
    ensures FileOf([], [Write(0, bytes)], pieceLength) == bytes
  {
    AppendWrite([], [], Write(0, bytes), pieceLength);
    assert [] + [Write(0, bytes)] == [Write(0, bytes)];
  }

  lemma TwoBlockWrites(t: Torrent, c: Bytes, whole: bool)
    requires TwoBlocksOf(t, c) && ValidRun(t, TwoBlockRun(c))
    ensures Writes(t, TwoBlockRun(c), whole) == [Write(0, if whole then c else c[BLOCK_LEN..])]
  {
    var run := TwoBlockRun(c);
    TwoBlockNoWrites(t, c, whole);
    TwoBlockStates(t, c);
    TwoBlockDeliveries(t, c);
    WritesStep(t, run, 3, whole);
    assert run[..4] == run;
  }

  lemma TwoBlockNoWrites(t: Torrent, c: Bytes, whole: bool)
    requires TwoBlocksOf(t, c) && ValidRun(t, TwoBlockRun(c))
    ensures Writes(t, TwoBlockRun(c)[..3], whole) == []
  {
    var run := TwoBlockRun(c);
    TwoBlockStates(t, c);
    TwoBlockDeliveries(t, c);
    WritesStep(t, run, 0, whole);
    WritesStep(t, run, 1, whole);
    WritesStep(t, run, 2, whole);
  }

  // ---------------------------------------------------------------- a check that comes early

  /** The second block arrives, the first is returned, both are granted again and the second arrives again. */
  function RegrantRun(c: Bytes): seq<Event>
    requires |c| == 2 * BLOCK_LEN
  {
    [Requested(FULL_PEER), Requested(FULL_PEER), Delivered(0, BLOCK_LEN, c[BLOCK_LEN..]), Returned(Block(0, 0, BLOCK_LEN)),
     Requested(FULL_PEER), Requested(FULL_PEER), Delivered(0, BLOCK_LEN, c[BLOCK_LEN..])]
  }

  function SecondStored(c: Bytes, pending: map<Key, nat>, next: nat): State
    requires |c| == 2 * BLOCK_LEN
  {
    State(pending, [next], map[0 := PendingPiece(seq(BLOCK_LEN, _ => 0) + c[BLOCK_LEN..], 1, 2)], [false], [0], 0, 0)
  }

  const FIRST: map<Key, nat> := map[Key(0, 0) := BLOCK_LEN]

  lemma RegrantGivesBack(t: Torrent, c: Bytes)
    requires TwoBlocks(t) && |c| == 2 * BLOCK_LEN
    ensures Apply(t, GRANTED2, Delivered(0, BLOCK_LEN, c[BLOCK_LEN..])) == SecondStored(c, FIRST, 2 * BLOCK_LEN)
    ensures Apply(t, SecondStored(c, FIRST, 2 * BLOCK_LEN), Returned(Block(0, 0, BLOCK_LEN))) ==
            SecondStored(c, map[], 0)
  {
    var zeros: Bytes := seq(2 * BLOCK_LEN, _ => 0);
    assert Opened(t, GRANTED2, 0) == PendingPiece(zeros, 0, 2);
    assert Splice(zeros, BLOCK_LEN, c[BLOCK_LEN..]) == seq(BLOCK_LEN, _ => 0) + c[BLOCK_LEN..];
    assert GRANTED2.pendingBlocks - {Key(0, BLOCK_LEN)} == FIRST;
    assert FIRST - {Key(0, 0)} == map[];
  }

  lemma RegrantAsksAgain(t: Torrent, c: Bytes)
    requires TwoBlocks(t) && |c| == 2 * BLOCK_LEN
    ensures ValidPeer(t, FULL_PEER)
    ensures Apply(t, SecondStored(c, map[], 0), Requested(FULL_PEER)) == SecondStored(c, FIRST, BLOCK_LEN)
    ensures Apply(t, SecondStored(c, FIRST, BLOCK_LEN), Requested(FULL_PEER)) ==
            SecondStored(c, GRANTED2.pendingBlocks, 2 * BLOCK_LEN)
  {
    ZeroHasNoBits(7);
    assert Grantable(t, SecondStored(c, map[], 0), 0) == Some(0);
    TwoBlockRequest(t, SecondStored(c, map[], 0));
    assert Grantable(t, SecondStored(c, FIRST, BLOCK_LEN), 0) == Some(BLOCK_LEN);
    TwoBlockRequest(t, SecondStored(c, FIRST, BLOCK_LEN));
  }

  lemma RegrantRunValid(t: Torrent, c: Bytes)
    requires TwoBlocks(t) && |c| == 2 * BLOCK_LEN
    ensures ValidRun(t, RegrantRun(c))
  {
    FullPeer(t);
  }

  lemma RegrantStarts(t: Torrent, c: Bytes)
    requires TwoBlocks(t) && |c| == 2 * BLOCK_LEN && ValidRun(t, RegrantRun(c))
    ensures After(t, RegrantRun(c)[..3]) == SecondStored(c, FIRST, 2 * BLOCK_LEN)
  {
    TwoBlockGrants(t);
    RegrantGivesBack(t, c);
    var run := RegrantRun(c);
    assert run[..0] == [];
    StepTo(t, run, 0, Init(t), Requested(FULL_PEER));
    StepTo(t, run, 1, GRANTED1, Requested(FULL_PEER));
    StepTo(t, run, 2, GRANTED2, Delivered(0, BLOCK_LEN, c[BLOCK_LEN..]));
  }

  lemma RegrantReturns(t: Torrent, c: Bytes)
    requires TwoBlocks(t) && |c| == 2 * BLOCK_LEN && ValidRun(t, RegrantRun(c))
    ensures After(t, RegrantRun(c)[..4]) == SecondStored(c, map[], 0)
  {
    RegrantStarts(t, c);
    RegrantGivesBack(t, c);
    StepTo(t, RegrantRun(c), 3, SecondStored(c, FIRST, 2 * BLOCK_LEN), Returned(Block(0, 0, BLOCK_LEN)));
  }

  lemma RegrantStates(t: Torrent, c: Bytes)
    requires TwoBlocks(t) && |c| == 2 * BLOCK_LEN && ValidRun(t, RegrantRun(c))
    ensures After(t, RegrantRun(c)[..6]) == SecondStored(c, GRANTED2.pendingBlocks, 2 * BLOCK_LEN)
  {
    RegrantReturns(t, c);
    RegrantAsksAgain(t, c);
    StepTo(t, RegrantRun(c), 4, SecondStored(c, map[], 0), Requested(FULL_PEER));
    StepTo(t, RegrantRun(c), 5, SecondStored(c, FIRST, BLOCK_LEN), Requested(FULL_PEER));
  }

  /** The second block arriving again makes up the count with the first block still missing. */
  lemma SecondAgain(t: Torrent, c: Bytes, pending: map<Key, nat>)
    requires TwoBlocks(t) && |c| == 2 * BLOCK_LEN && forall k :: k in pending ==> k.piece == 0
    ensures var s, second := SecondStored(c, pending, 2 * BLOCK_LEN), c[BLOCK_LEN..];
            var v := Judge(t, s, 0, BLOCK_LEN, second);
            (v.Verified? || v.Mismatch?) && Checked(t, s, 0, BLOCK_LEN, second) == seq(BLOCK_LEN, _ => 0) + second
  {
    var zeros: Bytes := seq(BLOCK_LEN, _ => 0);
    assert |c[BLOCK_LEN..]| == BLOCK_LEN;
    assert Splice(zeros + c[BLOCK_LEN..], BLOCK_LEN, c[BLOCK_LEN..]) == zeros + c[BLOCK_LEN..];
  }

  /** Apart from the return, everything in that run is a request or a true slice of a block in flight. */
  lemma RegrantHonest(t: Torrent, c: Bytes)
    requires TwoBlocksOf(t, c) && ValidRun(t, RegrantRun(c))
    ensures var run := RegrantRun(c);
            forall m :: 0 <= m < |run| && !run[m].Returned? ==> HonestEvent(t, [c], After(t, run[..m]), run[m])
  {
    var run := RegrantRun(c);
    TwoBlockGrants(t);
    assert run[..0] == [];
    StepTo(t, run, 0, Init(t), Requested(FULL_PEER));
    StepTo(t, run, 1, GRANTED1, Requested(FULL_PEER));
    RegrantStates(t, c);
    forall m | 0 <= m < |run| && !run[m].Returned?
      ensures HonestEvent(t, [c], After(t, run[..m]), run[m])
    {
      assert m == 2 || m == 6 || run[m].Requested?;
    }
  }

  /**
   Under any hash function: after a return, a block that was received already is granted and received
   again, and the hash is checked over zeros in the place of the first block.
   */
  lemma ReturnMakesCheckEarly(c: Bytes, sha1: Bytes -> Bytes)
    requires |c| == 2 * BLOCK_LEN
    ensures var t, run, second := TwoBlockTorrent(c, sha1), RegrantRun(c), c[BLOCK_LEN..];
            && ValidRun(t, run)
            && (forall m :: 0 <= m < |run| && !run[m].Returned? ==> HonestEvent(t, [c], After(t, run[..m]), run[m]))
            && run[6] == Delivered(0, BLOCK_LEN, second) && SetsOffCheck(t, run[..6], 0, BLOCK_LEN, second)
            && Checked(t, After(t, run[..6]), 0, BLOCK_LEN, second) == seq(BLOCK_LEN, _ => 0) + second
            && 0 !in GotIn(t, run[..6])[0]
  {
    var t := TwoBlockTorrent(c, sha1);
    RegrantRunValid(t, c);
    RegrantStates(t, c);
    RegrantHonest(t, c);
    NeverDelivered(t, RegrantRun(c)[..6], 0, 0);
    SecondAgain(t, c, GRANTED2.pendingBlocks);
  }

  lemma {:induction false} NeverDelivered(t: Torrent, run: seq<Event>, i: nat, offset: nat)
    requires ValidRun(t, run) && i < |t.hashes|
    requires forall m :: 0 <= m < |run| && run[m].Delivered? ==> run[m].offset != offset
    ensures offset !in GotIn(t, run)[i]
  {
    if run != [] {
      NeverDelivered(t, run[..|run| - 1], i, offset);
    }
  }
}
