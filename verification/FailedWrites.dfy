/**
 What a failed write does to the sessions' records, on the torrent of two blocks: it strands its block,
 and with blocks in the session's window it leaves two sessions waiting for one block.
 */
module FailedWrites {
  import opened Base
  import opened Bits
  import opened Pieces
  import opened Runs
  import opened Sessions
  import opened TwoBlockFile

  /** A session of a peer that has the piece and has unchoked us. */
  function At(outstanding: set<Key>, mode: Mode): Session {
    Session(Some(FULL_PEER), false, outstanding, mode)
  }

  function Alone(m: State, s: Session): System {
    System(m, map[0 := s])
  }

  function Both(m: State, s: Session, other: Session): System {
    System(m, map[0 := s, 1 := other])
  }

  /** A step of the first session while it is the only one. */
  lemma Moves(t: Torrent, steps: seq<Step>, m: State, s: Session, e: Step)
    requires Leads(t, Start(t), steps, Alone(m, s)) && SystemOk(t, Alone(m, s)) && e.id == 0 && Enabled(t, Alone(m, s), e)
    ensures var call := CallOf(t, Alone(m, s), e);
            var after := Alone(if call.None? then m else Apply(t, m, call.value), SessionAfter(t, Alone(m, s), e));
            Leads(t, Start(t), steps + [e], after) && SystemOk(t, after)
  {
    LeadsOn(t, Start(t), steps, Alone(m, s), e);
    var s' := SessionAfter(t, Alone(m, s), e);
    assert map[0 := s][0 := s'] == map[0 := s'];
  }

  /** What the manager answers while it lacks the piece. */
  lemma Answer(t: Torrent, m: State)
    requires TwoBlocks(t) && Shape(t, m) && ManagerLacks(t, m) && Grantable(t, m, 0).Some?
    ensures ValidPeer(t, FULL_PEER) && RequestResult(t, m, FULL_PEER) == Some(BlockAt(t, m, 0))
    ensures Apply(t, m, Requested(FULL_PEER)) == Grant(t, m, 0)
  {
    TwoBlockRequest(t, m);
    assert Eligible(t, m, FULL_PEER, 0);
  }

  lemma SecondAnswer(t: Torrent)
    requires TwoBlocks(t)
    ensures ValidPeer(t, FULL_PEER) && Shape(t, GRANTED1)
    ensures RequestResult(t, GRANTED1, FULL_PEER) == Some(Block(0, BLOCK_LEN, BLOCK_LEN))
    ensures Request(t, GRANTED1, FULL_PEER) == GRANTED2
  {
    TwoBlockGrants(t);
    ZeroHasNoBits(7);
    assert Grantable(t, GRANTED1, 0) == Some(BLOCK_LEN);
    Answer(t, GRANTED1);
  }

  lemma FirstAnswer(t: Torrent)
    requires TwoBlocks(t)
    ensures ValidPeer(t, FULL_PEER) && RequestResult(t, Init(t), FULL_PEER) == Some(Block(0, 0, BLOCK_LEN))
    ensures Request(t, Init(t), FULL_PEER) == GRANTED1
  {
    TwoBlockGrants(t);
    ZeroHasNoBits(7);
    assert Grantable(t, Init(t), 0) == Some(0);
    Answer(t, Init(t));
  }

  const FIRST_BLOCK: Key := Key(0, 0)

  // ---------------------------------------------------------------- a stranded block

  /** A peer connects, says that it has the piece and unchokes us; we ask for the first block. */
  const ASKED: seq<Step> := [Connected(0), ReadBitfield(0, FULL_PEER), ReadUnchoke(0), Asked(0)]

  lemma Joined(t: Torrent)
    requires TwoBlocks(t)
    ensures Leads(t, Start(t), ASKED[..3], Alone(Init(t), At({}, Refilling(MAX_PIPELINE_SIZE))))
    ensures SystemOk(t, Alone(Init(t), At({}, Refilling(MAX_PIPELINE_SIZE))))
  {
    FirstAnswer(t);
    var m := Init(t);
    LeadsOn(t, Start(t), [], Start(t), Connected(0));
    assert Next(t, Start(t), Connected(0)) == Alone(m, NEW_SESSION);
    assert ASKED[..1] == [] + [Connected(0)];
    Moves(t, ASKED[..1], m, NEW_SESSION, ReadBitfield(0, FULL_PEER));
    assert ASKED[..2] == ASKED[..1] + [ReadBitfield(0, FULL_PEER)];
    var known := NEW_SESSION.(peer := Some(FULL_PEER));
    Moves(t, ASKED[..2], m, known, ReadUnchoke(0));
    assert ASKED[..3] == ASKED[..2] + [ReadUnchoke(0)];
  }

  lemma FirstBlockAsked(t: Torrent)
    requires TwoBlocks(t)
    ensures var asked := Alone(GRANTED1, At({}, Writing(MAX_PIPELINE_SIZE, FIRST_BLOCK)));
            Leads(t, Start(t), ASKED, asked) && SystemOk(t, asked)
  {
    Joined(t);
    FirstAnswer(t);
    Moves(t, ASKED[..3], Init(t), At({}, Refilling(MAX_PIPELINE_SIZE)), Asked(0));
    assert ASKED == ASKED[..3] + [Asked(0)];
  }

  lemma OneOwnerIsOrderly(t: Torrent)
    requires TwoBlocks(t)
    ensures var asked := Alone(GRANTED1, At({}, Writing(MAX_PIPELINE_SIZE, FIRST_BLOCK)));
            SystemOk(t, asked) ==> Orderly(t, asked)
  {
    var asked := Alone(GRANTED1, At({}, Writing(MAX_PIPELINE_SIZE, FIRST_BLOCK)));
    assert FIRST_BLOCK in Owned(asked.sessions[0]);
  }

  /**
   The session's records were in order, and writing the request fails: the block is in flight at the
   manager, its piece is unfinished, and no session has the block.
   */
  lemma WriteFailureStrands(t: Torrent) returns (asked: System)
    requires TwoBlocks(t)
    ensures Leads(t, Start(t), ASKED, asked) && SystemOk(t, asked) && Orderly(t, asked)
    ensures var e := Written(0, false);
            && Enabled(t, asked, e) && !Exclusive(t, Next(t, asked, e)) && Stranded(t, Next(t, asked, e), FIRST_BLOCK)
            && Leads(t, Start(t), ASKED + [e], Next(t, asked, e)) && !Next(t, asked, e).manager.finished[0]
  {
    asked := Alone(GRANTED1, At({}, Writing(MAX_PIPELINE_SIZE, FIRST_BLOCK)));
    FirstBlockAsked(t);
    OneOwnerIsOrderly(t);
    LeadsOn(t, Start(t), ASKED, asked, Written(0, false));
    FailedWriteStep(t, asked, Written(0, false));
    FailedWriteStrands(t, asked, Written(0, false));
  }

  // ---------------------------------------------------------------- a block with two owners

  const SECOND_BLOCK: Key := Key(0, BLOCK_LEN)

  /** The second write fails with the first block in the window, which is given back and stays there. */
  const GIVEN_BACK: seq<Step> :=
    ASKED + [Written(0, true), Asked(0), Written(0, false), GaveBack(0, FIRST_BLOCK), GaveBackAll(0)]

  /** Another session of such a peer asks for a block. */
  const SHARED: seq<Step> := GIVEN_BACK + [Connected(1), ReadBitfield(1, FULL_PEER), ReadUnchoke(1), Asked(1)]

  const RETURNED: State := State(map[SECOND_BLOCK := BLOCK_LEN], [0], map[], [false], [0], 0, 0)

  const REGRANTED: State :=
    State(map[SECOND_BLOCK := BLOCK_LEN, FIRST_BLOCK := BLOCK_LEN], [BLOCK_LEN], map[], [false], [0], 0, 0)

  lemma SecondBlockAsked(t: Torrent)
    requires TwoBlocks(t)
    ensures var asked := Alone(GRANTED2, At({FIRST_BLOCK}, Writing(MAX_PIPELINE_SIZE - 1, SECOND_BLOCK)));
            Leads(t, Start(t), ASKED + [Written(0, true), Asked(0)], asked) && SystemOk(t, asked)
  {
    FirstBlockAsked(t);
    SecondAnswer(t);
    Moves(t, ASKED, GRANTED1, At({}, Writing(MAX_PIPELINE_SIZE, FIRST_BLOCK)), Written(0, true));
    assert {} + {FIRST_BLOCK} == {FIRST_BLOCK};
    Moves(t, ASKED + [Written(0, true)], GRANTED1, At({FIRST_BLOCK}, Refilling(MAX_PIPELINE_SIZE - 1)), Asked(0));
    assert ASKED + [Written(0, true)] + [Asked(0)] == ASKED + [Written(0, true), Asked(0)];
  }

  lemma FirstGivenBack(t: Torrent)
    requires TwoBlocks(t)
    ensures Shape(t, GRANTED2) && Apply(t, GRANTED2, Returned(Block(0, 0, 0))) == RETURNED
  {
    TwoBlockGrants(t);
    assert GRANTED2.pendingBlocks - {FIRST_BLOCK} == RETURNED.pendingBlocks;
  }

  lemma SecondWriteFailed(t: Torrent)
    requires TwoBlocks(t)
    ensures var failed := Alone(GRANTED2, At({FIRST_BLOCK}, Returning(MAX_PIPELINE_SIZE - 2, {FIRST_BLOCK})));
            Leads(t, Start(t), GIVEN_BACK[..7], failed) && SystemOk(t, failed)
  {
    SecondBlockAsked(t);
    var steps := ASKED + [Written(0, true), Asked(0)];
    Moves(t, steps, GRANTED2, At({FIRST_BLOCK}, Writing(MAX_PIPELINE_SIZE - 1, SECOND_BLOCK)), Written(0, false));
    assert steps + [Written(0, false)] == GIVEN_BACK[..7];
  }

  lemma WindowGivenBack(t: Torrent)
    requires TwoBlocks(t)
    ensures var returned := Alone(RETURNED, At({FIRST_BLOCK}, Refilling(MAX_PIPELINE_SIZE - 2)));
            Leads(t, Start(t), GIVEN_BACK, returned) && SystemOk(t, returned)
  {
    SecondWriteFailed(t);
    FirstGivenBack(t);
    var steps, left := GIVEN_BACK[..7], MAX_PIPELINE_SIZE - 2;
    Moves(t, steps, GRANTED2, At({FIRST_BLOCK}, Returning(left, {FIRST_BLOCK})), GaveBack(0, FIRST_BLOCK));
    assert {FIRST_BLOCK} - {FIRST_BLOCK} == {};
    Moves(t, steps + [GaveBack(0, FIRST_BLOCK)], RETURNED, At({FIRST_BLOCK}, Returning(left, {})), GaveBackAll(0));
    assert steps + [GaveBack(0, FIRST_BLOCK)] + [GaveBackAll(0)] == GIVEN_BACK;
  }

  /** A step of the second session. */
  lemma OtherMoves(t: Torrent, steps: seq<Step>, m: State, s: Session, other: Session, e: Step)
    requires Leads(t, Start(t), steps, Both(m, s, other)) && SystemOk(t, Both(m, s, other))
    requires e.id == 1 && Enabled(t, Both(m, s, other), e)
    ensures var call := CallOf(t, Both(m, s, other), e);
            var after := Both(if call.None? then m else Apply(t, m, call.value), s, SessionAfter(t, Both(m, s, other), e));
            Leads(t, Start(t), steps + [e], after) && SystemOk(t, after)
  {
    LeadsOn(t, Start(t), steps, Both(m, s, other), e);
    var s' := SessionAfter(t, Both(m, s, other), e);
    assert map[0 := s, 1 := other][1 := s'] == map[0 := s, 1 := s'];
  }

  lemma RegrantAnswer(t: Torrent)
    requires TwoBlocks(t)
    ensures ValidPeer(t, FULL_PEER) && Shape(t, RETURNED)
    ensures RequestResult(t, RETURNED, FULL_PEER) == Some(Block(0, 0, BLOCK_LEN))
    ensures Request(t, RETURNED, FULL_PEER) == REGRANTED
  {
    TwoBlockGrants(t);
    ZeroHasNoBits(7);
    assert Grantable(t, RETURNED, 0) == Some(0);
    Answer(t, RETURNED);
  }

  lemma OtherJoins(t: Torrent)
    requires TwoBlocks(t)
    ensures var joined := Both(RETURNED, At({FIRST_BLOCK}, Refilling(MAX_PIPELINE_SIZE - 2)), At({}, Refilling(MAX_PIPELINE_SIZE)));
            Leads(t, Start(t), SHARED[..12], joined) && SystemOk(t, joined)
  {
    WindowGivenBack(t);
    RegrantAnswer(t);
    var s := At({FIRST_BLOCK}, Refilling(MAX_PIPELINE_SIZE - 2));
    LeadsOn(t, Start(t), GIVEN_BACK, Alone(RETURNED, s), Connected(1));
    assert map[0 := s][1 := NEW_SESSION] == map[0 := s, 1 := NEW_SESSION];
    var steps := GIVEN_BACK + [Connected(1)];
    OtherMoves(t, steps, RETURNED, s, NEW_SESSION, ReadBitfield(1, FULL_PEER));
    var known := NEW_SESSION.(peer := Some(FULL_PEER));
    OtherMoves(t, steps + [ReadBitfield(1, FULL_PEER)], RETURNED, s, known, ReadUnchoke(1));
    assert steps + [ReadBitfield(1, FULL_PEER)] + [ReadUnchoke(1)] == SHARED[..12];
  }

  /** At the end two sessions own the first block, of an unfinished piece. */
  lemma WriteFailureShares(t: Torrent) returns (end: System)
    requires TwoBlocks(t)
    ensures Leads(t, Start(t), SHARED, end) && SystemOk(t, end) && !end.manager.finished[0]
    ensures 0 in end.sessions && FIRST_BLOCK in Owned(end.sessions[0])
    ensures 1 in end.sessions && FIRST_BLOCK in Owned(end.sessions[1])
  {
    OtherJoins(t);
    RegrantAnswer(t);
    var s := At({FIRST_BLOCK}, Refilling(MAX_PIPELINE_SIZE - 2));
    OtherMoves(t, SHARED[..12], RETURNED, s, At({}, Refilling(MAX_PIPELINE_SIZE)), Asked(1));
    assert SHARED[..12] + [Asked(1)] == SHARED;
    end := Both(REGRANTED, s, At({}, Writing(MAX_PIPELINE_SIZE, FIRST_BLOCK)));
  }
}
