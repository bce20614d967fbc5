/**
 Peer sessions over one piece manager, as interleaved steps. A session is a coroutine: it takes a step
 between two suspensions, and other sessions' steps fall in between. A block that was granted but whose
 request is still being written is in flight at the manager and not yet in the session's own set.
 */
module Sessions {
  import opened Base
  import opened Pieces
  import opened PieceInvariants
  import opened Runs

  const MAX_PIPELINE_SIZE: nat := 32

  /** Where a session is suspended. `left` counts the iterations of its refill loop still to finish. */
  datatype Mode =
    | Idle                                      // reading the next message
    | Refilling(left: nat)                      // about to ask the manager for a block
    | Writing(left: nat, key: Key)              // sending the request for a granted block
    | Returning(left: nat, todo: set<Key>)      // after a failed write, back to the refill loop
    | Closing(todo: set<Key>)                   // after a failed read
    | Closed

  datatype Session = Session(peer: Option<seq<bv8>>, choked: bool, outstanding: set<Key>, mode: Mode)

  const NEW_SESSION: Session := Session(None, true, {}, Idle)

  // ---------------------------------------------------------------- one session

  function Loop(left: nat): Mode {
    if left == 0 then Idle else Refilling(left)
  }

  /** Start of a refill loop: as many iterations as the window has room. */
  function Refill(s: Session): Session {
    s.(mode := Loop(if |s.outstanding| <= MAX_PIPELINE_SIZE then MAX_PIPELINE_SIZE - |s.outstanding| else 0))
  }

  function OnBitfield(t: Torrent, s: Session, payload: seq<bv8>): Session {
    if |payload| != (|t.hashes| + 7) / 8 then s else s.(peer := Some(payload))
  }

  function OnUnchoke(s: Session): Session {
    Refill(s.(choked := false))
  }

  function OnPiece(s: Session, k: Key, accepted: bool): Session {
    if accepted then Refill(s.(outstanding := s.outstanding - {k})) else s
  }

  function OnAnswer(s: Session, block: Option<Block>): Session
    requires s.mode.Refilling? && s.mode.left > 0
  {
    if block.None? then s.(mode := Loop(s.mode.left - 1))
    else s.(mode := Writing(s.mode.left, Key(block.value.piece, block.value.offset)))
  }

  function OnWritten(s: Session, ok: bool): Session
    requires s.mode.Writing? && s.mode.left > 0
  {
    if ok then s.(outstanding := s.outstanding + {s.mode.key}, mode := Loop(s.mode.left - 1))
    else s.(mode := Returning(s.mode.left - 1, s.outstanding))
  }

  function OnReturned(s: Session, k: Key): Session
    requires s.mode.Returning? || s.mode.Closing?
  {
    s.(mode := if s.mode.Returning? then Returning(s.mode.left, s.mode.todo - {k}) else Closing(s.mode.todo - {k}))
  }

  function OnReturnsDone(s: Session): Session
    requires s.mode.Returning? || s.mode.Closing?
  {
    s.(mode := if s.mode.Returning? then Loop(s.mode.left) else Closed)
  }

  // ---------------------------------------------------------------- the system

  datatype System = System(manager: State, sessions: map<nat, Session>)

  datatype Step =
    | Connected(id: nat)
    | ReadBitfield(id: nat, payload: seq<bv8>)
    | ReadChoke(id: nat)
    | ReadUnchoke(id: nat)
    | ReadPiece(id: nat, piece: nat, offset: nat, data: Bytes)
    | Asked(id: nat)
    | Written(id: nat, ok: bool)
    | GaveBack(id: nat, key: Key)
    | GaveBackAll(id: nat)
    | ReadFailed(id: nat)

  predicate SessionOk(t: Torrent, s: Session) {
    && (s.peer.Some? ==> ValidPeer(t, s.peer.value))
    && (s.mode.Refilling? ==> s.peer.Some? && s.mode.left > 0)
    && (s.mode.Writing? ==> s.peer.Some? && s.mode.left > 0)
    && (s.mode.Returning? ==> s.peer.Some?)
  }

  ghost predicate SystemOk(t: Torrent, sys: System) {
    && ValidTorrent(t) && Shape(t, sys.manager)
    && forall id :: id in sys.sessions ==> SessionOk(t, sys.sessions[id])
  }

  /**
   When a step can happen. A peer sends its bitfield before it is asked for blocks, leaves the spare
   bits clear and names pieces that exist; otherwise any message, of any content, at any time.
   */
  predicate Enabled(t: Torrent, sys: System, e: Step) {
    if e.Connected? then e.id !in sys.sessions
    else
      && e.id in sys.sessions
      && var s := sys.sessions[e.id];
         match e
         case ReadBitfield(_, payload) => s.mode.Idle? && (|payload| == (|t.hashes| + 7) / 8 ==> ValidPeer(t, payload))
         case ReadChoke(_) => s.mode.Idle?
         case ReadUnchoke(_) => s.mode.Idle? && s.peer.Some?
         case ReadPiece(_, i, _, _) => s.mode.Idle? && s.peer.Some? && i < |t.hashes|
         case Asked(_) => s.mode.Refilling?
         case Written(_, _) => s.mode.Writing?
         case GaveBack(_, k) => (s.mode.Returning? || s.mode.Closing?) && k in s.mode.todo
         case GaveBackAll(_) => (s.mode.Returning? || s.mode.Closing?) && s.mode.todo == {}
         case ReadFailed(_) => s.mode.Idle?
         case Connected(_) => false
  }

  /** The manager call a step makes, if any. */
  function CallOf(t: Torrent, sys: System, e: Step): Option<Event>
    requires Enabled(t, sys, e) && (e.id in sys.sessions ==> SessionOk(t, sys.sessions[e.id]))
  {
    match e
    case ReadPiece(_, i, offset, data) => Some(Delivered(i, offset, data))
    case Asked(id) => Some(Requested(sys.sessions[id].peer.value))
    case GaveBack(_, k) => Some(Returned(Block(k.piece, k.offset, 0)))
    case _ => None
  }

  function SessionAfter(t: Torrent, sys: System, e: Step): Session
    requires ValidTorrent(t) && Shape(t, sys.manager) && Enabled(t, sys, e)
    requires e.id in sys.sessions ==> SessionOk(t, sys.sessions[e.id])
  {
    match e
    case Connected(_) => NEW_SESSION
    case ReadBitfield(id, payload) => OnBitfield(t, sys.sessions[id], payload)
    case ReadChoke(id) => sys.sessions[id].(choked := true)
    case ReadUnchoke(id) => OnUnchoke(sys.sessions[id])
    case ReadPiece(id, i, offset, data) =>
      OnPiece(sys.sessions[id], Key(i, offset), Accepted(Judge(t, sys.manager, i, offset, data)))
    case Asked(id) => OnAnswer(sys.sessions[id], RequestResult(t, sys.manager, sys.sessions[id].peer.value))
    case Written(id, ok) => OnWritten(sys.sessions[id], ok)
    case GaveBack(id, k) => OnReturned(sys.sessions[id], k)
    case GaveBackAll(id) => OnReturnsDone(sys.sessions[id])
    case ReadFailed(id) => sys.sessions[id].(mode := Closing(sys.sessions[id].outstanding))
  }

  ghost function Next(t: Torrent, sys: System, e: Step): (after: System)
    requires SystemOk(t, sys) && Enabled(t, sys, e)
    ensures SystemOk(t, after)
  {
    var call := CallOf(t, sys, e);
    System(if call.None? then sys.manager else Apply(t, sys.manager, call.value),
           sys.sessions[e.id := SessionAfter(t, sys, e)])
  }

  /** The system passes from one state to another by the steps. */
  ghost predicate Leads(t: Torrent, sys: System, steps: seq<Step>, end: System)
    decreases steps
  {
    && SystemOk(t, sys)
    && if steps == [] then sys == end
       else Enabled(t, sys, steps[0]) && Leads(t, Next(t, sys, steps[0]), steps[1..], end)
  }

  lemma {:induction false} LeadsOn(t: Torrent, sys: System, steps: seq<Step>, mid: System, e: Step)
    requires Leads(t, sys, steps, mid)
    requires SystemOk(t, mid) ==> Enabled(t, mid, e)
    ensures SystemOk(t, mid) && Leads(t, sys, steps + [e], Next(t, mid, e))
    decreases steps
  {
    if steps == [] {
      assert [] + [e] == [e];
    } else {
      LeadsOn(t, Next(t, sys, steps[0]), steps[1..], mid, e);
      assert (steps + [e])[1..] == steps[1..] + [e];
    }
  }

  function Start(t: Torrent): System {
    System(Init(t), map[])
  }

  // ---------------------------------------------------------------- the pipeline bound

  function Room(m: Mode): nat {
    match m
    case Refilling(left) => left
    case Writing(left, _) => left
    case Returning(left, _) => left
    case _ => 0
  }

  /** Blocks outstanding and iterations that may still add one do not exceed the window. */
  predicate InWindow(s: Session) {
    |s.outstanding| + Room(s.mode) <= MAX_PIPELINE_SIZE
  }

  ghost predicate Bounded(sys: System) {
    forall id :: id in sys.sessions ==> InWindow(sys.sessions[id])
  }

  lemma PieceInWindow(s: Session, k: Key, accepted: bool)
    requires InWindow(s)
    ensures InWindow(OnPiece(s, k, accepted))
  {
    SubsetSize(s.outstanding - {k}, s.outstanding);
  }

  lemma WrittenInWindow(s: Session, ok: bool)
    requires s.mode.Writing? && s.mode.left > 0 && InWindow(s)
    ensures InWindow(OnWritten(s, ok))
  {
    assert |s.outstanding + {s.mode.key}| <= |s.outstanding| + 1;
  }

  lemma SessionBounded(t: Torrent, sys: System, e: Step)
    requires SystemOk(t, sys) && Enabled(t, sys, e) && (e.id in sys.sessions ==> InWindow(sys.sessions[e.id]))
    ensures InWindow(SessionAfter(t, sys, e))
  {
    match e
    case ReadPiece(id, i, offset, data) =>
      PieceInWindow(sys.sessions[id], Key(i, offset), Accepted(Judge(t, sys.manager, i, offset, data)));
    case Written(id, ok) =>
      WrittenInWindow(sys.sessions[id], ok);
    case _ =>
  }

  lemma BoundedStep(t: Torrent, sys: System, e: Step)
    requires SystemOk(t, sys) && Enabled(t, sys, e) && Bounded(sys)
    ensures Bounded(Next(t, sys, e))
  {
    SessionBounded(t, sys, e);
  }

  lemma {:induction false} BoundedRun(t: Torrent, sys: System, steps: seq<Step>, end: System)
    requires Leads(t, sys, steps, end) && Bounded(sys)
    ensures Bounded(end)
    decreases steps
  {
    if steps != [] {
      BoundedStep(t, sys, steps[0]);
      BoundedRun(t, Next(t, sys, steps[0]), steps[1..], end);
    }
  }

  /** Whatever peers send and whichever writes fail, no session has more than 32 blocks outstanding. */
  lemma PipelineBound(t: Torrent, steps: seq<Step>, end: System, id: nat)
    requires Leads(t, Start(t), steps, end) && id in end.sessions
    ensures |end.sessions[id].outstanding| <= MAX_PIPELINE_SIZE
  {
    BoundedRun(t, Start(t), steps, end);
  }

  /**
   What a piece message does to its session. If the piece was finished before, or the data fits and does
   not complete a buffer with a wrong hash, its block leaves the window and the window is filled up again;
   otherwise nothing changes. A late block of a finished piece changes nothing at the manager.
   */
  lemma PieceAnswered(t: Torrent, sys: System, e: Step)
    requires SystemOk(t, sys) && Enabled(t, sys, e) && e.ReadPiece? && InWindow(sys.sessions[e.id])
    ensures var s, s', p := sys.sessions[e.id], SessionAfter(t, sys, e), Opened(t, sys.manager, e.piece);
            var taken := sys.manager.finished[e.piece] ||
                         (e.offset + |e.data| <= |p.data| &&
                          (p.received + 1 == p.needed ==> t.sha1(Splice(p.data, e.offset, e.data)) == t.hashes[e.piece]));
            if taken then
              && s'.outstanding == s.outstanding - {Key(e.piece, e.offset)}
              && |s'.outstanding| + Room(s'.mode) == MAX_PIPELINE_SIZE && (s'.mode.Idle? || s'.mode.Refilling?)
              && s'.peer == s.peer && s'.choked == s.choked
            else s' == s
    ensures sys.manager.finished[e.piece] ==> Next(t, sys, e).manager == sys.manager
  {
    SubsetSize(sys.sessions[e.id].outstanding - {Key(e.piece, e.offset)}, sys.sessions[e.id].outstanding);
  }

  /** A refill loop that no other session interrupts and whose writes succeed. */
  function RefillAlone(t: Torrent, m: State, s: Session): (r: (State, Session))
    requires ValidTorrent(t) && Shape(t, m) && SessionOk(t, s)
    ensures Shape(t, r.0) && !r.1.mode.Refilling?
    decreases if s.mode.Refilling? then s.mode.left else 0
  {
    if !s.mode.Refilling? then (m, s)
    else
      var block := RequestResult(t, m, s.peer.value);
      var asked := OnAnswer(s, block);
      RefillAlone(t, Request(t, m, s.peer.value), if block.Some? then OnWritten(asked, true) else asked)
  }

  /** The loop leaves the window full, or the manager with nothing to grant to this peer. */
  lemma {:induction false} RefillFills(t: Torrent, m: State, s: Session)
    requires ValidTorrent(t) && Shape(t, m) && SessionOk(t, s) && s.peer.Some?
    requires s.outstanding <= m.pendingBlocks.Keys
    requires |s.outstanding| <= MAX_PIPELINE_SIZE && s.mode == Loop(MAX_PIPELINE_SIZE - |s.outstanding|)
    ensures var (m', s') := RefillAlone(t, m, s);
            && s'.mode.Idle? && s.outstanding <= s'.outstanding <= m'.pendingBlocks.Keys
            && (|s'.outstanding| == MAX_PIPELINE_SIZE || RequestResult(t, m', s.peer.value).None?)
    decreases if s.mode.Refilling? then s.mode.left else 0
  {
    if s.mode.Refilling? {
      var block := RequestResult(t, m, s.peer.value);
      var m' := Request(t, m, s.peer.value);
      if block.Some? {
        var k := Key(block.value.piece, block.value.offset);
        var i := Pick(t, m, s.peer.value, 0).value;
        NextFreeInside(m.pendingBlocks, i, m.nextOffsets[i], PieceLength(t, i));
        assert |s.outstanding + {k}| == |s.outstanding| + 1;
        RefillFills(t, m', OnWritten(OnAnswer(s, block), true));
      } else {
        RefillIdles(t, m, OnAnswer(s, block));
      }
    }
  }

  /** Iterations that find nothing to grant change nothing. */
  lemma {:induction false} RefillIdles(t: Torrent, m: State, s: Session)
    requires ValidTorrent(t) && Shape(t, m) && SessionOk(t, s) && s.peer.Some? && (s.mode.Refilling? || s.mode.Idle?)
    requires RequestResult(t, m, s.peer.value).None?
    ensures RefillAlone(t, m, s) == (m, s.(mode := Idle))
    decreases if s.mode.Refilling? then s.mode.left else 0
  {
    if s.mode.Refilling? {
      RefillIdles(t, m, OnAnswer(s, None));
    }
  }

  // ---------------------------------------------------------------- the manager inside the system

  ghost predicate ManagerOk(t: Torrent, s: State)
    requires ValidTorrent(t)
  {
    exists got :: Inv(t, s, got)
  }

  lemma ManagerStep(t: Torrent, sys: System, e: Step)
    requires SystemOk(t, sys) && Enabled(t, sys, e) && ManagerOk(t, sys.manager)
    ensures ManagerOk(t, Next(t, sys, e).manager)
  {
    var got :| Inv(t, sys.manager, got);
    var call := CallOf(t, sys, e);
    if call.Some? {
      ApplyInv(t, sys.manager, got, call.value);
    }
  }

  lemma {:induction false} ManagerRun(t: Torrent, sys: System, steps: seq<Step>, end: System)
    requires Leads(t, sys, steps, end) && ManagerOk(t, sys.manager)
    ensures SystemOk(t, end) && ManagerOk(t, end.manager)
    decreases steps
  {
    if steps != [] {
      ManagerStep(t, sys, steps[0]);
      ManagerRun(t, Next(t, sys, steps[0]), steps[1..], end);
    }
  }

  /** In every interleaving, failed writes included, an unfinished piece has a block in flight or to grant. */
  lemma NoPieceIsStuckInSystem(t: Torrent, steps: seq<Step>, end: System, i: nat)
    requires Leads(t, Start(t), steps, end) && i < |t.hashes| && Shape(t, end.manager) && !end.manager.finished[i]
    ensures (exists k :: k in end.manager.pendingBlocks && k.piece == i) || Grantable(t, end.manager, i).Some?
  {
    InitInv(t);
    ManagerRun(t, Start(t), steps, end);
    var got :| Inv(t, end.manager, got);
    NeverStuck(t, end.manager, got, i);
  }

  // ---------------------------------------------------------------- exclusivity

  /** The blocks a session answers for: received requests, the one being written, those to give back. */
  function Owned(s: Session): set<Key> {
    match s.mode
    case Writing(_, k) => s.outstanding + {k}
    case Returning(_, todo) => todo
    case Closing(todo) => todo
    case Closed => {}
    case _ => s.outstanding
  }

  /**
   No block is owned twice, every owned block is in flight at the manager, and every block in flight
   of an unfinished piece is owned.
   */
  ghost predicate Exclusive(t: Torrent, sys: System)
    requires SystemOk(t, sys)
  {
    && (forall a, b :: a in sys.sessions && b in sys.sessions && a != b ==>
                         Owned(sys.sessions[a]) !! Owned(sys.sessions[b]))
    && (forall a :: a in sys.sessions ==> Owned(sys.sessions[a]) <= sys.manager.pendingBlocks.Keys)
    && (forall k :: k in sys.manager.pendingBlocks && !sys.manager.finished[k.piece] ==>
                      exists a :: a in sys.sessions && k in Owned(sys.sessions[a]))
  }

  /**
   What exclusivity needs beside itself to last: a session does not wait for the block it asks for,
   and one that comes back from a failed write has no stale blocks in its window.
   */
  predicate Straight(s: Session) {
    && (s.mode.Writing? ==> s.mode.key !in s.outstanding)
    && (s.mode.Returning? ==> s.outstanding == {})
  }

  ghost predicate Orderly(t: Torrent, sys: System)
    requires SystemOk(t, sys)
  {
    Exclusive(t, sys) && forall id :: id in sys.sessions ==> Straight(sys.sessions[id])
  }

  /**
   When a step keeps blocks exclusive. The manager erases the block of any delivery it gets as far as
   storing, so no other session may own it; a session keeps a block whose delivery is refused; and a
   failed write forgets its block, which matters as long as the block's piece is unfinished.
   */
  predicate Harmless(t: Torrent, sys: System, e: Step)
    requires ValidTorrent(t) && Shape(t, sys.manager) && Enabled(t, sys, e)
  {
    match e
    case ReadPiece(id, i, offset, data) =>
      var v, k := Judge(t, sys.manager, i, offset, data), Key(i, offset);
      || v.AlreadyFinished? || v.OutOfBounds?
      || ((forall b :: b in sys.sessions && b != id ==> k !in Owned(sys.sessions[b]))
          && (v.Mismatch? ==> k !in sys.sessions[id].outstanding))
    case Written(id, ok) =>
      var k := sys.sessions[id].mode.key;
      ok || (k.piece < |sys.manager.finished| && sys.manager.finished[k.piece])
    case _ => true
  }

  /** Also leaves no stale blocks: after a failed write the whole window is given back and kept. */
  predicate Lasting(t: Torrent, sys: System, e: Step)
    requires ValidTorrent(t) && Shape(t, sys.manager) && Enabled(t, sys, e)
  {
    Harmless(t, sys, e) && (e.Written? && !e.ok ==> sys.sessions[e.id].outstanding == {})
  }

  /** Exclusivity after one session moved, from what its move did. */
  lemma ExclusiveAfter(t: Torrent, sys: System, after: System, id: nat, s': Session)
    requires SystemOk(t, sys) && Exclusive(t, sys) && SystemOk(t, after)
    requires after.sessions == sys.sessions[id := s']
    requires Owned(s') <= after.manager.pendingBlocks.Keys
    requires forall b :: b in sys.sessions && b != id ==>
                           Owned(sys.sessions[b]) !! Owned(s') && Owned(sys.sessions[b]) <= after.manager.pendingBlocks.Keys
    requires forall k :: k in after.manager.pendingBlocks && !after.manager.finished[k.piece] ==>
                           k in Owned(s') || exists b :: b in sys.sessions && b != id && k in Owned(sys.sessions[b])
    ensures Exclusive(t, after)
  {
    forall k | k in after.manager.pendingBlocks && !after.manager.finished[k.piece]
      ensures exists a :: a in after.sessions && k in Owned(after.sessions[a])
    {
      if k in Owned(s') {
        assert id in after.sessions && after.sessions[id] == s';
      } else {
        var b :| b in sys.sessions && b != id && k in Owned(sys.sessions[b]);
        assert b in after.sessions && after.sessions[b] == sys.sessions[b];
      }
    }
  }

  /** A block's owner is the session that moves or another one. */
  lemma OwnerOf(t: Torrent, sys: System, id: nat, k: Key)
    requires SystemOk(t, sys) && Exclusive(t, sys)
    requires k in sys.manager.pendingBlocks && !sys.manager.finished[k.piece]
    ensures (id in sys.sessions && k in Owned(sys.sessions[id])) ||
            exists b :: b in sys.sessions && b != id && k in Owned(sys.sessions[b])
  {
    var a :| a in sys.sessions && k in Owned(sys.sessions[a]);
    assert a != id ==> a in sys.sessions && a != id && k in Owned(sys.sessions[a]);
  }

  /** A step that asks the manager for nothing and keeps the session's blocks. */
  lemma QuietStep(t: Torrent, sys: System, e: Step)
    requires SystemOk(t, sys) && Enabled(t, sys, e) && Orderly(t, sys)
    requires CallOf(t, sys, e).None? && (e.Written? ==> e.ok)
    ensures Exclusive(t, Next(t, sys, e))
  {
    var s' := SessionAfter(t, sys, e);
    var before := if e.Connected? then {} else Owned(sys.sessions[e.id]);
    assert Owned(s') == before;
    forall k | k in sys.manager.pendingBlocks && !sys.manager.finished[k.piece]
      ensures k in Owned(s') || exists b :: b in sys.sessions && b != e.id && k in Owned(sys.sessions[b])
    {
      OwnerOf(t, sys, e.id, k);
    }
    ExclusiveAfter(t, sys, Next(t, sys, e), e.id, s');
  }

  lemma AskedStep(t: Torrent, sys: System, e: Step)
    requires SystemOk(t, sys) && Enabled(t, sys, e) && Orderly(t, sys) && e.Asked?
    ensures Exclusive(t, Next(t, sys, e)) && Straight(SessionAfter(t, sys, e))
  {
    var s := sys.sessions[e.id];
    var s', after := SessionAfter(t, sys, e), Next(t, sys, e);
    var pick := Pick(t, sys.manager, s.peer.value, 0);
    if pick.Some? {
      var i := pick.value;
      NextFreeInside(sys.manager.pendingBlocks, i, sys.manager.nextOffsets[i], PieceLength(t, i));
    }
    assert s.outstanding == Owned(s);
    forall k | k in after.manager.pendingBlocks && !after.manager.finished[k.piece]
      ensures k in Owned(s') || exists b :: b in sys.sessions && b != e.id && k in Owned(sys.sessions[b])
    {
      if k in sys.manager.pendingBlocks {
        OwnerOf(t, sys, e.id, k);
      }
    }
    ExclusiveAfter(t, sys, after, e.id, s');
  }

  lemma GaveBackStep(t: Torrent, sys: System, e: Step)
    requires SystemOk(t, sys) && Enabled(t, sys, e) && Orderly(t, sys) && e.GaveBack?
    ensures Exclusive(t, Next(t, sys, e))
  {
    var s', after := SessionAfter(t, sys, e), Next(t, sys, e);
    assert e.key in Owned(sys.sessions[e.id]);
    forall k | k in after.manager.pendingBlocks && !after.manager.finished[k.piece]
      ensures k in Owned(s') || exists b :: b in sys.sessions && b != e.id && k in Owned(sys.sessions[b])
    {
      OwnerOf(t, sys, e.id, k);
    }
    ExclusiveAfter(t, sys, after, e.id, s');
  }

  lemma PieceStepKeeps(t: Torrent, sys: System, e: Step)
    requires SystemOk(t, sys) && Enabled(t, sys, e) && Orderly(t, sys) && e.ReadPiece? && Harmless(t, sys, e)
    ensures Exclusive(t, Next(t, sys, e))
  {
    var s', after := SessionAfter(t, sys, e), Next(t, sys, e);
    forall k | k in after.manager.pendingBlocks && !after.manager.finished[k.piece]
      ensures k in Owned(s') || exists b :: b in sys.sessions && b != e.id && k in Owned(sys.sessions[b])
    {
      OwnerOf(t, sys, e.id, k);
    }
    ExclusiveAfter(t, sys, after, e.id, s');
  }

  lemma PieceStepBreaks(t: Torrent, sys: System, e: Step)
    requires SystemOk(t, sys) && Enabled(t, sys, e) && Orderly(t, sys) && e.ReadPiece? && !Harmless(t, sys, e)
    ensures !Exclusive(t, Next(t, sys, e))
  {
    var after, k := Next(t, sys, e), Key(e.piece, e.offset);
    assert k !in after.manager.pendingBlocks;
    if b :| b in sys.sessions && b != e.id && k in Owned(sys.sessions[b]) {
      assert after.sessions[b] == sys.sessions[b];
    } else {
      assert k in Owned(after.sessions[e.id]);
    }
  }

  /** After a failed write no session owns its block, and all other blocks have the owner they had. */
  lemma FailedWriteOwners(t: Torrent, sys: System, e: Step)
    requires SystemOk(t, sys) && Enabled(t, sys, e) && Orderly(t, sys) && e.Written? && !e.ok
    ensures var k, after := sys.sessions[e.id].mode.key, Next(t, sys, e);
            && k in sys.manager.pendingBlocks && k in Owned(sys.sessions[e.id]) && after.manager == sys.manager
            && Owned(after.sessions[e.id]) == Owned(sys.sessions[e.id]) - {k}
            && forall b :: b in after.sessions ==> k !in Owned(after.sessions[b])
  {
    var k := sys.sessions[e.id].mode.key;
    assert k in Owned(sys.sessions[e.id]);
  }

  /** A failed write breaks exclusivity exactly when the piece of its block is unfinished. */
  lemma FailedWriteStep(t: Torrent, sys: System, e: Step)
    requires SystemOk(t, sys) && Enabled(t, sys, e) && Orderly(t, sys) && e.Written? && !e.ok
    ensures Exclusive(t, Next(t, sys, e)) <==> Harmless(t, sys, e)
  {
    var s', after := SessionAfter(t, sys, e), Next(t, sys, e);
    FailedWriteOwners(t, sys, e);
    if Harmless(t, sys, e) {
      forall k | k in after.manager.pendingBlocks && !after.manager.finished[k.piece]
        ensures k in Owned(s') || exists b :: b in sys.sessions && b != e.id && k in Owned(sys.sessions[b])
      {
        OwnerOf(t, sys, e.id, k);
      }
      ExclusiveAfter(t, sys, after, e.id, s');
    }
  }

  /** Exclusivity survives a step exactly when the step is harmless. */
  lemma ExclusiveStep(t: Torrent, sys: System, e: Step)
    requires SystemOk(t, sys) && Enabled(t, sys, e) && Orderly(t, sys)
    ensures Exclusive(t, Next(t, sys, e)) <==> Harmless(t, sys, e)
  {
    if e.ReadPiece? {
      if Harmless(t, sys, e) {
        PieceStepKeeps(t, sys, e);
      } else {
        PieceStepBreaks(t, sys, e);
      }
    } else if e.Asked? {
      AskedStep(t, sys, e);
    } else if e.GaveBack? {
      GaveBackStep(t, sys, e);
    } else if e.Written? && !e.ok {
      FailedWriteStep(t, sys, e);
    } else {
      QuietStep(t, sys, e);
    }
  }

  lemma StraightStep(t: Torrent, sys: System, e: Step)
    requires SystemOk(t, sys) && Enabled(t, sys, e) && Orderly(t, sys)
    ensures Straight(SessionAfter(t, sys, e)) <==> (e.Written? && !e.ok ==> sys.sessions[e.id].outstanding == {})
  {
    if e.Asked? {
      AskedStep(t, sys, e);
    }
  }

  /** And it goes on to hold after a lasting step. */
  lemma OrderlyStep(t: Torrent, sys: System, e: Step)
    requires SystemOk(t, sys) && Enabled(t, sys, e) && Orderly(t, sys)
    ensures Orderly(t, Next(t, sys, e)) <==> Lasting(t, sys, e)
  {
    ExclusiveStep(t, sys, e);
    StraightStep(t, sys, e);
    var s', after := SessionAfter(t, sys, e), Next(t, sys, e);
    assert after.sessions[e.id] == s';
    assert forall id :: id in sys.sessions && id != e.id ==> after.sessions[id] == sys.sessions[id];
  }

  /** What a caller can see: no write fails, and each answer is accepted and to a block this session waits for. */
  predicate OwnWindow(t: Torrent, sys: System, e: Step)
    requires ValidTorrent(t) && Shape(t, sys.manager) && Enabled(t, sys, e)
  {
    && (e.Written? ==> e.ok)
    && (e.ReadPiece? ==>
          && Key(e.piece, e.offset) in sys.sessions[e.id].outstanding
          && Accepted(Judge(t, sys.manager, e.piece, e.offset, e.data)))
  }

  lemma OwnWindowIsHarmless(t: Torrent, sys: System, e: Step)
    requires SystemOk(t, sys) && Enabled(t, sys, e) && Exclusive(t, sys) && OwnWindow(t, sys, e)
    ensures Lasting(t, sys, e)
  {
    if e.ReadPiece? {
      assert Key(e.piece, e.offset) in Owned(sys.sessions[e.id]);
    }
  }

  /** Every step of a run is lasting. */
  ghost predicate LastingRun(t: Torrent, sys: System, steps: seq<Step>, end: System)
    decreases steps
  {
    && Leads(t, sys, steps, end)
    && (steps != [] ==> Lasting(t, sys, steps[0]) && LastingRun(t, Next(t, sys, steps[0]), steps[1..], end))
  }

  /** No write of a run fails and each answer in it is accepted and in its session's own window. */
  ghost predicate OwnWindowRun(t: Torrent, sys: System, steps: seq<Step>, end: System)
    decreases steps
  {
    && Leads(t, sys, steps, end)
    && (steps != [] ==> OwnWindow(t, sys, steps[0]) && OwnWindowRun(t, Next(t, sys, steps[0]), steps[1..], end))
  }

  /** An orderly system stays so over a run of lasting steps. */
  lemma {:induction false} ExclusiveRun(t: Torrent, sys: System, steps: seq<Step>, end: System)
    requires LastingRun(t, sys, steps, end) && Orderly(t, sys) && ManagerOk(t, sys.manager)
    ensures SystemOk(t, end) && Orderly(t, end) && ManagerOk(t, end.manager)
    decreases steps
  {
    if steps != [] {
      OrderlyStep(t, sys, steps[0]);
      ManagerStep(t, sys, steps[0]);
      ExclusiveRun(t, Next(t, sys, steps[0]), steps[1..], end);
    }
  }

  /** In every interleaving of lasting steps, sessions own disjoint blocks and together all that matter. */
  lemma SessionExclusivity(t: Torrent, steps: seq<Step>, end: System)
    requires LastingRun(t, Start(t), steps, end)
    ensures SystemOk(t, end) && Exclusive(t, end) && ManagerOk(t, end.manager)
  {
    InitInv(t);
    ExclusiveRun(t, Start(t), steps, end);
  }

  lemma {:induction false} OwnWindowRunLasts(t: Torrent, sys: System, steps: seq<Step>, end: System)
    requires OwnWindowRun(t, sys, steps, end) && Orderly(t, sys)
    ensures LastingRun(t, sys, steps, end)
    decreases steps
  {
    if steps != [] {
      OwnWindowIsHarmless(t, sys, steps[0]);
      OrderlyStep(t, sys, steps[0]);
      OwnWindowRunLasts(t, Next(t, sys, steps[0]), steps[1..], end);
    }
  }

  /**
   In particular in every interleaving in which no write fails and each answer is accepted and to a
   block its own session waits for, even as other sessions disconnect and give theirs back.
   */
  lemma OwnWindowExclusivity(t: Torrent, steps: seq<Step>, end: System)
    requires OwnWindowRun(t, Start(t), steps, end)
    ensures SystemOk(t, end) && Exclusive(t, end)
  {
    OwnWindowRunLasts(t, Start(t), steps, end);
    SessionExclusivity(t, steps, end);
  }

  /** So no piece is orphaned: an unfinished one has a block that some session answers for, or one to grant. */
  lemma NoOrphanedPiece(t: Torrent, steps: seq<Step>, end: System, i: nat)
    requires LastingRun(t, Start(t), steps, end) && i < |t.hashes| && Shape(t, end.manager)
    requires !end.manager.finished[i]
    ensures Grantable(t, end.manager, i).Some? ||
            exists a, k :: a in end.sessions && k in Owned(end.sessions[a]) && k.piece == i
  {
    SessionExclusivity(t, steps, end);
    var got :| Inv(t, end.manager, got);
    NeverStuck(t, end.manager, got, i);
    if k :| k in end.manager.pendingBlocks && k.piece == i {
      var a :| a in end.sessions && k in Owned(end.sessions[a]);
    }
  }

  // ---------------------------------------------------------------- stranded blocks

  /** A block the session does not answer for and will not after giving its blocks back. */
  predicate Unheld(s: Session, k: Key) {
    k !in Owned(s) && (s.mode.Returning? ==> k !in s.outstanding)
  }

  /** In flight at the manager, and with no session. */
  ghost predicate Stranded(t: Torrent, sys: System, k: Key)
    requires SystemOk(t, sys)
  {
    k in sys.manager.pendingBlocks && forall id :: id in sys.sessions ==> Unheld(sys.sessions[id], k)
  }

  /** A delivery of this very block that the manager counts. */
  predicate DeliversKey(t: Torrent, sys: System, e: Step, k: Key)
    requires ValidTorrent(t) && Shape(t, sys.manager) && Enabled(t, sys, e)
  {
    && e.ReadPiece? && Key(e.piece, e.offset) == k
    && var v := Judge(t, sys.manager, e.piece, e.offset, e.data);
       v.Stored? || v.Verified? || v.Mismatch?
  }

  /** A failed write strands its block. */
  lemma FailedWriteStrands(t: Torrent, sys: System, e: Step)
    requires SystemOk(t, sys) && Enabled(t, sys, e) && Orderly(t, sys) && e.Written? && !e.ok
    ensures Stranded(t, Next(t, sys, e), sys.sessions[e.id].mode.key)
  {
    FailedWriteOwners(t, sys, e);
  }

  /** A stranded block stays so exactly until a delivery of it is counted. */
  lemma StrandedStep(t: Torrent, sys: System, e: Step, k: Key)
    requires SystemOk(t, sys) && Enabled(t, sys, e) && Stranded(t, sys, k)
    ensures Stranded(t, Next(t, sys, e), k) <==> !DeliversKey(t, sys, e, k)
  {
    var s', after, call := SessionAfter(t, sys, e), Next(t, sys, e), CallOf(t, sys, e);
    if call.Some? {
      PendingChange(t, sys.manager, call.value, k);
    }
    assert Unheld(s', k) by {
      if e.id in sys.sessions {
        assert Unheld(sys.sessions[e.id], k);
      }
      if e.Asked? {
        GrantIsFree(t, sys.manager, sys.sessions[e.id].peer.value);
      }
    }
    assert forall id :: id in sys.sessions && id != e.id ==> after.sessions[id] == sys.sessions[id];
  }

  lemma GrantIsFree(t: Torrent, m: State, peer: seq<bv8>)
    requires ValidTorrent(t) && Shape(t, m) && ValidPeer(t, peer)
    ensures var r := RequestResult(t, m, peer); r.Some? ==> Key(r.value.piece, r.value.offset) !in m.pendingBlocks
  {
    var i := Pick(t, m, peer, 0);
    if i.Some? {
      NextFreeInside(m.pendingBlocks, i.value, m.nextOffsets[i.value], PieceLength(t, i.value));
    }
  }

  lemma {:induction false} StrandedRun(t: Torrent, sys: System, steps: seq<Step>, end: System, k: Key)
    requires Leads(t, sys, steps, end) && Stranded(t, sys, k)
    requires forall m :: 0 <= m < |steps| && steps[m].ReadPiece? ==> Key(steps[m].piece, steps[m].offset) != k
    ensures SystemOk(t, end) && Stranded(t, end, k)
    decreases steps
  {
    if steps != [] {
      StrandedStep(t, sys, steps[0], k);
      StrandedRun(t, Next(t, sys, steps[0]), steps[1..], end, k);
    }
  }

  /**
   The block of a failed write is lost to the download: however the system goes on, as long as no peer
   sends that block it is in flight, no session has it or gives it back, and it is granted to no peer.
   */
  lemma StrandedForGood(t: Torrent, sys: System, e: Step, steps: seq<Step>, end: System, peer: seq<bv8>)
    requires SystemOk(t, sys) && Enabled(t, sys, e) && Orderly(t, sys) && e.Written? && !e.ok
    requires Leads(t, Next(t, sys, e), steps, end) && ValidPeer(t, peer)
    requires forall m :: 0 <= m < |steps| && steps[m].ReadPiece? ==>
                           Key(steps[m].piece, steps[m].offset) != sys.sessions[e.id].mode.key
    ensures SystemOk(t, end) && Stranded(t, end, sys.sessions[e.id].mode.key)
    ensures var r := RequestResult(t, end.manager, peer);
            r.Some? ==> Key(r.value.piece, r.value.offset) != sys.sessions[e.id].mode.key
  {
    FailedWriteStrands(t, sys, e);
    StrandedRun(t, Next(t, sys, e), steps, end, sys.sessions[e.id].mode.key);
    GrantIsFree(t, end.manager, peer);
  }
}
