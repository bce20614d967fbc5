/**
 Downloads get done: sessions keep their windows full until the manager has nothing more for them, so an
 honest system that is not complete always has something to do, and it can do only so much.
 */
module Progress {
  import opened Base
  import opened Bits
  import opened Pieces
  import opened PieceInvariants
  import opened Runs
  import opened Assembly
  import opened Recovery
  import opened Sessions
  import opened SystemRuns

  // ---------------------------------------------------------------- nothing left to ask for

  /** Every block of the pieces that the peer has was granted, to whatever session. */
  ghost predicate AskedAll(t: Torrent, m: State, peer: seq<bv8>)
    requires ValidTorrent(t) && Shape(t, m) && ValidPeer(t, peer)
  {
    forall i :: 0 <= i < |t.hashes| && HasBit(peer, i) && !m.finished[i] ==> m.nextOffsets[i] >= PieceLength(t, i)
  }

  lemma CursorFree(t: Torrent, m: State, got: Got, i: nat)
    requires ValidTorrent(t) && CleanInv(t, m, got) && i < |t.hashes| && !m.finished[i]
    ensures Grantable(t, m, i).Some? <==> m.nextOffsets[i] < PieceLength(t, i)
  {
    assert CleanPiece(t, m, got[i], i) && PieceOk(t, m, got[i], i);
    if m.nextOffsets[i] < PieceLength(t, i) {
      assert OnGrid(m.nextOffsets[i], PieceLength(t, i));
    }
  }

  /** In an honest run the manager has nothing for a peer exactly when all that the peer has was granted. */
  lemma NoneIffAsked(t: Torrent, m: State, got: Got, peer: seq<bv8>)
    requires ValidTorrent(t) && CleanInv(t, m, got) && ValidPeer(t, peer)
    ensures RequestResult(t, m, peer).None? <==> AskedAll(t, m, peer)
  {
    forall i | 0 <= i < |t.hashes|
      ensures Eligible(t, m, peer, i) <==> HasBit(peer, i) && !m.finished[i] && m.nextOffsets[i] < PieceLength(t, i)
    {
      assert HasBit(m.bitfield, i) <==> m.finished[i];
      if !m.finished[i] {
        CursorFree(t, m, got, i);
      }
    }
  }

  /** Without mismatches and returns cursors only move on. */
  lemma CursorsMoveOn(t: Torrent, m: State, e: Event, i: nat)
    requires ValidTorrent(t) && Shape(t, m) && ValidEvent(t, e) && i < |t.hashes| && !e.Returned?
    requires e.Delivered? ==> !Judge(t, m, e.piece, e.offset, e.data).Mismatch?
    ensures m.nextOffsets[i] <= Apply(t, m, e).nextOffsets[i]
    ensures m.finished[i] ==> Apply(t, m, e).finished[i]
  {
    if e.Requested? {
      var j := Pick(t, m, e.peer, 0);
      if j.Some? {
        NextFreeInside(m.pendingBlocks, j.value, m.nextOffsets[j.value], PieceLength(t, j.value));
      }
    }
  }

  lemma AskedStays(t: Torrent, m: State, e: Event, peer: seq<bv8>)
    requires ValidTorrent(t) && Shape(t, m) && ValidEvent(t, e) && ValidPeer(t, peer) && !e.Returned?
    requires e.Delivered? ==> !Judge(t, m, e.piece, e.offset, e.data).Mismatch?
    requires AskedAll(t, m, peer)
    ensures AskedAll(t, Apply(t, m, e), peer)
  {
    forall i | 0 <= i < |t.hashes|
      ensures m.nextOffsets[i] <= Apply(t, m, e).nextOffsets[i] && (m.finished[i] ==> Apply(t, m, e).finished[i])
    {
      CursorsMoveOn(t, m, e, i);
    }
  }

  // ---------------------------------------------------------------- windows are kept full

  /**
   A session that asks has its window full, counting what its refill loop may still add, unless all that
   its peer has was granted. One that is choked since it last asked is not bound to.
   */
  ghost predicate Keen(t: Torrent, m: State, s: Session)
    requires ValidTorrent(t) && Shape(t, m) && SessionOk(t, s)
  {
    && (s.outstanding != {} || !s.choked ==> s.peer.Some?)
    && (s.choked || |s.outstanding| + Room(s.mode) == MAX_PIPELINE_SIZE || AskedAll(t, m, s.peer.value))
  }

  ghost predicate AllKeen(t: Torrent, sys: System)
    requires SystemOk(t, sys)
  {
    forall id :: id in sys.sessions ==> Keen(t, sys.manager, sys.sessions[id])
  }

  /** An honest run has led to this state of the system. */
  ghost predicate Healthy(t: Torrent, content: seq<Bytes>, run: seq<Event>, sys: System) {
    && HonestRun(t, content, run) && SystemOk(t, sys) && After(t, run) == sys.manager
    && Orderly(t, sys) && Undisturbed(sys) && Bounded(sys) && AllKeen(t, sys)
  }

  /** Nothing fails, answers are true and to the session's own window, and a bitfield comes while it is choked. */
  predicate GoodStep(t: Torrent, content: seq<Bytes>, sys: System, e: Step)
    requires ValidTorrent(t) && Shape(t, sys.manager) && Enabled(t, sys, e) && |content| == |t.hashes|
  {
    HonestStep(t, content, sys, e) && (e.ReadBitfield? ==> sys.sessions[e.id].choked)
  }

  /** A session that reads an accepted block of its window asks for more: its window is full again. */
  lemma AnsweredRefills(s: Session, k: Key)
    requires s.mode.Idle? && |s.outstanding| <= MAX_PIPELINE_SIZE
    ensures var s' := OnPiece(s, k, true);
            && s'.outstanding == s.outstanding - {k} && s'.peer == s.peer && s'.choked == s.choked
            && |s'.outstanding| + Room(s'.mode) == MAX_PIPELINE_SIZE
  {
    SubsetSize(s.outstanding - {k}, s.outstanding);
  }

  lemma AskedStaysInSystem(t: Torrent, content: seq<Bytes>, run: seq<Event>, sys: System, e: Step, peer: seq<bv8>)
    requires Healthy(t, content, run, sys) && Enabled(t, sys, e) && GoodStep(t, content, sys, e) && ValidPeer(t, peer)
    requires AskedAll(t, sys.manager, peer)
    ensures AskedAll(t, Next(t, sys, e).manager, peer)
  {
    UndisturbedStep(t, content, sys, e);
    if e.ReadPiece? {
      OwnAnswerIsHonest(t, content, run, sys, e);
    }
    var call := CallOf(t, sys, e);
    if call.Some? {
      AskedStays(t, sys.manager, call.value, peer);
    }
  }

  /** The session that asked gets a block, or all its peer has was granted. */
  lemma AskerKeen(t: Torrent, content: seq<Bytes>, run: seq<Event>, sys: System, e: Step)
    requires Healthy(t, content, run, sys) && Enabled(t, sys, e) && e.Asked?
    ensures Keen(t, Next(t, sys, e).manager, SessionAfter(t, sys, e))
  {
    var s := sys.sessions[e.id];
    assert Keen(t, sys.manager, s);
    HonestRunInv(t, content, run);
    NoneIffAsked(t, sys.manager, GotIn(t, run), s.peer.value);
    if RequestResult(t, sys.manager, s.peer.value).None? {
      assert Next(t, sys, e).manager == sys.manager;
    }
  }

  lemma WriterKeen(t: Torrent, m: State, s: Session)
    requires ValidTorrent(t) && Shape(t, m) && SessionOk(t, s) && Keen(t, m, s) && s.mode.Writing? && s.mode.key !in s.outstanding
    ensures SessionOk(t, OnWritten(s, true)) && Keen(t, m, OnWritten(s, true))
  {
    assert |s.outstanding + {s.mode.key}| == |s.outstanding| + 1;
  }

  lemma ReaderKeen(t: Torrent, content: seq<Bytes>, run: seq<Event>, sys: System, e: Step)
    requires Healthy(t, content, run, sys) && Enabled(t, sys, e) && HonestStep(t, content, sys, e) && e.ReadPiece?
    ensures Keen(t, Next(t, sys, e).manager, SessionAfter(t, sys, e))
  {
    var s := sys.sessions[e.id];
    OwnAnswerIsHonest(t, content, run, sys, e);
    assert InWindow(s);
    AnsweredRefills(s, Key(e.piece, e.offset));
  }

  lemma MoverKeen(t: Torrent, content: seq<Bytes>, run: seq<Event>, sys: System, e: Step)
    requires Healthy(t, content, run, sys) && Enabled(t, sys, e) && GoodStep(t, content, sys, e)
    ensures var after := Next(t, sys, e); e.id in after.sessions && Keen(t, after.manager, after.sessions[e.id])
  {
    UndisturbedStep(t, content, sys, e);
    if e.Asked? {
      AskerKeen(t, content, run, sys, e);
    } else if e.Written? {
      WriterKeen(t, sys.manager, sys.sessions[e.id]);
    } else if e.ReadPiece? {
      ReaderKeen(t, content, run, sys, e);
    } else if !e.Connected? {
      assert Keen(t, sys.manager, sys.sessions[e.id]) && InWindow(sys.sessions[e.id]);
    }
  }

  lemma OtherKeen(t: Torrent, content: seq<Bytes>, run: seq<Event>, sys: System, e: Step, id: nat)
    requires Healthy(t, content, run, sys) && Enabled(t, sys, e) && GoodStep(t, content, sys, e)
    requires id in sys.sessions && id != e.id
    ensures Keen(t, Next(t, sys, e).manager, sys.sessions[id])
  {
    var s := sys.sessions[id];
    assert Keen(t, sys.manager, s);
    if s.peer.Some? && AskedAll(t, sys.manager, s.peer.value) {
      AskedStaysInSystem(t, content, run, sys, e, s.peer.value);
    }
  }

  /** Good steps keep all this. */
  lemma HealthyStep(t: Torrent, content: seq<Bytes>, run: seq<Event>, sys: System, e: Step)
    requires Healthy(t, content, run, sys) && Enabled(t, sys, e) && GoodStep(t, content, sys, e)
    ensures Healthy(t, content, Called(t, run, sys, e), Next(t, sys, e))
  {
    HonestCall(t, content, run, sys, e);
    CallStep(t, run, sys, e);
    BoundedStep(t, sys, e);
    KeenStep(t, content, run, sys, e);
  }

  lemma KeenStep(t: Torrent, content: seq<Bytes>, run: seq<Event>, sys: System, e: Step)
    requires Healthy(t, content, run, sys) && Enabled(t, sys, e) && GoodStep(t, content, sys, e)
    ensures AllKeen(t, Next(t, sys, e))
  {
    var after := Next(t, sys, e);
    MoverKeen(t, content, run, sys, e);
    forall id | id in after.sessions
      ensures Keen(t, after.manager, after.sessions[id])
    {
      if id != e.id {
        OtherKeen(t, content, run, sys, e, id);
      }
    }
  }

  // ---------------------------------------------------------------- there is something to do

  /** A request, its writing, or an answer: what a download consists of. */
  predicate IsWork(e: Step) {
    e.Asked? || e.Written? || e.ReadPiece?
  }

  ghost predicate CanWork(t: Torrent, content: seq<Bytes>, sys: System, e: Step)
    requires SystemOk(t, sys) && |content| == |t.hashes|
  {
    IsWork(e) && Enabled(t, sys, e) && GoodStep(t, content, sys, e)
  }

  /** Each unfinished piece is had by a peer that has unchoked us. */
  ghost predicate Served(t: Torrent, sys: System)
    requires SystemOk(t, sys)
  {
    forall i :: 0 <= i < |t.hashes| && !sys.manager.finished[i] ==> HasServer(t, sys, i)
  }

  ghost predicate HasServer(t: Torrent, sys: System, i: nat) {
    exists id :: Serves(t, sys, id, i)
  }

  predicate Serves(t: Torrent, sys: System, id: nat, i: nat) {
    && id in sys.sessions && !sys.sessions[id].choked && sys.sessions[id].peer.Some?
    && ValidPeer(t, sys.sessions[id].peer.value) && i < |t.hashes| && HasBit(sys.sessions[id].peer.value, i)
  }

  /** A session that is not idle goes on with its refill loop. */
  lemma BusyWorks(t: Torrent, content: seq<Bytes>, sys: System, id: nat) returns (e: Step)
    requires SystemOk(t, sys) && |content| == |t.hashes| && Undisturbed(sys) && id in sys.sessions && !sys.sessions[id].mode.Idle?
    ensures CanWork(t, content, sys, e) && e.id == id
  {
    e := if sys.sessions[id].mode.Refilling? then Asked(id) else Written(id, true);
  }

  /** The true content of a block in an idle session's window is a good answer. */
  lemma AnswerWorks(t: Torrent, content: seq<Bytes>, sys: System, id: nat, k: Key) returns (e: Step)
    requires SystemOk(t, sys) && TrueContent(t, content) && id in sys.sessions && sys.sessions[id].mode.Idle?
    requires sys.sessions[id].peer.Some? && k in sys.sessions[id].outstanding
    requires k.piece < |t.hashes| && OnGrid(k.offset, PieceLength(t, k.piece))
    ensures CanWork(t, content, sys, e) && e.id == id
  {
    e := ReadPiece(id, k.piece, k.offset, content[k.piece][k.offset..k.offset + Clamp(k.offset, PieceLength(t, k.piece))]);
    assert Key(k.piece, k.offset) == k;
  }

  /** An idle session with a block outstanding can be sent it. */
  lemma WaiterWorks(t: Torrent, content: seq<Bytes>, run: seq<Event>, sys: System, id: nat, k: Key) returns (e: Step)
    requires Healthy(t, content, run, sys) && id in sys.sessions && sys.sessions[id].mode.Idle? && k in sys.sessions[id].outstanding
    ensures CanWork(t, content, sys, e) && e.id == id
  {
    WindowInFlight(t, run, sys, id, k);
    assert Keen(t, sys.manager, sys.sessions[id]);
    e := AnswerWorks(t, content, sys, id, k);
  }

  /** A session whose window is to be filled has something to do. */
  lemma WindowWorks(t: Torrent, content: seq<Bytes>, run: seq<Event>, sys: System, id: nat) returns (e: Step)
    requires Healthy(t, content, run, sys) && id in sys.sessions
    requires |sys.sessions[id].outstanding| + Room(sys.sessions[id].mode) == MAX_PIPELINE_SIZE
    ensures CanWork(t, content, sys, e) && e.id == id
  {
    if sys.sessions[id].mode.Idle? {
      var k :| k in sys.sessions[id].outstanding;
      e := WaiterWorks(t, content, run, sys, id, k);
    } else {
      e := BusyWorks(t, content, sys, id);
    }
  }

  lemma OwnerWorks(t: Torrent, content: seq<Bytes>, run: seq<Event>, sys: System, id: nat, k: Key) returns (e: Step)
    requires Healthy(t, content, run, sys) && id in sys.sessions && k in Owned(sys.sessions[id])
    ensures CanWork(t, content, sys, e)
  {
    if sys.sessions[id].mode.Idle? {
      e := WaiterWorks(t, content, run, sys, id, k);
    } else {
      e := BusyWorks(t, content, sys, id);
    }
  }

  /** While the download is not complete some session asks, writes, or can be answered. */
  lemma WorkToDo(t: Torrent, content: seq<Bytes>, run: seq<Event>, sys: System) returns (e: Step)
    requires Healthy(t, content, run, sys) && Served(t, sys) && !IsComplete(t, sys.manager)
    ensures CanWork(t, content, sys, e)
  {
    CompleteIffAllFinished(t, run);
    var i :| 0 <= i < |t.hashes| && !sys.manager.finished[i];
    NoPieceIsStuck(t, run, i);
    if k :| k in sys.manager.pendingBlocks && k.piece == i {
      var a :| a in sys.sessions && k in Owned(sys.sessions[a]);
      e := OwnerWorks(t, content, run, sys, a, k);
    } else {
      assert HasServer(t, sys, i);
      var id :| Serves(t, sys, id, i);
      HonestRunInv(t, content, run);
      CursorFree(t, sys.manager, GotIn(t, run), i);
      assert Keen(t, sys.manager, sys.sessions[id]);
      e := WindowWorks(t, content, run, sys, id);
    }
  }

  // ---------------------------------------------------------------- how much there is to do

  function Phase(m: Mode): nat {
    match m
    case Refilling(left) => 2 * left
    case Writing(left, _) => if left == 0 then 0 else 2 * left - 1
    case _ => 0
  }

  ghost function Phases(sessions: map<nat, Session>): nat {
    if sessions == map[] then 0
    else
      var id :| id in sessions;
      Phase(sessions[id].mode) + Phases(sessions - {id})
  }

  lemma {:induction false} PhasesSplit(sessions: map<nat, Session>, id: nat)
    requires id in sessions
    ensures Phases(sessions) == Phase(sessions[id].mode) + Phases(sessions - {id})
  {
    var first :| first in sessions && Phases(sessions) == Phase(sessions[first].mode) + Phases(sessions - {first});
    if first != id {
      PhasesSplit(sessions - {first}, id);
      PhasesSplit(sessions - {id}, first);
      assert sessions - {first} - {id} == sessions - {id} - {first};
    }
  }

  lemma PhasesUpdate(sessions: map<nat, Session>, id: nat, s: Session)
    requires id in sessions
    ensures Phases(sessions[id := s]) == Phases(sessions) - Phase(sessions[id].mode) + Phase(s.mode)
  {
    PhasesSplit(sessions, id);
    PhasesSplit(sessions[id := s], id);
    assert sessions[id := s] - {id} == sessions - {id};
  }

  /** Work steps left: each missing block may start a refill loop of a whole window. */
  ghost function ToDo(t: Torrent, sys: System): int
    requires SystemOk(t, sys)
  {
    (2 * MAX_PIPELINE_SIZE + 1) * Missing(t, sys.manager, |t.hashes|) + Phases(sys.sessions)
  }

  lemma MissingAfter(t: Torrent, content: seq<Bytes>, run: seq<Event>, sys: System, e: Step)
    requires Healthy(t, content, run, sys) && Enabled(t, sys, e) && HonestStep(t, content, sys, e)
    ensures Missing(t, Next(t, sys, e).manager, |t.hashes|) ==
            Missing(t, sys.manager, |t.hashes|) - if e.ReadPiece? then 1 else 0
  {
    UndisturbedStep(t, content, sys, e);
    if e.ReadPiece? {
      OwnAnswerIsHonest(t, content, run, sys, e);
    }
    var call := CallOf(t, sys, e);
    if call.Some? {
      HonestRunInv(t, content, run);
      MissingStep(t, content, sys.manager, GotIn(t, run), call.value);
    }
  }

  lemma PhaseAfter(t: Torrent, content: seq<Bytes>, sys: System, e: Step)
    requires SystemOk(t, sys) && |content| == |t.hashes| && CanWork(t, content, sys, e)
    ensures var before, after := Phase(sys.sessions[e.id].mode), Phase(SessionAfter(t, sys, e).mode);
            if e.ReadPiece? then after <= before + 2 * MAX_PIPELINE_SIZE else after < before
  {
  }

  lemma PhasesAfter(t: Torrent, content: seq<Bytes>, sys: System, e: Step)
    requires SystemOk(t, sys) && |content| == |t.hashes| && CanWork(t, content, sys, e)
    ensures var before, after := Phases(sys.sessions), Phases(Next(t, sys, e).sessions);
            if e.ReadPiece? then after <= before + 2 * MAX_PIPELINE_SIZE else after < before
  {
    PhaseAfter(t, content, sys, e);
    PhasesUpdate(sys.sessions, e.id, SessionAfter(t, sys, e));
  }

  lemma LessToDo(missing: int, missing': int, phases: nat, phases': nat, answer: bool)
    requires missing' == missing - if answer then 1 else 0
    requires if answer then phases' <= phases + 2 * MAX_PIPELINE_SIZE else phases' < phases
    ensures (2 * MAX_PIPELINE_SIZE + 1) * missing' + phases' < (2 * MAX_PIPELINE_SIZE + 1) * missing + phases
  {
  }

  /** Each work step leaves less to do. */
  lemma WorkIsDone(t: Torrent, content: seq<Bytes>, run: seq<Event>, sys: System, e: Step)
    requires Healthy(t, content, run, sys) && CanWork(t, content, sys, e)
    ensures ToDo(t, Next(t, sys, e)) < ToDo(t, sys)
  {
    var after := Next(t, sys, e);
    MissingAfter(t, content, run, sys, e);
    PhasesAfter(t, content, sys, e);
    LessToDo(Missing(t, sys.manager, |t.hashes|), Missing(t, after.manager, |t.hashes|),
             Phases(sys.sessions), Phases(after.sessions), e.ReadPiece?);
  }

  lemma MissingCounts(t: Torrent, content: seq<Bytes>, run: seq<Event>)
    requires HonestRun(t, content, run)
    ensures Missing(t, After(t, run), |t.hashes|) >= 0
  {
    HonestRunInv(t, content, run);
    NothingMissing(t, After(t, run), GotIn(t, run), |t.hashes|);
  }

  lemma ToDoCounts(t: Torrent, content: seq<Bytes>, run: seq<Event>, sys: System)
    requires Healthy(t, content, run, sys)
    ensures ToDo(t, sys) >= 0
  {
    MissingCounts(t, content, run);
    SumCounts(Missing(t, sys.manager, |t.hashes|), Phases(sys.sessions));
  }

  lemma SumCounts(missing: int, phases: nat)
    requires missing >= 0
    ensures (2 * MAX_PIPELINE_SIZE + 1) * missing + phases >= 0
  {
  }

  lemma StillServed(t: Torrent, content: seq<Bytes>, sys: System, e: Step)
    requires SystemOk(t, sys) && |content| == |t.hashes| && CanWork(t, content, sys, e) && Served(t, sys)
    ensures Served(t, Next(t, sys, e))
  {
    var after := Next(t, sys, e);
    forall i | 0 <= i < |t.hashes| && !after.manager.finished[i]
      ensures HasServer(t, after, i)
    {
      UnfinishedBefore(t, sys, e, i);
      assert HasServer(t, sys, i);
      var id :| Serves(t, sys, id, i);
      SamePeer(t, content, sys, e);
      assert Serves(t, after, id, i);
    }
  }

  lemma UnfinishedBefore(t: Torrent, sys: System, e: Step, i: nat)
    requires SystemOk(t, sys) && Enabled(t, sys, e) && i < |t.hashes|
    ensures sys.manager.finished[i] ==> Next(t, sys, e).manager.finished[i]
  {
    var call := CallOf(t, sys, e);
    if call.Some? {
      FinishedChange(t, sys.manager, call.value, i);
    }
  }

  lemma SamePeer(t: Torrent, content: seq<Bytes>, sys: System, e: Step)
    requires SystemOk(t, sys) && |content| == |t.hashes| && CanWork(t, content, sys, e)
    ensures SessionAfter(t, sys, e).peer == sys.sessions[e.id].peer
    ensures SessionAfter(t, sys, e).choked == sys.sessions[e.id].choked
  {
  }

  // ---------------------------------------------------------------- downloads complete

  /** A run of work steps. */
  ghost predicate Works(t: Torrent, content: seq<Bytes>, sys: System, steps: seq<Step>, end: System)
    decreases steps
  {
    && SystemOk(t, sys) && |content| == |t.hashes|
    && if steps == [] then sys == end
       else CanWork(t, content, sys, steps[0]) && Works(t, content, Next(t, sys, steps[0]), steps[1..], end)
  }

  /** Such runs keep the system healthy, are no longer than what there was to do, and count answers. */
  lemma {:induction false} WorksBounded(t: Torrent, content: seq<Bytes>, run: seq<Event>, sys: System, steps: seq<Step>, end: System)
    returns (more: seq<Event>)
    requires Healthy(t, content, run, sys) && Served(t, sys) && Works(t, content, sys, steps, end)
    ensures Healthy(t, content, more, end) && Served(t, end)
    ensures |steps| + ToDo(t, end) <= ToDo(t, sys)
    ensures Deliveries(more) == Deliveries(run) + Answers(steps)
    decreases steps
  {
    more := run;
    if steps != [] {
      var e := steps[0];
      HealthyStep(t, content, run, sys, e);
      StillServed(t, content, sys, e);
      WorkIsDone(t, content, run, sys, e);
      AnswerCounts(t, run, sys, e);
      more := WorksBounded(t, content, Called(t, run, sys, e), Next(t, sys, e), steps[1..], end);
    }
  }

  /**
   Any number of honest sessions, windows of any state: whatever order requests, writes and answers come
   in, there are at most so many of them, and they stop only with the download complete.
   */
  lemma WorksUntilComplete(t: Torrent, content: seq<Bytes>, run: seq<Event>, sys: System, steps: seq<Step>, end: System)
    requires Healthy(t, content, run, sys) && Served(t, sys) && Works(t, content, sys, steps, end)
    ensures |steps| <= ToDo(t, sys)
    ensures SystemOk(t, end) && (IsComplete(t, end.manager) || exists e :: CanWork(t, content, end, e))
  {
    var more := WorksBounded(t, content, run, sys, steps, end);
    ToDoCounts(t, content, more, end);
    if !IsComplete(t, end.manager) {
      var e := WorkToDo(t, content, more, end);
    }
  }

  lemma {:induction false} WorksAppend(t: Torrent, content: seq<Bytes>, sys: System, e: Step, steps: seq<Step>, end: System)
    requires SystemOk(t, sys) && |content| == |t.hashes| && CanWork(t, content, sys, e)
    requires Works(t, content, Next(t, sys, e), steps, end)
    ensures Works(t, content, sys, [e] + steps, end)
  {
    assert ([e] + steps)[1..] == steps;
  }

  /** So a complete download can be reached. */
  lemma {:induction false} Completes(t: Torrent, content: seq<Bytes>, run: seq<Event>, sys: System)
    returns (steps: seq<Step>, end: System)
    requires Healthy(t, content, run, sys) && Served(t, sys)
    ensures Works(t, content, sys, steps, end) && IsComplete(t, end.manager)
    decreases ToDo(t, sys)
  {
    ToDoCounts(t, content, run, sys);
    if IsComplete(t, sys.manager) {
      steps, end := [], sys;
    } else {
      var e := WorkToDo(t, content, run, sys);
      HealthyStep(t, content, run, sys, e);
      StillServed(t, content, sys, e);
      WorkIsDone(t, content, run, sys, e);
      steps, end := Completes(t, content, Called(t, run, sys, e), Next(t, sys, e));
      WorksAppend(t, content, sys, e, steps, end);
      steps := [e] + steps;
    }
  }

  /** Any interleaving of good steps: sessions joining, choking and unchoking included. */
  ghost predicate GoodSteps(t: Torrent, content: seq<Bytes>, sys: System, steps: seq<Step>, end: System)
    decreases steps
  {
    && Leads(t, sys, steps, end) && |content| == |t.hashes|
    && (steps != [] ==>
          GoodStep(t, content, sys, steps[0]) && GoodSteps(t, content, Next(t, sys, steps[0]), steps[1..], end))
  }

  lemma {:induction false} HealthyRun(t: Torrent, content: seq<Bytes>, run: seq<Event>, sys: System, steps: seq<Step>, end: System)
    returns (more: seq<Event>)
    requires Healthy(t, content, run, sys) && GoodSteps(t, content, sys, steps, end)
    ensures Healthy(t, content, more, end)
    decreases steps
  {
    more := run;
    if steps != [] {
      HealthyStep(t, content, run, sys, steps[0]);
      more := HealthyRun(t, content, Called(t, run, sys, steps[0]), Next(t, sys, steps[0]), steps[1..], end);
    }
  }

  lemma StartHealthy(t: Torrent, content: seq<Bytes>)
    requires ValidTorrent(t) && TrueContent(t, content)
    ensures Healthy(t, content, [], Start(t))
  {
  }

  /**
   After any such interleaving from the start: a download that is not complete, with each missing piece had
   by a peer that has unchoked us, has something to do.
   */
  lemma NeverIdle(t: Torrent, content: seq<Bytes>, steps: seq<Step>, end: System)
    requires ValidTorrent(t) && TrueContent(t, content) && GoodSteps(t, content, Start(t), steps, end)
    requires SystemOk(t, end) && Served(t, end) && !IsComplete(t, end.manager)
    ensures exists e :: CanWork(t, content, end, e)
  {
    StartHealthy(t, content);
    var run := HealthyRun(t, content, [], Start(t), steps, end);
    var e := WorkToDo(t, content, run, end);
  }

  /** And every session that is unchoked has a full window or all that its peer has was granted. */
  lemma WindowsFull(t: Torrent, content: seq<Bytes>, steps: seq<Step>, end: System, id: nat)
    requires ValidTorrent(t) && TrueContent(t, content) && GoodSteps(t, content, Start(t), steps, end)
    requires SystemOk(t, end) && id in end.sessions && !end.sessions[id].choked && end.sessions[id].mode.Idle?
    ensures var s := end.sessions[id];
            s.peer.Some? && (|s.outstanding| == 32 || RequestResult(t, end.manager, s.peer.value).None?)
  {
    StartHealthy(t, content);
    var run := HealthyRun(t, content, [], Start(t), steps, end);
    HonestRunInv(t, content, run);
    assert Keen(t, end.manager, end.sessions[id]);
    NoneIffAsked(t, end.manager, GotIn(t, run), end.sessions[id].peer.value);
  }

  // ---------------------------------------------------------------- one seeder

  /** A seeder's session that was just unchoked, on a new manager. */
  function Unchoked(t: Torrent, peer: seq<bv8>): System {
    System(Init(t), map[0 := Session(Some(peer), false, {}, Refilling(MAX_PIPELINE_SIZE))])
  }

  /** The steps that lead there. */
  function Opening(peer: seq<bv8>): seq<Step> {
    [Connected(0), ReadBitfield(0, peer), ReadUnchoke(0)]
  }

  lemma OpeningLeads(t: Torrent, peer: seq<bv8>)
    requires ValidTorrent(t) && ValidPeer(t, peer)
    ensures Leads(t, Start(t), Opening(peer), Unchoked(t, peer)) && SystemOk(t, Unchoked(t, peer))
  {
    var m, steps := Init(t), Opening(peer);
    LeadsOn(t, Start(t), [], Start(t), Connected(0));
    var connected := System(m, map[0 := NEW_SESSION]);
    assert Next(t, Start(t), Connected(0)) == connected && [] + [Connected(0)] == steps[..1];
    LeadsOn(t, Start(t), steps[..1], connected, ReadBitfield(0, peer));
    var known := System(m, map[0 := NEW_SESSION.(peer := Some(peer))]);
    assert Next(t, connected, ReadBitfield(0, peer)) == known && steps[..1] + [ReadBitfield(0, peer)] == steps[..2];
    LeadsOn(t, Start(t), steps[..2], known, ReadUnchoke(0));
    assert Next(t, known, ReadUnchoke(0)) == Unchoked(t, peer) && steps[..2] + [ReadUnchoke(0)] == steps;
  }

  lemma UnchokedServed(t: Torrent, peer: seq<bv8>)
    requires ValidTorrent(t) && Seeder(t, peer) && SystemOk(t, Unchoked(t, peer))
    ensures Served(t, Unchoked(t, peer))
  {
    forall i | 0 <= i < |t.hashes|
      ensures HasServer(t, Unchoked(t, peer), i)
    {
      assert Serves(t, Unchoked(t, peer), 0, i);
    }
  }

  lemma UnchokedHealthy(t: Torrent, content: seq<Bytes>, peer: seq<bv8>)
    requires ValidTorrent(t) && TrueContent(t, content) && Seeder(t, peer)
    ensures Healthy(t, content, [], Unchoked(t, peer)) && Served(t, Unchoked(t, peer))
  {
    OpeningLeads(t, peer);
    UnchokedServed(t, peer);
  }

  lemma UnchokedToDo(t: Torrent, peer: seq<bv8>)
    requires ValidTorrent(t) && SystemOk(t, Unchoked(t, peer))
    ensures ToDo(t, Unchoked(t, peer)) == 65 * TotalBlocks(t, |t.hashes|) + 64
  {
    var sessions := Unchoked(t, peer).sessions;
    PhasesSplit(sessions, 0);
    assert sessions - {0} == map[];
    MissingAtFirst(t, |t.hashes|);
  }

  lemma {:induction false} LeadsJoin(t: Torrent, sys: System, steps: seq<Step>, mid: System, more: seq<Step>, end: System)
    requires Leads(t, sys, steps, mid) && Leads(t, mid, more, end)
    ensures Leads(t, sys, steps + more, end)
    decreases steps
  {
    if steps == [] {
      assert steps + more == more;
    } else {
      var after := Next(t, sys, steps[0]);
      LeadsJoin(t, after, steps[1..], mid, more, end);
      assert (steps + more)[1..] == steps[1..] + more;
    }
  }

  lemma {:induction false} WorksLead(t: Torrent, content: seq<Bytes>, sys: System, steps: seq<Step>, end: System)
    requires Works(t, content, sys, steps, end)
    ensures Leads(t, sys, steps, end)
    decreases steps
  {
    if steps != [] {
      WorksLead(t, content, Next(t, sys, steps[0]), steps[1..], end);
    }
  }

  /**
   One seeder that unchokes once and answers what is asked of it: whatever order requests, writes and
   answers come in, they stop only with the download complete, which it is exactly when there were as many
   answers as blocks, and there are at most 65 steps for each block and 64 more.
   */
  lemma SeederWorks(t: Torrent, content: seq<Bytes>, peer: seq<bv8>, steps: seq<Step>, end: System)
    requires ValidTorrent(t) && TrueContent(t, content) && Seeder(t, peer)
    requires Works(t, content, Unchoked(t, peer), steps, end)
    ensures Leads(t, Start(t), Opening(peer) + steps, end)
    ensures |steps| <= 65 * TotalBlocks(t, |t.hashes|) + 64
    ensures SystemOk(t, end) && (IsComplete(t, end.manager) || exists e :: CanWork(t, content, end, e))
    ensures IsComplete(t, end.manager) <==> Answers(steps) == TotalBlocks(t, |t.hashes|)
  {
    OpeningLeads(t, peer);
    UnchokedHealthy(t, content, peer);
    UnchokedToDo(t, peer);
    WorksLead(t, content, Unchoked(t, peer), steps, end);
    LeadsJoin(t, Start(t), Opening(peer), Unchoked(t, peer), steps, end);
    WorksUntilComplete(t, content, [], Unchoked(t, peer), steps, end);
    var run := WorksBounded(t, content, [], Unchoked(t, peer), steps, end);
    HonestCompletion(t, content, run);
  }

  /** And such a run exists. */
  lemma SeederCompletes(t: Torrent, content: seq<Bytes>, peer: seq<bv8>) returns (steps: seq<Step>, end: System)
    requires ValidTorrent(t) && TrueContent(t, content) && Seeder(t, peer)
    ensures Leads(t, Start(t), Opening(peer) + steps, end) && IsComplete(t, end.manager)
    ensures Answers(steps) == TotalBlocks(t, |t.hashes|) && |steps| <= 65 * TotalBlocks(t, |t.hashes|) + 64
  {
    UnchokedHealthy(t, content, peer);
    steps, end := Completes(t, content, [], Unchoked(t, peer));
    SeederWorks(t, content, peer, steps, end);
  }
}
