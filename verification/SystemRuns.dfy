/**
 The manager inside an interleaving of sessions is the manager after the history of the calls they made,
 so what holds of histories holds of the whole system. With it, honest completion of the system.
 */
module SystemRuns {
  import opened Base
  import opened Pieces
  import opened Runs
  import opened Assembly
  import opened Sessions

  /** The manager calls of an interleaving, in order. */
  ghost function Calls(t: Torrent, sys: System, steps: seq<Step>, end: System): seq<Event>
    requires Leads(t, sys, steps, end)
    decreases steps
  {
    if steps == [] then []
    else
      var call := CallOf(t, sys, steps[0]);
      (if call.None? then [] else [call.value]) + Calls(t, Next(t, sys, steps[0]), steps[1..], end)
  }

  lemma AppendCall(t: Torrent, run: seq<Event>, e: Event)
    requires ValidRun(t, run) && ValidEvent(t, e)
    ensures ValidRun(t, run + [e]) && After(t, run + [e]) == Apply(t, After(t, run), e)
  {
    assert (run + [e])[..|run|] == run;
  }

  /** What was called before and in this step. */
  ghost function Called(t: Torrent, run: seq<Event>, sys: System, e: Step): seq<Event>
    requires SystemOk(t, sys) && Enabled(t, sys, e)
  {
    var call := CallOf(t, sys, e);
    if call.None? then run else run + [call.value]
  }

  lemma CallStep(t: Torrent, run: seq<Event>, sys: System, e: Step)
    requires SystemOk(t, sys) && Enabled(t, sys, e) && ValidRun(t, run) && After(t, run) == sys.manager
    ensures ValidRun(t, Called(t, run, sys, e)) && After(t, Called(t, run, sys, e)) == Next(t, sys, e).manager
  {
    var call := CallOf(t, sys, e);
    if call.Some? {
      AppendCall(t, run, call.value);
    }
  }

  lemma CallsSplit(t: Torrent, run: seq<Event>, sys: System, steps: seq<Step>, end: System)
    requires Leads(t, sys, steps, end) && steps != []
    ensures Called(t, run, sys, steps[0]) + Calls(t, Next(t, sys, steps[0]), steps[1..], end) == run + Calls(t, sys, steps, end)
  {
  }

  lemma {:induction false} CallsRun(t: Torrent, run: seq<Event>, sys: System, steps: seq<Step>, end: System)
    requires Leads(t, sys, steps, end) && ValidRun(t, run) && After(t, run) == sys.manager
    ensures var all := run + Calls(t, sys, steps, end); ValidRun(t, all) && After(t, all) == end.manager
    decreases steps
  {
    if steps == [] {
      assert run + [] == run;
    } else {
      CallStep(t, run, sys, steps[0]);
      CallsRun(t, Called(t, run, sys, steps[0]), Next(t, sys, steps[0]), steps[1..], end);
      CallsSplit(t, run, sys, steps, end);
    }
  }

  /** Every interleaving, from the start, leaves the manager as the history of its calls does. */
  lemma SystemIsRun(t: Torrent, steps: seq<Step>, end: System)
    requires Leads(t, Start(t), steps, end)
    ensures var run := Calls(t, Start(t), steps, end); ValidRun(t, run) && After(t, run) == end.manager
  {
    CallsRun(t, [], Start(t), steps, end);
    assert [] + Calls(t, Start(t), steps, end) == Calls(t, Start(t), steps, end);
  }

  // ---------------------------------------------------------------- honest completion of the system

  /** The piece message carries the true content of a whole block. */
  predicate TrueBlock(t: Torrent, content: seq<Bytes>, e: Step)
    requires ValidTorrent(t) && |content| == |t.hashes| && e.ReadPiece?
  {
    && e.piece < |content| && OnGrid(e.offset, PieceLength(t, e.piece)) && PieceLength(t, e.piece) == |content[e.piece]|
    && e.data == content[e.piece][e.offset..e.offset + Clamp(e.offset, |content[e.piece]|)]
  }

  /** No read or write fails, and each answer is a true block that this session waits for. */
  predicate HonestStep(t: Torrent, content: seq<Bytes>, sys: System, e: Step)
    requires ValidTorrent(t) && Shape(t, sys.manager) && Enabled(t, sys, e) && |content| == |t.hashes|
  {
    && !e.ReadFailed? && (e.Written? ==> e.ok)
    && (e.ReadPiece? ==> Key(e.piece, e.offset) in sys.sessions[e.id].outstanding && TrueBlock(t, content, e))
  }

  ghost predicate HonestSteps(t: Torrent, content: seq<Bytes>, sys: System, steps: seq<Step>, end: System)
    decreases steps
  {
    && Leads(t, sys, steps, end) && |content| == |t.hashes|
    && (steps != [] ==>
          HonestStep(t, content, sys, steps[0]) && HonestSteps(t, content, Next(t, sys, steps[0]), steps[1..], end))
  }

  /** No session is giving blocks back. */
  ghost predicate Undisturbed(sys: System) {
    forall id :: id in sys.sessions ==>
                   !sys.sessions[id].mode.Returning? && !sys.sessions[id].mode.Closing? && !sys.sessions[id].mode.Closed?
  }

  lemma UndisturbedStep(t: Torrent, content: seq<Bytes>, sys: System, e: Step)
    requires SystemOk(t, sys) && Enabled(t, sys, e) && Undisturbed(sys)
    requires |content| == |t.hashes| && HonestStep(t, content, sys, e)
    ensures Undisturbed(Next(t, sys, e)) && !e.GaveBack?
  {
    var s' := SessionAfter(t, sys, e);
    assert !s'.mode.Returning? && !s'.mode.Closing? && !s'.mode.Closed?;
  }

  lemma AppendHonest(t: Torrent, content: seq<Bytes>, run: seq<Event>, e: Event)
    requires HonestRun(t, content, run) && ValidEvent(t, e) && HonestEvent(t, content, After(t, run), e)
    ensures HonestRun(t, content, run + [e])
  {
    AppendCall(t, run, e);
    var more := run + [e];
    forall m | 0 <= m < |more|
      ensures HonestEvent(t, content, After(t, more[..m]), more[m])
    {
      assert more[..m] == run[..m];
      assert m == |run| ==> run[..m] == run;
    }
  }

  /** A block of the session's window is in flight, in full length. */
  lemma WindowInFlight(t: Torrent, run: seq<Event>, sys: System, id: nat, k: Key)
    requires ValidRun(t, run) && SystemOk(t, sys) && After(t, run) == sys.manager && Orderly(t, sys)
    requires id in sys.sessions && sys.sessions[id].mode.Idle? && k in sys.sessions[id].outstanding
    ensures k in sys.manager.pendingBlocks && k.piece < |t.hashes|
    ensures OnGrid(k.offset, PieceLength(t, k.piece)) && sys.manager.pendingBlocks[k] == Clamp(k.offset, PieceLength(t, k.piece))
  {
    RunInv(t, run);
    assert k in Owned(sys.sessions[id]);
  }

  /** A true block in the session's own window is an honest delivery, which is accepted. */
  lemma OwnAnswerIsHonest(t: Torrent, content: seq<Bytes>, run: seq<Event>, sys: System, e: Step)
    requires HonestRun(t, content, run) && SystemOk(t, sys) && After(t, run) == sys.manager && Orderly(t, sys)
    requires Enabled(t, sys, e) && e.ReadPiece? && HonestStep(t, content, sys, e)
    ensures HonestEvent(t, content, sys.manager, Delivered(e.piece, e.offset, e.data)) && OwnWindow(t, sys, e)
  {
    WindowInFlight(t, run, sys, e.id, Key(e.piece, e.offset));
    HonestNeverRefused(t, content, run, e.piece, e.offset, e.data);
  }

  lemma HonestCall(t: Torrent, content: seq<Bytes>, run: seq<Event>, sys: System, e: Step)
    requires HonestRun(t, content, run) && SystemOk(t, sys) && After(t, run) == sys.manager
    requires Orderly(t, sys) && Undisturbed(sys) && Enabled(t, sys, e) && HonestStep(t, content, sys, e)
    ensures HonestRun(t, content, Called(t, run, sys, e))
    ensures Orderly(t, Next(t, sys, e)) && Undisturbed(Next(t, sys, e))
  {
    UndisturbedStep(t, content, sys, e);
    if e.ReadPiece? {
      OwnAnswerIsHonest(t, content, run, sys, e);
    }
    OwnWindowIsHarmless(t, sys, e);
    OrderlyStep(t, sys, e);
    var call := CallOf(t, sys, e);
    if call.Some? {
      AppendHonest(t, content, run, call.value);
    }
  }

  /** How many piece messages there are. */
  function Answers(steps: seq<Step>): nat {
    if steps == [] then 0 else (if steps[0].ReadPiece? then 1 else 0) + Answers(steps[1..])
  }

  lemma AnswerCounts(t: Torrent, run: seq<Event>, sys: System, e: Step)
    requires SystemOk(t, sys) && Enabled(t, sys, e)
    ensures Deliveries(Called(t, run, sys, e)) == Deliveries(run) + if e.ReadPiece? then 1 else 0
  {
    var call := CallOf(t, sys, e);
    if call.Some? {
      assert (run + [call.value])[..|run|] == run;
    }
  }

  lemma {:induction false} HonestCalls(t: Torrent, content: seq<Bytes>, run: seq<Event>, sys: System, steps: seq<Step>, end: System)
    requires HonestRun(t, content, run) && HonestSteps(t, content, sys, steps, end)
    requires SystemOk(t, sys) && After(t, run) == sys.manager && Orderly(t, sys) && Undisturbed(sys)
    ensures var all := run + Calls(t, sys, steps, end);
            HonestRun(t, content, all) && Deliveries(all) == Deliveries(run) + Answers(steps)
    ensures SystemOk(t, end) && Orderly(t, end)
    decreases steps
  {
    if steps == [] {
      assert run + [] == run;
    } else {
      var e := steps[0];
      HonestCall(t, content, run, sys, e);
      CallStep(t, run, sys, e);
      AnswerCounts(t, run, sys, e);
      HonestCalls(t, content, Called(t, run, sys, e), Next(t, sys, e), steps[1..], end);
      CallsSplit(t, run, sys, steps, end);
    }
  }

  /**
   Honest completion of the whole system, for any number of sessions that ask, choke, unchoke and
   interleave as they like: the download is complete after exactly as many piece messages as the torrent
   has blocks, never takes more, and until then sessions own disjoint blocks.
   */
  lemma SystemCompletion(t: Torrent, content: seq<Bytes>, steps: seq<Step>, end: System)
    requires ValidTorrent(t) && TrueContent(t, content) && HonestSteps(t, content, Start(t), steps, end)
    ensures HonestRun(t, content, Calls(t, Start(t), steps, end))
    ensures Answers(steps) <= TotalBlocks(t, |t.hashes|)
    ensures IsComplete(t, end.manager) <==> Answers(steps) == TotalBlocks(t, |t.hashes|)
    ensures SystemOk(t, end) && Exclusive(t, end)
  {
    HonestCalls(t, content, [], Start(t), steps, end);
    assert [] + Calls(t, Start(t), steps, end) == Calls(t, Start(t), steps, end);
    SystemIsRun(t, steps, end);
    HonestCompletion(t, content, Calls(t, Start(t), steps, end));
  }
}
