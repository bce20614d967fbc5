/**
 Whole histories of the piece manager. Sessions call it from several threads, but each call holds the
 mutex, so a history is any sequence of calls with any arguments.
 */
module Runs {
  import opened Base
  import opened Bits
  import opened Pieces
  import opened PieceInvariants

  datatype Event =
    | Requested(peer: seq<bv8>)
    | Delivered(piece: nat, offset: nat, data: Bytes)
    | Returned(block: Block)

  predicate ValidEvent(t: Torrent, e: Event) {
    match e
    case Requested(peer) => ValidPeer(t, peer)
    case Delivered(i, _, _) => i < |t.hashes|
    case Returned(_) => true
  }

  ghost predicate ValidRun(t: Torrent, run: seq<Event>) {
    ValidTorrent(t) && forall m :: 0 <= m < |run| ==> ValidEvent(t, run[m])
  }

  function Apply(t: Torrent, s: State, e: Event): (s': State)
    requires ValidTorrent(t) && Shape(t, s) && ValidEvent(t, e)
    ensures Shape(t, s')
  {
    match e
    case Requested(peer) => Request(t, s, peer)
    case Delivered(i, offset, data) => Deliver(t, s, i, offset, data)
    case Returned(b) => Return(t, s, b)
  }

  function GotApply(t: Torrent, s: State, got: Got, e: Event): (g: Got)
    requires ValidTorrent(t) && Shape(t, s) && ValidEvent(t, e) && |got| == |t.hashes|
    ensures |g| == |t.hashes|
  {
    match e
    case Delivered(i, offset, data) => GotAfter(t, s, got, i, offset, data)
    case _ => got
  }

  /** The manager's state after a history. */
  ghost function After(t: Torrent, run: seq<Event>): (s: State)
    requires ValidRun(t, run)
    ensures Shape(t, s)
  {
    if run == [] then Init(t) else Apply(t, After(t, run[..|run| - 1]), run[|run| - 1])
  }

  /** The blocks received since each piece's last reset, after a history. */
  ghost function GotIn(t: Torrent, run: seq<Event>): (got: Got)
    requires ValidRun(t, run)
    ensures |got| == |t.hashes|
  {
    if run == [] then seq(|t.hashes|, _ => map[])
    else
      var before := run[..|run| - 1];
      GotApply(t, After(t, before), GotIn(t, before), run[|run| - 1])
  }

  lemma ApplyInv(t: Torrent, s: State, got: Got, e: Event)
    requires ValidTorrent(t) && Inv(t, s, got) && ValidEvent(t, e)
    ensures Inv(t, Apply(t, s, e), GotApply(t, s, got, e))
  {
    match e
    case Requested(peer) => RequestInv(t, s, got, peer);
    case Delivered(i, offset, data) => DeliverInv(t, s, got, i, offset, data);
    case Returned(b) => ReturnInv(t, s, got, b);
  }

  /** Every history keeps the invariant. */
  lemma {:induction false} RunInv(t: Torrent, run: seq<Event>)
    requires ValidRun(t, run)
    ensures Inv(t, After(t, run), GotIn(t, run))
  {
    if run == [] {
      InitInv(t);
    } else {
      var before := run[..|run| - 1];
      RunInv(t, before);
      ApplyInv(t, After(t, before), GotIn(t, before), run[|run| - 1]);
    }
  }

  lemma AfterStep(t: Torrent, run: seq<Event>, m: nat)
    requires ValidRun(t, run) && m < |run|
    ensures After(t, run[..m + 1]) == Apply(t, After(t, run[..m]), run[m])
    ensures GotIn(t, run[..m + 1]) == GotApply(t, After(t, run[..m]), GotIn(t, run[..m]), run[m])
  {
    assert run[..m + 1][..m] == run[..m];
  }

  lemma StepTo(t: Torrent, run: seq<Event>, m: nat, s: State, e: Event)
    requires ValidRun(t, run) && m < |run| && After(t, run[..m]) == s && run[m] == e
    ensures After(t, run[..m + 1]) == Apply(t, s, e)
  {
    AfterStep(t, run, m);
  }

  // ---------------------------------------------------------------- deadlock-freedom

  /** After any history, each unfinished piece has a block in flight or the manager would grant one. */
  lemma NoPieceIsStuck(t: Torrent, run: seq<Event>, i: nat)
    requires ValidRun(t, run) && i < |t.hashes| && !After(t, run).finished[i]
    ensures (exists k :: k in After(t, run).pendingBlocks && k.piece == i) || Grantable(t, After(t, run), i).Some?
  {
    RunInv(t, run);
    NeverStuck(t, After(t, run), GotIn(t, run), i);
  }

  /** With nothing in flight, a peer that has a missing piece is always given a block. */
  lemma IdleManagerGrants(t: Torrent, run: seq<Event>, peer: seq<bv8>, i: nat)
    requires ValidRun(t, run) && ValidPeer(t, peer)
    requires After(t, run).pendingBlocks == map[]
    requires i < |t.hashes| && HasBit(peer, i) && !After(t, run).finished[i]
    ensures RequestResult(t, After(t, run), peer).Some?
  {
    RunInv(t, run);
    NoPieceIsStuck(t, run, i);
    assert Eligible(t, After(t, run), peer, i);
  }

  // ---------------------------------------------------------------- grants and removals

  predicate GrantsKey(t: Torrent, s: State, e: Event, k: Key)
    requires ValidTorrent(t) && Shape(t, s) && ValidEvent(t, e)
  {
    && e.Requested?
    && var r := RequestResult(t, s, e.peer);
       r.Some? && Key(r.value.piece, r.value.offset) == k
  }

  /** A delivery that reached the erase, or a successful return, of a block in flight. */
  predicate RemovesKey(t: Torrent, s: State, e: Event, k: Key)
    requires ValidTorrent(t) && Shape(t, s) && ValidEvent(t, e)
  {
    match e
    case Requested(_) => false
    case Delivered(i, offset, data) =>
      var v := Judge(t, s, i, offset, data);
      k == Key(i, offset) && k in s.pendingBlocks && !v.AlreadyFinished? && !v.OutOfBounds?
    case Returned(b) => k == Key(b.piece, b.offset) && Returns(s, b)
  }

  ghost function Grants(t: Torrent, run: seq<Event>, k: Key): nat
    requires ValidRun(t, run)
  {
    if run == [] then 0
    else
      var before := run[..|run| - 1];
      Grants(t, before, k) + if GrantsKey(t, After(t, before), run[|run| - 1], k) then 1 else 0
  }

  ghost function Removals(t: Torrent, run: seq<Event>, k: Key): nat
    requires ValidRun(t, run)
  {
    if run == [] then 0
    else
      var before := run[..|run| - 1];
      Removals(t, before, k) + if RemovesKey(t, After(t, before), run[|run| - 1], k) then 1 else 0
  }

  lemma PendingChange(t: Torrent, s: State, e: Event, k: Key)
    requires ValidTorrent(t) && Shape(t, s) && ValidEvent(t, e)
    ensures GrantsKey(t, s, e, k) ==> k !in s.pendingBlocks
    ensures k in Apply(t, s, e).pendingBlocks <==>
            GrantsKey(t, s, e, k) || (k in s.pendingBlocks && !RemovesKey(t, s, e, k))
  {
    if e.Requested? {
      var i := Pick(t, s, e.peer, 0);
      if i.Some? {
        NextFreeInside(s.pendingBlocks, i.value, s.nextOffsets[i.value], PieceLength(t, i.value));
      }
    }
  }

  /** Accounting: a block was granted once more than it was removed exactly while it is in flight. */
  lemma {:induction false} GrantsBalance(t: Torrent, run: seq<Event>, k: Key)
    requires ValidRun(t, run)
    ensures Grants(t, run, k) == Removals(t, run, k) + if k in After(t, run).pendingBlocks then 1 else 0
  {
    if run != [] {
      var before := run[..|run| - 1];
      GrantsBalance(t, before, k);
      PendingChange(t, After(t, before), run[|run| - 1], k);
    }
  }

  lemma InFlightStep(t: Torrent, run: seq<Event>, m: nat, k: Key)
    requires ValidRun(t, run) && m < |run|
    ensures k in After(t, run[..m + 1]).pendingBlocks <==>
            GrantsKey(t, After(t, run[..m]), run[m], k) ||
            (k in After(t, run[..m]).pendingBlocks && !RemovesKey(t, After(t, run[..m]), run[m], k))
  {
    AfterStep(t, run, m);
    PendingChange(t, After(t, run[..m]), run[m], k);
  }

  /** Something that comes to hold does so at some step. */
  lemma {:induction false} Turns(p: nat -> bool, m: nat, n: nat) returns (g: nat)
    requires m <= n && !p(m) && p(n)
    ensures m <= g < n && !p(g) && p(g + 1)
    decreases n
  {
    g := n - 1;
    if p(g) {
      g := Turns(p, m, g);
    }
  }

  ghost function InFlight(t: Torrent, run: seq<Event>, k: Key): nat -> bool
    requires ValidRun(t, run)
  {
    (m: nat) => m <= |run| && k in After(t, run[..m]).pendingBlocks
  }

  ghost function NotInFlight(t: Torrent, run: seq<Event>, k: Key): nat -> bool
    requires ValidRun(t, run)
  {
    (m: nat) => m <= |run| && k !in After(t, run[..m]).pendingBlocks
  }

  lemma ComesInFlight(t: Torrent, run: seq<Event>, m: nat, k: Key)
    requires ValidRun(t, run) && m < |run| && !InFlight(t, run, k)(m) && InFlight(t, run, k)(m + 1)
    ensures GrantsKey(t, After(t, run[..m]), run[m], k)
  {
    InFlightStep(t, run, m, k);
  }

  lemma LeavesFlight(t: Torrent, run: seq<Event>, m: nat, k: Key)
    requires ValidRun(t, run) && m < |run| && !NotInFlight(t, run, k)(m) && NotInFlight(t, run, k)(m + 1)
    ensures RemovesKey(t, After(t, run[..m]), run[m], k)
  {
    InFlightStep(t, run, m, k);
  }

  /** A block that came to be in flight was granted. */
  lemma GrantedSince(t: Torrent, run: seq<Event>, m: nat, n: nat, k: Key) returns (g: nat)
    requires ValidRun(t, run) && m <= n <= |run|
    requires k !in After(t, run[..m]).pendingBlocks && k in After(t, run[..n]).pendingBlocks
    ensures m <= g < n && GrantsKey(t, After(t, run[..g]), run[g], k)
  {
    g := Turns(InFlight(t, run, k), m, n);
    ComesInFlight(t, run, g, k);
  }

  /** A block that is no longer in flight was removed. */
  lemma RemovedSince(t: Torrent, run: seq<Event>, m: nat, n: nat, k: Key) returns (g: nat)
    requires ValidRun(t, run) && m <= n <= |run|
    requires k in After(t, run[..m]).pendingBlocks && k !in After(t, run[..n]).pendingBlocks
    ensures m <= g < n && RemovesKey(t, After(t, run[..g]), run[g], k)
  {
    g := Turns(NotInFlight(t, run, k), m, n);
    LeavesFlight(t, run, g, k);
  }

  /** Between two grants of the same block lies a removal of it. */
  lemma NoGrantInFlight(t: Torrent, run: seq<Event>, a: nat, b: nat, k: Key)
    requires ValidRun(t, run) && a < b < |run|
    requires GrantsKey(t, After(t, run[..a]), run[a], k) && GrantsKey(t, After(t, run[..b]), run[b], k)
    ensures exists m :: a < m < b && RemovesKey(t, After(t, run[..m]), run[m], k)
  {
    InFlightStep(t, run, a, k);
    PendingChange(t, After(t, run[..b]), run[b], k);
    var m := RemovedSince(t, run, a + 1, b, k);
  }

  // ---------------------------------------------------------------- finished pieces

  /** The event at position m is the delivery whose checked hash finished piece i. */
  ghost predicate Finishes(t: Torrent, run: seq<Event>, m: nat, i: nat)
    requires ValidRun(t, run) && m < |run|
  {
    && run[m].Delivered? && run[m].piece == i
    && Judge(t, After(t, run[..m]), i, run[m].offset, run[m].data).Verified?
  }

  lemma FinishedStep(t: Torrent, run: seq<Event>, m: nat, i: nat)
    requires ValidRun(t, run) && m < |run| && i < |t.hashes|
    ensures After(t, run[..m + 1]).finished[i] <==> After(t, run[..m]).finished[i] || Finishes(t, run, m, i)
    ensures Finishes(t, run, m, i) ==> !After(t, run[..m]).finished[i]
  {
    AfterStep(t, run, m);
    FinishedChange(t, After(t, run[..m]), run[m], i);
  }

  /** Only a delivery that verifies a piece finishes one. */
  lemma FinishedChange(t: Torrent, s: State, e: Event, i: nat)
    requires ValidTorrent(t) && Shape(t, s) && ValidEvent(t, e) && i < |t.hashes|
    ensures var now := e.Delivered? && e.piece == i && Judge(t, s, i, e.offset, e.data).Verified?;
            (Apply(t, s, e).finished[i] <==> s.finished[i] || now) && !(now && s.finished[i])
  {
  }

  lemma {:induction false} FinishedForever(t: Torrent, run: seq<Event>, m: nat, n: nat, i: nat)
    requires ValidRun(t, run) && m <= n <= |run| && i < |t.hashes| && After(t, run[..m]).finished[i]
    ensures After(t, run[..n]).finished[i]
    decreases n - m
  {
    if m < n {
      FinishedStep(t, run, m, i);
      FinishedForever(t, run, m + 1, n, i);
    }
  }

  /** A piece is finished exactly when some delivery completed a buffer with the expected hash. */
  lemma {:induction false} FinishedIffVerified(t: Torrent, run: seq<Event>, n: nat, i: nat)
    requires ValidRun(t, run) && n <= |run| && i < |t.hashes|
    ensures After(t, run[..n]).finished[i] <==> exists m :: 0 <= m < n && Finishes(t, run, m, i)
  {
    if n > 0 {
      var before := n - 1;
      FinishedIffVerified(t, run, before, i);
      FinishedStep(t, run, before, i);
      assert After(t, run[..n]).finished[i] <==> After(t, run[..before]).finished[i] || Finishes(t, run, before, i);
    }
  }

  /** A piece is finished at most once, and after that the manager never grants one of its blocks. */
  lemma FinishedOnce(t: Torrent, run: seq<Event>, m: nat, n: nat, i: nat)
    requires ValidRun(t, run) && m < n < |run| && Finishes(t, run, m, i) && i < |t.hashes|
    ensures !Finishes(t, run, n, i)
    ensures forall o :: !GrantsKey(t, After(t, run[..n]), run[n], Key(i, o))
    ensures i !in After(t, run[..n]).pendingPieces
  {
    FinishedStep(t, run, m, i);
    FinishedForever(t, run, m + 1, n, i);
    FinishedStep(t, run, n, i);
    RunInv(t, run[..n]);
    assert PieceOk(t, After(t, run[..n]), GotIn(t, run[..n])[i], i);
  }

  /** isComplete says that every piece is finished; completion is signalled once, at that moment. */
  lemma CompleteIffAllFinished(t: Torrent, run: seq<Event>)
    requires ValidRun(t, run)
    ensures var s := After(t, run);
            && (IsComplete(t, s) <==> forall i :: 0 <= i < |t.hashes| ==> s.finished[i])
            && s.notified == (if |t.hashes| > 0 && IsComplete(t, s) then 1 else 0)
  {
    RunInv(t, run);
    CountTrueBounds(After(t, run).finished);
  }
}
