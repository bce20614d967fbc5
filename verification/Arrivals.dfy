/**
 What a piece's buffer holds in any history: returned blocks, short, misplaced and repeated deliveries
 included. The manager keeps a count of deliveries; here they are kept themselves, since the last reset.
 */
module Arrivals {
  import opened Base
  import opened Pieces
  import opened PieceInvariants
  import opened Runs
  import opened Assembly

  datatype Arrival = Arrival(offset: nat, data: Bytes)

  /** The deliveries counted into a piece since its last reset, in the order they came. */
  ghost function Counted(t: Torrent, run: seq<Event>, i: nat): seq<Arrival>
    requires ValidRun(t, run) && i < |t.hashes|
  {
    if run == [] then []
    else
      var before, e := run[..|run| - 1], run[|run| - 1];
      if !e.Delivered? || e.piece != i then Counted(t, before, i)
      else
        match Judge(t, After(t, before), i, e.offset, e.data)
        case AlreadyFinished => Counted(t, before, i)
        case OutOfBounds => Counted(t, before, i)
        case Mismatch => []
        case Stored => Counted(t, before, i) + [Arrival(e.offset, e.data)]
        case Verified => Counted(t, before, i) + [Arrival(e.offset, e.data)]
  }

  ghost predicate Fit(log: seq<Arrival>, len: nat) {
    forall k :: 0 <= k < |log| ==> log[k].offset + |log[k].data| <= len
  }

  /** A buffer of zeros after the arrivals were copied in one after the other. */
  ghost function Replay(log: seq<Arrival>, len: nat): (buffer: Bytes)
    requires Fit(log, len)
    ensures |buffer| == len
  {
    if log == [] then seq(len, _ => 0)
    else Splice(Replay(log[..|log| - 1], len), log[|log| - 1].offset, log[|log| - 1].data)
  }

  /** What arrived last at each offset. */
  ghost function Latest(log: seq<Arrival>): map<nat, Bytes> {
    if log == [] then map[] else Add(Latest(log[..|log| - 1]), log[|log| - 1].offset, log[|log| - 1].data)
  }

  predicate Covers(a: Arrival, x: nat) {
    a.offset <= x < a.offset + |a.data|
  }

  ghost predicate Arrived(log: seq<Arrival>, x: nat) {
    exists k :: 0 <= k < |log| && Covers(log[k], x)
  }

  /** Each byte is that of the last arrival over it, and zero where nothing arrived. */
  lemma {:induction false} ReplayByte(log: seq<Arrival>, len: nat, x: nat)
    requires Fit(log, len) && x < len
    ensures forall k :: 0 <= k < |log| && Covers(log[k], x) && (forall l :: k < l < |log| ==> !Covers(log[l], x)) ==>
                          Replay(log, len)[x] == log[k].data[x - log[k].offset]
    ensures !Arrived(log, x) ==> Replay(log, len)[x] == 0
  {
    if log != [] {
      var front, last := log[..|log| - 1], log[|log| - 1];
      ReplayByte(front, len, x);
      if !Covers(last, x) {
        assert Replay(log, len)[x] == Replay(front, len)[x];
        forall k | 0 <= k < |log| && Covers(log[k], x) && (forall l :: k < l < |log| ==> !Covers(log[l], x))
          ensures Replay(log, len)[x] == log[k].data[x - log[k].offset]
        {
          assert front[k] == log[k];
        }
      }
    }
  }

  lemma {:induction false} LatestKeys(log: seq<Arrival>)
    ensures forall o :: o in Latest(log) <==> exists k :: 0 <= k < |log| && log[k].offset == o
  {
    if log != [] {
      var front := log[..|log| - 1];
      LatestKeys(front);
      forall o | o in Latest(log)
        ensures exists k :: 0 <= k < |log| && log[k].offset == o
      {
        if o in Latest(front) {
          var k :| 0 <= k < |front| && front[k].offset == o;
          assert log[k].offset == o;
        } else {
          assert log[|log| - 1].offset == o;
        }
      }
      forall k | 0 <= k < |log|
        ensures log[k].offset in Latest(log)
      {
        assert k < |front| ==> front[k] == log[k];
      }
    }
  }

  // ---------------------------------------------------------------- the log and the manager's fields

  /** In every history the count, the buffer and the received blocks are those of the log. */
  lemma {:induction false} CountedInv(t: Torrent, run: seq<Event>, i: nat)
    requires ValidRun(t, run) && i < |t.hashes|
    ensures var log, len, s := Counted(t, run, i), PieceLength(t, i), After(t, run);
            && GotIn(t, run)[i] == Latest(log) && Fit(log, len)
            && (!s.finished[i] ==> Received(s, i) == |log| && Opened(t, s, i).data == Replay(log, len))
  {
    if run != [] {
      var before, e := run[..|run| - 1], run[|run| - 1];
      CountedInv(t, before, i);
      RunInv(t, before);
      if e.Delivered? && e.piece == i {
        CountedStep(t, run, i, e.offset, e.data);
      } else {
        UncountedStep(t, After(t, before), e, i);
      }
    }
  }

  lemma UncountedStep(t: Torrent, s: State, e: Event, i: nat)
    requires ValidTorrent(t) && Shape(t, s) && ValidEvent(t, e) && i < |t.hashes|
    requires e.Delivered? ==> e.piece != i
    ensures var s' := Apply(t, s, e);
            s'.finished[i] == s.finished[i] && Received(s', i) == Received(s, i) && Opened(t, s', i) == Opened(t, s, i)
  {
  }

  lemma CountedStep(t: Torrent, run: seq<Event>, i: nat, offset: nat, data: Bytes)
    requires ValidRun(t, run) && i < |t.hashes| && run != [] && run[|run| - 1] == Delivered(i, offset, data)
    requires var before := run[..|run| - 1];
             var log, len, s := Counted(t, before, i), PieceLength(t, i), After(t, before);
             && GotIn(t, before)[i] == Latest(log) && Fit(log, len)
             && (!s.finished[i] ==> Received(s, i) == |log| && Opened(t, s, i).data == Replay(log, len))
    ensures var log, len, s := Counted(t, run, i), PieceLength(t, i), After(t, run);
            && GotIn(t, run)[i] == Latest(log) && Fit(log, len)
            && (!s.finished[i] ==> Received(s, i) == |log| && Opened(t, s, i).data == Replay(log, len))
  {
    var before := run[..|run| - 1];
    var log, len, s := Counted(t, before, i), PieceLength(t, i), After(t, before);
    var v := Judge(t, s, i, offset, data);
    if v.Stored? || v.Verified? {
      LogGrows(log, Arrival(offset, data), len);
      if v.Stored? {
        StoredState(t, s, i, offset, data);
      }
    }
  }

  lemma LogGrows(log: seq<Arrival>, a: Arrival, len: nat)
    requires Fit(log, len) && a.offset + |a.data| <= len
    ensures Fit(log + [a], len)
    ensures Replay(log + [a], len) == Splice(Replay(log, len), a.offset, a.data)
    ensures Latest(log + [a]) == Add(Latest(log), a.offset, a.data)
  {
    assert (log + [a])[..|log|] == log;
  }

  /** The deliveries that a hash check takes into account: those counted before and the one that sets it off. */
  ghost function CheckedLog(t: Torrent, run: seq<Event>, i: nat, offset: nat, data: Bytes): seq<Arrival>
    requires ValidRun(t, run) && i < |t.hashes|
  {
    Counted(t, run, i) + [Arrival(offset, data)]
  }

  ghost predicate SetsOffCheck(t: Torrent, run: seq<Event>, i: nat, offset: nat, data: Bytes)
    requires ValidRun(t, run) && i < |t.hashes|
  {
    var v := Judge(t, After(t, run), i, offset, data);
    v.Verified? || v.Mismatch?
  }

  /**
   In any history, what a hash check sees is the deliveries since the last reset laid over zeros in
   the order they came, as many of them as the piece has blocks.
   */
  lemma CheckedIsReplay(t: Torrent, run: seq<Event>, i: nat, offset: nat, data: Bytes)
    requires ValidRun(t, run) && i < |t.hashes| && SetsOffCheck(t, run, i, offset, data)
    ensures var log, len := CheckedLog(t, run, i, offset, data), PieceLength(t, i);
            && Fit(log, len) && |log| == BlockCount(len)
            && Checked(t, After(t, run), i, offset, data) == Replay(log, len)
            && Latest(log) == Add(GotIn(t, run)[i], offset, data)
  {
    CountedInv(t, run, i);
    RunInv(t, run);
    assert PieceOk(t, After(t, run), GotIn(t, run)[i], i);
    LogGrows(Counted(t, run, i), Arrival(offset, data), PieceLength(t, i));
  }

  // ---------------------------------------------------------------- when a check sees the whole piece

  /** Each block of the piece arrived in full. */
  ghost predicate BlocksIn(log: seq<Arrival>, len: nat) {
    forall o: nat :: OnGrid(o, len) ==> exists k :: 0 <= k < |log| && log[k].offset == o && |log[k].data| == Clamp(o, len)
  }

  ghost predicate FullBlock(a: Arrival, len: nat) {
    OnGrid(a.offset, len) && |a.data| == Clamp(a.offset, len)
  }

  ghost predicate FullBlocks(log: seq<Arrival>, len: nat) {
    forall k :: 0 <= k < |log| ==> FullBlock(log[k], len)
  }

  ghost predicate NoneTwice(log: seq<Arrival>) {
    forall j, k :: 0 <= j < k < |log| ==> log[j].offset != log[k].offset
  }

  lemma NoneTwiceGrows(front: seq<Arrival>, a: Arrival)
    ensures NoneTwice(front + [a]) <==> NoneTwice(front) && a.offset !in Latest(front)
  {
    LatestKeys(front);
    var log := front + [a];
    if NoneTwice(log) {
      assert forall k :: 0 <= k < |front| ==> front[k] == log[k] && log[k].offset != log[|front|].offset;
    }
  }

  lemma LatestSize(log: seq<Arrival>, a: Arrival)
    ensures |Latest(log + [a])| == |Latest(log)| + if a.offset in Latest(log) then 0 else 1
  {
    var got, more := Latest(log), Latest(log + [a]);
    assert (log + [a])[..|log|] == log;
    assert more == Add(got, a.offset, a.data);
    if a.offset in got {
      assert more.Keys == got.Keys;
      assert |more| == |more.Keys| && |got| == |got.Keys|;
    } else {
      AddSize(got, a.offset, a.data);
    }
  }

  /** There are as many different offsets as arrivals exactly when none arrived twice. */
  lemma {:induction false} OffsetCount(log: seq<Arrival>)
    ensures |Latest(log)| <= |log|
    ensures |Latest(log)| == |log| <==> NoneTwice(log)
  {
    if log != [] {
      var front, last := log[..|log| - 1], log[|log| - 1];
      assert front + [last] == log;
      OffsetCount(front);
      NoneTwiceGrows(front, last);
      LatestSize(front, last);
    }
  }

  /** With as many arrivals as blocks: all blocks are in exactly when each arrival is another full block. */
  lemma BlocksInIff(log: seq<Arrival>, len: nat)
    requires |log| == BlockCount(len)
    ensures BlocksIn(log, len) <==> FullBlocks(log, len) && NoneTwice(log)
  {
    OffsetCount(log);
    LatestKeys(log);
    var grid, offsets := Grid(BlockCount(len)), Latest(log).Keys;
    forall o: nat
      ensures o in grid <==> OnGrid(o, len)
    {
      GridIsAll(len, o);
    }
    assert |Latest(log)| == |offsets|;
    if BlocksIn(log, len) {
      AllDifferent(log, len, grid, offsets);
    }
    if FullBlocks(log, len) && NoneTwice(log) {
      SubsetSize(offsets, grid);
      forall o: nat | OnGrid(o, len)
        ensures exists k :: 0 <= k < |log| && log[k].offset == o && |log[k].data| == Clamp(o, len)
      {
        var k :| 0 <= k < |log| && log[k].offset == o;
        assert FullBlock(log[k], len);
      }
    }
  }

  lemma AllDifferent(log: seq<Arrival>, len: nat, grid: set<nat>, offsets: set<nat>)
    requires BlocksIn(log, len) && |offsets| <= |log| == |grid|
    requires forall o: nat :: o in grid <==> OnGrid(o, len)
    requires forall o :: o in offsets <==> exists k :: 0 <= k < |log| && log[k].offset == o
    requires |offsets| == |log| <==> NoneTwice(log)
    ensures FullBlocks(log, len) && NoneTwice(log)
  {
    SubsetSize(grid, offsets);
    forall k | 0 <= k < |log|
      ensures FullBlock(log[k], len)
    {
      assert log[k].offset in offsets;
      var j :| 0 <= j < |log| && log[j].offset == log[k].offset && |log[j].data| == Clamp(log[k].offset, len);
      assert j == k;
    }
  }

  lemma HoldsGrows(front: seq<Arrival>, a: Arrival, len: nat)
    requires Fit(front, len) && Holds(Replay(front, len), Latest(front), len) && FullBlock(a, len)
    ensures Fit(front + [a], len) && Holds(Replay(front + [a], len), Latest(front + [a]), len)
  {
    LogGrows(front, a, len);
    HoldsAfterSplice(Replay(front, len), Latest(front), len, a.offset, a.data);
  }

  /** Full blocks lie side by side in the buffer, however often each arrived. */
  lemma {:induction false} FullReplay(log: seq<Arrival>, len: nat)
    requires FullBlocks(log, len)
    ensures Fit(log, len) && Holds(Replay(log, len), Latest(log), len)
  {
    if log != [] {
      var front, last := log[..|log| - 1], log[|log| - 1];
      assert FullBlock(last, len);
      FullReplay(front, len);
      HoldsGrows(front, last, len);
      assert front + [last] == log;
    }
  }

  /**
   In any history, returns included: a hash check sees every block of the piece in full exactly when
   each delivery since the last reset was a full block on the grid and none came twice; and what it
   sees is then the blocks in offset order. If all were full blocks but some came twice, each received
   block is in its place and others are missing.
   */
  lemma CheckIsWholeIff(t: Torrent, run: seq<Event>, i: nat, offset: nat, data: Bytes)
    requires ValidRun(t, run) && i < |t.hashes| && SetsOffCheck(t, run, i, offset, data)
    ensures var log, len := CheckedLog(t, run, i, offset, data), PieceLength(t, i);
            var more, seen := Add(GotIn(t, run)[i], offset, data), Checked(t, After(t, run), i, offset, data);
            && (BlocksIn(log, len) <==> FullBlocks(log, len) && NoneTwice(log))
            && (FullBlocks(log, len) ==> Holds(seen, more, len) && (AllReceived(more, len) <==> NoneTwice(log)))
            && (BlocksIn(log, len) ==> seen == Assemble(more, 0, len))
  {
    var log, len := CheckedLog(t, run, i, offset, data), PieceLength(t, i);
    var more := Add(GotIn(t, run)[i], offset, data);
    CheckedIsReplay(t, run, i, offset, data);
    BlocksInIff(log, len);
    if FullBlocks(log, len) {
      FullReplay(log, len);
      OffsetCount(log);
      AllReceivedIffCount(more, len);
      if NoneTwice(log) {
        SlicesAssemble(Checked(t, After(t, run), i, offset, data), more, 0);
      }
    }
  }

  /** The manager's own count shows whether a delivery came twice. */
  lemma CountShowsTwice(t: Torrent, run: seq<Event>, i: nat, offset: nat, data: Bytes)
    requires ValidRun(t, run) && i < |t.hashes| && !After(t, run).finished[i]
    ensures NoneTwice(CheckedLog(t, run, i, offset, data)) <==>
            Received(After(t, run), i) == |GotIn(t, run)[i]| && offset !in GotIn(t, run)[i]
  {
    var log := Counted(t, run, i);
    CountedInv(t, run, i);
    OffsetCount(log);
    NoneTwiceGrows(log, Arrival(offset, data));
  }

  // ---------------------------------------------------------------- the same for single bytes

  ghost predicate BytesIn(log: seq<Arrival>, len: nat) {
    forall x: nat :: x < len ==> Arrived(log, x)
  }

  /** Each arrival starts on the grid and ends within its block, as the answer to a request does. */
  ghost predicate WithinBlocks(log: seq<Arrival>, len: nat) {
    forall k :: 0 <= k < |log| ==> OnGrid(log[k].offset, len) && |log[k].data| <= Clamp(log[k].offset, len)
  }

  /** Blocks do not overlap, so only an arrival in full covers the end of its block. */
  lemma LastByteCovered(log: seq<Arrival>, len: nat, o: nat)
    requires WithinBlocks(log, len) && BytesIn(log, len) && OnGrid(o, len)
    ensures exists k :: 0 <= k < |log| && log[k].offset == o && |log[k].data| == Clamp(o, len)
  {
    var x := o + Clamp(o, len) - 1;
    assert Arrived(log, x);
    var k :| 0 <= k < |log| && Covers(log[k], x);
    if log[k].offset != o {
      GridApart(o, log[k].offset, len);
    }
  }

  lemma ByteInBlock(log: seq<Arrival>, len: nat, x: nat)
    requires BlocksIn(log, len) && x < len
    ensures Arrived(log, x)
  {
    var o := x - x % BLOCK_LEN;
    assert OnGrid(o, len);
    var k :| 0 <= k < |log| && log[k].offset == o && |log[k].data| == Clamp(o, len);
    assert Covers(log[k], x);
  }

  lemma AllBytesIffBlocks(log: seq<Arrival>, len: nat)
    requires |log| == BlockCount(len)
    ensures WithinBlocks(log, len) && BytesIn(log, len) <==> FullBlocks(log, len) && NoneTwice(log)
  {
    BlocksInIff(log, len);
    if WithinBlocks(log, len) && BytesIn(log, len) {
      forall o: nat | OnGrid(o, len)
        ensures exists k :: 0 <= k < |log| && log[k].offset == o && |log[k].data| == Clamp(o, len)
      {
        LastByteCovered(log, len, o);
      }
    }
    if FullBlocks(log, len) && NoneTwice(log) {
      FullStaysWithin(log, len);
      forall x: nat | x < len
        ensures Arrived(log, x)
      {
        ByteInBlock(log, len, x);
      }
    }
  }

  lemma FullStaysWithin(log: seq<Arrival>, len: nat)
    requires FullBlocks(log, len)
    ensures WithinBlocks(log, len)
  {
    assert forall k :: 0 <= k < |log| ==> FullBlock(log[k], len);
  }

  /**
   Byte by byte: with deliveries that stay within their blocks, a hash check sees no byte that never
   arrived exactly when every delivery was full and none came twice.
   */
  lemma CheckSeesAllBytesIff(t: Torrent, run: seq<Event>, i: nat, offset: nat, data: Bytes)
    requires ValidRun(t, run) && i < |t.hashes| && SetsOffCheck(t, run, i, offset, data)
    ensures var log, len := CheckedLog(t, run, i, offset, data), PieceLength(t, i);
            WithinBlocks(log, len) && BytesIn(log, len) <==> FullBlocks(log, len) && NoneTwice(log)
  {
    CheckedIsReplay(t, run, i, offset, data);
    AllBytesIffBlocks(CheckedLog(t, run, i, offset, data), PieceLength(t, i));
  }
}
