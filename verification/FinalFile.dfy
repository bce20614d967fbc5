/**
 What a history leaves in the file. deliverBlock checks the assembled piece but writes only the block
 that was delivered last, so there are two files to speak of: the one the code produces and the one
 the verified pieces make up. They agree exactly when each piece was finished by a delivery of all of it.
 */
module FinalFile {
  import opened Base
  import opened Pieces
  import opened PieceInvariants
  import opened Runs
  import opened Assembly
  import opened FileLayout

  datatype Write = Write(piece: nat, bytes: Bytes)

  /** The file after some writes, each at its piece's start. */
  function FileOf(existing: Bytes, writes: seq<Write>, pieceLength: nat): Bytes {
    if writes == [] then existing
    else
      var last := writes[|writes| - 1];
      WriteAt(FileOf(existing, writes[..|writes| - 1], pieceLength), last.piece * pieceLength, last.bytes)
  }

  /** The event's write, if it finishes a piece: the delivered block, or the verified piece. */
  function WriteOf(t: Torrent, s: State, e: Event, whole: bool): seq<Write>
    requires ValidTorrent(t) && Shape(t, s) && ValidEvent(t, e)
  {
    if e.Delivered? && Judge(t, s, e.piece, e.offset, e.data).Verified? then
      [Write(e.piece, if whole then Checked(t, s, e.piece, e.offset, e.data) else e.data)]
    else []
  }

  /** The writes of a history: as coded, or of the whole verified pieces. */
  ghost function Writes(t: Torrent, run: seq<Event>, whole: bool): seq<Write>
    requires ValidRun(t, run)
  {
    if run == [] then []
    else
      var before := run[..|run| - 1];
      Writes(t, before, whole) + WriteOf(t, After(t, before), run[|run| - 1], whole)
  }

  ghost function CodedFile(t: Torrent, run: seq<Event>, existing: Bytes): Bytes
    requires ValidRun(t, run)
  {
    FileOf(existing, Writes(t, run, false), t.pieceLength)
  }

  ghost function VerifiedFile(t: Torrent, run: seq<Event>, existing: Bytes): Bytes
    requires ValidRun(t, run)
  {
    FileOf(existing, Writes(t, run, true), t.pieceLength)
  }

  /** The verified bytes of each finished piece. */
  ghost function Verified(t: Torrent, run: seq<Event>): map<nat, Bytes>
    requires ValidRun(t, run)
  {
    if run == [] then map[]
    else
      var before, e := run[..|run| - 1], run[|run| - 1];
      var s := After(t, before);
      if e.Delivered? && Judge(t, s, e.piece, e.offset, e.data).Verified?
      then Add(Verified(t, before), e.piece, Checked(t, s, e.piece, e.offset, e.data))
      else Verified(t, before)
  }

  /** Recorded pieces have the expected hash and length, and are exactly the finished ones. */
  ghost predicate Conforms(t: Torrent, s: State, pieces: map<nat, Bytes>)
    requires ValidTorrent(t) && Shape(t, s)
  {
    && (forall i :: i in pieces <==> 0 <= i < |t.hashes| && s.finished[i])
    && forall i :: i in pieces ==> t.sha1(pieces[i]) == t.hashes[i] && |pieces[i]| == PieceLength(t, i)
  }

  lemma CheckedFits(t: Torrent, s: State, got: Got, i: nat, offset: nat, data: Bytes)
    requires ValidTorrent(t) && Inv(t, s, got) && i < |t.hashes| && Judge(t, s, i, offset, data).Verified?
    ensures var q := Checked(t, s, i, offset, data); |q| == PieceLength(t, i) && t.sha1(q) == t.hashes[i]
    ensures Deliver(t, s, i, offset, data).finished == s.finished[i := true]
  {
    assert PieceOk(t, s, got[i], i);
  }

  lemma FinishedConforms(t: Torrent, s: State, s': State, i: nat, q: Bytes, pieces: map<nat, Bytes>)
    requires ValidTorrent(t) && Shape(t, s) && Shape(t, s') && Conforms(t, s, pieces) && i < |t.hashes|
    requires s'.finished == s.finished[i := true] && |q| == PieceLength(t, i) && t.sha1(q) == t.hashes[i]
    ensures Conforms(t, s', Add(pieces, i, q))
  {
  }

  lemma OthersConform(t: Torrent, s: State, e: Event, pieces: map<nat, Bytes>)
    requires ValidTorrent(t) && Shape(t, s) && ValidEvent(t, e) && Conforms(t, s, pieces)
    requires e.Delivered? ==> !Judge(t, s, e.piece, e.offset, e.data).Verified?
    ensures Conforms(t, Apply(t, s, e), pieces)
  {
    assert Apply(t, s, e).finished == s.finished;
  }

  /** Only bytes with the expected hash are ever recorded as a piece, and exactly for finished pieces. */
  lemma {:induction false} VerifiedHashes(t: Torrent, run: seq<Event>)
    requires ValidRun(t, run)
    ensures Conforms(t, After(t, run), Verified(t, run))
  {
    if run != [] {
      var before, e := run[..|run| - 1], run[|run| - 1];
      VerifiedHashes(t, before);
      RunInv(t, before);
      if e.Delivered? && Judge(t, After(t, before), e.piece, e.offset, e.data).Verified? {
        var s, q := After(t, before), Checked(t, After(t, before), e.piece, e.offset, e.data);
        CheckedFits(t, s, GotIn(t, before), e.piece, e.offset, e.data);
        FinishedConforms(t, s, After(t, run), e.piece, q, Verified(t, before));
      } else {
        OthersConform(t, After(t, before), e, Verified(t, before));
      }
    }
  }

  lemma NeverVerifiedAgain(t: Torrent, s: State, pieces: map<nat, Bytes>, e: Event, i: nat)
    requires ValidTorrent(t) && Shape(t, s) && ValidEvent(t, e) && Conforms(t, s, pieces) && i in pieces
    ensures e.Delivered? && Judge(t, s, e.piece, e.offset, e.data).Verified? ==> e.piece != i
  {
  }

  /** What was recorded for a finished piece never changes. */
  lemma {:induction false} VerifiedForever(t: Torrent, run: seq<Event>, m: nat, i: nat)
    requires ValidRun(t, run) && m <= |run| && i in Verified(t, run[..m])
    ensures i in Verified(t, run) && Verified(t, run)[i] == Verified(t, run[..m])[i]
  {
    if m == |run| {
      assert run[..m] == run;
    } else {
      var before := run[..|run| - 1];
      assert before[..m] == run[..m];
      VerifiedForever(t, before, m, i);
      assert Conforms(t, After(t, before), Verified(t, before)) by {
        VerifiedHashes(t, before);
      }
      NeverVerifiedAgain(t, After(t, before), Verified(t, before), run[|run| - 1], i);
    }
  }

  /** The file holds the verified bytes in the region of every finished piece. */
  ghost predicate RegionsHold(t: Torrent, pieces: map<nat, Bytes>, file: Bytes)
    requires ValidTorrent(t)
  {
    forall i: nat, x: nat :: i in pieces && InRegion(t, i, x) && x - i * t.pieceLength < |pieces[i]| ==>
                               x < |file| && file[x] == pieces[i][x - i * t.pieceLength]
  }

  lemma WriteKeepsRegions(t: Torrent, pieces: map<nat, Bytes>, file: Bytes, i: nat, bytes: Bytes)
    requires ValidTorrent(t) && RegionsHold(t, pieces, file) && |bytes| == PieceLength(t, i)
    ensures RegionsHold(t, Add(pieces, i, bytes), WriteAt(file, i * t.pieceLength, bytes))
  {
    var pieces', file' := Add(pieces, i, bytes), WriteAt(file, i * t.pieceLength, bytes);
    forall j: nat, x: nat | j in pieces' && InRegion(t, j, x) && x - j * t.pieceLength < |pieces'[j]|
      ensures x < |file'| && file'[x] == pieces'[j][x - j * t.pieceLength]
    {
      if j != i {
        if InRegion(t, i, x) {
          RegionUnique(t, i, j, x);
        }
        assert pieces'[j] == pieces[j];
        assert x < |file| && file[x] == pieces[j][x - j * t.pieceLength];
      }
    }
  }

  /** After every step of every history, each finished piece's region holds its bytes, whatever the file held before. */
  lemma {:induction false} VerifiedRegions(t: Torrent, run: seq<Event>, existing: Bytes)
    requires ValidRun(t, run)
    ensures RegionsHold(t, Verified(t, run), VerifiedFile(t, run, existing))
  {
    if run != [] {
      var before, e := run[..|run| - 1], run[|run| - 1];
      VerifiedRegions(t, before, existing);
      RunInv(t, before);
      var s := After(t, before);
      var writes := WriteOf(t, s, e, true);
      if writes != [] {
        assert PieceOk(t, s, GotIn(t, before)[e.piece], e.piece);
        WriteKeepsRegions(t, Verified(t, before), VerifiedFile(t, before, existing), e.piece, writes[0].bytes);
        AppendWrite(existing, Writes(t, before, true), writes[0], t.pieceLength);
      } else {
        assert Writes(t, run, true) == Writes(t, before, true);
      }
    }
  }

  /** A piece's bytes are in the file from the step that finished it on, and stay the same. */
  lemma RegionsKeep(t: Torrent, run: seq<Event>, m: nat, i: nat, x: nat, existing: Bytes)
    requires ValidRun(t, run) && m <= |run| && i in Verified(t, run[..m]) && x < |Verified(t, run[..m])[i]|
    ensures var at, file := StartOf(i, t.pieceLength) + x, VerifiedFile(t, run, existing);
            at < |file| && file[at] == Verified(t, run[..m])[i][x]
  {
    VerifiedForever(t, run, m, i);
    ByteStays(t, run, i, x, existing);
  }

  lemma ByteStays(t: Torrent, run: seq<Event>, i: nat, x: nat, existing: Bytes)
    requires ValidRun(t, run) && i in Verified(t, run) && x < |Verified(t, run)[i]|
    ensures var at, file := StartOf(i, t.pieceLength) + x, VerifiedFile(t, run, existing);
            at < |file| && file[at] == Verified(t, run)[i][x]
  {
    VerifiedHashes(t, run);
    VerifiedRegions(t, run, existing);
    var lo, pieces := StartOf(i, t.pieceLength), Verified(t, run);
    PieceByte(t, pieces, VerifiedFile(t, run, existing), i, lo, x);
  }

  lemma PieceByte(t: Torrent, pieces: map<nat, Bytes>, file: Bytes, i: nat, lo: nat, x: nat)
    requires ValidTorrent(t) && lo == i * t.pieceLength && RegionsHold(t, pieces, file)
    requires i in pieces && |pieces[i]| == PieceLength(t, i) && x < |pieces[i]|
    ensures lo + x < |file| && file[lo + x] == pieces[i][x]
  {
    ByteHeld(t, pieces, file, i, lo, lo + x);
  }

  lemma AppendWrite(existing: Bytes, writes: seq<Write>, w: Write, pieceLength: nat)
    ensures FileOf(existing, writes + [w], pieceLength) ==
            WriteAt(FileOf(existing, writes, pieceLength), w.piece * pieceLength, w.bytes)
  {
    assert (writes + [w])[..|writes|] == writes;
  }

  // ---------------------------------------------------------------- the completed file

  function Join(pieces: map<nat, Bytes>, n: nat): Bytes
    requires forall i: nat :: i < n ==> i in pieces
  {
    if n == 0 then [] else Join(pieces, n - 1) + pieces[n - 1]
  }

  /** Where the first k pieces end. */
  function EndOf(t: Torrent, k: nat): nat {
    if k == |t.hashes| then t.fileLength else k * t.pieceLength
  }

  lemma PrefixGrows(file: Bytes, lo: nat, piece: Bytes)
    requires lo + |piece| <= |file|
    requires forall x: nat :: lo <= x < lo + |piece| ==> file[x] == piece[x - lo]
    ensures file[..lo + |piece|] == file[..lo] + piece
  {
  }

  lemma {:induction false} JoinedPrefix(t: Torrent, pieces: map<nat, Bytes>, file: Bytes, k: nat)
    requires Fits(t) && k <= |t.hashes|
    requires forall i: nat :: i < |t.hashes| ==> PieceLength(t, i) == TrueLength(t, i)
    requires forall i: nat :: i < |t.hashes| ==> i in pieces && |pieces[i]| == PieceLength(t, i)
    requires RegionsHold(t, pieces, file)
    ensures EndOf(t, k) <= |file| && file[..EndOf(t, k)] == Join(pieces, k)
  {
    if k == 0 {
      LastPiece(t);
    } else {
      var i := k - 1;
      JoinedPrefix(t, pieces, file, i);
      StepOfEnd(t, i);
      PieceHeld(t, pieces, file, i, EndOf(t, i));
      PrefixGrows(file, EndOf(t, i), pieces[i]);
    }
  }

  /** A held piece lies in the file from its start on. */
  lemma PieceHeld(t: Torrent, pieces: map<nat, Bytes>, file: Bytes, i: nat, lo: nat)
    requires ValidTorrent(t) && lo == i * t.pieceLength && RegionsHold(t, pieces, file)
    requires i in pieces && |pieces[i]| == PieceLength(t, i)
    ensures lo + |pieces[i]| <= |file| && forall x: nat :: lo <= x < lo + |pieces[i]| ==> file[x] == pieces[i][x - lo]
  {
    ByteHeld(t, pieces, file, i, lo, lo + |pieces[i]| - 1);
    forall x: nat | lo <= x < lo + |pieces[i]|
      ensures file[x] == pieces[i][x - lo]
    {
      ByteHeld(t, pieces, file, i, lo, x);
    }
  }

  lemma ByteHeld(t: Torrent, pieces: map<nat, Bytes>, file: Bytes, i: nat, lo: nat, x: nat)
    requires ValidTorrent(t) && lo == i * t.pieceLength && RegionsHold(t, pieces, file)
    requires i in pieces && |pieces[i]| == PieceLength(t, i) && lo <= x < lo + |pieces[i]|
    ensures x < |file| && file[x] == pieces[i][x - lo]
  {
    assert InRegion(t, i, x);
  }

  lemma StepOfEnd(t: Torrent, i: nat)
    requires ValidTorrent(t) && i < |t.hashes| && PieceLength(t, i) == TrueLength(t, i)
    ensures EndOf(t, i) == i * t.pieceLength && EndOf(t, i + 1) == EndOf(t, i) + PieceLength(t, i)
  {
  }

  /**
   A completed download: with whole verified pieces written, the file's bytes are the concatenation of
   byte strings with the expected hashes.
   */
  lemma CompletedFile(t: Torrent, run: seq<Event>, existing: Bytes)
    requires ValidRun(t, run) && IsComplete(t, After(t, run))
    requires Fits(t) && Dropped(t) % t.pieceLength == 0
    ensures forall i: nat :: i < |t.hashes| ==> i in Verified(t, run) && t.sha1(Verified(t, run)[i]) == t.hashes[i]
    ensures var file := VerifiedFile(t, run, existing);
            t.fileLength <= |file| && file[..t.fileLength] == Join(Verified(t, run), |t.hashes|)
  {
    VerifiedHashes(t, run);
    CompleteIffAllFinished(t, run);
    VerifiedRegions(t, run, existing);
    LengthsExact(t);
    JoinedPrefix(t, Verified(t, run), VerifiedFile(t, run, existing), |t.hashes|);
  }

  /** In an honest run the verified pieces are the true contents, with no assumption on the hash. */
  lemma {:induction false} HonestVerified(t: Torrent, content: seq<Bytes>, run: seq<Event>)
    requires HonestRun(t, content, run)
    ensures forall i :: i in Verified(t, run) ==> i < |content| && Verified(t, run)[i] == content[i]
  {
    if run != [] {
      var before, e := run[..|run| - 1], run[|run| - 1];
      HonestPrefix(t, content, run);
      HonestVerified(t, content, before);
      assert HonestEvent(t, content, After(t, before), e);
      if e.Delivered? {
        HonestNeverRefused(t, content, before, e.piece, e.offset, e.data);
      }
    }
  }

  function Concat(content: seq<Bytes>): Bytes {
    if content == [] then [] else Concat(content[..|content| - 1]) + content[|content| - 1]
  }

  lemma {:induction false} JoinIsConcat(pieces: map<nat, Bytes>, content: seq<Bytes>)
    requires forall i: nat :: i < |content| ==> i in pieces && pieces[i] == content[i]
    ensures Join(pieces, |content|) == Concat(content)
  {
    if content != [] {
      JoinIsConcat(pieces, content[..|content| - 1]);
    }
  }

  /** An honest download completes with the true file. */
  lemma HonestFile(t: Torrent, content: seq<Bytes>, run: seq<Event>, existing: Bytes)
    requires HonestRun(t, content, run) && IsComplete(t, After(t, run))
    requires Fits(t) && Dropped(t) % t.pieceLength == 0
    ensures var file := VerifiedFile(t, run, existing);
            t.fileLength <= |file| && file[..t.fileLength] == Concat(content)
  {
    CompletedFile(t, run, existing);
    HonestVerified(t, content, run);
    JoinIsConcat(Verified(t, run), content);
  }

  // ---------------------------------------------------------------- the file as coded

  /** Every delivery that finishes a piece carries the whole piece. */
  ghost predicate FinishedWhole(t: Torrent, run: seq<Event>)
    requires ValidRun(t, run)
  {
    forall m: nat, i: nat :: m < |run| && Finishes(t, run, m, i) ==> |run[m].data| == PieceLength(t, i)
  }

  lemma WholeSplice(buffer: Bytes, offset: nat, data: Bytes)
    requires offset + |data| <= |buffer| && |data| == |buffer|
    ensures Splice(buffer, offset, data) == data
  {
  }

  lemma {:induction false} WholeWritesSame(t: Torrent, run: seq<Event>)
    requires ValidRun(t, run) && FinishedWhole(t, run)
    ensures Writes(t, run, false) == Writes(t, run, true)
  {
    if run != [] {
      var before, e := run[..|run| - 1], run[|run| - 1];
      forall m: nat, i: nat | m < |before| && Finishes(t, before, m, i)
        ensures |before[m].data| == PieceLength(t, i)
      {
        assert before[..m] == run[..m];
        assert Finishes(t, run, m, i);
      }
      WholeWritesSame(t, before);
      var s := After(t, before);
      if WriteOf(t, s, e, true) != [] {
        assert Finishes(t, run, |run| - 1, e.piece);
        RunInv(t, before);
        assert PieceOk(t, s, GotIn(t, before)[e.piece], e.piece);
        WholeSplice(Opened(t, s, e.piece).data, e.offset, e.data);
      }
    }
  }

  /** A coded write comes from the delivery that finished its piece. */
  lemma {:induction false} CodedWriteOrigin(t: Torrent, run: seq<Event>, n: nat, w: Write)
    requires ValidRun(t, run) && n <= |run| && w in Writes(t, run[..n], false)
    ensures exists m :: 0 <= m < n && Finishes(t, run, m, w.piece) && run[m].data == w.bytes
  {
    assert n > 0;
    assert run[..n][..n - 1] == run[..n - 1];
    if w in Writes(t, run[..n - 1], false) {
      CodedWriteOrigin(t, run, n - 1, w);
    } else {
      assert Finishes(t, run, n - 1, w.piece);
    }
  }

  /** A byte no write reaches keeps its value. */
  lemma {:induction false} UntouchedByte(existing: Bytes, writes: seq<Write>, p: nat, x: nat)
    requires x < |existing|
    requires forall w :: w in writes ==> !(w.piece * p <= x < w.piece * p + |w.bytes|)
    ensures var file := FileOf(existing, writes, p); x < |file| && file[x] == existing[x]
  {
    if writes != [] {
      UntouchedByte(existing, writes[..|writes| - 1], p, x);
      assert writes[|writes| - 1] in writes;
    }
  }

  /** A finishing delivery fits its piece, and its piece is finished in the end. */
  lemma FinishFits(t: Torrent, run: seq<Event>, m: nat, i: nat)
    requires ValidRun(t, run) && m < |run| && Finishes(t, run, m, i)
    ensures i < |t.hashes| && |run[m].data| <= PieceLength(t, i) && i in Verified(t, run)
  {
    var s := After(t, run[..m]);
    RunInv(t, run[..m]);
    assert PieceOk(t, s, GotIn(t, run[..m])[i], i);
    assert run[..|run|] == run;
    FinishedIffVerified(t, run, |run|, i);
    VerifiedHashes(t, run);
  }

  /** The write that finished piece i is the only coded write into its region. */
  lemma CodedWriteMisses(t: Torrent, run: seq<Event>, m: nat, i: nat, w: Write, x: nat)
    requires ValidRun(t, run) && m < |run| && Finishes(t, run, m, i) && i < |t.hashes|
    requires InRegion(t, i, x) && x >= i * t.pieceLength + |run[m].data| && w in Writes(t, run, false)
    ensures !(w.piece * t.pieceLength <= x < w.piece * t.pieceLength + |w.bytes|)
  {
    assert run[..|run|] == run;
    CodedWriteOrigin(t, run, |run|, w);
    var k :| 0 <= k < |run| && Finishes(t, run, k, w.piece) && run[k].data == w.bytes;
    if w.piece == i {
      SameFinish(t, run, k, m, i);
    } else {
      FinishFits(t, run, k, w.piece);
      if InRegion(t, w.piece, x) {
        RegionUnique(t, w.piece, i, x);
      }
    }
  }

  lemma SameFinish(t: Torrent, run: seq<Event>, k: nat, m: nat, i: nat)
    requires ValidRun(t, run) && k < |run| && m < |run| && i < |t.hashes|
    requires Finishes(t, run, k, i) && Finishes(t, run, m, i)
    ensures k == m
  {
    if k < m {
      FinishedOnce(t, run, k, m, i);
    } else if m < k {
      FinishedOnce(t, run, m, k, i);
    }
  }

  /** A short finishing delivery leaves a byte of its piece as the file had it. */
  lemma ShortFinishDiffers(t: Torrent, run: seq<Event>, m: nat, i: nat) returns (existing: Bytes)
    requires ValidRun(t, run) && m < |run| && Finishes(t, run, m, i) && i < |t.hashes|
    requires |run[m].data| < PieceLength(t, i)
    ensures CodedFile(t, run, existing) != VerifiedFile(t, run, existing)
  {
    var lo, k := StartOf(i, t.pieceLength), |run[m].data|;
    var b := FinishedByte(t, run, m, i, k);
    existing := seq(lo + k + 1, _ => if b == 0 then 1 else 0);
    ShortFinishUntouched(t, run, m, i, lo + k, existing);
    assert CodedFile(t, run, existing)[lo + k] == existing[lo + k] != b;
    FinishedByteHeld(t, run, m, i, k, existing);
  }

  /** Byte k of what was verified for a piece. */
  ghost function FinishedByte(t: Torrent, run: seq<Event>, m: nat, i: nat, k: nat): byte
    requires ValidRun(t, run) && m < |run| && Finishes(t, run, m, i) && i < |t.hashes| && k < PieceLength(t, i)
  {
    FinishFits(t, run, m, i);
    VerifiedHashes(t, run);
    Verified(t, run)[i][k]
  }

  lemma FinishedByteHeld(t: Torrent, run: seq<Event>, m: nat, i: nat, k: nat, existing: Bytes)
    requires ValidRun(t, run) && m < |run| && Finishes(t, run, m, i) && i < |t.hashes| && k < PieceLength(t, i)
    ensures var x, file := StartOf(i, t.pieceLength) + k, VerifiedFile(t, run, existing);
            x < |file| && file[x] == FinishedByte(t, run, m, i, k)
  {
    FinishFits(t, run, m, i);
    VerifiedHashes(t, run);
    ByteStays(t, run, i, k, existing);
  }

  lemma ShortFinishUntouched(t: Torrent, run: seq<Event>, m: nat, i: nat, x: nat, existing: Bytes)
    requires ValidRun(t, run) && m < |run| && Finishes(t, run, m, i) && i < |t.hashes|
    requires |run[m].data| < PieceLength(t, i) && x == StartOf(i, t.pieceLength) + |run[m].data| < |existing|
    ensures var file := CodedFile(t, run, existing); x < |file| && file[x] == existing[x]
  {
    assert InRegion(t, i, x);
    forall w | w in Writes(t, run, false)
      ensures !(w.piece * t.pieceLength <= x < w.piece * t.pieceLength + |w.bytes|)
    {
      CodedWriteMisses(t, run, m, i, w, x);
    }
    UntouchedByte(existing, Writes(t, run, false), t.pieceLength, x);
  }

  /**
   The code leaves the verified file, whatever the file held before, exactly when each piece was
   finished by a delivery of the whole piece.
   */
  lemma CodedFileExact(t: Torrent, run: seq<Event>)
    requires ValidRun(t, run)
    ensures (forall existing :: CodedFile(t, run, existing) == VerifiedFile(t, run, existing)) <==>
            FinishedWhole(t, run)
  {
    if FinishedWhole(t, run) {
      WholeWritesSame(t, run);
    } else {
      var m: nat, i: nat :| m < |run| && Finishes(t, run, m, i) && |run[m].data| != PieceLength(t, i);
      FinishFits(t, run, m, i);
      var existing := ShortFinishDiffers(t, run, m, i);
    }
  }

  /** So a clean download never writes a piece of more than one block correctly into every file. */
  lemma MultiBlockPieceLost(t: Torrent, run: seq<Event>, m: nat, i: nat) returns (existing: Bytes)
    requires CleanRun(t, run) && m < |run| && i < |t.hashes| && Finishes(t, run, m, i)
    requires PieceLength(t, i) > BLOCK_LEN
    ensures CodedFile(t, run, existing) != VerifiedFile(t, run, existing)
  {
    assert CleanEvent(After(t, run[..m]), run[m]);
    RunInv(t, run[..m]);
    existing := ShortFinishDiffers(t, run, m, i);
  }

  /** A delivery of a full block that finishes its piece is the whole piece exactly when the piece has one block. */
  lemma CleanFinishWhole(t: Torrent, run: seq<Event>, m: nat, i: nat)
    requires CleanRun(t, run) && m < |run| && i < |t.hashes| && Finishes(t, run, m, i)
    ensures |run[m].data| == PieceLength(t, i) <==> PieceLength(t, i) <= BLOCK_LEN
  {
    RunInv(t, run[..m]);
    assert CleanEvent(After(t, run[..m]), run[m]);
    CleanLength(t, After(t, run[..m]), GotIn(t, run[..m]), i, run[m].offset, run[m].data);
  }

  lemma CleanLength(t: Torrent, s: State, got: Got, i: nat, offset: nat, data: Bytes)
    requires ValidTorrent(t) && Inv(t, s, got) && i < |t.hashes| && CleanEvent(s, Delivered(i, offset, data))
    ensures |data| == PieceLength(t, i) <==> PieceLength(t, i) <= BLOCK_LEN
  {
    PendingLength(t, s, Key(i, offset));
    WholeBlock(offset, PieceLength(t, i));
  }

  lemma PendingLength(t: Torrent, s: State, k: Key)
    requires ValidTorrent(t) && Shape(t, s) && PendingOk(t, s) && k in s.pendingBlocks
    ensures OnGrid(k.offset, PieceLength(t, k.piece)) && s.pendingBlocks[k] == Clamp(k.offset, PieceLength(t, k.piece))
  {
  }

  /** A block is the whole piece exactly when the piece has no other. */
  lemma WholeBlock(offset: nat, len: nat)
    requires OnGrid(offset, len)
    ensures Clamp(offset, len) == len <==> len <= BLOCK_LEN
  {
  }

  /**
   For a clean download the condition can be read off the torrent: the code leaves the verified file,
   whatever the file held before, exactly when no finished piece has more than one block.
   */
  lemma CleanFileExact(t: Torrent, run: seq<Event>)
    requires CleanRun(t, run)
    ensures (forall existing :: CodedFile(t, run, existing) == VerifiedFile(t, run, existing)) <==>
            forall i :: 0 <= i < |t.hashes| && After(t, run).finished[i] ==> PieceLength(t, i) <= BLOCK_LEN
  {
    assert run[..|run|] == run;
    CodedFileExact(t, run);
    if FinishedWhole(t, run) {
      forall i | 0 <= i < |t.hashes| && After(t, run).finished[i]
        ensures PieceLength(t, i) <= BLOCK_LEN
      {
        FinishedIffVerified(t, run, |run|, i);
        var m :| 0 <= m < |run| && Finishes(t, run, m, i);
        CleanFinishWhole(t, run, m, i);
      }
    } else {
      var m: nat, i: nat :| m < |run| && Finishes(t, run, m, i) && |run[m].data| != PieceLength(t, i);
      FinishFits(t, run, m, i);
      FinishedIffVerified(t, run, |run|, i);
      CleanFinishWhole(t, run, m, i);
    }
  }

  lemma WritesStep(t: Torrent, run: seq<Event>, m: nat, whole: bool)
    requires ValidRun(t, run) && m < |run|
    ensures Writes(t, run[..m + 1], whole) == Writes(t, run[..m], whole) + WriteOf(t, After(t, run[..m]), run[m], whole)
  {
    assert run[..m + 1][..m] == run[..m];
  }
}
