/** Where pieces lie in the file, and what the file holds after a download. */
module FileLayout {
  import opened Base
  import opened Pieces

  // ---------------------------------------------------------------- the file

  function Later(a: nat, b: nat): nat {
    if a < b then b else a
  }

  /** Seek and write: overwrites, extends the file, and fills a gap with zeros. */
  function WriteAt(file: Bytes, pos: nat, data: Bytes): (r: Bytes)
    ensures |r| == if data == [] then |file| else Later(|file|, pos + |data|)
    ensures forall x :: 0 <= x < |r| ==>
                          r[x] == if pos <= x < pos + |data| then data[x - pos]
                                  else if x < |file| then file[x] else 0
  {
    if data == [] then file
    else seq(Later(|file|, pos + |data|),
             x requires x >= 0 => if pos <= x < pos + |data| then data[x - pos] else if x < |file| then file[x] else 0)
  }

  /** A gap is first filled with zeros. */
  lemma WriteAfterGap(file: Bytes, pos: nat, data: Bytes)
    requires data != [] && |file| < pos
    ensures WriteAt(file + seq(pos - |file|, _ => 0), pos, data) == WriteAt(file, pos, data)
  {
  }

  lemma WriteInside(file: Bytes, pos: nat, data: Bytes)
    requires data != [] && pos <= |file|
    ensures WriteAt(file, pos, data) ==
            file[..pos] + data + if pos + |data| < |file| then file[pos + |data|..] else []
  {
  }

  class FileHandler {
    var file: Bytes
    var put: nat // where the stream writes next
    const pieceSize: nat

    constructor (existing: Bytes, pieceSize: nat)
      ensures file == existing && this.pieceSize == pieceSize
    {
      file, put := existing, 0;
      this.pieceSize := pieceSize;
    }

    /** The region from the piece's place on holds the data, a gap before it zeros, and all else is as it was. */
    method WritePiece(index: nat, data: Bytes)
      requires |data| <= pieceSize
      modifies this
      ensures var start := index * pieceSize;
              && |file| == (if data == [] then |old(file)| else Later(|old(file)|, start + |data|))
              && (forall x :: start <= x < start + |data| ==> file[x] == data[x - start])
              && (forall x :: 0 <= x < |old(file)| && !(start <= x < start + |data|) ==> file[x] == old(file)[x])
              && (data != [] ==> forall x :: |old(file)| <= x < start ==> file[x] == 0)
      ensures file == WriteAt(old(file), index * pieceSize, data)
    {
      put := StartOf(index, pieceSize);
      Write(data);
    }

    /** The stream's write: over what is there, and past the end if need be. */
    method Write(data: Bytes)
      modifies this
      ensures file == WriteAt(old(file), old(put), data) && put == old(put) + |data|
    {
      if data == [] {
        return;
      }
      if |file| < put {
        WriteAfterGap(file, put, data);
        file := file + seq(put - |file|, _ => 0);
      }
      WriteInside(file, put, data);
      var end := put + |data|;
      file := file[..put] + data + if end < |file| then file[end..] else [];
      put := end;
    }
  }

  // ---------------------------------------------------------------- arithmetic

  /** Regions of one size do not overlap. */
  lemma RegionsApart(i: nat, j: nat, p: nat)
    requires i < j
    ensures (i + 1) * p <= j * p
  {
  }

  lemma RegionStart(i: nat, p: nat)
    ensures i * p >= 0
  {
  }

  /** Where a piece starts in the file. */
  function StartOf(index: nat, pieceSize: nat): nat {
    RegionStart(index, pieceSize);
    index * pieceSize
  }

  lemma DivModUnique(x: nat, p: nat, q: nat, r: nat)
    requires p > 0 && r < p && x == q * p + r
    ensures x / p == q && x % p == r
  {
    var d := x / p;
    assert x == d * p + x % p;
    if q > d {
      RegionsApart(d, q, p);
    } else if q < d {
      RegionsApart(q, d, p);
    }
  }

  lemma Distribute(a: int, b: int, p: int)
    ensures (a + b) * p == a * p + b * p && (a - b) * p == a * p - b * p
  {
  }

  /** A multiple more or less leaves the same remainder. */
  lemma MultipleAdded(high: nat, low: nat, p: nat)
    requires p > 0 && high % p == 0
    ensures (high + low) % p == low % p
  {
    var a, b := high / p, low / p;
    Distribute(a, b, p);
    DivModUnique(high + low, p, a + b, low % p);
  }

  lemma MultipleBetween(high: nat, low: nat, p: nat)
    requires p > 0 && (high + low) % p == low % p
    ensures high % p == 0
  {
    var a, b := (high + low) / p, low / p;
    Distribute(a, b, p);
    if a < b {
      RegionsApart(a, b, p);
    }
    DivModUnique(high, p, a - b, 0);
  }

  /** Two numbers leave the same remainder exactly when their difference leaves none. */
  lemma SameRemainder(high: nat, low: nat, p: nat)
    requires p > 0
    ensures (high + low) % p == low % p <==> high % p == 0
  {
    if high % p == 0 {
      MultipleAdded(high, low, p);
    }
    if (high + low) % p == low % p {
      MultipleBetween(high, low, p);
    }
  }

  // ---------------------------------------------------------------- geometry

  /** As many hashes as the file has pieces, and at least one. */
  predicate Fits(t: Torrent) {
    ValidTorrent(t) && t.fileLength > 0 && |t.hashes| == (t.fileLength + t.pieceLength - 1) / t.pieceLength
  }

  /** The length of a piece of the real file. */
  function TrueLength(t: Torrent, i: nat): int {
    if i == |t.hashes| - 1 then t.fileLength - i * t.pieceLength else t.pieceLength
  }

  /** The part of the file length that the narrowing to uint32_t drops. */
  function Dropped(t: Torrent): nat {
    t.fileLength - t.fileLength % TWO_TO_THE_32
  }

  lemma LastPiece(t: Torrent)
    requires Fits(t)
    ensures |t.hashes| > 0
    ensures var last := TrueLength(t, |t.hashes| - 1);
            0 < last <= t.pieceLength && last == if t.fileLength % t.pieceLength == 0 then t.pieceLength else t.fileLength % t.pieceLength
  {
    var p, f := t.pieceLength, t.fileLength;
    RoundUp(f, p, f / p, f % p);
    RegionStart(f / p, p);
  }

  /** How many pieces of size p cover q * p + r bytes, and how long the last one is. */
  lemma RoundUp(f: nat, p: nat, q: nat, r: nat)
    requires p > 0 && r < p && f == q * p + r
    ensures (f + p - 1) / p == if r == 0 then q else q + 1
    ensures r == 0 ==> f - (q - 1) * p == p
    ensures f > 0 && r == 0 ==> q > 0
    ensures f - q * p == r
  {
    if r == 0 {
      DivModUnique(f + p - 1, p, q, p - 1);
    } else {
      DivModUnique(f + p - 1, p, q + 1, r - 1);
    }
  }

  /**
   The manager's piece lengths are those of the file exactly when what the narrowing drops is a
   multiple of the piece length.
   */
  lemma LengthsExact(t: Torrent)
    requires Fits(t)
    ensures (forall i :: 0 <= i < |t.hashes| ==> PieceLength(t, i) == TrueLength(t, i)) <==>
            Dropped(t) % t.pieceLength == 0
  {
    var last := |t.hashes| - 1;
    LastPiece(t);
    SameRemainder(Dropped(t), t.fileLength % TWO_TO_THE_32, t.pieceLength);
    assert PieceLength(t, last) == TrueLength(t, last) <==> Dropped(t) % t.pieceLength == 0;
  }

  /** In particular they are for files below 4 GiB and for piece lengths that divide 2^32. */
  lemma UsualLengthsExact(t: Torrent)
    requires Fits(t) && (t.fileLength < TWO_TO_THE_32 || TWO_TO_THE_32 % t.pieceLength == 0)
    ensures forall i :: 0 <= i < |t.hashes| ==> PieceLength(t, i) == TrueLength(t, i)
  {
    var p, high := t.pieceLength, t.fileLength / TWO_TO_THE_32;
    if t.fileLength < TWO_TO_THE_32 {
      assert Dropped(t) == 0;
    } else {
      var k := TWO_TO_THE_32 / p;
      assert TWO_TO_THE_32 == k * p;
      assert Dropped(t) == high * TWO_TO_THE_32 == (high * k) * p + 0;
      DivModUnique(Dropped(t), p, high * k, 0);
    }
    LengthsExact(t);
  }

  /** A 4 GiB + 1 file in pieces of 3 blocks, with any hashes: the manager gets the last piece's length wrong. */
  lemma NarrowedLengthWrong(hash: Bytes, sha1: Bytes -> Bytes) returns (t: Torrent)
    ensures Fits(t) && PieceLength(t, |t.hashes| - 1) != TrueLength(t, |t.hashes| - 1)
    ensures t.sha1 == sha1 && forall i :: 0 <= i < |t.hashes| ==> t.hashes[i] == hash
  {
    var p, f := 3 * BLOCK_LEN, TWO_TO_THE_32 + 1;
    var n := (f + p - 1) / p;
    t := Torrent(seq(n, _ => hash), p, f, sha1);
    LastPiece(t);
  }

  predicate InRegion(t: Torrent, i: nat, x: nat)
    requires ValidTorrent(t)
  {
    i * t.pieceLength <= x < i * t.pieceLength + PieceLength(t, i)
  }

  lemma RegionUnique(t: Torrent, i: nat, j: nat, x: nat)
    requires ValidTorrent(t) && InRegion(t, i, x) && InRegion(t, j, x)
    ensures i == j
  {
    if i < j {
      RegionsApart(i, j, t.pieceLength);
    } else if j < i {
      RegionsApart(j, i, t.pieceLength);
    }
  }

  lemma QuotientBound(x: nat, n: nat, p: nat) returns (q: nat)
    requires p > 0 && x < n * p
    ensures q < n && q * p <= x < q * p + p
  {
    q := x / p;
    assert x == q * p + x % p;
    if n < q {
      RegionsApart(n, q, p);
    }
  }

  lemma FileWithin(t: Torrent)
    requires Fits(t)
    ensures t.fileLength <= |t.hashes| * t.pieceLength
  {
    LastPiece(t);
    var n, p := |t.hashes|, t.pieceLength;
    assert (n - 1) * p + p == n * p;
  }

  lemma RegionHolds(t: Torrent, i: nat, x: nat)
    requires ValidTorrent(t) && i < |t.hashes| && PieceLength(t, i) == TrueLength(t, i)
    requires i * t.pieceLength <= x < i * t.pieceLength + t.pieceLength && x < t.fileLength
    ensures InRegion(t, i, x)
  {
  }

  /** The piece that a byte of the file is in, by the usual lengths. */
  lemma PieceAt(t: Torrent, x: nat) returns (i: nat)
    requires Fits(t) && x < t.fileLength
    ensures i < |t.hashes| && i * t.pieceLength <= x < i * t.pieceLength + t.pieceLength
  {
    FileWithin(t);
    i := QuotientBound(x, |t.hashes|, t.pieceLength);
  }

  lemma LengthExact(t: Torrent, i: nat)
    requires Fits(t) && Dropped(t) % t.pieceLength == 0 && i < |t.hashes|
    ensures PieceLength(t, i) == TrueLength(t, i)
  {
    LengthsExact(t);
  }

  lemma RegionAt(t: Torrent, x: nat) returns (i: nat)
    requires Fits(t) && x < t.fileLength && Dropped(t) % t.pieceLength == 0
    ensures i < |t.hashes| && InRegion(t, i, x)
  {
    i := PieceAt(t, x);
    LengthExact(t, i);
    RegionHolds(t, i, x);
  }

  /** The piece regions tile the file: each byte of it lies in exactly one. */
  lemma RegionsTile(t: Torrent, x: nat) returns (i: nat)
    requires Fits(t) && x < t.fileLength && Dropped(t) % t.pieceLength == 0
    ensures i < |t.hashes| && forall j: nat :: InRegion(t, j, x) <==> j == i
  {
    i := RegionAt(t, x);
    forall j: nat | InRegion(t, j, x)
      ensures j == i
    {
      RegionUnique(t, i, j, x);
    }
  }
}
