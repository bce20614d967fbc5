/**
 The piece manager as a state and its three operations: requestBlock, deliverBlock and returnBlock,
 each atomic under the manager's mutex.
 */
module Pieces {
  import opened Base
  import opened Bits

  const BLOCK_LEN: nat := 16384

  /** What the manager is built from. SHA-1 is any function from byte strings to digests. */
  datatype Torrent = Torrent(hashes: seq<Bytes>, pieceLength: nat, fileLength: nat, sha1: Bytes -> Bytes)

  /** The manager's callers guarantee a piece length that fits uint32_t and indices that do. */
  predicate ValidTorrent(t: Torrent) {
    0 < t.pieceLength < TWO_TO_THE_32 && |t.hashes| < TWO_TO_THE_32
  }

  datatype Block = Block(piece: nat, offset: nat, length: nat)

  /** What Block::operator< compares: two blocks with the same key are the same set element. */
  datatype Key = Key(piece: nat, offset: nat)

  datatype PendingPiece = PendingPiece(data: Bytes, received: nat, needed: nat)

  /** The manager's fields; the set of pending blocks maps each key to its block's length. */
  datatype State = State(
    pendingBlocks: map<Key, nat>,
    nextOffsets: seq<nat>,
    pendingPieces: map<nat, PendingPiece>,
    finished: seq<bool>,
    bitfield: seq<bv8>,
    piecesFinished: nat,
    notified: nat)

  predicate Shape(t: Torrent, s: State) {
    && |s.nextOffsets| == |s.finished| == |t.hashes|
    && |s.bitfield| == (|t.hashes| + 7) / 8
    && forall k :: k in s.pendingBlocks ==> k.piece < |t.hashes|
  }

  function Init(t: Torrent): (s: State)
    ensures Shape(t, s)
  {
    var n := |t.hashes|;
    State(map[], seq(n, _ => 0), map[], seq(n, _ => false), seq((n + 7) / 8, _ => 0), 0, 0)
  }

  // ---------------------------------------------------------------- geometry

  /** _getPieceLength: the total size is narrowed to uint32_t before the remainder is taken. */
  function PieceLength(t: Torrent, index: nat): (len: nat)
    requires ValidTorrent(t)
    ensures 0 < len <= t.pieceLength
  {
    if index == |t.hashes| - 1 then
      var totalSize := t.fileLength % TWO_TO_THE_32;
      var remainder := totalSize % t.pieceLength;
      if remainder != 0 then remainder else t.pieceLength
    else t.pieceLength
  }

  function BlockCount(len: nat): nat {
    (len + BLOCK_LEN - 1) / BLOCK_LEN
  }

  /** The length of the block that starts at an offset, clamped at the end of the piece. */
  function Clamp(offset: nat, len: nat): (r: nat)
    requires offset < len
    ensures 0 < r <= BLOCK_LEN && offset + r <= len
  {
    if len - offset < BLOCK_LEN then len - offset else BLOCK_LEN
  }

  predicate OnGrid(offset: nat, len: nat) {
    offset < len && offset % BLOCK_LEN == 0
  }

  // ---------------------------------------------------------------- requestBlock

  /** The first offset from the cursor on, in block steps, that is not in flight. */
  function NextFree(pending: map<Key, nat>, piece: nat, offset: nat, len: nat): Option<nat>
    decreases len - offset
  {
    if offset >= len then None
    else if Key(piece, offset) !in pending then Some(offset)
    else NextFree(pending, piece, offset + Clamp(offset, len), len)
  }

  function Grantable(t: Torrent, s: State, i: nat): Option<nat>
    requires ValidTorrent(t) && Shape(t, s) && i < |t.hashes|
  {
    NextFree(s.pendingBlocks, i, s.nextOffsets[i], PieceLength(t, i))
  }

  /** A peer's bitfield as the manager needs it: our size, spare bits clear. */
  predicate ValidPeer(t: Torrent, peer: seq<bv8>) {
    && |peer| == (|t.hashes| + 7) / 8
    && forall j :: |t.hashes| <= j < 8 * |peer| ==> !HasBit(peer, j)
  }

  predicate Eligible(t: Torrent, s: State, peer: seq<bv8>, i: nat)
    requires ValidTorrent(t) && Shape(t, s) && ValidPeer(t, peer) && i < |t.hashes|
  {
    HasBit(peer, i) && !HasBit(s.bitfield, i) && Grantable(t, s, i).Some?
  }

  /** The least eligible piece from an index on. */
  function Pick(t: Torrent, s: State, peer: seq<bv8>, from: nat): (r: Option<nat>)
    requires ValidTorrent(t) && Shape(t, s) && ValidPeer(t, peer)
    ensures r.Some? ==> from <= r.value < |t.hashes| && Eligible(t, s, peer, r.value)
    ensures forall i :: from <= i < (if r.Some? then r.value else |t.hashes|) ==> !Eligible(t, s, peer, i)
    decreases |t.hashes| - from
  {
    if from >= |t.hashes| then None
    else if Eligible(t, s, peer, from) then Some(from)
    else Pick(t, s, peer, from + 1)
  }

  function BlockAt(t: Torrent, s: State, i: nat): Block
    requires ValidTorrent(t) && Shape(t, s) && i < |t.hashes| && Grantable(t, s, i).Some?
  {
    NextFreeInside(s.pendingBlocks, i, s.nextOffsets[i], PieceLength(t, i));
    var offset := Grantable(t, s, i).value;
    Block(i, offset, Clamp(offset, PieceLength(t, i)))
  }

  lemma {:induction false} NextFreeInside(pending: map<Key, nat>, piece: nat, offset: nat, len: nat)
    requires NextFree(pending, piece, offset, len).Some?
    ensures offset <= NextFree(pending, piece, offset, len).value < len
    ensures Key(piece, NextFree(pending, piece, offset, len).value) !in pending
    decreases len - offset
  {
    if Key(piece, offset) in pending {
      NextFreeInside(pending, piece, offset + Clamp(offset, len), len);
    }
  }

  /** _getNextBlockForPiece, when it grants. */
  function Grant(t: Torrent, s: State, i: nat): (s': State)
    requires ValidTorrent(t) && Shape(t, s) && i < |t.hashes| && Grantable(t, s, i).Some?
    ensures Shape(t, s')
  {
    var b := BlockAt(t, s, i);
    s.(pendingBlocks := s.pendingBlocks[Key(i, b.offset) := b.length],
       nextOffsets := s.nextOffsets[i := b.offset + b.length])
  }

  function RequestResult(t: Torrent, s: State, peer: seq<bv8>): Option<Block>
    requires ValidTorrent(t) && Shape(t, s) && ValidPeer(t, peer)
  {
    var i := Pick(t, s, peer, 0);
    if i.None? then None else Some(BlockAt(t, s, i.value))
  }

  function Request(t: Torrent, s: State, peer: seq<bv8>): (s': State)
    requires ValidTorrent(t) && Shape(t, s) && ValidPeer(t, peer)
    ensures Shape(t, s')
  {
    var i := Pick(t, s, peer, 0);
    if i.None? then s else Grant(t, s, i.value)
  }

  // ---------------------------------------------------------------- deliverBlock

  /** The piece's buffer and counters, freshly made if it has none. */
  function Opened(t: Torrent, s: State, i: nat): PendingPiece
    requires ValidTorrent(t)
  {
    if i in s.pendingPieces then s.pendingPieces[i]
    else PendingPiece(seq(PieceLength(t, i), _ => 0), 0, BlockCount(PieceLength(t, i)))
  }

  function Splice(buffer: Bytes, offset: nat, data: Bytes): (r: Bytes)
    requires offset + |data| <= |buffer|
    ensures |r| == |buffer|
    ensures forall x :: 0 <= x < |r| ==>
                          r[x] == if offset <= x < offset + |data| then data[x - offset] else buffer[x]
  {
    buffer[..offset] + data + buffer[offset + |data|..]
  }

  /** The piece after a block was copied in: every accepted delivery counts, repeated or not. */
  function Filled(p: PendingPiece, offset: nat, data: Bytes): PendingPiece
    requires offset + |data| <= |p.data|
  {
    PendingPiece(Splice(p.data, offset, data), p.received + 1, p.needed)
  }

  /** How a delivery ends, one constructor per return statement of deliverBlock. */
  datatype Verdict = AlreadyFinished | OutOfBounds | Verified | Mismatch | Stored

  function Judge(t: Torrent, s: State, i: nat, offset: nat, data: Bytes): Verdict
    requires ValidTorrent(t) && Shape(t, s) && i < |t.hashes|
  {
    if s.finished[i] then AlreadyFinished
    else
      var p := Opened(t, s, i);
      if offset + |data| > |p.data| then OutOfBounds
      else
        var q := Filled(p, offset, data);
        if q.received != q.needed then Stored
        else if t.sha1(q.data) == t.hashes[i] then Verified
        else Mismatch
  }

  predicate Accepted(v: Verdict) {
    v.AlreadyFinished? || v.Verified? || v.Stored?
  }

  /** The bytes whose hash a delivery has checked. */
  function Checked(t: Torrent, s: State, i: nat, offset: nat, data: Bytes): Bytes
    requires ValidTorrent(t) && Shape(t, s) && i < |t.hashes|
    requires var v := Judge(t, s, i, offset, data); v.Verified? || v.Mismatch?
  {
    Filled(Opened(t, s, i), offset, data).data
  }

  function Deliver(t: Torrent, s: State, i: nat, offset: nat, data: Bytes): (s': State)
    requires ValidTorrent(t) && Shape(t, s) && i < |t.hashes|
    ensures Shape(t, s')
  {
    match Judge(t, s, i, offset, data)
    case AlreadyFinished => s
    case OutOfBounds => s.(pendingPieces := s.pendingPieces[i := Opened(t, s, i)])
    case Stored =>
      s.(pendingBlocks := s.pendingBlocks - {Key(i, offset)},
         pendingPieces := s.pendingPieces[i := Filled(Opened(t, s, i), offset, data)])
    case Verified =>
      s.(pendingBlocks := s.pendingBlocks - {Key(i, offset)},
         pendingPieces := s.pendingPieces - {i},
         finished := s.finished[i := true],
         bitfield := SetBit(s.bitfield, i),
         piecesFinished := s.piecesFinished + 1,
         notified := if s.piecesFinished + 1 >= |t.hashes| then s.notified + 1 else s.notified)
    case Mismatch =>
      s.(pendingBlocks := s.pendingBlocks - {Key(i, offset)},
         pendingPieces := s.pendingPieces - {i},
         nextOffsets := s.nextOffsets[i := 0])
  }

  // ---------------------------------------------------------------- returnBlock

  predicate Returns(s: State, b: Block) {
    Key(b.piece, b.offset) in s.pendingBlocks
  }

  function Return(t: Torrent, s: State, b: Block): (s': State)
    requires Shape(t, s)
    ensures Shape(t, s')
  {
    if !Returns(s, b) then s
    else
      s.(pendingBlocks := s.pendingBlocks - {Key(b.piece, b.offset)},
         nextOffsets := if b.offset < s.nextOffsets[b.piece] then s.nextOffsets[b.piece := b.offset] else s.nextOffsets)
  }

  predicate IsComplete(t: Torrent, s: State) {
    s.piecesFinished >= |t.hashes|
  }
}
