/** From the bytes of a .torrent file to its metadata and to the bytes whose SHA-1 is the info-hash. */
module Torrent {
  import opened Base
  import opened Bencode
  import opened BencodeGrammar
  import opened BencodeCode
  import opened BencodeExact

  const HASH_LENGTH: nat := 20
  const MAX_TORRENT_SIZE: nat := 10 * 1024 * 1024

  // DictKeys
  const COMMENT: Bytes := ['c' as byte, 'o' as byte, 'm' as byte, 'm' as byte, 'e' as byte, 'n' as byte, 't' as byte]
  const ANNOUNCE: Bytes :=
    ['a' as byte, 'n' as byte, 'n' as byte, 'o' as byte, 'u' as byte, 'n' as byte, 'c' as byte, 'e' as byte]
  const INFO: Bytes := ['i' as byte, 'n' as byte, 'f' as byte, 'o' as byte]
  const LENGTH: Bytes := ['l' as byte, 'e' as byte, 'n' as byte, 'g' as byte, 't' as byte, 'h' as byte]
  const NAME: Bytes := ['n' as byte, 'a' as byte, 'm' as byte, 'e' as byte]
  const PIECES: Bytes := ['p' as byte, 'i' as byte, 'e' as byte, 'c' as byte, 'e' as byte, 's' as byte]
  const PIECE_LENGTH: Bytes :=
    ['p' as byte, 'i' as byte, 'e' as byte, 'c' as byte, 'e' as byte, ' ' as byte,
     'l' as byte, 'e' as byte, 'n' as byte, 'g' as byte, 't' as byte, 'h' as byte]
  const CREATION_DATE: Bytes :=
    ['c' as byte, 'r' as byte, 'e' as byte, 'a' as byte, 't' as byte, 'i' as byte, 'o' as byte, 'n' as byte,
     ' ' as byte, 'd' as byte, 'a' as byte, 't' as byte, 'e' as byte]

  type uint64 = n: int | 0 <= n < TWO_TO_THE_64

  datatype Info = Info(pieceHashes: seq<Bytes>, rawPieces: Bytes, pieceLength: uint64, fileLength: uint64,
                       fileName: Bytes)

  datatype Metadata = Metadata(announce: Bytes, comment: Bytes, creationDate: uint64, info: Info, infoHash: Bytes)

  // extractValueFromDict, once per type it is used at

  function ExtractInt(dict: seq<Entry>, key: Bytes): Result<int64> {
    match Lookup(dict, key)
    case Some(Int(n)) => Ok(n)
    case _ => Err(RuntimeError)
  }

  function ExtractString(dict: seq<Entry>, key: Bytes): Result<Bytes> {
    match Lookup(dict, key)
    case Some(Str(s)) => Ok(s)
    case _ => Err(RuntimeError)
  }

  function ExtractDict(dict: seq<Entry>, key: Bytes): Result<seq<Entry>> {
    match Lookup(dict, key)
    case Some(Dict(d)) => Ok(d)
    case _ => Err(RuntimeError)
  }

  /** The consecutive 20-byte hashes of the pieces string. */
  function PieceHashes(pieces: Bytes): (hashes: seq<Bytes>)
    requires |pieces| % HASH_LENGTH == 0
    ensures |hashes| * HASH_LENGTH == |pieces|
    ensures forall i :: 0 <= i < |hashes| ==> hashes[i] == pieces[i * HASH_LENGTH..][..HASH_LENGTH]
  {
    if pieces == [] then []
    else
      var others := PieceHashes(pieces[HASH_LENGTH..]);
      assert forall i :: 0 <= i < |others| ==>
                           pieces[HASH_LENGTH..][i * HASH_LENGTH..] == pieces[(i + 1) * HASH_LENGTH..];
      [pieces[..HASH_LENGTH]] + others
  }

  function Flatten(hashes: seq<Bytes>): Bytes {
    if hashes == [] then [] else hashes[0] + Flatten(hashes[1..])
  }

  /** Nothing of the pieces string is lost: its hashes concatenate to it. */
  lemma {:induction false} HashesFlatten(pieces: Bytes)
    requires |pieces| % HASH_LENGTH == 0
    ensures Flatten(PieceHashes(pieces)) == pieces
  {
    if pieces != [] {
      HashesFlatten(pieces[HASH_LENGTH..]);
      assert PieceHashes(pieces)[1..] == PieceHashes(pieces[HASH_LENGTH..]);
      assert pieces == pieces[..HASH_LENGTH] + pieces[HASH_LENGTH..];
    }
  }

  function ParseInfoDict(dict: seq<Entry>): Result<Info> {
    var pieceLength :- ExtractInt(dict, PIECE_LENGTH);
    if pieceLength <= 0 then Err(RuntimeError)
    else
      var pieces :- ExtractString(dict, PIECES);
      if |pieces| % HASH_LENGTH != 0 then Err(RuntimeError)
      else
        var fileLength :- ExtractInt(dict, LENGTH);
        if fileLength < 0 then Err(RuntimeError)
        else
          var fileName :- ExtractString(dict, NAME);
          Ok(Info(PieceHashes(pieces), pieces, pieceLength, fileLength, fileName))
  }

  /** static_cast<int64_t> of an unsigned number. */
  function ToInt64(n: uint64): (r: int64)
    ensures (n - r) % TWO_TO_THE_64 == 0
  {
    if n < TWO_TO_THE_63 then n else n - TWO_TO_THE_64
  }

  /** std::map::operator[] followed by an assignment. */
  function Assign(entries: seq<Entry>, key: Bytes, val: Value): seq<Entry> {
    if entries == [] then [Entry(key, val)]
    else if entries[0].key == key then [Entry(key, val)] + entries[1..]
    else if Less(key, entries[0].key) then [Entry(key, val)] + entries
    else [entries[0]] + Assign(entries[1..], key, val)
  }

  /** The dictionary calculateInfoHash rebuilds, in map order. */
  function InfoEntries(info: Info): seq<Entry> {
    [Entry(LENGTH, Int(ToInt64(info.fileLength))),
     Entry(NAME, Str(info.fileName)),
     Entry(PIECE_LENGTH, Int(ToInt64(info.pieceLength))),
     Entry(PIECES, Str(info.rawPieces))]
  }

  /** The bytes calculateInfoHash feeds to SHA-1. */
  function InfoBytes(info: Info): Bytes {
    Encode(Dict(InfoEntries(info)))
  }

  function FromRoot(sha1: Bytes -> Bytes, root: Value): Result<Metadata> {
    match root
    case Dict(dict) =>
      var comment :- ExtractString(dict, COMMENT);
      var announce :- ExtractString(dict, ANNOUNCE);
      var creationDate :- ExtractInt(dict, CREATION_DATE);
      var infoDict :- ExtractDict(dict, INFO);
      var info :- ParseInfoDict(infoDict);
      Ok(Metadata(announce, comment, creationDate % TWO_TO_THE_64, info, sha1(InfoBytes(info))))
    case _ => Err(RuntimeError)
  }

  /** The loader, reading the root dictionary with the parser as coded. */
  function LoadTorrent(sha1: Bytes -> Bytes, data: Bytes, budget: nat): Run<Metadata> {
    if |data| > MAX_TORRENT_SIZE then Failed(RuntimeError)
    else
      var root := ReadValue(data, Coded(data), 0, 0, budget);
      if !root.Got? then Ended(root)
      else
        match FromRoot(sha1, root.value)
        case Ok(metadata) => Got(metadata, root.next)
        case Err(e) => Failed(e)
  }

  // ---------------------------------------------------------------- what is accepted, and what comes of it

  predicate HasInt(dict: seq<Entry>, key: Bytes) {
    Lookup(dict, key).Some? && Lookup(dict, key).value.Int?
  }

  predicate HasString(dict: seq<Entry>, key: Bytes) {
    Lookup(dict, key).Some? && Lookup(dict, key).value.Str?
  }

  predicate HasDict(dict: seq<Entry>, key: Bytes) {
    Lookup(dict, key).Some? && Lookup(dict, key).value.Dict?
  }

  /** An info dictionary that the client takes: the four keys with their types, sizes that make sense and whole hashes. */
  predicate GoodInfo(dict: seq<Entry>) {
    && HasInt(dict, PIECE_LENGTH) && Lookup(dict, PIECE_LENGTH).value.n > 0
    && HasString(dict, PIECES) && |Lookup(dict, PIECES).value.bytes| % HASH_LENGTH == 0
    && HasInt(dict, LENGTH) && Lookup(dict, LENGTH).value.n >= 0
    && HasString(dict, NAME)
  }

  /** The metadata is what the dictionary binds, and the hashes are the pieces string, cut up. */
  ghost predicate InfoOf(dict: seq<Entry>, info: Info) {
    && Lookup(dict, PIECE_LENGTH) == Some(Int(ToInt64(info.pieceLength))) && 0 < info.pieceLength < TWO_TO_THE_63
    && Lookup(dict, LENGTH) == Some(Int(ToInt64(info.fileLength))) && info.fileLength < TWO_TO_THE_63
    && Lookup(dict, NAME) == Some(Str(info.fileName))
    && Lookup(dict, PIECES) == Some(Str(info.rawPieces))
    && Flatten(info.pieceHashes) == info.rawPieces
    && forall i :: 0 <= i < |info.pieceHashes| ==> |info.pieceHashes[i]| == HASH_LENGTH
  }

  /** Accepted exactly when it is good, and then as it says; otherwise refused with a runtime error. */
  lemma InfoDictExact(dict: seq<Entry>)
    ensures ParseInfoDict(dict).Ok? <==> GoodInfo(dict)
    ensures ParseInfoDict(dict).Ok? ==> InfoOf(dict, ParseInfoDict(dict).value)
    ensures ParseInfoDict(dict).Err? ==> ParseInfoDict(dict).error == RuntimeError
  {
    if GoodInfo(dict) {
      HashesFlatten(Lookup(dict, PIECES).value.bytes);
    }
  }

  predicate GoodRoot(root: Value) {
    && root.Dict?
    && HasString(root.entries, COMMENT) && HasString(root.entries, ANNOUNCE) && HasInt(root.entries, CREATION_DATE)
    && HasDict(root.entries, INFO) && GoodInfo(Lookup(root.entries, INFO).value.entries)
  }

  /** static_cast<uint64_t> of a signed number. */
  ghost predicate SameBits(unsigned: uint64, signed: int64) {
    unsigned == if signed >= 0 then signed else signed + TWO_TO_THE_64
  }

  ghost predicate MetadataOf(sha1: Bytes -> Bytes, dict: seq<Entry>, m: Metadata) {
    && Lookup(dict, ANNOUNCE) == Some(Str(m.announce))
    && Lookup(dict, COMMENT) == Some(Str(m.comment))
    && HasInt(dict, CREATION_DATE) && SameBits(m.creationDate, Lookup(dict, CREATION_DATE).value.n)
    && HasDict(dict, INFO) && InfoOf(Lookup(dict, INFO).value.entries, m.info)
    && m.infoHash == sha1(InfoBytes(m.info))
  }

  /** The same for the root dictionary. */
  lemma RootExact(sha1: Bytes -> Bytes, root: Value)
    ensures FromRoot(sha1, root).Ok? <==> GoodRoot(root)
    ensures FromRoot(sha1, root).Ok? ==> MetadataOf(sha1, root.entries, FromRoot(sha1, root).value)
    ensures FromRoot(sha1, root).Err? ==> FromRoot(sha1, root).error == RuntimeError
  {
    if root.Dict? && HasDict(root.entries, INFO) {
      InfoDictExact(Lookup(root.entries, INFO).value.entries);
    }
  }

  /**
   A file is loaded exactly when it has at most 10 MiB and starts with a good root dictionary. A file
   that is too large, or whose first value is something else, is refused with a runtime error; one that
   does not parse, with the parser's error.
   */
  lemma LoadExact(sha1: Bytes -> Bytes, data: Bytes, budget: nat)
    ensures var run, root := LoadTorrent(sha1, data, budget), ReadValue(data, Coded(data), 0, 0, budget);
            && (run.Got? <==> |data| <= 10 * 1024 * 1024 && root.Got? && GoodRoot(root.value))
            && (run.Got? ==> MetadataOf(sha1, root.value.entries, run.value) && run.next == root.next)
            && (|data| > 10 * 1024 * 1024 || (root.Got? && !GoodRoot(root.value)) ==> run == Failed(RuntimeError))
            && (|data| <= 10 * 1024 * 1024 && !root.Got? ==> run == Ended(root))
  {
    var root := ReadValue(data, Coded(data), 0, 0, budget);
    if root.Got? {
      RootExact(sha1, root.value);
    }
  }

  // ---------------------------------------------------------------- key order

  lemma KeyOrder()
    ensures Less(LENGTH, NAME) && Less(NAME, PIECE_LENGTH) && Less(PIECE_LENGTH, PIECES)
    ensures Less(LENGTH, PIECE_LENGTH) && Less(NAME, PIECES) && Less(LENGTH, PIECES)
  {
    LessTail(PIECE_LENGTH, PIECES, 5);
    LessTransitive(LENGTH, NAME, PIECE_LENGTH);
    LessTransitive(NAME, PIECE_LENGTH, PIECES);
    LessTransitive(LENGTH, NAME, PIECES);
  }

  /** Strings that agree on their first k bytes compare like what follows. */
  lemma {:induction false} LessTail(a: Bytes, b: Bytes, k: nat)
    requires k < |a| && k < |b| && a[..k] == b[..k] && a[k] < b[k]
    ensures Less(a, b)
  {
    if k > 0 {
      assert a[0] == a[..k][0] && b[0] == b[..k][0];
      assert a[1..][..k - 1] == a[..k][1..] && b[1..][..k - 1] == b[..k][1..];
      LessTail(a[1..], b[1..], k - 1);
    }
  }

  lemma RebuiltWellFormed(info: Info)
    requires |info.fileName| < TWO_TO_THE_64 && |info.rawPieces| < TWO_TO_THE_64
    ensures WellFormed(Dict(InfoEntries(info)))
  {
    KeyOrder();
  }

  // ---------------------------------------------------------------- the source's own form

  method ParsePieceHashes(pieces: Bytes) returns (r: Result<seq<Bytes>>)
    ensures r.Err? <==> |pieces| % HASH_LENGTH != 0
    ensures r.Err? ==> r.error == RuntimeError
    ensures r.Ok? ==> r.value == PieceHashes(pieces)
  {
    if |pieces| % HASH_LENGTH != 0 {
      return Err(RuntimeError);
    }
    var numHashes := |pieces| / HASH_LENGTH;
    var hashes: seq<Bytes> := [];
    while |hashes| < numHashes
      invariant |hashes| <= numHashes
      invariant forall i :: 0 <= i < |hashes| ==> hashes[i] == pieces[i * HASH_LENGTH..][..HASH_LENGTH]
    {
      hashes := hashes + [pieces[|hashes| * HASH_LENGTH..][..HASH_LENGTH]];
    }
    r := Ok(hashes);
  }

  lemma AssignPast(head: Entry, tail: seq<Entry>, key: Bytes, val: Value)
    requires Less(head.key, key)
    ensures Assign([head] + tail, key, val) == [head] + Assign(tail, key, val)
  {
    LessTotal(head.key, key);
    assert ([head] + tail)[1..] == tail;
  }

  method CalculateInfoHash(sha1: Bytes -> Bytes, info: Info) returns (hash: Bytes)
    ensures hash == sha1(InfoBytes(info))
  {
    KeyOrder();
    LessTotal(LENGTH, PIECE_LENGTH);
    ghost var e := InfoEntries(info);
    var dict: seq<Entry> := [];
    dict := Assign(dict, PIECE_LENGTH, Int(ToInt64(info.pieceLength)));
    dict := Assign(dict, LENGTH, Int(ToInt64(info.fileLength)));
    assert dict == [e[0]] + [e[2]];
    AssignPast(e[0], [e[2]], NAME, Str(info.fileName));
    LessTotal(NAME, PIECE_LENGTH);
    dict := Assign(dict, NAME, Str(info.fileName));
    assert dict == [e[0]] + ([e[1]] + [e[2]]);
    AssignPast(e[0], [e[1]] + [e[2]], PIECES, Str(info.rawPieces));
    AssignPast(e[1], [e[2]], PIECES, Str(info.rawPieces));
    AssignPast(e[2], [], PIECES, Str(info.rawPieces));
    assert [e[2]] + [] == [e[2]];
    dict := Assign(dict, PIECES, Str(info.rawPieces));
    assert dict == e;
    hash := sha1(Encode(Dict(dict)));
  }

  // ---------------------------------------------------------------- the info-hash theorem

  /** In an ordered dictionary, a smaller key sits at a smaller index. */
  lemma KeyIndexOrder(entries: seq<Entry>, i: nat, j: nat)
    requires Ascending(entries) && i < |entries| && j < |entries|
    requires Less(entries[i].key, entries[j].key)
    ensures i < j
  {
    LessTotal(entries[i].key, entries[j].key);
  }

  /** An ordered dictionary of four entries that parses as an info dictionary is the rebuilt one, and all of it is kept. */
  lemma FourKeysRebuilt(entries: seq<Entry>, info: Info)
    requires Ascending(entries) && |entries| == 4
    requires ParseInfoDict(entries) == Ok(info)
    ensures entries == InfoEntries(info) && InfoOf(entries, info)
  {
    InfoDictExact(entries);
    LookupFinds(entries, LENGTH);
    LookupFinds(entries, NAME);
    LookupFinds(entries, PIECE_LENGTH);
    LookupFinds(entries, PIECES);
    var l :| 0 <= l < 4 && entries[l] == Entry(LENGTH, Lookup(entries, LENGTH).value);
    var n :| 0 <= n < 4 && entries[n] == Entry(NAME, Lookup(entries, NAME).value);
    var q :| 0 <= q < 4 && entries[q] == Entry(PIECE_LENGTH, Lookup(entries, PIECE_LENGTH).value);
    var p :| 0 <= p < 4 && entries[p] == Entry(PIECES, Lookup(entries, PIECES).value);
    KeyOrder();
    KeyIndexOrder(entries, l, n);
    KeyIndexOrder(entries, n, q);
    KeyIndexOrder(entries, q, p);
  }

  /**
   The bytes that are hashed are the bytes of the info dictionary in the file exactly when those
   were canonical and held nothing but the four keys the client knows.
   */
  lemma InfoBytesPreserved(t: Tree, info: Info)
    requires Well(t) && t.TDict?
    requires ParseInfoDict(Denote(t).entries) == Ok(info)
    ensures InfoBytes(info) == Text(t) <==> Canonical(t) && |t.pairs| == 4
  {
    if Canonical(t) && |t.pairs| == 4 {
      OrderedPairsKept(DenotePairs(t.pairs));
      FourKeysRebuilt(Denote(t).entries, info);
      CanonicalPrints(t);
    }
    if InfoBytes(info) == Text(t) {
      PreservedOnlyIfCanonical(t, info);
    }
  }

  lemma PreservedOnlyIfCanonical(t: Tree, info: Info)
    requires Well(t) && t.TDict?
    requires ParseInfoDict(Denote(t).entries) == Ok(info)
    requires InfoBytes(info) == Text(t)
    ensures Canonical(t) && |t.pairs| == 4
  {
    var entries := Denote(t).entries;
    DenoteWellFormed(t);
    LookupFinds(entries, NAME);
    LookupFinds(entries, PIECES);
    var rebuilt := Dict(InfoEntries(info));
    RebuiltWellFormed(info);
    CanonText(rebuilt);
    assert Text(Canon(rebuilt)) + [] == Text(t) + [];
    Unambiguous(Canon(rebuilt), t, [], []);
  }

  lemma {:induction false} LookupFirst(pairs: seq<Entry>, key: Bytes) returns (k: nat)
    requires Lookup(pairs, key).Some?
    ensures k < |pairs| && pairs[k] == Entry(key, Lookup(pairs, key).value)
    ensures forall j :: 0 <= j < k ==> pairs[j].key != key
  {
    if pairs[0].key == key {
      k := 0;
    } else {
      k := LookupFirst(pairs[1..], key);
      k := k + 1;
    }
  }

  /** The first pair with the key. */
  ghost predicate IsFirst(pairs: seq<Pair>, key: Bytes, k: nat) {
    && k < |pairs| && pairs[k].key == key
    && forall j :: 0 <= j < k ==> pairs[j].key != key
  }

  /** The dictionary has the key, first with a value of this meaning. */
  ghost predicate Field(t: Tree, key: Bytes, v: Value) {
    t.TDict? && exists k: nat :: IsFirst(t.pairs, key, k) && Denote(t.pairs[k].val) == v
  }

  lemma FirstField(t: Tree, key: Bytes) returns (k: nat)
    requires t.TDict? && Lookup(Denote(t).entries, key).Some?
    ensures IsFirst(t.pairs, key, k) && Denote(t.pairs[k].val) == Lookup(Denote(t).entries, key).value
  {
    var read := DenotePairs(t.pairs);
    FirstOfDuplicatesKept(read);
    k := LookupFirst(read, key);
    assert forall j :: 0 <= j < |read| ==> read[j].key == t.pairs[j].key;
  }

  lemma HasField(t: Tree, key: Bytes)
    requires t.TDict? && Lookup(Denote(t).entries, key).Some?
    ensures Field(t, key, Lookup(Denote(t).entries, key).value)
  {
    var k := FirstField(t, key);
  }

  /**
   From the file's bytes, when no length field in them strays: the tracker address, the comment and the
   date are the values of the first pairs with their keys. The info-hash is the SHA-1 of the first
   "info" entry's own bytes, byte for byte, exactly when that entry is canonical and has only the four
   known keys; the rest of the metadata is that entry's, the piece hashes being its pieces string cut up.
   */
  lemma TorrentInfoHash(sha1: Bytes -> Bytes, data: Bytes, budget: nat) returns (root: Tree, k: nat)
    requires LoadTorrent(sha1, data, budget).Got? && !StraysIn(data, 0, 0)
    ensures root.TDict? && Well(root)
    ensures var run := LoadTorrent(sha1, data, budget); run.next <= |data| && data[..run.next] == Text(root)
    ensures IsFirst(root.pairs, INFO, k) && root.pairs[k].val.TDict?
    ensures var m := LoadTorrent(sha1, data, budget).value;
            && Field(root, ANNOUNCE, Str(m.announce)) && Field(root, COMMENT, Str(m.comment))
            && exists date: int64 :: Field(root, CREATION_DATE, Int(date)) && SameBits(m.creationDate, date)
    ensures InfoFields(root.pairs[k].val, LoadTorrent(sha1, data, budget).value.info)
    ensures var m := LoadTorrent(sha1, data, budget).value;
            var info := root.pairs[k].val;
            && m.infoHash == sha1(InfoBytes(m.info))
            && (InfoBytes(m.info) == Text(info) <==> Canonical(info) && |info.pairs| == 4)
  {
    root := RootText(data, budget);
    var m := LoadTorrent(sha1, data, budget).value;
    k := FirstInfo(sha1, root, m);
    RootFields(sha1, root, m);
  }

  /** The metadata has the values of the first pairs with the four keys, and whole hashes that join to the pieces string. */
  ghost predicate InfoFields(t: Tree, info: Info) {
    && Field(t, PIECE_LENGTH, Int(ToInt64(info.pieceLength))) && Field(t, LENGTH, Int(ToInt64(info.fileLength)))
    && Field(t, NAME, Str(info.fileName)) && Field(t, PIECES, Str(info.rawPieces))
    && Flatten(info.pieceHashes) == info.rawPieces
    && forall i :: 0 <= i < |info.pieceHashes| ==> |info.pieceHashes[i]| == HASH_LENGTH
  }

  lemma InfoHasFields(t: Tree, info: Info)
    requires t.TDict? && ParseInfoDict(Denote(t).entries) == Ok(info)
    ensures InfoFields(t, info)
  {
    InfoDictExact(Denote(t).entries);
    HasField(t, PIECE_LENGTH);
    HasField(t, LENGTH);
    HasField(t, NAME);
    HasField(t, PIECES);
  }

  lemma RootFields(sha1: Bytes -> Bytes, root: Tree, m: Metadata)
    requires FromRoot(sha1, Denote(root)) == Ok(m)
    ensures Field(root, ANNOUNCE, Str(m.announce)) && Field(root, COMMENT, Str(m.comment))
    ensures exists date: int64 :: Field(root, CREATION_DATE, Int(date)) && SameBits(m.creationDate, date)
  {
    RootExact(sha1, Denote(root));
    HasField(root, ANNOUNCE);
    HasField(root, COMMENT);
    HasField(root, CREATION_DATE);
  }

  /** What accepted metadata says about the root dictionary. */
  lemma RootHasInfo(sha1: Bytes -> Bytes, entries: seq<Entry>, m: Metadata) returns (infoDict: seq<Entry>)
    requires FromRoot(sha1, Dict(entries)) == Ok(m)
    ensures Lookup(entries, INFO) == Some(Dict(infoDict)) && ParseInfoDict(infoDict) == Ok(m.info)
    ensures m.infoHash == sha1(InfoBytes(m.info))
  {
    infoDict := ExtractDict(entries, INFO).value;
  }

  lemma FirstInfo(sha1: Bytes -> Bytes, root: Tree, m: Metadata) returns (k: nat)
    requires Well(root) && FromRoot(sha1, Denote(root)) == Ok(m)
    ensures root.TDict? && IsFirst(root.pairs, INFO, k) && root.pairs[k].val.TDict?
    ensures InfoFields(root.pairs[k].val, m.info)
    ensures m.infoHash == sha1(InfoBytes(m.info))
    ensures var info := root.pairs[k].val;
            InfoBytes(m.info) == Text(info) <==> Canonical(info) && |info.pairs| == 4
  {
    var infoDict := RootHasInfo(sha1, Denote(root).entries, m);
    k := FirstField(root, INFO);
    InfoHasFields(root.pairs[k].val, m.info);
    InfoBytesPreserved(root.pairs[k].val, m.info);
  }

  lemma RootText(data: Bytes, budget: nat) returns (root: Tree)
    requires Sized(data) && ReadValue(data, Coded(data), 0, 0, budget).Got? && !StraysIn(data, 0, 0)
    ensures var run := ReadValue(data, Coded(data), 0, 0, budget);
            Well(root) && run.next <= |data| && data[..run.next] == Text(root) && Denote(root) == run.value
  {
    CodeAcceptsTexts(data, 0, budget);
    var run := ReadValue(data, Coded(data), 0, 0, budget);
    root :| Well(root) && data[..run.next] == Text(root) && Denote(root) == run.value && 0 + Depth(root) <= MAX_RECURSION_DEPTH;
  }

  const PRIVATE: Bytes :=
    ['p' as byte, 'r' as byte, 'i' as byte, 'v' as byte, 'a' as byte, 't' as byte, 'e' as byte]

  const PRIVATE_INFO: seq<Entry> :=
    [Entry(LENGTH, Int(1)), Entry(NAME, Str([])), Entry(PIECE_LENGTH, Int(1)), Entry(PIECES, Str([])),
     Entry(PRIVATE, Int(1))]

  lemma PrivateInfoOrdered()
    ensures Ascending(PRIVATE_INFO)
  {
    KeyOrder();
    LessTail(PIECES, PRIVATE, 1);
    LessTransitive(PIECE_LENGTH, PIECES, PRIVATE);
    LessTransitive(NAME, PIECES, PRIVATE);
    LessTransitive(LENGTH, PIECES, PRIVATE);
  }

  lemma PrivateInfoParses()
    ensures ParseInfoDict(PRIVATE_INFO) == Ok(Info([], [], 1, 1, []))
  {
    PrivateInfoOrdered();
    AscendingLookup(PRIVATE_INFO, 0);
    AscendingLookup(PRIVATE_INFO, 1);
    AscendingLookup(PRIVATE_INFO, 2);
    AscendingLookup(PRIVATE_INFO, 3);
  }

  /** A torrent marked private, canonical as it is, is hashed under other bytes than its own. */
  lemma PrivateFlagChangesInfoHash() returns (t: Tree)
    ensures Well(t) && Canonical(t) && t.TDict?
    ensures var r := ParseInfoDict(Denote(t).entries); r.Ok? && InfoBytes(r.value) != Text(t)
  {
    PrivateInfoOrdered();
    PrivateInfoParses();
    t := Canon(Dict(PRIVATE_INFO));
    CanonText(Dict(PRIVATE_INFO));
    InfoBytesPreserved(t, Info([], [], 1, 1, []));
  }
}
