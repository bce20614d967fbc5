/**
 The format's language as concrete syntax trees, and the format's parser, which accepts exactly their
 texts; BencodeExact carries this over to the parser as coded. A tree keeps what the value drops: the
 spelling of each length field and the dictionary pairs in reading order, duplicates included.
 */
module BencodeGrammar {
  import opened Base
  import opened Decimal
  import opened Bencode

  datatype Tree =
    | TInt(n: int64)
    | TStr(field: Bytes, payload: Bytes)
    | TList(items: seq<Tree>)
    | TDict(pairs: seq<Pair>)

  datatype Pair = Pair(field: Bytes, key: Bytes, val: Tree)

  /** A length field announces a payload: its leading digits are the payload's size. */
  predicate Announces(field: Bytes, payload: Bytes) {
    && COLON !in field
    && DigitRun(field) != []
    && NatValue(DigitRun(field)) == |payload| < TWO_TO_THE_64
  }

  ghost predicate Well(t: Tree) {
    match t
    case TInt(_) => true
    case TStr(field, payload) => Announces(field, payload)
    case TList(items) => WellItems(items)
    case TDict(pairs) => WellPairs(pairs)
  }

  ghost predicate WellItems(items: seq<Tree>) {
    forall i :: 0 <= i < |items| ==> Well(items[i])
  }

  ghost predicate WellPairs(pairs: seq<Pair>) {
    forall i :: 0 <= i < |pairs| ==> Announces(pairs[i].field, pairs[i].key) && Well(pairs[i].val)
  }

  // The bytes a tree spells.

  function StringText(field: Bytes, payload: Bytes): Bytes {
    field + [COLON] + payload
  }

  function Text(t: Tree): Bytes {
    match t
    case TInt(n) => [INT_START] + IntText(n) + [END]
    case TStr(field, payload) => StringText(field, payload)
    case TList(items) => [LIST_START] + ItemsText(items) + [END]
    case TDict(pairs) => [DICT_START] + PairsText(pairs) + [END]
  }

  function ItemsText(items: seq<Tree>): Bytes {
    if items == [] then [] else Text(items[0]) + ItemsText(items[1..])
  }

  function PairsText(pairs: seq<Pair>): Bytes {
    if pairs == [] then []
    else StringText(pairs[0].field, pairs[0].key) + Text(pairs[0].val) + PairsText(pairs[1..])
  }

  // The value a tree means.

  function Denote(t: Tree): Value {
    match t
    case TInt(n) => Int(n)
    case TStr(_, payload) => Str(payload)
    case TList(items) => List(DenoteItems(items))
    case TDict(pairs) => Dict(FromPairs(DenotePairs(pairs)))
  }

  function DenoteItems(items: seq<Tree>): (vs: seq<Value>)
    ensures |vs| == |items|
    ensures forall i :: 0 <= i < |items| ==> vs[i] == Denote(items[i])
  {
    if items == [] then [] else [Denote(items[0])] + DenoteItems(items[1..])
  }

  function DenotePairs(pairs: seq<Pair>): (es: seq<Entry>)
    ensures |es| == |pairs|
    ensures forall i :: 0 <= i < |pairs| ==> es[i] == Entry(pairs[i].key, Denote(pairs[i].val))
  {
    if pairs == [] then [] else [Entry(pairs[0].key, Denote(pairs[0].val))] + DenotePairs(pairs[1..])
  }

  // The levels of recursion a tree takes.

  function Depth(t: Tree): nat {
    match t
    case TInt(_) => 0
    case TStr(_, _) => 0
    case TList(items) => ItemsDepth(items)
    case TDict(pairs) => PairsDepth(pairs)
  }

  function ItemsDepth(items: seq<Tree>): nat {
    if items == [] then 0 else Max(1 + Depth(items[0]), ItemsDepth(items[1..]))
  }

  function PairsDepth(pairs: seq<Pair>): nat {
    if pairs == [] then 0 else Max(1 + Depth(pairs[0].val), PairsDepth(pairs[1..]))
  }

  // ---------------------------------------------------------------- scanning lemmas

  // Concatenation facts, stated on arbitrary byte strings to keep the solver away from what they spell.

  lemma Enclosed(open: byte, body: Bytes, close: byte, rest: Bytes)
    ensures [open] + body + [close] + rest == [open] + (body + [close] + rest)
    ensures ([open] + body + [close] + rest)[0] == open
    ensures ([open] + body + [close] + rest)[1..] == body + [close] + rest
  {
  }

  lemma Regroup(a: Bytes, b: Bytes, c: Bytes, d: Bytes)
    ensures a + b + c + d == a + (b + c + d)
    ensures a != [] ==> (a + b + c + d)[0] == a[0]
  {
  }

  lemma RegroupPair(a: Bytes, b: Bytes, c: Bytes, d: Bytes, e: Bytes)
    ensures a + b + c + d + e == a + (b + (c + d + e))
    ensures a != [] ==> (a + b + c + d + e)[0] == a[0]
  {
  }

  lemma {:induction false} FindFirst(s: Bytes, c: byte, k: nat)
    requires k < |s| && s[k] == c && c !in s[..k]
    ensures Find(s, c) == Some(k)
  {
    if k > 0 {
      assert s[0] == s[..k][0];
      assert s[1..][..k - 1] == s[..k][1..];
      FindFirst(s[1..], c, k - 1);
    }
  }

  lemma FindTerminator(text: Bytes, c: byte, rest: Bytes)
    requires c !in text
    ensures Find(text + [c] + rest, c) == Some(|text|)
    ensures (text + [c] + rest)[..|text|] == text
    ensures (text + [c] + rest)[|text| + 1..] == rest
  {
    assert (text + [c] + rest)[..|text|] == text;
    FindFirst(text + [c] + rest, c, |text|);
  }

  /** A text without its terminator is determined by what follows being cut at the terminator. */
  lemma TerminatorSplits(a: Bytes, b: Bytes, c: byte, r: Bytes, s: Bytes)
    requires c !in a && c !in b
    requires a + [c] + r == b + [c] + s
    ensures a == b && r == s
  {
    FindTerminator(a, c, r);
    FindTerminator(b, c, s);
  }

  lemma IntTextHasNoEnd(n: int)
    ensures END !in IntText(n) && COLON !in IntText(n)
  {
    IntTextRoundTrip(n);
  }

  lemma PrinterAnnounces(payload: Bytes)
    requires |payload| < TWO_TO_THE_64
    ensures Announces(NatText(|payload|), payload)
  {
    NatTextRoundTrip(|payload|);
    DigitRunOfDigits(NatText(|payload|));
  }

  lemma TextStarts(t: Tree)
    requires Well(t)
    ensures Text(t) != [] && Text(t)[0] != END
    ensures t.TStr? <==> IsDigit(Text(t)[0])
  {
    if t.TStr? {
      var run := DigitRun(t.field);
      assert run[0] == t.field[0];
    }
  }

  lemma ParseStringText(field: Bytes, payload: Bytes, rest: Bytes)
    requires Announces(field, payload)
    ensures ParseString(StringText(field, payload) + rest) == Ok(Parsed(payload, rest))
  {
    var s := StringText(field, payload) + rest;
    assert s == field + [COLON] + (payload + rest);
    FindTerminator(field, COLON, payload + rest);
  }

  // ---------------------------------------------------------------- the parser meets the grammar

  /** Reading inverts printing on exactly the int64 range and overflows outside it. */
  lemma ParseIntText(n: int, rest: Bytes)
    ensures ParseInt([INT_START] + IntText(n) + [END] + rest) ==
            if -TWO_TO_THE_63 <= n < TWO_TO_THE_63 then Ok(Parsed(Int(n), rest)) else Err(OutOfRange)
  {
    var num := IntText(n);
    IntTextRoundTrip(n);
    IntTextHasNoEnd(n);
    Enclosed(INT_START, num, END, rest);
    FindTerminator(num, END, rest);
  }

  /** How ParseValue treats a container, given what follows its opening byte. */
  lemma ParseContainer(body: Bytes, depth: nat)
    requires depth <= MAX_RECURSION_DEPTH
    ensures ParseValue([LIST_START] + body, depth) ==
            var p := ParseItems(body, depth);
            if p.Ok? then Ok(Parsed(List(p.value.value), p.value.rest)) else Err(p.error)
    ensures ParseValue([DICT_START] + body, depth) ==
            var p := ParsePairs(body, depth);
            if p.Ok? then Ok(Parsed(Dict(FromPairs(p.value.value)), p.value.rest)) else Err(p.error)
  {
    assert ([LIST_START] + body)[1..] == body;
    assert ([DICT_START] + body)[1..] == body;
  }

  /**
   Completeness: the text of a tree, whatever follows it, is read back as the tree's value when the
   recursion limit allows it, and is refused for its depth when the limit does not.
   */
  lemma {:induction false} ParseText(t: Tree, rest: Bytes, depth: nat)
    requires Well(t)
    ensures ParseValue(Text(t) + rest, depth) ==
            if depth + Depth(t) <= MAX_RECURSION_DEPTH then Ok(Parsed(Denote(t), rest)) else Err(RuntimeError)
    decreases t
  {
    if depth <= MAX_RECURSION_DEPTH {
      match t
      case TInt(n) =>
        ParseIntText(n, rest);
      case TStr(field, payload) =>
        TextStarts(t);
        ParseStringText(field, payload, rest);
      case TList(items) =>
        var body := ItemsText(items) + [END] + rest;
        Enclosed(LIST_START, ItemsText(items), END, rest);
        ParseItemsText(items, rest, depth);
        ParseContainer(body, depth);
      case TDict(pairs) =>
        var body := PairsText(pairs) + [END] + rest;
        Enclosed(DICT_START, PairsText(pairs), END, rest);
        ParsePairsText(pairs, rest, depth);
        ParseContainer(body, depth);
    }
  }

  lemma {:induction false} ParseItemsText(items: seq<Tree>, rest: Bytes, depth: nat)
    requires WellItems(items)
    requires depth <= MAX_RECURSION_DEPTH
    ensures ParseItems(ItemsText(items) + [END] + rest, depth) ==
            if depth + ItemsDepth(items) <= MAX_RECURSION_DEPTH
            then Ok(Parsed(DenoteItems(items), rest)) else Err(RuntimeError)
    decreases items
  {
    var s := ItemsText(items) + [END] + rest;
    if items == [] {
      assert s == [END] + rest;
    } else {
      var after := ItemsText(items[1..]) + [END] + rest;
      Regroup(Text(items[0]), ItemsText(items[1..]), [END], rest);
      TextStarts(items[0]);
      ParseText(items[0], after, depth + 1);
      ParseItemsText(items[1..], rest, depth);
    }
  }

  lemma {:induction false} ParsePairsText(pairs: seq<Pair>, rest: Bytes, depth: nat)
    requires WellPairs(pairs)
    requires depth <= MAX_RECURSION_DEPTH
    ensures ParsePairs(PairsText(pairs) + [END] + rest, depth) ==
            if depth + PairsDepth(pairs) <= MAX_RECURSION_DEPTH
            then Ok(Parsed(DenotePairs(pairs), rest)) else Err(RuntimeError)
    decreases pairs
  {
    var s := PairsText(pairs) + [END] + rest;
    if pairs == [] {
      assert s == [END] + rest;
    } else {
      var p := pairs[0];
      var afterVal := PairsText(pairs[1..]) + [END] + rest;
      var afterKey := Text(p.val) + afterVal;
      RegroupPair(StringText(p.field, p.key), Text(p.val), PairsText(pairs[1..]), [END], rest);
      TextStarts(TStr(p.field, p.key));
      ParseStringText(p.field, p.key, afterKey);
      ParseText(p.val, afterVal, depth + 1);
      ParsePairsText(pairs[1..], rest, depth);
    }
  }

  lemma ParseStringSound(s: Bytes) returns (field: Bytes)
    requires ParseString(s).Ok?
    ensures var p := ParseString(s).value;
            Announces(field, p.value) && s == StringText(field, p.value) + p.rest
    ensures IsDigit(s[0])
  {
    var colon := Find(s, COLON).value;
    FindIsFirst(s, COLON);
    field := s[..colon];
    ParsedParts(s, colon);
    assert DigitRun(field)[0] == field[0];
    SplitAtColon(s, colon, ParseString(s).value.value, ParseString(s).value.rest);
  }

  /** A string that is read is the announced part of what stands behind the colon. */
  lemma ParsedParts(s: Bytes, colon: nat)
    requires ParseString(s).Ok? && Find(s, COLON) == Some(colon) && colon < |s|
    ensures var p := ParseString(s).value;
            FieldLength(s[..colon]) == Ok(|p.value|) && s[colon + 1..] == p.value + p.rest
  {
  }

  lemma SplitAtColon(s: Bytes, colon: nat, value: Bytes, rest: Bytes)
    requires colon < |s| && s[colon] == COLON && s[colon + 1..] == value + rest
    ensures s == StringText(s[..colon], value) + rest
  {
    assert s == s[..colon] + [COLON] + (value + rest);
  }

  lemma ParseIntSound(s: Bytes) returns (t: Tree)
    requires ParseInt(s).Ok?
    ensures t.TInt? && s == Text(t) + ParseInt(s).value.rest && Denote(t) == ParseInt(s).value.value
  {
    var end := Find(s[1..], END).value;
    FindIsFirst(s[1..], END);
    var num := s[1..][..end];
    IntTextOfValue(num);
    t := TInt(IntValue(num));
    assert s == [INT_START] + num + [END] + s[1..][end + 1..];
  }

  /** Soundness: whatever is accepted is the text of a tree with the returned value. */
  lemma {:induction false} ParseSound(s: Bytes, depth: nat) returns (t: Tree)
    requires ParseValue(s, depth).Ok?
    ensures var p := ParseValue(s, depth).value;
            Well(t) && s == Text(t) + p.rest && Denote(t) == p.value && depth + Depth(t) <= MAX_RECURSION_DEPTH
    decreases |s|, 0
  {
    if s[0] == INT_START {
      t := ParseIntSound(s);
    } else if IsDigit(s[0]) {
      var field := ParseStringSound(s);
      t := TStr(field, ParseString(s).value.value);
    } else if s[0] == LIST_START {
      var items := ParseItemsSound(s[1..], depth);
      t := TList(items);
      Enclosed(LIST_START, ItemsText(items), END, ParseItems(s[1..], depth).value.rest);
      assert s == [LIST_START] + s[1..];
    } else {
      var pairs := ParsePairsSound(s[1..], depth);
      t := TDict(pairs);
      Enclosed(DICT_START, PairsText(pairs), END, ParsePairs(s[1..], depth).value.rest);
      assert s == [DICT_START] + s[1..];
    }
  }

  lemma {:induction false} ParseItemsSound(s: Bytes, depth: nat) returns (items: seq<Tree>)
    requires depth <= MAX_RECURSION_DEPTH && ParseItems(s, depth).Ok?
    ensures WellItems(items)
    ensures var p := ParseItems(s, depth).value;
            && s == ItemsText(items) + [END] + p.rest && DenoteItems(items) == p.value
            && depth + ItemsDepth(items) <= MAX_RECURSION_DEPTH
    decreases |s|, 1
  {
    if s[0] == END {
      items := [];
      assert s == [END] + s[1..];
    } else {
      var first := ParseSound(s, depth + 1);
      var others := ParseItemsSound(ParseValue(s, depth + 1).value.rest, depth);
      items := [first] + others;
      ItemsCons(first, others, ParseItems(s, depth).value.rest);
    }
  }

  lemma {:induction false} ParsePairsSound(s: Bytes, depth: nat) returns (pairs: seq<Pair>)
    requires depth <= MAX_RECURSION_DEPTH && ParsePairs(s, depth).Ok?
    ensures WellPairs(pairs)
    ensures var p := ParsePairs(s, depth).value;
            && s == PairsText(pairs) + [END] + p.rest && DenotePairs(pairs) == p.value
            && depth + PairsDepth(pairs) <= MAX_RECURSION_DEPTH
    decreases |s|, 1
  {
    if s[0] == END {
      pairs := [];
      assert s == [END] + s[1..];
    } else {
      var key := ParseString(s).value;
      var val := ParseValue(key.rest, depth + 1).value;
      var field := ParseStringSound(s);
      var tree := ParseSound(key.rest, depth + 1);
      var others := ParsePairsSound(val.rest, depth);
      pairs := [Pair(field, key.value, tree)] + others;
      PairsCons(Pair(field, key.value, tree), others, ParsePairs(val.rest, depth).value.rest);
    }
  }

  lemma ItemsCons(first: Tree, others: seq<Tree>, rest: Bytes)
    ensures var items := [first] + others;
            && (Well(first) && WellItems(others) ==> WellItems(items))
            && ItemsText(items) + [END] + rest == Text(first) + (ItemsText(others) + [END] + rest)
            && DenoteItems(items) == [Denote(first)] + DenoteItems(others)
            && ItemsDepth(items) == Max(1 + Depth(first), ItemsDepth(others))
  {
    assert ([first] + others)[1..] == others;
    Regroup(Text(first), ItemsText(others), [END], rest);
  }

  lemma PairsCons(first: Pair, others: seq<Pair>, rest: Bytes)
    ensures var pairs := [first] + others;
            && (Announces(first.field, first.key) && Well(first.val) && WellPairs(others) ==> WellPairs(pairs))
            && PairsText(pairs) + [END] + rest ==
               StringText(first.field, first.key) + (Text(first.val) + (PairsText(others) + [END] + rest))
            && DenotePairs(pairs) == [Entry(first.key, Denote(first.val))] + DenotePairs(others)
            && PairsDepth(pairs) == Max(1 + Depth(first.val), PairsDepth(others))
  {
    assert ([first] + others)[1..] == others;
    RegroupPair(StringText(first.field, first.key), Text(first.val), PairsText(others), [END], rest);
  }

  /** The parser accepts exactly the texts of trees within the limit, with the tree's value. */
  lemma ParserMeetsGrammar(s: Bytes, depth: nat, v: Value, rest: Bytes)
    ensures ParseValue(s, depth) == Ok(Parsed(v, rest)) <==>
            exists t :: Well(t) && s == Text(t) + rest && Denote(t) == v && depth + Depth(t) <= MAX_RECURSION_DEPTH
  {
    if ParseValue(s, depth) == Ok(Parsed(v, rest)) {
      var t := ParseSound(s, depth);
    }
    forall t | Well(t) && s == Text(t) + rest && Denote(t) == v && depth + Depth(t) <= MAX_RECURSION_DEPTH
      ensures ParseValue(s, depth) == Ok(Parsed(v, rest))
    {
      ParseText(t, rest, depth);
    }
  }

  // ---------------------------------------------------------------- the grammar is unambiguous

  /** No text of a tree is a proper prefix of another's, and a text determines its tree. */
  lemma {:induction false} Unambiguous(t: Tree, u: Tree, r: Bytes, q: Bytes)
    requires Well(t) && Well(u) && Text(t) + r == Text(u) + q
    ensures t == u && r == q
    decreases t
  {
    TextStarts(t);
    TextStarts(u);
    assert Text(t)[0] == (Text(t) + r)[0] == Text(u)[0];
    match t
    case TInt(n) =>
      UnambiguousInt(n, u.n, r, q);
    case TStr(field, payload) =>
      UnambiguousString(field, payload, u.field, u.payload, r, q);
    case TList(items) =>
      Enclosed(LIST_START, ItemsText(items), END, r);
      Enclosed(LIST_START, ItemsText(u.items), END, q);
      UnambiguousItems(items, u.items, r, q);
    case TDict(pairs) =>
      Enclosed(DICT_START, PairsText(pairs), END, r);
      Enclosed(DICT_START, PairsText(u.pairs), END, q);
      UnambiguousPairs(pairs, u.pairs, r, q);
  }

  lemma UnambiguousInt(n: int64, m: int64, r: Bytes, q: Bytes)
    requires Text(TInt(n)) + r == Text(TInt(m)) + q
    ensures n == m && r == q
  {
    Enclosed(INT_START, IntText(n), END, r);
    Enclosed(INT_START, IntText(m), END, q);
    IntTextHasNoEnd(n);
    IntTextHasNoEnd(m);
    TerminatorSplits(IntText(n), IntText(m), END, r, q);
    IntTextRoundTrip(n);
    IntTextRoundTrip(m);
  }

  lemma UnambiguousString(f: Bytes, p: Bytes, g: Bytes, o: Bytes, r: Bytes, q: Bytes)
    requires Announces(f, p) && Announces(g, o)
    requires StringText(f, p) + r == StringText(g, o) + q
    ensures f == g && p == o && r == q
  {
    assert StringText(f, p) + r == f + [COLON] + (p + r);
    assert StringText(g, o) + q == g + [COLON] + (o + q);
    TerminatorSplits(f, g, COLON, p + r, o + q);
    assert (p + r)[..|p|] == p && (o + q)[..|p|] == o;
    assert (p + r)[|p|..] == r && (o + q)[|p|..] == q;
  }

  /** Where a container's contents end: its text followed by END starts with END exactly when it is empty. */
  lemma ItemsStart(items: seq<Tree>, r: Bytes)
    requires WellItems(items)
    ensures items == [] <==> (ItemsText(items) + [END] + r)[0] == END
    ensures items == [] ==> (ItemsText(items) + [END] + r)[1..] == r
    ensures items != [] ==>
              ItemsText(items) + [END] + r == Text(items[0]) + (ItemsText(items[1..]) + [END] + r)
  {
    if items != [] {
      TextStarts(items[0]);
      Regroup(Text(items[0]), ItemsText(items[1..]), [END], r);
    }
  }

  lemma PairsStart(pairs: seq<Pair>, r: Bytes)
    requires forall i :: 0 <= i < |pairs| ==> Announces(pairs[i].field, pairs[i].key)
    ensures pairs == [] <==> (PairsText(pairs) + [END] + r)[0] == END
    ensures pairs == [] ==> (PairsText(pairs) + [END] + r)[1..] == r
    ensures pairs != [] ==>
              PairsText(pairs) + [END] + r ==
              StringText(pairs[0].field, pairs[0].key) + (Text(pairs[0].val) + (PairsText(pairs[1..]) + [END] + r))
  {
    if pairs != [] {
      TextStarts(TStr(pairs[0].field, pairs[0].key));
      RegroupPair(StringText(pairs[0].field, pairs[0].key), Text(pairs[0].val), PairsText(pairs[1..]), [END], r);
    }
  }

  lemma {:induction false} UnambiguousItems(a: seq<Tree>, b: seq<Tree>, r: Bytes, q: Bytes)
    requires WellItems(a)
    requires WellItems(b)
    requires ItemsText(a) + [END] + r == ItemsText(b) + [END] + q
    ensures a == b && r == q
    decreases a
  {
    ItemsStart(a, r);
    ItemsStart(b, q);
    if a != [] {
      Unambiguous(a[0], b[0], ItemsText(a[1..]) + [END] + r, ItemsText(b[1..]) + [END] + q);
      UnambiguousItems(a[1..], b[1..], r, q);
      assert a == [a[0]] + a[1..] && b == [b[0]] + b[1..];
    }
  }

  lemma UnambiguousPair(a: Pair, b: Pair, r: Bytes, q: Bytes)
    requires Announces(a.field, a.key) && Well(a.val) && Announces(b.field, b.key) && Well(b.val)
    requires StringText(a.field, a.key) + (Text(a.val) + r) == StringText(b.field, b.key) + (Text(b.val) + q)
    ensures a == b && r == q
    decreases a
  {
    UnambiguousString(a.field, a.key, b.field, b.key, Text(a.val) + r, Text(b.val) + q);
    Unambiguous(a.val, b.val, r, q);
  }

  lemma {:induction false} UnambiguousPairs(a: seq<Pair>, b: seq<Pair>, r: Bytes, q: Bytes)
    requires WellPairs(a)
    requires WellPairs(b)
    requires PairsText(a) + [END] + r == PairsText(b) + [END] + q
    ensures a == b && r == q
    decreases a
  {
    PairsStart(a, r);
    PairsStart(b, q);
    if a != [] {
      UnambiguousPair(a[0], b[0], PairsText(a[1..]) + [END] + r, PairsText(b[1..]) + [END] + q);
      UnambiguousPairs(a[1..], b[1..], r, q);
      assert a == [a[0]] + a[1..] && b == [b[0]] + b[1..];
    }
  }

  // ---------------------------------------------------------------- canonical trees

  /** The tree the printer spells for a value. */
  function Canon(v: Value): Tree {
    match v
    case Int(n) => TInt(n)
    case Str(s) => TStr(NatText(|s|), s)
    case List(items) => TList(CanonItems(items))
    case Dict(entries) => TDict(CanonEntries(entries))
  }

  function CanonItems(items: seq<Value>): (ts: seq<Tree>)
    ensures |ts| == |items| && forall i :: 0 <= i < |items| ==> ts[i] == Canon(items[i])
  {
    if items == [] then [] else [Canon(items[0])] + CanonItems(items[1..])
  }

  function CanonEntries(entries: seq<Entry>): (ps: seq<Pair>)
    ensures |ps| == |entries|
    ensures forall i :: 0 <= i < |entries| ==>
                          ps[i] == Pair(NatText(|entries[i].key|), entries[i].key, Canon(entries[i].val))
  {
    if entries == [] then []
    else [Pair(NatText(|entries[0].key|), entries[0].key, Canon(entries[0].val))] + CanonEntries(entries[1..])
  }

  /** Canonical spelling: printed length fields and strictly ascending keys, at every level. */
  ghost predicate Canonical(t: Tree) {
    match t
    case TInt(_) => true
    case TStr(field, payload) => field == NatText(|payload|)
    case TList(items) => forall i :: 0 <= i < |items| ==> Canonical(items[i])
    case TDict(pairs) =>
      && (forall i :: 0 <= i < |pairs| ==> pairs[i].field == NatText(|pairs[i].key|) && Canonical(pairs[i].val))
      && forall i, j :: 0 <= i < j < |pairs| ==> Less(pairs[i].key, pairs[j].key)
  }

  lemma {:induction false} CanonText(v: Value)
    requires WellFormed(v)
    ensures Well(Canon(v)) && Canonical(Canon(v))
    ensures Text(Canon(v)) == Encode(v) && Denote(Canon(v)) == v && Depth(Canon(v)) == Height(v)
    decreases v
  {
    match v
    case Int(_) =>
    case Str(s) => PrinterAnnounces(s);
    case List(items) =>
      forall i | 0 <= i < |items|
        ensures Well(Canon(items[i])) && Canonical(Canon(items[i])) && Denote(Canon(items[i])) == items[i]
      {
        CanonText(items[i]);
      }
      CanonItemsText(items);
    case Dict(entries) =>
      forall i | 0 <= i < |entries|
        ensures Well(Canon(entries[i].val)) && Canonical(Canon(entries[i].val))
        ensures Denote(Canon(entries[i].val)) == entries[i].val
        ensures Announces(NatText(|entries[i].key|), entries[i].key)
      {
        CanonText(entries[i].val);
        PrinterAnnounces(entries[i].key);
      }
      CanonEntriesText(entries);
      assert DenotePairs(CanonEntries(entries)) == entries;
      OrderedPairsKept(entries);
  }

  lemma {:induction false} CanonItemsText(items: seq<Value>)
    requires forall i :: 0 <= i < |items| ==> WellFormed(items[i])
    ensures ItemsText(CanonItems(items)) == EncodeItems(items)
    ensures ItemsDepth(CanonItems(items)) == ItemsHeight(items)
    decreases items
  {
    if items != [] {
      CanonText(items[0]);
      CanonItemsText(items[1..]);
      assert CanonItems(items)[1..] == CanonItems(items[1..]);
    }
  }

  lemma {:induction false} CanonEntriesText(entries: seq<Entry>)
    requires forall i :: 0 <= i < |entries| ==> WellFormed(entries[i].val)
    ensures PairsText(CanonEntries(entries)) == EncodeEntries(entries)
    ensures PairsDepth(CanonEntries(entries)) == EntriesHeight(entries)
    decreases entries
  {
    if entries != [] {
      CanonText(entries[0].val);
      CanonEntriesText(entries[1..]);
      assert CanonEntries(entries)[1..] == CanonEntries(entries[1..]);
    }
  }

  lemma {:induction false} CanonicalIsCanon(t: Tree)
    requires Well(t) && Canonical(t)
    ensures Canon(Denote(t)) == t
    decreases t
  {
    match t
    case TInt(_) =>
    case TStr(_, _) =>
    case TList(items) =>
      forall i | 0 <= i < |items|
        ensures Canon(Denote(items[i])) == items[i]
      {
        CanonicalIsCanon(items[i]);
      }
      assert CanonItems(DenoteItems(items)) == items;
    case TDict(pairs) =>
      forall i | 0 <= i < |pairs|
        ensures Canon(Denote(pairs[i].val)) == pairs[i].val
      {
        CanonicalIsCanon(pairs[i].val);
      }
      OrderedPairsKept(DenotePairs(pairs));
      assert CanonEntries(DenotePairs(pairs)) == pairs;
  }

  // ---------------------------------------------------------------- what the codec promises

  /** Round trip with any suffix: read back exactly within the depth limit, refused beyond it. */
  lemma RoundTrip(v: Value, rest: Bytes, depth: nat)
    requires WellFormed(v)
    ensures ParseValue(Encode(v) + rest, depth) ==
            if depth + Height(v) <= MAX_RECURSION_DEPTH then Ok(Parsed(v, rest)) else Err(RuntimeError)
  {
    CanonText(v);
    ParseText(Canon(v), rest, depth);
  }

  /** Encodings are prefix-free, so concatenated encodings decode uniquely; in particular Encode is injective. */
  lemma PrefixFree(a: Value, b: Value, r: Bytes, q: Bytes)
    requires WellFormed(a) && WellFormed(b)
    requires Encode(a) + r == Encode(b) + q
    ensures a == b && r == q
  {
    CanonText(a);
    CanonText(b);
    Unambiguous(Canon(a), Canon(b), r, q);
  }

  lemma {:induction false} DenoteWellFormed(t: Tree)
    requires Well(t)
    ensures WellFormed(Denote(t)) && Height(Denote(t)) <= Depth(t)
    decreases t
  {
    match t
    case TInt(_) =>
    case TStr(_, _) =>
    case TList(items) =>
      DenoteItemsHeight(items);
    case TDict(pairs) =>
      var read := DenotePairs(pairs);
      FirstOfDuplicatesKept(read);
      var entries := FromPairs(read);
      DenotePairsHeight(pairs);
      forall i | 0 <= i < |entries|
        ensures |entries[i].key| < TWO_TO_THE_64 && WellFormed(entries[i].val)
        ensures 1 + Height(entries[i].val) <= PairsDepth(pairs)
      {
        AscendingLookup(entries, i);
        LookupFinds(read, entries[i].key);
      }
      EntriesHeightBound(entries, PairsDepth(pairs));
  }

  lemma {:induction false} AscendingLookup(entries: seq<Entry>, i: nat)
    requires Ascending(entries) && i < |entries|
    ensures Lookup(entries, entries[i].key) == Some(entries[i].val)
  {
    if i > 0 {
      LessTotal(entries[0].key, entries[0].key);
      assert Less(entries[0].key, entries[i].key);
      assert entries == [entries[0]] + entries[1..];
      AscendingCons(entries[0], entries[1..]);
      AscendingLookup(entries[1..], i - 1);
    }
  }

  lemma {:induction false} EntriesHeightBound(entries: seq<Entry>, bound: nat)
    requires forall i :: 0 <= i < |entries| ==> 1 + Height(entries[i].val) <= bound
    ensures EntriesHeight(entries) <= bound
  {
    if entries != [] {
      EntriesHeightBound(entries[1..], bound);
    }
  }

  lemma {:induction false} DenoteItemsHeight(items: seq<Tree>)
    requires WellItems(items)
    ensures forall i :: 0 <= i < |items| ==> WellFormed(Denote(items[i]))
    ensures ItemsHeight(DenoteItems(items)) <= ItemsDepth(items)
    decreases items
  {
    if items != [] {
      DenoteWellFormed(items[0]);
      DenoteItemsHeight(items[1..]);
      assert DenoteItems(items)[1..] == DenoteItems(items[1..]);
      forall i | 0 <= i < |items|
        ensures WellFormed(Denote(items[i]))
      {
        assert i > 0 ==> items[i] == items[1..][i - 1];
      }
    }
  }

  lemma {:induction false} DenotePairsHeight(pairs: seq<Pair>)
    requires WellPairs(pairs)
    ensures forall i :: 0 <= i < |pairs| ==>
                          WellFormed(Denote(pairs[i].val)) && 1 + Height(Denote(pairs[i].val)) <= PairsDepth(pairs)
    decreases pairs
  {
    if pairs != [] {
      DenoteWellFormed(pairs[0].val);
      DenotePairsHeight(pairs[1..]);
      forall i | 0 <= i < |pairs|
        ensures WellFormed(Denote(pairs[i].val)) && 1 + Height(Denote(pairs[i].val)) <= PairsDepth(pairs)
      {
        assert i > 0 ==> pairs[i] == pairs[1..][i - 1];
      }
    }
  }

  /** Printing the value of a tree returns its text exactly when the text was canonical. */
  lemma CanonicalPrints(t: Tree)
    requires Well(t)
    ensures Encode(Denote(t)) == Text(t) <==> Canonical(t)
  {
    DenoteWellFormed(t);
    CanonText(Denote(t));
    if Canonical(t) {
      CanonicalIsCanon(t);
    }
    if Encode(Denote(t)) == Text(t) {
      Unambiguous(Canon(Denote(t)), t, [], []);
    }
  }

  /**
   Normalisation: what was accepted prints to a text that is accepted again at the same depth with
   the same value, and printing returns the bytes that were read exactly when they were canonical.
   */
  lemma Normalises(t: Tree, rest: Bytes, depth: nat)
    requires Well(t) && depth + Depth(t) <= MAX_RECURSION_DEPTH
    ensures ParseValue(Text(t) + rest, depth) == Ok(Parsed(Denote(t), rest))
    ensures ParseValue(Encode(Denote(t)) + rest, depth) == Ok(Parsed(Denote(t), rest))
    ensures Encode(Denote(t)) == Text(t) <==> Canonical(t)
  {
    ParseText(t, rest, depth);
    DenoteWellFormed(t);
    RoundTrip(Denote(t), rest, depth);
    CanonicalPrints(t);
  }
}
