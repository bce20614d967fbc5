/**
 The parser as coded against the format's parser and its grammar, on every input. They agree unless the
 parse comes to a length field that is read otherwise. The code ends unless it comes to one that moves
 the position back, and if it does not end within a known number of calls it never does. Inputs on which
 it goes wrong are at the end.
 */
module BencodeExact {
  import opened Base
  import opened Decimal
  import opened Bencode
  import opened BencodeGrammar
  import opened BencodeCode

  // ---------------------------------------------------------------- the format's parser by positions

  /** What g reads is what the format's parser reads from the suffix. */
  ghost predicate IsFormat(data: Bytes, g: Fields) {
    && (forall q {:trigger StringAt(data, q)} :: 0 <= q <= |data| ==> g.strings(q) == StringAt(data, q))
    && forall q {:trigger IntAt(data, q)} :: 0 <= q <= |data| ==> g.ints(q) == IntAt(data, q)
  }

  lemma RestIs(data: Bytes, pos: nat, text: Bytes, rest: Bytes)
    requires pos <= |data| && data[pos..] == text + rest
    ensures |rest| <= |data| - pos && rest == data[|data| - |rest|..]
  {
    var next := |data| - |rest|;
    assert data[pos..][|text|..] == rest;
    assert data[pos..][|text|..] == data[next..];
  }

  lemma ValueRest(data: Bytes, pos: nat, depth: nat)
    requires pos <= |data| && ParseValue(data[pos..], depth).Ok?
    ensures var rest := ParseValue(data[pos..], depth).value.rest;
            |rest| < |data| - pos && rest == data[|data| - |rest|..]
  {
    var t := ParseSound(data[pos..], depth);
    RestIs(data, pos, Text(t), ParseValue(data[pos..], depth).value.rest);
  }

  lemma StringRest(data: Bytes, pos: nat)
    requires pos <= |data| && ParseString(data[pos..]).Ok?
    ensures var rest := ParseString(data[pos..]).value.rest;
            |rest| < |data| - pos && rest == data[|data| - |rest|..]
  {
    var p := ParseString(data[pos..]).value;
    var field := ParseStringSound(data[pos..]);
    RestIs(data, pos, StringText(field, p.value), p.rest);
  }

  // The format's parser at a position, one step at a time.

  function AsList(r: Run<seq<Value>>): Run<Value> {
    if r.Got? then Got(List(r.value), r.next) else Ended(r)
  }

  function AsDict(r: Run<seq<Entry>>): Run<Value> {
    if r.Got? then Got(Dict(FromPairs(r.value)), r.next) else Ended(r)
  }

  function ValueAt(data: Bytes, pos: nat, depth: nat): Run<Value>
    requires pos <= |data|
  {
    At(data, ParseValue(data[pos..], depth))
  }

  function ItemsAt(data: Bytes, pos: nat, depth: nat): Run<seq<Value>>
    requires pos <= |data|
  {
    At(data, ParseItems(data[pos..], depth))
  }

  function PairsAt(data: Bytes, pos: nat, depth: nat): Run<seq<Entry>>
    requires pos <= |data|
  {
    At(data, ParsePairs(data[pos..], depth))
  }

  lemma ListAt(data: Bytes, pos: nat, depth: nat)
    requires pos < |data| && data[pos] == LIST_START && depth <= MAX_RECURSION_DEPTH
    ensures ValueAt(data, pos, depth) == AsList(ItemsAt(data, pos + 1, depth))
  {
    assert data[pos..][1..] == data[pos + 1..];
  }

  lemma DictAt(data: Bytes, pos: nat, depth: nat)
    requires pos < |data| && data[pos] == DICT_START && depth <= MAX_RECURSION_DEPTH
    ensures ValueAt(data, pos, depth) == AsDict(PairsAt(data, pos + 1, depth))
  {
    assert data[pos..][1..] == data[pos + 1..];
  }

  lemma FieldAt(data: Bytes, g: Fields, pos: nat, depth: nat, budget: nat)
    requires IsFormat(data, g) && pos <= |data|
    requires pos < |data| && depth <= MAX_RECURSION_DEPTH ==> data[pos] != LIST_START && data[pos] != DICT_START
    ensures ReadValue(data, g, pos, depth, budget) == ValueAt(data, pos, depth)
  {
    assert g.strings(pos) == StringAt(data, pos) && g.ints(pos) == IntAt(data, pos);
  }

  lemma CloseAt(data: Bytes, pos: nat, depth: nat)
    requires pos <= |data| && (pos < |data| ==> data[pos] == END)
    ensures ItemsAt(data, pos, depth) == if pos < |data| then Got([], pos + 1) else Failed(InvalidArgument)
    ensures PairsAt(data, pos, depth) == if pos < |data| then Got([], pos + 1) else Failed(InvalidArgument)
  {
  }

  lemma ItemAt(data: Bytes, pos: nat, depth: nat)
    requires pos < |data| && data[pos] != END
    ensures var first := ValueAt(data, pos, depth + 1);
            ItemsAt(data, pos, depth) ==
            Cons(first, if first.Got? then ItemsAt(data, first.next, depth) else Unfinished)
    ensures ValueAt(data, pos, depth + 1).Got? ==> pos < ValueAt(data, pos, depth + 1).next
  {
    var first := ParseValue(data[pos..], depth + 1);
    if first.Ok? {
      ValueRest(data, pos, depth + 1);
    }
  }

  /** A pair, given its key. */
  function PairFrom(key: Result<Parsed<Bytes>>, depth: nat): (r: Result<Parsed<Entry>>)
    ensures r.Ok? ==> key.Ok? && |r.value.rest| < |key.value.rest|
  {
    var k :- key;
    var val :- ParseValue(k.rest, depth + 1);
    Ok(Parsed(Entry(k.value, val.value), val.rest))
  }

  lemma PairIs(s: Bytes, depth: nat)
    ensures ParsePair(s, depth) == PairFrom(ParseString(s), depth)
  {
  }

  /** What is left to read ends where the data ends. */
  predicate IsTail<T>(data: Bytes, spec: Result<Parsed<T>>) {
    spec.Ok? ==> |spec.value.rest| <= |data| && spec.value.rest == data[|data| - |spec.value.rest|..]
  }

  lemma KeyAt(data: Bytes, key: Result<Parsed<Bytes>>, depth: nat)
    requires IsTail(data, key)
    ensures var k, spec := At(data, key), PairFrom(key, depth);
            && IsTail(data, spec)
            && At(data, spec) == WithKey(k, if k.Got? then ValueAt(data, k.next, depth + 1) else Unfinished)
  {
    if key.Ok? {
      var next := |data| - |key.value.rest|;
      if ParseValue(data[next..], depth + 1).Ok? {
        ValueRest(data, next, depth + 1);
      }
    }
  }

  lemma PairRest(data: Bytes, pos: nat, depth: nat)
    requires pos <= |data|
    ensures IsTail(data, ParsePair(data[pos..], depth))
  {
    var key := ParseString(data[pos..]);
    PairIs(data[pos..], depth);
    if key.Ok? {
      StringRest(data, pos);
    }
    KeyAt(data, key, depth);
  }

  /** The pairs, given the first. */
  function PairsFrom(first: Result<Parsed<Entry>>, depth: nat): (r: Result<Parsed<seq<Entry>>>)
    ensures r.Ok? ==> first.Ok? && |r.value.rest| < |first.value.rest|
  {
    var p :- first;
    var others :- ParsePairs(p.rest, depth);
    Ok(Parsed([p.value] + others.value, others.rest))
  }

  lemma PairsAre(s: Bytes, depth: nat)
    requires s != [] && s[0] != END
    ensures ParsePairs(s, depth) == PairsFrom(ParsePair(s, depth), depth)
  {
  }

  lemma PairsAfter(data: Bytes, first: Result<Parsed<Entry>>, depth: nat)
    requires IsTail(data, first)
    ensures var run := At(data, first);
            At(data, PairsFrom(first, depth)) ==
            Cons(run, if run.Got? then PairsAt(data, run.next, depth) else Unfinished)
  {
  }

  /** A budget of two for each byte left is enough for the format's parser. */
  lemma {:induction false} FormatValue(data: Bytes, g: Fields, pos: nat, depth: nat, budget: nat)
    requires IsFormat(data, g) && pos <= |data| && budget >= 2 * (|data| - pos)
    ensures ReadValue(data, g, pos, depth, budget) == ValueAt(data, pos, depth)
    decreases |data| - pos, 0
  {
    if pos < |data| && data[pos] == LIST_START && depth <= MAX_RECURSION_DEPTH {
      FormatItems(data, g, pos + 1, depth, budget - 1);
      ListAt(data, pos, depth);
    } else if pos < |data| && data[pos] == DICT_START && depth <= MAX_RECURSION_DEPTH {
      FormatPairs(data, g, pos + 1, depth, budget - 1);
      DictAt(data, pos, depth);
    } else {
      FieldAt(data, g, pos, depth, budget);
    }
  }

  /** One turn of the list loop. */
  lemma FormatItem(data: Bytes, g: Fields, pos: nat, depth: nat, budget: nat) returns (first: Run<Value>)
    requires IsFormat(data, g) && pos < |data| && data[pos] != END && budget >= 2 * (|data| - pos)
    ensures first.Got? ==> pos < first.next <= |data|
    ensures ReadItems(data, g, pos, depth, budget + 1) ==
            Cons(first, if first.Got? then ReadItems(data, g, first.next, depth, budget) else Unfinished)
    ensures ItemsAt(data, pos, depth) ==
            Cons(first, if first.Got? then ItemsAt(data, first.next, depth) else Unfinished)
    decreases |data| - pos, 1
  {
    first := ReadValue(data, g, pos, depth + 1, budget);
    FormatValue(data, g, pos, depth + 1, budget);
    ItemAt(data, pos, depth);
  }

  lemma {:induction false} FormatItems(data: Bytes, g: Fields, pos: nat, depth: nat, budget: nat)
    requires IsFormat(data, g) && pos <= |data| && budget >= 2 * (|data| - pos) + 1
    ensures ReadItems(data, g, pos, depth, budget) == ItemsAt(data, pos, depth)
    decreases |data| - pos, 2
  {
    if pos < |data| && data[pos] != END {
      var first := FormatItem(data, g, pos, depth, budget - 1);
      if first.Got? {
        FormatItems(data, g, first.next, depth, budget - 1);
      }
    } else {
      CloseAt(data, pos, depth);
    }
  }

  /** The pair at pos, given what was read as its key. */
  lemma FormatKeyed(data: Bytes, g: Fields, pos: nat, key: Result<Parsed<Bytes>>, depth: nat, budget: nat)
    requires IsFormat(data, g) && pos <= |data| && budget >= 2 * (|data| - pos)
    requires IsTail(data, key) && (key.Ok? ==> |key.value.rest| < |data| - pos)
    ensures var k := At(data, key);
            At(data, PairFrom(key, depth)) ==
            WithKey(k, if k.Got? then ReadValue(data, g, k.next, depth + 1, budget) else Unfinished)
    decreases |data| - pos, 1
  {
    if key.Ok? {
      FormatValue(data, g, |data| - |key.value.rest|, depth + 1, budget);
    }
    KeyAt(data, key, depth);
  }

  lemma KeyRead(data: Bytes, g: Fields, pos: nat, depth: nat, budget: nat, key: Run<Bytes>)
    requires key == g.strings(pos)
    ensures ReadPair(data, g, pos, depth, budget) ==
            WithKey(key, if key.Got? then ReadValue(data, g, key.next, depth + 1, budget) else Unfinished)
  {
  }

  lemma FormatPair(data: Bytes, g: Fields, pos: nat, depth: nat, budget: nat)
    requires IsFormat(data, g) && pos <= |data| && budget >= 2 * (|data| - pos)
    ensures ReadPair(data, g, pos, depth, budget) == At(data, ParsePair(data[pos..], depth))
    decreases |data| - pos, 2
  {
    var key := ParseString(data[pos..]);
    if key.Ok? {
      StringRest(data, pos);
    }
    FormatKeyed(data, g, pos, key, depth, budget);
    assert g.strings(pos) == StringAt(data, pos);
    KeyRead(data, g, pos, depth, budget, At(data, key));
    PairIs(data[pos..], depth);
  }

  /** One turn of the dictionary loop. */
  lemma FormatTurn(data: Bytes, g: Fields, pos: nat, depth: nat, budget: nat) returns (first: Run<Entry>)
    requires IsFormat(data, g) && pos < |data| && data[pos] != END && budget >= 2 * (|data| - pos)
    ensures first.Got? ==> pos < first.next <= |data|
    ensures ReadPairs(data, g, pos, depth, budget + 1) ==
            Cons(first, if first.Got? then ReadPairs(data, g, first.next, depth, budget) else Unfinished)
    ensures PairsAt(data, pos, depth) ==
            Cons(first, if first.Got? then PairsAt(data, first.next, depth) else Unfinished)
    decreases |data| - pos, 3
  {
    first := ReadPair(data, g, pos, depth, budget);
    FormatPair(data, g, pos, depth, budget);
    PairRest(data, pos, depth);
    PairsAre(data[pos..], depth);
    PairsAfter(data, ParsePair(data[pos..], depth), depth);
  }

  lemma {:induction false} FormatPairs(data: Bytes, g: Fields, pos: nat, depth: nat, budget: nat)
    requires IsFormat(data, g) && pos <= |data| && budget >= 2 * (|data| - pos) + 1
    ensures ReadPairs(data, g, pos, depth, budget) == PairsAt(data, pos, depth)
    decreases |data| - pos, 4
  {
    if pos < |data| && data[pos] != END {
      var first := FormatTurn(data, g, pos, depth, budget - 1);
      if first.Got? {
        FormatPairs(data, g, first.next, depth, budget - 1);
      }
    } else {
      CloseAt(data, pos, depth);
    }
  }

  // ---------------------------------------------------------------- the parser as coded against the format's

  function Straying(data: Bytes): nat -> bool {
    (pos: nat) => pos <= |data| && Strays(data, pos)
  }

  /** The parse of the value at a position comes to a string that strays. */
  predicate StraysIn(data: Bytes, pos: nat, depth: nat) {
    MeetsValue(data, Format(data), Straying(data), pos, depth, 2 * |data|)
  }

  lemma CodedDiffers(data: Bytes)
    requires Sized(data)
    ensures DifferAt(Coded(data), Format(data), Straying(data))
    ensures IsFormat(data, Format(data))
  {
    forall q: nat | q <= |data|
      ensures Coded(data).strings(q) == Format(data).strings(q) <==> !Strays(data, q)
      ensures Strays(data, q) ==> Format(data).strings(q) == Failed(InvalidArgument)
    {
      StringExact(data, q);
    }
  }

  /**
   On every input: unless the parse comes to a string that strays, the code ends with what the format's
   parser says; if it comes to one, the format's parser refuses the input.
   */
  lemma CodeIsFormat(data: Bytes, pos: nat, depth: nat, budget: nat)
    requires Sized(data) && pos <= |data| && budget >= 2 * |data|
    ensures if StraysIn(data, pos, depth)
            then ValueAt(data, pos, depth) == Failed(InvalidArgument)
            else ReadValue(data, Coded(data), pos, depth, budget) == ValueAt(data, pos, depth)
  {
    CodedDiffers(data);
    SameValue(data, Coded(data), Format(data), Straying(data), pos, depth, 2 * |data|);
    FormatValue(data, Format(data), pos, depth, 2 * |data|);
    LongerValue(data, Coded(data), pos, depth, 2 * |data|, budget);
  }

  /** The longer run of one that ended. */
  lemma EndedAlready(data: Bytes, pos: nat, depth: nat, budget: nat)
    requires Sized(data) && pos <= |data| && !ReadValue(data, Coded(data), pos, depth, budget).Unfinished?
    ensures !StraysIn(data, pos, depth) ==> ReadValue(data, Coded(data), pos, depth, budget) == ValueAt(data, pos, depth)
  {
    var most := if budget < 2 * |data| then 2 * |data| else budget;
    LongerValue(data, Coded(data), pos, depth, budget, most);
    CodeIsFormat(data, pos, depth, most);
  }

  /** Where the data spells a tree the code reads the tree, within the recursion limit; no such parse strays. */
  lemma CodeReadsText(t: Tree, rest: Bytes, depth: nat, budget: nat)
    requires Well(t) && Sized(Text(t) + rest) && budget >= 2 * |Text(t) + rest|
    ensures var data := Text(t) + rest;
            && !StraysIn(data, 0, depth)
            && ReadValue(data, Coded(data), 0, depth, budget) ==
               if depth + Depth(t) <= MAX_RECURSION_DEPTH then Got(Denote(t), |Text(t)|) else Failed(RuntimeError)
  {
    var data := Text(t) + rest;
    assert data[0..] == data;
    ParseText(t, rest, depth);
    CodeIsFormat(data, 0, depth, budget);
  }

  /** Encoding and reading back by the code as it is, whatever follows. */
  lemma CodeRoundTrip(v: Value, rest: Bytes, depth: nat, budget: nat)
    requires WellFormed(v) && Sized(Encode(v) + rest) && budget >= 2 * |Encode(v) + rest|
    ensures var data := Encode(v) + rest;
            ReadValue(data, Coded(data), 0, depth, budget) ==
            if depth + Height(v) <= MAX_RECURSION_DEPTH then Got(v, |Encode(v)|) else Failed(RuntimeError)
  {
    CanonText(v);
    CodeReadsText(Canon(v), rest, depth, budget);
  }

  /** The data up to a position spells the value. */
  ghost predicate Spells(data: Bytes, next: nat, v: Value, depth: nat) {
    next <= |data| && exists t :: Well(t) && data[..next] == Text(t) && Denote(t) == v && depth + Depth(t) <= MAX_RECURSION_DEPTH
  }

  /** What the code accepts is what is spelled, exactly when it came to no string that strays. */
  lemma CodeAcceptsTexts(data: Bytes, depth: nat, budget: nat)
    requires Sized(data) && ReadValue(data, Coded(data), 0, depth, budget).Got?
    ensures var r := ReadValue(data, Coded(data), 0, depth, budget);
            Spells(data, r.next, r.value, depth) <==> !StraysIn(data, 0, depth)
  {
    var r := ReadValue(data, Coded(data), 0, depth, budget);
    assert data[0..] == data;
    if !StraysIn(data, 0, depth) {
      EndedAlready(data, 0, depth, budget);
      var t := ParseSound(data, depth);
      var rest := ParseValue(data, depth).value.rest;
      assert data[..r.next] == Text(t);
    }
    if Spells(data, r.next, r.value, depth) {
      var t :| Well(t) && data[..r.next] == Text(t) && Denote(t) == r.value && depth + Depth(t) <= MAX_RECURSION_DEPTH;
      assert data == Text(t) + data[r.next..];
      CodeReadsText(t, data[r.next..], depth, 2 * |data|);
    }
  }

  // ---------------------------------------------------------------- which fields stray

  /** A field that is read otherwise announces almost 2^64 bytes, or has white space or a sign in front. */
  lemma StrayFields(data: Bytes, pos: nat)
    requires Sized(data) && pos <= |data| && Strays(data, pos)
    ensures pos < |data|
    ensures IsDigit(data[pos]) ==>
              var len := FieldLength(data[pos..][..Find(data[pos..], COLON).value]);
              len.Ok? && len.value >= TWO_TO_THE_64 - |data|
  {
    var colon := Find(data[pos..], COLON).value;
    FieldStart(data, pos, colon);
    StoulOfDigits(data[pos..][..colon]);
  }

  lemma {:induction false} NoneInValue(data: Bytes, g: Fields, bad: nat -> bool, pos: nat, depth: nat, budget: nat)
    requires forall q :: !bad(q)
    ensures !MeetsValue(data, g, bad, pos, depth, budget)
    decreases budget, 0
  {
    if budget > 0 {
      NoneInItems(data, g, bad, pos + 1, depth, budget - 1);
      NoneInPairs(data, g, bad, pos + 1, depth, budget - 1);
    }
  }

  lemma {:induction false} NoneInItems(data: Bytes, g: Fields, bad: nat -> bool, pos: nat, depth: nat, budget: nat)
    requires forall q :: !bad(q)
    ensures !MeetsItems(data, g, bad, pos, depth, budget)
    decreases budget, 1
  {
    if budget > 0 {
      NoneInValue(data, g, bad, pos, depth + 1, budget - 1);
      var first := ReadValue(data, g, pos, depth + 1, budget - 1);
      if first.Got? {
        NoneInItems(data, g, bad, first.next, depth, budget - 1);
      }
    }
  }

  lemma {:induction false} NoneInPairs(data: Bytes, g: Fields, bad: nat -> bool, pos: nat, depth: nat, budget: nat)
    requires forall q :: !bad(q)
    ensures !MeetsPairs(data, g, bad, pos, depth, budget)
    decreases budget, 1
  {
    if budget > 0 {
      var key := g.strings(pos);
      if key.Got? {
        NoneInValue(data, g, bad, key.next, depth + 1, budget - 1);
      }
      var first := ReadPair(data, g, pos, depth, budget - 1);
      if first.Got? {
        NoneInPairs(data, g, bad, first.next, depth, budget - 1);
      }
    }
  }

  /** No length field of the data is read otherwise than the format has it. */
  ghost predicate PlainFields(data: Bytes) {
    forall q: nat :: q <= |data| ==> !Strays(data, q)
  }

  /** On such data the code is the format's parser, at every position. */
  lemma PlainIsFormat(data: Bytes, pos: nat, depth: nat, budget: nat)
    requires Sized(data) && PlainFields(data) && pos <= |data| && budget >= 2 * |data|
    ensures ReadValue(data, Coded(data), pos, depth, budget) == ValueAt(data, pos, depth)
  {
    NoneInValue(data, Format(data), Straying(data), pos, depth, 2 * |data|);
    CodeIsFormat(data, pos, depth, budget);
  }

  // ---------------------------------------------------------------- when the code ends

  /** The run ended, with a value behind the position or with an exception. */
  predicate Ends<T>(data: Bytes, pos: nat, r: Run<T>) {
    !r.Unfinished? && (r.Got? ==> pos < r.next <= |data|)
  }

  /** Every field that is read ends behind the position where it starts, but for bad strings. */
  ghost predicate Forward(data: Bytes, f: Fields, bad: nat -> bool) {
    && (forall q :: 0 <= q <= |data| && !bad(q) ==> Ends(data, q, f.strings(q)))
    && forall q :: 0 <= q <= |data| ==> Ends(data, q, f.ints(q))
  }

  /** A run ends unless it comes to a bad string. */
  lemma {:induction false} ForwardValue(data: Bytes, f: Fields, bad: nat -> bool, pos: nat, depth: nat, budget: nat)
    requires Forward(data, f, bad) && pos <= |data| && budget >= 2 * (|data| - pos)
    ensures MeetsValue(data, f, bad, pos, depth, budget) || Ends(data, pos, ReadValue(data, f, pos, depth, budget))
    decreases |data| - pos, 0
  {
    if pos < |data| {
      ForwardItems(data, f, bad, pos + 1, depth, budget - 1);
      ForwardPairs(data, f, bad, pos + 1, depth, budget - 1);
    }
  }

  lemma {:induction false} ForwardItems(data: Bytes, f: Fields, bad: nat -> bool, pos: nat, depth: nat, budget: nat)
    requires Forward(data, f, bad) && pos <= |data| && budget >= 2 * (|data| - pos) + 1
    ensures MeetsItems(data, f, bad, pos, depth, budget) || Ends(data, pos, ReadItems(data, f, pos, depth, budget))
    decreases |data| - pos, 1
  {
    ForwardValue(data, f, bad, pos, depth + 1, budget - 1);
    var first := ReadValue(data, f, pos, depth + 1, budget - 1);
    if first.Got? && pos < first.next <= |data| {
      ForwardItems(data, f, bad, first.next, depth, budget - 1);
    }
  }

  lemma {:induction false} ForwardPairs(data: Bytes, f: Fields, bad: nat -> bool, pos: nat, depth: nat, budget: nat)
    requires Forward(data, f, bad) && pos <= |data| && budget >= 2 * (|data| - pos) + 1
    ensures MeetsPairs(data, f, bad, pos, depth, budget) || Ends(data, pos, ReadPairs(data, f, pos, depth, budget))
    decreases |data| - pos, 1
  {
    var key := f.strings(pos);
    if key.Got? && pos < key.next <= |data| {
      ForwardValue(data, f, bad, key.next, depth + 1, budget - 1);
    }
    var first := ReadPair(data, f, pos, depth, budget - 1);
    if first.Got? && pos < first.next <= |data| {
      ForwardPairs(data, f, bad, first.next, depth, budget - 1);
    }
  }

  /** Reading the string at the position does not get the code any further. */
  predicate MovesBack(data: Bytes, pos: nat)
    requires pos <= |data|
  {
    ReadString(data, pos).Got? && ReadString(data, pos).next <= pos
  }

  lemma BackIsStray(data: Bytes, pos: nat)
    requires Sized(data) && pos <= |data| && MovesBack(data, pos)
    ensures Strays(data, pos)
  {
  }

  lemma FieldsEnd(data: Bytes, pos: nat)
    requires Sized(data) && pos <= |data|
    ensures !ReadString(data, pos).Unfinished? && (ReadString(data, pos).Got? ==> ReadString(data, pos).next <= |data|)
    ensures !IntAt(data, pos).Unfinished? && (IntAt(data, pos).Got? ==> pos < IntAt(data, pos).next <= |data|)
  {
  }

  function Back(data: Bytes): nat -> bool {
    (pos: nat) => pos <= |data| && MovesBack(data, pos)
  }

  lemma CodedForward(data: Bytes)
    requires Sized(data)
    ensures Forward(data, Coded(data), Back(data))
  {
    forall q | 0 <= q <= |data|
      ensures !MovesBack(data, q) ==> Ends(data, q, Coded(data).strings(q))
      ensures Ends(data, q, Coded(data).ints(q))
    {
      FieldsEnd(data, q);
    }
  }

  /** The code ends, in time linear in the data, unless it comes to a string that moves the position back. */
  lemma CodeEnds(data: Bytes, pos: nat, depth: nat, budget: nat)
    requires Sized(data) && pos <= |data| && budget >= 2 * |data|
    ensures MeetsValue(data, Coded(data), Back(data), pos, depth, budget) ||
            Ends(data, pos, ReadValue(data, Coded(data), pos, depth, budget))
  {
    CodedForward(data);
    ForwardValue(data, Coded(data), Back(data), pos, depth, budget);
  }

  // ---------------------------------------------------------------- ending or going on for ever

  /** A budget with which a run has ended if it ever does: a loop that comes back to a position is endless. */
  function Enough(data: Bytes, depth: nat): nat
    decreases MAX_RECURSION_DEPTH + 1 - depth
  {
    if depth > MAX_RECURSION_DEPTH then 0 else Enough(data, depth + 1) + |data| + 3
  }

  /** What the list and the dictionary loop have in common; step reads the next element with a budget. */
  function Loop<T>(data: Bytes, step: (nat, nat) -> Run<T>, pos: nat, budget: nat): Run<seq<T>>
    decreases budget
  {
    if pos >= |data| then Failed(InvalidArgument)
    else if data[pos] == END then Got([], pos + 1)
    else if budget == 0 then Unfinished
    else
      var first := step(pos, budget - 1);
      Cons(first, if first.Got? then Loop(data, step, first.next, budget - 1) else Unfinished)
  }

  function ItemStep(data: Bytes, f: Fields, depth: nat): (nat, nat) -> Run<Value> {
    (pos: nat, budget: nat) => ReadValue(data, f, pos, depth + 1, budget)
  }

  function PairStep(data: Bytes, f: Fields, depth: nat): (nat, nat) -> Run<Entry> {
    (pos: nat, budget: nat) => ReadPair(data, f, pos, depth, budget)
  }

  lemma {:induction false} ItemsLoop(data: Bytes, f: Fields, pos: nat, depth: nat, budget: nat)
    ensures ReadItems(data, f, pos, depth, budget) == Loop(data, ItemStep(data, f, depth), pos, budget)
    decreases budget
  {
    if budget > 0 {
      var first := ReadValue(data, f, pos, depth + 1, budget - 1);
      if first.Got? {
        ItemsLoop(data, f, first.next, depth, budget - 1);
      }
    }
  }

  lemma {:induction false} PairsLoop(data: Bytes, f: Fields, pos: nat, depth: nat, budget: nat)
    ensures ReadPairs(data, f, pos, depth, budget) == Loop(data, PairStep(data, f, depth), pos, budget)
    decreases budget
  {
    if budget > 0 {
      var first := ReadPair(data, f, pos, depth, budget - 1);
      if first.Got? {
        PairsLoop(data, f, first.next, depth, budget - 1);
      }
    }
  }

  /** More than that budget makes no difference to a step, and with less it is that run or cut off. */
  ghost predicate Stable<T>(step: (nat, nat) -> Run<T>, most: nat, pos: nat, budget: nat) {
    && (budget >= most ==> step(pos, budget) == step(pos, most))
    && (budget <= most ==> Continues(step(pos, budget), step(pos, most)))
  }

  ghost predicate Settled<T(!new)>(step: (nat, nat) -> Run<T>, most: nat) {
    forall pos: nat, budget: nat :: Stable(step, most, pos, budget)
  }

  /** From each of these positions the loop goes on, to one of those. */
  ghost predicate Lead<T>(data: Bytes, step: (nat, nat) -> Run<T>, most: nat, these: set<nat>, those: set<nat>) {
    forall q :: q in these ==> q < |data| && data[q] != END && step(q, most).Got? && step(q, most).next in those
  }

  /** A loop never leaves positions that lead to each other. */
  lemma {:induction false} LoopsForEver<T(!new)>(data: Bytes, step: (nat, nat) -> Run<T>, most: nat, cycle: set<nat>, pos: nat, budget: nat)
    requires Settled(step, most) && Lead(data, step, most, cycle, cycle) && pos in cycle
    ensures Loop(data, step, pos, budget).Unfinished?
    decreases budget
  {
    if budget > 0 {
      var first := step(pos, budget - 1);
      assert Stable(step, most, pos, budget - 1);
      if first.Got? {
        LoopsForEver(data, step, most, cycle, first.next, budget - 1);
      }
    }
  }

  lemma LeadGrows<T>(data: Bytes, step: (nat, nat) -> Run<T>, most: nat, seen: set<nat>, pos: nat)
    requires Lead(data, step, most, seen, seen + {pos})
    requires pos < |data| && data[pos] != END && step(pos, most).Got?
    ensures Lead(data, step, most, seen + {pos}, seen + {pos} + {step(pos, most).next})
  {
  }

  /** Different positions below n are at most n. */
  lemma {:induction false} PositionsFit(n: nat, seen: set<nat>)
    requires forall q :: q in seen ==> q < n
    ensures |seen| <= n
  {
    if n > 0 {
      PositionsFit(n - 1, seen - {n - 1});
    }
  }

  lemma LoopTurn<T(!new)>(data: Bytes, step: (nat, nat) -> Run<T>, most: nat, pos: nat, budget: nat)
    requires Settled(step, most) && pos < |data| && data[pos] != END && budget > most
    ensures var first := step(pos, most);
            Loop(data, step, pos, budget) ==
            Cons(first, if first.Got? then Loop(data, step, first.next, budget - 1) else Unfinished)
  {
    assert Stable(step, most, pos, budget - 1);
  }

  lemma LoopsBack<T(!new)>(data: Bytes, step: (nat, nat) -> Run<T>, most: nat, seen: set<nat>, pos: nat, budget: nat)
    requires Settled(step, most) && Lead(data, step, most, seen, seen + {pos})
    requires pos < |data| && data[pos] != END && step(pos, most).Got? && step(pos, most).next in seen + {pos}
    ensures Loop(data, step, pos, budget).Unfinished?
  {
    LeadGrows(data, step, most, seen, pos);
    assert seen + {pos} + {step(pos, most).next} == seen + {pos};
    LoopsForEver(data, step, most, seen + {pos}, pos, budget);
  }

  /** A loop comes back to a position it has seen, and then goes on for ever, or it ends in time. */
  lemma {:induction false} LoopSettles<T(!new)>(data: Bytes, step: (nat, nat) -> Run<T>, most: nat, seen: set<nat>, pos: nat, budget: nat, more: nat)
    requires Settled(step, most) && pos !in seen && Lead(data, step, most, seen, seen + {pos})
    requires most + |data| + 2 <= budget + |seen| && budget <= more
    ensures Loop(data, step, pos, budget) == Loop(data, step, pos, more)
    decreases budget
  {
    PositionsFit(|data|, seen);
    if pos < |data| && data[pos] != END {
      var first := step(pos, most);
      LoopTurn(data, step, most, pos, budget);
      LoopTurn(data, step, most, pos, more);
      if first.Got? && first.next in seen + {pos} {
        LoopsBack(data, step, most, seen, pos, budget);
        LoopsBack(data, step, most, seen, pos, more);
      } else if first.Got? {
        LeadGrows(data, step, most, seen, pos);
        LoopSettles(data, step, most, seen + {pos}, first.next, budget - 1, more - 1);
      }
    }
  }

  /** More than enough makes no difference. */
  lemma {:induction false} ValueSettles(data: Bytes, f: Fields, pos: nat, depth: nat, budget: nat, more: nat)
    requires Enough(data, depth) <= budget <= more
    ensures ReadValue(data, f, pos, depth, budget) == ReadValue(data, f, pos, depth, more)
    decreases MAX_RECURSION_DEPTH + 1 - depth, 3
  {
    if depth <= MAX_RECURSION_DEPTH {
      ItemsSettle(data, f, pos + 1, depth, budget - 1, more - 1);
      PairsSettle(data, f, pos + 1, depth, budget - 1, more - 1);
    }
  }

  lemma ItemsSettle(data: Bytes, f: Fields, pos: nat, depth: nat, budget: nat, more: nat)
    requires depth <= MAX_RECURSION_DEPTH && Enough(data, depth) <= budget + 1 && budget <= more
    ensures ReadItems(data, f, pos, depth, budget) == ReadItems(data, f, pos, depth, more)
    decreases MAX_RECURSION_DEPTH + 1 - depth, 2
  {
    ItemStepSettles(data, f, depth);
    LoopSettles(data, ItemStep(data, f, depth), Enough(data, depth + 1), {}, pos, budget, more);
    ItemsLoop(data, f, pos, depth, budget);
    ItemsLoop(data, f, pos, depth, more);
  }

  lemma PairsSettle(data: Bytes, f: Fields, pos: nat, depth: nat, budget: nat, more: nat)
    requires depth <= MAX_RECURSION_DEPTH && Enough(data, depth) <= budget + 1 && budget <= more
    ensures ReadPairs(data, f, pos, depth, budget) == ReadPairs(data, f, pos, depth, more)
    decreases MAX_RECURSION_DEPTH + 1 - depth, 2
  {
    PairStepSettles(data, f, depth);
    LoopSettles(data, PairStep(data, f, depth), Enough(data, depth + 1), {}, pos, budget, more);
    PairsLoop(data, f, pos, depth, budget);
    PairsLoop(data, f, pos, depth, more);
  }

  lemma ItemStepSettles(data: Bytes, f: Fields, depth: nat)
    requires depth <= MAX_RECURSION_DEPTH
    ensures Settled(ItemStep(data, f, depth), Enough(data, depth + 1))
    decreases MAX_RECURSION_DEPTH + 1 - depth, 0
  {
    var step, most := ItemStep(data, f, depth), Enough(data, depth + 1);
    forall pos: nat, budget: nat
      ensures Stable(step, most, pos, budget)
    {
      if budget >= most {
        ValueSettles(data, f, pos, depth + 1, most, budget);
      } else {
        LongerValue(data, f, pos, depth + 1, budget, most);
      }
    }
  }

  lemma PairSettles(data: Bytes, f: Fields, pos: nat, depth: nat, budget: nat, more: nat)
    requires depth <= MAX_RECURSION_DEPTH && Enough(data, depth + 1) <= budget <= more
    ensures ReadPair(data, f, pos, depth, budget) == ReadPair(data, f, pos, depth, more)
    decreases MAX_RECURSION_DEPTH + 1 - depth, 0
  {
    var key := f.strings(pos);
    if key.Got? {
      ValueSettles(data, f, key.next, depth + 1, budget, more);
    }
  }

  lemma PairStepSettles(data: Bytes, f: Fields, depth: nat)
    requires depth <= MAX_RECURSION_DEPTH
    ensures Settled(PairStep(data, f, depth), Enough(data, depth + 1))
    decreases MAX_RECURSION_DEPTH + 1 - depth, 1
  {
    var step, most := PairStep(data, f, depth), Enough(data, depth + 1);
    forall pos: nat, budget: nat
      ensures Stable(step, most, pos, budget)
    {
      if budget >= most {
        PairSettles(data, f, pos, depth, most, budget);
      } else {
        LongerPair(data, f, pos, depth, budget, most);
      }
    }
  }

  lemma {:induction false} EnoughIs(data: Bytes, depth: nat)
    requires depth <= MAX_RECURSION_DEPTH + 1
    ensures Enough(data, depth) == (MAX_RECURSION_DEPTH + 1 - depth) * (|data| + 3)
    decreases MAX_RECURSION_DEPTH + 1 - depth
  {
    if depth <= MAX_RECURSION_DEPTH {
      EnoughIs(data, depth + 1);
    }
  }

  /** The code ends on an input, with whatever budget, exactly when it does within 1001 * (|data| + 3). */
  lemma CodeEndsIff(data: Bytes, pos: nat)
    ensures (exists budget: nat :: !ReadValue(data, Coded(data), pos, 0, budget).Unfinished?) <==>
            !ReadValue(data, Coded(data), pos, 0, (MAX_RECURSION_DEPTH + 1) * (|data| + 3)).Unfinished?
  {
    var most := (MAX_RECURSION_DEPTH + 1) * (|data| + 3);
    EnoughIs(data, 0);
    forall budget: nat | !ReadValue(data, Coded(data), pos, 0, budget).Unfinished?
      ensures !ReadValue(data, Coded(data), pos, 0, most).Unfinished?
    {
      if budget <= most {
        LongerValue(data, Coded(data), pos, 0, budget, most);
      } else {
        ValueSettles(data, Coded(data), pos, 0, most, budget);
      }
    }
  }

  // ---------------------------------------------------------------- inputs on which it goes wrong

  /** A list element that is a string and ends where it starts is read for ever. */
  lemma {:induction false} ReadForEver(data: Bytes, pos: nat, depth: nat, budget: nat)
    requires depth < MAX_RECURSION_DEPTH && pos < |data| && IsDigit(data[pos])
    requires ReadString(data, pos).Got? && ReadString(data, pos).next == pos
    ensures ReadItems(data, Coded(data), pos, depth, budget).Unfinished?
  {
    if budget > 0 {
      ReadForEver(data, pos, depth, budget - 1);
    }
  }

  function PowerOfTen(d: nat): nat {
    if d == 0 then 1 else 10 * PowerOfTen(d - 1)
  }

  lemma {:induction false} NatTextSize(n: nat, d: nat)
    requires d > 0 && n < PowerOfTen(d) && (d > 1 ==> n >= PowerOfTen(d - 1))
    ensures |NatText(n)| == d
  {
    if d > 1 {
      NatTextSize(n / 10, d - 1);
    }
  }

  lemma PowersOfTen()
    ensures PowerOfTen(19) == 10000000000000000000 && PowerOfTen(20) == 100000000000000000000
  {
    assert PowerOfTen(4) == 10000;
    assert PowerOfTen(8) == 100000000;
    assert PowerOfTen(12) == 1000000000000;
    assert PowerOfTen(16) == 10000000000000000;
  }

  lemma StoulOfPrinted(n: nat)
    requires n < TWO_TO_THE_64
    ensures Stoul(NatText(n)) == Ok(n) && COLON !in NatText(n) && IsDigit(NatText(n)[0])
  {
    NatTextRoundTrip(n);
    DigitRunOfDigits(NatText(n));
    StoulOfDigits(NatText(n));
  }

  /** A string whose length field is a printed number. */
  lemma ReadPrinted(data: Bytes, pos: nat, n: nat, rest: Bytes)
    requires n < TWO_TO_THE_64 && pos <= |data| && data[pos..] == NatText(n) + [COLON] + rest
    ensures var start := pos + |NatText(n)| + 1;
            start <= |data| && ReadString(data, pos) ==
            if EndOf(start, n) > |data| then Failed(InvalidArgument) else Got(Substr(data, start, n), EndOf(start, n))
    ensures pos < |data| && IsDigit(data[pos])
    ensures pos + |NatText(n)| + 1 + n >= TWO_TO_THE_64 && ReadString(data, pos).Got? ==> Strays(data, pos)
  {
    StoulOfPrinted(n);
    FindTerminator(NatText(n), COLON, rest);
    assert data[pos] == data[pos..][0] == NatText(n)[0];
  }

  /** l18446744073709551595:e */
  const ENDLESS: Bytes := [LIST_START] + NatText(TWO_TO_THE_64 - 21) + [COLON, END]

  lemma EndlessString()
    ensures |ENDLESS| == 23 && ENDLESS[0] == LIST_START && IsDigit(ENDLESS[1])
    ensures ReadString(ENDLESS, 1).Got? && ReadString(ENDLESS, 1).next == 1
  {
    PowersOfTen();
    NatTextSize(TWO_TO_THE_64 - 21, 20);
    assert ENDLESS[1..] == NatText(TWO_TO_THE_64 - 21) + [COLON] + [END];
    ReadPrinted(ENDLESS, 1, TWO_TO_THE_64 - 21, [END]);
  }

  /** On this input the code does not end, whatever the budget; the format has nothing like it. */
  lemma CodeNeedNotEnd(budget: nat)
    ensures ReadValue(ENDLESS, Coded(ENDLESS), 0, 0, budget).Unfinished?
    ensures ParseValue(ENDLESS, 0) == Err(InvalidArgument)
  {
    EndlessString();
    if budget > 0 {
      ReadForEver(ENDLESS, 1, 0, budget - 1);
    }
    ReadForEver(ENDLESS, 1, 0, 2 * |ENDLESS| - 1);
    CodeIsFormat(ENDLESS, 0, 0, 2 * |ENDLESS|);
    assert ENDLESS[0..] == ENDLESS;
  }

  const ABC: Bytes := ['a' as byte, 'b' as byte, 'c' as byte]

  /** 18446744073709551615:abc */
  const TOO_LONG: Bytes := NatText(TWO_TO_THE_64 - 1) + [COLON] + ABC

  lemma TooLongText()
    ensures |NatText(TWO_TO_THE_64 - 1)| == 20 && |TOO_LONG| == 24 && TOO_LONG[21..] == ABC
    ensures TOO_LONG[0..] == NatText(TWO_TO_THE_64 - 1) + [COLON] + ABC
  {
    PowersOfTen();
    NatTextSize(TWO_TO_THE_64 - 1, 20);
  }

  lemma TooLongString()
    ensures |TOO_LONG| == 24 && IsDigit(TOO_LONG[0])
    ensures ReadString(TOO_LONG, 0) == Got(ABC, 20) && ParseString(TOO_LONG[0..]) == Err(InvalidArgument)
  {
    TooLongText();
    ReadPrinted(TOO_LONG, 0, TWO_TO_THE_64 - 1, ABC);
    StringExact(TOO_LONG, 0);
  }

  /** A string that announces more bytes than there are is accepted; the format refuses it. */
  lemma CodeAcceptsTooLong(budget: nat)
    ensures ReadValue(TOO_LONG, Coded(TOO_LONG), 0, 0, budget) == Got(Str(ABC), 20)
    ensures ParseValue(TOO_LONG, 0) == Err(InvalidArgument)
  {
    TooLongString();
    assert TOO_LONG[0..] == TOO_LONG;
  }

  /** +1:a, which is read where a dictionary key is expected. */
  const SIGNED: Bytes := [PLUS, '1' as byte, COLON, 'a' as byte]

  /** A sign in front of a key's length is taken; the format refuses it. */
  lemma CodeTakesSignedKeys()
    ensures ReadString(SIGNED, 0) == Got(['a' as byte], 4) && ParseString(SIGNED) == Err(InvalidArgument)
  {
    var one: Bytes := ['1' as byte];
    assert SIGNED[0..] == SIGNED && SIGNED[1..] == one + [COLON, 'a' as byte];
    FindFirst(SIGNED, COLON, 2);
    var field := SIGNED[..2];
    assert field == [PLUS] + one && field[1..] == one;
    DigitRunOfDigits(one);
    assert one[..0] == [];
    assert NatValue(one) == 1;
    assert SIGNED[3..4] == ['a' as byte];
  }
}
