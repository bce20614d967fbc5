/**
 The parser as coded: a read position, size_t arithmetic and std::stoul. A length field can carry the
 sum of position and length past 2^64, and the position then moves backwards, so the code need not
 terminate; a run is therefore cut off after a number of recursive calls. Both parsers, this one and
 the format's, are compared on every input.
 */
module BencodeCode {
  import opened Base
  import opened Decimal
  import opened Bencode

  /** How far a run got: cut off, ended by an exception, or a value and the position behind it. */
  datatype Run<+T> = Unfinished | Failed(error: Error) | Got(value: T, next: nat)

  /** A run that did not get a value, as a run for another one. */
  function Ended<T, U>(r: Run<T>): Run<U>
    requires !r.Got?
  {
    if r.Unfinished? then Unfinished else Failed(r.error)
  }

  /** A first element and those after it. */
  function Cons<T>(first: Run<T>, others: Run<seq<T>>): Run<seq<T>> {
    if !first.Got? then Ended(first)
    else if others.Got? then Got([first.value] + others.value, others.next)
    else others
  }

  /** A key and the value behind it. */
  function WithKey(key: Run<Bytes>, val: Run<Value>): Run<Entry> {
    if !key.Got? then Ended(key)
    else if val.Got? then Got(Entry(key.value, val.value), val.next)
    else Ended(val)
  }

  /** What a std::string_view is: its size fits size_t. */
  predicate Sized(data: Bytes) {
    |data| < TWO_TO_THE_64
  }

  // ---------------------------------------------------------------- std::stoul

  /** std::isspace in the C locale. */
  predicate IsSpace(c: byte) {
    c == 32 || 9 <= c <= 13
  }

  function SkipSpaces(field: Bytes): Bytes {
    if field != [] && IsSpace(field[0]) then SkipSpaces(field[1..]) else field
  }

  const PLUS: byte := '+' as byte

  function SkipSign(field: Bytes): Bytes {
    if field != [] && (field[0] == PLUS || field[0] == MINUS) then field[1..] else field
  }

  /** Leading white space and a sign are taken; a negative number is negated in unsigned long. */
  function Stoul(field: Bytes): (r: Result<nat>)
    ensures r.Ok? ==> r.value < TWO_TO_THE_64
  {
    var signed := SkipSpaces(field);
    var digits := DigitRun(SkipSign(signed));
    if digits == [] then Err(InvalidArgument)
    else if NatValue(digits) >= TWO_TO_THE_64 then Err(OutOfRange)
    else if signed[0] == MINUS then Ok((TWO_TO_THE_64 - NatValue(digits)) % TWO_TO_THE_64)
    else Ok(NatValue(digits))
  }

  // ---------------------------------------------------------------- the routines

  /** The end of a string: a size_t sum. */
  function EndOf(start: nat, len: nat): nat {
    (start + len) % TWO_TO_THE_64
  }

  /** std::string_view::substr: as many bytes as there are. */
  function Substr(data: Bytes, start: nat, len: nat): Bytes
    requires start <= |data|
  {
    if start + len <= |data| then data[start..start + len] else data[start..]
  }

  function ReadString(data: Bytes, pos: nat): (r: Run<Bytes>)
    requires pos <= |data|
  {
    var colon := Find(data[pos..], COLON);
    if colon.None? then Failed(InvalidArgument)
    else
      var len := Stoul(data[pos..][..colon.value]);
      if len.Err? then Failed(len.error)
      else
        var start := pos + colon.value + 1;
        if EndOf(start, len.value) > |data| then Failed(InvalidArgument)
        else Got(Substr(data, start, len.value), EndOf(start, len.value))
  }

  /** A result of the format's parser on the suffix, as a position in the data. */
  function At<T>(data: Bytes, spec: Result<Parsed<T>>): (r: Run<T>)
    requires spec.Ok? ==> |spec.value.rest| <= |data|
    ensures r.Got? ==> r.next <= |data|
  {
    if spec.Err? then Failed(spec.error) else Got(spec.value.value, |data| - |spec.value.rest|)
  }

  /** What the format has at a position. */
  function StringAt(data: Bytes, pos: nat): Run<Bytes>
    requires pos <= |data|
  {
    At(data, ParseString(data[pos..]))
  }

  function IntAt(data: Bytes, pos: nat): Run<Value>
    requires pos <= |data|
  {
    At(data, ParseInt(data[pos..]))
  }

  /** How the string and the integer at a position are read. */
  datatype Fields = Fields(strings: nat -> Run<Bytes>, ints: nat -> Run<Value>)

  function Ints(data: Bytes): nat -> Run<Value> {
    (pos: nat) => if pos <= |data| then IntAt(data, pos) else Failed(InvalidArgument)
  }

  /** As coded. */
  function Coded(data: Bytes): Fields {
    Fields((pos: nat) => if pos <= |data| then ReadString(data, pos) else Failed(InvalidArgument), Ints(data))
  }

  /** As the format has it. */
  function Format(data: Bytes): Fields {
    Fields((pos: nat) => if pos <= |data| then StringAt(data, pos) else Failed(InvalidArgument), Ints(data))
  }

  /** The value at a position, for any way of reading its fields. */
  function ReadValue(data: Bytes, f: Fields, pos: nat, depth: nat, budget: nat): Run<Value>
    decreases budget, 0
  {
    if depth > MAX_RECURSION_DEPTH then Failed(RuntimeError)
    else if pos >= |data| then Failed(InvalidArgument)
    else if data[pos] == INT_START then f.ints(pos)
    else if IsDigit(data[pos]) then
      var s := f.strings(pos);
      if s.Got? then Got(Str(s.value), s.next) else Ended(s)
    else if data[pos] == LIST_START then
      if budget == 0 then Unfinished
      else
        var items := ReadItems(data, f, pos + 1, depth, budget - 1);
        if items.Got? then Got(List(items.value), items.next) else Ended(items)
    else if data[pos] == DICT_START then
      if budget == 0 then Unfinished
      else
        var pairs := ReadPairs(data, f, pos + 1, depth, budget - 1);
        if pairs.Got? then Got(Dict(FromPairs(pairs.value)), pairs.next) else Ended(pairs)
    else Failed(InvalidArgument)
  }

  /** The elements of a list up to and including its END. */
  function ReadItems(data: Bytes, f: Fields, pos: nat, depth: nat, budget: nat): Run<seq<Value>>
    decreases budget, 1
  {
    if pos >= |data| then Failed(InvalidArgument)
    else if data[pos] == END then Got([], pos + 1)
    else if budget == 0 then Unfinished
    else
      var first := ReadValue(data, f, pos, depth + 1, budget - 1);
      Cons(first, if first.Got? then ReadItems(data, f, first.next, depth, budget - 1) else Unfinished)
  }

  function ReadPair(data: Bytes, f: Fields, pos: nat, depth: nat, budget: nat): Run<Entry>
    decreases budget, 1
  {
    var key := f.strings(pos);
    WithKey(key, if key.Got? then ReadValue(data, f, key.next, depth + 1, budget) else Unfinished)
  }

  /** The pairs of a dictionary, in reading order, up to and including its END. */
  function ReadPairs(data: Bytes, f: Fields, pos: nat, depth: nat, budget: nat): Run<seq<Entry>>
    decreases budget, 2
  {
    if pos >= |data| then Failed(InvalidArgument)
    else if data[pos] == END then Got([], pos + 1)
    else if budget == 0 then Unfinished
    else
      var first := ReadPair(data, f, pos, depth, budget - 1);
      Cons(first, if first.Got? then ReadPairs(data, f, first.next, depth, budget - 1) else Unfinished)
  }

  // ---------------------------------------------------------------- cutting off a run

  /** The second run is the first or goes on where that was cut off. */
  predicate Continues<T(==)>(r: Run<T>, longer: Run<T>) {
    r.Unfinished? || longer == r
  }

  /** A run that ended is the same run when it is allowed to go on longer. */
  lemma {:induction false} LongerValue(data: Bytes, f: Fields, pos: nat, depth: nat, budget: nat, more: nat)
    requires budget <= more
    ensures Continues(ReadValue(data, f, pos, depth, budget), ReadValue(data, f, pos, depth, more))
    decreases budget, 0
  {
    if budget > 0 {
      LongerItems(data, f, pos + 1, depth, budget - 1, more - 1);
      LongerPairs(data, f, pos + 1, depth, budget - 1, more - 1);
    }
  }

  lemma {:induction false} LongerItems(data: Bytes, f: Fields, pos: nat, depth: nat, budget: nat, more: nat)
    requires budget <= more
    ensures Continues(ReadItems(data, f, pos, depth, budget), ReadItems(data, f, pos, depth, more))
    decreases budget, 1
  {
    if budget > 0 {
      LongerValue(data, f, pos, depth + 1, budget - 1, more - 1);
      var first := ReadValue(data, f, pos, depth + 1, budget - 1);
      if first.Got? {
        LongerItems(data, f, first.next, depth, budget - 1, more - 1);
      }
    }
  }

  lemma LongerPair(data: Bytes, f: Fields, pos: nat, depth: nat, budget: nat, more: nat)
    requires budget <= more
    ensures Continues(ReadPair(data, f, pos, depth, budget), ReadPair(data, f, pos, depth, more))
    decreases budget, 1
  {
    if f.strings(pos).Got? {
      LongerValue(data, f, f.strings(pos).next, depth + 1, budget, more);
    }
  }

  lemma {:induction false} LongerPairs(data: Bytes, f: Fields, pos: nat, depth: nat, budget: nat, more: nat)
    requires budget <= more
    ensures Continues(ReadPairs(data, f, pos, depth, budget), ReadPairs(data, f, pos, depth, more))
    decreases budget, 2
  {
    if budget > 0 {
      LongerPair(data, f, pos, depth, budget - 1, more - 1);
      var first := ReadPair(data, f, pos, depth, budget - 1);
      if first.Got? {
        LongerPairs(data, f, first.next, depth, budget - 1, more - 1);
      }
    }
  }

  // ---------------------------------------------------------------- one string

  /**
   The string at a position is read otherwise than the format has it: its field starts with white
   space or a sign and std::stoul takes it, or the end wraps around.
   */
  predicate Strays(data: Bytes, pos: nat)
    requires pos <= |data|
  {
    var colon := Find(data[pos..], COLON);
    && colon.Some?
    && var len, start := Stoul(data[pos..][..colon.value]), pos + colon.value + 1;
       if len.Err? then len.error == OutOfRange && !IsDigit(data[pos])
       else EndOf(start, len.value) <= |data| && (!IsDigit(data[pos]) || start + len.value >= TWO_TO_THE_64)
  }

  /** On a field that starts with a digit std::stoul is what the format wants; on another the format has nothing. */
  lemma StoulOfDigits(field: Bytes)
    ensures field != [] && IsDigit(field[0]) ==> Stoul(field) == FieldLength(field)
    ensures field == [] || !IsDigit(field[0]) ==> FieldLength(field) == Err(InvalidArgument)
  {
  }

  lemma StoulErrors(field: Bytes)
    ensures Stoul(field).Err? ==> Stoul(field).error == InvalidArgument || Stoul(field).error == OutOfRange
  {
  }

  lemma SameString(data: Bytes, start: nat, len: nat, plain: bool, code: Run<Bytes>, spec: Result<Parsed<Bytes>>)
    requires Sized(data) && start <= |data| && len < TWO_TO_THE_64
    requires code == if EndOf(start, len) > |data| then Failed(InvalidArgument)
                     else Got(Substr(data, start, len), EndOf(start, len))
    requires spec == if !plain || len > |data| - start then Err(InvalidArgument)
                     else Ok(Parsed(data[start..][..len], data[start..][len..]))
    ensures code == At(data, spec) <==> !(EndOf(start, len) <= |data| && (!plain || start + len >= TWO_TO_THE_64))
    ensures EndOf(start, len) <= |data| && (!plain || start + len >= TWO_TO_THE_64) ==> spec == Err(InvalidArgument)
  {
    assert start + len <= |data| ==> data[start..][..len] == data[start..start + len];
  }

  /** The format's parser, from the colon on. */
  lemma StringSpec(data: Bytes, pos: nat, colon: nat)
    requires pos <= |data| && Find(data[pos..], COLON) == Some(colon) && pos + colon < |data|
    ensures var len, body := FieldLength(data[pos..][..colon]), data[pos + colon + 1..];
            ParseString(data[pos..]) ==
            if len.Err? then Err(len.error)
            else if len.value > |body| then Err(InvalidArgument)
            else Ok(Parsed(body[..len.value], body[len.value..]))
  {
    assert data[pos..][colon + 1..] == data[pos + colon + 1..];
  }

  lemma FieldStart(data: Bytes, pos: nat, colon: nat)
    requires pos <= |data| && Find(data[pos..], COLON) == Some(colon) && pos + colon < |data|
    ensures var field := data[pos..][..colon]; field != [] && IsDigit(field[0]) <==> IsDigit(data[pos])
  {
    FindIsFirst(data[pos..], COLON);
    if colon == 0 {
      assert data[pos] == COLON;
    } else {
      assert data[pos..][..colon][0] == data[pos];
    }
  }

  /** The code reads a string as the format has it exactly when it does not stray. */
  lemma StringExact(data: Bytes, pos: nat)
    requires Sized(data) && pos <= |data|
    ensures ReadString(data, pos) == At(data, ParseString(data[pos..])) <==> !Strays(data, pos)
    ensures Strays(data, pos) ==> ParseString(data[pos..]) == Err(InvalidArgument)
  {
    var colon := Find(data[pos..], COLON);
    if colon.Some? {
      var field := data[pos..][..colon.value];
      var len := Stoul(field);
      FieldStart(data, pos, colon.value);
      StringSpec(data, pos, colon.value);
      StoulOfDigits(field);
      StoulErrors(field);
      if len.Ok? {
        SameString(data, pos + colon.value + 1, len.value, IsDigit(data[pos]),
                   ReadString(data, pos), ParseString(data[pos..]));
      }
    }
  }

  /** A read string ends behind its colon exactly when the size_t sum does not wrap around. */
  lemma EndsBehindColon(data: Bytes, pos: nat)
    requires Sized(data) && pos <= |data| && ReadString(data, pos).Got?
    ensures var colon := Find(data[pos..], COLON).value;
            var start, len := pos + colon + 1, Stoul(data[pos..][..colon]).value;
            ReadString(data, pos).next >= start <==> start + len < TWO_TO_THE_64
  {
  }

  // ---------------------------------------------------------------- two ways of reading strings

  // Whether a parse comes to a string at a bad position, following the run that reads fields by g.

  predicate MeetsValue(data: Bytes, g: Fields, bad: nat -> bool, pos: nat, depth: nat, budget: nat)
    decreases budget, 0
  {
    && depth <= MAX_RECURSION_DEPTH && pos < |data| && data[pos] != INT_START
    && if IsDigit(data[pos]) then bad(pos)
       else if data[pos] == LIST_START then budget > 0 && MeetsItems(data, g, bad, pos + 1, depth, budget - 1)
       else data[pos] == DICT_START && budget > 0 && MeetsPairs(data, g, bad, pos + 1, depth, budget - 1)
  }

  predicate MeetsItems(data: Bytes, g: Fields, bad: nat -> bool, pos: nat, depth: nat, budget: nat)
    decreases budget, 1
  {
    && pos < |data| && data[pos] != END && budget > 0
    && (MeetsValue(data, g, bad, pos, depth + 1, budget - 1)
        || var first := ReadValue(data, g, pos, depth + 1, budget - 1);
           first.Got? && MeetsItems(data, g, bad, first.next, depth, budget - 1))
  }

  predicate MeetsPair(data: Bytes, g: Fields, bad: nat -> bool, pos: nat, depth: nat, budget: nat)
    decreases budget, 1
  {
    bad(pos) || (g.strings(pos).Got? && MeetsValue(data, g, bad, g.strings(pos).next, depth + 1, budget))
  }

  predicate MeetsPairs(data: Bytes, g: Fields, bad: nat -> bool, pos: nat, depth: nat, budget: nat)
    decreases budget, 2
  {
    && pos < |data| && data[pos] != END && budget > 0
    && (MeetsPair(data, g, bad, pos, depth, budget - 1)
        || var first := ReadPair(data, g, pos, depth, budget - 1);
           first.Got? && MeetsPairs(data, g, bad, first.next, depth, budget - 1))
  }

  /** The two ways of reading differ at bad positions only, and there the second finds no string. */
  ghost predicate DifferAt(f: Fields, g: Fields, bad: nat -> bool) {
    && f.ints == g.ints
    && (forall q :: !bad(q) ==> f.strings(q) == g.strings(q))
    && forall q :: bad(q) ==> g.strings(q) == Failed(InvalidArgument)
  }

  /** Two runs are the same until one of them comes to a bad string; the second is refused for it. */
  lemma {:induction false} SameValue(data: Bytes, f: Fields, g: Fields, bad: nat -> bool, pos: nat, depth: nat, budget: nat)
    requires DifferAt(f, g, bad)
    ensures if MeetsValue(data, g, bad, pos, depth, budget)
            then ReadValue(data, g, pos, depth, budget) == Failed(InvalidArgument)
            else ReadValue(data, f, pos, depth, budget) == ReadValue(data, g, pos, depth, budget)
    decreases budget, 0
  {
    if budget > 0 {
      SameItems(data, f, g, bad, pos + 1, depth, budget - 1);
      SamePairs(data, f, g, bad, pos + 1, depth, budget - 1);
    }
  }

  lemma {:induction false} SameItems(data: Bytes, f: Fields, g: Fields, bad: nat -> bool, pos: nat, depth: nat, budget: nat)
    requires DifferAt(f, g, bad)
    ensures if MeetsItems(data, g, bad, pos, depth, budget)
            then ReadItems(data, g, pos, depth, budget) == Failed(InvalidArgument)
            else ReadItems(data, f, pos, depth, budget) == ReadItems(data, g, pos, depth, budget)
    decreases budget, 1
  {
    if budget > 0 {
      SameValue(data, f, g, bad, pos, depth + 1, budget - 1);
      var first := ReadValue(data, g, pos, depth + 1, budget - 1);
      if first.Got? {
        SameItems(data, f, g, bad, first.next, depth, budget - 1);
      }
    }
  }

  lemma SamePair(data: Bytes, f: Fields, g: Fields, bad: nat -> bool, pos: nat, depth: nat, budget: nat)
    requires DifferAt(f, g, bad)
    ensures if MeetsPair(data, g, bad, pos, depth, budget)
            then ReadPair(data, g, pos, depth, budget) == Failed(InvalidArgument)
            else ReadPair(data, f, pos, depth, budget) == ReadPair(data, g, pos, depth, budget)
    decreases budget, 1
  {
    if g.strings(pos).Got? {
      SameValue(data, f, g, bad, g.strings(pos).next, depth + 1, budget);
    }
  }

  lemma {:induction false} SamePairs(data: Bytes, f: Fields, g: Fields, bad: nat -> bool, pos: nat, depth: nat, budget: nat)
    requires DifferAt(f, g, bad)
    ensures if MeetsPairs(data, g, bad, pos, depth, budget)
            then ReadPairs(data, g, pos, depth, budget) == Failed(InvalidArgument)
            else ReadPairs(data, f, pos, depth, budget) == ReadPairs(data, g, pos, depth, budget)
    decreases budget, 2
  {
    if budget > 0 {
      SamePair(data, f, g, bad, pos, depth, budget - 1);
      var first := ReadPair(data, g, pos, depth, budget - 1);
      if first.Got? {
        SamePairs(data, f, g, bad, first.next, depth, budget - 1);
      }
    }
  }
}
