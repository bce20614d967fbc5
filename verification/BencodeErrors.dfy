/**
 How a parse fails. A refused input is cut where the parser stops: behind the containers that are open
 there, with the elements already read in each, and in front of what cannot go on. The place and what
 stands there decide the exception.
 */
module BencodeErrors {
  import opened Base
  import opened Decimal
  import opened Bencode
  import opened BencodeGrammar
  import opened BencodeCode
  import opened BencodeExact

  // ---------------------------------------------------------------- integers and strings

  ghost predicate SpellsInt(s: Bytes, n: int, rest: Bytes) {
    s == [INT_START] + IntText(n) + [END] + rest
  }

  /** No integer is spelled, or one outside the int64 range. */
  ghost predicate IntError(s: Bytes, e: Error) {
    match e
    case InvalidArgument => forall n: int, rest: Bytes :: !SpellsInt(s, n, rest)
    case OutOfRange => exists n: int, rest: Bytes :: SpellsInt(s, n, rest) && !(-TWO_TO_THE_63 <= n < TWO_TO_THE_63)
    case RuntimeError => false
  }

  lemma IntRead(s: Bytes, n: int, rest: Bytes)
    requires SpellsInt(s, n, rest)
    ensures ParseInt(s) == if -TWO_TO_THE_63 <= n < TWO_TO_THE_63 then Ok(Parsed(Int(n), rest)) else Err(OutOfRange)
  {
    ParseIntText(n, rest);
  }

  lemma IntFound(s: Bytes, end: nat)
    requires s != [] && s[0] == INT_START && Find(s[1..], END) == Some(end) && end < |s| - 1 && IsIntText(s[1..][..end])
    ensures SpellsInt(s, IntValue(s[1..][..end]), s[1..][end + 1..])
  {
    var num, rest := s[1..][..end], s[1..][end + 1..];
    FindIsFirst(s[1..], END);
    IntTextOfValue(num);
    assert s == [INT_START] + num + [END] + rest;
  }

  /** How an input fails that starts like an integer. */
  lemma IntFailsIff(s: Bytes, e: Error)
    requires s != [] && s[0] == INT_START
    ensures ParseInt(s) == Err(e) <==> IntError(s, e)
  {
    forall n: int, rest: Bytes | SpellsInt(s, n, rest)
      ensures ParseInt(s) == if -TWO_TO_THE_63 <= n < TWO_TO_THE_63 then Ok(Parsed(Int(n), rest)) else Err(OutOfRange)
    {
      IntRead(s, n, rest);
    }
    var end := Find(s[1..], END);
    if end.Some? && IsIntText(s[1..][..end.value]) {
      IntFound(s, end.value);
    }
  }

  /** A length: digits, perhaps something else, and a colon. */
  ghost predicate SpellsLength(s: Bytes, digits: Bytes, junk: Bytes, body: Bytes) {
    && s == digits + junk + [COLON] + body
    && digits != [] && AllDigits(digits) && COLON !in junk && (junk != [] ==> !IsDigit(junk[0]))
  }

  /** No length is spelled, or one that the data behind it does not have, or one that is no unsigned long. */
  ghost predicate StringError(s: Bytes, e: Error) {
    match e
    case InvalidArgument =>
      forall digits: Bytes, junk: Bytes, body: Bytes ::
        SpellsLength(s, digits, junk, body) ==> |body| < NatValue(digits) < TWO_TO_THE_64
    case OutOfRange =>
      exists digits: Bytes, junk: Bytes, body: Bytes ::
        SpellsLength(s, digits, junk, body) && NatValue(digits) >= TWO_TO_THE_64
    case RuntimeError => false
  }

  lemma {:induction false} DigitRunIs(digits: Bytes, junk: Bytes)
    requires AllDigits(digits) && (junk != [] ==> !IsDigit(junk[0]))
    ensures DigitRun(digits + junk) == digits
  {
    if digits != [] {
      assert (digits + junk)[1..] == digits[1..] + junk;
      DigitRunIs(digits[1..], junk);
    } else {
      assert digits + junk == junk;
    }
  }

  lemma LengthRead(s: Bytes, digits: Bytes, junk: Bytes, body: Bytes)
    requires SpellsLength(s, digits, junk, body)
    ensures var n := NatValue(digits);
            ParseString(s) == if n >= TWO_TO_THE_64 then Err(OutOfRange)
                              else if n > |body| then Err(InvalidArgument)
                              else Ok(Parsed(body[..n], body[n..]))
  {
    DigitRunIs(digits, junk);
    FindTerminator(digits + junk, COLON, body);
  }

  lemma LengthFound(s: Bytes, colon: nat) returns (junk: Bytes)
    requires Find(s, COLON) == Some(colon) && colon < |s| && DigitRun(s[..colon]) != []
    ensures SpellsLength(s, DigitRun(s[..colon]), junk, s[colon + 1..])
  {
    FindIsFirst(s, COLON);
    var field := s[..colon];
    var digits := DigitRun(field);
    junk := field[|digits|..];
    assert field == digits + junk;
    assert s == field + [COLON] + s[colon + 1..];
  }

  /** How an input fails where a string is expected. */
  lemma StringFailsIff(s: Bytes, e: Error)
    ensures ParseString(s) == Err(e) <==> StringError(s, e)
  {
    forall digits: Bytes, junk: Bytes, body: Bytes | SpellsLength(s, digits, junk, body)
      ensures var n := NatValue(digits);
              ParseString(s) == if n >= TWO_TO_THE_64 then Err(OutOfRange)
                                else if n > |body| then Err(InvalidArgument)
                                else Ok(Parsed(body[..n], body[n..]))
    {
      LengthRead(s, digits, junk, body);
    }
    var colon := Find(s, COLON);
    if colon.Some? && DigitRun(s[..colon.value]) != [] {
      var junk := LengthFound(s, colon.value);
    }
  }

  // ---------------------------------------------------------------- std::stoul

  predicate AllSpaces(s: Bytes) {
    forall i :: 0 <= i < |s| ==> IsSpace(s[i])
  }

  /** White space, perhaps a sign, digits, and whatever follows them. */
  ghost predicate SpellsNumber(field: Bytes, spaces: Bytes, sign: Bytes, digits: Bytes, junk: Bytes) {
    && field == spaces + (sign + (digits + junk))
    && AllSpaces(spaces)
    && (sign == [] || sign == [PLUS] || sign == [MINUS])
    && digits != [] && AllDigits(digits) && (junk != [] ==> !IsDigit(junk[0]))
  }

  lemma {:induction false} SpacesSkipped(spaces: Bytes, rest: Bytes)
    requires AllSpaces(spaces)
    requires rest != [] ==> !IsSpace(rest[0])
    ensures SkipSpaces(spaces + rest) == rest
  {
    if spaces == [] {
      assert spaces + rest == rest;
    } else {
      assert (spaces + rest)[1..] == spaces[1..] + rest;
      SpacesSkipped(spaces[1..], rest);
    }
  }

  lemma OneMoreSpace(c: byte, spaces: Bytes, rest: Bytes)
    requires IsSpace(c) && AllSpaces(spaces)
    ensures AllSpaces([c] + spaces) && [c] + (spaces + rest) == [c] + spaces + rest
  {
  }

  lemma {:induction false} SkippedSpaces(field: Bytes) returns (spaces: Bytes)
    ensures field == spaces + SkipSpaces(field) && AllSpaces(spaces)
  {
    spaces := [];
    if field != [] && IsSpace(field[0]) {
      var others := SkippedSpaces(field[1..]);
      OneMoreSpace(field[0], others, SkipSpaces(field[1..]));
      assert field == [field[0]] + field[1..];
      spaces := [field[0]] + others;
    }
  }

  lemma SplitSign(signed: Bytes) returns (sign: Bytes)
    ensures signed == sign + SkipSign(signed) && (sign == [] || sign == [PLUS] || sign == [MINUS])
  {
    sign := if SkipSign(signed) == signed then [] else [signed[0]];
  }

  lemma SplitDigits(s: Bytes) returns (junk: Bytes)
    ensures s == DigitRun(s) + junk && (junk != [] ==> !IsDigit(junk[0]))
  {
    junk := s[|DigitRun(s)|..];
  }

  lemma NumberFound(field: Bytes) returns (spaces: Bytes, sign: Bytes, junk: Bytes)
    requires DigitRun(SkipSign(SkipSpaces(field))) != []
    ensures SpellsNumber(field, spaces, sign, DigitRun(SkipSign(SkipSpaces(field))), junk)
  {
    spaces := SkippedSpaces(field);
    sign := SplitSign(SkipSpaces(field));
    junk := SplitDigits(SkipSign(SkipSpaces(field)));
  }

  /** The number is read, modulo 2^64 behind a minus sign, unless it is too large. */
  lemma StoulOfNumber(field: Bytes, spaces: Bytes, sign: Bytes, digits: Bytes, junk: Bytes)
    requires SpellsNumber(field, spaces, sign, digits, junk)
    ensures var n := NatValue(digits);
            Stoul(field) == if n >= TWO_TO_THE_64 then Err(OutOfRange)
                            else if sign == [MINUS] && n > 0 then Ok(TWO_TO_THE_64 - n)
                            else Ok(n)
  {
    var signed := sign + (digits + junk);
    SpacesSkipped(spaces, signed);
    assert SkipSign(signed) == digits + junk;
    DigitRunIs(digits, junk);
  }

  /** Nothing else is taken for a number. */
  lemma StoulRefuses(field: Bytes)
    ensures Stoul(field) == Err(InvalidArgument) <==>
            forall spaces: Bytes, sign: Bytes, digits: Bytes, junk: Bytes :: !SpellsNumber(field, spaces, sign, digits, junk)
  {
    forall spaces: Bytes, sign: Bytes, digits: Bytes, junk: Bytes | SpellsNumber(field, spaces, sign, digits, junk)
      ensures Stoul(field) != Err(InvalidArgument)
    {
      StoulOfNumber(field, spaces, sign, digits, junk);
    }
    if DigitRun(SkipSign(SkipSpaces(field))) != [] {
      var spaces, sign, junk := NumberFound(field);
    }
  }

  // ---------------------------------------------------------------- where a parse stops

  /** A container that is open where the parser stops, with what was read in it. */
  datatype Open =
    | InList(items: seq<Tree>)                          // an element or END comes next
    | AtKey(pairs: seq<Pair>)                           // a key or END comes next
    | AtValue(pairs: seq<Pair>, field: Bytes, key: Bytes) // the value of a key that was read comes next

  function OpenBody(o: Open): Bytes {
    match o
    case InList(items) => ItemsText(items)
    case AtKey(pairs) => PairsText(pairs)
    case AtValue(pairs, field, key) => PairsText(pairs) + StringText(field, key)
  }

  function OpenText(o: Open): Bytes {
    [if o.InList? then LIST_START else DICT_START] + OpenBody(o)
  }

  /** The bytes before the place, with the containers open there from the outermost on. */
  function PathText(path: seq<Open>): Bytes {
    if path == [] then [] else OpenText(path[0]) + PathText(path[1..])
  }

  /** What was read in the container is in order and within the depth limit. */
  ghost predicate OpenWell(o: Open, depth: nat) {
    match o
    case InList(items) => WellItems(items) && depth + ItemsDepth(items) <= MAX_RECURSION_DEPTH
    case AtKey(pairs) => WellPairs(pairs) && depth + PairsDepth(pairs) <= MAX_RECURSION_DEPTH
    case AtValue(pairs, field, key) =>
      && WellPairs(pairs) && depth + PairsDepth(pairs) <= MAX_RECURSION_DEPTH
      && Announces(field, key)
  }

  ghost predicate PathWell(path: seq<Open>, depth: nat) {
    path == [] ||
    (&& depth <= MAX_RECURSION_DEPTH && OpenWell(path[0], depth)
     && (path[0].AtKey? ==> |path| == 1)
     && PathWell(path[1..], depth + 1))
  }

  /** No value starts with these bytes, at that depth. */
  ghost predicate ValueError(r: Bytes, depth: nat, e: Error) {
    if depth > MAX_RECURSION_DEPTH then e == RuntimeError
    else if r == [] then e == InvalidArgument
    else if r[0] == INT_START then IntError(r, e)
    else if IsDigit(r[0]) then StringError(r, e)
    else r[0] != LIST_START && r[0] != DICT_START && e == InvalidArgument
  }

  /** What stands at the place cannot go on there. */
  ghost predicate PlaceError(path: seq<Open>, r: Bytes, depth: nat, e: Error) {
    if path == [] || path[|path| - 1].AtValue? then ValueError(r, depth + |path|, e)
    else if r == [] then e == InvalidArgument
    else
      && r[0] != END
      && if path[|path| - 1].AtKey? then StringError(r, e) else ValueError(r, depth + |path|, e)
  }

  /** The input is cut into the place where the parser stops and what stands there, which fails like this. */
  ghost predicate Stops(s: Bytes, depth: nat, path: seq<Open>, r: Bytes, e: Error) {
    s == PathText(path) + r && PathWell(path, depth) && PlaceError(path, r, depth, e)
  }

  // ---------------------------------------------------------------- such an input fails

  lemma ValueFails(r: Bytes, depth: nat, e: Error)
    requires ValueError(r, depth, e)
    ensures ParseValue(r, depth) == Err(e)
  {
    if depth <= MAX_RECURSION_DEPTH && r != [] {
      if r[0] == INT_START {
        IntFailsIff(r, e);
      } else if IsDigit(r[0]) {
        StringFailsIff(r, e);
      }
    }
  }

  lemma Assoc(a: Bytes, b: Bytes, c: Bytes)
    ensures a + b + c == a + (b + c)
  {
  }

  lemma Assoc4(a: Bytes, b: Bytes, c: Bytes, d: Bytes)
    ensures a + b + c + d == a + (b + (c + d))
  {
  }

  lemma FirstItemThen(s: Bytes, depth: nat, first: Parsed<Value>, e: Error)
    requires s != [] && s[0] != END && ParseValue(s, depth + 1) == Ok(first) && ParseItems(first.rest, depth) == Err(e)
    ensures ParseItems(s, depth) == Err(e)
  {
  }

  lemma ItemRead(t: Tree, rest: Bytes, depth: nat)
    requires Well(t) && depth + 1 + Depth(t) <= MAX_RECURSION_DEPTH
    ensures ParseValue(Text(t) + rest, depth + 1) == Ok(Parsed(Denote(t), rest))
    ensures Text(t) + rest != [] && (Text(t) + rest)[0] != END
  {
    TextStarts(t);
    ParseText(t, rest, depth + 1);
  }

  lemma {:induction false} ItemsThen(items: seq<Tree>, s: Bytes, depth: nat, e: Error)
    requires WellItems(items) && depth + ItemsDepth(items) <= MAX_RECURSION_DEPTH
    requires ParseItems(s, depth) == Err(e)
    ensures ParseItems(ItemsText(items) + s, depth) == Err(e)
  {
    if items == [] {
      assert ItemsText(items) + s == s;
    } else {
      ItemsThen(items[1..], s, depth, e);
      Assoc(Text(items[0]), ItemsText(items[1..]), s);
      var rest := ItemsText(items[1..]) + s;
      ItemRead(items[0], rest, depth);
      FirstItemThen(Text(items[0]) + rest, depth, Parsed(Denote(items[0]), rest), e);
    }
  }

  lemma PairRead(p: Pair, rest: Bytes, depth: nat)
    requires Announces(p.field, p.key) && Well(p.val) && depth + 1 + Depth(p.val) <= MAX_RECURSION_DEPTH
    ensures ParsePair(StringText(p.field, p.key) + (Text(p.val) + rest), depth) == Ok(Parsed(Entry(p.key, Denote(p.val)), rest))
  {
    ParseStringText(p.field, p.key, Text(p.val) + rest);
    ParseText(p.val, rest, depth + 1);
  }

  lemma FirstPairThen(s: Bytes, depth: nat, first: Parsed<Entry>, e: Error)
    requires s != [] && s[0] != END && ParsePair(s, depth) == Ok(first) && ParsePairs(first.rest, depth) == Err(e)
    ensures ParsePairs(s, depth) == Err(e)
  {
  }

  lemma {:induction false} PairsThen(pairs: seq<Pair>, s: Bytes, depth: nat, e: Error)
    requires WellPairs(pairs) && depth + PairsDepth(pairs) <= MAX_RECURSION_DEPTH
    requires ParsePairs(s, depth) == Err(e)
    ensures ParsePairs(PairsText(pairs) + s, depth) == Err(e)
  {
    if pairs == [] {
      assert PairsText(pairs) + s == s;
    } else {
      var p, rest := pairs[0], PairsText(pairs[1..]) + s;
      PairsThen(pairs[1..], s, depth, e);
      Assoc4(StringText(p.field, p.key), Text(p.val), PairsText(pairs[1..]), s);
      TextStarts(TStr(p.field, p.key));
      PairRead(p, rest, depth);
      FirstPairThen(StringText(p.field, p.key) + (Text(p.val) + rest), depth, Parsed(Entry(p.key, Denote(p.val)), rest), e);
    }
  }

  /** What follows the elements or pairs already read fails like this. */
  ghost predicate InnerFails(o: Open, inner: Bytes, depth: nat, e: Error) {
    match o
    case InList(_) => ParseItems(inner, depth) == Err(e)
    case AtKey(_) => ParsePairs(inner, depth) == Err(e)
    case AtValue(_, _, _) => ParseValue(inner, depth + 1) == Err(e)
  }

  lemma KeyedFails(field: Bytes, key: Bytes, inner: Bytes, depth: nat, e: Error)
    requires Announces(field, key) && ParseValue(inner, depth + 1) == Err(e)
    ensures ParsePairs(StringText(field, key) + inner, depth) == Err(e)
  {
    TextStarts(TStr(field, key));
    ParseStringText(field, key, inner);
  }

  lemma BodyFails(o: Open, inner: Bytes, depth: nat, e: Error)
    requires OpenWell(o, depth) && InnerFails(o, inner, depth, e)
    ensures if o.InList? then ParseItems(OpenBody(o) + inner, depth) == Err(e) else ParsePairs(OpenBody(o) + inner, depth) == Err(e)
  {
    match o
    case InList(items) => ItemsThen(items, inner, depth, e);
    case AtKey(pairs) => PairsThen(pairs, inner, depth, e);
    case AtValue(pairs, field, key) =>
      KeyedFails(field, key, inner, depth, e);
      PairsThen(pairs, StringText(field, key) + inner, depth, e);
      Assoc(PairsText(pairs), StringText(field, key), inner);
  }

  lemma OpenFails(o: Open, inner: Bytes, depth: nat, e: Error)
    requires depth <= MAX_RECURSION_DEPTH && OpenWell(o, depth) && InnerFails(o, inner, depth, e)
    ensures ParseValue(OpenText(o) + inner, depth) == Err(e)
  {
    BodyFails(o, inner, depth, e);
    ParseContainer(OpenBody(o) + inner, depth);
    Assoc([if o.InList? then LIST_START else DICT_START], OpenBody(o), inner);
  }

  lemma ElementFails(inner: Bytes, depth: nat, e: Error)
    requires inner != [] && inner[0] != END && ParseValue(inner, depth + 1) == Err(e)
    ensures ParseItems(inner, depth) == Err(e)
  {
  }

  lemma KeyFails(r: Bytes, depth: nat, e: Error)
    requires if r == [] then e == InvalidArgument else r[0] != END && StringError(r, e)
    ensures ParsePairs(r, depth) == Err(e)
  {
    if r != [] {
      StringFailsIff(r, e);
    }
  }

  /** The place in a container, and what stands there, without what was read before. */
  ghost predicate StopsIn(o: Open, inner: Bytes, depth: nat, path: seq<Open>, r: Bytes, e: Error) {
    && inner == PathText(path) + r && PathWell(path, depth + 1)
    && if path != [] then !o.AtKey? && PlaceError(path, r, depth + 1, e) else PlaceError([o], r, depth, e)
  }

  lemma PathStarts(path: seq<Open>, r: Bytes)
    requires path != []
    ensures PathText(path) + r != [] && (PathText(path) + r)[0] != END
  {
    assert OpenText(path[0]) != [] && OpenText(path[0])[0] != END;
  }

  lemma PlaceErrorAround(o: Open, path: seq<Open>, r: Bytes, depth: nat, e: Error)
    requires path != []
    ensures PlaceError([o] + path, r, depth, e) <==> PlaceError(path, r, depth + 1, e)
  {
    assert ([o] + path)[|path|] == path[|path| - 1];
  }

  /** A place is one in the outermost container that is open there. */
  lemma StopsIsIn(s: Bytes, depth: nat, o: Open, path: seq<Open>, r: Bytes, e: Error)
    ensures Stops(s, depth, [o] + path, r, e) <==>
            depth <= MAX_RECURSION_DEPTH && OpenWell(o, depth) && s == OpenText(o) + (PathText(path) + r) &&
            StopsIn(o, PathText(path) + r, depth, path, r, e)
  {
    assert ([o] + path)[1..] == path;
    Assoc(OpenText(o), PathText(path), r);
    if path == [] {
      assert [o] + path == [o];
    } else {
      PlaceErrorAround(o, path, r, depth, e);
    }
  }

  lemma {:induction false} StopsFails(s: Bytes, depth: nat, path: seq<Open>, r: Bytes, e: Error)
    requires Stops(s, depth, path, r, e)
    ensures ParseValue(s, depth) == Err(e)
    decreases |path|, 1
  {
    if path == [] {
      assert s == r;
      ValueFails(r, depth, e);
    } else {
      var o, inside := path[0], path[1..];
      assert [o] + inside == path;
      StopsIsIn(s, depth, o, inside, r, e);
      StopsInFails(o, PathText(inside) + r, depth, inside, r, e);
      OpenFails(o, PathText(inside) + r, depth, e);
    }
  }

  lemma {:induction false} StopsInFails(o: Open, inner: Bytes, depth: nat, path: seq<Open>, r: Bytes, e: Error)
    requires StopsIn(o, inner, depth, path, r, e)
    ensures InnerFails(o, inner, depth, e)
    decreases |path|, 2
  {
    if path == [] {
      assert inner == r;
      if o.AtKey? {
        KeyFails(r, depth, e);
      } else if o.AtValue? || r != [] {
        ValueFails(r, depth + 1, e);
      }
    } else {
      PathStarts(path, r);
      StopsFails(inner, depth + 1, path, r, e);
    }
    if o.InList? && inner != [] {
      ElementFails(inner, depth, e);
    }
  }

  // ---------------------------------------------------------------- every failing input is like that

  lemma ValueErrorFound(s: Bytes, depth: nat)
    requires ParseValue(s, depth).Err?
    requires depth <= MAX_RECURSION_DEPTH && s != [] ==> s[0] != LIST_START && s[0] != DICT_START
    ensures ValueError(s, depth, ParseValue(s, depth).error)
  {
    var e := ParseValue(s, depth).error;
    if depth <= MAX_RECURSION_DEPTH && s != [] {
      if s[0] == INT_START {
        IntFailsIff(s, e);
      } else if IsDigit(s[0]) {
        StringFailsIff(s, e);
      }
    }
  }

  /** A value that fails makes a place in the container around it. */
  lemma ValueStopsIn(o: Open, s: Bytes, depth: nat, path: seq<Open>, r: Bytes, e: Error)
    requires !o.AtKey? && Stops(s, depth + 1, path, r, e) && (o.InList? ==> s != [] && s[0] != END)
    ensures StopsIn(o, s, depth, path, r, e)
  {
    if path == [] {
      assert s == r;
    }
  }

  lemma ContainerStops(o: Open, s: Bytes, inner: Bytes, depth: nat, path: seq<Open>, r: Bytes, e: Error)
    requires depth <= MAX_RECURSION_DEPTH && OpenWell(o, depth) && StopsIn(o, inner, depth, path, r, e)
    requires s == OpenBody(o) + inner
    ensures Stops([if o.InList? then LIST_START else DICT_START] + s, depth, [o] + path, r, e)
  {
    Assoc([if o.InList? then LIST_START else DICT_START], OpenBody(o), inner);
    StopsIsIn(OpenText(o) + inner, depth, o, path, r, e);
  }

  lemma {:induction false} ParseStops(s: Bytes, depth: nat) returns (path: seq<Open>, r: Bytes)
    requires ParseValue(s, depth).Err?
    ensures Stops(s, depth, path, r, ParseValue(s, depth).error)
    decreases |s|, 0
  {
    if depth <= MAX_RECURSION_DEPTH && s != [] && (s[0] == LIST_START || s[0] == DICT_START) {
      assert s == [s[0]] + s[1..];
      ParseContainer(s[1..], depth);
      var o, inner;
      if s[0] == LIST_START {
        o, inner, path, r := ItemsStop(s[1..], depth);
      } else {
        o, inner, path, r := PairsStop(s[1..], depth);
      }
      ContainerStops(o, s[1..], inner, depth, path, r, ParseValue(s, depth).error);
      path := [o] + path;
    } else {
      path, r := [], s;
      ValueErrorFound(s, depth);
      assert PathText(path) + r == s;
    }
  }

  lemma {:induction false} ItemsStop(s: Bytes, depth: nat) returns (o: Open, inner: Bytes, path: seq<Open>, r: Bytes)
    requires depth <= MAX_RECURSION_DEPTH && ParseItems(s, depth).Err?
    ensures o.InList? && OpenWell(o, depth) && s == OpenBody(o) + inner
    ensures StopsIn(o, inner, depth, path, r, ParseItems(s, depth).error)
    decreases |s|, 2
  {
    if s == [] {
      o, inner, path, r := InList([]), [], [], [];
    } else if ParseValue(s, depth + 1).Err? {
      o, inner := InList([]), s;
      path, r := InnerStops(o, s, depth);
    } else {
      var t := ParseSound(s, depth + 1);
      var rest := ParseValue(s, depth + 1).value.rest;
      o, inner, path, r := ItemsStop(rest, depth);
      MoreItems(t, o.items, rest, inner, depth);
      StopsInSame(o, InList([t] + o.items), inner, depth, path, r, ParseItems(s, depth).error);
      o := InList([t] + o.items);
    }
  }

  lemma MoreItems(t: Tree, items: seq<Tree>, rest: Bytes, inner: Bytes, depth: nat)
    requires Well(t) && depth + 1 + Depth(t) <= MAX_RECURSION_DEPTH && OpenWell(InList(items), depth)
    requires rest == ItemsText(items) + inner
    ensures OpenWell(InList([t] + items), depth) && Text(t) + rest == ItemsText([t] + items) + inner
  {
    assert ([t] + items)[1..] == items;
    Assoc(Text(t), ItemsText(items), inner);
  }

  /** What was read before in the same kind of place makes no difference. */
  lemma StopsInSame(o: Open, other: Open, inner: Bytes, depth: nat, path: seq<Open>, r: Bytes, e: Error)
    requires StopsIn(o, inner, depth, path, r, e)
    requires (o.InList? && other.InList?) || (o.AtKey? && other.AtKey?) || (o.AtValue? && other.AtValue?)
    ensures StopsIn(other, inner, depth, path, r, e)
  {
  }

  /** The open dictionary with one more pair read at the front. */
  function WithPair(p: Pair, o: Open): Open
    requires !o.InList?
  {
    match o
    case AtKey(pairs) => AtKey([p] + pairs)
    case AtValue(pairs, field, key) => AtValue([p] + pairs, field, key)
  }

  lemma WithPairWell(p: Pair, o: Open, depth: nat)
    requires !o.InList? && OpenWell(o, depth)
    requires Announces(p.field, p.key) && Well(p.val) && depth + 1 + Depth(p.val) <= MAX_RECURSION_DEPTH
    ensures OpenWell(WithPair(p, o), depth)
  {
    assert ([p] + o.pairs)[1..] == o.pairs;
  }

  lemma WithPairBody(p: Pair, o: Open)
    requires !o.InList?
    ensures OpenBody(WithPair(p, o)) == StringText(p.field, p.key) + (Text(p.val) + OpenBody(o))
  {
    assert ([p] + o.pairs)[1..] == o.pairs;
    Assoc(StringText(p.field, p.key), Text(p.val), PairsText(o.pairs));
    if o.AtValue? {
      Assoc4(StringText(p.field, p.key), Text(p.val), PairsText(o.pairs), StringText(o.field, o.key));
    }
  }

  lemma MorePairs(p: Pair, o: Open, rest: Bytes, inner: Bytes, depth: nat)
    requires !o.InList? && OpenWell(o, depth) && rest == OpenBody(o) + inner
    requires Announces(p.field, p.key) && Well(p.val) && depth + 1 + Depth(p.val) <= MAX_RECURSION_DEPTH
    ensures OpenWell(WithPair(p, o), depth)
    ensures StringText(p.field, p.key) + (Text(p.val) + rest) == OpenBody(WithPair(p, o)) + inner
  {
    WithPairWell(p, o, depth);
    WithPairBody(p, o);
    Nested(StringText(p.field, p.key), Text(p.val), OpenBody(o), inner);
  }

  lemma Nested(a: Bytes, b: Bytes, c: Bytes, d: Bytes)
    ensures a + (b + (c + d)) == a + (b + c) + d
  {
  }

  /** The first pair of a dictionary, read. */
  lemma PairSound(s: Bytes, depth: nat) returns (p: Pair)
    requires depth <= MAX_RECURSION_DEPTH && ParsePair(s, depth).Ok?
    ensures Announces(p.field, p.key) && Well(p.val) && depth + 1 + Depth(p.val) <= MAX_RECURSION_DEPTH
    ensures s == StringText(p.field, p.key) + (Text(p.val) + ParsePair(s, depth).value.rest)
  {
    var key := ParseString(s).value;
    var field := ParseStringSound(s);
    var tree := ParseSound(key.rest, depth + 1);
    p := Pair(field, key.value, tree);
  }

  /** A dictionary stops at the first pair, or behind it. */
  lemma PairsErr(s: Bytes, depth: nat)
    requires s != [] && ParsePairs(s, depth).Err?
    ensures s[0] != END
    ensures ParsePair(s, depth).Err? ==> ParsePairs(s, depth) == Err(ParsePair(s, depth).error)
    ensures ParsePair(s, depth).Ok? ==> ParsePairs(ParsePair(s, depth).value.rest, depth) == ParsePairs(s, depth)
  {
  }

  /** A pair fails at its key or at its value. */
  lemma PairErr(s: Bytes, depth: nat)
    requires ParsePair(s, depth).Err?
    ensures var key := ParseString(s);
            ParsePair(s, depth) == if key.Err? then Err(key.error) else Err(ParseValue(key.value.rest, depth + 1).error)
    ensures var key := ParseString(s); key.Ok? ==> ParseValue(key.value.rest, depth + 1).Err?
  {
  }

  lemma KeyStops(s: Bytes, depth: nat, e: Error)
    requires s != [] && s[0] != END && ParseString(s) == Err(e)
    ensures StopsIn(AtKey([]), s, depth, [], s, e)
  {
    StringFailsIff(s, e);
    assert PathText([]) + s == s;
  }

  lemma KeyText(s: Bytes, key: Parsed<Bytes>, depth: nat) returns (o: Open)
    requires ParseString(s) == Ok(key) && depth <= MAX_RECURSION_DEPTH
    ensures o.AtValue? && OpenWell(o, depth) && s == OpenBody(o) + key.rest
  {
    var field := ParseStringSound(s);
    o := AtValue([], field, key.value);
    assert OpenBody(o) == StringText(field, key.value);
  }

  /** The place is in the value that is expected in the container. */
  lemma InnerStops(o: Open, s: Bytes, depth: nat) returns (path: seq<Open>, r: Bytes)
    requires !o.AtKey? && ParseValue(s, depth + 1).Err? && (o.InList? ==> s != [] && s[0] != END)
    ensures StopsIn(o, s, depth, path, r, ParseValue(s, depth + 1).error)
    decreases |s|, 1
  {
    path, r := ParseStops(s, depth + 1);
    ValueStopsIn(o, s, depth, path, r, ParseValue(s, depth + 1).error);
  }

  lemma FirstPairStops(s: Bytes, depth: nat) returns (o: Open, inner: Bytes, path: seq<Open>, r: Bytes)
    requires depth <= MAX_RECURSION_DEPTH && s != [] && s[0] != END && ParsePair(s, depth).Err?
    ensures !o.InList? && OpenWell(o, depth) && s == OpenBody(o) + inner
    ensures StopsIn(o, inner, depth, path, r, ParsePair(s, depth).error)
    decreases |s|, 2
  {
    PairErr(s, depth);
    var key := ParseString(s);
    if key.Err? {
      KeyStops(s, depth, key.error);
      o, inner, path, r := AtKey([]), s, [], s;
    } else {
      o := KeyText(s, key.value, depth);
      inner := key.value.rest;
      path, r := InnerStops(o, inner, depth);
    }
  }

  lemma {:induction false} PairsStop(s: Bytes, depth: nat) returns (o: Open, inner: Bytes, path: seq<Open>, r: Bytes)
    requires depth <= MAX_RECURSION_DEPTH && ParsePairs(s, depth).Err?
    ensures !o.InList? && OpenWell(o, depth) && s == OpenBody(o) + inner
    ensures StopsIn(o, inner, depth, path, r, ParsePairs(s, depth).error)
    decreases |s|, 3
  {
    if s == [] {
      o, inner, path, r := AtKey([]), [], [], [];
    } else {
      PairsErr(s, depth);
      if ParsePair(s, depth).Err? {
        o, inner, path, r := FirstPairStops(s, depth);
      } else {
        var p := PairSound(s, depth);
        var rest := ParsePair(s, depth).value.rest;
        o, inner, path, r := PairsStop(rest, depth);
        MorePairs(p, o, rest, inner, depth);
        StopsInSame(o, WithPair(p, o), inner, depth, path, r, ParsePairs(s, depth).error);
        o := WithPair(p, o);
      }
    }
  }

  /** The parser fails with an exception exactly on the inputs that are cut at a place that fails like that. */
  lemma FailsIff(s: Bytes, depth: nat, e: Error)
    ensures ParseValue(s, depth) == Err(e) <==> exists path: seq<Open>, r: Bytes :: Stops(s, depth, path, r, e)
  {
    if ParseValue(s, depth) == Err(e) {
      var path, r := ParseStops(s, depth);
    }
    forall path: seq<Open>, r: Bytes | Stops(s, depth, path, r, e)
      ensures ParseValue(s, depth) == Err(e)
    {
      StopsFails(s, depth, path, r, e);
    }
  }

  lemma {:induction false} PathDepth(path: seq<Open>, depth: nat)
    requires PathWell(path, depth) && path != []
    ensures depth + |path| <= MAX_RECURSION_DEPTH + 1
    decreases |path|
  {
    if |path| > 1 {
      PathDepth(path[1..], depth + 1);
    }
  }

  /** A value is expected one level below the depth limit. */
  ghost predicate TooDeep(s: Bytes, depth: nat, path: seq<Open>, r: Bytes) {
    && s == PathText(path) + r && PathWell(path, depth) && depth + |path| == MAX_RECURSION_DEPTH + 1
    && (path == [] || path[|path| - 1].AtValue? || (path[|path| - 1].InList? && r != [] && r[0] != END))
  }

  /** The depth guard's exception comes exactly from such an input. */
  lemma RuntimeErrorIff(s: Bytes, depth: nat)
    requires depth <= MAX_RECURSION_DEPTH
    ensures ParseValue(s, depth) == Err(RuntimeError) <==> exists path: seq<Open>, r: Bytes :: TooDeep(s, depth, path, r)
  {
    FailsIff(s, depth, RuntimeError);
    if ParseValue(s, depth) == Err(RuntimeError) {
      var path, r :| Stops(s, depth, path, r, RuntimeError);
      if path != [] {
        PathDepth(path, depth);
      }
      assert TooDeep(s, depth, path, r);
    }
    if path: seq<Open>, r: Bytes :| TooDeep(s, depth, path, r) {
      assert Stops(s, depth, path, r, RuntimeError);
    }
  }

  /** The same for the parser as coded, on every input whose parse comes to no string that strays. */
  lemma CodeFailsIff(data: Bytes, depth: nat, budget: nat, e: Error)
    requires Sized(data) && budget >= 2 * |data| && !StraysIn(data, 0, depth)
    ensures ReadValue(data, Coded(data), 0, depth, budget) == Failed(e) <==>
            exists path: seq<Open>, r: Bytes :: Stops(data, depth, path, r, e)
  {
    assert data[0..] == data;
    CodeIsFormat(data, 0, depth, budget);
    FailsIff(data, depth, e);
  }
}
