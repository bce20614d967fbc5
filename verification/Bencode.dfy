/**
 Bencode values, the printer, and a parser for the format as functions. The parser is written on the
 unread suffix of the input: it returns the value and what is left to read. Module BencodeCode has the
 parser as coded, on machine integers, and says when it is this one.
 */
module Bencode {
  import opened Base
  import opened Decimal

  const INT_START: byte := 'i' as byte
  const LIST_START: byte := 'l' as byte
  const DICT_START: byte := 'd' as byte
  const END: byte := 'e' as byte
  const COLON: byte := ':' as byte
  const MAX_RECURSION_DEPTH: nat := 1000

  /** A decoded value. A dictionary is a std::map: entries in key order, each key once. */
  datatype Value =
    | Int(n: int64)
    | Str(bytes: Bytes)
    | List(items: seq<Value>)
    | Dict(entries: seq<Entry>)

  datatype Entry = Entry(key: Bytes, val: Value)

  /** std::string order: lexicographic on unsigned bytes. */
  predicate Less(a: Bytes, b: Bytes) {
    if b == [] then false
    else if a == [] then true
    else if a[0] != b[0] then a[0] < b[0]
    else Less(a[1..], b[1..])
  }

  ghost predicate Ascending(entries: seq<Entry>) {
    forall i, j :: 0 <= i < j < |entries| ==> Less(entries[i].key, entries[j].key)
  }

  /** What the C++ types guarantee: size_t string sizes and ordered maps, at every level. */
  ghost predicate WellFormed(v: Value) {
    match v
    case Int(_) => true
    case Str(s) => |s| < TWO_TO_THE_64
    case List(items) => forall i :: 0 <= i < |items| ==> WellFormed(items[i])
    case Dict(entries) =>
      && Ascending(entries)
      && forall i :: 0 <= i < |entries| ==> |entries[i].key| < TWO_TO_THE_64 && WellFormed(entries[i].val)
  }

  /** How many levels of recursion the parser needs below the value itself. */
  function Height(v: Value): nat {
    match v
    case Int(_) => 0
    case Str(_) => 0
    case List(items) => ItemsHeight(items)
    case Dict(entries) => EntriesHeight(entries)
  }

  function ItemsHeight(items: seq<Value>): nat {
    if items == [] then 0 else Max(1 + Height(items[0]), ItemsHeight(items[1..]))
  }

  function EntriesHeight(entries: seq<Entry>): nat {
    if entries == [] then 0 else Max(1 + Height(entries[0].val), EntriesHeight(entries[1..]))
  }

  function Max(a: nat, b: nat): nat {
    if a < b then b else a
  }

  // ---------------------------------------------------------------- printing

  function EncodeString(s: Bytes): Bytes {
    NatText(|s|) + [COLON] + s
  }

  function Encode(v: Value): Bytes {
    match v
    case Int(n) => [INT_START] + IntText(n) + [END]
    case Str(s) => EncodeString(s)
    case List(items) => [LIST_START] + EncodeItems(items) + [END]
    case Dict(entries) => [DICT_START] + EncodeEntries(entries) + [END]
  }

  function EncodeItems(items: seq<Value>): Bytes {
    if items == [] then [] else Encode(items[0]) + EncodeItems(items[1..])
  }

  function EncodeEntries(entries: seq<Entry>): Bytes {
    if entries == [] then []
    else EncodeString(entries[0].key) + Encode(entries[0].val) + EncodeEntries(entries[1..])
  }

  // ---------------------------------------------------------------- std::map

  /** std::map::emplace: an existing key keeps its value. */
  function Emplace(entries: seq<Entry>, key: Bytes, val: Value): seq<Entry> {
    if entries == [] then [Entry(key, val)]
    else if entries[0].key == key then entries
    else if Less(key, entries[0].key) then [Entry(key, val)] + entries
    else [entries[0]] + Emplace(entries[1..], key, val)
  }

  /** The map after emplacing the pairs in the order they were read. */
  function FromPairs(pairs: seq<Entry>): seq<Entry> {
    if pairs == [] then []
    else Emplace(FromPairs(pairs[..|pairs| - 1]), pairs[|pairs| - 1].key, pairs[|pairs| - 1].val)
  }

  /** The value of the first pair with the key. */
  function Lookup(pairs: seq<Entry>, key: Bytes): Option<Value> {
    if pairs == [] then None
    else if pairs[0].key == key then Some(pairs[0].val)
    else Lookup(pairs[1..], key)
  }

  // ---------------------------------------------------------------- parsing

  datatype Parsed<+T> = Parsed(value: T, rest: Bytes)

  /** std::string_view::find of one character. */
  function Find(s: Bytes, c: byte): (r: Option<nat>)
    ensures r.Some? ==> r.value < |s|
  {
    if s == [] then None
    else if s[0] == c then Some(0)
    else
      var r := Find(s[1..], c);
      if r.None? then None else Some(r.value + 1)
  }

  /** Find returns the first occurrence. */
  lemma {:induction false} FindIsFirst(s: Bytes, c: byte)
    ensures Find(s, c).None? <==> c !in s
    ensures Find(s, c).Some? ==> s[Find(s, c).value] == c && c !in s[..Find(s, c).value]
  {
    if s != [] && s[0] != c {
      FindIsFirst(s[1..], c);
      assert s == [s[0]] + s[1..];
    }
  }

  /** What the format has for a length field: the leading digits count, the rest is ignored. */
  function FieldLength(field: Bytes): Result<nat> {
    var digits := DigitRun(field);
    if digits == [] then Err(InvalidArgument)
    else if NatValue(digits) >= TWO_TO_THE_64 then Err(OutOfRange)
    else Ok(NatValue(digits))
  }

  /** std::stoll of a validated number. */
  function Stoll(num: Bytes): Result<int64>
    requires IsIntText(num)
  {
    var n := IntValue(num);
    if -TWO_TO_THE_63 <= n < TWO_TO_THE_63 then Ok(n) else Err(OutOfRange)
  }

  function ParseInt(s: Bytes): (r: Result<Parsed<Value>>)
    ensures r.Ok? ==> |r.value.rest| < |s|
  {
    if s == [] || s[0] != INT_START then Err(InvalidArgument)
    else
      var end := Find(s[1..], END);
      if end.None? then Err(InvalidArgument)
      else
        var num := s[1..][..end.value];
        if !IsIntText(num) then Err(InvalidArgument)
        else
          var n :- Stoll(num);
          Ok(Parsed(Int(n), s[1..][end.value + 1..]))
  }

  function ParseString(s: Bytes): (r: Result<Parsed<Bytes>>)
    ensures r.Ok? ==> |r.value.rest| < |s|
  {
    var colon := Find(s, COLON);
    if colon.None? then Err(InvalidArgument)
    else
      var len :- FieldLength(s[..colon.value]);
      var body := s[colon.value + 1..];
      if len > |body| then Err(InvalidArgument)
      else Ok(Parsed(body[..len], body[len..]))
  }

  function ParseValue(s: Bytes, depth: nat): (r: Result<Parsed<Value>>)
    ensures r.Ok? ==> |r.value.rest| < |s|
    decreases |s|, 0
  {
    if depth > MAX_RECURSION_DEPTH then Err(RuntimeError)
    else if s == [] then Err(InvalidArgument)
    else if s[0] == INT_START then ParseInt(s)
    else if IsDigit(s[0]) then
      var p :- ParseString(s);
      Ok(Parsed(Str(p.value), p.rest))
    else if s[0] == LIST_START then
      var p :- ParseItems(s[1..], depth);
      Ok(Parsed(List(p.value), p.rest))
    else if s[0] == DICT_START then
      var p :- ParsePairs(s[1..], depth);
      Ok(Parsed(Dict(FromPairs(p.value)), p.rest))
    else Err(InvalidArgument)
  }

  /** The elements of a list up to and including its END. */
  function ParseItems(s: Bytes, depth: nat): (r: Result<Parsed<seq<Value>>>)
    ensures r.Ok? ==> |r.value.rest| < |s|
    decreases |s|, 1
  {
    if s == [] then Err(InvalidArgument)
    else if s[0] == END then Ok(Parsed([], s[1..]))
    else
      var first :- ParseValue(s, depth + 1);
      var others :- ParseItems(first.rest, depth);
      Ok(Parsed([first.value] + others.value, others.rest))
  }

  /** A key and its value. */
  function ParsePair(s: Bytes, depth: nat): (r: Result<Parsed<Entry>>)
    ensures r.Ok? ==> |r.value.rest| < |s|
    decreases |s|, 1
  {
    var key :- ParseString(s);
    var val :- ParseValue(key.rest, depth + 1);
    Ok(Parsed(Entry(key.value, val.value), val.rest))
  }

  /** The key/value pairs of a dictionary, in reading order, up to and including its END. */
  function ParsePairs(s: Bytes, depth: nat): (r: Result<Parsed<seq<Entry>>>)
    ensures r.Ok? ==> |r.value.rest| < |s|
    decreases |s|, 2
  {
    if s == [] then Err(InvalidArgument)
    else if s[0] == END then Ok(Parsed([], s[1..]))
    else
      var first :- ParsePair(s, depth);
      var others :- ParsePairs(first.rest, depth);
      Ok(Parsed([first.value] + others.value, others.rest))
  }

  // ---------------------------------------------------------------- map lemmas

  lemma {:induction false} LessTransitive(a: Bytes, b: Bytes, c: Bytes)
    requires Less(a, b) && Less(b, c)
    ensures Less(a, c)
  {
    if a != [] && a[0] == b[0] == c[0] {
      LessTransitive(a[1..], b[1..], c[1..]);
    }
  }

  lemma {:induction false} LessTotal(a: Bytes, b: Bytes)
    ensures Less(a, b) || Less(b, a) || a == b
    ensures !(Less(a, b) && Less(b, a)) && !Less(a, a)
  {
    if a != [] {
      LessTotal(a[1..], a[1..]);
      if b != [] {
        LessTotal(a[1..], b[1..]);
        if a[0] == b[0] && a[1..] == b[1..] {
          assert a == [a[0]] + a[1..] && b == [b[0]] + b[1..];
        }
      }
    }
  }

  /** Ascending keys, split at the front. */
  lemma AscendingCons(head: Entry, tail: seq<Entry>)
    ensures Ascending([head] + tail) <==>
            Ascending(tail) && forall i :: 0 <= i < |tail| ==> Less(head.key, tail[i].key)
  {
    var all := [head] + tail;
    if Ascending(all) {
      forall i, j | 0 <= i < j < |tail|
        ensures Less(tail[i].key, tail[j].key)
      {
        assert Less(all[i + 1].key, all[j + 1].key);
      }
      forall i | 0 <= i < |tail|
        ensures Less(head.key, tail[i].key)
      {
        assert Less(all[0].key, all[i + 1].key);
      }
    }
  }

  predicate HasKey(entries: seq<Entry>, key: Bytes) {
    Lookup(entries, key).Some?
  }

  lemma {:induction false} LookupFinds(entries: seq<Entry>, key: Bytes)
    ensures HasKey(entries, key) <==> exists i :: 0 <= i < |entries| && entries[i].key == key
    ensures HasKey(entries, key) ==>
              exists i :: 0 <= i < |entries| && entries[i] == Entry(key, Lookup(entries, key).value)
  {
    if entries != [] {
      LookupFinds(entries[1..], key);
      if entries[0].key == key {
        assert entries[0] == Entry(key, Lookup(entries, key).value);
      } else if HasKey(entries[1..], key) {
        var i :| 0 <= i < |entries[1..]| && entries[1..][i] == Entry(key, Lookup(entries[1..], key).value);
        assert entries[i + 1] == Entry(key, Lookup(entries, key).value);
      } else {
        forall i | 0 <= i < |entries|
          ensures entries[i].key != key
        {
          if i > 0 {
            assert entries[i] == entries[1..][i - 1];
          }
        }
      }
    }
  }

  /** Emplacing keeps the order, keeps every old binding and adds the new one if its key was absent. */
  lemma {:induction false} EmplaceMeaning(entries: seq<Entry>, key: Bytes, val: Value)
    requires Ascending(entries)
    ensures Ascending(Emplace(entries, key, val))
    ensures forall k :: Lookup(Emplace(entries, key, val), k) ==
                        if k == key && Lookup(entries, k).None? then Some(val) else Lookup(entries, k)
  {
    if entries != [] {
      var head, tail := entries[0], entries[1..];
      assert entries == [head] + tail;
      AscendingCons(head, tail);
      if head.key != key {
        if Less(key, head.key) {
          forall i | 0 <= i < |entries|
            ensures Less(key, entries[i].key)
          {
            if i > 0 {
              assert Less(head.key, entries[i].key);
              LessTransitive(key, head.key, entries[i].key);
            }
          }
          AscendingCons(Entry(key, val), entries);
          LookupFinds(entries, key);
          LessTotal(key, key);
        } else {
          EmplaceMeaning(tail, key, val);
          LessTotal(key, head.key);
          var more := Emplace(tail, key, val);
          forall i | 0 <= i < |more|
            ensures Less(head.key, more[i].key)
          {
            LookupFinds(more, more[i].key);
            LookupFinds(tail, more[i].key);
          }
          AscendingCons(head, more);
        }
      }
    }
  }

  lemma {:induction false} LookupAppend(pairs: seq<Entry>, last: Entry, key: Bytes)
    ensures Lookup(pairs + [last], key) ==
            if Lookup(pairs, key).None? && last.key == key then Some(last.val) else Lookup(pairs, key)
  {
    if pairs != [] {
      assert (pairs + [last])[1..] == pairs[1..] + [last];
      LookupAppend(pairs[1..], last, key);
    }
  }

  /** A dictionary read from pairs is in key order and binds each key to its first value. */
  lemma {:induction false} FirstOfDuplicatesKept(pairs: seq<Entry>)
    ensures Ascending(FromPairs(pairs))
    ensures forall k :: Lookup(FromPairs(pairs), k) == Lookup(pairs, k)
  {
    if pairs != [] {
      var init, last := pairs[..|pairs| - 1], pairs[|pairs| - 1];
      FirstOfDuplicatesKept(init);
      EmplaceMeaning(FromPairs(init), last.key, last.val);
      assert pairs == init + [last];
      forall k
        ensures Lookup(FromPairs(pairs), k) == Lookup(pairs, k)
      {
        LookupAppend(init, last, k);
      }
    }
  }

  /** Two ordered dictionaries with the same bindings are the same. */
  lemma {:induction false} AscendingExtensional(a: seq<Entry>, b: seq<Entry>)
    requires Ascending(a) && Ascending(b)
    requires forall k :: Lookup(a, k) == Lookup(b, k)
    ensures a == b
  {
    if a == [] && b != [] {
      LookupFinds(b, b[0].key);
      assert false;
    } else if a != [] {
      assert Lookup(a, a[0].key) == Lookup(b, a[0].key);
      LookupFinds(b, a[0].key);
      LookupFinds(a, b[0].key);
      assert Lookup(a, b[0].key) == Lookup(b, b[0].key);
      LessTotal(a[0].key, b[0].key);
      assert a[0] == b[0];
      assert a == [a[0]] + a[1..] && b == [b[0]] + b[1..];
      AscendingCons(a[0], a[1..]);
      AscendingCons(b[0], b[1..]);
      forall k
        ensures Lookup(a[1..], k) == Lookup(b[1..], k)
      {
        LookupFinds(a[1..], k);
        LookupFinds(b[1..], k);
        LessTotal(k, k);
        assert Lookup(a, k) == Lookup(b, k);
      }
      AscendingExtensional(a[1..], b[1..]);
    }
  }

  /** Reading pairs that are already ordered changes nothing. */
  lemma OrderedPairsKept(pairs: seq<Entry>)
    requires Ascending(pairs)
    ensures FromPairs(pairs) == pairs
  {
    FirstOfDuplicatesKept(pairs);
    AscendingExtensional(FromPairs(pairs), pairs);
  }
}
