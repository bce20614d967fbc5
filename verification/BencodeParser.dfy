/**
 The codec in the source's own form: a read position that each routine advances, and loops that grow
 lists, maps and byte strings. Every parsing routine computes what its namesake in module BencodeCode
 defines. A thrown exception is a Failed run; since a parse need not end, a run takes a budget of
 recursive calls and loop turns and is Unfinished when that is used up.
 */
module BencodeParser {
  import opened Base
  import opened Decimal
  import B = Bencode
  import C = BencodeCode

  method ExpectChar(data: Bytes, pos: nat, expected: byte) returns (ok: bool, next: nat)
    ensures ok <==> pos < |data| && data[pos] == expected
    ensures ok ==> next == pos + 1
  {
    if pos >= |data| || data[pos] != expected {
      return false, pos;
    }
    return true, pos + 1;
  }

  lemma Suffix(data: Bytes, pos: nat, k: nat)
    requires pos + k <= |data|
    ensures data[pos..][k..] == data[pos + k..] && data[pos..][..k] == data[pos..pos + k]
  {
  }

  method ParseInt(data: Bytes, pos: nat) returns (r: C.Run<B.Value>)
    requires pos < |data|
    ensures r == C.IntAt(data, pos)
    ensures data[pos] != B.INT_START ==> r == C.Failed(InvalidArgument)
    ensures r.Got? ==> pos < r.next <= |data| && B.ParseInt(data[pos..]) == Ok(B.Parsed(r.value, data[r.next..]))
  {
    var next := pos;
    if data[next] != B.INT_START {
      return C.Failed(InvalidArgument);
    }
    next := next + 1;
    Suffix(data, pos, 1);
    var end := B.Find(data[next..], B.END);
    if end.None? {
      return C.Failed(InvalidArgument);
    }
    var num := data[next..][..end.value];
    var valid := IsValidBencodeInt(num);
    if !valid {
      return C.Failed(InvalidArgument);
    }
    Suffix(data, next, end.value + 1);
    next := next + end.value + 1;
    var n := B.Stoll(num);
    match n
    case Ok(value) => r := C.Got(B.Int(value), next);
    case Err(e) => r := C.Failed(e);
  }

  method ParseString(data: Bytes, pos: nat) returns (r: C.Run<Bytes>)
    requires C.Sized(data) && pos <= |data|
    ensures r == C.ReadString(data, pos)
    ensures r.Got? ==> r.next <= |data|
  {
    var colon := B.Find(data[pos..], B.COLON);
    if colon.None? {
      return C.Failed(InvalidArgument);
    }
    var len := C.Stoul(data[pos..][..colon.value]);
    if len.Err? {
      return C.Failed(len.error);
    }
    var next := pos + colon.value + 1;
    if (next + len.value) % TWO_TO_THE_64 > |data| {
      return C.Failed(InvalidArgument);
    }
    var value := C.Substr(data, next, len.value);
    next := (next + len.value) % TWO_TO_THE_64;
    r := C.Got(value, next);
  }

  /** Strings and integers are read as coded. */
  ghost predicate IsCoded(data: Bytes, f: C.Fields) {
    && (forall q {:trigger C.ReadString(data, q)} :: 0 <= q <= |data| ==> f.strings(q) == C.ReadString(data, q))
    && forall q {:trigger C.IntAt(data, q)} :: 0 <= q <= |data| ==> f.ints(q) == C.IntAt(data, q)
  }

  method ParseValue(data: Bytes, ghost f: C.Fields, pos: nat, depth: nat, budget: nat) returns (r: C.Run<B.Value>)
    requires C.Sized(data) && IsCoded(data, f) && pos <= |data|
    ensures r == C.ReadValue(data, f, pos, depth, budget)
    ensures r.Got? ==> r.next <= |data|
    decreases budget, 1
  {
    if depth > B.MAX_RECURSION_DEPTH {
      return C.Failed(RuntimeError);
    }
    if pos == |data| {
      return C.Failed(InvalidArgument);
    }
    var firstChar := data[pos];
    if firstChar == B.INT_START {
      r := ParseInt(data, pos);
    } else if IsDigit(firstChar) {
      var s := ParseString(data, pos);
      r := match s
      case Got(value, next) => C.Got(B.Str(value), next)
      case Failed(e) => C.Failed(e);
    } else if firstChar == B.LIST_START {
      r := ParseList(data, f, pos, depth, budget);
    } else if firstChar == B.DICT_START {
      r := ParseDict(data, f, pos, depth, budget);
    } else {
      r := C.Failed(InvalidArgument);
    }
  }

  ghost function ListOf(r: C.Run<seq<B.Value>>): C.Run<B.Value> {
    if r.Got? then C.Got(B.List(r.value), r.next) else C.Ended(r)
  }

  ghost function DictOf(r: C.Run<seq<B.Entry>>): C.Run<B.Value> {
    if r.Got? then C.Got(B.Dict(B.FromPairs(r.value)), r.next) else C.Ended(r)
  }

  /** Elements read before the rest was. */
  ghost function Prepend<T>(read: seq<T>, r: C.Run<seq<T>>): C.Run<seq<T>> {
    if r.Got? then C.Got(read + r.value, r.next) else r
  }

  lemma PrependTwice<T>(read: seq<T>, last: T, r: C.Run<seq<T>>)
    ensures Prepend(read, Prepend([last], r)) == Prepend(read + [last], r)
  {
    assert r.Got? ==> read + ([last] + r.value) == read + [last] + r.value;
  }

  lemma PrependNone<T>(r: C.Run<seq<T>>)
    ensures Prepend([], r) == r
  {
    assert r.Got? ==> [] + r.value == r.value;
  }

  lemma PrependLast<T>(read: seq<T>, next: nat)
    ensures Prepend(read, C.Got([], next)) == C.Got(read, next)
  {
    assert read + [] == read;
  }

  /** One turn of the list loop. */
  lemma ItemRead(data: Bytes, f: C.Fields, pos: nat, depth: nat, left: nat, items: seq<B.Value>, item: C.Run<B.Value>, spec: C.Run<seq<B.Value>>)
    requires pos < |data| && data[pos] != B.END
    requires spec == Prepend(items, C.ReadItems(data, f, pos, depth, left + 1))
    requires item == C.ReadValue(data, f, pos, depth + 1, left)
    ensures if item.Got? then spec == Prepend(items + [item.value], C.ReadItems(data, f, item.next, depth, left))
            else spec == C.Ended(item)
  {
    if item.Got? {
      PrependTwice(items, item.value, C.ReadItems(data, f, item.next, depth, left));
    }
  }

  /** One turn of the dictionary loop. */
  lemma PairRead(data: Bytes, f: C.Fields, pos: nat, depth: nat, left: nat, pairs: seq<B.Entry>, pair: C.Run<B.Entry>, spec: C.Run<seq<B.Entry>>)
    requires pos < |data| && data[pos] != B.END
    requires spec == Prepend(pairs, C.ReadPairs(data, f, pos, depth, left + 1))
    requires pair == C.ReadPair(data, f, pos, depth, left)
    ensures if pair.Got? then spec == Prepend(pairs + [pair.value], C.ReadPairs(data, f, pair.next, depth, left))
            else spec == C.Ended(pair)
  {
    if pair.Got? {
      PrependTwice(pairs, pair.value, C.ReadPairs(data, f, pair.next, depth, left));
    }
  }

  /** How the two loops end. */
  lemma AtClose(data: Bytes, f: C.Fields, pos: nat, depth: nat, left: nat)
    requires pos <= |data|
    requires pos == |data| || data[pos] == B.END || left == 0
    ensures var end := if pos == |data| then C.Failed(InvalidArgument)
                       else if data[pos] == B.END then C.Got([], pos + 1)
                       else C.Unfinished;
            C.ReadItems(data, f, pos, depth, left) == end
    ensures var end := if pos == |data| then C.Failed(InvalidArgument)
                       else if data[pos] == B.END then C.Got([], pos + 1)
                       else C.Unfinished;
            C.ReadPairs(data, f, pos, depth, left) == end
  {
  }

  method ParseList(data: Bytes, ghost f: C.Fields, pos: nat, depth: nat, budget: nat) returns (r: C.Run<B.Value>)
    requires C.Sized(data) && IsCoded(data, f) && pos < |data| && data[pos] == B.LIST_START
    ensures r == if budget == 0 then C.Unfinished else ListOf(C.ReadItems(data, f, pos + 1, depth, budget - 1))
    ensures r.Got? ==> r.next <= |data|
    decreases budget, 0
  {
    if budget == 0 {
      return C.Unfinished;
    }
    var ok, next := ExpectChar(data, pos, B.LIST_START);
    var items: seq<B.Value> := [];
    var left := budget - 1;
    ghost var spec := C.ReadItems(data, f, pos + 1, depth, budget - 1);
    PrependNone(spec);
    while next < |data| && data[next] != B.END
      invariant 0 <= next <= |data| && 0 <= left < budget
      invariant spec == Prepend(items, C.ReadItems(data, f, next, depth, left))
      decreases left
    {
      if left == 0 {
        AtClose(data, f, next, depth, left);
        return C.Unfinished;
      }
      left := left - 1;
      var item := ParseValue(data, f, next, depth + 1, left);
      ItemRead(data, f, next, depth, left, items, item, spec);
      match item {
        case Unfinished =>
          return C.Unfinished;
        case Failed(e) =>
          return C.Failed(e);
        case Got(value, end) =>
          items := items + [value];
          next := end;
      }
    }
    AtClose(data, f, next, depth, left);
    ok, next := ExpectChar(data, next, B.END);
    if !ok {
      return C.Failed(InvalidArgument);
    }
    PrependLast(items, next);
    r := C.Got(B.List(items), next);
  }

  /** std::map::emplace on the map of the pairs read so far. */
  method Emplaced(dict: seq<B.Entry>, entry: B.Entry, ghost pairs: seq<B.Entry>) returns (more: seq<B.Entry>)
    requires dict == B.FromPairs(pairs)
    ensures more == B.FromPairs(pairs + [entry])
  {
    EmplaceNext(pairs, entry);
    more := B.Emplace(dict, entry.key, entry.val);
  }

  lemma EmplaceNext(pairs: seq<B.Entry>, last: B.Entry)
    ensures B.FromPairs(pairs + [last]) == B.Emplace(B.FromPairs(pairs), last.key, last.val)
  {
    assert (pairs + [last])[..|pairs|] == pairs;
  }

  /** One turn of the dictionary loop up to the insertion. */
  method ParsePair(data: Bytes, ghost f: C.Fields, pos: nat, depth: nat, budget: nat) returns (r: C.Run<B.Entry>)
    requires C.Sized(data) && IsCoded(data, f) && pos <= |data|
    ensures r == C.ReadPair(data, f, pos, depth, budget)
    ensures r.Got? ==> r.next <= |data|
    decreases budget, 2
  {
    var key := ParseString(data, pos);
    if key.Failed? {
      return C.Failed(key.error);
    }
    var val := ParseValue(data, f, key.next, depth + 1, budget);
    match val
    case Unfinished => r := C.Unfinished;
    case Failed(e) => r := C.Failed(e);
    case Got(value, end) => r := C.Got(B.Entry(key.value, value), end);
  }

  /** How the dictionary loop ends: on END with the map of what was read. */
  lemma DictClosed(data: Bytes, f: C.Fields, pos: nat, depth: nat, left: nat, dict: seq<B.Entry>, pairs: seq<B.Entry>, spec: C.Run<seq<B.Entry>>)
    requires pos <= |data| && (pos == |data| || data[pos] == B.END || left == 0)
    requires dict == B.FromPairs(pairs) && spec == Prepend(pairs, C.ReadPairs(data, f, pos, depth, left))
    ensures DictOf(spec) == if pos == |data| then C.Failed(InvalidArgument)
                            else if data[pos] == B.END then C.Got(B.Dict(dict), pos + 1)
                            else C.Unfinished
  {
    AtClose(data, f, pos, depth, left);
    PrependLast(pairs, pos + 1);
  }

  /** One turn of the dictionary loop: a pair read and emplaced. */
  method ParseEntry(data: Bytes, ghost f: C.Fields, pos: nat, depth: nat, left: nat, dict: seq<B.Entry>,
                    ghost pairs: seq<B.Entry>, ghost spec: C.Run<seq<B.Entry>>)
    returns (r: C.Run<seq<B.Entry>>, ghost more: seq<B.Entry>)
    requires C.Sized(data) && IsCoded(data, f) && pos < |data| && data[pos] != B.END
    requires dict == B.FromPairs(pairs) && spec == Prepend(pairs, C.ReadPairs(data, f, pos, depth, left + 1))
    ensures r.Got? ==> r.next <= |data| && r.value == B.FromPairs(more)
    ensures if r.Got? then spec == Prepend(more, C.ReadPairs(data, f, r.next, depth, left))
            else DictOf(spec) == C.Ended(r)
    decreases left, 3
  {
    var pair := ParsePair(data, f, pos, depth, left);
    PairRead(data, f, pos, depth, left, pairs, pair, spec);
    more := pairs;
    match pair
    case Unfinished => r := C.Unfinished;
    case Failed(e) => r := C.Failed(e);
    case Got(entry, end) =>
      var emplaced := Emplaced(dict, entry, pairs);
      more := pairs + [entry];
      r := C.Got(emplaced, end);
  }

  method ParseDict(data: Bytes, ghost f: C.Fields, pos: nat, depth: nat, budget: nat) returns (r: C.Run<B.Value>)
    requires C.Sized(data) && IsCoded(data, f) && pos < |data| && data[pos] == B.DICT_START
    ensures r == if budget == 0 then C.Unfinished else DictOf(C.ReadPairs(data, f, pos + 1, depth, budget - 1))
    ensures r.Got? ==> r.next <= |data|
    decreases budget, 0
  {
    if budget == 0 {
      return C.Unfinished;
    }
    var ok, next := ExpectChar(data, pos, B.DICT_START);
    var dict: seq<B.Entry> := [];
    var left := budget - 1;
    ghost var pairs: seq<B.Entry> := [];
    ghost var spec := C.ReadPairs(data, f, pos + 1, depth, budget - 1);
    PrependNone(spec);
    while next < |data| && data[next] != B.END && left > 0
      invariant 0 <= next <= |data| && 0 <= left < budget
      invariant dict == B.FromPairs(pairs)
      invariant spec == Prepend(pairs, C.ReadPairs(data, f, next, depth, left))
      decreases left
    {
      left := left - 1;
      var more;
      more, pairs := ParseEntry(data, f, next, depth, left, dict, pairs, spec);
      if !more.Got? {
        return C.Ended(more);
      }
      dict, next := more.value, more.next;
    }
    DictClosed(data, f, next, depth, left, dict, pairs, spec);
    if next < |data| && data[next] != B.END {
      return C.Unfinished;
    }
    ok, next := ExpectChar(data, next, B.END);
    if !ok {
      return C.Failed(InvalidArgument);
    }
    r := C.Got(B.Dict(dict), next);
  }

  /** The public entry point: one value from the front, trailing bytes ignored. */
  method Parse(data: Bytes, budget: nat) returns (r: C.Run<B.Value>)
    requires C.Sized(data)
    ensures r == C.ReadValue(data, C.Coded(data), 0, 0, budget)
  {
    r := ParseValue(data, C.Coded(data), 0, 0, budget);
  }

  method EncodeString(s: Bytes) returns (res: Bytes)
    ensures res == B.EncodeString(s)
  {
    var tmp := NatText(|s|) + [B.COLON];
    res := tmp + s;
  }

  lemma ItemNext(items: seq<B.Value>, i: nat)
    requires i < |items|
    ensures B.EncodeItems(items[i..]) == B.Encode(items[i]) + B.EncodeItems(items[i + 1..])
  {
    assert items[i..][1..] == items[i + 1..];
  }

  lemma EntryNext(entries: seq<B.Entry>, i: nat)
    requires i < |entries|
    ensures B.EncodeEntries(entries[i..]) ==
            B.EncodeString(entries[i].key) + B.Encode(entries[i].val) + B.EncodeEntries(entries[i + 1..])
  {
    assert entries[i..][1..] == entries[i + 1..];
  }

  /** Moving the first part of what is left over to what is done. */
  lemma Extend(done: Bytes, part: Bytes, left: Bytes, whole: Bytes)
    requires done + (part + left) == whole
    ensures done + part + left == whole
  {
  }

  method EncodeList(items: seq<B.Value>) returns (res: Bytes)
    ensures res == [B.LIST_START] + B.EncodeItems(items) + [B.END]
    decreases items
  {
    res := [B.LIST_START];
    var i := 0;
    while i < |items|
      invariant 0 <= i <= |items|
      invariant res + B.EncodeItems(items[i..]) == [B.LIST_START] + B.EncodeItems(items)
    {
      ItemNext(items, i);
      var part := Encode(items[i]);
      Extend(res, part, B.EncodeItems(items[i + 1..]), [B.LIST_START] + B.EncodeItems(items));
      res := res + part;
      i := i + 1;
    }
    res := res + [B.END];
  }

  method EncodeDict(entries: seq<B.Entry>) returns (res: Bytes)
    ensures res == [B.DICT_START] + B.EncodeEntries(entries) + [B.END]
    decreases entries
  {
    res := [B.DICT_START];
    var i := 0;
    while i < |entries|
      invariant 0 <= i <= |entries|
      invariant res + B.EncodeEntries(entries[i..]) == [B.DICT_START] + B.EncodeEntries(entries)
    {
      EntryNext(entries, i);
      var keyEnc := EncodeString(entries[i].key);
      var valEnc := Encode(entries[i].val);
      Extend(res, keyEnc + valEnc, B.EncodeEntries(entries[i + 1..]), [B.DICT_START] + B.EncodeEntries(entries));
      res := res + (keyEnc + valEnc);
      i := i + 1;
    }
    res := res + [B.END];
  }

  method Encode(v: B.Value) returns (res: Bytes)
    ensures res == B.Encode(v)
    decreases v
  {
    match v
    case Int(n) =>
      res := [B.INT_START] + IntText(n) + [B.END];
    case Str(s) =>
      res := EncodeString(s);
    case List(items) =>
      res := EncodeList(items);
    case Dict(entries) =>
      res := EncodeDict(entries);
  }
}
