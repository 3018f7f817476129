/** The stored form of the runtime configuration map (src/runtime_config.rs): a magic, a
    16-bit count, then for every entry the two lengths, the key and the value. */
module RuntimeCodec {
  import opened Bytes
  import opened Utf8
  import opened Wrappers
  import opened SortedMap

  const MAGIC: seq<Byte> := [0x52, 0x43, 0x46, 0x31]
  const HEADER_LEN: nat := 6
  const MAX_KEY_LEN: nat := 15
  const MAX_VALUE_LEN: nat := 63
  const BUDGET: nat := 2048
  const UNDERSCORE: Byte := 0x5F

  predicate ValidKey(key: seq<Byte>) {
    key != [] && |key| <= MAX_KEY_LEN && key[0] != UNDERSCORE
  }

  predicate Fits(item: Item) {
    ValidKey(item.key) && |item.value| <= MAX_VALUE_LEN
  }

  predicate AllFit(items: seq<Item>) {
    forall i :: 0 <= i < |items| ==> Fits(items[i])
  }

  function Length(item: Item): nat {
    2 + |item.key| + |item.value|
  }

  function Frame(item: Item): seq<Byte> {
    [|item.key| % 256, |item.value| % 256] + item.key + item.value
  }

  /** The bytes of the entries, in the order given. */
  function Wire(items: seq<Item>): seq<Byte> {
    if items == [] then [] else Frame(items[0]) + Wire(items[1..])
  }

  function Weight(items: seq<Item>): nat {
    if items == [] then 0 else Length(items[0]) + Weight(items[1..])
  }

  function Encoded(items: seq<Item>): Option<seq<Byte>> {
    if |items| < 0x1_0000 && AllFit(items) && HEADER_LEN + Weight(items) <= BUDGET then
      Some(MAGIC + Le16(|items|) + Wire(items))
    else None
  }

  /** The entry at the front of `rest`. */
  function ReadItem(rest: seq<Byte>): (item: Option<Item>)
    ensures item.Some? ==> Length(item.value) <= |rest|
  {
    if |rest| < 2 then None
    else
      var keyLen, valueLen := rest[0], rest[1];
      if keyLen == 0 || keyLen > MAX_KEY_LEN || valueLen > MAX_VALUE_LEN then None
      else if 2 + keyLen + valueLen > |rest| then None
      else
        var key, value := rest[2..2 + keyLen], rest[2 + keyLen..2 + keyLen + valueLen];
        if Valid(key) && Valid(value) && ValidKey(key) then Some(Item(key, value)) else None
  }

  /** n entries at the front of `rest`, added to `acc`; nothing may be left over. */
  function Parse(rest: seq<Byte>, n: nat, acc: seq<Item>): Option<seq<Item>>
    decreases n
  {
    if n == 0 then
      if rest == [] then Some(acc) else None
    else
      var item := ReadItem(rest);
      if item.None? || Get(acc, item.value.key).Some? then None
      else Parse(rest[Length(item.value)..], n - 1, Insert(acc, item.value.key, item.value.value))
  }

  function Decoded(raw: seq<Byte>): Option<seq<Item>> {
    if |raw| < HEADER_LEN || raw[..4] != MAGIC then None
    else Parse(raw[HEADER_LEN..], FromLe16(raw[4], raw[5]), [])
  }

  /** The first loop of `encode`. The sum stays below 6 + 80 * 65535, so the checked additions
      in Rust cannot be what makes it fail. */
  method Measure(items: seq<Item>) returns (total: Option<nat>)
    ensures total == if AllFit(items) then Some(HEADER_LEN + Weight(items)) else None
  {
    var sum := HEADER_LEN;
    for i := 0 to |items|
      invariant AllFit(items[..i])
      invariant sum == HEADER_LEN + Weight(items[..i]) <= HEADER_LEN + 80 * i
    {
      if !ValidKey(items[i].key) || |items[i].value| > MAX_VALUE_LEN {
        assert !Fits(items[i]);
        return None;
      }
      sum := sum + 2 + |items[i].key| + |items[i].value|;
      WeightSnoc(items[..i], items[i]);
      assert items[..i + 1] == items[..i] + [items[i]];
    }
    assert items[..|items|] == items;
    total := Some(sum);
  }

  lemma PushFrame(out: seq<Byte>, item: Item)
    requires Fits(item)
    ensures out + [|item.key|, |item.value|] + item.key + item.value == out + Frame(item)
  {
  }

  /** The second loop of `encode`. */
  method Emit(items: seq<Item>) returns (out: seq<Byte>)
    requires |items| < 0x1_0000 && AllFit(items)
    ensures out == MAGIC + Le16(|items|) + Wire(items)
  {
    out := MAGIC + Le16(|items|);
    ghost var header := out;
    assert header + Wire(items[..0]) == header;
    for i := 0 to |items|
      invariant out == header + Wire(items[..i])
    {
      assert Fits(items[i]);
      PushFrame(out, items[i]);
      out := out + [|items[i].key|, |items[i].value|] + items[i].key + items[i].value;
      WireSnoc(items[..i], items[i]);
      assert items[..i + 1] == items[..i] + [items[i]];
    }
    assert items[..|items|] == items;
  }

  /** `encode`. */
  method Encode(items: seq<Item>) returns (out: Option<seq<Byte>>)
    ensures out == Encoded(items)
  {
    if |items| >= 0x1_0000 {
      return None;
    }
    var total := Measure(items);
    if total.None? || total.value > BUDGET {
      return None;
    }
    var buffer := Emit(items);
    out := Some(buffer);
  }

  /** One turn of the loop of `decode`, up to the insertion. */
  method ReadItemAt(raw: seq<Byte>, start: nat) returns (item: Option<Item>)
    requires start <= |raw|
    ensures item == ReadItem(raw[start..])
  {
    var offset := start;
    if offset + 2 > |raw| {
      return None;
    }
    var keyLen, valueLen := raw[offset], raw[offset + 1];
    offset := offset + 2;
    if keyLen == 0 || keyLen > MAX_KEY_LEN || valueLen > MAX_VALUE_LEN {
      return None;
    }
    var keyEnd := offset + keyLen;
    var valueEnd := keyEnd + valueLen;
    if valueEnd > |raw| {
      return None;
    }
    var key, value := raw[offset..keyEnd], raw[keyEnd..valueEnd];
    ghost var rest := raw[start..];
    assert key == rest[2..2 + keyLen] && value == rest[2 + keyLen..2 + keyLen + valueLen];
    if !Valid(key) || !Valid(value) || !ValidKey(key) {
      return None;
    }
    item := Some(Item(key, value));
  }

  /** The loop of `decode`, from its start offset. */
  method DecodeItems(raw: seq<Byte>, start: nat, count: nat) returns (out: Option<seq<Item>>)
    requires start <= |raw|
    ensures out == Parse(raw[start..], count, [])
  {
    var offset := start;
    var items := [];
    ghost var rest := raw[start..];
    for i := 0 to count
      invariant 0 <= offset <= |raw| && rest == raw[offset..]
      invariant Parse(raw[start..], count, []) == Parse(rest, count - i, items)
    {
      var item := ReadItemAt(raw, offset);
      if item.None? || Get(items, item.value.key).Some? {
        return None;
      }
      rest := rest[Length(item.value)..];
      items := Insert(items, item.value.key, item.value.value);
      offset := offset + Length(item.value);
    }
    out := if offset == |raw| then Some(items) else None;
  }

  /** `decode`. */
  method Decode(raw: seq<Byte>) returns (out: Option<seq<Item>>)
    ensures out == Decoded(raw)
  {
    if |raw| < HEADER_LEN || raw[..4] != MAGIC {
      return None;
    }
    var count := FromLe16(raw[4], raw[5]);
    out := DecodeItems(raw, HEADER_LEN, count);
  }

  lemma {:induction false} WeightSnoc(items: seq<Item>, item: Item)
    ensures Weight(items + [item]) == Weight(items) + Length(item)
  {
    if items != [] {
      assert (items + [item])[1..] == items[1..] + [item];
      WeightSnoc(items[1..], item);
    }
  }

  lemma {:induction false} WireSnoc(items: seq<Item>, item: Item)
    ensures Wire(items + [item]) == Wire(items) + Frame(item)
  {
    if items != [] {
      assert (items + [item])[1..] == items[1..] + [item];
      WireSnoc(items[1..], item);
    }
  }

  // --- Round trips -----------------------------------------------------------------------

  lemma ReadBack(item: Item, rest: seq<Byte>)
    requires Fits(item)
    ensures ReadItem(Frame(item) + rest) == Some(item)
    ensures (Frame(item) + rest)[Length(item)..] == rest
  {
    hide Valid;
    var s := Frame(item) + rest;
    assert s[2..2 + |item.key|] == item.key;
    assert s[2 + |item.key|..Length(item)] == item.value;
  }

  lemma {:induction false} InsertLast(t: seq<Item>, item: Item)
    requires Sorted(t + [item])
    ensures Get(t, item.key).None? && Insert(t, item.key, item.value) == t + [item]
  {
    if t != [] {
      assert (t + [item])[1..] == t[1..] + [item];
      assert (t[1..] + [item])[|t| - 1] == item;
      LessIsStrictOrder(t[0].key, item.key, t[0].key);
      LessIsStrictOrder(item.key, item.key, item.key);
      InsertLast(t[1..], item);
    }
  }

  lemma {:induction false} SortedPrefix(s: seq<Item>, t: seq<Item>)
    requires Sorted(s + t)
    ensures Sorted(s)
  {
    if s != [] {
      assert (s + t)[1..] == s[1..] + t;
      SortedPrefix(s[1..], t);
      forall i | 0 <= i < |s[1..]| ensures Less(s[0].key, s[1..][i].key) {
        assert (s[1..] + t)[i] == s[1..][i];
      }
    }
  }

  lemma {:induction false} ParseWire(done: seq<Item>, items: seq<Item>)
    requires Sorted(done + items) && AllFit(items)
    ensures Parse(Wire(items), |items|, done) == Some(done + items)
    decreases |items|
  {
    if items == [] {
      assert done + items == done;
    } else {
      var item, tail := items[0], items[1..];
      assert done + items == (done + [item]) + tail;
      SortedPrefix(done + [item], tail);
      InsertLast(done, item);
      ReadBack(item, Wire(tail));
      ParseWire(done + [item], tail);
    }
  }

  /** Whatever `encode` accepts, `decode` gives back. */
  lemma RoundTrip(items: Tree)
    requires Encoded(items).Some?
    ensures Decoded(Encoded(items).value) == Some(items)
  {
    var raw := Encoded(items).value;
    assert raw[..4] == MAGIC && raw[HEADER_LEN..] == Wire(items);
    assert raw[4] == Le16(|items|)[0] && raw[5] == Le16(|items|)[1];
    Le16RoundTrip(|items|);
    assert [] + items == items;
    ParseWire([], items);
  }

  lemma {:induction false} WireLength(items: seq<Item>)
    ensures |Wire(items)| == Weight(items)
  {
    if items != [] {
      WireLength(items[1..]);
    }
  }

  lemma {:induction false} InsertGrows(t: seq<Item>, item: Item)
    requires Get(t, item.key).None?
    ensures var r := Insert(t, item.key, item.value);
            |r| == |t| + 1 && Weight(r) == Weight(t) + Length(item)
            && forall x :: x in r ==> x == item || x in t
  {
    if t != [] && !Less(item.key, t[0].key) {
      InsertGrows(t[1..], item);
      var r := Insert(t[1..], item.key, item.value);
      assert ([t[0]] + r)[1..] == r;
    } else {
      assert ([item] + t)[1..] == t;
    }
  }

  /** What a successful parse says about its result, in whatever order the keys came. */
  lemma {:induction false} ParseAccounts(rest: seq<Byte>, n: nat, acc: seq<Item>)
    requires Parse(rest, n, acc).Some? && AllFit(acc)
    ensures var r := Parse(rest, n, acc).value;
            |r| == |acc| + n && Weight(r) == Weight(acc) + |rest| && AllFit(r)
            && (Sorted(acc) ==> Sorted(r))
    decreases n
  {
    if n > 0 {
      var item := ReadItem(rest).value;
      var next := Insert(acc, item.key, item.value);
      InsertGrows(acc, item);
      if Sorted(acc) {
        InsertSorts(acc, item.key, item.value);
      }
      assert AllFit(next) by {
        forall i | 0 <= i < |next| ensures Fits(next[i]) {
          assert next[i] in next;
        }
      }
      ParseAccounts(rest[Length(item)..], n - 1, next);
    }
  }

  lemma DecodedAccounts(raw: seq<Byte>)
    requires Decoded(raw).Some?
    ensures var items := Decoded(raw).value;
            Sorted(items) && AllFit(items) && |items| < 0x1_0000 && HEADER_LEN + Weight(items) == |raw|
  {
    ParseAccounts(raw[HEADER_LEN..], FromLe16(raw[4], raw[5]), []);
  }

  /** Whatever `decode` accepts within the budget, in any key order: encoding it again
      succeeds, has the same length and decodes to the same map. */
  lemma Reencode(raw: seq<Byte>)
    requires |raw| <= BUDGET && Decoded(raw).Some?
    ensures var again := Encoded(Decoded(raw).value);
            again.Some? && |again.value| == |raw| && Decoded(again.value) == Decoded(raw)
  {
    DecodedAccounts(raw);
    var items := Decoded(raw).value;
    WireLength(items);
    RoundTrip(items);
  }

  lemma {:induction false} CountBound(items: seq<Item>, least: nat)
    requires AllFit(items) && least <= 1
    requires forall i :: 0 <= i < |items| ==> |items[i].value| >= least
    ensures (3 + least) * |items| <= Weight(items)
  {
    if items != [] {
      assert Fits(items[0]);
      forall i | 0 <= i < |items[1..]| ensures Fits(items[1..][i]) && |items[1..][i].value| >= least {
        assert items[1..][i] == items[i + 1];
      }
      CountBound(items[1..], least);
    }
  }

  // --- The stored bytes, entry by entry ----------------------------------------------------

  function End(at: nat, item: Item): nat {
    at + 2 + |item.key| + |item.value|
  }

  /** Two length bytes, the key, the value. */
  predicate EntryAt(raw: seq<Byte>, at: nat, item: Item) {
    var k, v := |item.key|, |item.value|;
    && at + 2 + k + v <= |raw|
    && raw[at] == k && raw[at + 1] == v
    && raw[at + 2..at + 2 + k] == item.key && raw[at + 2 + k..at + 2 + k + v] == item.value
  }

  /** From `at` to the end, `raw` holds these entries and nothing else. */
  predicate Entries(raw: seq<Byte>, at: nat, items: seq<Item>)
    decreases |items|
  {
    if items == [] then at == |raw|
    else EntryAt(raw, at, items[0]) && Entries(raw, End(at, items[0]), items[1..])
  }

  /** A key of 1 to 15 bytes that does not start with an underscore, a value of up to 63. */
  predicate Storable(item: Item) {
    1 <= |item.key| <= 15 && item.key[0] != 0x5F && |item.value| <= 63
  }

  predicate AllStorable(items: seq<Item>) {
    forall i :: 0 <= i < |items| ==> Storable(items[i])
  }

  /** A record: the magic, the number of entries, the entries. */
  predicate IsRecord(raw: seq<Byte>, items: seq<Item>) {
    && |raw| >= 6 && raw[..4] == [0x52, 0x43, 0x46, 0x31]
    && raw[4] as int + 256 * (raw[5] as int) == |items|
    && Entries(raw, 6, items)
  }

  predicate DistinctKeys(items: seq<Item>) {
    forall i, j :: 0 <= i < j < |items| ==> items[i].key != items[j].key
  }

  lemma StorableFits(items: seq<Item>)
    ensures AllFit(items) <==> AllStorable(items)
  {
    if AllStorable(items) {
      assert forall i :: 0 <= i < |items| ==> Storable(items[i]) ==> Fits(items[i]);
    }
    if AllFit(items) {
      assert forall i :: 0 <= i < |items| ==> Fits(items[i]) ==> Storable(items[i]);
    }
  }

  lemma FrameIsEntry(raw: seq<Byte>, at: nat, item: Item, rest: seq<Byte>)
    requires Storable(item) && at <= |raw| && raw[at..] == Frame(item) + rest
    ensures EntryAt(raw, at, item) && raw[End(at, item)..] == rest
  {
    var k, v, s := |item.key|, |item.value|, raw[at..];
    assert s[0] == k && s[1] == v;
    assert s[2..2 + k] == item.key && s[2 + k..2 + k + v] == item.value && s[2 + k + v..] == rest;
  }

  lemma {:induction false} WireIsEntries(raw: seq<Byte>, at: nat, items: seq<Item>)
    requires AllStorable(items) && at <= |raw| && raw[at..] == Wire(items)
    ensures Entries(raw, at, items)
    decreases |items|
  {
    if items != [] {
      assert Storable(items[0]) && forall i :: 1 <= i < |items| ==> Storable(items[i]);
      hide EntryAt, Frame, Storable;
      FrameIsEntry(raw, at, items[0], Wire(items[1..]));
      WireIsEntries(raw, End(at, items[0]), items[1..]);
    }
  }

  /** What `encode` accepts, and the record it makes of it, entries in the order of the map. */
  lemma EncodesExactly(items: seq<Item>)
    ensures Encoded(items).Some? <==> |items| <= 0xFFFF && AllStorable(items) && 6 + Weight(items) <= 2048
    ensures Encoded(items).Some? ==> IsRecord(Encoded(items).value, items) && |Encoded(items).value| == 6 + Weight(items)
  {
    StorableFits(items);
    if Encoded(items).Some? {
      var raw := Encoded(items).value;
      WireLength(items);
      assert raw[6..] == Wire(items);
      WireIsEntries(raw, 6, items);
      Le16RoundTrip(|items|);
      assert raw[4] == Le16(|items|)[0] && raw[5] == Le16(|items|)[1];
    }
  }

  lemma ReadsEntry(raw: seq<Byte>, at: nat, item: Item)
    requires at <= |raw|
    ensures ReadItem(raw[at..]) == Some(item) <==> Storable(item) && EntryAt(raw, at, item)
    ensures ReadItem(raw[at..]) == Some(item) ==> End(at, item) <= |raw| && raw[at..][Length(item)..] == raw[End(at, item)..]
  {
    hide Valid;
    var s, k, v := raw[at..], |item.key|, |item.value|;
    if |s| >= 2 + k + v {
      assert s[2..2 + k] == raw[at + 2..at + 2 + k] && s[2 + k..2 + k + v] == raw[at + 2 + k..at + 2 + k + v];
    }
  }

  /** None of the keys is taken. */
  predicate Untaken(acc: seq<Item>, items: seq<Item>) {
    forall i :: 0 <= i < |items| ==> Get(acc, items[i].key).None?
  }

  /** `r` is `acc` with the items added. */
  ghost predicate Adds(acc: seq<Item>, items: seq<Item>, r: seq<Item>) {
    && (forall i :: 0 <= i < |items| ==> Get(r, items[i].key) == Some(items[i].value))
    && (forall key: Text :: Get(acc, key).Some? ==> Get(r, key) == Get(acc, key))
  }

  lemma GetInserted(acc: Tree, item: Item, key: Text)
    ensures Sorted(Insert(acc, item.key, item.value))
    ensures Get(Insert(acc, item.key, item.value), key) == if key == item.key then Some(item.value) else Get(acc, key)
  {
    InsertSorts(acc, item.key, item.value);
    InsertIsUpdate(acc, item.key, item.value);
    GetIsLookup(acc, key);
    GetIsLookup(Insert(acc, item.key, item.value), key);
  }

  /** The loop of `decode` accepts only lists of storable entries with keys of their own ... */
  lemma {:induction false} ParseReads(raw: seq<Byte>, at: nat, n: nat, acc: Tree) returns (items: seq<Item>)
    requires at <= |raw| && Parse(raw[at..], n, acc).Some?
    ensures |items| == n && Entries(raw, at, items) && AllStorable(items) && DistinctKeys(items) && Untaken(acc, items)
    ensures Adds(acc, items, Parse(raw[at..], n, acc).value)
    decreases n
  {
    hide Valid, ReadItem, Insert, EntryAt, Storable, Sorted, Get;
    if n == 0 {
      items := [];
    } else {
      var item := ReadItem(raw[at..]).value;
      ReadsEntry(raw, at, item);
      var next := Insert(acc, item.key, item.value);
      GetInserted(acc, item, item.key);
      var rest := ParseReads(raw, End(at, item), n - 1, next);
      items := [item] + rest;
      assert items[1..] == rest;
      Untake(acc, item, rest);
      AddsMore(acc, item, rest, Parse(raw[at..], n, acc).value);
    }
  }

  lemma Untake(acc: Tree, item: Item, rest: seq<Item>)
    requires Get(acc, item.key).None? && DistinctKeys(rest)
    ensures Sorted(Insert(acc, item.key, item.value))
    ensures Untaken(Insert(acc, item.key, item.value), rest) <==>
            Untaken(acc, rest) && forall i :: 0 <= i < |rest| ==> rest[i].key != item.key
  {
    hide Insert, Get, Sorted;
    GetInserted(acc, item, item.key);
    forall i | 0 <= i < |rest|
      ensures Get(Insert(acc, item.key, item.value), rest[i].key).None? <==>
              Get(acc, rest[i].key).None? && rest[i].key != item.key
    {
      GetInserted(acc, item, rest[i].key);
    }
  }

  lemma AddsMore(acc: Tree, item: Item, rest: seq<Item>, r: seq<Item>)
    requires Get(acc, item.key).None? && Adds(Insert(acc, item.key, item.value), rest, r)
    ensures Adds(acc, [item] + rest, r)
  {
    hide Insert, Get, Sorted;
    GetInserted(acc, item, item.key);
    forall key: Text | Get(acc, key).Some? ensures Get(r, key) == Get(acc, key) {
      GetInserted(acc, item, key);
    }
  }

  /** ... and all of them. */
  lemma {:induction false} EntriesParse(raw: seq<Byte>, at: nat, items: seq<Item>, acc: Tree)
    requires at <= |raw| && Entries(raw, at, items) && AllStorable(items) && DistinctKeys(items) && Untaken(acc, items)
    ensures Parse(raw[at..], |items|, acc).Some?
    decreases |items|
  {
    hide Valid, ReadItem, Insert, EntryAt, Storable, Sorted, Get;
    if items != [] {
      var item := items[0];
      assert Storable(item) && Get(acc, item.key).None?;
      assert forall i :: 0 <= i < |items[1..]| ==> items[1..][i] == items[i + 1];
      ReadsEntry(raw, at, item);
      Untake(acc, item, items[1..]);
      EntriesParse(raw, End(at, item), items[1..], Insert(acc, item.key, item.value));
    }
  }

  /** `decode` accepts exactly the records of storable entries with keys of their own, in any
      order, and yields the map that gives each key its value. */
  lemma DecodesExactly(raw: seq<Byte>)
    ensures Decoded(raw).Some? <==>
            exists items: seq<Item> :: IsRecord(raw, items) && AllStorable(items) && DistinctKeys(items)
    ensures Decoded(raw).Some? ==>
              exists items: seq<Item> ::
                IsRecord(raw, items) && |items| == |Decoded(raw).value|
                && forall i :: 0 <= i < |items| ==> Get(Decoded(raw).value, items[i].key) == Some(items[i].value)
  {
    if Decoded(raw).Some? {
      var items := ParseReads(raw, 6, FromLe16(raw[4], raw[5]), []);
      ParseAccounts(raw[6..], FromLe16(raw[4], raw[5]), []);
      assert IsRecord(raw, items);
    }
    forall items: seq<Item> | IsRecord(raw, items) && AllStorable(items) && DistinctKeys(items)
      ensures Decoded(raw).Some?
    {
      EntriesParse(raw, 6, items, []);
    }
  }
}
