/** BTreeMap<String, String>: items in strictly increasing byte order of their keys, with
    `AsMap` saying which map they stand for. */
module SortedMap {
  import opened Bytes
  import opened Utf8
  import opened Wrappers

  datatype Item = Item(key: Text, value: Text)

  predicate Less(a: seq<Byte>, b: seq<Byte>) {
    b != [] && (a == [] || a[0] < b[0] || (a[0] == b[0] && Less(a[1..], b[1..])))
  }

  lemma {:induction false} LessIsStrictOrder(a: seq<Byte>, b: seq<Byte>, c: seq<Byte>)
    ensures !Less(a, a)
    ensures Less(a, b) && Less(b, c) ==> Less(a, c)
    ensures a == b || Less(a, b) || Less(b, a)
  {
    if a != [] && b != [] {
      LessIsStrictOrder(a[1..], b[1..], if c == [] then [] else c[1..]);
      if a[0] == b[0] && a[1..] == b[1..] {
        assert a == [a[0]] + a[1..] == b;
      }
    } else if a != [] {
      LessIsStrictOrder(a[1..], [], []);
    }
  }

  predicate Below(key: seq<Byte>, items: seq<Item>) {
    forall i :: 0 <= i < |items| ==> Less(key, items[i].key)
  }

  predicate Sorted(items: seq<Item>) {
    items == [] || (Below(items[0].key, items[1..]) && Sorted(items[1..]))
  }

  type Tree = items: seq<Item> | Sorted(items)

  function AsMap(items: seq<Item>): map<Text, Text> {
    if items == [] then map[] else AsMap(items[1..])[items[0].key := items[0].value]
  }

  function Get(t: seq<Item>, key: Text): Option<Text> {
    if t == [] then None else if t[0].key == key then Some(t[0].value) else Get(t[1..], key)
  }

  function Insert(t: seq<Item>, key: Text, value: Text): (r: seq<Item>) {
    if t == [] || Less(key, t[0].key) then [Item(key, value)] + t
    else if t[0].key == key then [Item(key, value)] + t[1..]
    else [t[0]] + Insert(t[1..], key, value)
  }

  function Remove(t: seq<Item>, key: Text): (r: seq<Item>) {
    if t == [] then []
    else if t[0].key == key then t[1..]
    else [t[0]] + Remove(t[1..], key)
  }

  lemma {:induction false} MapKeys(t: seq<Item>, key: Text)
    ensures key in AsMap(t) <==> exists i :: 0 <= i < |t| && t[i].key == key
  {
    if t != [] {
      MapKeys(t[1..], key);
      if i :| 0 <= i < |t| && t[i].key == key {
        assert i > 0 ==> t[1..][i - 1].key == key;
      }
      if j :| 0 <= j < |t[1..]| && t[1..][j].key == key {
        assert t[j + 1].key == key;
      }
    }
  }

  /** A key below all others is not among them. */
  lemma BelowIsAbsent(t: seq<Item>, key: Text)
    requires Below(key, t)
    ensures key !in AsMap(t)
  {
    MapKeys(t, key);
    LessIsStrictOrder(key, key, key);
  }

  lemma {:induction false} GetIsLookup(t: Tree, key: Text)
    ensures Get(t, key) == if key in AsMap(t) then Some(AsMap(t)[key]) else None
  {
    if t != [] {
      GetIsLookup(t[1..], key);
    }
  }

  lemma BelowCons(x: seq<Byte>, head: Item, tail: seq<Item>)
    ensures Below(x, [head] + tail) <==> Less(x, head.key) && Below(x, tail)
  {
    var t := [head] + tail;
    if Below(x, t) {
      assert Less(x, t[0].key);
      forall i | 0 <= i < |tail| ensures Less(x, tail[i].key) {
        assert t[i + 1] == tail[i];
      }
    }
  }

  lemma Cons(t: seq<Item>)
    requires t != []
    ensures t == [t[0]] + t[1..]
  {
  }

  /** Everything in a sorted list is above whatever is below its first key. */
  lemma BelowAll(t: Tree, x: seq<Byte>)
    requires t != [] && Less(x, t[0].key)
    ensures Below(x, t)
  {
    forall i | 0 <= i < |t| ensures Less(x, t[i].key) {
      LessIsStrictOrder(x, t[0].key, t[i].key);
      assert i > 0 ==> t[1..][i - 1] == t[i];
    }
  }

  lemma {:induction false} InsertBelow(t: seq<Item>, key: Text, value: Text, x: seq<Byte>)
    requires Below(x, t) && Less(x, key)
    ensures Below(x, Insert(t, key, value))
  {
    if t == [] || Less(key, t[0].key) {
      BelowCons(x, Item(key, value), t);
    } else {
      Cons(t);
      BelowCons(x, t[0], t[1..]);
      if t[0].key == key {
        BelowCons(x, Item(key, value), t[1..]);
      } else {
        InsertBelow(t[1..], key, value, x);
        BelowCons(x, t[0], Insert(t[1..], key, value));
      }
    }
  }

  lemma SortedCons(head: Item, tail: Tree)
    requires Below(head.key, tail)
    ensures Sorted([head] + tail)
  {
    assert ([head] + tail)[1..] == tail;
  }

  lemma AsMapCons(head: Item, tail: seq<Item>)
    ensures AsMap([head] + tail) == AsMap(tail)[head.key := head.value]
  {
    assert ([head] + tail)[1..] == tail;
  }

  lemma {:induction false} InsertSorts(t: Tree, key: Text, value: Text)
    ensures Sorted(Insert(t, key, value))
  {
    if t == [] {
      SortedCons(Item(key, value), []);
    } else if Less(key, t[0].key) {
      BelowAll(t, key);
      SortedCons(Item(key, value), t);
    } else if t[0].key == key {
      SortedCons(Item(key, value), t[1..]);
    } else {
      LessIsStrictOrder(key, t[0].key, key);
      InsertSorts(t[1..], key, value);
      InsertBelow(t[1..], key, value, t[0].key);
      SortedCons(t[0], Insert(t[1..], key, value));
    }
  }

  lemma {:induction false} InsertIsUpdate(t: seq<Item>, key: Text, value: Text)
    ensures AsMap(Insert(t, key, value)) == AsMap(t)[key := value]
  {
    hide Less, Sorted;
    if t == [] || Less(key, t[0].key) {
      AsMapCons(Item(key, value), t);
    } else {
      var m := AsMap(t[1..]);
      assert AsMap(t) == m[t[0].key := t[0].value];
      if t[0].key == key {
        AsMapCons(Item(key, value), t[1..]);
        UpdateTwice(m, key, t[0].value, value);
      } else {
        InsertIsUpdate(t[1..], key, value);
        AsMapCons(t[0], Insert(t[1..], key, value));
        UpdatesCommute(m, key, value, t[0].key, t[0].value);
      }
    }
  }

  lemma UpdateTwice(m: map<Text, Text>, key: Text, before: Text, value: Text)
    ensures m[key := before][key := value] == m[key := value]
  {
  }

  lemma UpdatesCommute(m: map<Text, Text>, j: Text, x: Text, k: Text, y: Text)
    requires j != k
    ensures m[j := x][k := y] == m[k := y][j := x]
  {
  }

  lemma {:induction false} RemoveBelow(t: seq<Item>, key: Text, x: seq<Byte>)
    requires Below(x, t)
    ensures Below(x, Remove(t, key))
  {
    if t != [] {
      Cons(t);
      BelowCons(x, t[0], t[1..]);
      if t[0].key != key {
        RemoveBelow(t[1..], key, x);
        BelowCons(x, t[0], Remove(t[1..], key));
      }
    }
  }

  lemma {:induction false} RemoveSorts(t: Tree, key: Text)
    ensures Sorted(Remove(t, key))
  {
    if t != [] && t[0].key != key {
      RemoveSorts(t[1..], key);
      RemoveBelow(t[1..], key, t[0].key);
      SortedCons(t[0], Remove(t[1..], key));
    }
  }

  lemma DeleteOther(m: map<Text, Text>, k: Text, value: Text, key: Text)
    requires k != key
    ensures m[k := value] - {key} == (m - {key})[k := value]
  {
  }

  lemma {:induction false} RemoveIsDelete(t: Tree, key: Text)
    ensures AsMap(Remove(t, key)) == AsMap(t) - {key}
  {
    hide Less;
    if t != [] {
      var m := AsMap(t[1..]);
      if t[0].key == key {
        BelowIsAbsent(t[1..], key);
        assert m[key := t[0].value] - {key} == m;
      } else {
        RemoveIsDelete(t[1..], key);
        AsMapCons(t[0], Remove(t[1..], key));
        DeleteOther(m, t[0].key, t[0].value, key);
      }
    }
  }

  /** Two sorted lists that stand for the same map are the same list. */
  lemma {:induction false} Canonical(s: Tree, t: Tree)
    requires AsMap(s) == AsMap(t)
    ensures s == t
  {
    assert t != [] ==> t[0].key in AsMap(t);
    if s != [] {
      assert s[0].key in AsMap(t);
      FirstIsLeast(s, t);
      FirstIsLeast(t, s);
      LessIsStrictOrder(s[0].key, t[0].key, s[0].key);
      TailMap(s);
      TailMap(t);
      Canonical(s[1..], t[1..]);
      Cons(s);
      Cons(t);
    }
  }

  lemma TailMap(t: Tree)
    requires t != []
    ensures AsMap(t[1..]) == AsMap(t) - {t[0].key}
  {
    BelowIsAbsent(t[1..], t[0].key);
  }

  lemma FirstIsLeast(s: Tree, t: Tree)
    requires s != [] && t != [] && AsMap(s) == AsMap(t)
    ensures s[0].key == t[0].key || Less(s[0].key, t[0].key)
    ensures s[0].key == t[0].key ==> s[0].value == t[0].value
  {
    assert t[0].key in AsMap(s);
    MapKeys(s, t[0].key);
    var i :| 0 <= i < |s| && s[i].key == t[0].key;
    assert i > 0 ==> s[1..][i - 1] == s[i];
  }

  /** The one sorted list that stands for a map. */
  ghost function TreeOf(m: map<Text, Text>): (t: seq<Item>)
    ensures Sorted(t) && AsMap(t) == m
    decreases |m|
  {
    if m == map[] then []
    else
      var key :| key in m;
      Smaller(m, key);
      var rest := TreeOf(m - {key});
      TreeStep(m, key, rest);
      Insert(rest, key, m[key])
  }

  lemma TreeStep(m: map<Text, Text>, key: Text, rest: Tree)
    requires key in m && AsMap(rest) == m - {key}
    ensures Sorted(Insert(rest, key, m[key])) && AsMap(Insert(rest, key, m[key])) == m
  {
    InsertSorts(rest, key, m[key]);
    InsertIsUpdate(rest, key, m[key]);
    assert (m - {key})[key := m[key]] == m;
  }

  lemma Smaller(m: map<Text, Text>, key: Text)
    requires key in m
    ensures |m - {key}| < |m|
  {
    assert (m - {key}).Keys == m.Keys - {key};
    assert |(m - {key}).Keys| == |m - {key}|;
  }

  // --- The order, said of the bytes --------------------------------------------------------

  /** a is before b: a proper beginning of it, or smaller at the first byte where they differ. */
  predicate BeforeAt(a: seq<Byte>, b: seq<Byte>, n: nat) {
    n <= |a| && n < |b| && a[..n] == b[..n] && (n == |a| || a[n] < b[n])
  }

  lemma {:induction false} LessIsLexicographic(a: seq<Byte>, b: seq<Byte>)
    ensures Less(a, b) <==> exists n: nat :: BeforeAt(a, b, n)
    decreases |a|
  {
    if b != [] && a == [] {
      assert BeforeAt(a, b, 0);
    }
    if a != [] && b != [] && a[0] < b[0] {
      assert BeforeAt(a, b, 0);
    }
    if a != [] && b != [] && a[0] == b[0] {
      LessIsLexicographic(a[1..], b[1..]);
      if n: nat :| BeforeAt(a[1..], b[1..], n) {
        assert a[..n + 1] == [a[0]] + a[1..][..n] && b[..n + 1] == [b[0]] + b[1..][..n];
        assert BeforeAt(a, b, n + 1);
      }
      if n: nat :| BeforeAt(a, b, n) {
        if n > 0 {
          assert a[1..][..n - 1] == a[..n][1..] && b[1..][..n - 1] == b[..n][1..];
          assert BeforeAt(a[1..], b[1..], n - 1);
        }
      }
    }
    if a != [] && b != [] && a[0] > b[0] {
      forall n: nat ensures !BeforeAt(a, b, n) {
        if n > 0 && n <= |a| && n <= |b| {
          assert a[..n][0] == a[0] && b[..n][0] == b[0];
        }
      }
    }
  }

  /** A sorted list lists its keys in that order. */
  lemma {:induction false} SortedIsAscending(t: Tree, i: nat, j: nat)
    requires i < j < |t|
    ensures exists n: nat :: BeforeAt(t[i].key, t[j].key, n)
    decreases i
  {
    if i == 0 {
      assert t[1..][j - 1] == t[j];
      LessIsLexicographic(t[0].key, t[j].key);
    } else {
      SortedIsAscending(t[1..], i - 1, j - 1);
    }
  }
}
