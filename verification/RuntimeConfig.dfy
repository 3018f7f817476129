/** Runtime configuration behind GET/POST /config (src/runtime_config.rs): a persisted map,
    the snapshot of it that was taken at boot, and the merge a push performs. */
module RuntimeConfig {
  import opened Bytes
  import opened Utf8
  import opened Wrappers
  import opened SortedMap
  import opened ConfigSpace
  import opened RuntimeCodec

  datatype Error = Persistence | CorruptRecord | TooLarge

  /** The persisted generation and map, as `current` reads them. */
  function CurrentOf(stored: Option<Snapshot>, readable: bool): Result<(nat, seq<Item>), Error> {
    if !readable then Err(Persistence)
    else if stored.None? then Ok((0, []))
    else
      var items := Decoded(stored.value.data);
      if items.None? then Err(CorruptRecord) else Ok((stored.value.generation, items.value))
  }

  /** One entry of a push merged into the map. */
  function MergeOne(t: seq<Item>, item: Item): seq<Item> {
    if !Fits(item) then t
    else if item.value == [] then Remove(t, item.key)
    else if Get(t, item.key) != Some(item.value) then Insert(t, item.key, item.value)
    else t
  }

  function Merged(t: seq<Item>, push: seq<Item>): seq<Item>
    decreases |push|
  {
    if push == [] then t else Merged(MergeOne(t, push[0]), push[1..])
  }

  /** The outcome of `apply` and the blob stored afterwards. */
  function Applied(stored: Option<Snapshot>, push: seq<Item>, readable: bool, outcome: Commit)
    : (Result<nat, Error>, Option<Snapshot>)
  {
    match CurrentOf(stored, readable)
    case Err(e) => (Err(e), stored)
    case Ok((generation, items)) =>
      var merged := Merged(items, push);
      if merged == items then (Ok(generation), stored)
      else if Encoded(merged).None? then (Err(TooLarge), stored)
      else if outcome.Fails? then (Err(Persistence), stored)
      else (Ok(outcome.generation), Some(Snapshot(outcome.generation, Encoded(merged).value)))
  }

  class Config {
    const space: Space
    var activeGeneration: nat
    var active: seq<Item>

    constructor Of(space: Space, generation: nat, active: seq<Item>)
      ensures this.space == space && activeGeneration == generation && this.active == active
    {
      this.space := space;
      activeGeneration := generation;
      this.active := active;
    }

    /** `new`: takes the active snapshot. */
    static method New(space: Space, readable: bool) returns (r: Result<Config, Error>)
      ensures r.Err? ==> CurrentOf(space.stored, readable) == Err(r.error)
      ensures r.Ok? ==> fresh(r.value) && r.value.space == space
      ensures r.Ok? ==> CurrentOf(space.stored, readable) == Ok((r.value.activeGeneration, r.value.active))
    {
      var loaded := space.Load(readable);
      if loaded.Err? {
        return Err(Persistence);
      }
      if loaded.value.None? {
        var config := new Config.Of(space, 0, []);
        return Ok(config);
      }
      var items := Decode(loaded.value.value.data);
      if items.None? {
        return Err(CorruptRecord);
      }
      var config := new Config.Of(space, loaded.value.value.generation, items.value);
      r := Ok(config);
    }

    method Current(readable: bool) returns (r: Result<(nat, seq<Item>), Error>)
      ensures r == CurrentOf(space.stored, readable)
    {
      var loaded := space.Load(readable);
      if loaded.Err? {
        return Err(Persistence);
      }
      if loaded.value.None? {
        return Ok((0, []));
      }
      var items := Decode(loaded.value.value.data);
      r := if items.None? then Err(CorruptRecord) else Ok((loaded.value.value.generation, items.value));
    }

    /** `generation`: a failed read falls back to the active snapshot's. */
    method Generation(readable: bool) returns (generation: nat)
      ensures generation == match CurrentOf(space.stored, readable)
                            case Ok((g, _)) => g
                            case Err(_) => activeGeneration
    {
      var current := Current(readable);
      generation := if current.Ok? then current.value.0 else activeGeneration;
    }

    /** `apply`. */
    method Apply(push: Tree, readable: bool, outcome: Commit) returns (r: Result<nat, Error>)
      modifies space
      ensures (r, space.stored) == Applied(old(space.stored), push, readable, outcome)
    {
      var read := Current(readable);
      if read.Err? {
        return Err(read.error);
      }
      CurrentIsSorted(space.stored, readable);
      var (generation, items) := read.value;
      var merged, changed := Merge(items, push);
      if !changed {
        return Ok(generation);
      }
      var encoded := Encode(merged);
      if encoded.None? {
        return Err(TooLarge);
      }
      var committed := space.Commit(encoded.value, outcome);
      r := if committed.Ok? then Ok(committed.value) else Err(Persistence);
    }
  }

  /** The loop of `apply`, with its change flag. */
  method Merge(items: Tree, push: Tree) returns (current: seq<Item>, changed: bool)
    ensures current == Merged(items, push)
    ensures changed <==> current != items
  {
    current, changed := items, false;
    for i := 0 to |push|
      invariant Merged(items, push) == Merged(current, push[i..])
      invariant Tracks(items, current, push, i, changed)
    {
      var key, value := push[i].key, push[i].value;
      MergeStep(items, current, push, i, changed);
      if !ValidKey(key) || |value| > MAX_VALUE_LEN {
        continue;
      }
      if value == [] {
        changed := changed || Get(current, key).Some?;
        current := Remove(current, key);
      } else if Get(current, key) != Some(value) {
        current := Insert(current, key, value);
        changed := true;
      }
    }
    assert push[|push|..] == [];
  }

  /** What the loop knows after i entries: other keys are untouched, and the flag is raised
      exactly if some entry seen so far made a difference that lasts. */
  ghost predicate Tracks(items: seq<Item>, current: seq<Item>, push: seq<Item>, i: nat, changed: bool)
    requires i <= |push|
  {
    && Sorted(current)
    && (!changed ==> current == items)
    && (changed ==> exists j :: 0 <= j < i && Get(current, push[j].key) != Get(items, push[j].key))
    && forall k: Text :: Untouched(push[..i], k) ==> Get(current, k) == Get(items, k)
  }

  predicate Untouched(push: seq<Item>, key: Text) {
    forall j :: 0 <= j < |push| ==> push[j].key != key
  }

  lemma MergeStep(items: Tree, current: seq<Item>, push: Tree, i: nat, changed: bool)
    requires i < |push| && Tracks(items, current, push, i, changed)
    ensures var next := MergeOne(current, push[i]);
            var flag := Fits(push[i]) && if push[i].value == [] then Get(current, push[i].key).Some?
                                          else Get(current, push[i].key) != Some(push[i].value);
            Tracks(items, next, push, i + 1, changed || flag)
            && Merged(current, push[i..]) == Merged(next, push[i + 1..])
  {
    var item := push[i];
    var next := MergeOne(current, item);
    MergeOneSorts(current, item);
    assert push[i..][0] == item && push[i..][1..] == push[i + 1..];
    forall j | 0 <= j < i ensures push[j].key != item.key {
      KeysDiffer(push, j, i);
    }
    forall k: Text | Untouched(push[..i + 1], k) ensures Get(next, k) == Get(items, k) {
      assert push[..i + 1][i] == item;
      assert forall j :: 0 <= j < i ==> push[..i][j] == push[..i + 1][j];
      GetAfterMerge(current, item, k);
    }
    GetAfterMerge(current, item, item.key);
    assert Untouched(push[..i], item.key);
    RemoveAbsent(current, item.key);
    if changed {
      var j :| 0 <= j < i && Get(current, push[j].key) != Get(items, push[j].key);
      GetAfterMerge(current, item, push[j].key);
      assert Get(next, push[j].key) != Get(items, push[j].key);
    } else if next != current {
      assert Get(next, push[i].key) != Get(items, push[i].key);
    }
  }

  lemma {:induction false} RemoveAbsent(t: seq<Item>, key: Text)
    ensures Get(t, key).None? ==> Remove(t, key) == t
  {
    if t != [] {
      RemoveAbsent(t[1..], key);
    }
  }

  lemma {:induction false} KeysDiffer(t: Tree, i: nat, j: nat)
    requires i < j < |t|
    ensures t[i].key != t[j].key
  {
    if i == 0 {
      assert t[1..][j - 1] == t[j];
      LessIsStrictOrder(t[0].key, t[0].key, t[0].key);
    } else {
      KeysDiffer(t[1..], i - 1, j - 1);
    }
  }

  lemma MergeOneSorts(t: Tree, item: Item)
    ensures Sorted(MergeOne(t, item))
  {
    InsertSorts(t, item.key, item.value);
    RemoveSorts(t, item.key);
  }

  /** A merged entry decides its own key and no other. */
  lemma GetAfterMerge(t: Tree, item: Item, key: Text)
    ensures Get(MergeOne(t, item), key) ==
            if key != item.key || !Fits(item) then Get(t, key)
            else if item.value == [] then None
            else Some(item.value)
  {
    MergeOneSorts(t, item);
    GetIsLookup(t, key);
    GetIsLookup(MergeOne(t, item), key);
    InsertIsUpdate(t, item.key, item.value);
    RemoveIsDelete(t, item.key);
  }

  lemma CurrentIsSorted(stored: Option<Snapshot>, readable: bool)
    requires CurrentOf(stored, readable).Ok?
    ensures Sorted(CurrentOf(stored, readable).value.1)
  {
    if stored.Some? {
      DecodedAccounts(stored.value.data);
    }
  }

  // --- A push is a pointwise map override -------------------------------------------------

  /** What a push wants under a key: its own valid value, nothing for a valid empty one, and
      otherwise whatever is there. */
  function Wanted(current: map<Text, Text>, push: map<Text, Text>, key: Text): Option<Text> {
    if key in push && ValidKey(key) && |push[key]| <= MAX_VALUE_LEN then
      if push[key] == [] then None else Some(push[key])
    else if key in current then Some(current[key]) else None
  }

  function Override(current: map<Text, Text>, push: map<Text, Text>): map<Text, Text> {
    map k | k in current.Keys + push.Keys && Wanted(current, push, k).Some?
      :: Wanted(current, push, k).value
  }

  function Lookup(m: map<Text, Text>, key: Text): Option<Text> {
    if key in m then Some(m[key]) else None
  }

  lemma {:induction false} GetMerged(t: Tree, push: Tree, key: Text)
    ensures Sorted(Merged(t, push))
    ensures Get(Merged(t, push), key) == Wanted(AsMap(t), AsMap(push), key)
    decreases |push|
  {
    if push == [] {
      GetIsLookup(t, key);
    } else {
      var next := MergeOne(t, push[0]);
      MergeOneSorts(t, push[0]);
      GetMerged(next, push[1..], key);
      GetAfterMerge(t, push[0], key);
      GetIsLookup(t, key);
      GetIsLookup(next, key);
      BelowIsAbsent(push[1..], push[0].key);
    }
  }

  /** The merged list stands for exactly the override of the two maps. */
  lemma MergedIsOverride(t: Tree, push: Tree)
    ensures Sorted(Merged(t, push))
    ensures AsMap(Merged(t, push)) == Override(AsMap(t), AsMap(push))
  {
    var merged := Merged(t, push);
    GetMerged(t, push, []);
    forall k: Text
      ensures Lookup(AsMap(merged), k) == Lookup(Override(AsMap(t), AsMap(push)), k)
    {
      GetMerged(t, push, k);
      GetIsLookup(merged, k);
    }
    LookupExtensional(AsMap(merged), Override(AsMap(t), AsMap(push)));
  }

  lemma LookupExtensional(m: map<Text, Text>, n: map<Text, Text>)
    requires forall k: Text :: Lookup(m, k) == Lookup(n, k)
    ensures m == n
  {
    assert forall k: Text :: k in m <==> Lookup(m, k).Some?;
    assert forall k: Text :: k in n <==> Lookup(n, k).Some?;
    assert forall k: Text :: k in m ==> m[k] == Lookup(m, k).value == n[k];
  }

  lemma OverrideIdempotent(m: map<Text, Text>, push: map<Text, Text>)
    ensures Override(Override(m, push), push) == Override(m, push)
  {
    var once := Override(m, push);
    forall k: Text ensures Lookup(Override(once, push), k) == Lookup(once, k) {
      assert Wanted(once, push, k) == Wanted(m, push, k);
    }
    LookupExtensional(Override(once, push), once);
  }

  /** The stored record as a map: the empty one when nothing is stored. */
  function Contents(stored: Option<Snapshot>): Option<map<Text, Text>> {
    match CurrentOf(stored, true)
    case Ok((_, items)) => Some(AsMap(items))
    case Err(_) => None
  }

  function StoredGeneration(stored: Option<Snapshot>): nat {
    if stored.None? then 0 else stored.value.generation
  }

  /** Bytes a map takes when encoded. */
  ghost function Size(m: map<Text, Text>): nat {
    HEADER_LEN + Weight(TreeOf(m))
  }

  ghost predicate WithinBudget(stored: Option<Snapshot>) {
    stored.Some? ==> |stored.value.data| <= BUDGET
  }

  lemma MergedFits(t: seq<Item>, push: seq<Item>)
    requires AllFit(t)
    ensures AllFit(Merged(t, push))
    decreases |push|
  {
    if push != [] {
      MergeOneFits(t, push[0]);
      MergedFits(MergeOne(t, push[0]), push[1..]);
    }
  }

  lemma MergeOneFits(t: seq<Item>, item: Item)
    requires AllFit(t)
    ensures AllFit(MergeOne(t, item))
    ensures (forall x :: x in t ==> x.value != []) ==> forall x :: x in MergeOne(t, item) ==> x.value != []
  {
    InsertMembers(t, item);
    RemoveMembers(t, item.key);
    var next := MergeOne(t, item);
    forall i | 0 <= i < |next| ensures Fits(next[i]) {
      assert next[i] in next;
    }
  }

  lemma {:induction false} InsertMembers(t: seq<Item>, item: Item)
    ensures forall x :: x in Insert(t, item.key, item.value) ==> x == item || x in t
  {
    if t != [] {
      InsertMembers(t[1..], item);
    }
  }

  lemma {:induction false} RemoveMembers(t: seq<Item>, key: Text)
    ensures forall x :: x in Remove(t, key) ==> x in t
  {
    if t != [] {
      RemoveMembers(t[1..], key);
    }
  }

  /** What merging does, seen from outside: the change flag is exact, and a changed map is
      refused exactly when it is too big. */
  lemma MergeOutcome(items: Tree, push: Tree)
    requires AllFit(items)
    ensures var wanted := Override(AsMap(items), AsMap(push));
            var merged := Merged(items, push);
            Sorted(merged) && AsMap(merged) == wanted
            && (merged == items <==> wanted == AsMap(items))
            && (Encoded(merged).None? <==> Size(wanted) > 2048)
            && (Encoded(merged).Some? ==> Decoded(Encoded(merged).value) == Some(merged)
                                          && |Encoded(merged).value| <= 2048)
  {
    hide AsMap, Merged, Decoded, Wire, TreeOf, Override, Weight;
    var merged := Merged(items, push);
    MergedIsOverride(items, push);
    if AsMap(merged) == AsMap(items) {
      Canonical(merged, items);
    }
    Canonical(merged, TreeOf(AsMap(merged)));
    MergedFits(items, push);
    CountBound(merged, 0);
    if Encoded(merged).Some? {
      RoundTrip(merged);
      WireLength(merged);
    }
  }

  /** `apply` on a record it can read, said on maps alone. */
  lemma ApplyIsOverride(stored: Option<Snapshot>, push: Tree, outcome: Commit)
    requires Contents(stored).Some?
    ensures var current := Contents(stored).value;
            var wanted := Override(current, AsMap(push));
            var (r, after) := Applied(stored, push, true, outcome);
            if wanted == current then r == Ok(StoredGeneration(stored)) && after == stored
            else if Size(wanted) > 2048 then r == Err(TooLarge) && after == stored
            else if outcome.Fails? then r == Err(Persistence) && after == stored
            else r == Ok(outcome.generation) && Contents(after) == Some(wanted)
                 && StoredGeneration(after) == outcome.generation && WithinBudget(after)
  {
    var items := Sortedly(stored);
    MergeOutcome(items, push);
  }

  /** What a read makes of the store. */
  lemma CurrentExactly(stored: Option<Snapshot>, readable: bool)
    ensures CurrentOf(stored, readable) ==
            if !readable then Err(Persistence)
            else if stored == None then Ok((0, []))
            else if Decoded(stored.value.data) == None then Err(CorruptRecord)
            else Ok((stored.value.generation, Decoded(stored.value.data).value))
    ensures readable && stored == None ==> Contents(stored) == Some(map[])
  {
    hide Decoded;
  }

  /** A push that succeeds, one key at a time: a value of 1 to 63 bytes under a key of 1 to 15
      that does not start with an underscore replaces what is there, an empty one removes it, and
      whatever else is pushed, or not, changes nothing. */
  lemma PushDecides(stored: Option<Snapshot>, push: Tree, outcome: Commit, key: Text)
    requires Contents(stored).Some? && Applied(stored, push, true, outcome).0.Ok?
    ensures var (current, pushed) := (Contents(stored).value, AsMap(push));
            var after := Contents(Applied(stored, push, true, outcome).1);
            && after.Some?
            && Lookup(after.value, key) ==
               if key in pushed && 1 <= |key| <= 15 && key[0] != 0x5F && |pushed[key]| <= 63 then
                 if pushed[key] == [] then None else Some(pushed[key])
               else if key in current then Some(current[key]) else None
  {
    hide Applied, Contents, AsMap;
    ApplyIsOverride(stored, push, outcome);
  }

  lemma Sortedly(stored: Option<Snapshot>) returns (items: seq<Item>)
    requires Contents(stored).Some?
    ensures CurrentOf(stored, true) == Ok((StoredGeneration(stored), items))
    ensures Sorted(items) && AllFit(items) && Contents(stored) == Some(AsMap(items))
    ensures WithinBudget(stored) ==> HEADER_LEN + Weight(items) <= 2048
  {
    items := CurrentOf(stored, true).value.1;
    if stored.Some? {
      DecodedAccounts(stored.value.data);
    }
  }

  /** The error a push ends in, in both directions: which one, and exactly when. The stored
      record is as it was after every one of them. */
  lemma ApplyErrors(stored: Option<Snapshot>, push: Tree, readable: bool, outcome: Commit)
    requires WithinBudget(stored)
    ensures var (r, after) := Applied(stored, push, readable, outcome);
            (r.Err? ==> after == stored)
            && (r == Err(CorruptRecord) <==> readable && Contents(stored).None?)
            && (r == Err(TooLarge) <==>
                  readable && Contents(stored).Some?
                  && Size(Override(Contents(stored).value, AsMap(push))) > 2048)
            && (r == Err(Persistence) <==>
                  !readable
                  || (Contents(stored).Some? && outcome.Fails?
                      && Override(Contents(stored).value, AsMap(push)) != Contents(stored).value
                      && Size(Override(Contents(stored).value, AsMap(push))) <= 2048))
  {
    if readable && Contents(stored).Some? {
      ApplyIsOverride(stored, push, outcome);
      var items := Sortedly(stored);
      Canonical(items, TreeOf(AsMap(items)));
    }
  }

  /** Pushing the same data again commits nothing, even if the store would fail. */
  lemma ReapplyCommitsNothing(stored: Option<Snapshot>, push: Tree, outcome: Commit, again: Commit)
    requires Contents(stored).Some?
    requires Applied(stored, push, true, outcome).0.Ok?
    ensures var (r, after) := Applied(stored, push, true, outcome);
            Applied(after, push, true, again) == (r, after)
  {
    ApplyIsOverride(stored, push, outcome);
    OverrideIdempotent(Contents(stored).value, AsMap(push));
    var (r, after) := Applied(stored, push, true, outcome);
    ApplyIsOverride(after, push, again);
  }

  // --- Runs of pushes and reboots --------------------------------------------------------

  datatype Op =
    | Push(data: Tree, readable: bool, outcome: Commit)
    | Boot(readable: bool)

  datatype Session = Session(activeGeneration: nat, active: seq<Item>)

  /** The store, and the session of the running agent; a boot that cannot read its
      configuration does not come up. */
  datatype Device = Device(stored: Option<Snapshot>, session: Option<Session>)

  function Next(d: Device, op: Op): Device {
    match op
    case Push(data, readable, outcome) =>
      if d.session.None? then d
      else d.(stored := Applied(d.stored, data, readable, outcome).1)
    case Boot(readable) =>
      match CurrentOf(d.stored, readable)
      case Ok((generation, items)) => d.(session := Some(Session(generation, items)))
      case Err(_) => d.(session := None)
  }

  function Run(d: Device, ops: seq<Op>): Device
    decreases |ops|
  {
    if ops == [] then d else Run(Next(d, ops[0]), ops[1..])
  }

  /** A record this code wrote: within budget, readable, valid keys, no empty value. */
  ghost predicate Healthy(stored: Option<Snapshot>) {
    && WithinBudget(stored)
    && Contents(stored).Some?
    && forall x :: x in CurrentOf(stored, true).value.1 ==> x.value != []
  }

  lemma {:induction false} MergedKeepsValues(t: seq<Item>, push: seq<Item>)
    requires AllFit(t) && forall x :: x in t ==> x.value != []
    ensures forall x :: x in Merged(t, push) ==> x.value != []
    decreases |push|
  {
    if push != [] {
      MergeOneFits(t, push[0]);
      MergedKeepsValues(MergeOne(t, push[0]), push[1..]);
    }
  }

  lemma ApplyKeepsHealthy(stored: Option<Snapshot>, push: Tree, readable: bool, outcome: Commit)
    requires Healthy(stored)
    ensures Healthy(Applied(stored, push, readable, outcome).1)
  {
    if readable {
      ApplyIsOverride(stored, push, outcome);
      var items := Sortedly(stored);
      MergedKeepsValues(items, push);
      MergeOutcome(items, push);
    }
  }

  /** From an empty store, over every run: the record stays readable and within budget, its
      keys are valid, no value is empty, and it has at most 510 entries - so the 16-bit count
      never is what makes `encode` fail. */
  lemma {:induction false} RunStaysHealthy(d: Device, ops: seq<Op>)
    requires Healthy(d.stored)
    ensures Healthy(Run(d, ops).stored)
    ensures var items := CurrentOf(Run(d, ops).stored, true).value.1;
            AllFit(items) && |items| <= 510
    decreases |ops|
  {
    if ops == [] {
      var items := Sortedly(d.stored);
      assert forall i :: 0 <= i < |items| ==> items[i] in items && |items[i].value| >= 1;
      CountBound(items, 1);
    } else {
      if ops[0].Push? && d.session.Some? {
        ApplyKeepsHealthy(d.stored, ops[0].data, ops[0].readable, ops[0].outcome);
      }
      RunStaysHealthy(Next(d, ops[0]), ops[1..]);
    }
  }

  lemma EmptyStoreIsHealthy()
    ensures Healthy(None)
  {
  }

  /** The active snapshot is the record as of the last boot that came up: pushes never change
      it, whatever they store. */
  lemma {:induction false} ActiveIsTheBootRecord(d: Device, readable: bool, pushes: seq<Op>)
    requires Healthy(d.stored) && forall i :: 0 <= i < |pushes| ==> pushes[i].Push?
    ensures var booted := Next(d, Boot(readable));
            Run(booted, pushes).session == booted.session
            && booted.stored == d.stored
            && (booted.session.Some? <==> readable)
            && (readable ==> booted.session.value.activeGeneration == StoredGeneration(d.stored)
                             && Some(AsMap(booted.session.value.active)) == Contents(d.stored))
  {
    PushesKeepSession(Next(d, Boot(readable)), pushes);
  }

  lemma {:induction false} PushesKeepSession(d: Device, pushes: seq<Op>)
    requires forall i :: 0 <= i < |pushes| ==> pushes[i].Push?
    ensures Run(d, pushes).session == d.session
    decreases |pushes|
  {
    if pushes != [] {
      PushesKeepSession(Next(d, pushes[0]), pushes[1..]);
    }
  }
}
