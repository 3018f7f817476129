/** The partition-table checker (scripts/check-partitions.py), from the parsed rows on. */
module Partitions {
  import opened Wrappers

  const ERASE := 0x1000
  const APP_ALIGN := 0x1_0000
  const FIRST := 0x9000
  const MIN_WORKLOAD_SLOT := 0x4_0000

  datatype Row = Row(name: string, kind: string, sub: string, off: int, size: int)

  /** The rows, the flash size, the size of the Agent image if one is given, and the margin
      asked for it in percent. */
  datatype Input = Input(rows: seq<Row>, flash: int, image: Option<nat>, minMargin: Option<real>)

  /** The Agent partitions every device in the field has. */
  const AGENT: seq<Row> :=
    [Row("nvs", "data", "nvs", 0x9000, 0x6000),
     Row("otadata", "data", "ota", 0xF000, 0x2000),
     Row("phy_init", "data", "phy", 0x1_1000, 0x1000),
     Row("ota_0", "app", "ota_0", 0x2_0000, 0x18_0000),
     Row("ota_1", "app", "ota_1", 0x1A_0000, 0x18_0000)]

  const WORKLOAD: seq<string> := ["wl_meta", "workload_a", "workload_b"]
  const SLOTS: seq<string> := ["ota_0", "ota_1"]

  datatype Error =
    | Misaligned(i: nat)
    | Below(i: nat)
    | Beyond(i: nat)
    | Overlaps(i: nat, j: nat)
    | AgentDiffers(k: nat)
    | WorkloadPartial
    | WorkloadKind(k: nat)
    | MetaTooSmall
    | SlotsDiffer
    | SlotsTooSmall
    | ImageTooLarge(k: nat)
    | MarginTooSmall

  /** `Crash` is an uncaught Python exception; `Rejected` is exit status 1, `Accepted` 0. */
  datatype Outcome = Crash | Rejected(errors: seq<Error>) | Accepted

  // --- What each error means ---------------------------------------------------------------

  /** The last row of that name among the first n: the one a dictionary keyed by name keeps. */
  function Last(rows: seq<Row>, n: nat, name: string): (r: Option<Row>)
    requires n <= |rows|
    ensures r.Some? ==> r.value.name == name && r.value in rows[..n]
    ensures r.None? ==> forall i :: 0 <= i < n ==> rows[i].name != name
  {
    if n == 0 then None
    else if rows[n - 1].name == name then Some(rows[n - 1])
    else Last(rows, n - 1, name)
  }

  function Named(t: Input, name: string): Option<Row> {
    Last(t.rows, |t.rows|, name)
  }

  function Align(p: Row): int {
    if p.kind == "app" then APP_ALIGN else ERASE
  }

  predicate Aligned(p: Row) {
    p.off % Align(p) == 0 && p.size % ERASE == 0
  }

  predicate Meets(p: Row, q: Row) {
    p.off < q.off + q.size && q.off < p.off + p.size
  }

  function Present(t: Input): nat {
    (if Named(t, WORKLOAD[0]).Some? then 1 else 0)
    + (if Named(t, WORKLOAD[1]).Some? then 1 else 0)
    + (if Named(t, WORKLOAD[2]).Some? then 1 else 0)
  }

  function Cap(t: Input): int
    requires Named(t, SLOTS[0]).Some? && Named(t, SLOTS[1]).Some?
  {
    var a, b := Named(t, SLOTS[0]).value.size, Named(t, SLOTS[1]).value.size;
    if a <= b then a else b
  }

  function Margin(cap: int, size: nat): real
    requires size > 0
  {
    (cap - size) as real * 100.0 / size as real
  }

  predicate Crashes(t: Input) {
    || t.rows == []
    || (t.image.Some?
        && (Named(t, SLOTS[0]).None? || Named(t, SLOTS[1]).None? || t.image.value == 0))
  }

  predicate RowFault(t: Input, e: Error) {
    match e
    case Misaligned(i) => i < |t.rows| && !Aligned(t.rows[i])
    case Below(i) => i < |t.rows| && t.rows[i].off < FIRST
    case Beyond(i) => i < |t.rows| && t.rows[i].off + t.rows[i].size > t.flash
    case Overlaps(i, j) => i < j < |t.rows| && Meets(t.rows[i], t.rows[j])
    case _ => false
  }

  predicate AgentFault(t: Input, e: Error) {
    e.AgentDiffers? && e.k < |AGENT| && Named(t, AGENT[e.k].name) != Some(AGENT[e.k])
  }

  predicate WorkloadFault(t: Input, e: Error) {
    match e
    case WorkloadPartial => 0 < Present(t) < 3
    case WorkloadKind(k) =>
      Present(t) == 3 && k < 3
      && (Named(t, WORKLOAD[k]).value.kind != "data" || Named(t, WORKLOAD[k]).value.sub != "undefined")
    case MetaTooSmall => Present(t) == 3 && Named(t, WORKLOAD[0]).value.size < 2 * ERASE
    case SlotsDiffer =>
      Present(t) == 3 && Named(t, WORKLOAD[1]).value.size != Named(t, WORKLOAD[2]).value.size
    case SlotsTooSmall => Present(t) == 3 && Named(t, WORKLOAD[1]).value.size < MIN_WORKLOAD_SLOT
    case _ => false
  }

  predicate ImageFault(t: Input, e: Error)
    requires !Crashes(t)
  {
    t.image.Some?
    && match e
       case ImageTooLarge(k) => k < 2 && t.image.value > Named(t, SLOTS[k]).value.size
       case MarginTooSmall => t.minMargin.Some? && Margin(Cap(t), t.image.value) < t.minMargin.value
       case _ => false
  }

  predicate Fault(t: Input, e: Error)
    requires !Crashes(t)
  {
    RowFault(t, e) || AgentFault(t, e) || WorkloadFault(t, e) || ImageFault(t, e)
  }

  // --- The checker -------------------------------------------------------------------------

  predicate RowFaultUpTo(t: Input, e: Error, i: nat, j: nat) {
    RowFault(t, e)
    && match e
       case Misaligned(k) => k < i
       case Below(k) => k < i
       case Beyond(k) => k < i
       case Overlaps(k, l) => k < i || (k == i && l < j)
       case _ => false
  }

  method RowErrors(t: Input) returns (errors: seq<Error>)
    ensures forall e :: e in errors <==> RowFault(t, e)
  {
    errors := [];
    for i := 0 to |t.rows|
      invariant forall e :: e in errors <==> RowFaultUpTo(t, e, i, 0)
    {
      var p := t.rows[i];
      ghost var before := errors;
      if !Aligned(p) { errors := errors + [Misaligned(i)]; }
      if p.off < FIRST { errors := errors + [Below(i)]; }
      if p.off + p.size > t.flash { errors := errors + [Beyond(i)]; }
      ghost var own := errors;
      assert forall e :: e in own <==>
               e in before || (RowFault(t, e) && e in {Misaligned(i), Below(i), Beyond(i)});
      for j := i + 1 to |t.rows|
        invariant forall e :: e in errors <==>
                    e in own || (RowFault(t, e) && e.Overlaps? && e.i == i && e.j < j)
      {
        if Meets(p, t.rows[j]) { errors := errors + [Overlaps(i, j)]; }
      }
    }
  }

  function Get(m: map<string, Row>, name: string): Option<Row> {
    if name in m then Some(m[name]) else None
  }

  method Table(t: Input) returns (byName: map<string, Row>)
    ensures forall name :: Named(t, name) == Get(byName, name)
  {
    byName := map[];
    for i := 0 to |t.rows|
      invariant forall name :: Last(t.rows, i, name) == Get(byName, name)
    {
      byName := byName[t.rows[i].name := t.rows[i]];
    }
  }

  method AgentErrors(t: Input, byName: map<string, Row>) returns (errors: seq<Error>)
    requires forall name :: Named(t, name) == Get(byName, name)
    ensures forall e :: e in errors <==> AgentFault(t, e)
  {
    errors := [];
    for k := 0 to |AGENT|
      invariant forall e :: e in errors <==> AgentFault(t, e) && e.k < k
    {
      if AGENT[k].name !in byName || byName[AGENT[k].name] != AGENT[k] {
        errors := errors + [AgentDiffers(k)];
      }
    }
  }

  method WorkloadErrors(t: Input, byName: map<string, Row>) returns (errors: seq<Error>)
    requires forall name :: Named(t, name) == Get(byName, name)
    ensures forall e :: e in errors <==> WorkloadFault(t, e)
  {
    var present := [];
    for k := 0 to 3
      invariant |present| == (if k > 0 && WORKLOAD[0] in byName then 1 else 0)
                             + (if k > 1 && WORKLOAD[1] in byName then 1 else 0)
                             + (if k > 2 && WORKLOAD[2] in byName then 1 else 0)
    {
      if WORKLOAD[k] in byName { present := present + [WORKLOAD[k]]; }
    }
    assert |present| == Present(t);
    errors := [];
    if present != [] && |present| != 3 { errors := [WorkloadPartial]; }
    if |present| == 3 {
      for k := 0 to 3
        invariant forall e :: e in errors <==> WorkloadFault(t, e) && e.WorkloadKind? && e.k < k
      {
        if byName[WORKLOAD[k]].kind != "data" || byName[WORKLOAD[k]].sub != "undefined" {
          errors := errors + [WorkloadKind(k)];
        }
      }
      if byName[WORKLOAD[0]].size < 2 * ERASE { errors := errors + [MetaTooSmall]; }
      if byName[WORKLOAD[1]].size != byName[WORKLOAD[2]].size { errors := errors + [SlotsDiffer]; }
      if byName[WORKLOAD[1]].size < MIN_WORKLOAD_SLOT { errors := errors + [SlotsTooSmall]; }
    }
  }

  method ImageErrors(t: Input, byName: map<string, Row>) returns (errors: Option<seq<Error>>)
    requires forall name :: Named(t, name) == Get(byName, name)
    requires t.rows != []
    ensures errors.None? <==> Crashes(t)
    ensures errors.Some? ==> forall e :: e in errors.value <==> ImageFault(t, e)
  {
    if t.image.None? { return Some([]); }
    var size: nat, found: seq<Error> := t.image.value, [];
    for k := 0 to 2
      invariant forall j :: 0 <= j < k ==> SLOTS[j] in byName
      invariant forall e: Error :: e in found <==>
                  e.ImageTooLarge? && e.k < k && size > byName[SLOTS[e.k]].size
    {
      if SLOTS[k] !in byName { return None; }
      if size > byName[SLOTS[k]].size { found := found + [ImageTooLarge(k)]; }
    }
    assert SLOTS[0] in byName && SLOTS[1] in byName;
    var cap := if byName[SLOTS[0]].size <= byName[SLOTS[1]].size then byName[SLOTS[0]].size else byName[SLOTS[1]].size;
    if size == 0 { return None; }
    if t.minMargin.Some? && Margin(cap, size) < t.minMargin.value {
      found := found + [MarginTooSmall];
    }
    return Some(found);
  }

  /** `main`: a crash exactly on the inputs of `Crashes`, otherwise every fault is reported and
      nothing else is, and the table is accepted when there is none. */
  method Check(t: Input) returns (r: Outcome)
    ensures r.Crash? <==> Crashes(t)
    ensures r.Rejected? ==> r.errors != [] && forall e :: e in r.errors <==> Fault(t, e)
    ensures r.Accepted? ==> forall e :: !Fault(t, e)
  {
    var errors := RowErrors(t);
    var byName := Table(t);
    var agent := AgentErrors(t, byName);
    var workload := WorkloadErrors(t, byName);
    if t.rows == [] { return Crash; }
    var image := ImageErrors(t, byName);
    if image.None? { return Crash; }
    errors := errors + agent + workload + image.value;
    if errors != [] {
      return Rejected(errors);
    }
    assert forall e :: e !in errors;
    return Accepted;
  }

  // --- The layout rules --------------------------------------------------------------------

  predicate WorkloadRule(t: Input) {
    var m, a, b := Named(t, "wl_meta"), Named(t, "workload_a"), Named(t, "workload_b");
    || (m.None? && a.None? && b.None?)
    || (m.Some? && a.Some? && b.Some?
        && (forall p :: p in {m.value, a.value, b.value} ==> p.kind == "data" && p.sub == "undefined")
        && m.value.size >= 8192
        && a.value.size == b.value.size >= 262144)
  }

  predicate ImageRule(t: Input) {
    t.image.Some? ==>
      var size := t.image.value;
      0 < size <= 0x18_0000
      && (t.minMargin.Some? ==> (0x18_0000 - size) as real * 100.0 / size as real >= t.minMargin.value)
  }

  predicate AgentRule(t: Input) {
    && Named(t, "nvs") == Some(Row("nvs", "data", "nvs", 0x9000, 0x6000))
    && Named(t, "otadata") == Some(Row("otadata", "data", "ota", 0xF000, 0x2000))
    && Named(t, "phy_init") == Some(Row("phy_init", "data", "phy", 0x1_1000, 0x1000))
    && Named(t, "ota_0") == Some(Row("ota_0", "app", "ota_0", 0x2_0000, 0x18_0000))
    && Named(t, "ota_1") == Some(Row("ota_1", "app", "ota_1", 0x1A_0000, 0x18_0000))
  }

  predicate RowRule(t: Input, p: Row) {
    && (if p.kind == "app" then p.off % 65536 == 0 else p.off % 4096 == 0)
    && p.size % 4096 == 0
    && 0x9000 <= p.off && p.off + p.size <= t.flash
  }

  /** No partition reaches into another. */
  predicate Apart(rows: seq<Row>) {
    forall i, j :: 0 <= i < j < |rows| ==>
      rows[i].off + rows[i].size <= rows[j].off || rows[j].off + rows[j].size <= rows[i].off
  }

  /** What an accepted table looks like, rule by rule. */
  predicate Layout(t: Input) {
    && (forall i :: 0 <= i < |t.rows| ==> RowRule(t, t.rows[i]))
    && Apart(t.rows)
    && AgentRule(t)
    && WorkloadRule(t)
    && ImageRule(t)
  }

  ghost predicate NoFault(t: Input) {
    !Crashes(t) && forall e :: !Fault(t, e)
  }

  lemma NoRowFault(t: Input)
    requires NoFault(t)
    ensures forall i :: 0 <= i < |t.rows| ==> RowRule(t, t.rows[i])
    ensures Apart(t.rows)
  {
    forall i | 0 <= i < |t.rows| ensures RowRule(t, t.rows[i]) {
      assert !Fault(t, Misaligned(i)) && !Fault(t, Below(i)) && !Fault(t, Beyond(i));
    }
    forall i, j | 0 <= i < j < |t.rows|
      ensures t.rows[i].off + t.rows[i].size <= t.rows[j].off || t.rows[j].off + t.rows[j].size <= t.rows[i].off
    {
      assert !Fault(t, Overlaps(i, j));
    }
  }

  lemma NoAgentFault(t: Input, k: nat)
    requires NoFault(t) && k < |AGENT|
    ensures Named(t, AGENT[k].name) == Some(AGENT[k])
  {
    assert !Fault(t, AgentDiffers(k));
  }

  lemma NoWorkloadFault(t: Input)
    requires NoFault(t)
    ensures WorkloadRule(t)
  {
    hide RowFault, AgentFault, ImageFault;
    hide Last;
    assert !Fault(t, WorkloadPartial) && !Fault(t, MetaTooSmall) && !Fault(t, SlotsDiffer) && !Fault(t, SlotsTooSmall);
    assert !Fault(t, WorkloadKind(0)) && !Fault(t, WorkloadKind(1)) && !Fault(t, WorkloadKind(2));
  }

  lemma NoImageFault(t: Input)
    requires NoFault(t)
    ensures ImageRule(t)
  {
    NoAgentFault(t, 3);
    NoAgentFault(t, 4);
    assert !Fault(t, ImageTooLarge(0)) && !Fault(t, MarginTooSmall);
  }

  lemma AgentIsNamed(t: Input, k: nat)
    requires AgentRule(t) && k < |AGENT|
    ensures Named(t, AGENT[k].name) == Some(AGENT[k])
  {
    hide Last;
  }

  lemma RulesLeaveNoRowFault(t: Input, e: Error)
    requires Apart(t.rows) && forall i :: 0 <= i < |t.rows| ==> RowRule(t, t.rows[i])
    ensures !RowFault(t, e)
  {
    match e
    case Misaligned(i) => assert i < |t.rows| ==> RowRule(t, t.rows[i]);
    case Below(i) => assert i < |t.rows| ==> RowRule(t, t.rows[i]);
    case Beyond(i) => assert i < |t.rows| ==> RowRule(t, t.rows[i]);
    case _ =>
  }

  lemma RulesLeaveNoAgentFault(t: Input, e: Error)
    requires AgentRule(t)
    ensures !AgentFault(t, e)
  {
    hide Last;
    if e.AgentDiffers? && e.k < |AGENT| {
      AgentIsNamed(t, e.k);
    }
  }

  lemma RulesLeaveNoWorkloadFault(t: Input, e: Error)
    requires WorkloadRule(t)
    ensures !WorkloadFault(t, e)
  {
    hide Last;
  }

  lemma RulesLeaveNoImageFault(t: Input, e: Error)
    requires AgentRule(t) && ImageRule(t) && !Crashes(t)
    ensures !ImageFault(t, e)
  {
    hide Last;
    AgentIsNamed(t, 3);
    AgentIsNamed(t, 4);
  }

  lemma RulesLeaveNoCrash(t: Input)
    requires AgentRule(t) && ImageRule(t)
    ensures !Crashes(t)
  {
    AgentIsNamed(t, 3);
    AgentIsNamed(t, 4);
  }

  lemma LayoutIsNoFault(t: Input)
    requires Layout(t)
    ensures NoFault(t)
  {
    hide AgentRule, WorkloadRule, ImageRule, RowRule, Crashes, RowFault, AgentFault, WorkloadFault, ImageFault;
    RulesLeaveNoCrash(t);
    forall e ensures !Fault(t, e) {
      RulesLeaveNoRowFault(t, e);
      RulesLeaveNoAgentFault(t, e);
      RulesLeaveNoWorkloadFault(t, e);
      RulesLeaveNoImageFault(t, e);
    }
  }

  /** The checker accepts exactly the tables that follow the rules. */
  lemma AcceptedIsLayout(t: Input)
    ensures NoFault(t) <==> Layout(t)
  {
    hide Last;
    if NoFault(t) {
      NoRowFault(t);
      NoWorkloadFault(t);
      NoImageFault(t);
      NoAgentFault(t, 0);
      NoAgentFault(t, 1);
      NoAgentFault(t, 2);
      NoAgentFault(t, 3);
      NoAgentFault(t, 4);
    }
    if Layout(t) {
      LayoutIsNoFault(t);
    }
  }

  // --- What each report means --------------------------------------------------------------

  /** Each row report, exactly when it is made. */
  lemma RowReports(t: Input, i: nat, j: nat)
    requires i < j < |t.rows|
    ensures var (p, q) := (t.rows[i], t.rows[j]);
            && (RowFault(t, Misaligned(i)) <==>
                  p.size % 4096 != 0 || p.off % (if p.kind == "app" then 65536 else 4096) != 0)
            && (RowFault(t, Below(i)) <==> p.off < 36864)
            && (RowFault(t, Beyond(i)) <==> t.flash < p.off + p.size)
            && (RowFault(t, Overlaps(i, j)) <==> p.off < q.off + q.size && q.off < p.off + p.size)
            && !RowFault(t, Overlaps(j, i)) && !RowFault(t, Overlaps(i, i))
  {
  }

  /** The workload reports: some but not all of the three partitions; and, with all of them there,
      what is wrong with which. */
  lemma WorkloadReports(t: Input)
    ensures var (m, a, b) := (Named(t, "wl_meta"), Named(t, "workload_a"), Named(t, "workload_b"));
            var all := m.Some? && a.Some? && b.Some?;
            && (WorkloadFault(t, WorkloadPartial) <==> !all && (m.Some? || a.Some? || b.Some?))
            && (WorkloadFault(t, WorkloadKind(0)) <==> all && (m.value.kind != "data" || m.value.sub != "undefined"))
            && (WorkloadFault(t, WorkloadKind(1)) <==> all && (a.value.kind != "data" || a.value.sub != "undefined"))
            && (WorkloadFault(t, WorkloadKind(2)) <==> all && (b.value.kind != "data" || b.value.sub != "undefined"))
            && (WorkloadFault(t, MetaTooSmall) <==> all && m.value.size < 8192)
            && (WorkloadFault(t, SlotsDiffer) <==> all && a.value.size != b.value.size)
            && (WorkloadFault(t, SlotsTooSmall) <==> all && a.value.size < 262144)
  {
    hide Last;
  }

  /** The image reports: the slots as the table has them, the margin of the smaller one. */
  lemma ImageReports(t: Input, a: int, b: int)
    requires !Crashes(t) && t.image.Some?
    requires Named(t, "ota_0").Some? && Named(t, "ota_0").value.size == a
    requires Named(t, "ota_1").Some? && Named(t, "ota_1").value.size == b
    ensures var (size, cap) := (t.image.value, if b < a then b else a);
            && (ImageFault(t, ImageTooLarge(0)) <==> size > a)
            && (ImageFault(t, ImageTooLarge(1)) <==> size > b)
            && (ImageFault(t, MarginTooSmall) <==>
                  t.minMargin.Some? && (cap - size) as real * 100.0 / size as real < t.minMargin.value)
  {
    hide Last;
  }

  /** When the checker stops with an exception. */
  lemma CrashesExactly(t: Input)
    ensures Crashes(t) <==>
            |t.rows| == 0
            || (t.image.Some? && (t.image.value == 0 || Named(t, "ota_0") == None || Named(t, "ota_1") == None))
  {
    hide Last;
  }

  // --- What the rules are for --------------------------------------------------------------

  predicate Holds(p: Row, address: int) {
    p.off <= address < p.off + p.size
  }

  /** No flash address lies in two partitions of an accepted table, whatever their sizes. */
  lemma OnePartitionPerAddress(rows: seq<Row>, i: nat, j: nat, address: int)
    requires Apart(rows) && i < |rows| && j < |rows|
    requires Holds(rows[i], address) && Holds(rows[j], address)
    ensures i == j
  {
    assert i < j || j < i || i == j;
  }

  ghost function Range(lo: int, hi: int): (s: set<int>)
    ensures forall a :: a in s <==> lo <= a < hi
    ensures |s| == if lo <= hi then hi - lo else 0
    decreases hi - lo
  {
    if lo >= hi then {} else Range(lo, hi - 1) + {hi - 1}
  }

  ghost function Cells(p: Row): (s: set<int>)
    ensures forall a :: a in s <==> Holds(p, a)
    ensures |s| == if p.size >= 0 then p.size else 0
  {
    Range(p.off, p.off + p.size)
  }

  function SizeSum(rows: seq<Row>, n: nat): int
    requires n <= |rows|
  {
    if n == 0 then 0 else SizeSum(rows, n - 1) + rows[n - 1].size
  }

  ghost function Covered(rows: seq<Row>, n: nat): set<int>
    requires n <= |rows|
  {
    if n == 0 then {} else Covered(rows, n - 1) + Cells(rows[n - 1])
  }

  lemma {:induction false} CoveredBy(rows: seq<Row>, n: nat, address: int) returns (i: nat)
    requires n <= |rows| && address in Covered(rows, n)
    ensures i < n && Holds(rows[i], address)
  {
    hide Cells;
    if address in Covered(rows, n - 1) {
      i := CoveredBy(rows, n - 1, address);
    } else {
      i := n - 1;
    }
  }

  lemma {:induction false} SumIsCovered(rows: seq<Row>, n: nat)
    requires Apart(rows) && n <= |rows|
    ensures SizeSum(rows, n) <= |Covered(rows, n)|
    ensures (forall i :: 0 <= i < n ==> rows[i].size >= 0) ==> SizeSum(rows, n) == |Covered(rows, n)|
  {
    hide Cells;
    if n > 0 {
      SumIsCovered(rows, n - 1);
      var own := Cells(rows[n - 1]);
      forall a | a in own ensures a !in Covered(rows, n - 1) {
        if a in Covered(rows, n - 1) {
          var i := CoveredBy(rows, n - 1, a);
          OnePartitionPerAddress(rows, i, n - 1, a);
        }
      }
      assert Covered(rows, n - 1) !! own;
    }
  }

  /** All partitions of an accepted table together fit between 0x9000 and the end of the flash.
      (The checker lets a negative size through; it can only make the sum smaller.) */
  lemma PartitionsFitTheFlash(t: Input)
    requires Layout(t)
    ensures SizeSum(t.rows, |t.rows|) <= t.flash - FIRST
  {
    var n := |t.rows|;
    SumIsCovered(t.rows, n);
    forall a | a in Covered(t.rows, n) ensures a in Range(FIRST, t.flash) {
      var i := CoveredBy(t.rows, n, a);
    }
    Subset(Covered(t.rows, n), Range(FIRST, t.flash));
  }

  lemma {:induction false} Subset(a: set<int>, b: set<int>)
    requires a <= b
    ensures |a| <= |b|
  {
    assert b == a + (b - a);
  }

  // --- Names -------------------------------------------------------------------------------

  /** "The five Agent partitions exactly as in S15", read strictly: every row that bears one of
      their names is that partition. */
  predicate AgentRowsAreExact(t: Input) {
    forall i, k :: 0 <= i < |t.rows| && 0 <= k < |AGENT| && t.rows[i].name == AGENT[k].name ==>
      t.rows[i] == AGENT[k]
  }

  predicate AgentNamesAreUnique(t: Input) {
    forall i, j, k :: 0 <= i < j < |t.rows| && 0 <= k < |AGENT| && t.rows[i].name == AGENT[k].name ==>
      t.rows[j].name != AGENT[k].name
  }

  lemma {:induction false} LastAt(rows: seq<Row>, n: nat, name: string) returns (i: nat)
    requires n <= |rows| && Last(rows, n, name).Some?
    ensures i < n && rows[i] == Last(rows, n, name).value && rows[i].name == name
    ensures forall j :: i < j < n ==> rows[j].name != name
  {
    if rows[n - 1].name == name {
      i := n - 1;
    } else {
      i := LastAt(rows, n - 1, name);
    }
  }

  /** An accepted table meets the strict reading exactly when no Agent name occurs twice: the
      checker only ever looks at the last row of a name. */
  lemma ExactUnlessRepeated(t: Input)
    requires Layout(t)
    ensures AgentRowsAreExact(t) <==> AgentNamesAreUnique(t)
  {
    hide AgentRule, WorkloadRule, ImageRule, RowRule, Last;
    if AgentRowsAreExact(t) {
      forall i, j, k | 0 <= i < j < |t.rows| && 0 <= k < |AGENT| && t.rows[i].name == AGENT[k].name
        ensures t.rows[j].name != AGENT[k].name
      {
        NotTwice(t.rows, i, j, k);
      }
    }
    if AgentNamesAreUnique(t) {
      forall i, k | 0 <= i < |t.rows| && 0 <= k < |AGENT| && t.rows[i].name == AGENT[k].name
        ensures t.rows[i] == AGENT[k]
      {
        AgentIsNamed(t, k);
        var j := LastAt(t.rows, |t.rows|, AGENT[k].name);
        assert i == j;
      }
    }
  }

  lemma NotTwice(rows: seq<Row>, i: nat, j: nat, k: nat)
    requires Apart(rows) && i < j < |rows| && k < |AGENT| && rows[i] == AGENT[k]
    ensures rows[j] != AGENT[k]
  {
  }

  /** Such a table exists: a second `nvs` in front of the five Agent partitions is accepted. */
  lemma RepeatedNameIsAccepted(t: Input)
    requires t == Input([Row("nvs", "data", "nvs", 0x32_0000, 0x1000)] + AGENT, 0x100_0000, None, None)
    ensures NoFault(t) && !AgentRowsAreExact(t)
  {
    hide Last;
    assert t.rows[0].name == AGENT[0].name && t.rows[0] != AGENT[0];
    assert forall i :: 1 <= i < 6 ==> t.rows[i] == AGENT[i - 1];
    RowsInPlace(t);
    LastOf(t, 0);
    LastOf(t, 1);
    LastOf(t, 2);
    LastOf(t, 3);
    LastOf(t, 4);
    NoWorkload(t);
    AcceptedIsLayout(t);
  }

  lemma RowsInPlace(t: Input)
    requires t.rows == [Row("nvs", "data", "nvs", 0x32_0000, 0x1000)] + AGENT && t.flash == 0x100_0000
    ensures Apart(t.rows)
    ensures forall i :: 0 <= i < |t.rows| ==> RowRule(t, t.rows[i])
  {
    assert t.rows == [Row("nvs", "data", "nvs", 0x32_0000, 0x1000), AGENT[0], AGENT[1], AGENT[2], AGENT[3], AGENT[4]];
  }

  lemma NoWorkload(t: Input)
    requires |t.rows| == 6 && t.rows[0].name == "nvs" && forall i :: 1 <= i < 6 ==> t.rows[i] == AGENT[i - 1]
    ensures WorkloadRule(t)
  {
    hide Last;
    assert forall k :: 0 <= k < 3 ==> Named(t, WORKLOAD[k]).None?;
  }

  lemma LastOf(t: Input, k: nat)
    requires k < 5 && |t.rows| == 6 && forall i :: 1 <= i < 6 ==> t.rows[i] == AGENT[i - 1]
    ensures Named(t, AGENT[k].name) == Some(AGENT[k])
  {
    LastFrom(t.rows, k + 2, AGENT[k].name);
  }

  lemma {:induction false} LastFrom(rows: seq<Row>, n: nat, name: string)
    requires 0 < n <= |rows| && rows[n - 1].name == name
    requires forall i :: n <= i < |rows| ==> rows[i].name != name
    ensures Last(rows, |rows|, name) == Some(rows[n - 1])
  {
    LastSkips(rows, n, |rows|, name);
  }

  lemma {:induction false} LastSkips(rows: seq<Row>, n: nat, m: nat, name: string)
    requires n <= m <= |rows|
    requires forall i :: n <= i < m ==> rows[i].name != name
    ensures Last(rows, m, name) == Last(rows, n, name)
  {
    if n < m {
      LastSkips(rows, n, m - 1, name);
    }
  }
}
