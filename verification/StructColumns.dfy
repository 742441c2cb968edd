/** The two walks over a struct's fields: one lists the columns and the values to save, the other
    the places a row is scanned into. They must name the same fields in the same order. */
module StructColumns {
  /** `col` is the column name derived from the field's tags or its name. */
  datatype Field = Field(exported: bool, anonymous: bool, col: string, ftype: FieldType)

  datatype FieldType =
    | StructType(fields: seq<Field>)  // any struct but time.Time
    | JsonType                        // maps, slices other than bytes, pointers to structs
    | TimeType
    | TimePtrType
    | PlainType

  /** Where a field sits: the field indices from the root struct down. */
  type Path = seq<nat>

  datatype Encoding = AsJson | AsTime | AsIs

  function EncodingOf(t: FieldType): Encoding {
    match t
    case StructType(_) => AsJson
    case JsonType => AsJson
    case TimeType => AsTime
    case TimePtrType => AsTime
    case PlainType => AsIs
  }

  predicate HasColumn(f: Field) {
    f.exported && !f.anonymous && f.col != "" && f.col != "-"
  }

  predicate IsFlattened(f: Field) {
    f.exported && f.anonymous && f.ftype.StructType?
  }

  // ── The reference: all fields in order, then first occurrences ──

  /** A field that has a column. */
  datatype Slot = Slot(col: string, path: Path, encoding: Encoding)

  function SlotOf(f: Field, path: Path): seq<Slot> {
    if HasColumn(f) then [Slot(f.col, path, EncodingOf(f.ftype))] else []
  }

  /** The slots of the first n direct fields. */
  function Direct(fields: seq<Field>, n: nat, path: Path): seq<Slot>
    requires n <= |fields|
  {
    if n == 0 then []
    else
      Direct(fields, n - 1, path) + SlotOf(fields[n - 1], path + [n - 1])
  }

  /** The slots inside the first n fields, those that are flattened. */
  function Nested(fields: seq<Field>, n: nat, path: Path): seq<Slot>
    requires n <= |fields|
    decreases fields, n
  {
    if n == 0 then []
    else
      Nested(fields, n - 1, path) + NestedOf(fields[n - 1], path + [n - 1])
  }

  function NestedOf(f: Field, path: Path): seq<Slot>
    decreases f
  {
    if IsFlattened(f) then AllSlots(f.ftype.fields, path) else []
  }

  /** Every slot of a struct: its direct fields, then those of its embedded structs in turn. */
  function AllSlots(fields: seq<Field>, path: Path): seq<Slot>
    decreases fields, |fields| + 1
  {
    Direct(fields, |fields|, path) + Nested(fields, |fields|, path)
  }

  // ── What that order is, said of paths alone ──

  /** The path leads through exported embedded structs, and those only, to an exported field that is not
      embedded and whose column is neither empty nor a dash. */
  predicate IsColumnPath(fields: seq<Field>, path: Path)
    decreases |path|
  {
    && path != [] && path[0] < |fields|
    && var f := fields[path[0]];
       if |path| == 1 then f.exported && !f.anonymous && f.col != "" && f.col != "-"
       else f.exported && f.anonymous && f.ftype.StructType? && IsColumnPath(f.ftype.fields, path[1..])
  }

  function FieldAt(fields: seq<Field>, path: Path): Field
    requires IsColumnPath(fields, path)
    decreases |path|
  {
    if |path| == 1 then fields[path[0]] else FieldAt(fields[path[0]].ftype.fields, path[1..])
  }

  /** Within one struct, direct fields come before those inside embedded structs, and otherwise an earlier
      field comes first. */
  predicate Precedes(p: Path, q: Path) {
    && p != [] && q != []
    && if p[0] == q[0] then Precedes(p[1..], q[1..])
       else if (|p| == 1) == (|q| == 1) then p[0] < q[0]
       else |p| == 1
  }

  /** The slot sits at a path that goes on from `path` to a field with a column, and says what that field is. */
  predicate IsSlotOf(fields: seq<Field>, path: Path, s: Slot) {
    && path <= s.path && IsColumnPath(fields, s.path[|path|..])
    && var f := FieldAt(fields, s.path[|path|..]);
       s.col == f.col && s.encoding == EncodingOf(f.ftype)
  }

  predicate OneBeforeOther(s: Slot, t: Slot, depth: nat) {
    |s.path| >= depth && |t.path| >= depth && Precedes(s.path[depth..], t.path[depth..])
  }

  predicate InOrder(slots: seq<Slot>, depth: nat) {
    forall i, j :: 0 <= i < j < |slots| ==> OneBeforeOther(slots[i], slots[j], depth)
  }

  lemma OneDeeper(path: Path, k: nat, p: Path)
    requires path + [k] <= p
    ensures path <= p && p[|path|..] == [k] + p[|path| + 1..] && p[|path|] == k
  {
    assert p[|path|] == (path + [k])[|path|];
    assert path == (path + [k])[..|path|];
  }

  lemma {:induction false} DirectMean(fields: seq<Field>, n: nat, path: Path)
    requires n <= |fields|
    ensures forall s :: s in Direct(fields, n, path) ==>
              IsSlotOf(fields, path, s) && |s.path| == |path| + 1 && s.path[|path|] < n
    ensures InOrder(Direct(fields, n, path), |path|)
  {
    if n > 0 {
      DirectMean(fields, n - 1, path);
      var f, p := fields[n - 1], path + [n - 1];
      assert p[|path|..] == [n - 1];
      var init := Direct(fields, n - 1, path);
      forall i | 0 <= i < |init| ensures |init[i].path| > |path| && Precedes(init[i].path[|path|..], p[|path|..]) {
        assert init[i] in init;
      }
    }
  }

  lemma PrecedesDeeper(path: Path, k: nat, p: Path, q: Path)
    requires path + [k] <= p && path + [k] <= q && Precedes(p[|path| + 1..], q[|path| + 1..])
    ensures Precedes(p[|path|..], q[|path|..])
  {
    OneDeeper(path, k, p);
    OneDeeper(path, k, q);
    assert p[|path|..][1..] == p[|path| + 1..] && q[|path|..][1..] == q[|path| + 1..];
  }

  /** The slots inside the field at index k. */
  lemma {:induction false} NestedOfMean(fields: seq<Field>, k: nat, path: Path)
    requires k < |fields|
    ensures forall s :: s in NestedOf(fields[k], path + [k]) ==>
              IsSlotOf(fields, path, s) && |s.path| > |path| + 1 && s.path[|path|] == k
    ensures InOrder(NestedOf(fields[k], path + [k]), |path|)
    decreases fields[k], 1
  {
    var f, deeper := fields[k], path + [k];
    var slots := NestedOf(f, deeper);
    if IsFlattened(f) {
      AllSlotsMean(f.ftype.fields, deeper);
      forall s | s in slots ensures IsSlotOf(fields, path, s) && |s.path| > |path| + 1 && s.path[|path|] == k {
        OneDeeper(path, k, s.path);
        assert s.path[|path|..][1..] == s.path[|deeper|..];
      }
      forall i, j | 0 <= i < j < |slots| ensures OneBeforeOther(slots[i], slots[j], |path|) {
        assert slots[i] in slots && slots[j] in slots && OneBeforeOther(slots[i], slots[j], |deeper|);
        PrecedesDeeper(path, k, slots[i].path, slots[j].path);
      }
    }
  }

  lemma {:induction false} NestedMean(fields: seq<Field>, n: nat, path: Path)
    requires n <= |fields|
    ensures forall s :: s in Nested(fields, n, path) ==>
              IsSlotOf(fields, path, s) && |s.path| > |path| + 1 && s.path[|path|] < n
    ensures InOrder(Nested(fields, n, path), |path|)
    decreases fields, n
  {
    if n > 0 {
      NestedMean(fields, n - 1, path);
      NestedOfMean(fields, n - 1, path);
      var init, last := Nested(fields, n - 1, path), NestedOf(fields[n - 1], path + [n - 1]);
      forall s, t | s in init && t in last ensures OneBeforeOther(s, t, |path|) {
        PartingPaths(s.path, t.path, |path|);
      }
      JoinInOrder(init, last, |path|);
    }
  }

  /** Two paths that part at this depth. */
  lemma PartingPaths(p: Path, q: Path, depth: nat)
    requires |p| > depth && |q| > depth && p[depth] != q[depth]
    requires (|q| == depth + 1 ==> |p| == depth + 1) && ((|p| == depth + 1) == (|q| == depth + 1) ==> p[depth] < q[depth])
    ensures Precedes(p[depth..], q[depth..])
  {
    assert p[depth..][0] == p[depth] && q[depth..][0] == q[depth];
  }

  lemma JoinInOrder(first: seq<Slot>, second: seq<Slot>, depth: nat)
    requires InOrder(first, depth) && InOrder(second, depth)
    requires forall s, t :: s in first && t in second ==> OneBeforeOther(s, t, depth)
    ensures InOrder(first + second, depth)
  {
    var slots := first + second;
    forall i, j | 0 <= i < j < |slots| ensures OneBeforeOther(slots[i], slots[j], depth) {
      if j < |first| {
        assert slots[i] == first[i] && slots[j] == first[j];
      } else if i >= |first| {
        assert slots[i] == second[i - |first|] && slots[j] == second[j - |first|];
      } else {
        assert slots[i] in first && slots[j] in second;
      }
    }
  }

  /** Every slot of a struct sits at a path to a field with a column, and they come in the order of Precedes. */
  lemma {:induction false} AllSlotsMean(fields: seq<Field>, path: Path)
    ensures forall s :: s in AllSlots(fields, path) ==> IsSlotOf(fields, path, s)
    ensures InOrder(AllSlots(fields, path), |path|)
    decreases fields, |fields| + 1
  {
    DirectMean(fields, |fields|, path);
    NestedMean(fields, |fields|, path);
    var direct, nested := Direct(fields, |fields|, path), Nested(fields, |fields|, path);
    forall s, t | s in direct && t in nested ensures OneBeforeOther(s, t, |path|) {
      assert s.path[|path|..][0] == s.path[|path|] && t.path[|path|..][0] == t.path[|path|];
      PartingPaths(s.path, t.path, |path|);
    }
    JoinInOrder(direct, nested, |path|);
  }

  lemma {:induction false} DirectHas(fields: seq<Field>, n: nat, path: Path, k: nat)
    requires k < n <= |fields| && HasColumn(fields[k])
    ensures Slot(fields[k].col, path + [k], EncodingOf(fields[k].ftype)) in Direct(fields, n, path)
  {
    if k < n - 1 {
      DirectHas(fields, n - 1, path, k);
    }
  }

  lemma {:induction false} NestedHas(fields: seq<Field>, n: nat, path: Path, k: nat, s: Slot)
    requires k < n <= |fields| && s in NestedOf(fields[k], path + [k])
    ensures s in Nested(fields, n, path)
  {
    if k < n - 1 {
      NestedHas(fields, n - 1, path, k, s);
    }
  }

  /** Every path to a field with a column has its slot. */
  lemma {:induction false} EverySlotPathComesUp(fields: seq<Field>, path: Path, rest: Path) returns (s: Slot)
    requires IsColumnPath(fields, rest)
    ensures s in AllSlots(fields, path) && s.path == path + rest
    decreases |rest|
  {
    var k := rest[0];
    if |rest| == 1 {
      DirectHas(fields, |fields|, path, k);
      s := Slot(fields[k].col, path + [k], EncodingOf(fields[k].ftype));
      assert rest == [k];
    } else {
      s := EverySlotPathComesUp(fields[k].ftype.fields, path + [k], rest[1..]);
      NestedHas(fields, |fields|, path, k, s);
      assert path + [k] + rest[1..] == path + rest;
    }
  }

  // ── First occurrences ──

  function Columns(slots: seq<Slot>): set<string> {
    set s | s in slots :: s.col
  }

  /** The slots whose column no earlier slot has. */
  function FirstOccurrences(slots: seq<Slot>): seq<Slot> {
    if slots == [] then []
    else
      var init, last := slots[..|slots| - 1], slots[|slots| - 1];
      FirstOccurrences(init) + if last.col in Columns(init) then [] else [last]
  }

  lemma OneMoreSlot(slots: seq<Slot>, slot: Slot)
    ensures FirstOccurrences(slots + [slot])
         == if slot.col in Columns(slots) then FirstOccurrences(slots) else FirstOccurrences(slots) + [slot]
    ensures Columns(slots + [slot]) == Columns(slots) + {slot.col}
  {
    assert (slots + [slot])[..|slots|] == slots;
    forall col | col in Columns(slots) ensures col in Columns(slots + [slot]) {
      var s :| s in slots && s.col == col;
      assert s in slots + [slot];
    }
    assert slot in slots + [slot];
  }

  /** No earlier slot has the column of the slot at p. */
  predicate IsFirst(slots: seq<Slot>, p: nat)
    requires p < |slots|
  {
    forall j :: 0 <= j < p ==> slots[j].col != slots[p].col
  }

  /** What the first occurrences are: the slots at exactly those positions that are first with their column,
      in order. */
  lemma {:induction false} FirstOccurrencesMean(slots: seq<Slot>) returns (positions: seq<nat>)
    ensures var kept := FirstOccurrences(slots);
            && |positions| == |kept|
            && (forall i :: 0 <= i < |kept| ==> positions[i] < |slots| && kept[i] == slots[positions[i]])
            && (forall i, j :: 0 <= i < j < |kept| ==> positions[i] < positions[j])
            && (forall p: nat :: p in positions <==> p < |slots| && IsFirst(slots, p))
  {
    positions := [];
    if slots != [] {
      var init, last := slots[..|slots| - 1], slots[|slots| - 1];
      var before := FirstOccurrencesMean(init);
      positions := before + if last.col in Columns(init) then [] else [|init|];
      assert last.col in Columns(init) <==> exists j :: 0 <= j < |init| && init[j].col == last.col by {
        if last.col in Columns(init) {
          var s :| s in init && s.col == last.col;
        }
      }
      forall p: nat ensures p in positions <==> p < |slots| && IsFirst(slots, p) {
        assert p in positions <==> p in before || (last.col !in Columns(init) && p == |init|);
        if p < |init| {
          assert IsFirst(init, p) <==> IsFirst(slots, p);
        }
      }
    }
  }

  /** Each column comes up once among the first occurrences. */
  lemma ColumnsOnce(slots: seq<Slot>, i: nat, j: nat)
    requires i < j < |FirstOccurrences(slots)|
    ensures FirstOccurrences(slots)[i].col != FirstOccurrences(slots)[j].col
  {
    var positions := FirstOccurrencesMean(slots);
    assert positions[j] in positions;
    assert IsFirst(slots, positions[j]);
  }

  // ── The two walks ──

  /** A value to save: the field it is read from and how it is turned into a cell. */
  datatype Arg = Arg(path: Path, encoding: Encoding)

  /** A place to scan into; the source keeps one flag for JSON and one for times. */
  datatype ScanEntry = ScanEntry(path: Path, json: bool, timeField: bool)

  function IsJSONType(t: FieldType): bool {
    t.StructType? || t.JsonType?
  }

  function IsTimeField(t: FieldType): bool {
    t.TimeType? || t.TimePtrType?
  }

  function ColumnsIn(slots: seq<Slot>): seq<string> {
    seq(|slots|, i requires 0 <= i < |slots| => slots[i].col)
  }

  function ArgsOf(slots: seq<Slot>): seq<Arg> {
    seq(|slots|, i requires 0 <= i < |slots| => Arg(slots[i].path, slots[i].encoding))
  }

  function EntryOf(s: Slot): ScanEntry {
    ScanEntry(s.path, s.encoding.AsJson?, s.encoding.AsTime?)
  }

  function EntriesOf(slots: seq<Slot>): seq<ScanEntry> {
    seq(|slots|, i requires 0 <= i < |slots| => EntryOf(slots[i]))
  }

  /** Columns and values that are those of the slots, position by position. */
  predicate Lists(cols: seq<string>, args: seq<Arg>, slots: seq<Slot>) {
    && |cols| == |slots| == |args|
    && forall i :: 0 <= i < |slots| ==> cols[i] == slots[i].col && args[i] == Arg(slots[i].path, slots[i].encoding)
  }

  predicate Targets(entries: seq<ScanEntry>, slots: seq<Slot>) {
    |entries| == |slots| && forall i :: 0 <= i < |slots| ==> entries[i] == EntryOf(slots[i])
  }

  lemma ListsGrow(cols: seq<string>, args: seq<Arg>, slots: seq<Slot>, slot: Slot)
    requires Lists(cols, args, slots)
    ensures Lists(cols + [slot.col], args + [Arg(slot.path, slot.encoding)], slots + [slot])
  {
  }

  lemma TargetsGrow(entries: seq<ScanEntry>, slots: seq<Slot>, slot: Slot)
    requires Targets(entries, slots)
    ensures Targets(entries + [EntryOf(slot)], slots + [slot])
  {
  }

  lemma Regroup(a: seq<Slot>, b: seq<Slot>, c: seq<Slot>)
    ensures (a + b) + c == a + (b + c)
  {
  }

  // ── What the walks must list, said of paths and fields alone ──

  /** Of all fields with its column, this one comes first. */
  ghost predicate ComesFirst(fields: seq<Field>, path: Path) {
    && IsColumnPath(fields, path)
    && forall q :: IsColumnPath(fields, q) && q != path && FieldAt(fields, q).col == FieldAt(fields, path).col ==>
                     Precedes(path, q)
  }

  /** Structs, maps, slices and pointers to structs are stored as JSON, times as times, anything else as it is. */
  predicate StoredAs(t: FieldType, e: Encoding) {
    && (t.StructType? || t.JsonType? ==> e == AsJson)
    && (t.TimeType? || t.TimePtrType? ==> e == AsTime)
    && (t.PlainType? ==> e == AsIs)
  }

  /** The paths of a list: exactly the fields that come first with their column, in order. */
  ghost predicate FirstPaths(fields: seq<Field>, paths: seq<Path>) {
    && (forall p :: p in paths <==> ComesFirst(fields, p))
    && (forall i, j :: 0 <= i < j < |paths| ==> Precedes(paths[i], paths[j]))
  }

  function ArgPaths(args: seq<Arg>): seq<Path> {
    seq(|args|, i requires 0 <= i < |args| => args[i].path)
  }

  function EntryPaths(entries: seq<ScanEntry>): seq<Path> {
    seq(|entries|, i requires 0 <= i < |entries| => entries[i].path)
  }

  function SlotPaths(slots: seq<Slot>): seq<Path> {
    seq(|slots|, i requires 0 <= i < |slots| => slots[i].path)
  }

  /** What StructFields is to return. */
  ghost predicate ListsColumns(fields: seq<Field>, cols: seq<string>, args: seq<Arg>) {
    && |cols| == |args| && FirstPaths(fields, ArgPaths(args))
    && (forall i :: 0 <= i < |args| ==>
          && IsColumnPath(fields, args[i].path) && cols[i] == FieldAt(fields, args[i].path).col
          && StoredAs(FieldAt(fields, args[i].path).ftype, args[i].encoding))
    && (forall c :: c in cols <==> exists p :: IsColumnPath(fields, p) && FieldAt(fields, p).col == c)
  }

  /** What ScanStruct is to scan into. */
  ghost predicate ListsTargets(fields: seq<Field>, entries: seq<ScanEntry>) {
    && FirstPaths(fields, EntryPaths(entries))
    && (forall i :: 0 <= i < |entries| ==>
          && IsColumnPath(fields, entries[i].path)
          && var t := FieldAt(fields, entries[i].path).ftype;
             && (entries[i].json <==> t.StructType? || t.JsonType?)
             && (entries[i].timeField <==> t.TimeType? || t.TimePtrType?))
  }

  function KeptSlots(fields: seq<Field>): seq<Slot> {
    FirstOccurrences(AllSlots(fields, []))
  }

  lemma SlotAt(fields: seq<Field>, q: nat)
    requires q < |AllSlots(fields, [])|
    ensures var s := AllSlots(fields, [])[q];
            && IsColumnPath(fields, s.path) && s.col == FieldAt(fields, s.path).col
            && s.encoding == EncodingOf(FieldAt(fields, s.path).ftype)
  {
    AllSlotsMean(fields, []);
    var s := AllSlots(fields, [])[q];
    assert IsSlotOf(fields, [], s) && s.path[0..] == s.path;
  }

  lemma SlotsInOrder(fields: seq<Field>, i: nat, j: nat)
    requires i < j < |AllSlots(fields, [])|
    ensures Precedes(AllSlots(fields, [])[i].path, AllSlots(fields, [])[j].path)
  {
    AllSlotsMean(fields, []);
    var s, t := AllSlots(fields, [])[i], AllSlots(fields, [])[j];
    assert OneBeforeOther(s, t, 0) && s.path[0..] == s.path && t.path[0..] == t.path;
  }

  lemma PositionOf(fields: seq<Field>, path: Path) returns (q: nat)
    requires IsColumnPath(fields, path)
    ensures q < |AllSlots(fields, [])| && AllSlots(fields, [])[q].path == path
  {
    var s := EverySlotPathComesUp(fields, [], path);
    assert [] + path == path;
    q :| 0 <= q < |AllSlots(fields, [])| && AllSlots(fields, [])[q] == s;
  }

  /** A slot is the first with its column exactly when its field comes first with it. */
  lemma FirstIsFirst(fields: seq<Field>, p: nat)
    requires p < |AllSlots(fields, [])|
    ensures IsFirst(AllSlots(fields, []), p) <==> ComesFirst(fields, AllSlots(fields, [])[p].path)
  {
    var slots := AllSlots(fields, []);
    SlotAt(fields, p);
    if IsFirst(slots, p) {
      forall q | IsColumnPath(fields, q) && q != slots[p].path && FieldAt(fields, q).col == slots[p].col
        ensures Precedes(slots[p].path, q) {
        var k := PositionOf(fields, q);
        SlotAt(fields, k);
        SlotsInOrder(fields, p, k);
      }
    }
    if ComesFirst(fields, slots[p].path) {
      forall j | 0 <= j < p ensures slots[j].col != slots[p].col {
        SlotAt(fields, j);
        SlotsInOrder(fields, j, p);
        NotBoth(slots[j].path, slots[p].path);
      }
    }
  }

  lemma {:induction false} NotBoth(p: Path, q: Path)
    ensures !(Precedes(p, q) && Precedes(q, p))
  {
    if p != [] && q != [] {
      NotBoth(p[1..], q[1..]);
    }
  }

  lemma KeptAt(fields: seq<Field>, i: nat)
    requires i < |KeptSlots(fields)|
    ensures var s := KeptSlots(fields)[i];
            && ComesFirst(fields, s.path) && s.col == FieldAt(fields, s.path).col
            && s.encoding == EncodingOf(FieldAt(fields, s.path).ftype)
  {
    var positions := FirstOccurrencesMean(AllSlots(fields, []));
    assert positions[i] in positions;
    FirstIsFirst(fields, positions[i]);
    SlotAt(fields, positions[i]);
  }

  lemma KeptHas(fields: seq<Field>, path: Path) returns (i: nat)
    requires ComesFirst(fields, path)
    ensures i < |KeptSlots(fields)| && KeptSlots(fields)[i].path == path
  {
    var q := PositionOf(fields, path);
    var positions := FirstOccurrencesMean(AllSlots(fields, []));
    FirstIsFirst(fields, q);
    i :| 0 <= i < |positions| && positions[i] == q;
  }

  lemma KeptInOrder(fields: seq<Field>, i: nat, j: nat)
    requires i < j < |KeptSlots(fields)|
    ensures Precedes(KeptSlots(fields)[i].path, KeptSlots(fields)[j].path)
  {
    var positions := FirstOccurrencesMean(AllSlots(fields, []));
    SlotsInOrder(fields, positions[i], positions[j]);
  }

  /** Every column has a field that comes first with it. */
  lemma {:induction false} KeptColumn(slots: seq<Slot>, q: nat) returns (i: nat)
    requires q < |slots|
    ensures i < |FirstOccurrences(slots)| && FirstOccurrences(slots)[i].col == slots[q].col
  {
    var positions := FirstOccurrencesMean(slots);
    if IsFirst(slots, q) {
      i :| 0 <= i < |positions| && positions[i] == q;
    } else {
      var k: nat :| k < q && slots[k].col == slots[q].col;
      i := KeptColumn(slots, k);
    }
  }

  /** The slots kept are exactly the fields that come first with their column, in order. */
  lemma KeptAreFirst(fields: seq<Field>)
    ensures FirstPaths(fields, SlotPaths(KeptSlots(fields)))
  {
    var kept := KeptSlots(fields);
    var paths := SlotPaths(kept);
    forall p ensures p in paths <==> ComesFirst(fields, p) {
      if p in paths {
        var i :| 0 <= i < |kept| && paths[i] == p;
        KeptAt(fields, i);
      }
      if ComesFirst(fields, p) {
        var i := KeptHas(fields, p);
        assert paths[i] == p;
      }
    }
    forall i, j | 0 <= i < j < |paths| ensures Precedes(paths[i], paths[j]) {
      KeptInOrder(fields, i, j);
    }
  }

  lemma ListedColumns(fields: seq<Field>, cols: seq<string>, args: seq<Arg>)
    requires Lists(cols, args, KeptSlots(fields))
    ensures ListsColumns(fields, cols, args)
  {
    var kept := KeptSlots(fields);
    KeptAreFirst(fields);
    assert ArgPaths(args) == SlotPaths(kept);
    forall i | 0 <= i < |args|
      ensures IsColumnPath(fields, args[i].path) && cols[i] == FieldAt(fields, args[i].path).col
              && StoredAs(FieldAt(fields, args[i].path).ftype, args[i].encoding) {
      KeptAt(fields, i);
    }
    forall c ensures c in cols <==> exists p :: IsColumnPath(fields, p) && FieldAt(fields, p).col == c {
      if c in cols {
        var i :| 0 <= i < |cols| && cols[i] == c;
        assert IsColumnPath(fields, args[i].path);
      }
      if p :| IsColumnPath(fields, p) && FieldAt(fields, p).col == c {
        var q := PositionOf(fields, p);
        SlotAt(fields, q);
        var i := KeptColumn(AllSlots(fields, []), q);
        assert cols[i] == c;
      }
    }
  }

  lemma ListedTargets(fields: seq<Field>, entries: seq<ScanEntry>)
    requires Targets(entries, KeptSlots(fields))
    ensures ListsTargets(fields, entries)
  {
    KeptAreFirst(fields);
    assert EntryPaths(entries) == SlotPaths(KeptSlots(fields));
    forall i | 0 <= i < |entries|
      ensures && IsColumnPath(fields, entries[i].path)
              && var t := FieldAt(fields, entries[i].path).ftype;
                 && (entries[i].json <==> t.StructType? || t.JsonType?)
                 && (entries[i].timeField <==> t.TimeType? || t.TimePtrType?) {
      KeptAt(fields, i);
    }
  }

  /** The walk that lists columns and values. */
  class FieldCollector {
    var cols: seq<string>
    var args: seq<Arg>
    var seen: set<string>
    ghost var walked: seq<Slot>  // every slot come by so far, kept or not

    ghost predicate Valid()
      reads this
    {
      Lists(cols, args, FirstOccurrences(walked)) && seen == Columns(walked)
    }

    /** The walk comes by a slot whose column is new, and keeps it. */
    lemma Keeps(slot: Slot)
      requires Valid() && slot.col !in seen
      ensures var all := walked + [slot];
              && Lists(cols + [slot.col], args + [Arg(slot.path, slot.encoding)], FirstOccurrences(all))
              && Columns(all) == seen + {slot.col}
    {
      OneMoreSlot(walked, slot);
      ListsGrow(cols, args, FirstOccurrences(walked), slot);
    }

    /** The walk comes by a slot whose column it has, and skips it. */
    lemma Skips(slot: Slot)
      requires Valid() && slot.col in seen
      ensures var all := walked + [slot];
              Lists(cols, args, FirstOccurrences(all)) && Columns(all) == seen
    {
      OneMoreSlot(walked, slot);
    }

    constructor ()
      ensures Valid() && walked == []
    {
      cols, args, seen, walked := [], [], {}, [];
    }

    method CollectFields(fields: seq<Field>, path: Path)
      requires Valid()
      modifies this
      ensures Valid() && walked == old(walked) + AllSlots(fields, path)
      decreases fields, 1
    {
      CollectDirect(fields, path);
      CollectNested(fields, path);
      Regroup(old(walked), Direct(fields, |fields|, path), Nested(fields, |fields|, path));
    }

    /** The first pass: the struct's own fields. */
    method CollectDirect(fields: seq<Field>, path: Path)
      requires Valid()
      modifies this
      ensures Valid() && walked == old(walked) + Direct(fields, |fields|, path)
    {
      for i := 0 to |fields|
        invariant Valid() && walked == old(walked) + Direct(fields, i, path)
      {
        Visit(fields[i], path + [i]);
        Regroup(old(walked), Direct(fields, i, path), SlotOf(fields[i], path + [i]));
      }
    }

    method Visit(f: Field, path: Path)
      requires Valid()
      modifies this
      ensures Valid() && walked == old(walked) + SlotOf(f, path)
    {
      if !f.exported || f.anonymous || f.col == "" || f.col == "-" {
        return;
      }
      ghost var slot := Slot(f.col, path, EncodingOf(f.ftype));
      if f.col in seen {
        Skips(slot);
        walked := walked + [slot];
        return;
      }
      Keeps(slot);
      walked := walked + [slot];
      seen := seen + {f.col};
      cols := cols + [f.col];
      if IsJSONType(f.ftype) {
        args := args + [Arg(path, AsJson)];
      } else if f.ftype.TimeType? {
        args := args + [Arg(path, AsTime)];
      } else if f.ftype.TimePtrType? {
        args := args + [Arg(path, AsTime)];
      } else {
        args := args + [Arg(path, AsIs)];
      }
    }

    /** The second pass: into the embedded structs. */
    method CollectNested(fields: seq<Field>, path: Path)
      requires Valid()
      modifies this
      ensures Valid() && walked == old(walked) + Nested(fields, |fields|, path)
      decreases fields, 0
    {
      for i := 0 to |fields|
        invariant Valid() && walked == old(walked) + Nested(fields, i, path)
      {
        VisitEmbedded(fields[i], path + [i]);
        Regroup(old(walked), Nested(fields, i, path), NestedOf(fields[i], path + [i]));
      }
    }

    method VisitEmbedded(f: Field, path: Path)
      requires Valid()
      modifies this
      ensures Valid() && walked == old(walked) + NestedOf(f, path)
      decreases f
    {
      if f.exported && f.anonymous && f.ftype.StructType? {
        CollectFields(f.ftype.fields, path);
      }
    }
  }

  /** The walk that lists scan targets. */
  class ScanCollector {
    var entries: seq<ScanEntry>
    var seen: set<string>
    ghost var walked: seq<Slot>  // every slot come by so far, kept or not

    ghost predicate Valid()
      reads this
    {
      Targets(entries, FirstOccurrences(walked)) && seen == Columns(walked)
    }

    /** The walk comes by a slot whose column is new, and keeps it. */
    lemma Keeps(slot: Slot)
      requires Valid() && slot.col !in seen
      ensures var all := walked + [slot];
              && Targets(entries + [EntryOf(slot)], FirstOccurrences(all))
              && Columns(all) == seen + {slot.col}
    {
      OneMoreSlot(walked, slot);
      TargetsGrow(entries, FirstOccurrences(walked), slot);
    }

    /** The walk comes by a slot whose column it has, and skips it. */
    lemma Skips(slot: Slot)
      requires Valid() && slot.col in seen
      ensures var all := walked + [slot];
              Targets(entries, FirstOccurrences(all)) && Columns(all) == seen
    {
      OneMoreSlot(walked, slot);
    }

    constructor ()
      ensures Valid() && walked == []
    {
      entries, seen, walked := [], {}, [];
    }

    method CollectScanFields(fields: seq<Field>, path: Path)
      requires Valid()
      modifies this
      ensures Valid() && walked == old(walked) + AllSlots(fields, path)
      decreases fields, 1
    {
      CollectDirect(fields, path);
      CollectNested(fields, path);
      Regroup(old(walked), Direct(fields, |fields|, path), Nested(fields, |fields|, path));
    }

    /** The first pass: the struct's own fields. */
    method CollectDirect(fields: seq<Field>, path: Path)
      requires Valid()
      modifies this
      ensures Valid() && walked == old(walked) + Direct(fields, |fields|, path)
    {
      for i := 0 to |fields|
        invariant Valid() && walked == old(walked) + Direct(fields, i, path)
      {
        Visit(fields[i], path + [i]);
        Regroup(old(walked), Direct(fields, i, path), SlotOf(fields[i], path + [i]));
      }
    }

    method Visit(f: Field, path: Path)
      requires Valid()
      modifies this
      ensures Valid() && walked == old(walked) + SlotOf(f, path)
    {
      if !f.exported || f.anonymous || f.col == "" || f.col == "-" {
        return;
      }
      ghost var slot := Slot(f.col, path, EncodingOf(f.ftype));
      if f.col in seen {
        Skips(slot);
        walked := walked + [slot];
        return;
      }
      Keeps(slot);
      walked := walked + [slot];
      seen := seen + {f.col};
      if IsJSONType(f.ftype) {
        entries := entries + [ScanEntry(path, true, false)];
      } else if IsTimeField(f.ftype) {
        entries := entries + [ScanEntry(path, false, true)];
      } else {
        entries := entries + [ScanEntry(path, false, false)];
      }
    }

    /** The second pass: into the embedded structs. */
    method CollectNested(fields: seq<Field>, path: Path)
      requires Valid()
      modifies this
      ensures Valid() && walked == old(walked) + Nested(fields, |fields|, path)
      decreases fields, 0
    {
      for i := 0 to |fields|
        invariant Valid() && walked == old(walked) + Nested(fields, i, path)
      {
        VisitEmbedded(fields[i], path + [i]);
        Regroup(old(walked), Nested(fields, i, path), NestedOf(fields[i], path + [i]));
      }
    }

    method VisitEmbedded(f: Field, path: Path)
      requires Valid()
      modifies this
      ensures Valid() && walked == old(walked) + NestedOf(f, path)
      decreases f
    {
      if f.exported && f.anonymous && f.ftype.StructType? {
        CollectScanFields(f.ftype.fields, path);
      }
    }
  }

  /** Columns and values of a struct. */
  method StructFields(fields: seq<Field>) returns (cols: seq<string>, args: seq<Arg>)
    ensures Lists(cols, args, KeptSlots(fields))
    ensures ListsColumns(fields, cols, args)
  {
    var c := new FieldCollector();
    c.CollectFields(fields, []);
    assert [] + AllSlots(fields, []) == AllSlots(fields, []);
    cols, args := c.cols, c.args;
    ListedColumns(fields, cols, args);
  }

  method ScanTargets(fields: seq<Field>) returns (entries: seq<ScanEntry>)
    ensures Targets(entries, KeptSlots(fields))
    ensures ListsTargets(fields, entries)
  {
    var c := new ScanCollector();
    c.CollectScanFields(fields, []);
    assert [] + AllSlots(fields, []) == AllSlots(fields, []);
    entries := c.entries;
    ListedTargets(fields, entries);
  }

  // ── Saving and reading back ──

  /** A stored cell: the value of a field in one of three encodings. */
  datatype Cell<V> = Cell(encoding: Encoding, value: V)

  /** How a scan target reads a cell. */
  function DecodingOf(e: ScanEntry): Encoding {
    if e.json then AsJson else if e.timeField then AsTime else AsIs
  }

  /** No two slots of a struct share a path. */
  predicate DistinctPaths(slots: seq<Slot>) {
    forall i, j :: 0 <= i < j < |slots| ==> slots[i].path != slots[j].path
  }

  /** All paths of the slots go through the child at index k of `path`, for some k in the range. */
  predicate Below(slots: seq<Slot>, path: Path, lo: nat, hi: nat) {
    forall s :: s in slots ==> |s.path| > |path| && path <= s.path && lo <= s.path[|path|] < hi
  }

  /** No field is come by twice, and each is reached through one of the struct's own. */
  lemma AllPaths(fields: seq<Field>, path: Path)
    ensures DistinctPaths(AllSlots(fields, path)) && Below(AllSlots(fields, path), path, 0, |fields|)
  {
    var slots := AllSlots(fields, path);
    AllSlotsMean(fields, path);
    forall i, j | 0 <= i < j < |slots| ensures slots[i].path != slots[j].path {
      assert OneBeforeOther(slots[i], slots[j], |path|);
      NotBoth(slots[i].path[|path|..], slots[i].path[|path|..]);
    }
    forall s | s in slots ensures |s.path| > |path| && s.path[|path|] < |fields| {
      assert IsSlotOf(fields, path, s);
      assert s.path[|path|..][0] == s.path[|path|];
    }
  }

  /** The row an INSERT stores: each column with its value's cell. Later columns would overwrite equal
      earlier ones. */
  function Row<V>(cols: seq<string>, args: seq<Arg>, entity: Path -> V): map<string, Cell<V>>
    requires |cols| == |args|
  {
    if cols == [] then map[]
    else
      var last := |cols| - 1;
      Row(cols[..last], args[..last], entity)[cols[last] := Cell(args[last].encoding, entity(args[last].path))]
  }

  /** What a scan leaves in the fields: each target filled from the cell at its position, with the decoding
      it applies. */
  function Scanned<V>(entries: seq<ScanEntry>, cells: seq<Cell<V>>): map<Path, (Cell<V>, Encoding)>
    requires |entries| == |cells|
  {
    if entries == [] then map[]
    else
      var last := |entries| - 1;
      Scanned(entries[..last], cells[..last])[entries[last].path := (cells[last], DecodingOf(entries[last]))]
  }

  lemma {:induction false} RowHolds<V>(cols: seq<string>, args: seq<Arg>, entity: Path -> V, i: nat)
    requires |cols| == |args| && i < |cols|
    requires forall j, k :: 0 <= j < k < |cols| ==> cols[j] != cols[k]
    ensures cols[i] in Row(cols, args, entity)
    ensures Row(cols, args, entity)[cols[i]] == Cell(args[i].encoding, entity(args[i].path))
  {
    var last := |cols| - 1;
    if i < last {
      RowHolds(cols[..last], args[..last], entity, i);
    }
  }

  lemma {:induction false} ScannedHolds<V>(entries: seq<ScanEntry>, cells: seq<Cell<V>>, i: nat)
    requires |entries| == |cells| && i < |entries|
    requires forall j, k :: 0 <= j < k < |entries| ==> entries[j].path != entries[k].path
    ensures entries[i].path in Scanned(entries, cells)
    ensures Scanned(entries, cells)[entries[i].path] == (cells[i], DecodingOf(entries[i]))
  {
    var last := |entries| - 1;
    if i < last {
      ScannedHolds(entries[..last], cells[..last], i);
    }
  }

  lemma {:induction false} ScannedFrom<V>(entries: seq<ScanEntry>, cells: seq<Cell<V>>, p: Path) returns (i: nat)
    requires |entries| == |cells| && p in Scanned(entries, cells)
    ensures i < |entries| && entries[i].path == p
  {
    i := |entries| - 1;
    if entries[i].path != p {
      i := ScannedFrom(entries[..i], cells[..i], p);
    }
  }

  lemma KeptPathsDistinct(slots: seq<Slot>)
    requires DistinctPaths(slots)
    ensures DistinctPaths(FirstOccurrences(slots))
  {
    var positions := FirstOccurrencesMean(slots);
  }

  /** The cells of the slots, in order. */
  function CellsOf<V>(slots: seq<Slot>, entity: Path -> V): seq<Cell<V>> {
    seq(|slots|, i requires 0 <= i < |slots| => Cell(slots[i].encoding, entity(slots[i].path)))
  }

  lemma RowHoldsCells<V>(slots: seq<Slot>, entity: Path -> V, i: nat)
    requires i < |slots|
    requires forall j, k :: 0 <= j < k < |slots| ==> slots[j].col != slots[k].col
    ensures var row := Row(ColumnsIn(slots), ArgsOf(slots), entity);
            slots[i].col in row && row[slots[i].col] == CellsOf(slots, entity)[i]
  {
    RowHolds(ColumnsIn(slots), ArgsOf(slots), entity, i);
  }

  lemma ScannedHoldsCells<V>(slots: seq<Slot>, entity: Path -> V)
    requires DistinctPaths(slots)
    ensures var scanned := Scanned(EntriesOf(slots), CellsOf(slots, entity));
            && (forall s :: s in slots ==>
                  s.path in scanned && scanned[s.path] == (Cell(s.encoding, entity(s.path)), s.encoding))
            && (forall p :: p in scanned ==> exists s :: s in slots && s.path == p)
  {
    var entries, cells := EntriesOf(slots), CellsOf(slots, entity);
    var scanned := Scanned(entries, cells);
    forall s | s in slots
      ensures s.path in scanned && scanned[s.path] == (Cell(s.encoding, entity(s.path)), s.encoding) {
      var i :| 0 <= i < |slots| && slots[i] == s;
      ScannedHolds(entries, cells, i);
      assert entries[i] == EntryOf(s);
    }
    forall p | p in scanned ensures exists s :: s in slots && s.path == p {
      var i := ScannedFrom(entries, cells, p);
      assert slots[i] in slots && slots[i].path == p;
    }
  }

  /** The row read back through the column list: the cell under each listed column. */
  function Fetched<V>(cols: seq<string>, row: map<string, Cell<V>>): seq<Cell<V>>
    requires forall i :: 0 <= i < |cols| ==> cols[i] in row
  {
    seq(|cols|, i requires 0 <= i < |cols| => row[cols[i]])
  }

  lemma ListsAre(cols: seq<string>, args: seq<Arg>, slots: seq<Slot>)
    requires Lists(cols, args, slots)
    ensures cols == ColumnsIn(slots) && args == ArgsOf(slots)
  {
  }

  lemma TargetsAre(entries: seq<ScanEntry>, slots: seq<Slot>)
    requires Targets(entries, slots)
    ensures entries == EntriesOf(slots)
  {
  }

  /** Reading a row saved from some slots back fills exactly their fields, each from the cell its own value
      went into, decoded the way it was encoded. */
  ghost predicate ComesBack<V>(slots: seq<Slot>, entity: Path -> V, scanned: map<Path, (Cell<V>, Encoding)>) {
    && (forall s :: s in slots ==>
          s.path in scanned && scanned[s.path] == (Cell(s.encoding, entity(s.path)), s.encoding))
    && (forall p :: p in scanned ==> exists s :: s in slots && s.path == p)
  }

  /** For every struct shape, whatever lists its columns and targets correctly. */
  lemma SavedFieldsComeBack<V>(fields: seq<Field>, cols: seq<string>, args: seq<Arg>, entries: seq<ScanEntry>,
                               entity: Path -> V)
    requires Lists(cols, args, KeptSlots(fields)) && Targets(entries, KeptSlots(fields))
    ensures var row := Row(cols, args, entity);
            && (forall i :: 0 <= i < |cols| ==> cols[i] in row)
            && ComesBack(KeptSlots(fields), entity, Scanned(entries, Fetched(cols, row)))
  {
    var kept := KeptSlots(fields);
    ListsAre(cols, args, kept);
    TargetsAre(entries, kept);
    AllPaths(fields, []);
    KeptPathsDistinct(AllSlots(fields, []));
    forall j, k | 0 <= j < k < |kept| ensures kept[j].col != kept[k].col {
      ColumnsOnce(AllSlots(fields, []), j, k);
    }
    var row := Row(cols, args, entity);
    forall i | 0 <= i < |cols| ensures cols[i] in row && row[cols[i]] == CellsOf(kept, entity)[i] {
      RowHoldsCells(kept, entity, i);
    }
    assert Fetched(cols, row) == CellsOf(kept, entity);
    ScannedHoldsCells(kept, entity);
  }

  lemma FirstComeBack<V>(fields: seq<Field>, entity: Path -> V, scanned: map<Path, (Cell<V>, Encoding)>)
    requires ComesBack(KeptSlots(fields), entity, scanned)
    ensures forall p :: p in scanned <==> ComesFirst(fields, p)
    ensures forall p :: p in scanned ==>
              && scanned[p].0 == Cell(scanned[p].1, entity(p))
              && IsColumnPath(fields, p) && StoredAs(FieldAt(fields, p).ftype, scanned[p].1)
  {
    var kept := KeptSlots(fields);
    forall p | p in scanned
      ensures ComesFirst(fields, p) && scanned[p].0 == Cell(scanned[p].1, entity(p))
              && StoredAs(FieldAt(fields, p).ftype, scanned[p].1) {
      var i :| 0 <= i < |kept| && kept[i].path == p;
      KeptAt(fields, i);
      assert kept[i] in kept;
    }
    forall p | ComesFirst(fields, p) ensures p in scanned {
      var i := KeptHas(fields, p);
      assert kept[i] in kept;
    }
  }

  /** Saving an entity and scanning the row into a fresh one: exactly the fields that come first with their column
      are filled, each with its own value, decoded the way it was encoded. */
  method SaveThenScan<V>(fields: seq<Field>, entity: Path -> V) returns (scanned: map<Path, (Cell<V>, Encoding)>)
    ensures ComesBack(KeptSlots(fields), entity, scanned)
    ensures forall p :: p in scanned <==> ComesFirst(fields, p)
    ensures forall p :: p in scanned ==>
              && scanned[p].0 == Cell(scanned[p].1, entity(p))
              && IsColumnPath(fields, p) && StoredAs(FieldAt(fields, p).ftype, scanned[p].1)
  {
    var cols, args := StructFields(fields);
    var entries := ScanTargets(fields);
    SavedFieldsComeBack(fields, cols, args, entries, entity);
    scanned := Scanned(entries, Fetched(cols, Row(cols, args, entity)));
    FirstComeBack(fields, entity, scanned);
  }
}
