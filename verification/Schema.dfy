/** The lightweight JSON Schema validator, what it accepts, and where that is JSON Schema
    Validation draft-07. */
module Schema {
  import opened Common

  /** A decoded value as the validator tells them apart. Int is Go's int and int64; Other is any Go
      type the validator has no case for. Floats are finite. */
  datatype Value =
    | Null
    | Bool(b: bool)
    | Str(s: string)
    | Int(i: int)
    | Float64(f: real)
    | Float32(g: real)
    | Arr(items: seq<Value>)
    | Obj(fields: map<string, Value>)
    | Other

  /** A schema is a JSON object. */
  type SchemaObj = v: Value | v.Obj? witness Obj(map[])

  datatype Place = Field(name: string) | Item(index: nat)

  datatype Problem = WrongType(expected: string) | NotIntegral | NotAnObject | MissingField(name: string)

  datatype Violation = Violation(path: seq<Place>, problem: Problem)

  const MIN_INT64 := -0x8000_0000_0000_0000
  const MAX_INT64 := 0x7fff_ffff_ffff_ffff

  function Truncated(f: real): int {
    if f >= 0.0 then f.Floor else -((-f).Floor)
  }

  /** Conversion of a float to int64 on amd64: truncation, or the least integer when out of range. */
  function ToInt64(f: real): int {
    var t := Truncated(f);
    if MIN_INT64 <= t <= MAX_INT64 then t else MIN_INT64
  }

  // ── Reading a schema ──

  function StringAt(schema: SchemaObj, keyword: string): Option<string> {
    if keyword in schema.fields && schema.fields[keyword].Str? then Some(schema.fields[keyword].s) else None
  }

  function ListAt(schema: SchemaObj, keyword: string): Option<seq<Value>> {
    if keyword in schema.fields && schema.fields[keyword].Arr? then Some(schema.fields[keyword].items) else None
  }

  function ObjAt(schema: SchemaObj, keyword: string): (r: Option<SchemaObj>)
    ensures r.Some? ==> r.value < schema
  {
    if keyword in schema.fields && schema.fields[keyword].Obj? then Some(schema.fields[keyword]) else None
  }

  // ── The validator ──

  /** The order in which a map's keys come up; any order that covers them. */
  type Walk = set<string> -> seq<string>

  ghost predicate Covers(walk: Walk) {
    forall keys: set<string>, k: string :: k in walk(keys) <==> k in keys
  }

  function ValidateJSONSchema(schema: Option<SchemaObj>, value: Value, walk: Walk): Option<Violation> {
    if schema.None? then None else ValidateNode(schema.value, value, [], walk)
  }

  function ValidateNode(schema: SchemaObj, value: Value, path: seq<Place>, walk: Walk): Option<Violation>
    decreases schema, 3
  {
    var t := StringAt(schema, "type");
    var typeError := if t.Some? then CheckType(t.value, value, path) else None;
    if typeError.Some? then typeError
    else if t == Some("object") then ValidateObject(schema, value, path, walk)
    else if t == Some("array") then ValidateArray(schema, value, path, walk)
    else if ListAt(schema, "required").Some? then
      if !value.Obj? then Some(Violation(path, NotAnObject))
      else CheckRequired(ListAt(schema, "required").value, value, path)
    else None
  }

  function CheckType(expected: string, value: Value, path: seq<Place>): Option<Violation> {
    var wrong := Some(Violation(path, WrongType(expected)));
    if value.Null? && expected != "null" then wrong
    else if expected == "object" then (if value.Obj? then None else wrong)
    else if expected == "array" then (if value.Arr? then None else wrong)
    else if expected == "string" then (if value.Str? then None else wrong)
    else if expected == "number" then (if value.Float64? || value.Int? || value.Float32? then None else wrong)
    else if expected == "boolean" then (if value.Bool? then None else wrong)
    else if expected == "integer" then
      if value.Float64? && value.f != ToInt64(value.f) as real then Some(Violation(path, NotIntegral))
      else if value.Int? || value.Float64? then None
      else wrong
    else None
  }

  function ValidateObject(schema: SchemaObj, value: Value, path: seq<Place>, walk: Walk): Option<Violation>
    decreases schema, 2
  {
    if !value.Obj? then Some(Violation(path, WrongType("object")))
    else
      var props := ObjAt(schema, "properties");
      var childError :=
        if props.Some? then ValidateProperties(schema, props.value, walk(props.value.fields.Keys), value, path, walk) else None;
      if childError.Some? then childError
      else if ListAt(schema, "required").Some? then CheckRequired(ListAt(schema, "required").value, value, path)
      else None
  }

  /** The loop over the declared properties, in the order given. */
  function ValidateProperties(ghost schema: SchemaObj, props: SchemaObj, keys: seq<string>, value: Value,
                              path: seq<Place>, walk: Walk): Option<Violation>
    requires props < schema && value.Obj?
    decreases schema, 1, |keys|
  {
    if keys == [] then None
    else
      var key := keys[0];
      if key in props.fields && props.fields[key].Obj? && key in value.fields then
        var error := ValidateNode(props.fields[key], value.fields[key], path + [Field(key)], walk);
        if error.Some? then error else ValidateProperties(schema, props, keys[1..], value, path, walk)
      else ValidateProperties(schema, props, keys[1..], value, path, walk)
  }

  function CheckRequired(required: seq<Value>, value: Value, path: seq<Place>): Option<Violation>
    requires value.Obj?
  {
    if required == [] then None
    else if required[0].Str? && required[0].s !in value.fields then Some(Violation(path, MissingField(required[0].s)))
    else CheckRequired(required[1..], value, path)
  }

  function ValidateArray(schema: SchemaObj, value: Value, path: seq<Place>, walk: Walk): Option<Violation>
    decreases schema, 2
  {
    if !value.Arr? then Some(Violation(path, WrongType("array")))
    else
      var item := ObjAt(schema, "items");
      if item.Some? then ValidateItems(schema, item.value, value.items, 0, path, walk) else None
  }

  function ValidateItems(ghost schema: SchemaObj, item: SchemaObj, items: seq<Value>, i: nat,
                         path: seq<Place>, walk: Walk): Option<Violation>
    requires item < schema && i <= |items|
    decreases schema, 1, |items| - i
  {
    if i == |items| then None
    else
      var error := ValidateNode(item, items[i], path + [Item(i)], walk);
      if error.Some? then error else ValidateItems(schema, item, items, i + 1, path, walk)
  }

  // ── What the validator accepts ──

  /** The values a type name lets through. "null", and any name the validator does not know, lets
      everything through, except that only "null" lets null through. */
  predicate TypeAllows(expected: string, value: Value) {
    match value
    case Null => expected == "null"
    case Bool(_) => expected !in {"object", "array", "string", "number", "integer"}
    case Str(_) => expected !in {"object", "array", "number", "boolean", "integer"}
    case Int(_) => expected !in {"object", "array", "string", "boolean"}
    case Float64(f) => expected !in {"object", "array", "string", "boolean"} && (expected == "integer" ==> IsInt64(f))
    case Float32(_) => expected !in {"object", "array", "string", "boolean", "integer"}
    case Arr(_) => expected !in {"object", "string", "number", "boolean", "integer"}
    case Obj(_) => expected !in {"array", "string", "number", "boolean", "integer"}
    case Other => expected !in {"object", "array", "string", "number", "boolean", "integer"}
  }

  predicate IsIntegral(f: real) {
    f == f.Floor as real
  }

  /** An integral float that an int64 can hold. */
  predicate IsInt64(f: real) {
    IsIntegral(f) && MIN_INT64 as real <= f <= MAX_INT64 as real
  }

  /** The schema's type keyword is this name. */
  predicate HasType(schema: SchemaObj, name: string) {
    "type" in schema.fields && schema.fields["type"] == Str(name)
  }

  /** The required keyword is a list, and the object has every field that it names. */
  predicate HasRequired(schema: SchemaObj, value: Value)
    requires value.Obj?
  {
    "required" in schema.fields && schema.fields["required"].Arr? ==>
      forall r :: r in schema.fields["required"].items && r.Str? ==> r.s in value.fields
  }

  /** Acceptance, said of the keywords alone, without any order, path or first error. */
  predicate Accepts(schema: SchemaObj, value: Value)
    decreases schema
  {
    && ("type" in schema.fields && schema.fields["type"].Str? ==> TypeAllows(schema.fields["type"].s, value))
    && (HasType(schema, "object") ==>
          && value.Obj? && HasRequired(schema, value)
          && ("properties" in schema.fields && schema.fields["properties"].Obj? ==>
                var props := schema.fields["properties"].fields;
                forall k :: k in props && props[k].Obj? && k in value.fields ==> Accepts(props[k], value.fields[k])))
    && (HasType(schema, "array") ==>
          && value.Arr?
          && ("items" in schema.fields && schema.fields["items"].Obj? ==>
                forall i :: 0 <= i < |value.items| ==> Accepts(schema.fields["items"], value.items[i])))
    && (!HasType(schema, "object") && !HasType(schema, "array")
        && "required" in schema.fields && schema.fields["required"].Arr? ==>
          value.Obj? && HasRequired(schema, value))
  }

  lemma Int64RoundTrip(f: real)
    ensures f == ToInt64(f) as real <==> IsInt64(f)
  {
    var t := Truncated(f);
    if f < 0.0 {
      var g := -f;
      assert g.Floor as real <= g < g.Floor as real + 1.0;
    }
    if IsIntegral(f) {
      assert t as real == f;
    }
  }

  /** Where an integer is wanted, in numbers: a float passes exactly when it is integral and within 64 bits. */
  lemma FloatAsInteger(f: real, path: seq<Place>)
    ensures CheckType("integer", Float64(f), path) == None
       <==> f == f.Floor as real && -9223372036854775808.0 <= f <= 9223372036854775807.0
  {
    Int64RoundTrip(f);
  }

  lemma CheckTypeMeans(expected: string, value: Value, path: seq<Place>)
    ensures CheckType(expected, value, path) == None <==> TypeAllows(expected, value)
  {
    if value.Float64? {
      Int64RoundTrip(value.f);
    }
  }

  lemma {:induction false} CheckRequiredMeans(required: seq<Value>, value: Value, path: seq<Place>)
    requires value.Obj?
    ensures CheckRequired(required, value, path) == None <==>
              forall r :: r in required && r.Str? ==> r.s in value.fields
  {
    if required != [] {
      CheckRequiredMeans(required[1..], value, path);
      assert required == [required[0]] + required[1..];
    }
  }

  /** The validator finds no violation exactly on the accepted values, whatever order properties come up in
      and wherever the value sits. */
  lemma {:induction false} NoViolationIsAcceptance(schema: SchemaObj, value: Value, path: seq<Place>, walk: Walk)
    requires Covers(walk)
    ensures ValidateNode(schema, value, path, walk) == None <==> Accepts(schema, value)
    decreases schema, 2
  {
    var t := StringAt(schema, "type");
    if t.Some? {
      CheckTypeMeans(t.value, value, path);
    }
    var required := ListAt(schema, "required");
    if required.Some? && value.Obj? {
      CheckRequiredMeans(required.value, value, path);
    }
    if t == Some("object") && value.Obj? {
      var props := ObjAt(schema, "properties");
      if props.Some? {
        PropertiesMean(schema, props.value, walk(props.value.fields.Keys), value, path, walk);
      }
    } else if t == Some("array") && value.Arr? {
      var item := ObjAt(schema, "items");
      if item.Some? {
        ItemsMean(schema, item.value, value.items, 0, path, walk);
      }
    }
  }

  lemma {:induction false} PropertiesMean(schema: SchemaObj, props: SchemaObj, keys: seq<string>, value: Value,
                                          path: seq<Place>, walk: Walk)
    requires Covers(walk) && props < schema && value.Obj?
    ensures ValidateProperties(schema, props, keys, value, path, walk) == None <==>
              forall k :: k in keys && k in props.fields && props.fields[k].Obj? && k in value.fields ==>
                Accepts(props.fields[k], value.fields[k])
    decreases schema, 1, |keys|
  {
    if keys != [] {
      var key := keys[0];
      assert keys == [key] + keys[1..];
      PropertiesMean(schema, props, keys[1..], value, path, walk);
      if key in props.fields && props.fields[key].Obj? && key in value.fields {
        NoViolationIsAcceptance(props.fields[key], value.fields[key], path + [Field(key)], walk);
      }
    }
  }

  lemma {:induction false} ItemsMean(schema: SchemaObj, item: SchemaObj, items: seq<Value>, i: nat,
                                     path: seq<Place>, walk: Walk)
    requires Covers(walk) && item < schema && i <= |items|
    ensures ValidateItems(schema, item, items, i, path, walk) == None <==>
              forall j :: i <= j < |items| ==> Accepts(item, items[j])
    decreases schema, 1, |items| - i
  {
    if i < |items| {
      NoViolationIsAcceptance(item, items[i], path + [Item(i)], walk);
      ItemsMean(schema, item, items, i + 1, path, walk);
    }
  }

  /** The whole validation: everything passes without a schema, and with one exactly what it accepts. */
  lemma ValidatesExactlyAccepted(schema: Option<SchemaObj>, value: Value, walk: Walk)
    requires Covers(walk)
    ensures ValidateJSONSchema(schema, value, walk) == None <==> schema.None? || Accepts(schema.value, value)
  {
    if schema.Some? {
      NoViolationIsAcceptance(schema.value, value, [], walk);
    }
  }

  // ── The violation reported is one ──

  predicate IsProblem(schema: SchemaObj, value: Value, problem: Problem) {
    match problem
    case WrongType(t) => HasType(schema, t) && !TypeAllows(t, value)
    case NotIntegral => HasType(schema, "integer") && value.Float64? && !IsInt64(value.f)
    case NotAnObject => "required" in schema.fields && schema.fields["required"].Arr? && !value.Obj?
    case MissingField(name) =>
      "required" in schema.fields && schema.fields["required"].Arr? && Str(name) in schema.fields["required"].items
      && value.Obj? && name !in value.fields
  }

  /** Following the path through schema and value together leads to the problem. */
  predicate LeadsTo(schema: SchemaObj, value: Value, path: seq<Place>, problem: Problem)
    decreases |path|
  {
    if path == [] then IsProblem(schema, value, problem)
    else
      match path[0]
      case Field(k) =>
        && HasType(schema, "object") && value.Obj? && k in value.fields
        && "properties" in schema.fields && schema.fields["properties"].Obj?
        && var props := schema.fields["properties"].fields;
           k in props && props[k].Obj? && LeadsTo(props[k], value.fields[k], path[1..], problem)
      case Item(i) =>
        && HasType(schema, "array") && value.Arr? && i < |value.items|
        && "items" in schema.fields && schema.fields["items"].Obj?
        && LeadsTo(schema.fields["items"], value.items[i], path[1..], problem)
  }

  lemma {:induction false} CheckRequiredReports(required: seq<Value>, value: Value, path: seq<Place>)
    requires value.Obj? && CheckRequired(required, value, path).Some?
    ensures var v := CheckRequired(required, value, path).value;
            v.path == path && v.problem.MissingField? && Str(v.problem.name) in required
            && v.problem.name !in value.fields
  {
    if !(required[0].Str? && required[0].s !in value.fields) {
      CheckRequiredReports(required[1..], value, path);
    }
  }

  /** The path of a violation leads through the schema and the value to a place where it really is one. */
  lemma {:induction false} ReportedViolationIsReal(schema: SchemaObj, value: Value, path: seq<Place>, walk: Walk)
    requires ValidateNode(schema, value, path, walk).Some?
    ensures var v := ValidateNode(schema, value, path, walk).value;
            path <= v.path && LeadsTo(schema, value, v.path[|path|..], v.problem)
    decreases schema, 2
  {
    var v := ValidateNode(schema, value, path, walk).value;
    var t := StringAt(schema, "type");
    var required := ListAt(schema, "required");
    if t.Some? {
      CheckTypeMeans(t.value, value, path);
      if value.Float64? {
        Int64RoundTrip(value.f);
      }
    }
    if t.Some? && CheckType(t.value, value, path).Some? {
      assert v.path == path && IsProblem(schema, value, v.problem);
    } else if t == Some("object") {
      var props := ObjAt(schema, "properties");
      if props.Some? && ValidateProperties(schema, props.value, walk(props.value.fields.Keys), value, path, walk).Some? {
        PropertiesReport(schema, props.value, walk(props.value.fields.Keys), value, path, walk);
      } else {
        CheckRequiredReports(required.value, value, path);
      }
    } else if t == Some("array") {
      ItemsReport(schema, ObjAt(schema, "items").value, value.items, 0, path, walk);
    } else if value.Obj? {
      CheckRequiredReports(required.value, value, path);
    }
  }

  lemma {:induction false} PropertiesReport(schema: SchemaObj, props: SchemaObj, keys: seq<string>, value: Value,
                                            path: seq<Place>, walk: Walk)
    requires ObjAt(schema, "properties") == Some(props) && StringAt(schema, "type") == Some("object") && value.Obj?
    requires ValidateProperties(schema, props, keys, value, path, walk).Some?
    ensures var v := ValidateProperties(schema, props, keys, value, path, walk).value;
            path <= v.path && LeadsTo(schema, value, v.path[|path|..], v.problem)
    decreases schema, 1, |keys|
  {
    var v := ValidateProperties(schema, props, keys, value, path, walk).value;
    var key := keys[0];
    if key in props.fields && props.fields[key].Obj? && key in value.fields
       && ValidateNode(props.fields[key], value.fields[key], path + [Field(key)], walk).Some? {
      ReportedViolationIsReal(props.fields[key], value.fields[key], path + [Field(key)], walk);
      Descend(path, Field(key), v.path);
    } else {
      PropertiesReport(schema, props, keys[1..], value, path, walk);
    }
  }

  lemma {:induction false} ItemsReport(schema: SchemaObj, item: SchemaObj, items: seq<Value>, i: nat,
                                       path: seq<Place>, walk: Walk)
    requires ObjAt(schema, "items") == Some(item) && StringAt(schema, "type") == Some("array") && i <= |items|
    requires ValidateItems(schema, item, items, i, path, walk).Some?
    ensures var v := ValidateItems(schema, item, items, i, path, walk).value;
            path <= v.path && LeadsTo(schema, Arr(items), v.path[|path|..], v.problem)
    decreases schema, 1, |items| - i
  {
    var v := ValidateItems(schema, item, items, i, path, walk).value;
    if ValidateNode(item, items[i], path + [Item(i)], walk).Some? {
      ReportedViolationIsReal(item, items[i], path + [Item(i)], walk);
      Descend(path, Item(i), v.path);
    } else {
      ItemsReport(schema, item, items, i + 1, path, walk);
    }
  }

  lemma Descend(path: seq<Place>, place: Place, full: seq<Place>)
    requires path + [place] <= full
    ensures path <= full && full[|path|..] != [] && full[|path|..][0] == place
    ensures full[|path|..][1..] == full[|path + [place]|..]
  {
    assert full[|path|] == (path + [place])[|path|];
  }

  // ── The violation reported is the first one ──

  predicate TypePasses(schema: SchemaObj, value: Value) {
    "type" in schema.fields && schema.fields["type"].Str? ==> TypeAllows(schema.fields["type"].s, value)
  }

  predicate PropertyPasses(props: map<string, Value>, k: string, fields: map<string, Value>) {
    k in props && props[k].Obj? && k in fields ==> Accepts(props[k], fields[k])
  }

  /** The name is the first missing one of the list. */
  predicate FirstMissing(required: seq<Value>, name: string, fields: map<string, Value>) {
    exists p :: 0 <= p < |required| && required[p] == Str(name)
                && forall q :: 0 <= q < p && required[q].Str? ==> required[q].s in fields
  }

  /** All that the validator looks at before it comes to this place passes: at every level the type; on the way
      into a property the properties that come up before it, into an item the items before it; and where a field
      is missing all properties, and the names before it. */
  ghost predicate NothingBefore(schema: SchemaObj, value: Value, path: seq<Place>, problem: Problem, walk: Walk)
    requires LeadsTo(schema, value, path, problem)
    decreases |path|
  {
    if path == [] then
      && (problem.NotAnObject? ==> TypePasses(schema, value))
      && (problem.MissingField? ==>
            && TypePasses(schema, value)
            && FirstMissing(schema.fields["required"].items, problem.name, value.fields)
            && (HasType(schema, "object") && "properties" in schema.fields && schema.fields["properties"].Obj? ==>
                  forall k :: PropertyPasses(schema.fields["properties"].fields, k, value.fields)))
    else
      && TypePasses(schema, value)
      && match path[0]
         case Field(k) =>
           var props := schema.fields["properties"].fields;
           var order := walk(props.Keys);
           && (exists p :: 0 <= p < |order| && order[p] == k
                           && forall q :: 0 <= q < p ==> PropertyPasses(props, order[q], value.fields))
           && NothingBefore(props[k], value.fields[k], path[1..], problem, walk)
         case Item(i) =>
           && (forall j :: 0 <= j < i ==> Accepts(schema.fields["items"], value.items[j]))
           && NothingBefore(schema.fields["items"], value.items[i], path[1..], problem, walk)
  }

  lemma {:induction false} MissingIsFirst(required: seq<Value>, value: Value, path: seq<Place>)
    requires value.Obj? && CheckRequired(required, value, path).Some?
    ensures var v := CheckRequired(required, value, path).value;
            v.path == path && v.problem.MissingField? && FirstMissing(required, v.problem.name, value.fields)
  {
    var v := CheckRequired(required, value, path).value;
    if required[0].Str? && required[0].s !in value.fields {
      assert required[0] == Str(v.problem.name);
    } else {
      MissingIsFirst(required[1..], value, path);
      var p :| 0 <= p < |required[1..]| && required[1..][p] == Str(v.problem.name)
               && forall q :: 0 <= q < p && required[1..][q].Str? ==> required[1..][q].s in value.fields;
      assert required[p + 1] == Str(v.problem.name);
      forall q | 0 <= q < p + 1 && required[q].Str? ensures required[q].s in value.fields {
        assert q > 0 ==> required[1..][q - 1] == required[q];
      }
    }
  }

  /** A violation is reported only after everything the validator looks at before it has passed. */
  lemma {:induction false} ReportedViolationIsFirst(schema: SchemaObj, value: Value, path: seq<Place>, walk: Walk)
    requires Covers(walk) && ValidateNode(schema, value, path, walk).Some?
    ensures var v := ValidateNode(schema, value, path, walk).value;
            path <= v.path && LeadsTo(schema, value, v.path[|path|..], v.problem)
            && NothingBefore(schema, value, v.path[|path|..], v.problem, walk)
    decreases schema, 2
  {
    ReportedViolationIsReal(schema, value, path, walk);
    var v := ValidateNode(schema, value, path, walk).value;
    var t := StringAt(schema, "type");
    var required := ListAt(schema, "required");
    if t.Some? {
      CheckTypeMeans(t.value, value, path);
    }
    if t.Some? && CheckType(t.value, value, path).Some? {
      assert v.path == path;
    } else if t == Some("object") {
      var props := ObjAt(schema, "properties");
      if props.Some? {
        PropertiesMean(schema, props.value, walk(props.value.fields.Keys), value, path, walk);
        if ValidateProperties(schema, props.value, walk(props.value.fields.Keys), value, path, walk).Some? {
          PropertiesFirst(schema, props.value, walk(props.value.fields.Keys), 0, value, path, walk);
          return;
        }
      }
      MissingIsFirst(required.value, value, path);
    } else if t == Some("array") {
      ItemsFirst(schema, ObjAt(schema, "items").value, value.items, 0, path, walk);
    } else if value.Obj? {
      MissingIsFirst(required.value, value, path);
    }
  }

  lemma {:induction false} PropertiesFirst(schema: SchemaObj, props: SchemaObj, order: seq<string>, n: nat, value: Value,
                                           path: seq<Place>, walk: Walk)
    requires Covers(walk) && ObjAt(schema, "properties") == Some(props) && HasType(schema, "object") && value.Obj?
    requires order == walk(props.fields.Keys) && n <= |order| && TypePasses(schema, value)
    requires forall q :: 0 <= q < n ==> PropertyPasses(props.fields, order[q], value.fields)
    requires ValidateProperties(schema, props, order[n..], value, path, walk).Some?
    ensures var v := ValidateProperties(schema, props, order[n..], value, path, walk).value;
            path <= v.path && LeadsTo(schema, value, v.path[|path|..], v.problem)
            && NothingBefore(schema, value, v.path[|path|..], v.problem, walk)
    decreases schema, 1, |order| - n
  {
    var v := ValidateProperties(schema, props, order[n..], value, path, walk).value;
    var key := order[n];
    assert order[n..][0] == key && order[n..][1..] == order[n + 1..];
    if key in props.fields && props.fields[key].Obj? && key in value.fields {
      NoViolationIsAcceptance(props.fields[key], value.fields[key], path + [Field(key)], walk);
      if ValidateNode(props.fields[key], value.fields[key], path + [Field(key)], walk).Some? {
        ReportedViolationIsFirst(props.fields[key], value.fields[key], path + [Field(key)], walk);
        Descend(path, Field(key), v.path);
        return;
      }
    }
    PropertiesFirst(schema, props, order, n + 1, value, path, walk);
  }

  lemma {:induction false} ItemsFirst(schema: SchemaObj, item: SchemaObj, items: seq<Value>, i: nat,
                                      path: seq<Place>, walk: Walk)
    requires Covers(walk) && ObjAt(schema, "items") == Some(item) && HasType(schema, "array") && i <= |items|
    requires TypePasses(schema, Arr(items)) && forall j :: 0 <= j < i ==> Accepts(item, items[j])
    requires ValidateItems(schema, item, items, i, path, walk).Some?
    ensures var v := ValidateItems(schema, item, items, i, path, walk).value;
            path <= v.path && LeadsTo(schema, Arr(items), v.path[|path|..], v.problem)
            && NothingBefore(schema, Arr(items), v.path[|path|..], v.problem, walk)
    decreases schema, 1, |items| - i
  {
    var v := ValidateItems(schema, item, items, i, path, walk).value;
    NoViolationIsAcceptance(item, items[i], path + [Item(i)], walk);
    if ValidateNode(item, items[i], path + [Item(i)], walk).Some? {
      ReportedViolationIsFirst(item, items[i], path + [Item(i)], walk);
      Descend(path, Item(i), v.path);
    } else {
      ItemsFirst(schema, item, items, i + 1, path, walk);
    }
  }

  // ── JSON Schema draft-07 ──

  /** Section 6.1.1: the type keyword, for the six names. */
  predicate TypeConforms(name: string, value: Value) {
    || (name == "object" && value.Obj?)
    || (name == "array" && value.Arr?)
    || (name == "string" && value.Str?)
    || (name == "boolean" && value.Bool?)
    || (name == "number" && (value.Int? || value.Float64? || value.Float32?))
    || (name == "integer" && (value.Int? || (value.Float64? && IsIntegral(value.f)) || (value.Float32? && IsIntegral(value.g))))
  }

  /** Sections 6.1.1 (type), 6.4.1 (items), 6.5.3 (required) and 6.5.4 (properties): every keyword constrains
      on its own, and only instances of the kind it is about. */
  predicate Conforms(schema: SchemaObj, value: Value)
    requires Supported(schema)
    decreases schema
  {
    && TypeConforms(schema.fields["type"].s, value)
    && ("required" in schema.fields && value.Obj? ==>
          forall r :: r in schema.fields["required"].items ==> r.s in value.fields)
    && ("properties" in schema.fields && value.Obj? ==>
          var props := schema.fields["properties"].fields;
          forall k :: k in props && k in value.fields ==> Conforms(props[k], value.fields[k]))
    && ("items" in schema.fields && value.Arr? ==>
          forall i :: 0 <= i < |value.items| ==> Conforms(schema.fields["items"], value.items[i]))
  }

  /** The schemas the claim is about: every level names one of the six types, required is a list of names
      and comes only with "object", and properties and items lead to such schemas. */
  predicate Supported(schema: SchemaObj)
    decreases schema
  {
    && "type" in schema.fields && schema.fields["type"].Str?
    && schema.fields["type"].s in {"object", "array", "string", "number", "integer", "boolean"}
    && ("required" in schema.fields ==>
          HasType(schema, "object") && schema.fields["required"].Arr?
          && forall r :: r in schema.fields["required"].items ==> r.Str?)
    && ("properties" in schema.fields ==>
          && schema.fields["properties"].Obj?
          && var props := schema.fields["properties"].fields;
             forall k :: k in props ==> props[k].Obj? && Supported(props[k]))
    && ("items" in schema.fields ==> schema.fields["items"].Obj? && Supported(schema.fields["items"]))
  }

  /** Values as a JSON decoder makes them, with no integral float beyond the range of int64. */
  predicate Decoded(value: Value)
    decreases value
  {
    match value
    case Float64(f) => IsIntegral(f) ==> IsInt64(f)
    case Float32(_) => false
    case Other => false
    case Arr(items) => forall i :: 0 <= i < |items| ==> Decoded(items[i])
    case Obj(fields) => forall k :: k in fields ==> Decoded(fields[k])
    case _ => true
  }

  /** Wherever an integer is wanted, an integral float is a float64 within the range of int64. */
  predicate IntegersFit(schema: SchemaObj, value: Value)
    requires Supported(schema)
    decreases schema
  {
    && (HasType(schema, "integer") ==>
          (value.Float64? && IsIntegral(value.f) ==> IsInt64(value.f))
          && !(value.Float32? && IsIntegral(value.g)))
    && ("properties" in schema.fields && value.Obj? ==>
          var props := schema.fields["properties"].fields;
          forall k :: k in props && k in value.fields ==> IntegersFit(props[k], value.fields[k]))
    && ("items" in schema.fields && value.Arr? ==>
          forall i :: 0 <= i < |value.items| ==> IntegersFit(schema.fields["items"], value.items[i]))
  }

  /** On those schemas, and on any value, what is accepted is exactly what draft-07 accepts less the values
      with an integral float out of range. */
  lemma {:induction false} AcceptsExactlyWhatFits(schema: SchemaObj, value: Value)
    requires Supported(schema)
    ensures Accepts(schema, value) <==> Conforms(schema, value) && IntegersFit(schema, value)
    decreases schema
  {
    if value.Obj? && "properties" in schema.fields {
      var props := schema.fields["properties"].fields;
      forall k | k in props && k in value.fields
        ensures Accepts(props[k], value.fields[k])
           <==> Conforms(props[k], value.fields[k]) && IntegersFit(props[k], value.fields[k]) {
        AcceptsExactlyWhatFits(props[k], value.fields[k]);
      }
    }
    if value.Arr? && "items" in schema.fields {
      var item := schema.fields["items"];
      forall i | 0 <= i < |value.items|
        ensures Accepts(item, value.items[i]) <==> Conforms(item, value.items[i]) && IntegersFit(item, value.items[i]) {
        AcceptsExactlyWhatFits(item, value.items[i]);
      }
    }
  }

  lemma {:induction false} DecodedFits(schema: SchemaObj, value: Value)
    requires Supported(schema) && Decoded(value)
    ensures IntegersFit(schema, value)
    decreases schema
  {
    if value.Obj? && "properties" in schema.fields {
      var props := schema.fields["properties"].fields;
      forall k | k in props && k in value.fields ensures IntegersFit(props[k], value.fields[k]) {
        DecodedFits(props[k], value.fields[k]);
      }
    }
    if value.Arr? && "items" in schema.fields {
      forall i | 0 <= i < |value.items| ensures IntegersFit(schema.fields["items"], value.items[i]) {
        DecodedFits(schema.fields["items"], value.items[i]);
      }
    }
  }

  /** On those schemas and on decoded values the validator is draft-07 validation. */
  lemma AgreesWithDraft07(schema: SchemaObj, value: Value)
    requires Supported(schema) && Decoded(value)
    ensures Accepts(schema, value) <==> Conforms(schema, value)
  {
    AcceptsExactlyWhatFits(schema, value);
    DecodedFits(schema, value);
  }

  const INTEGER_SCHEMA: SchemaObj := Obj(map["type" := Str("integer")])

  /** Two to the 63rd is an integer in draft-07 and not one to the validator. */
  lemma LargeIntegerIsRejected()
    ensures Conforms(INTEGER_SCHEMA, Float64(0x8000_0000_0000_0000 as real))
    ensures !Accepts(INTEGER_SCHEMA, Float64(0x8000_0000_0000_0000 as real))
  {
    assert INTEGER_SCHEMA.fields["type"] == Str("integer");
    assert (0x8000_0000_0000_0000 as real).Floor == 0x8000_0000_0000_0000;
  }
}
