/** `pa/screener.py`: the allowlisted filter AST, its validator, and the plain and auditing evaluators. */
module Screener {
  import opened Basics

  /** A decoded JSON value. */
  datatype Json =
    | Null
    | Bool(b: bool)
    | Int(n: int)
    | Float(x: real)
    | Str(s: string)
    | List(items: seq<Json>)
    | Object(fields: map<string, Json>)

  const ALLOWED: map<string, set<string>> := map[
    "volume_change" := {"recent_bars", "baseline_bars", "min", "max"},
    "price_change" := {"window_bars", "min", "max"},
    "structure_event" := {"event", "since_bars"},
    "liquidity_sweep_occurred" := {"since_bars"},
    "near_order_block" := {"max_distance_pct"},
    "funding_rate" := {"min", "max"},
    "oi_change" := {"min", "max", "window"},
    "above_below_vwap" := {"position"}]

  const EVENTS := {"bos_bullish", "bos_bearish", "choch_bullish", "choch_bearish"}

  /** The keys that must be positive integers, with the default each gets when absent. */
  function IntKeys(kind: string): map<string, int> {
    if kind == "volume_change" then map["recent_bars" := 24, "baseline_bars" := 24]
    else if kind == "price_change" then map["window_bars" := 24]
    else if kind == "structure_event" || kind == "liquidity_sweep_occurred" then map["since_bars" := 50]
    else if kind == "oi_change" then map["window" := 1]
    else map[]
  }

  // ---------- leaves ----------

  predicate IsNumber(v: Json) {
    v.Int? || v.Float?
  }

  function Number(v: Json): real
    requires IsNumber(v)
  {
    if v.Int? then v.n as real else v.x
  }

  /** A value that Python cannot look up in a set or a dictionary. */
  predicate Unhashable(v: Json) {
    v.List? || v.Object?
  }

  predicate Positive(v: Json) {
    v.Int? && v.n >= 1
  }

  function Get(fields: map<string, Json>, key: string): Json {
    if key in fields then fields[key] else Null
  }

  predicate KeysAllowed(fields: map<string, Json>, kind: string)
    requires kind in ALLOWED
  {
    forall key | key in fields :: key == "type" || key in ALLOWED[kind]
  }

  predicate BoundsOk(fields: map<string, Json>) {
    && ("min" in fields ==> IsNumber(fields["min"]))
    && ("max" in fields ==> IsNumber(fields["max"]))
    && ("min" in fields && "max" in fields ==> Number(fields["min"]) <= Number(fields["max"]))
  }

  predicate IntsOk(fields: map<string, Json>, kind: string) {
    forall key | key in IntKeys(kind) && key in fields :: Positive(fields[key])
  }

  /** The leaf checks, in the order the code makes them. */
  function CheckLeaf(fields: map<string, Json>, kind: string): Option<ErrorCode>
    requires kind in ALLOWED
  {
    if !KeysAllowed(fields, kind) || !IntsOk(fields, kind) || !BoundsOk(fields) then Some(InvalidRequest)
    else if kind == "structure_event" && Unhashable(Get(fields, "event")) then Some(InternalError)
    else if kind == "structure_event" && !(Get(fields, "event").Str? && Get(fields, "event").s in EVENTS) then
      Some(InvalidRequest)
    else if kind == "above_below_vwap" && Get(fields, "position") !in {Str("above"), Str("below")} then
      Some(InvalidRequest)
    else if kind == "near_order_block"
         && !(IsNumber(Get(fields, "max_distance_pct")) && Number(Get(fields, "max_distance_pct")) >= 0.0) then
      Some(InvalidRequest)
    else None
  }

  function Defaults(kind: string): map<string, Json> {
    map key | key in IntKeys(kind) :: Int(IntKeys(kind)[key])
  }

  function WithDefaults(fields: map<string, Json>, kind: string): map<string, Json> {
    Defaults(kind) + fields
  }

  // ---------- validation ----------

  predicate IsBranch(kind: Json) {
    kind == Str("and") || kind == Str("or")
  }

  /** `_validate_node`. */
  function ValidateNode(node: Json): Result<Json>
    decreases node, 0
  {
    if !node.Object? || "type" !in node.fields then Err(InvalidRequest)
    else
      var kind := node.fields["type"];
      if IsBranch(kind) then
        if (exists key :: key in node.fields && key != "type" && key != "filters")
           || !Get(node.fields, "filters").List? || node.fields["filters"].items == [] then Err(InvalidRequest)
        else
          var subs := ValidateAll(node.fields["filters"].items);
          if subs.Err? then Err(subs.error)
          else Ok(Object(map["type" := kind, "filters" := List(subs.value)]))
      else if Unhashable(kind) then Err(InternalError)
      else if !kind.Str? || kind.s !in ALLOWED then Err(InvalidRequest)
      else
        var broken := CheckLeaf(node.fields, kind.s);
        if broken.Some? then Err(broken.value) else Ok(Object(WithDefaults(node.fields, kind.s)))
  }

  /** The children from left to right; the first error wins. */
  function ValidateAll(items: seq<Json>): Result<seq<Json>>
    decreases items, 1
  {
    if items == [] then Ok([])
    else
      var first := ValidateNode(items[0]);
      if first.Err? then Err(first.error)
      else
        var rest := ValidateAll(items[1..]);
        if rest.Err? then Err(rest.error) else Ok([first.value] + rest.value)
  }

  /** Python's truth of a decoded value. */
  predicate Truthy(v: Json) {
    match v
    case Null => false
    case Bool(b) => b
    case Int(n) => n != 0
    case Float(x) => x != 0.0
    case Str(s) => s != ""
    case List(items) => items != []
    case Object(fields) => fields != map[]
  }

  /** `validate_filters`, with `combine` already in upper case. */
  function ValidateFilters(filters: Json, combine: string): Result<Json> {
    if combine != "AND" && combine != "OR" then Err(InvalidRequest)
    else
      var items := if filters.List? then filters.items else if Truthy(filters) then [filters] else [];
      if items == [] then Err(InvalidRequest)
      else
        var subs := ValidateAll(items);
        if subs.Err? then Err(subs.error)
        else Ok(Object(map["type" := Str(if combine == "AND" then "and" else "or"), "filters" := List(subs.value)]))
  }

  // ---------- what validation yields ----------

  predicate IsLeaf(node: Json) {
    node.Object? && "type" in node.fields && node.fields["type"].Str? && node.fields["type"].s in ALLOWED
  }

  predicate IsInner(node: Json) {
    && node.Object? && "type" in node.fields && IsBranch(node.fields["type"])
    && "filters" in node.fields && node.fields["filters"].List?
  }

  function Children(node: Json): seq<Json>
    requires IsInner(node)
  {
    node.fields["filters"].items
  }

  /** An AST: branches over children, leaves of known types. */
  predicate Tree(node: Json)
    decreases node
  {
    IsLeaf(node) || (IsInner(node) && forall i | 0 <= i < |Children(node)| :: Tree(Children(node)[i]))
  }

  /** No branch without children. */
  predicate Full(node: Json)
    requires Tree(node)
    decreases node
  {
    IsInner(node) ==>
      Children(node) != [] && forall i | 0 <= i < |Children(node)| :: Full(Children(node)[i])
  }

  /** What the validator leaves unchanged: full trees whose leaves pass the checks and carry their defaults. */
  predicate Normal(node: Json)
    decreases node
  {
    if IsLeaf(node) then
      var kind := node.fields["type"].s;
      CheckLeaf(node.fields, kind) == None && forall key | key in IntKeys(kind) :: key in node.fields
    else
      && IsInner(node) && node.fields.Keys == {"type", "filters"} && Children(node) != []
      && forall i | 0 <= i < |Children(node)| :: Normal(Children(node)[i])
  }

  lemma {:induction false} NormalIsFullTree(node: Json)
    requires Normal(node)
    ensures Tree(node) && Full(node)
    decreases node
  {
    if !IsLeaf(node) {
      forall i | 0 <= i < |Children(node)| ensures Tree(Children(node)[i]) && Full(Children(node)[i]) {
        NormalIsFullTree(Children(node)[i]);
      }
    }
  }

  lemma DefaultKeysAllowed(kind: string)
    requires kind in ALLOWED
    ensures forall key | key in IntKeys(kind) :: key in ALLOWED[kind] && IntKeys(kind)[key] >= 1
    ensures forall key | key in IntKeys(kind) :: key !in {"type", "min", "max", "event", "position", "max_distance_pct"}
  {
  }

  /** Defaults do not disturb the checks. */
  lemma DefaultsPass(fields: map<string, Json>, kind: string)
    requires kind in ALLOWED && CheckLeaf(fields, kind).None? && "type" in fields
    ensures CheckLeaf(WithDefaults(fields, kind), kind).None?
    ensures forall key | key in IntKeys(kind) :: key in WithDefaults(fields, kind)
    ensures WithDefaults(fields, kind)["type"] == fields["type"]
  {
    DefaultKeysAllowed(kind);
    var full := WithDefaults(fields, kind);
    assert forall key | key in fields :: full[key] == fields[key];
    forall key | key in {"event", "position", "max_distance_pct", "min", "max"}
      ensures Get(full, key) == Get(fields, key) && (key in full <==> key in fields)
    {
      assert key !in IntKeys(kind);
    }
    assert Get(full, "event") == Get(fields, "event") && Get(full, "position") == Get(fields, "position");
    assert Get(full, "max_distance_pct") == Get(fields, "max_distance_pct");
    assert Get(full, "min") == Get(fields, "min") && Get(full, "max") == Get(fields, "max");
  }

  lemma DefaultsKept(fields: map<string, Json>, kind: string)
    requires forall key | key in IntKeys(kind) :: key in fields
    ensures WithDefaults(fields, kind) == fields
  {
  }

  /** Whatever the validator returns is normal. */
  lemma {:induction false} ValidatedIsNormal(node: Json)
    requires ValidateNode(node).Ok?
    ensures Normal(ValidateNode(node).value)
    decreases node, 0
  {
    var kind := node.fields["type"];
    if IsBranch(kind) {
      AllValidatedAreNormal(node.fields["filters"].items);
      var r := ValidateNode(node).value;
      assert r.fields.Keys == {"type", "filters"};
      assert !IsLeaf(r);
    } else {
      DefaultsPass(node.fields, kind.s);
    }
  }

  lemma {:induction false} AllValidatedAreNormal(items: seq<Json>)
    requires ValidateAll(items).Ok?
    ensures var rs := ValidateAll(items).value;
            |rs| == |items| && forall i | 0 <= i < |rs| :: Normal(rs[i])
    decreases items, 1
  {
    if items != [] {
      ValidatedIsNormal(items[0]);
      AllValidatedAreNormal(items[1..]);
    }
  }

  /** A normal node is validated to itself. */
  lemma {:induction false} NormalIsFixed(node: Json)
    requires Normal(node)
    ensures ValidateNode(node) == Ok(node)
    decreases node, 0
  {
    if IsLeaf(node) {
      DefaultsKept(node.fields, node.fields["type"].s);
    } else {
      AllNormalAreFixed(Children(node));
      assert node.fields == map["type" := node.fields["type"], "filters" := List(Children(node))];
      assert forall key | key in node.fields :: key in node.fields.Keys;
    }
  }

  lemma {:induction false} AllNormalAreFixed(items: seq<Json>)
    requires forall i | 0 <= i < |items| :: Normal(items[i])
    ensures ValidateAll(items) == Ok(items)
    decreases items, 1
  {
    if items != [] {
      NormalIsFixed(items[0]);
      AllNormalAreFixed(items[1..]);
      assert [items[0]] + items[1..] == items;
    }
  }

  /** Validating what was already validated changes nothing. */
  lemma ValidateTwice(node: Json)
    requires ValidateNode(node).Ok?
    ensures ValidateNode(ValidateNode(node).value) == ValidateNode(node)
  {
    ValidatedIsNormal(node);
    NormalIsFixed(ValidateNode(node).value);
  }

  /** The same for a whole request: its root is normal. */
  lemma RootIsNormal(filters: Json, combine: string)
    requires ValidateFilters(filters, combine).Ok?
    ensures Normal(ValidateFilters(filters, combine).value)
  {
    var items := if filters.List? then filters.items else [filters];
    AllValidatedAreNormal(items);
    var r := ValidateFilters(filters, combine).value;
    assert r.fields.Keys == {"type", "filters"};
    assert !IsLeaf(r);
  }

  // ---------- what is accepted ----------

  /** A list is accepted exactly when each of its members is, member by member; else its first error is reported. */
  lemma {:induction false} ListExactly(items: seq<Json>)
    ensures var r := ValidateAll(items);
            && (r.Ok? <==> forall i | 0 <= i < |items| :: ValidateNode(items[i]).Ok?)
            && (r.Ok? ==> |r.value| == |items|
                          && forall i | 0 <= i < |items| :: ValidateNode(items[i]) == Ok(r.value[i]))
            && (r.Err? ==> exists i :: 0 <= i < |items| && ValidateNode(items[i]) == Err(r.error)
                                       && forall j | 0 <= j < i :: ValidateNode(items[j]).Ok?)
    decreases |items|
  {
    if items != [] {
      var rest := items[1..];
      ListExactly(rest);
      assert forall i | 0 < i < |items| :: items[i] == rest[i - 1];
      if ValidateNode(items[0]).Ok? && ValidateAll(rest).Err? {
        var i :| 0 <= i < |rest| && ValidateNode(rest[i]) == Err(ValidateAll(rest).error)
                 && forall j | 0 <= j < i :: ValidateNode(rest[j]).Ok?;
        assert ValidateNode(items[i + 1]) == Err(ValidateAll(items).error);
      }
    }
  }

  /** Nothing but the type and these keys. */
  predicate Only(fields: map<string, Json>, keys: set<string>) {
    forall key | key in fields :: key == "type" || key in keys
  }

  predicate CountIfGiven(fields: map<string, Json>, key: string) {
    key in fields ==> fields[key].Int? && fields[key].n >= 1
  }

  /** Both bounds are optional numbers, the lower not above the upper. */
  predicate Bounded(fields: map<string, Json>) {
    && ("min" in fields ==> fields["min"].Int? || fields["min"].Float?)
    && ("max" in fields ==> fields["max"].Int? || fields["max"].Float?)
    && ("min" in fields && "max" in fields ==> Number(fields["min"]) <= Number(fields["max"]))
  }

  /** A leaf in full: what each kind of filter takes. */
  predicate LeafInFull(fields: map<string, Json>, kind: string) {
    || (kind == "volume_change" && Only(fields, {"recent_bars", "baseline_bars", "min", "max"}) && Bounded(fields)
        && CountIfGiven(fields, "recent_bars") && CountIfGiven(fields, "baseline_bars"))
    || (kind == "price_change" && Only(fields, {"window_bars", "min", "max"}) && Bounded(fields)
        && CountIfGiven(fields, "window_bars"))
    || (kind == "structure_event" && Only(fields, {"event", "since_bars"}) && CountIfGiven(fields, "since_bars")
        && "event" in fields
        && fields["event"] in {Str("bos_bullish"), Str("bos_bearish"), Str("choch_bullish"), Str("choch_bearish")})
    || (kind == "liquidity_sweep_occurred" && Only(fields, {"since_bars"}) && CountIfGiven(fields, "since_bars"))
    || (kind == "near_order_block" && Only(fields, {"max_distance_pct"}) && "max_distance_pct" in fields
        && match fields["max_distance_pct"]
           case Int(n) => n >= 0
           case Float(x) => x >= 0.0
           case _ => false)
    || (kind == "funding_rate" && Only(fields, {"min", "max"}) && Bounded(fields))
    || (kind == "oi_change" && Only(fields, {"min", "max", "window"}) && Bounded(fields)
        && CountIfGiven(fields, "window"))
    || (kind == "above_below_vwap" && Only(fields, {"position"}) && "position" in fields
        && fields["position"] in {Str("above"), Str("below")})
  }

  lemma LeafExactly(fields: map<string, Json>, kind: string)
    ensures kind in ALLOWED && CheckLeaf(fields, kind) == None <==> LeafInFull(fields, kind)
  {
    if kind in ALLOWED {
      assert Get(fields, "max_distance_pct") == if "max_distance_pct" in fields then fields["max_distance_pct"] else Null;
    }
  }

  /** What a leaf is filled up with. */
  lemma DefaultsExactly(kind: string)
    ensures Defaults(kind) ==
            if kind == "volume_change" then map["recent_bars" := Int(24), "baseline_bars" := Int(24)]
            else if kind == "price_change" then map["window_bars" := Int(24)]
            else if kind == "structure_event" || kind == "liquidity_sweep_occurred" then map["since_bars" := Int(50)]
            else if kind == "oi_change" then map["window" := Int(1)]
            else map[]
  {
  }

  /** A given key wins over its default. */
  lemma GivenKeysWin(fields: map<string, Json>, kind: string, key: string)
    ensures key in WithDefaults(fields, kind) <==> key in fields || key in Defaults(kind)
    ensures key in fields ==> WithDefaults(fields, kind)[key] == fields[key]
    ensures key !in fields && key in Defaults(kind) ==> WithDefaults(fields, kind)[key] == Defaults(kind)[key]
  {
  }

  // ---------- evaluation ----------

  /** `FILTER_FNS[type](node, ctx)`: whether a leaf holds in the context at hand. */
  type Sat = Json -> bool

  /** `_eval_node`. */
  predicate Eval(node: Json, sat: Sat)
    requires Tree(node)
    decreases node
  {
    if IsLeaf(node) then sat(node)
    else if node.fields["type"] == Str("and") then
      forall i | 0 <= i < |Children(node)| :: Eval(Children(node)[i], sat)
    else
      exists i :: 0 <= i < |Children(node)| && Eval(Children(node)[i], sat)
  }

  /** An accepted member of a list is an AST. */
  lemma AcceptedIsTree(items: seq<Json>, i: nat)
    requires i < |items| && ValidateAll(items).Ok?
    ensures ValidateNode(items[i]).Ok? && Tree(ValidateNode(items[i]).value)
  {
    ListExactly(items);
    ValidatedIsNormal(items[i]);
    NormalIsFullTree(ValidateNode(items[i]).value);
  }

  /** A branch with these children. */
  function Branch(kind: string, subs: seq<Json>): Json {
    Object(map["type" := Str(kind), "filters" := List(subs)])
  }

  predicate Trees(nodes: seq<Json>) {
    forall i | 0 <= i < |nodes| :: Tree(nodes[i])
  }

  lemma BranchMeans(kind: string, subs: seq<Json>, sat: Sat)
    requires kind in {"and", "or"} && Trees(subs)
    ensures Tree(Branch(kind, subs))
    ensures Eval(Branch(kind, subs), sat) <==>
              if kind == "and" then forall i | 0 <= i < |subs| :: Eval(subs[i], sat)
              else exists i :: 0 <= i < |subs| && Eval(subs[i], sat)
  {
    var node := Branch(kind, subs);
    assert !IsLeaf(node) && IsInner(node) && Children(node) == subs;
  }

  /** The filter is accepted, and holds once it is validated. */
  predicate Holds(filter: Json, sat: Sat) {
    var r := ValidateNode(filter);
    r.Ok? && Tree(r.value) && Eval(r.value, sat)
  }

  lemma HoldsBySub(items: seq<Json>, sat: Sat, i: nat)
    requires i < |items| && ValidateAll(items).Ok?
    ensures i < |ValidateAll(items).value| && Tree(ValidateAll(items).value[i])
    ensures Holds(items[i], sat) <==> Eval(ValidateAll(items).value[i], sat)
  {
    ListExactly(items);
    AcceptedIsTree(items, i);
  }

  /** A branch over validated children. */
  lemma BranchHolds(kind: string, items: seq<Json>, sat: Sat)
    requires kind in {"and", "or"} && ValidateAll(items).Ok?
    ensures var node := Branch(kind, ValidateAll(items).value);
            && Tree(node)
            && (Eval(node, sat) <==> if kind == "and" then forall i | 0 <= i < |items| :: Holds(items[i], sat)
                                     else exists i :: 0 <= i < |items| && Holds(items[i], sat))
  {
    var subs := ValidateAll(items).value;
    ListExactly(items);
    forall i | 0 <= i < |items| ensures Tree(subs[i]) && (Holds(items[i], sat) <==> Eval(subs[i], sat)) {
      HoldsBySub(items, sat, i);
    }
    BranchMeans(kind, subs, sat);
  }

  /** The filters of a request: the list, or the one filter given in its place. */
  function Requested(filters: Json): seq<Json> {
    if filters.List? then filters.items else [filters]
  }

  /** A request in full: it is accepted exactly when it combines by AND or OR at least one filter and each filter is
      accepted; and then it holds, by AND if and only if all of them hold, by OR if and only if one of them does. */
  lemma RequestExactly(filters: Json, combine: string, sat: Sat)
    ensures var r := ValidateFilters(filters, combine); var items := Requested(filters);
            && (r.Ok? <==> && combine in {"AND", "OR"} && items != []
                           && forall i | 0 <= i < |items| :: ValidateNode(items[i]).Ok?)
            && (r.Ok? ==> Tree(r.value))
            && (r.Ok? && combine == "AND" ==>
                  (Eval(r.value, sat) <==> forall i | 0 <= i < |items| :: Holds(items[i], sat)))
            && (r.Ok? && combine == "OR" ==>
                  (Eval(r.value, sat) <==> exists i :: 0 <= i < |items| && Holds(items[i], sat)))
  {
    var items := Requested(filters);
    ListExactly(items);
    if !filters.List? {
      assert ValidateNode(items[0]).Ok? ==> Truthy(filters);
    }
    if ValidateFilters(filters, combine).Ok? {
      BranchHolds(if combine == "AND" then "and" else "or", items, sat);
    }
  }

  /** A branch in full: accepted exactly when it has nothing but a non-empty list of accepted children; an AND holds when all
      of them do, an OR when one of them does. */
  lemma BranchExactly(fields: map<string, Json>, sat: Sat)
    requires "type" in fields && fields["type"] in {Str("and"), Str("or")}
    ensures ValidateNode(Object(fields)).Ok? <==>
              && fields.Keys == {"type", "filters"} && fields["filters"].List? && fields["filters"].items != []
              && forall i | 0 <= i < |fields["filters"].items| :: ValidateNode(fields["filters"].items[i]).Ok?
    ensures ValidateNode(Object(fields)).Ok? ==>
              var items := fields["filters"].items;
              (Holds(Object(fields), sat) <==>
                 if fields["type"] == Str("and") then forall i | 0 <= i < |items| :: Holds(items[i], sat)
                 else exists i :: 0 <= i < |items| && Holds(items[i], sat))
  {
    if "filters" in fields && fields["filters"].List? {
      ListExactly(fields["filters"].items);
      if ValidateAll(fields["filters"].items).Ok? {
        BranchHolds(fields["type"].s, fields["filters"].items, sat);
      }
    }
    assert fields.Keys == {"type", "filters"} <==>
           "filters" in fields && forall key | key in fields :: key == "type" || key == "filters";
  }

  /** Anything else must be a leaf, and holds when the leaf with its defaults does. */
  lemma LeafHolds(fields: map<string, Json>, sat: Sat)
    requires "type" in fields && fields["type"] !in {Str("and"), Str("or")}
    ensures ValidateNode(Object(fields)).Ok? <==> fields["type"].Str? && LeafInFull(fields, fields["type"].s)
    ensures ValidateNode(Object(fields)).Ok? ==>
              (Holds(Object(fields), sat) <==> sat(Object(WithDefaults(fields, fields["type"].s))))
  {
    if fields["type"].Str? {
      var kind := fields["type"].s;
      LeafExactly(fields, kind);
      if kind in ALLOWED && CheckLeaf(fields, kind).None? {
        DefaultsPass(fields, kind);
      }
    }
  }

  /** The two errors of a node that is not a branch: a value that cannot be looked up in a set or a dictionary, as the type
      or as the event of an otherwise sound leaf, is INTERNAL_ERROR; everything else is INVALID_REQUEST. */
  lemma ErrorsExactly(node: Json)
    requires ValidateNode(node).Err?
    requires node.Object? && "type" in node.fields ==> node.fields["type"] !in {Str("and"), Str("or")}
    ensures ValidateNode(node).error == InternalError <==>
              && node.Object? && "type" in node.fields
              && (|| node.fields["type"].List? || node.fields["type"].Object?
                  || (&& node.fields["type"] == Str("structure_event")
                      && Only(node.fields, {"event", "since_bars"}) && CountIfGiven(node.fields, "since_bars")
                      && "event" in node.fields && (node.fields["event"].List? || node.fields["event"].Object?)))
    ensures ValidateNode(node).error in {InternalError, InvalidRequest}
  {
    if node.Object? && "type" in node.fields && node.fields["type"].Str? && node.fields["type"].s in ALLOWED {
      SoundButForEvent(node.fields, node.fields["type"].s);
    }
  }

  lemma SoundButForEvent(fields: map<string, Json>, kind: string)
    requires kind in ALLOWED
    ensures CheckLeaf(fields, kind) == Some(InternalError) <==>
              && kind == "structure_event" && Only(fields, {"event", "since_bars"}) && CountIfGiven(fields, "since_bars")
              && "event" in fields && (fields["event"].List? || fields["event"].Object?)
  {
  }

  /** A leaf somewhere in the tree. */
  predicate LeafOf(leaf: Json, node: Json)
    requires Tree(node)
    decreases node
  {
    if IsLeaf(node) then leaf == node
    else exists i :: 0 <= i < |Children(node)| && LeafOf(leaf, Children(node)[i])
  }

  /** What an audit trail may hold. */
  predicate Trail(node: Json, sat: Sat, matched: seq<Json>)
    requires Tree(node)
  {
    forall i | 0 <= i < |matched| :: LeafOf(matched[i], node) && sat(matched[i])
  }

  /** `_eval_with_matches`: the value may differ from `_eval_node` only on a branch without children. */
  method EvalWithMatches(node: Json, sat: Sat) returns (ok: bool, matched: seq<Json>)
    requires Tree(node)
    ensures ok == Audit(node, sat).0 && matched == Audit(node, sat).1
    decreases node
  {
    if IsLeaf(node) {
      if sat(node) {
        return true, [node];
      }
      return false, [];
    }
    var subs := Children(node);
    matched := [];
    if node.fields["type"] == Str("and") {
      for i := 0 to |subs|
        invariant AuditAll(subs[..i], sat) == (true, matched)
      {
        AuditAllGrows(subs, sat, i);
        var one, m := EvalWithMatches(subs[i], sat);
        if !one {
          AuditAllFails(subs, sat, i + 1);
          return false, [];
        }
        matched := matched + m;
      }
      assert subs[..|subs|] == subs;
      return true, matched;
    }
    for i := 0 to |subs|
      invariant matched == AuditAny(subs[..i], sat)
    {
      AuditAnyGrows(subs, sat, i);
      var one, m := EvalWithMatches(subs[i], sat);
      if one {
        matched := matched + m;
      }
    }
    assert subs[..|subs|] == subs;
    return matched != [], matched;
  }

  /** The value and the trail the auditing evaluator computes. */
  function Audit(node: Json, sat: Sat): (bool, seq<Json>)
    requires Tree(node)
    decreases node, 0
  {
    if IsLeaf(node) then (if sat(node) then (true, [node]) else (false, []))
    else if node.fields["type"] == Str("and") then AuditAll(Children(node), sat)
    else
      var matched := AuditAny(Children(node), sat);
      (matched != [], matched)
  }

  function AuditAll(nodes: seq<Json>, sat: Sat): (bool, seq<Json>)
    requires Trees(nodes)
    decreases nodes, 1
  {
    if nodes == [] then (true, [])
    else
      var n := |nodes| - 1;
      var before, last := AuditAll(nodes[..n], sat), Audit(nodes[n], sat);
      if before.0 && last.0 then (true, before.1 + last.1) else (false, [])
  }

  function AuditAny(nodes: seq<Json>, sat: Sat): seq<Json>
    requires Trees(nodes)
    decreases nodes, 1
  {
    if nodes == [] then []
    else
      var n := |nodes| - 1;
      AuditAny(nodes[..n], sat) + (if Audit(nodes[n], sat).0 then Audit(nodes[n], sat).1 else [])
  }

  lemma AuditAllGrows(nodes: seq<Json>, sat: Sat, i: nat)
    requires Trees(nodes) && i < |nodes|
    ensures AuditAll(nodes[..i + 1], sat) ==
            var before, last := AuditAll(nodes[..i], sat), Audit(nodes[i], sat);
            if before.0 && last.0 then (true, before.1 + last.1) else (false, [])
  {
    assert nodes[..i + 1][..i] == nodes[..i];
  }

  lemma AuditAnyGrows(nodes: seq<Json>, sat: Sat, i: nat)
    requires Trees(nodes) && i < |nodes|
    ensures AuditAny(nodes[..i + 1], sat)
         == AuditAny(nodes[..i], sat) + (if Audit(nodes[i], sat).0 then Audit(nodes[i], sat).1 else [])
  {
    assert nodes[..i + 1][..i] == nodes[..i];
  }

  /** One false child makes the whole conjunction false. */
  lemma {:induction false} AuditAllFails(nodes: seq<Json>, sat: Sat, i: nat)
    requires Trees(nodes) && i <= |nodes| && AuditAll(nodes[..i], sat) == (false, [])
    ensures AuditAll(nodes, sat) == (false, [])
    decreases |nodes| - i
  {
    if i == |nodes| {
      assert nodes[..i] == nodes;
    } else {
      AuditAllGrows(nodes, sat, i);
      AuditAllFails(nodes, sat, i + 1);
    }
  }

  /** The audit of a full tree has the plain value, its trail is non-empty exactly when that value is true, and the
      trail holds only satisfied leaves of the tree. */
  predicate Faithful(node: Json, sat: Sat)
    requires Tree(node)
  {
    var a := Audit(node, sat);
    a.0 == Eval(node, sat) && (a.1 != [] <==> a.0) && Trail(node, sat, a.1)
  }

  /** Every recorded match is a satisfied leaf below one of the nodes. */
  predicate TrailBelow(nodes: seq<Json>, sat: Sat, matched: seq<Json>)
    requires Trees(nodes)
  {
    forall m | 0 <= m < |matched| ::
      sat(matched[m]) && exists i :: 0 <= i < |nodes| && LeafOf(matched[m], nodes[i])
  }

  lemma TrailJoins(nodes: seq<Json>, n: nat, sat: Sat, before: seq<Json>, last: seq<Json>)
    requires Trees(nodes) && n < |nodes|
    requires TrailBelow(nodes[..n], sat, before) && Trail(nodes[n], sat, last)
    ensures TrailBelow(nodes, sat, before + last)
  {
    var all := before + last;
    forall m | 0 <= m < |all|
      ensures sat(all[m]) && exists i :: 0 <= i < |nodes| && LeafOf(all[m], nodes[i])
    {
      if m < |before| {
        assert all[m] == before[m];
        var i :| 0 <= i < n && LeafOf(before[m], nodes[..n][i]);
        assert LeafOf(all[m], nodes[i]);
      } else {
        assert all[m] == last[m - |before|];
        assert LeafOf(all[m], nodes[n]);
      }
    }
  }

  lemma TrailWidens(nodes: seq<Json>, n: nat, sat: Sat, before: seq<Json>)
    requires Trees(nodes) && n < |nodes| && TrailBelow(nodes[..n], sat, before)
    ensures TrailBelow(nodes, sat, before)
  {
    assert before + [] == before;
    TrailJoins(nodes, n, sat, before, []);
  }

  lemma {:induction false} AllIsFaithful(nodes: seq<Json>, sat: Sat)
    requires Trees(nodes) && forall i | 0 <= i < |nodes| :: Faithful(nodes[i], sat)
    ensures AuditAll(nodes, sat).0 <==> forall i | 0 <= i < |nodes| :: Eval(nodes[i], sat)
    ensures AuditAll(nodes, sat).1 != [] <==> AuditAll(nodes, sat).0 && nodes != []
    ensures TrailBelow(nodes, sat, AuditAll(nodes, sat).1)
  {
    if nodes != [] {
      var n := |nodes| - 1;
      AllIsFaithful(nodes[..n], sat);
      assert Faithful(nodes[n], sat);
      if AuditAll(nodes, sat).0 {
        TrailJoins(nodes, n, sat, AuditAll(nodes[..n], sat).1, Audit(nodes[n], sat).1);
        forall i | 0 <= i < |nodes| ensures Eval(nodes[i], sat) {
          assert i < n ==> nodes[..n][i] == nodes[i];
        }
      }
    }
  }

  /** Some of the nodes holds. */
  predicate AnyHolds(nodes: seq<Json>, sat: Sat)
    requires Trees(nodes)
  {
    exists i :: 0 <= i < |nodes| && Eval(nodes[i], sat)
  }

  lemma AnyHoldsSplit(nodes: seq<Json>, less: seq<Json>, last: Json, sat: Sat)
    requires nodes == less + [last] && Trees(less) && Tree(last)
    ensures Trees(nodes)
    ensures AnyHolds(nodes, sat) <==> AnyHolds(less, sat) || Eval(last, sat)
  {
    assert forall i | 0 <= i < |less| :: nodes[i] == less[i];
    assert nodes[|less|] == last;
    if AnyHolds(less, sat) {
      var i :| 0 <= i < |less| && Eval(less[i], sat);
      assert Eval(nodes[i], sat);
    }
  }

  lemma AuditAnySplit(nodes: seq<Json>, less: seq<Json>, last: Json, sat: Sat)
    requires nodes == less + [last] && Trees(nodes) && Trees(less) && Tree(last)
    ensures AuditAny(nodes, sat) == AuditAny(less, sat) + (if Audit(last, sat).0 then Audit(last, sat).1 else [])
  {
    assert nodes[..|less|] == less;
  }

  lemma AnyOneMore(nodes: seq<Json>, less: seq<Json>, last: Json, sat: Sat)
    requires nodes == less + [last] && Trees(nodes) && Trees(less) && Tree(last) && Faithful(last, sat)
    requires AuditAny(less, sat) != [] <==> AnyHolds(less, sat)
    requires TrailBelow(less, sat, AuditAny(less, sat))
    ensures AuditAny(nodes, sat) != [] <==> AnyHolds(nodes, sat)
    ensures TrailBelow(nodes, sat, AuditAny(nodes, sat))
  {
    AuditAnySplit(nodes, less, last, sat);
    AnyHoldsSplit(nodes, less, last, sat);
    assert nodes[..|less|] == less && nodes[|less|] == last;
    if Audit(last, sat).0 {
      TrailJoins(nodes, |less|, sat, AuditAny(less, sat), Audit(last, sat).1);
    } else {
      TrailWidens(nodes, |less|, sat, AuditAny(less, sat));
      assert AuditAny(nodes, sat) == AuditAny(less, sat);
    }
  }

  lemma {:induction false} AnyIsFaithful(nodes: seq<Json>, sat: Sat)
    requires Trees(nodes) && forall i | 0 <= i < |nodes| :: Faithful(nodes[i], sat)
    ensures AuditAny(nodes, sat) != [] <==> AnyHolds(nodes, sat)
    ensures TrailBelow(nodes, sat, AuditAny(nodes, sat))
  {
    if nodes != [] {
      var n := |nodes| - 1;
      AnyIsFaithful(nodes[..n], sat);
      AnyOneMore(nodes, nodes[..n], nodes[n], sat);
    }
  }

  lemma {:induction false} AuditIsFaithful(node: Json, sat: Sat)
    requires Tree(node) && Full(node)
    ensures Faithful(node, sat)
    decreases node
  {
    if !IsLeaf(node) {
      var subs := Children(node);
      forall i | 0 <= i < |subs| ensures Faithful(subs[i], sat) {
        AuditIsFaithful(subs[i], sat);
      }
      if node.fields["type"] == Str("and") {
        AllIsFaithful(subs, sat);
        TrailClimbs(node, sat, AuditAll(subs, sat).1);
      } else {
        AnyIsFaithful(subs, sat);
        TrailClimbs(node, sat, AuditAny(subs, sat));
      }
    }
  }

  lemma TrailClimbs(node: Json, sat: Sat, matched: seq<Json>)
    requires Tree(node) && !IsLeaf(node) && TrailBelow(Children(node), sat, matched)
    ensures Trail(node, sat, matched)
  {
  }

  /** For every request the validator accepts, the auditing evaluator agrees with the plain one, its match list is
      non-empty exactly when the filter holds, and it lists only satisfied leaves of the AST. */
  lemma AuditAgrees(filters: Json, combine: string, sat: Sat)
    requires ValidateFilters(filters, combine).Ok?
    ensures var ast := ValidateFilters(filters, combine).value;
            && Tree(ast)
            && Audit(ast, sat).0 == Eval(ast, sat)
            && (Audit(ast, sat).1 != [] <==> Eval(ast, sat))
            && Trail(ast, sat, Audit(ast, sat).1)
  {
    RootIsNormal(filters, combine);
    NormalIsFullTree(ValidateFilters(filters, combine).value);
    AuditIsFaithful(ValidateFilters(filters, combine).value, sat);
  }

  /** Without the rule that a branch has children the two evaluators part: an OR over an empty AND. */
  lemma EmptyBranchParts(sat: Sat)
    ensures var node := Branch("or", [Branch("and", [])]);
            Tree(node) && Eval(node, sat) && Audit(node, sat) == (false, [])
  {
    var inner := Branch("and", []);
    var node := Branch("or", [inner]);
    assert Children(inner) == [] && Tree(inner) && Eval(inner, sat);
    assert Children(node) == [inner] && Children(node)[0] == inner;
    assert Audit(inner, sat) == (true, []);
    assert [inner][..0] == [];
    assert AuditAny([inner], sat) == [];
  }
}
