/** internal/specsubset/specsubset.go, the tree part: pruning an OpenAPI document tree. */
module SpecTree {
  import opened Wrappers
  import opened Sequences

  /** A decoded YAML value. */
  datatype Json =
    | Obj(fields: map<string, Json>)
    | Arr(items: seq<Json>)
    | Str(text: string)
    | Bool(value: bool)
    | Scalar

  type Fields = map<string, Json>

  const VENDOR_PREFIX: string := "x-ms-"
  const NAVIGATION: string := "x-ms-navigationProperty"
  const ODATA_TYPE: string := "@odata.type"

  predicate HasType(m: Fields, types: set<string>) { "type" in m && m["type"].Str? && m["type"].text in types }

  predicate IsNullObject(m: Fields) {
    "nullable" in m && m["nullable"] == Bool(true) && HasType(m, {"object"})
  }

  predicate IsScalarSchema(m: Fields) {
    HasType(m, {"number", "integer", "string", "boolean"}) && "properties" !in m && "items" !in m
  }

  predicate IsBareRef(m: Fields) { "$ref" in m }

  /** The position of the one $ref member when every other member is a null object. */
  predicate NullableIdiom(members: seq<Json>, i: nat) {
    && i < |members| && members[i].Obj? && IsBareRef(members[i].fields)
    && forall k :: 0 <= k < |members| && k != i ==>
         members[k].Obj? && !IsBareRef(members[k].fields) && IsNullObject(members[k].fields)
  }

  /** anyOf of one $ref and null objects becomes the bare $ref. */
  function FlattenNullableAnyOf(n: Fields): Fields {
    if "anyOf" in n && n["anyOf"].Arr? && exists i :: 0 <= i < |n["anyOf"].items| && NullableIdiom(n["anyOf"].items, i) then
      var members := n["anyOf"].items;
      var i :| 0 <= i < |members| && NullableIdiom(members, i);
      (n - {"anyOf"})["$ref" := members[i].fields["$ref"]]
    else n
  }

  predicate IsNumeric(j: Json) {
    j.Obj? && IsScalarSchema(j.fields) && HasType(j.fields, {"number", "integer"})
  }

  /** The first numeric member of a union made of primitive scalars and bare $refs only. */
  function NumericMember(members: seq<Json>): Option<Fields> {
    if exists k :: 0 <= k < |members| && !(members[k].Obj? && (IsScalarSchema(members[k].fields) || IsBareRef(members[k].fields)))
    then None
    else FirstNumeric(members)
  }

  function FirstNumeric(members: seq<Json>): (r: Option<Fields>)
    ensures r.Some? ==> exists i :: 0 <= i < |members| && members[i] == Obj(r.value)
  {
    if members == [] then None
    else if IsNumeric(members[0]) then Some(members[0].fields)
    else
      var r := FirstNumeric(members[1..]);
      assert r.Some? ==> exists i :: 0 <= i < |members| && members[i] == Obj(r.value) by {
        if r.Some? {
          var i :| 0 <= i < |members[1..]| && members[1..][i] == Obj(r.value);
          assert members[i + 1] == Obj(r.value);
        }
      }
      r
  }

  /** oneOf of scalar encodings becomes its numeric member. */
  function FlattenScalarOneOf(n: Fields): Fields {
    if "oneOf" in n && n["oneOf"].Arr? then
      match NumericMember(n["oneOf"].items)
      case None => n
      case Some(numeric) => (n - {"oneOf"}) + numeric
    else n
  }

  predicate IsNavigation(j: Json) { j.Obj? && NAVIGATION in j.fields && j.fields[NAVIGATION] == Bool(true) }

  function PruneProperties(props: Fields): Fields {
    map p | p in props && !IsNavigation(props[p]) ::
      if p == ODATA_TYPE && props[p].Obj? then Obj(props[p].fields - {"default"}) else props[p]
  }

  /** What happens to one map node before its children are visited. */
  function PruneNode(n: Fields): Fields {
    var flat := FlattenScalarOneOf(FlattenNullableAnyOf(n));
    var plain := map k | k in flat && !HasPrefix(k, VENDOR_PREFIX) :: flat[k];
    var pruned := if "properties" in plain && plain["properties"].Obj?
                  then plain["properties" := Obj(PruneProperties(plain["properties"].fields))] else plain;
    pruned - {"discriminator"}
  }

  // ---- Height, the measure of the recursion ----

  ghost function Pick(keys: set<string>): (k: string)
    requires keys != {}
    ensures k in keys
  {
    var k :| k in keys;
    k
  }

  ghost function Height(j: Json): nat
    decreases j, 1, 0
  {
    match j
    case Obj(fields) => 1 + HeightOver(j, fields.Keys)
    case Arr(items) => 1 + HeightUpTo(j, |items|)
    case _ => 0
  }

  ghost function HeightOver(j: Json, keys: set<string>): nat
    requires j.Obj? && keys <= j.fields.Keys
    decreases j, 0, |keys|
  {
    if keys == {} then 0
    else
      var first, others := Height(j.fields[Pick(keys)]), HeightOver(j, keys - {Pick(keys)});
      if first > others then first else others
  }

  ghost function HeightUpTo(j: Json, n: nat): nat
    requires j.Arr? && n <= |j.items|
    decreases j, 0, n
  {
    if n == 0 then 0
    else
      var last, others := Height(j.items[n - 1]), HeightUpTo(j, n - 1);
      if last > others then last else others
  }

  lemma {:induction false} HeightOverBounds(j: Json, keys: set<string>, b: nat)
    requires j.Obj? && keys <= j.fields.Keys
    ensures HeightOver(j, keys) <= b <==> forall k :: k in keys ==> Height(j.fields[k]) <= b
    decreases |keys|
  {
    if keys != {} {
      HeightOverBounds(j, keys - {Pick(keys)}, b);
    }
  }

  lemma {:induction false} HeightUpToBounds(j: Json, n: nat, b: nat)
    requires j.Arr? && n <= |j.items|
    ensures HeightUpTo(j, n) <= b <==> forall i :: 0 <= i < n ==> Height(j.items[i]) <= b
  {
    if n > 0 {
      HeightUpToBounds(j, n - 1, b);
    }
  }

  lemma ObjHeight(m: Fields, b: nat)
    ensures Height(Obj(m)) <= b + 1 <==> forall k :: k in m ==> Height(m[k]) <= b
    ensures forall k :: k in m ==> Height(m[k]) < Height(Obj(m))
  {
    HeightOverBounds(Obj(m), m.Keys, b);
    HeightOverBounds(Obj(m), m.Keys, HeightOver(Obj(m), m.Keys));
  }

  lemma ArrHeight(items: seq<Json>)
    ensures forall i :: 0 <= i < |items| ==> Height(items[i]) < Height(Arr(items))
  {
    HeightUpToBounds(Arr(items), |items|, HeightUpTo(Arr(items), |items|));
  }

  lemma SubmapHeight(m: Fields, big: Fields)
    requires forall k :: k in m ==> k in big && m[k] == big[k]
    ensures Height(Obj(m)) <= Height(Obj(big))
  {
    ObjHeight(big, 0);
    ObjHeight(m, Height(Obj(big)) - 1);
  }

  lemma FlatHeight(n: Fields)
    ensures var flat := FlattenScalarOneOf(FlattenNullableAnyOf(n));
            forall k :: k in flat ==> Height(flat[k]) < Height(Obj(n))
  {
    ObjHeight(n, 0);
    var a := FlattenNullableAnyOf(n);
    if a != n {
      var members := n["anyOf"].items;
      ArrHeight(members);
      var i :| 0 <= i < |members| && NullableIdiom(members, i) && a == (n - {"anyOf"})["$ref" := members[i].fields["$ref"]];
      ObjHeight(members[i].fields, 0);
    }
    assert forall k :: k in a ==> Height(a[k]) < Height(Obj(n));
    if "oneOf" in a && a["oneOf"].Arr? && NumericMember(a["oneOf"].items).Some? {
      var numeric := NumericMember(a["oneOf"].items).value;
      ArrHeight(a["oneOf"].items);
      ObjHeight(numeric, 0);
    }
  }

  lemma PrunePropertiesHeight(props: Fields)
    ensures Height(Obj(PruneProperties(props))) <= Height(Obj(props))
  {
    ObjHeight(props, 0);
    var pruned := PruneProperties(props);
    forall p | p in pruned ensures Height(pruned[p]) <= Height(Obj(props)) - 1 {
      if p == ODATA_TYPE && props[p].Obj? {
        SubmapHeight(props[p].fields - {"default"}, props[p].fields);
      }
    }
    ObjHeight(pruned, Height(Obj(props)) - 1);
  }

  lemma PruneHeight(n: Fields)
    ensures forall k :: k in PruneNode(n) ==> Height(PruneNode(n)[k]) < Height(Obj(n))
  {
    FlatHeight(n);
    var flat := FlattenScalarOneOf(FlattenNullableAnyOf(n));
    if "properties" in flat && flat["properties"].Obj? {
      PrunePropertiesHeight(flat["properties"].fields);
    }
  }

  /** stripXMS, with the rewritten tree as its result. */
  function Strip(j: Json): Json
    decreases Height(j)
  {
    match j
    case Obj(n) =>
      PruneHeight(n);
      var m := PruneNode(n);
      Obj(map k | k in m :: Strip(m[k]))
    case Arr(items) =>
      ArrHeight(items);
      Arr(seq(|items|, i requires 0 <= i < |items| => Strip(items[i])))
    case _ => j
  }

  /** collectRefs: every $ref string in the tree. */
  function Refs(j: Json): set<string> {
    match j
    case Obj(fields) =>
      (if "$ref" in fields && fields["$ref"].Str? then {fields["$ref"].text} else {}) +
      (set k, r | k in fields && r in Refs(fields[k]) :: r)
    case Arr(items) => set i, r | 0 <= i < |items| && r in Refs(items[i]) :: r
    case _ => {}
  }

  /** No map at any depth has a vendor key or a discriminator. */
  ghost predicate Clean(j: Json) {
    match j
    case Obj(fields) =>
      forall k | k in fields :: !HasPrefix(k, VENDOR_PREFIX) && k != "discriminator" && Clean(fields[k])
    case Arr(items) => forall i | 0 <= i < |items| :: Clean(items[i])
    case _ => true
  }

  lemma {:induction false} StripIsClean(j: Json)
    ensures Clean(Strip(j))
    decreases Height(j)
  {
    match j
    case Obj(n) =>
      PruneHeight(n);
      var m := PruneNode(n);
      forall k | k in m ensures !HasPrefix(k, VENDOR_PREFIX) && Clean(Strip(m[k])) {
        StripIsClean(m[k]);
      }
    case Arr(items) =>
      ArrHeight(items);
      forall i | 0 <= i < |items| {
        StripIsClean(items[i]);
      }
    case _ =>
  }

  ghost predicate RefsWithin(m: Fields, s: set<string>) {
    && ("$ref" in m && m["$ref"].Str? ==> m["$ref"].text in s)
    && forall k :: k in m ==> Refs(m[k]) <= s
  }

  lemma RefsOfFields(m: Fields, s: set<string>)
    ensures Refs(Obj(m)) <= s <==> RefsWithin(m, s)
  {
    if Refs(Obj(m)) <= s {
      forall k | k in m ensures Refs(m[k]) <= s {
        assert forall r :: r in Refs(m[k]) ==> r in Refs(Obj(m));
      }
    }
  }

  lemma RefsOfItems(items: seq<Json>, i: nat)
    requires i < |items|
    ensures Refs(items[i]) <= Refs(Arr(items))
  {
  }

  lemma FlatRefs(n: Fields, s: set<string>)
    requires RefsWithin(n, s)
    ensures RefsWithin(FlattenScalarOneOf(FlattenNullableAnyOf(n)), s)
  {
    var a := FlattenNullableAnyOf(n);
    if "anyOf" in n && n["anyOf"].Arr? && exists i :: 0 <= i < |n["anyOf"].items| && NullableIdiom(n["anyOf"].items, i) {
      var members := n["anyOf"].items;
      var i :| 0 <= i < |members| && NullableIdiom(members, i);
      RefsOfItems(members, i);
      RefsOfFields(members[i].fields, s);
    }
    assert RefsWithin(a, s);
    if "oneOf" in a && a["oneOf"].Arr? && NumericMember(a["oneOf"].items).Some? {
      var members, numeric := a["oneOf"].items, NumericMember(a["oneOf"].items).value;
      var i :| 0 <= i < |members| && members[i] == Obj(numeric);
      RefsOfItems(members, i);
      RefsOfFields(numeric, s);
    }
  }

  lemma PruneRefs(n: Fields, s: set<string>)
    requires RefsWithin(n, s)
    ensures RefsWithin(PruneNode(n), s)
  {
    FlatRefs(n, s);
    var flat := FlattenScalarOneOf(FlattenNullableAnyOf(n));
    if "properties" in flat && flat["properties"].Obj? {
      var props := flat["properties"].fields;
      RefsOfFields(props, s);
      forall p | p in PruneProperties(props) ensures Refs(PruneProperties(props)[p]) <= s {
        if p == ODATA_TYPE && props[p].Obj? {
          RefsOfFields(props[p].fields, s);
          RefsOfFields(props[p].fields - {"default"}, s);
        }
      }
      RefsOfFields(PruneProperties(props), s);
    }
  }

  /** Pruning never introduces a reference. */
  lemma {:induction false} StripRefs(j: Json)
    ensures Refs(Strip(j)) <= Refs(j)
    decreases Height(j)
  {
    match j
    case Obj(n) =>
      PruneHeight(n);
      RefsOfFields(n, Refs(j));
      PruneRefs(n, Refs(j));
      var m := PruneNode(n);
      forall k | k in m {
        StripRefs(m[k]);
      }
      RefsOfFields(map k | k in m :: Strip(m[k]), Refs(j));
    case Arr(items) =>
      ArrHeight(items);
      forall i | 0 <= i < |items| ensures Refs(Strip(items[i])) <= Refs(j) {
        StripRefs(items[i]);
        RefsOfItems(items, i);
      }
    case _ =>
  }

  lemma {:induction false} NumericHasNoProperties(members: seq<Json>)
    ensures FirstNumeric(members).Some? ==> "properties" !in FirstNumeric(members).value
  {
    if members != [] && !IsNumeric(members[0]) {
      NumericHasNoProperties(members[1..]);
    }
  }

  /** Neither flattening touches the properties of a node. */
  lemma FlatteningKeepsProperties(n: Fields)
    ensures var flat := FlattenScalarOneOf(FlattenNullableAnyOf(n));
            ("properties" in flat <==> "properties" in n) && ("properties" in n ==> flat["properties"] == n["properties"])
  {
    var a := FlattenNullableAnyOf(n);
    if "oneOf" in a && a["oneOf"].Arr? {
      NumericHasNoProperties(a["oneOf"].items);
    }
  }

  /** The properties map is itself visited as a node; only a property named anyOf or oneOf whose
      schema is a list, which no schema is, makes a flattening rewrite it. */
  predicate ListNamedUnion(props: Fields) {
    ("anyOf" in props && props["anyOf"].Arr?) || ("oneOf" in props && props["oneOf"].Arr?)
  }

  /** Of the properties of any object schema, whatever else the node holds, exactly the navigation
      properties disappear (besides names that are vendor keys or "discriminator"). A properties map
      that is itself taken for a union keeps the names its flattening leaves. */
  lemma StripProperties(n: Fields, p: string)
    requires "properties" in n && n["properties"].Obj?
    ensures var s, props := Strip(Obj(n)).fields, n["properties"].fields;
            && "properties" in s && s["properties"].Obj?
            && (!ListNamedUnion(props) ==>
                  (p in s["properties"].fields <==>
                     p in props && !IsNavigation(props[p]) && !HasPrefix(p, VENDOR_PREFIX) && p != "discriminator"))
            && (p in s["properties"].fields <==>
                  && p in FlattenScalarOneOf(FlattenNullableAnyOf(PruneProperties(props)))
                  && !HasPrefix(p, VENDOR_PREFIX) && p != "discriminator")
  {
    PruneHeight(n);
    assert "properties"[..5] != VENDOR_PREFIX by {
      assert "properties"[..5][0] == 'p';
    }
    var props := PruneProperties(n["properties"].fields);
    FlatteningKeepsProperties(n);
    assert PruneNode(n)["properties"] == Obj(props);
    PruneHeight(props);
    FlatteningKeepsProperties(props);
    PrunedKeys(props, p);
  }

  lemma PrunedKeys(n: Fields, p: string)
    ensures p in PruneNode(n) <==>
            p in FlattenScalarOneOf(FlattenNullableAnyOf(n)) && !HasPrefix(p, VENDOR_PREFIX) && p != "discriminator"
  {
  }

  // ---- Properties at any depth ----

  /** The properties a map of properties keeps: those that are no navigation property, as the two
      flattenings leave them when the map itself is taken for a union. */
  function KeptProperties(props: Fields): Fields { FlattenScalarOneOf(FlattenNullableAnyOf(PruneProperties(props))) }

  lemma KeptIsPruned(props: Fields, p: string)
    requires !ListNamedUnion(props)
    ensures KeptProperties(props) == PruneProperties(props)
    ensures p in KeptProperties(props) <==> p in props && !IsNavigation(props[p])
    ensures p in KeptProperties(props) ==> !IsNavigation(KeptProperties(props)[p])
  {
  }

  function Pairs(m: Fields): set<(string, Json)> { set p | p in m :: (p, m[p]) }

  function NodeEntries(fields: Fields): set<(string, Json)> {
    if "properties" in fields && fields["properties"].Obj? then Pairs(KeptProperties(fields["properties"].fields)) else {}
  }

  /** Name and schema of every kept property of every properties map in the tree. */
  function Entries(j: Json): set<(string, Json)> {
    match j
    case Obj(fields) => NodeEntries(fields) + set k, e | k in fields && e in Entries(fields[k]) :: e
    case Arr(items) => set i, e | 0 <= i < |items| && e in Entries(items[i]) :: e
    case _ => {}
  }

  ghost predicate EntriesWithin(m: Fields, s: set<(string, Json)>) {
    NodeEntries(m) <= s && forall k :: k in m ==> Entries(m[k]) <= s
  }

  lemma EntriesOfFields(m: Fields, s: set<(string, Json)>)
    ensures Entries(Obj(m)) <= s <==> EntriesWithin(m, s)
  {
    if Entries(Obj(m)) <= s {
      forall k | k in m ensures Entries(m[k]) <= s {
        assert forall e :: e in Entries(m[k]) ==> e in Entries(Obj(m));
      }
    }
  }

  lemma EntriesOfItems(items: seq<Json>, i: nat)
    requires i < |items|
    ensures Entries(items[i]) <= Entries(Arr(items))
  {
  }

  lemma FlatEntries(n: Fields, s: set<(string, Json)>)
    requires EntriesWithin(n, s)
    ensures forall k :: k in FlattenScalarOneOf(FlattenNullableAnyOf(n)) ==> Entries(FlattenScalarOneOf(FlattenNullableAnyOf(n))[k]) <= s
  {
    var a := FlattenNullableAnyOf(n);
    if "anyOf" in n && n["anyOf"].Arr? && exists i :: 0 <= i < |n["anyOf"].items| && NullableIdiom(n["anyOf"].items, i) {
      var members := n["anyOf"].items;
      var i :| 0 <= i < |members| && NullableIdiom(members, i);
      EntriesOfItems(members, i);
      EntriesOfFields(members[i].fields, s);
    }
    assert forall k :: k in a ==> Entries(a[k]) <= s;
    if "oneOf" in a && a["oneOf"].Arr? && NumericMember(a["oneOf"].items).Some? {
      var members, numeric := a["oneOf"].items, NumericMember(a["oneOf"].items).value;
      var i :| 0 <= i < |members| && members[i] == Obj(numeric);
      EntriesOfItems(members, i);
      EntriesOfFields(numeric, s);
    }
  }

  lemma PrunedPropertiesEntries(props: Fields, s: set<(string, Json)>)
    requires Entries(Obj(props)) <= s
    ensures Entries(Obj(PruneProperties(props))) <= s
  {
    EntriesOfFields(props, s);
    forall p | p in PruneProperties(props) ensures Entries(PruneProperties(props)[p]) <= s {
      if p == ODATA_TYPE && props[p].Obj? {
        EntriesOfFields(props[p].fields, s);
        EntriesOfFields(props[p].fields - {"default"}, s);
      }
    }
    EntriesOfFields(PruneProperties(props), s);
  }

  lemma PruneEntries(n: Fields, s: set<(string, Json)>)
    requires Entries(Obj(n)) <= s
    ensures forall k :: k in PruneNode(n) ==> Entries(PruneNode(n)[k]) <= s
  {
    EntriesOfFields(n, s);
    FlatEntries(n, s);
    FlatteningKeepsProperties(n);
    if "properties" in n && n["properties"].Obj? {
      PrunedPropertiesEntries(n["properties"].fields, s);
    }
  }

  /** v is, pruned, what some kept property named p of the original tree was; a property named
      "properties" is pruned once more, as if it were a map of properties. */
  ghost predicate ComesFrom(p: string, v: Json, entries: set<(string, Json)>) {
    exists w :: (p, w) in entries && (p != "properties" ==> v == Strip(w))
  }

  ghost predicate AllComeFrom(j: Json, entries: set<(string, Json)>) {
    match j
    case Obj(fields) =>
      && ("properties" in fields && fields["properties"].Obj? ==>
            forall p :: p in fields["properties"].fields ==> ComesFrom(p, fields["properties"].fields[p], entries))
      && forall k | k in fields :: AllComeFrom(fields[k], entries)
    case Arr(items) => forall i | 0 <= i < |items| :: AllComeFrom(items[i], entries)
    case _ => true
  }

  lemma NodeComesFrom(n: Fields, p: string)
    requires var m := PruneNode(n); "properties" in m && m["properties"].Obj?
    requires var m := PruneNode(n); p in Strip(m["properties"]).fields
    ensures ComesFrom(p, Strip(PruneNode(n)["properties"]).fields[p], NodeEntries(n))
  {
    FlatteningKeepsProperties(n);
    var props := n["properties"].fields;
    var pruned, kept := PruneProperties(props), KeptProperties(props);
    assert PruneNode(n)["properties"] == Obj(pruned);
    PruneHeight(pruned);
    PrunedKeys(pruned, p);
    assert (p, kept[p]) in Pairs(kept);
  }

  /** Every property in any properties map of the pruned tree, at any depth, comes from a kept
      property of the original: a navigation property leaves none. */
  lemma {:induction false} StripKeepsOnlyKept(j: Json, entries: set<(string, Json)>)
    requires Entries(j) <= entries
    ensures AllComeFrom(Strip(j), entries)
    decreases Height(j)
  {
    match j
    case Obj(n) =>
      PruneHeight(n);
      PruneEntries(n, entries);
      EntriesOfFields(n, entries);
      var m := PruneNode(n);
      forall k | k in m ensures AllComeFrom(Strip(m[k]), entries) {
        StripKeepsOnlyKept(m[k], entries);
      }
      if "properties" in m && m["properties"].Obj? {
        forall p | p in Strip(m["properties"]).fields ensures ComesFrom(p, Strip(m["properties"]).fields[p], entries) {
          NodeComesFrom(n, p);
          var w :| (p, w) in NodeEntries(n) && (p != "properties" ==> Strip(m["properties"]).fields[p] == Strip(w));
        }
      }
    case Arr(items) =>
      ArrHeight(items);
      forall i | 0 <= i < |items| ensures AllComeFrom(Strip(items[i]), entries) {
        EntriesOfItems(items, i);
        StripKeepsOnlyKept(items[i], entries);
      }
    case _ =>
  }
}
