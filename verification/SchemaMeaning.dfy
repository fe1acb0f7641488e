/** What inlining keeps: the set of JSON values a schema accepts, by the keywords of JSON Schema draft-07. */
module SchemaMeaning {
  import opened Options
  import opened SchemaInliner

  /** What the value of a keyword is: one schema, one schema or a list of them, a list, a map from names to
      schemas (or, under `dependencies`, to lists of names), plain data that is compared with the instance or
      measures it, or something that constrains nothing. */
  datatype Kind = OneSchema | SchemaOrList | SchemaList | SchemaMap | Data | Ignored

  const ASSERTIONS := {
    "type", "enum", "const", "multipleOf", "maximum", "exclusiveMaximum", "minimum", "exclusiveMinimum",
    "maxLength", "minLength", "pattern", "maxItems", "minItems", "uniqueItems", "maxProperties", "minProperties",
    "required", "format", "contentEncoding", "contentMediaType"
  }

  function KindOf(key: string): Kind
  {
    if key in {"additionalItems", "contains", "additionalProperties", "propertyNames", "if", "then", "else", "not"}
    then OneSchema
    else if key == "items" then SchemaOrList
    else if key in {"allOf", "anyOf", "oneOf", "prefixItems"} then SchemaList
    else if key in {"properties", "patternProperties", "dependencies"} then SchemaMap
    else if key in ASSERTIONS then Data
    else Ignored
  }

  predicate IsSchema(node: Json) { node.Obj? || node.Bool? }

  // ----- the outline of an object: everything about it except what its subschemas accept

  datatype Entry = Entry(name: string, required: Option<seq<string>>)

  datatype Body =
    | Value(arg: Json)
    | Schema
    | Schemas(count: nat)
    | Entries(entries: seq<Entry>)
    | Nothing

  datatype Keyword = Keyword(key: string, body: Body)

  function Strings(items: seq<Json>): seq<string>
  {
    if items == [] then [] else (if items[0].Str? then [items[0].s] else []) + Strings(items[1..])
  }

  function EntryOf(f: Field): Entry
  {
    Entry(f.key, if f.value.Arr? then Some(Strings(f.value.items)) else None)
  }

  /** A value that is not of the form the keyword wants says nothing. */
  function BodyOf(key: string, arg: Json): (b: Body)
    ensures b.Schemas? ==> arg.Arr? && b.count == |arg.items|
    ensures b.Entries? ==> arg.Obj? && |b.entries| == |arg.fields|
  {
    match KindOf(key)
    case OneSchema => if IsSchema(arg) then Schema else Nothing
    case SchemaOrList => if IsSchema(arg) then Schema else if arg.Arr? then Schemas(|arg.items|) else Nothing
    case SchemaList => if arg.Arr? then Schemas(|arg.items|) else Nothing
    case SchemaMap =>
      if arg.Obj? then Entries(seq(|arg.fields|, j requires 0 <= j < |arg.fields| => EntryOf(arg.fields[j])))
      else Nothing
    case Data => Value(arg)
    case Ignored => Nothing
  }

  function Outline(fields: seq<Field>): (o: seq<Keyword>)
    ensures |o| == |fields|
    ensures forall i :: 0 <= i < |fields| ==> o[i] == Keyword(fields[i].key, BodyOf(fields[i].key, fields[i].value))
  {
    seq(|fields|, i requires 0 <= i < |fields| => Keyword(fields[i].key, BodyOf(fields[i].key, fields[i].value)))
  }

  /** Where a subschema stands: the value of a keyword, or its `j`-th item or entry. */
  datatype Slot = Whole(key: string) | Part(key: string, j: nat)

  predicate HasSlot(fields: seq<Field>, slot: Slot)
  {
    var arg := Get(fields, slot.key);
    && arg.Some?
    && match BodyOf(slot.key, arg.value)
       case Schema => slot.Whole?
       case Schemas(n) => slot.Part? && slot.j < n
       case Entries(entries) => slot.Part? && slot.j < |entries|
       case _ => false
  }

  function At(fields: seq<Field>, slot: Slot): (sub: Json)
    requires HasSlot(fields, slot)
    ensures sub < Obj(fields)
  {
    var arg := Get(fields, slot.key).value;
    if slot.Whole? then arg
    else if arg.Arr? then arg.items[slot.j]
    else arg.fields[slot.j].value
  }

  // ----- what the keywords say, given what the subschemas accept

  type Verdicts = (Slot, Json) -> bool

  /** The body of the keyword `key`, if there is one. */
  function Named(o: seq<Keyword>, key: string): Body
  {
    if o == [] then Nothing else if o[0].key == key then o[0].body else Named(o[1..], key)
  }

  /** How many items `prefixItems` takes. */
  function PrefixLength(o: seq<Keyword>): nat
  {
    var b := Named(o, "prefixItems");
    if b.Schemas? then b.count else 0
  }

  /** Definitions with their rank, the verdict of the assertions on plain data (keyword, its value,
      instance), and pattern matching. */
  datatype Context = Context(defs: seq<Field>, rank: map<string, nat>, data: (string, Json, Json) -> bool,
                             matches: (string, string) -> bool)

  /** `name` is an entry of the sibling `properties`, or matches one of `patternProperties`. */
  ghost predicate Covered(o: seq<Keyword>, cx: Context, name: string)
  {
    var p, q := Named(o, "properties"), Named(o, "patternProperties");
    || (p.Entries? && exists j :: 0 <= j < |p.entries| && p.entries[j].name == name)
    || (q.Entries? && exists j :: 0 <= j < |q.entries| && cx.matches(q.entries[j].name, name))
  }

  /** The verdict of keyword `k`, among its siblings `o`, on the instance `v`, as in sections 6.4 to 6.7 of
      JSON Schema draft-07 validation; `prefixItems`, and `items` next to it, as in section 10.3.1 of the
      2020-12 core. */
  ghost predicate Says(o: seq<Keyword>, k: Keyword, cx: Context, sat: Verdicts, v: Json)
  {
    match k.body
    case Nothing => true
    case Value(arg) => cx.data(k.key, arg, v)
    case Schema => SaysOne(o, k.key, cx, sat, v)
    case Schemas(n) => SaysList(k.key, n, sat, v)
    case Entries(entries) => v.Obj? ==> forall j :: 0 <= j < |entries| ==> SaysEntry(k.key, entries[j], j, cx, sat, v)
  }

  ghost predicate SaysOne(o: seq<Keyword>, key: string, cx: Context, sat: Verdicts, v: Json)
  {
    var here := Whole(key);
    if key == "not" then !sat(here, v)
    else if key == "items" then
      v.Arr? ==> forall j :: PrefixLength(o) <= j < |v.items| ==> sat(here, v.items[j])
    else if key == "additionalItems" then
      var listed := Named(o, "items");
      v.Arr? && listed.Schemas? ==> forall j :: listed.count <= j < |v.items| ==> sat(here, v.items[j])
    else if key == "contains" then v.Arr? ==> exists j :: 0 <= j < |v.items| && sat(here, v.items[j])
    else if key == "propertyNames" then
      v.Obj? ==> forall j :: 0 <= j < |v.fields| ==> sat(here, Str(v.fields[j].key))
    else if key == "additionalProperties" then
      v.Obj? ==> forall j :: 0 <= j < |v.fields| && !Covered(o, cx, v.fields[j].key) ==> sat(here, v.fields[j].value)
    else
      // "if" itself accepts; "then" and "else" ask what it says.
      (key == "then" || key == "else") && Named(o, "if").Schema? && sat(Whole("if"), v) == (key == "then") ==>
        sat(here, v)
  }

  ghost predicate SaysList(key: string, n: nat, sat: Verdicts, v: Json)
  {
    if key == "items" || key == "prefixItems" then
      v.Arr? ==> forall j :: 0 <= j < n && j < |v.items| ==> sat(Part(key, j), v.items[j])
    else if key == "allOf" then forall j :: 0 <= j < n ==> sat(Part(key, j), v)
    else if key == "anyOf" then exists j :: 0 <= j < n && sat(Part(key, j), v)
    else
      exists j :: 0 <= j < n && sat(Part(key, j), v) && forall k :: 0 <= k < n && k != j ==> !sat(Part(key, k), v)
  }

  ghost predicate SaysEntry(key: string, e: Entry, j: nat, cx: Context, sat: Verdicts, v: Json)
    requires v.Obj?
  {
    var present := Get(v.fields, e.name);
    if key == "properties" then present.Some? ==> sat(Part(key, j), present.value)
    else if key == "patternProperties" then
      forall k :: 0 <= k < |v.fields| && cx.matches(e.name, v.fields[k].key) ==> sat(Part(key, j), v.fields[k].value)
    else if present.None? then true
    else if e.required.Some? then
      forall k :: 0 <= k < |e.required.value| ==> Get(v.fields, e.required.value[k]).Some?
    else sat(Part(key, j), v)
  }

  // ----- validation

  ghost predicate Wellfounded(cx: Context, node: Json, bound: nat) { HasRank(node, cx.defs, cx.rank, bound) }

  /** Validation. An object with a known `$ref` is its target and nothing else (section 8.3 of JSON Schema
      draft-07 core); otherwise all its keywords must accept. What is no schema accepts everything. */
  ghost predicate Accepts(schema: Json, cx: Context, bound: nat, v: Json)
    requires Wellfounded(cx, schema, bound)
    decreases bound, schema, 1
  {
    match schema
    case Bool(b) => b
    case Obj(fields) =>
      var name := RefTarget(fields, cx.defs);
      if name.Some? then Accepts(Get(cx.defs, name.value).value, cx, cx.rank[name.value], v)
      else AllSay(Outline(fields), Outline(fields), cx, SlotVerdicts(fields, cx, bound), v)
    case _ => true
  }

  ghost predicate AllSay(o: seq<Keyword>, keywords: seq<Keyword>, cx: Context, sat: Verdicts, v: Json)
  {
    forall k :: k in keywords ==> Says(o, k, cx, sat, v)
  }

  /** What the subschemas of an object accept. */
  ghost function SlotVerdicts(fields: seq<Field>, cx: Context, bound: nat): Verdicts
    decreases bound, Obj(fields), 0
  {
    (slot: Slot, x: Json) =>
      HasSlot(fields, slot) && Wellfounded(cx, At(fields, slot), bound) && Accepts(At(fields, slot), cx, bound, x)
  }

  // ----- schemas that inlining understands

  /** Inlining rewrites under every key alike, so data that the schema states must hold nothing that looks
      like a known reference, and a map from names must not be shaped like one itself. References may stand
      wherever a schema may; outside `const` and `enum` data that means anything holds no object at all. */
  ghost predicate Proper(schema: Json, defs: seq<Field>)
    decreases schema
  {
    schema.Obj? && RefTarget(schema.fields, defs).None? ==>
      && (forall i :: 0 <= i < |schema.fields| ==> ProperValue(schema.fields[i], defs))
      && (forall slot :: HasSlot(schema.fields, slot) ==> Proper(At(schema.fields, slot), defs))
  }

  ghost predicate ProperValue(f: Field, defs: seq<Field>)
  {
    && (KindOf(f.key).Data? ==> RefFree(f.value, defs))
    && (KindOf(f.key).SchemaMap? && f.value.Obj? ==> RefTarget(f.value.fields, defs).None?)
  }

  /** Definitions are schemas, and proper ones. */
  ghost predicate ProperDefs(cx: Context)
  {
    forall name :: name in cx.rank && Get(cx.defs, name).Some? ==>
      IsSchema(Get(cx.defs, name).value) && Proper(Get(cx.defs, name).value, cx.defs)
  }

  // ----- what stands alone

  /** The environment of an inlined schema: no definitions. */
  function Empty(cx: Context): Context { cx.(defs := [], rank := map[]) }

  lemma {:induction false} NoDefsNoTargets(node: Json, bound: nat)
    ensures Ranked(node, [], map[], bound)
    decreases node
  {
    match node {
      case Obj(fields) =>
        forall i | 0 <= i < |fields| ensures Ranked(fields[i].value, [], map[], bound) {
          NoDefsNoTargets(fields[i].value, bound);
        }
      case Arr(items) =>
        forall i | 0 <= i < |items| ensures Ranked(items[i], [], map[], bound) { NoDefsNoTargets(items[i], bound); }
      case _ =>
    }
  }

  /** Validation of a schema that stands on its own. */
  ghost predicate AcceptsAlone(schema: Json, cx: Context, v: Json)
  {
    NoDefsNoTargets(schema, 0);
    Accepts(schema, Empty(cx), 0, v)
  }

  lemma AloneUnfolds(fields: seq<Field>, cx: Context, v: Json)
    ensures AcceptsAlone(Obj(fields), cx, v) <==>
              AllSay(Outline(fields), Outline(fields), Empty(cx), SlotVerdicts(fields, Empty(cx), 0), v)
  {
    NoDefsNoTargets(Obj(fields), 0);
    assert RefTarget(fields, []).None?;
  }

  lemma SlotAlone(fields: seq<Field>, slot: Slot, cx: Context, x: Json)
    requires HasSlot(fields, slot)
    ensures SlotVerdicts(fields, Empty(cx), 0)(slot, x) <==> AcceptsAlone(At(fields, slot), cx, x)
  {
    NoDefsNoTargets(At(fields, slot), 0);
  }

  // ----- resolving keeps the outline

  lemma {:induction false} ResolvedShape(node: Json, cx: Context, bound: nat)
    requires Wellfounded(cx, node, bound) && ProperDefs(cx)
    ensures var r := Resolve(node, cx.defs, cx.rank, bound);
            && (IsSchema(node) <==> IsSchema(r))
            && (node.Arr? <==> r.Arr?)
            && (node.Str? ==> r == node) && (r.Str? ==> node.Str?)
    decreases bound
  {
    if node.Obj? && RefTarget(node.fields, cx.defs).Some? {
      var name := RefTarget(node.fields, cx.defs).value;
      ResolvedShape(Get(cx.defs, name).value, cx, cx.rank[name]);
    }
  }

  lemma {:induction false} ResolvedStrings(items: seq<Json>, done: seq<Json>, cx: Context, bound: nat)
    requires Acyclic(cx.defs, cx.rank) && ProperDefs(cx) && |done| == |items|
    requires forall j :: 0 <= j < |items| ==>
               Ranked(items[j], cx.defs, cx.rank, bound) && done[j] == Resolve(items[j], cx.defs, cx.rank, bound)
    ensures Strings(done) == Strings(items)
  {
    if items != [] {
      ResolvedShape(items[0], cx, bound);
      ResolvedStrings(items[1..], done[1..], cx, bound);
    }
  }

  lemma ResolvedEntry(f: Field, cx: Context, bound: nat)
    requires Wellfounded(cx, f.value, bound) && ProperDefs(cx)
    ensures EntryOf(Field(f.key, Resolve(f.value, cx.defs, cx.rank, bound))) == EntryOf(f)
  {
    ResolvedShape(f.value, cx, bound);
    if f.value.Arr? {
      ResolvedStrings(f.value.items, Resolve(f.value, cx.defs, cx.rank, bound).items, cx, bound);
    }
  }

  lemma ResolvedBody(f: Field, cx: Context, bound: nat)
    requires Wellfounded(cx, f.value, bound) && ProperDefs(cx) && ProperValue(f, cx.defs)
    ensures BodyOf(f.key, Resolve(f.value, cx.defs, cx.rank, bound)) == BodyOf(f.key, f.value)
  {
    var done := Resolve(f.value, cx.defs, cx.rank, bound);
    ResolvedShape(f.value, cx, bound);
    if KindOf(f.key).Data? {
      ResolveRefFree(f.value, cx.defs, cx.rank, bound);
    } else if KindOf(f.key).SchemaMap? && f.value.Obj? {
      forall j | 0 <= j < |f.value.fields| ensures EntryOf(done.fields[j]) == EntryOf(f.value.fields[j]) {
        ResolvedEntry(f.value.fields[j], cx, bound);
      }
      assert BodyOf(f.key, done).entries == BodyOf(f.key, f.value).entries;
    }
  }

  /** What `Resolve` makes of a proper object that is not a reference. */
  ghost predicate ResolvedFields(fields: seq<Field>, done: seq<Field>, cx: Context, bound: nat)
  {
    && Wellfounded(cx, Obj(fields), bound) && RefTarget(fields, cx.defs).None?
    && Proper(Obj(fields), cx.defs) && ProperDefs(cx)
    && Resolve(Obj(fields), cx.defs, cx.rank, bound) == Obj(done)
  }

  lemma OutlineResolved(fields: seq<Field>, done: seq<Field>, cx: Context, bound: nat)
    requires ResolvedFields(fields, done, cx, bound)
    ensures Outline(done) == Outline(fields)
  {
    forall i | 0 <= i < |fields|
      ensures done[i].key == fields[i].key
          && BodyOf(done[i].key, done[i].value) == BodyOf(fields[i].key, fields[i].value)
    {
      assert ProperValue(fields[i], cx.defs);
      ResolvedBody(fields[i], cx, bound);
    }
  }

  lemma ResolvedPart(f: Field, cx: Context, bound: nat)
    requires Wellfounded(cx, f.value, bound) && ProperDefs(cx) && ProperValue(f, cx.defs)
    ensures var done := Resolve(f.value, cx.defs, cx.rank, bound);
            match BodyOf(f.key, f.value)
            case Schemas(n) =>
              forall j :: 0 <= j < n ==>
                Ranked(f.value.items[j], cx.defs, cx.rank, bound)
                && done.items[j] == Resolve(f.value.items[j], cx.defs, cx.rank, bound)
            case Entries(entries) =>
              forall j :: 0 <= j < |entries| ==>
                Ranked(f.value.fields[j].value, cx.defs, cx.rank, bound)
                && done.fields[j].value == Resolve(f.value.fields[j].value, cx.defs, cx.rank, bound)
            case _ => true
  {
  }

  lemma SlotResolved(fields: seq<Field>, done: seq<Field>, slot: Slot, cx: Context, bound: nat)
    requires ResolvedFields(fields, done, cx, bound)
    ensures HasSlot(done, slot) <==> HasSlot(fields, slot)
    ensures HasSlot(fields, slot) ==>
              && Wellfounded(cx, At(fields, slot), bound)
              && At(done, slot) == Resolve(At(fields, slot), cx.defs, cx.rank, bound)
  {
    GetResolved(fields, done, slot.key);
    if Get(fields, slot.key).Some? {
      var i :| 0 <= i < |fields| && fields[i].key == slot.key
               && Get(fields, slot.key) == Some(fields[i].value) && Get(done, slot.key) == Some(done[i].value);
      assert ProperValue(fields[i], cx.defs);
      assert done[i].value == Resolve(fields[i].value, cx.defs, cx.rank, bound);
      ResolvedBody(fields[i], cx, bound);
      ResolvedPart(fields[i], cx, bound);
    }
  }

  // ----- and so the meaning

  ghost predicate SameVerdicts(sat: Verdicts, sat': Verdicts)
  {
    forall slot, x :: sat(slot, x) == sat'(slot, x)
  }

  ghost predicate SameSiblings(o: seq<Keyword>, o': seq<Keyword>)
  {
    forall key :: Named(o, key) == Named(o', key)
  }

  lemma OneCongruent(o: seq<Keyword>, o': seq<Keyword>, key: string, cx: Context, sat: Verdicts,
                    sat': Verdicts, v: Json)
    requires SameSiblings(o, o') && SameVerdicts(sat, sat')
    ensures SaysOne(o, key, cx, sat, v) == SaysOne(o', key, Empty(cx), sat', v)
  {
    assert forall name :: Covered(o, cx, name) == Covered(o', Empty(cx), name);
  }

  lemma EntryCongruent(key: string, e: Entry, j: nat, cx: Context, sat: Verdicts, sat': Verdicts, v: Json)
    requires v.Obj? && SameVerdicts(sat, sat')
    ensures SaysEntry(key, e, j, cx, sat, v) == SaysEntry(key, e, j, Empty(cx), sat', v)
  {
  }

  /** What a keyword says depends on the subschemas only through what they accept, on its siblings only
      through what they are, and not on the definitions. */
  lemma SaysCongruent(o: seq<Keyword>, o': seq<Keyword>, k: Keyword, cx: Context, sat: Verdicts,
                     sat': Verdicts, v: Json)
    requires SameSiblings(o, o') && SameVerdicts(sat, sat')
    ensures Says(o, k, cx, sat, v) == Says(o', k, Empty(cx), sat', v)
  {
    match k.body
    case Nothing =>
    case Value(_) =>
    case Schema => OneCongruent(o, o', k.key, cx, sat, sat', v);
    case Schemas(_) =>
    case Entries(entries) =>
      if v.Obj? {
        forall j | 0 <= j < |entries|
          ensures SaysEntry(k.key, entries[j], j, cx, sat, v) == SaysEntry(k.key, entries[j], j, Empty(cx), sat', v)
        {
          EntryCongruent(k.key, entries[j], j, cx, sat, sat', v);
        }
      }
  }

  lemma AllCongruent(o: seq<Keyword>, o': seq<Keyword>, keywords: seq<Keyword>, cx: Context,
                     sat: Verdicts, sat': Verdicts, v: Json)
    requires SameSiblings(o, o') && SameVerdicts(sat, sat')
    ensures AllSay(o, keywords, cx, sat, v) == AllSay(o', keywords, Empty(cx), sat', v)
  {
    forall k ensures Says(o, k, cx, sat, v) == Says(o', k, Empty(cx), sat', v) {
      SaysCongruent(o, o', k, cx, sat, sat', v);
    }
  }

  /** Inlining keeps the meaning: a resolved schema, standing alone, accepts exactly the values the
      original accepts under its definitions. */
  lemma {:induction false} ResolvePreservesMeaning(schema: Json, cx: Context, bound: nat, v: Json)
    requires Wellfounded(cx, schema, bound) && Proper(schema, cx.defs) && ProperDefs(cx)
    ensures AcceptsAlone(Resolve(schema, cx.defs, cx.rank, bound), cx, v) <==> Accepts(schema, cx, bound, v)
    decreases bound, schema
  {
    if schema.Obj? {
      var fields := schema.fields;
      var name := RefTarget(fields, cx.defs);
      if name.Some? {
        ResolvePreservesMeaning(Get(cx.defs, name.value).value, cx, cx.rank[name.value], v);
      } else {
        var done, o := Resolve(schema, cx.defs, cx.rank, bound).fields, Outline(fields);
        forall slot, x
          ensures SlotVerdicts(fields, cx, bound)(slot, x) == SlotVerdicts(done, Empty(cx), 0)(slot, x)
        {
          SlotPreserved(schema, fields, done, slot, cx, bound, x);
        }
        OutlineResolved(fields, done, cx, bound);
        AllCongruent(o, o, o, cx, SlotVerdicts(fields, cx, bound), SlotVerdicts(done, Empty(cx), 0), v);
        AloneUnfolds(done, cx, v);
      }
    } else {
      NoDefsNoTargets(Resolve(schema, cx.defs, cx.rank, bound), 0);
    }
  }

  lemma {:induction false} SlotPreserved(schema: Json, fields: seq<Field>, done: seq<Field>, slot: Slot,
                                         cx: Context, bound: nat, x: Json)
    requires schema == Obj(fields) && ResolvedFields(fields, done, cx, bound)
    ensures SlotVerdicts(fields, cx, bound)(slot, x) == SlotVerdicts(done, Empty(cx), 0)(slot, x)
    decreases bound, schema, 0
  {
    SlotResolved(fields, done, slot, cx, bound);
    if HasSlot(fields, slot) {
      SlotAlone(done, slot, cx, x);
      ResolvePreservesMeaning(At(fields, slot), cx, bound, x);
    }
  }

  // ----- the whole of `_inline_defs`

  function DropDefs(fields: seq<Field>): (r: seq<Field>)
  {
    if fields == [] then []
    else if fields[0].key == "$defs" then DropDefs(fields[1..])
    else [fields[0]] + DropDefs(fields[1..])
  }

  lemma {:induction false} DropMembers(fields: seq<Field>, f: Field)
    ensures f in DropDefs(fields) <==> f in fields && f.key != "$defs"
  {
    if fields != [] { DropMembers(fields[1..], f); }
  }

  /** The definitions of a schema; anything but a nonempty object counts as none. */
  function DefsOf(fields: seq<Field>): seq<Field>
  {
    var d := Get(fields, "$defs");
    if d.Some? && d.value.Obj? then d.value.fields else []
  }

  function Strip(node: Json): Json { if node.Obj? then Obj(DropDefs(node.fields)) else node }

  /** `_inline_defs` under a recursion limit. */
  function InlineDefs(schema: Json, depth: nat): (r: Option<Json>)
    requires schema.Obj?
  {
    var defs := DefsOf(schema.fields);
    if defs == [] then Some(schema)
    else
      var resolved := ResolveWithin(schema, defs, depth);
      if resolved.None? then None else Some(Strip(resolved.value))
  }

  lemma {:induction false} GetDropped(fields: seq<Field>, key: string)
    ensures Get(DropDefs(fields), key) == if key == "$defs" then None else Get(fields, key)
  {
    if fields != [] {
      GetDropped(fields[1..], key);
      if fields[0].key != "$defs" {
        var rest := DropDefs(fields[1..]);
        assert ([fields[0]] + rest)[0] == fields[0] && ([fields[0]] + rest)[1..] == rest;
      }
    }
  }

  lemma {:induction false} NamedIs(fields: seq<Field>, key: string)
    ensures Named(Outline(fields), key) ==
              if Get(fields, key).Some? then BodyOf(key, Get(fields, key).value) else Nothing
  {
    if fields != [] {
      NamedIs(fields[1..], key);
      assert Outline(fields)[1..] == Outline(fields[1..]);
    }
  }

  lemma DefsAreIgnored()
    ensures KindOf("$defs").Ignored?
  {
  }

  lemma SiblingsDropped(fields: seq<Field>)
    ensures SameSiblings(Outline(fields), Outline(DropDefs(fields)))
  {
    var less := DropDefs(fields);
    DefsAreIgnored();
    forall key ensures Named(Outline(fields), key) == Named(Outline(less), key) {
      NamedIs(fields, key);
      NamedIs(less, key);
      GetDropped(fields, key);
    }
  }

  lemma OutlineMembers(fields: seq<Field>, k: Keyword)
    ensures k in Outline(fields) <==> exists f :: f in fields && k == Keyword(f.key, BodyOf(f.key, f.value))
  {
    if k in Outline(fields) {
      var i :| 0 <= i < |fields| && Outline(fields)[i] == k;
      assert fields[i] in fields;
    }
    if f :| f in fields && k == Keyword(f.key, BodyOf(f.key, f.value)) {
      var i :| 0 <= i < |fields| && fields[i] == f;
      assert Outline(fields)[i] == k;
    }
  }

  lemma OutlineDropped(fields: seq<Field>, k: Keyword)
    ensures k in Outline(fields) && k.body != Nothing ==> k in Outline(DropDefs(fields))
    ensures k in Outline(DropDefs(fields)) ==> k in Outline(fields)
  {
    DefsAreIgnored();
    OutlineMembers(fields, k);
    OutlineMembers(DropDefs(fields), k);
    forall f: Field ensures f in DropDefs(fields) <==> f in fields && f.key != "$defs" { DropMembers(fields, f); }
  }

  /** Keywords that say nothing may be left out of the conjunction. */
  lemma AllSayFewer(o: seq<Keyword>, all: seq<Keyword>, fewer: seq<Keyword>, cx: Context, sat: Verdicts, v: Json)
    requires forall k :: k in all && k.body != Nothing ==> k in fewer
    requires forall k :: k in fewer ==> k in all
    ensures AllSay(o, all, cx, sat, v) == AllSay(o, fewer, cx, sat, v)
  {
    forall k | k in all && k !in fewer ensures Says(o, k, cx, sat, v) { }
  }

  lemma SameSlot(a: seq<Field>, b: seq<Field>, slot: Slot, cx: Context, x: Json)
    requires Get(a, slot.key) == Get(b, slot.key)
    ensures SlotVerdicts(a, cx, 0)(slot, x) == SlotVerdicts(b, cx, 0)(slot, x)
  {
    assert HasSlot(a, slot) == HasSlot(b, slot);
    if HasSlot(a, slot) { assert At(a, slot) == At(b, slot); }
  }

  lemma SlotDropped(fields: seq<Field>, slot: Slot, cx: Context, x: Json)
    ensures SlotVerdicts(fields, cx, 0)(slot, x) == SlotVerdicts(DropDefs(fields), cx, 0)(slot, x)
  {
    GetDropped(fields, slot.key);
    if slot.key == "$defs" {
      DefsAreIgnored();
      assert !HasSlot(fields, slot) && !HasSlot(DropDefs(fields), slot);
    } else {
      SameSlot(fields, DropDefs(fields), slot, cx, x);
    }
  }

  lemma DropKeepsVerdict(fields: seq<Field>, cx: Context, v: Json)
    ensures AcceptsAlone(Obj(DropDefs(fields)), cx, v) <==> AcceptsAlone(Obj(fields), cx, v)
  {
    var less, alone := DropDefs(fields), Empty(cx);
    var o, o' := Outline(fields), Outline(less);
    var sat, sat' := SlotVerdicts(fields, alone, 0), SlotVerdicts(less, alone, 0);
    assert SameVerdicts(sat, sat') by {
      forall slot, x ensures sat(slot, x) == sat'(slot, x) { SlotDropped(fields, slot, alone, x); }
    }
    assert AllSay(o, o, alone, sat, v) == AllSay(o, o', alone, sat, v) by {
      forall k: Keyword
        ensures k in o && k.body != Nothing ==> k in o'
        ensures k in o' ==> k in o
      {
        OutlineDropped(fields, k);
      }
      AllSayFewer(o, o, o', alone, sat, v);
    }
    assert AllSay(o, o', alone, sat, v) == AllSay(o', o', alone, sat', v) by {
      SiblingsDropped(fields);
      AllCongruent(o, o', o', alone, sat, sat', v);
      assert Empty(alone) == alone;
    }
    AloneUnfolds(fields, cx, v);
    AloneUnfolds(less, cx, v);
  }

  /** For acyclic definitions `_inline_defs` returns, and what it returns accepts, standing alone, exactly
      the values the schema accepts under its definitions. */
  lemma InliningPreservesMeaning(schema: Json, cx: Context, bound: nat, v: Json)
    requires schema.Obj? && cx.defs == DefsOf(schema.fields)
    requires Wellfounded(cx, schema, bound) && Proper(schema, cx.defs) && ProperDefs(cx)
    ensures InlineDefs(schema, bound).Some?
    ensures AcceptsAlone(InlineDefs(schema, bound).value, cx, v) <==> Accepts(schema, cx, bound, v)
  {
    ResolvePreservesMeaning(schema, cx, bound, v);
    var r := Resolve(schema, cx.defs, cx.rank, bound);
    if cx.defs == [] {
      NoDefsNoTargets(schema, 0);
      ResolveRefFree(schema, [], cx.rank, bound);
    } else {
      AcyclicTerminates(schema, cx.defs, cx.rank, bound, bound);
      if r.Obj? { DropKeepsVerdict(r.fields, cx, v); }
    }
  }

  lemma {:induction false} DroppedRefFree(fields: seq<Field>, defs: seq<Field>)
    requires RefFree(Obj(fields), defs)
    ensures RefFree(Obj(DropDefs(fields)), defs)
  {
    var less := DropDefs(fields);
    GetDropped(fields, "$ref");
    forall j | 0 <= j < |less| ensures RefFree(less[j].value, defs) {
      DropMembers(fields, less[j]);
      var i :| 0 <= i < |fields| && fields[i] == less[j];
    }
  }

  /** The inlined schema names no definition it had, and inlining it again changes nothing. */
  lemma InlinedIsSelfContained(schema: Json, rank: map<string, nat>, bound: nat)
    requires schema.Obj? && HasRank(schema, DefsOf(schema.fields), rank, bound)
    requires NoReferenceStrings(DefsOf(schema.fields), rank)
    ensures var r := InlineDefs(schema, bound);
            && r.Some? && RefFree(r.value, DefsOf(schema.fields))
            && (r.value.Obj? ==> forall depth :: InlineDefs(r.value, depth) == r)
  {
    var defs := DefsOf(schema.fields);
    if defs == [] {
      NoDefsNoTargets(schema, 0);
      return;
    }
    AcyclicTerminates(schema, defs, rank, bound, bound);
    ResolveLeavesNoRef(schema, defs, rank, bound);
    var resolved := Resolve(schema, defs, rank, bound);
    if resolved.Obj? {
      DroppedRefFree(resolved.fields, defs);
      GetDropped(resolved.fields, "$defs");
    }
  }

  // ----- when a constant survives

  /** `same` is an equality of JSON values under which it does not matter whether a value holds a
      reference; two objects may differ in the order of their keys, say. */
  ghost predicate IsEquality(same: (Json, Json) -> bool, defs: seq<Field>)
  {
    && (forall a :: same(a, a))
    && (forall a, b :: same(a, b) ==> (RefFree(a, defs) <==> RefFree(b, defs)))
  }

  /** `const` accepts what equals its value. */
  ghost predicate ConstCompares(cx: Context, same: (Json, Json) -> bool)
  {
    forall c, v :: cx.data("const", c, v) <==> same(c, v)
  }

  function ConstOf(c: Json): seq<Field> { [Field("const", c)] }

  lemma ConstOutline(c: Json)
    ensures Outline(ConstOf(c)) == [Keyword("const", Value(c))]
  {
    assert KindOf("const").Data?;
  }

  lemma ConstBefore(c: Json, cx: Context, bound: nat, v: Json)
    requires Wellfounded(cx, c, bound)
    ensures Wellfounded(cx, Obj(ConstOf(c)), bound)
    ensures Accepts(Obj(ConstOf(c)), cx, bound, v) <==> cx.data("const", c, v)
  {
    assert RefTarget(ConstOf(c), cx.defs).None?;
    ConstOutline(c);
    assert Keyword("const", Value(c)) in Outline(ConstOf(c));
  }

  lemma ConstResolved(c: Json, cx: Context, bound: nat)
    requires Wellfounded(cx, c, bound)
    ensures Wellfounded(cx, Obj(ConstOf(c)), bound)
    ensures Resolve(Obj(ConstOf(c)), cx.defs, cx.rank, bound) == Obj(ConstOf(Resolve(c, cx.defs, cx.rank, bound)))
  {
    assert RefTarget(ConstOf(c), cx.defs).None?;
    var done := Resolve(Obj(ConstOf(c)), cx.defs, cx.rank, bound).fields;
    assert done == ConstOf(Resolve(c, cx.defs, cx.rank, bound));
  }

  /** Inlining rewrites a constant like everything else. It leaves the verdict of a `const` unchanged on
      every instance if and only if the constant holds nothing that looks like a known reference. */
  lemma ConstSurvivesIff(c: Json, cx: Context, bound: nat, same: (Json, Json) -> bool)
    requires Wellfounded(cx, c, bound) && NoReferenceStrings(cx.defs, cx.rank)
    requires IsEquality(same, cx.defs) && ConstCompares(cx, same)
    ensures Wellfounded(cx, Obj(ConstOf(c)), bound)
    ensures (forall v :: AcceptsAlone(Resolve(Obj(ConstOf(c)), cx.defs, cx.rank, bound), cx, v)
                         <==> Accepts(Obj(ConstOf(c)), cx, bound, v))
        <==> RefFree(c, cx.defs)
  {
    var d := Resolve(c, cx.defs, cx.rank, bound);
    ConstResolved(c, cx, bound);
    forall v
      ensures AcceptsAlone(Obj(ConstOf(d)), cx, v) <==> same(d, v)
      ensures Accepts(Obj(ConstOf(c)), cx, bound, v) <==> same(c, v)
    {
      ConstBefore(c, cx, bound, v);
      NoDefsNoTargets(d, 0);
      ConstBefore(d, Empty(cx), 0, v);
    }
    if RefFree(c, cx.defs) {
      ResolveRefFree(c, cx.defs, cx.rank, bound);
    } else {
      ResolveLeavesNoRef(c, cx.defs, cx.rank, bound);
      assert same(c, c) && !same(d, c);
    }
  }
}
