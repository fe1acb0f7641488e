/** Inlining `$defs` into a JSON schema: `_inline_defs` and its inner `_resolve`. */
module SchemaInliner {
  import opened Options

  datatype Json =
    | Null
    | Bool(b: bool)
    | Num(n: real)
    | Str(s: string)
    | Arr(items: seq<Json>)
    | Obj(fields: seq<Field>)

  datatype Field = Field(key: string, value: Json)

  /** `d.get(key)` */
  function Get(fields: seq<Field>, key: string): (r: Option<Json>)
    ensures r.Some? ==> Field(key, r.value) in fields
  {
    if fields == [] then None
    else if fields[0].key == key then Some(fields[0].value)
    else Get(fields[1..], key)
  }

  /** `s.rsplit("/", 1)[-1]` */
  function LastSegment(s: string): string
  {
    if s == "" then ""
    else if s[|s| - 1] == '/' then ""
    else LastSegment(s[..|s| - 1]) + [s[|s| - 1]]
  }

  /** The definition an object stands for, by name. A definition that is `null` counts as missing. */
  function RefTarget(fields: seq<Field>, defs: seq<Field>): (r: Option<string>)
    ensures r.Some? ==> Get(defs, r.value).Some?
  {
    var ref := Get(fields, "$ref");
    if ref.Some? && ref.value.Str? then
      var name := LastSegment(ref.value.s);
      var target := Get(defs, name);
      if target.Some? && !target.value.Null? then Some(name) else None
    else None
  }

  // ----- resolution with a recursion limit, as Python runs it

  /** `_resolve` allowed to follow at most `depth` nested references; `None` is a RecursionError. */
  function ResolveWithin(node: Json, defs: seq<Field>, depth: nat): (r: Option<Json>)
    decreases depth, node
  {
    match node
    case Obj(fields) =>
      var name := RefTarget(fields, defs);
      if name.Some? then
        if depth == 0 then None else ResolveWithin(Get(defs, name.value).value, defs, depth - 1)
      else if forall i :: 0 <= i < |fields| ==> ResolveWithin(fields[i].value, defs, depth).Some? then
        Some(Obj(seq(|fields|, i requires 0 <= i < |fields| =>
          Field(fields[i].key, ResolveWithin(fields[i].value, defs, depth).value))))
      else None
    case Arr(items) =>
      if forall i :: 0 <= i < |items| ==> ResolveWithin(items[i], defs, depth).Some? then
        Some(Arr(seq(|items|, i requires 0 <= i < |items| => ResolveWithin(items[i], defs, depth).value)))
      else None
    case _ => Some(node)
  }

  // ----- acyclic definitions

  /** Every reference that `_resolve` meets in `node` names a definition of rank below `bound`. */
  ghost predicate Ranked(node: Json, defs: seq<Field>, rank: map<string, nat>, bound: nat)
  {
    match node
    case Obj(fields) =>
      var name := RefTarget(fields, defs);
      if name.Some? then name.value in rank && rank[name.value] < bound
      else forall i :: 0 <= i < |fields| ==> Ranked(fields[i].value, defs, rank, bound)
    case Arr(items) => forall i :: 0 <= i < |items| ==> Ranked(items[i], defs, rank, bound)
    case _ => true
  }

  /** Definitions refer only to definitions of lower rank; those without a rank are never reached. */
  ghost predicate Acyclic(defs: seq<Field>, rank: map<string, nat>)
  {
    forall name :: name in rank ==> Get(defs, name).Some? && Ranked(Get(defs, name).value, defs, rank, rank[name])
  }

  /** `_resolve` for acyclic definitions. */
  ghost function Resolve(node: Json, defs: seq<Field>, rank: map<string, nat>, bound: nat): (r: Json)
    requires Acyclic(defs, rank) && Ranked(node, defs, rank, bound)
    decreases bound, node
  {
    match node
    case Obj(fields) =>
      var name := RefTarget(fields, defs);
      if name.Some? then Resolve(Get(defs, name.value).value, defs, rank, rank[name.value])
      else Obj(seq(|fields|, i requires 0 <= i < |fields| =>
               Field(fields[i].key, Resolve(fields[i].value, defs, rank, bound))))
    case Arr(items) => Arr(seq(|items|, i requires 0 <= i < |items| => Resolve(items[i], defs, rank, bound)))
    case _ => node
  }

  /** For acyclic definitions resolution terminates, as soon as the limit reaches the rank. */
  lemma {:induction false} AcyclicTerminates(node: Json, defs: seq<Field>, rank: map<string, nat>, bound: nat,
                                            depth: nat)
    requires Acyclic(defs, rank) && Ranked(node, defs, rank, bound) && bound <= depth
    ensures ResolveWithin(node, defs, depth) == Some(Resolve(node, defs, rank, bound))
    decreases bound, node
  {
    match node {
      case Obj(fields) =>
        var name := RefTarget(fields, defs);
        if name.Some? {
          AcyclicTerminates(Get(defs, name.value).value, defs, rank, rank[name.value], depth - 1);
        } else {
          forall i | 0 <= i < |fields|
            ensures ResolveWithin(fields[i].value, defs, depth) == Some(Resolve(fields[i].value, defs, rank, bound))
          {
            AcyclicTerminates(fields[i].value, defs, rank, bound, depth);
          }
          assert ResolveWithin(node, defs, depth).value.fields == Resolve(node, defs, rank, bound).fields;
        }
      case Arr(items) =>
        forall i | 0 <= i < |items|
          ensures ResolveWithin(items[i], defs, depth) == Some(Resolve(items[i], defs, rank, bound))
        {
          AcyclicTerminates(items[i], defs, rank, bound, depth);
        }
        assert ResolveWithin(node, defs, depth).value.items == Resolve(node, defs, rank, bound).items;
      case _ =>
    }
  }

  // ----- and conversely

  /** The least limit from `k` on under which `node` resolves, given that `limit` is one. */
  ghost function Least(node: Json, defs: seq<Field>, k: nat, limit: nat): (d: nat)
    requires k <= limit && ResolveWithin(node, defs, limit).Some?
    ensures k <= d <= limit && ResolveWithin(node, defs, d).Some?
    ensures forall j :: k <= j < d ==> ResolveWithin(node, defs, j).None?
    decreases limit - k
  {
    if ResolveWithin(node, defs, k).Some? then k else Least(node, defs, k + 1, limit)
  }

  ghost predicate ResolvesBelow(name: string, defs: seq<Field>, limit: nat)
  {
    Get(defs, name).Some? && exists d: nat :: d <= limit && ResolveWithin(Get(defs, name).value, defs, d).Some?
  }

  ghost function LeastDepth(name: string, defs: seq<Field>, limit: nat): (d: nat)
    requires ResolvesBelow(name, defs, limit)
    ensures d <= limit && ResolveWithin(Get(defs, name).value, defs, d).Some?
    ensures forall j :: 0 <= j < d ==> ResolveWithin(Get(defs, name).value, defs, j).None?
  {
    var d: nat :| d <= limit && ResolveWithin(Get(defs, name).value, defs, d).Some?;
    Least(Get(defs, name).value, defs, 0, d)
  }

  ghost function Names(defs: seq<Field>): set<string> { set f | f in defs :: f.key }

  /** Rank a definition by the least limit under which it resolves. */
  ghost function DepthRank(defs: seq<Field>, limit: nat): map<string, nat>
  {
    map name | name in Names(defs) && ResolvesBelow(name, defs, limit) :: LeastDepth(name, defs, limit)
  }

  /** What resolves within a limit meets only references that resolve within a smaller one. */
  lemma {:induction false} ResolvedIsRanked(node: Json, defs: seq<Field>, depth: nat, limit: nat)
    requires ResolveWithin(node, defs, depth).Some? && depth <= limit
    ensures Ranked(node, defs, DepthRank(defs, limit), depth)
    decreases node
  {
    match node {
      case Obj(fields) =>
        var name := RefTarget(fields, defs);
        if name.Some? {
          var target := Get(defs, name.value).value;
          assert ResolveWithin(target, defs, depth - 1).Some?;
          assert Field(name.value, target) in defs;
          assert ResolvesBelow(name.value, defs, limit);
          assert LeastDepth(name.value, defs, limit) <= depth - 1;
        } else {
          forall i | 0 <= i < |fields| ensures Ranked(fields[i].value, defs, DepthRank(defs, limit), depth) {
            ResolvedIsRanked(fields[i].value, defs, depth, limit);
          }
        }
      case Arr(items) =>
        forall i | 0 <= i < |items| ensures Ranked(items[i], defs, DepthRank(defs, limit), depth) {
          ResolvedIsRanked(items[i], defs, depth, limit);
        }
      case _ =>
    }
  }

  ghost predicate HasRank(node: Json, defs: seq<Field>, rank: map<string, nat>, bound: nat)
  {
    Acyclic(defs, rank) && Ranked(node, defs, rank, bound)
  }

  /** A larger limit changes nothing once the smaller one suffices. */
  lemma {:induction false} LimitIrrelevant(node: Json, defs: seq<Field>, d: nat, e: nat)
    requires d <= e && ResolveWithin(node, defs, d).Some?
    ensures ResolveWithin(node, defs, e) == ResolveWithin(node, defs, d)
    decreases d, node
  {
    match node {
      case Obj(fields) =>
        var name := RefTarget(fields, defs);
        if name.Some? {
          LimitIrrelevant(Get(defs, name.value).value, defs, d - 1, e - 1);
        } else {
          forall i | 0 <= i < |fields|
            ensures ResolveWithin(fields[i].value, defs, e) == ResolveWithin(fields[i].value, defs, d)
          {
            LimitIrrelevant(fields[i].value, defs, d, e);
          }
          assert ResolveWithin(node, defs, e).value.fields == ResolveWithin(node, defs, d).value.fields;
        }
      case Arr(items) =>
        forall i | 0 <= i < |items| ensures ResolveWithin(items[i], defs, e) == ResolveWithin(items[i], defs, d) {
          LimitIrrelevant(items[i], defs, d, e);
        }
        assert ResolveWithin(node, defs, e).value.items == ResolveWithin(node, defs, d).value.items;
      case _ =>
    }
  }

  /** `_resolve` returns for some recursion limit exactly when the definitions reachable from the node
      are acyclic. */
  lemma TerminatesIffAcyclic(node: Json, defs: seq<Field>)
    ensures (exists depth: nat :: ResolveWithin(node, defs, depth).Some?)
        <==> (exists rank, bound :: HasRank(node, defs, rank, bound))
  {
    if depth: nat :| ResolveWithin(node, defs, depth).Some? {
      var rank := DepthRank(defs, depth);
      forall name | name in rank
        ensures Get(defs, name).Some? && Ranked(Get(defs, name).value, defs, rank, rank[name]) {
        ResolvedIsRanked(Get(defs, name).value, defs, rank[name], depth);
      }
      ResolvedIsRanked(node, defs, depth, depth);
      assert HasRank(node, defs, rank, depth);
    }
    if rank, bound :| HasRank(node, defs, rank, bound) {
      AcyclicTerminates(node, defs, rank, bound, bound);
    }
  }

  // ----- nothing is left to resolve

  /** No object in `node` stands for a definition. */
  ghost predicate RefFree(node: Json, defs: seq<Field>) { Ranked(node, defs, map[], 0) }

  /** A reference can be followed to a definition by this name: the last segment of a text holds no "/". */
  predicate Reachable(name: string) { '/' !in name }

  /** The definition called `name` is a bare string that, as a `$ref`, would name a known definition. */
  predicate ReferenceString(name: string, defs: seq<Field>)
  {
    var d := Get(defs, name);
    d.Some? && d.value.Str? && RefTarget([Field("$ref", d.value)], defs).Some?
  }

  ghost predicate NoReferenceStrings(defs: seq<Field>, rank: map<string, nat>)
  {
    forall name :: name in rank && Reachable(name) ==> !ReferenceString(name, defs)
  }

  lemma {:induction false} GetResolved(fields: seq<Field>, done: seq<Field>, key: string)
    requires |done| == |fields| && forall i :: 0 <= i < |fields| ==> done[i].key == fields[i].key
    ensures Get(fields, key).None? ==> Get(done, key).None?
    ensures Get(fields, key).Some? ==>
              exists i :: 0 <= i < |fields| && fields[i].key == key
                          && Get(fields, key) == Some(fields[i].value) && Get(done, key) == Some(done[i].value)
  {
    if fields != [] && fields[0].key != key {
      GetResolved(fields[1..], done[1..], key);
      if Get(fields[1..], key).Some? {
        var i :| 0 <= i < |fields[1..]| && fields[1..][i].key == key
                 && Get(fields[1..], key) == Some(fields[1..][i].value)
                  && Get(done[1..], key) == Some(done[1..][i].value);
        assert fields[i + 1] == fields[1..][i] && done[i + 1] == done[1..][i];
      }
    }
  }

  lemma {:induction false} LastSegmentPlain(s: string)
    ensures '/' !in LastSegment(s)
    ensures '/' !in s ==> LastSegment(s) == s
  {
    if s != "" && s[|s| - 1] != '/' {
      LastSegmentPlain(s[..|s| - 1]);
      assert s == s[..|s| - 1] + [s[|s| - 1]];
    }
  }

  lemma RefTargetReachable(fields: seq<Field>, defs: seq<Field>)
    ensures RefTarget(fields, defs).Some? ==> Reachable(RefTarget(fields, defs).value)
  {
    var ref := Get(fields, "$ref");
    if ref.Some? && ref.value.Str? { LastSegmentPlain(ref.value.s); }
  }

  /** A node that is not a string resolves to one only by way of a definition that is that string. */
  lemma {:induction false} ResolvedString(node: Json, defs: seq<Field>, rank: map<string, nat>, bound: nat)
    returns (name: string)
    requires HasRank(node, defs, rank, bound) && !node.Str? && Resolve(node, defs, rank, bound).Str?
    ensures name in rank && Reachable(name) && Get(defs, name) == Some(Resolve(node, defs, rank, bound))
    decreases bound
  {
    name := RefTarget(node.fields, defs).value;
    RefTargetReachable(node.fields, defs);
    var target := Get(defs, name).value;
    if !target.Str? { name := ResolvedString(target, defs, rank, rank[name]); }
  }

  lemma RefTargetSame(a: seq<Field>, b: seq<Field>, defs: seq<Field>)
    requires Get(a, "$ref") == Get(b, "$ref")
    ensures RefTarget(a, defs) == RefTarget(b, defs)
  {
  }

  /** The resolved object stands for no definition if the original did not. */
  lemma ResolvedObjectHasNoTarget(fields: seq<Field>, defs: seq<Field>, rank: map<string, nat>, bound: nat)
    requires HasRank(Obj(fields), defs, rank, bound) && NoReferenceStrings(defs, rank) && RefTarget(fields, defs).None?
    ensures RefTarget(Resolve(Obj(fields), defs, rank, bound).fields, defs).None?
  {
    var done := Resolve(Obj(fields), defs, rank, bound).fields;
    GetResolved(fields, done, "$ref");
    if Get(done, "$ref").Some? && Get(done, "$ref").value.Str? {
      var i :| 0 <= i < |fields| && Get(fields, "$ref") == Some(fields[i].value)
               && Get(done, "$ref") == Some(done[i].value);
      assert done[i].value == Resolve(fields[i].value, defs, rank, bound);
      if fields[i].value.Str? {
        RefTargetSame(fields, done, defs);
      } else {
        var name := ResolvedString(fields[i].value, defs, rank, bound);
        assert !ReferenceString(name, defs);
        RefTargetSame(done, [Field("$ref", done[i].value)], defs);
      }
    }
  }

  /** The result contains no reference that names a known definition. */
  lemma {:induction false} ResolveLeavesNoRef(node: Json, defs: seq<Field>, rank: map<string, nat>, bound: nat)
    requires HasRank(node, defs, rank, bound) && NoReferenceStrings(defs, rank)
    ensures RefFree(Resolve(node, defs, rank, bound), defs)
    decreases bound, node
  {
    match node {
      case Obj(fields) =>
        var name := RefTarget(fields, defs);
        if name.Some? {
          ResolveLeavesNoRef(Get(defs, name.value).value, defs, rank, rank[name.value]);
        } else {
          var done := Resolve(node, defs, rank, bound).fields;
          ResolvedObjectHasNoTarget(fields, defs, rank, bound);
          forall i | 0 <= i < |done| ensures Ranked(done[i].value, defs, map[], 0) {
            ResolveLeavesNoRef(fields[i].value, defs, rank, bound);
          }
        }
      case Arr(items) =>
        forall i | 0 <= i < |items| ensures Ranked(Resolve(items[i], defs, rank, bound), defs, map[], 0) {
          ResolveLeavesNoRef(items[i], defs, rank, bound);
        }
      case _ =>
    }
  }

  /** A definition that is a reference string puts a new reference together: under a "$ref" that is no
      string but resolves to one. */
  lemma ReferenceStringLeavesReference(name: string, defs: seq<Field>, rank: map<string, nat>) returns (node: Json)
    requires Acyclic(defs, rank) && name in rank && Reachable(name) && ReferenceString(name, defs)
    ensures Ranked(node, defs, rank, rank[name] + 1)
    ensures !RefFree(Resolve(node, defs, rank, rank[name] + 1), defs)
  {
    var inner := [Field("$ref", Str(name))];
    var outer := [Field("$ref", Obj(inner))];
    var bound := rank[name] + 1;
    node := Obj(outer);
    assert RefTarget(inner, defs) == Some(name) by { LastSegmentPlain(name); }
    assert RefTarget(outer, defs).None?;
    assert Resolve(Obj(inner), defs, rank, bound) == Get(defs, name).value;
    var done := Resolve(node, defs, rank, bound).fields;
    assert done[0] == Field("$ref", Get(defs, name).value);
    RefTargetSame(done, [Field("$ref", Get(defs, name).value)], defs);
  }

  ghost predicate AlwaysRefFree(defs: seq<Field>, rank: map<string, nat>)
    requires Acyclic(defs, rank)
  {
    forall node, bound | Ranked(node, defs, rank, bound) :: RefFree(Resolve(node, defs, rank, bound), defs)
  }

  /** Every node resolves to one without references if and only if no definition that a reference can reach
      is a bare string naming a definition. */
  lemma AlwaysRefFreeIff(defs: seq<Field>, rank: map<string, nat>)
    requires Acyclic(defs, rank)
    ensures AlwaysRefFree(defs, rank) <==> NoReferenceStrings(defs, rank)
  {
    if NoReferenceStrings(defs, rank) {
      forall node, bound | Ranked(node, defs, rank, bound) ensures RefFree(Resolve(node, defs, rank, bound), defs) {
        ResolveLeavesNoRef(node, defs, rank, bound);
      }
    } else {
      var name :| name in rank && Reachable(name) && ReferenceString(name, defs);
      var node := ReferenceStringLeavesReference(name, defs, rank);
    }
  }

  /** What holds no reference is left as it is. */
  lemma {:induction false} ResolveRefFree(node: Json, defs: seq<Field>, rank: map<string, nat>, bound: nat)
    requires Acyclic(defs, rank) && RefFree(node, defs)
    ensures Ranked(node, defs, rank, bound)
    ensures Resolve(node, defs, rank, bound) == node
    decreases node
  {
    match node {
      case Obj(fields) =>
        forall i | 0 <= i < |fields|
          ensures Ranked(fields[i].value, defs, rank, bound)
          && Resolve(fields[i].value, defs, rank, bound) == fields[i].value
        {
          ResolveRefFree(fields[i].value, defs, rank, bound);
        }
        assert Resolve(node, defs, rank, bound).fields == fields;
      case Arr(items) =>
        forall i | 0 <= i < |items|
          ensures Ranked(items[i], defs, rank, bound) && Resolve(items[i], defs, rank, bound) == items[i]
        {
          ResolveRefFree(items[i], defs, rank, bound);
        }
        assert Resolve(node, defs, rank, bound).items == items;
      case _ =>
    }
  }

  /** Resolving twice is resolving once. */
  lemma ResolveIdempotent(node: Json, defs: seq<Field>, rank: map<string, nat>, bound: nat)
    requires HasRank(node, defs, rank, bound) && NoReferenceStrings(defs, rank)
    ensures var r := Resolve(node, defs, rank, bound);
            Ranked(r, defs, rank, 0) && Resolve(r, defs, rank, 0) == r
  {
    ResolveLeavesNoRef(node, defs, rank, bound);
    ResolveRefFree(Resolve(node, defs, rank, bound), defs, rank, 0);
  }
}
