/** The inliner looks a reference up by its last segment; RFC 6901 walks all of it. */
module SchemaReference {
  import opened Options
  import opened Text
  import opened SchemaInliner
  import opened SchemaMeaning

  /** "~1" stands for "/" and "~0" for "~" (section 4 of RFC 6901). */
  function Unescape(token: string): string
  {
    if token == "" then ""
    else if |token| >= 2 && token[0] == '~' && token[1] == '1' then "/" + Unescape(token[2..])
    else if |token| >= 2 && token[0] == '~' && token[1] == '0' then "~" + Unescape(token[2..])
    else [token[0]] + Unescape(token[1..])
  }

  /** Walking through objects. */
  function Walk(node: Json, tokens: seq<string>): Option<Json>
    decreases |tokens|
  {
    if tokens == [] then Some(node)
    else if !node.Obj? then None
    else
      var next := Get(node.fields, Unescape(tokens[0]));
      if next.None? then None else Walk(next.value, tokens[1..])
  }

  /** What "#..." points to in the document `root`. */
  function PointedAt(root: Json, ref: string): Option<Json>
  {
    if !StartsWith(ref, "#") then None
    else if ref == "#" then Some(root)
    else if ref[1] != '/' then None
    else Walk(root, Split(ref[2..], '/'))
  }

  lemma {:induction false} UnescapePlain(token: string)
    requires '~' !in token
    ensures Unescape(token) == token
  {
    if token != "" {
      assert token[0] in token;
      UnescapePlain(token[1..]);
    }
  }

  lemma {:induction false} LastSegmentAfter(front: string, slash: char, name: string)
    requires '/' !in name && slash == '/'
    ensures LastSegment(front + [slash] + name) == name
  {
    var s := front + [slash] + name;
    if name != "" {
      var shorter := name[..|name| - 1];
      assert s[..|s| - 1] == front + [slash] + shorter;
      assert name[|name| - 1] in name;
      LastSegmentAfter(front, slash, shorter);
      assert name == shorter + [name[|name| - 1]];
    }
  }

  predicate Plain(tokens: seq<string>) { tokens != [] && forall k :: 0 <= k < |tokens| ==> '/' !in tokens[k] }

  /** "#/<token>/<token>/..." */
  function RefOf(tokens: seq<string>): string { "#/" + Join(tokens, "/") }

  lemma TailPlain(tokens: seq<string>)
    requires Plain(tokens) && |tokens| > 1
    ensures Plain(tokens[1..]) && '/' !in tokens[0]
  {
    assert forall k :: 0 <= k < |tokens[1..]| ==> tokens[1..][k] == tokens[k + 1];
  }

  lemma {:induction false} JoinSplits(tokens: seq<string>, slash: char)
    requires Plain(tokens) && slash == '/'
    ensures Split(Join(tokens, [slash]), slash) == tokens
  {
    if |tokens| == 1 {
      SplitOne(tokens[0], slash);
    } else {
      TailPlain(tokens);
      var all, rest := Join(tokens, [slash]), Join(tokens[1..], [slash]);
      assert all == tokens[0] + [slash] + rest;
      assert Split(rest, slash) == tokens[1..] by { JoinSplits(tokens[1..], slash); }
      assert Split(all, slash) == [tokens[0]] + Split(rest, slash) by { SplitCons(all, tokens[0], slash, rest); }
    }
  }

  lemma {:induction false} JoinEnds(front: string, tokens: seq<string>, slash: char)
    requires Plain(tokens) && slash == '/'
    ensures LastSegment(front + [slash] + Join(tokens, [slash])) == tokens[|tokens| - 1]
    decreases |tokens|
  {
    if |tokens| == 1 {
      LastSegmentAfter(front, slash, tokens[0]);
    } else {
      TailPlain(tokens);
      JoinEnds(front + [slash] + tokens[0], tokens[1..], slash);
      JoinFront(front + [slash], tokens[0], [slash], Join(tokens[1..], [slash]));
    }
  }

  lemma JoinFront(front: string, a: string, sep: string, rest: string)
    ensures front + (a + sep + rest) == front + a + sep + rest
  {
  }

  /** By RFC 6901 every token counts, to the inliner the last one alone. */
  lemma ReferenceOf(root: Json, tokens: seq<string>)
    requires Plain(tokens)
    ensures PointedAt(root, RefOf(tokens)) == Walk(root, tokens)
    ensures LastSegment(RefOf(tokens)) == tokens[|tokens| - 1]
  {
    var rest := Join(tokens, "/");
    JoinSplits(tokens, '/');
    JoinEnds("#", tokens, '/');
    assert "#" + ['/'] + rest == RefOf(tokens);
    assert RefOf(tokens)[..1] == "#" && RefOf(tokens)[2..] == rest;
  }

  lemma WalkOne(node: Json, token: string)
    ensures Walk(node, [token]) == if node.Obj? then Get(node.fields, Unescape(token)) else None
  {
    assert [token][1..] == [];
  }

  lemma WalkTwo(fields: seq<Field>, section: string, token: string)
    requires '~' !in section
    ensures Walk(Obj(fields), [section, token]) ==
              var d := Get(fields, section);
              if d.Some? && d.value.Obj? then Get(d.value.fields, Unescape(token)) else None
  {
    UnescapePlain(section);
    assert [section, token][1..] == [token];
    var d := Get(fields, section);
    if d.Some? { WalkOne(d.value, token); }
  }

  /** The definition that the reference names to the inliner. */
  function Meant(node: seq<Field>, root: seq<Field>): Option<Json>
  {
    var name := RefTarget(node, DefsOf(root));
    if name.Some? then Get(DefsOf(root), name.value) else None
  }

  /** A null definition is none. */
  function NotNull(x: Option<Json>): Option<Json> { if x == Some(Null) then None else x }

  /** An object whose `$ref` is that reference, with any siblings. */
  predicate RefersTo(node: seq<Field>, tokens: seq<string>) { Get(node, "$ref") == Some(Str(RefOf(tokens))) }

  /** Both readings of any reference of plain tokens. */
  lemma TwoReadings(root: seq<Field>, node: seq<Field>, tokens: seq<string>)
    requires Plain(tokens) && RefersTo(node, tokens)
    ensures Meant(node, root) == NotNull(Get(DefsOf(root), tokens[|tokens| - 1]))
    ensures PointedAt(Obj(root), RefOf(tokens)) == Walk(Obj(root), tokens)
  {
    ReferenceOf(Obj(root), tokens);
  }

  /** A reference "#/$defs/<token>" points to the definition that the token spells; the inliner takes the
      token as it is written, so the two are the same for every name that needs no escaping. */
  lemma DefsReferenceResolves(root: seq<Field>, node: seq<Field>, token: string)
    requires '/' !in token && RefersTo(node, ["$defs", token])
    ensures PointedAt(Obj(root), RefOf(["$defs", token])) == Get(DefsOf(root), Unescape(token))
    ensures Meant(node, root) == NotNull(Get(DefsOf(root), token))
    ensures '~' !in token ==>
              Meant(node, root) == NotNull(PointedAt(Obj(root), RefOf(["$defs", token])))
  {
    assert '/' !in "$defs" && '~' !in "$defs";
    TwoReadings(root, node, ["$defs", token]);
    WalkTwo(root, "$defs", token);
    if '~' !in token { UnescapePlain(token); }
  }

  ghost predicate AlwaysAgrees(tokens: seq<string>)
  {
    forall root, node :: RefersTo(node, tokens) ==> Meant(node, root) == NotNull(PointedAt(Obj(root), RefOf(tokens)))
  }

  /** The path is "$defs" and one more name, spelled as it is. */
  predicate IntoDefs(tokens: seq<string>)
  {
    |tokens| == 2 && Unescape(tokens[0]) == "$defs" && Unescape(tokens[1]) == tokens[1]
  }

  /** A reference means the same to the inliner and by RFC 6901 in every document if and only if it is a
      literal name in `$defs`: any other, into another section, deeper, shorter or escaped, is misread in
      some document. */
  lemma OnlyDefsAgree(tokens: seq<string>)
    requires Plain(tokens)
    ensures AlwaysAgrees(tokens) <==> IntoDefs(tokens)
  {
    if IntoDefs(tokens) {
      forall root, node | RefersTo(node, tokens)
        ensures Meant(node, root) == NotNull(PointedAt(Obj(root), RefOf(tokens)))
      {
        TwoReadings(root, node, tokens);
        WalkInDefs(root, tokens);
      }
    } else {
      var root, node := Misread(tokens);
    }
  }

  /** A document in which the reference is misread. */
  lemma Misread(tokens: seq<string>) returns (root: seq<Field>, node: seq<Field>)
    requires Plain(tokens) && !IntoDefs(tokens)
    ensures RefersTo(node, tokens) && Meant(node, root) != NotNull(PointedAt(Obj(root), RefOf(tokens)))
  {
    var last := tokens[|tokens| - 1];
    root, node := [Field("$defs", Obj([Field(last, Bool(true))]))], [Field("$ref", Str(RefOf(tokens)))];
    TwoReadings(root, node, tokens);
    assert Get(DefsOf(root), last) == Some(Bool(true));
    WalkElsewhere(root, tokens, last);
  }

  lemma WalkStep(node: Json, tokens: seq<string>)
    requires tokens != []
    ensures Walk(node, tokens) ==
              var next := if node.Obj? then Get(node.fields, Unescape(tokens[0])) else None;
              if next.None? then None else Walk(next.value, tokens[1..])
  {
  }

  lemma WalkInDefs(root: seq<Field>, tokens: seq<string>)
    requires IntoDefs(tokens)
    ensures Walk(Obj(root), tokens) == Get(DefsOf(root), tokens[1])
  {
    WalkStep(Obj(root), tokens);
    var d := Get(root, "$defs");
    assert tokens[1..] == [tokens[1]];
    if d.Some? { WalkOne(d.value, tokens[1]); }
  }

  lemma WalkElsewhere(root: seq<Field>, tokens: seq<string>, last: string)
    requires tokens != [] && last == tokens[|tokens| - 1] && !IntoDefs(tokens)
    requires root == [Field("$defs", Obj([Field(last, Bool(true))]))]
    ensures Walk(Obj(root), tokens) != Some(Bool(true))
  {
    WalkStep(Obj(root), tokens);
    if Unescape(tokens[0]) == "$defs" && |tokens| > 1 {
      var defs := Obj([Field(last, Bool(true))]);
      WalkStep(defs, tokens[1..]);
      if Unescape(tokens[1]) == last && |tokens| > 2 { WalkStep(Bool(true), tokens[1..][1..]); }
    }
  }
}
