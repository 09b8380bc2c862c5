/** The two ways the code as written writes into the document it was given,
    each shown on every document shaped like `{"a": {"b": 1}}`, and the
    corrected model leaving such a document alone. */
module Findings {
  import opened JsonTypes
  import opened Pointer
  import opened JsonPatch
  import opened Heap
  import opened HeapPatch
  import opened HeapApply
  import opened PatchLaws

  /** The input document on the heap is an object `outer` whose only member
      `a` is the object `inner`, and `inner` has a member `b` that is not
      `null` (`{"a": {"b": 1}}` is one). */
  ghost predicate Nested(outer: Node, inner: Node, a: string, b: string, j: Json, U: set<Node>)
    reads outer, inner, U
  {
    && !outer.isArray && !inner.isArray && outer.fields == map[a := Ref(inner)]
    && b in inner.fields && inner.fields[b] != Null && a != b
    && U == {outer, inner} && Denotes(Ref(outer), j, U)
  }

  /** What `Nested` says about the JSON value: `a` holds an object with a
      member `b` that is not `null`, and only `inner` stands for it. */
  lemma NestedJson(outer: Node, inner: Node, a: string, b: string, j: Json, U: set<Node>)
    requires Nested(outer, inner, a, b, j, U)
    ensures outer != inner && j.JObj? && j.props.Keys == {a}
    ensures j.props[a].JObj? && b in j.props[a].props && j.props[a].props[b] != JNull
    ensures Denotes(Ref(inner), j.props[a], {inner})
  {
    assert U - {outer} == {inner};
    assert Denotes(Ref(inner), j.props[a], {inner});
    assert Denotes(inner.fields[b], j.props[a].props[b], {});
  }

  /** Of the input's two nodes, only `inner` can stand for a value with a
      member `b`. */
  lemma OnlyInner(outer: Node, inner: Node, b: string, jt: Json, v: Value, T: set<Node>)
    requires !outer.isArray && b !in outer.fields && jt.JObj? && b in jt.props
    requires v.Ref? && v.node in {outer, inner} && Denotes(v, jt, T)
    ensures v == Ref(inner)
  {
  }

  /** `move` of a top-level member that is not `null` takes it. */
  lemma MoveOne(j: Json, a: string)
    requires j.JObj? && a in j.props && j.props[a] != JNull
    ensures From(Some(j), [a], 0, "", true) == Ok((JObj(j.props - {a}), j.props[a]))
  {
  }

  /** `move` of a member of a top-level object takes it. */
  lemma MoveTwo(j: Json, a: string, b: string)
    requires j.JObj? && a in j.props && j.props[a].JObj? && b in j.props[a].props && j.props[a].props[b] != JNull
    ensures From(Some(j), [a, b], 0, "", true).Ok?
  {
    assert From(Some(j.props[a]), [a, b], 1, "", true).Ok?;
  }

  /** `move` from `/a/b` as written (lines 47-65): the `from` walk reads `/a`
      without copying it, so the `delete` at the last token removes `b` from
      the input's own object at `/a`. */
  method DeepMoveWritesInput(outer: Node, inner: Node, a: string, b: string, ghost j: Json, ghost U: set<Node>)
    returns (before: map<string, Value>, after: map<string, Value>)
    requires Nested(outer, inner, a, b, j, U)
    modifies outer, inner
    ensures b in before && b !in after
  {
    NestedJson(outer, inner, a, b, j, U);
    MoveTwo(j, a, b);
    var root := CopyRoot(Ref(outer), j, U);
    before := inner.fields;
    var r; ghost var T, holder;
    label Call:
    r, T, holder := TakeFromInPlace(Ref(root), [a, b], "", true, Some(j), U + {root});
    ghost var H := holder.node;
    assert H in U + {root} && H != root;
    assert b in old@Call(H.fields);
    assert H != outer;
    after := inner.fields;
  }

  /** Taking `/a` for a `move` from a copy of the input's root, as
      `applyPatch` does, hands out the input's own object at `/a`. */
  method TakeInner(outer: Node, inner: Node, a: string, b: string, ghost j: Json, ghost U: set<Node>)
    returns (root: Value, t: Value, ghost A: set<Node>, ghost T: set<Node>)
    requires Nested(outer, inner, a, b, j, U)
    ensures j.JObj? && a in j.props && j.props[a].JObj?
    ensures t == Ref(inner) && Denotes(t, j.props[a], T)
    ensures DenotesOpt(root, Some(JObj(j.props - {a})), A)
  {
    NestedJson(outer, inner, a, b, j, U);
    MoveOne(j, a);
    var node := CopyRoot(Ref(outer), j, U);
    root := Ref(node);
    var r;
    r, T, A := TakeFrom(root, [a], "", true, Some(j), U + {node});
    OnlyInner(outer, inner, b, j.props[a], r.value, T);
    t := r.value;
  }

  /** The first operation of the root-move exhibit: `move` from `/a` to the
      whole document as written (line 73) makes the input's own object at
      `/a` the accumulator. */
  method MoveToRootAsWritten(outer: Node, inner: Node, a: string, b: string, ghost j: Json, ghost U: set<Node>)
    returns (acc: Value, ghost jt: Json, ghost R: set<Node>)
    requires Nested(outer, inner, a, b, j, U)
    ensures acc == Ref(inner) && jt.JObj? && Denotes(acc, jt, R)
  {
    var root, t; ghost var A, T;
    root, t, A, T := TakeInner(outer, inner, a, b, j, U);
    jt := j.props[a];
    assert AtRoot("move", Some(JObj(j.props - {a})), JNull, jt) == Ok(Some(jt));
    var r;
    r, R := RootAtAsWritten("move", root, JNull, t, Some(JObj(j.props - {a})), A, jt, T);
    acc := r.value;
  }

  /** `move` from `/a` to the whole document as written, then `add /c`: the
      `add` writes `c` into the input's own object at `/a`. */
  method RootMoveWritesInput(outer: Node, inner: Node, a: string, b: string, c: string, ghost j: Json, ghost U: set<Node>)
    returns (before: map<string, Value>, after: map<string, Value>)
    requires Nested(outer, inner, a, b, j, U) && Plain(c) && c !in inner.fields
    modifies inner
    ensures c !in before && c in after
  {
    before := inner.fields;
    var acc; ghost var jt, R;
    acc, jt, R := MoveToRootAsWritten(outer, inner, a, b, j, U);
    AddMember(jt.props, c, None, JNum(2));
    var next; ghost var Rn, copies, origs, keys;
    next, Rn, copies, origs, keys := ApplyOpAt(acc, Op("add", "/" + c, None, JNum(2)), Some(jt), R, inner);
    assert next == Ok(acc) && Denotes(acc, JObj(jt.props[c := JNum(2)]), Rn);
    after := inner.fields;
  }

  /** The same two patches through the corrected `ApplyPatchAt`: the input's
      object at `/a` keeps its contents. */
  method CorrectedLeavesInput(outer: Node, inner: Node, a: string, b: string, c: string, ghost j: Json, ghost U: set<Node>)
    returns (before: map<string, Value>, after: map<string, Value>)
    requires Nested(outer, inner, a, b, j, U)
    ensures before == after
  {
    before := inner.fields;
    var r1, r2; ghost var R1, R2, copies, origs, keys;
    r1, R1, copies, origs, keys := ApplyPatchAt(Ref(outer), OpArray([Op("move", "/" + c, Some("/" + a + "/" + b), JNull)]), j, U);
    r2, R2, copies, origs, keys := ApplyPatchAt(Ref(outer), OpArray([Op("move", "", Some("/" + a), JNull), Op("add", "/" + c, None, JNum(2))]), j, U);
    after := inner.fields;
  }
}
