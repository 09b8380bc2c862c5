/** `applyPatch` on the heap: the accumulator is a heap value whose arrays
    and objects are `Node`s, updated in place the way the source does it.
    Each method is proved against the functions of `JsonPatch`. */
module HeapPatch {
  import opened JsonTypes
  import opened Pointer
  import opened Splice
  import opened Equality
  import opened JsonPatch
  import opened Heap
  import opened HeapWalk
  import opened PatchLaws

  // ----- building heap values -----

  /** Fresh nodes for the JSON value `j`: how an operation's `value` enters
      the heap. */
  method Materialize(j: Json) returns (v: Value, ghost X: set<Node>)
    ensures fresh(X) && Denotes(v, j, X)
    decreases j
  {
    if j.JArr? {
      var xs := j.items;
      var elems: seq<Value> := [];
      X := {};
      for q := 0 to |xs|
        invariant |elems| == q && fresh(X)
        invariant forall t :: 0 <= t < q ==> Denotes(elems[t], xs[t], X)
      {
        var e; ghost var E;
        e, E := Materialize(xs[q]);
        forall t | 0 <= t < q ensures Denotes(elems[t], xs[t], X + E) {
          DenotesMono(elems[t], xs[t], X, X + E);
        }
        DenotesMono(e, xs[q], E, X + E);
        elems, X := elems + [e], X + E;
      }
      var n := new Node.Array(elems);
      v, X := Ref(n), X + {n};
    } else if j.JObj? {
      var m := j.props;
      var fields: map<string, Value> := map[];
      var keys := m.Keys;
      X := {};
      while keys != {}
        invariant keys <= m.Keys && fields.Keys == m.Keys - keys && fresh(X)
        invariant forall k :: k in fields ==> Denotes(fields[k], m[k], X)
        decreases keys
      {
        var k :| k in keys;
        var e; ghost var E;
        e, E := Materialize(m[k]);
        forall k' | k' in fields ensures Denotes(fields[k'], m[k'], X + E) {
          DenotesMono(fields[k'], m[k'], X, X + E);
        }
        DenotesMono(e, m[k], E, X + E);
        fields, X, keys := fields[k := e], X + E, keys - {k};
      }
      var n := new Node.Object(fields);
      v, X := Ref(n), X + {n};
    } else {
      v := match j
        case JNull => Null
        case JBool(b) => Bool(b)
        case JNum(n) => Num(n)
        case JStr(s) => Str(s);
      X := {};
    }
  }

  /** Elements that stand for JSON elements, keyed by index, stand for the
      JSON elements keyed by index. */
  lemma IndexMapDenotes(vs: seq<Value>, xs: seq<Json>, W: set<Node>)
    requires |vs| == |xs| && forall i :: 0 <= i < |xs| ==> Denotes(vs[i], xs[i], W)
    ensures IndexMap(vs).Keys == IndexMap(xs).Keys
    ensures forall k :: k in IndexMap(xs) ==> Denotes(IndexMap(vs)[k], IndexMap(xs)[k], W)
  {
    forall k ensures k in IndexMap(vs) <==> k in IndexMap(xs) {
      IndexMapAt(vs, k);
      IndexMapAt(xs, k);
    }
    forall k | k in IndexMap(xs) ensures Denotes(IndexMap(vs)[k], IndexMap(xs)[k], W) {
      IndexMapAt(vs, k);
      IndexMapAt(xs, k);
    }
  }

  /** The one-character strings of `s` as heap values. */
  function CharValues(s: string): (r: seq<Value>)
    ensures |r| == |s| && forall i :: 0 <= i < |s| ==> r[i] == Str([s[i]])
  {
    seq(|s|, i requires 0 <= i < |s| => Str([s[i]]))
  }

  /** A fresh object keyed by the indices of an array stands for the spread
      of the JSON array. */
  lemma SpreadArrayDenotes(x: Node, xs: seq<Json>, U: set<Node>, n: Node)
    requires Denotes(Ref(x), JArr(xs), U) && n !in U
    requires !n.isArray && n.fields == IndexMap(x.elems)
    ensures Denotes(Ref(n), JObj(IndexMap(xs)), U + {n})
  {
    IndexMapDenotes(x.elems, xs, U - {x});
    forall k | k in IndexMap(xs) ensures Denotes(n.fields[k], IndexMap(xs)[k], U) {
      DenotesMono(n.fields[k], IndexMap(xs)[k], U - {x}, U);
    }
    assert (U + {n}) - {n} == U;
  }

  /** A fresh object with the properties of an object stands for the same
      JSON object. */
  lemma SpreadObjectDenotes(x: Node, m: map<string, Json>, U: set<Node>, n: Node)
    requires Denotes(Ref(x), JObj(m), U) && n !in U
    requires !n.isArray && n.fields == x.fields
    ensures Denotes(Ref(n), JObj(m), U + {n})
  {
    forall k | k in m ensures Denotes(n.fields[k], m[k], U) {
      DenotesMono(n.fields[k], m[k], U - {x}, U);
    }
    assert (U + {n}) - {n} == U;
  }

  /** The own enumerable properties of `v`, as `{...v}` collects them:
      elements of an array and characters of a string keyed by index, the
      properties of an object, and nothing for the other scalars. */
  function SpreadFields(v: Value): map<string, Value>
    reads if v.Ref? then {v.node} else {}
  {
    if v.Ref? && v.node.isArray then IndexMap(v.node.elems)
    else if v.Ref? then v.node.fields
    else if v.Str? then IndexMap(CharValues(v.s))
    else map[]
  }

  /** A fresh object holding `SpreadFields(v)` stands for the spread of the
      JSON value `v` stands for. */
  lemma SpreadDenotes(v: Value, j: Option<Json>, U: set<Node>, n: Node)
    requires DenotesOpt(v, j, U) && n !in U
    requires !n.isArray && n.fields == SpreadFields(v)
    ensures Denotes(Ref(n), Spread(j), U + {n})
  {
    if v.Ref? && v.node.isArray {
      SpreadArrayDenotes(v.node, j.value.items, U, n);
    } else if v.Ref? {
      SpreadObjectDenotes(v.node, j.value.props, U, n);
    } else if v.Str? {
      IndexMapDenotes(CharValues(v.s), Chars(v.s), U);
      assert (U + {n}) - {n} == U;
    }
  }

  /** `{...v}`: a fresh object holding the own enumerable properties of `v`.
      The properties are shared, not copied. */
  method SpreadValue(v: Value, ghost j: Option<Json>, ghost U: set<Node>) returns (n: Node)
    requires DenotesOpt(v, j, U)
    ensures fresh(n) && Denotes(Ref(n), Spread(j), U + {n})
    ensures !n.isArray && n.fields == SpreadFields(v)
  {
    n := new Node.Object(SpreadFields(v));
    SpreadDenotes(v, j, U, n);
  }

  /** `Array.isArray(doc) ? [...doc] : {...doc}` (line 41): the fresh root the
      operations are applied to. */
  method CopyRoot(doc: Value, ghost j: Json, ghost U: set<Node>) returns (root: Node)
    requires Denotes(doc, j, U)
    ensures fresh(root) && Denotes(Ref(root), RootCopy(j), U + {root})
    ensures doc.Ref? ==> SameEntries(root, doc.node)
  {
    if IsArrayValue(doc) {
      root := new Node.Array(doc.node.elems);
      forall i | 0 <= i < |j.items| ensures Denotes(root.elems[i], j.items[i], U) {
        DenotesMono(root.elems[i], j.items[i], U - {doc.node}, U);
      }
      assert (U + {root}) - {root} == U;
    } else {
      root := SpreadValue(doc, Some(j), U);
    }
  }

  // ----- the `from` walk (lines 47-65) -----

  /** What the `from` walk hands on: the target, or the error thrown. */
  function Target(f: Result<(Json, Json)>): Result<Json>
  {
    if f.Ok? then Ok(f.value.1) else Err(f.error)
  }

  /** A step of the `from` walk before the last token (lines 53-55): the
      element at the token, which must be neither `undefined` nor `null`. */
  method TakeStep(cur: Value, toks: seq<string>, idx: nat, from: string, move: bool, ghost jc: Option<Json>, ghost Uc: set<Node>)
    returns (r: Result<Value>, ghost jn: Option<Json>)
    requires idx + 1 < |toks| && DenotesOpt(cur, jc, Uc)
    ensures r.Err? ==> Target(From(jc, toks, idx, from, move)) == Err(r.error)
    ensures r.Ok? ==> DenotesOpt(r.value, jn, Below(cur, Uc))
    ensures r.Ok? ==> Target(From(jc, toks, idx, from, move)) == Target(From(jn, toks, idx + 1, from, move))
  {
    jn := None;
    if jc.Some? {
      GetDenotes(cur, jc.value, Uc, toks[idx]);
    }
    var ref :- Get(cur, toks[idx]);
    if ref == Undefined || ref == Null {
      return Err(NotExist(from)), jn;
    }
    r, jn := Ok(ref), Member(jc.value, toks[idx]).value;
  }

  /** The last step of the `from` walk (lines 53-63), at `cur`. */
  method TakeLast(cur: Value, toks: seq<string>, idx: nat, from: string, move: bool, ghost jc: Option<Json>, ghost Uc: set<Node>)
    returns (r: Result<Value>, ghost T: set<Node>)
    requires idx + 1 == |toks| && DenotesOpt(cur, jc, Uc)
    modifies if cur.Ref? then {cur.node} else {}
    ensures r.Err? ==> Target(From(jc, toks, idx, from, move)) == Err(r.error)
    ensures r.Ok? ==> Target(From(jc, toks, idx, from, move)).Ok?
    ensures r.Ok? ==> Denotes(r.value, Target(From(jc, toks, idx, from, move)).value, T)
    ensures fresh(T - Below(cur, Uc))
    ensures !move && cur.Ref? ==> unchanged(cur.node)
    ensures move && r.Ok? ==> cur.Ref? && Denotes(cur, From(jc, toks, idx, from, move).value.0, Uc)
    ensures move && r.Ok? && cur.node.isArray ==> |cur.node.elems| + 1 == |old(cur.node.elems)|
    ensures move && r.Ok? && !cur.node.isArray ==> toks[idx] in old(cur.node.fields) && toks[idx] !in cur.node.fields
  {
    T := {};
    if jc.Some? {
      GetDenotes(cur, jc.value, Uc, toks[idx]);
    }
    var ref :- Get(cur, toks[idx]);
    if ref == Undefined || ref == Null {
      r := Err(NotExist(from));
      return;
    }
    ghost var jref := Member(jc.value, toks[idx]).value.value;
    if !move {
      var n := SpreadValue(ref, Some(jref), Below(cur, Uc));
      r, T := Ok(Ref(n)), Below(cur, Uc) + {n};
    } else if IsArrayValue(cur) {
      cur.node.SpliceRemove(DigitsValue(toks[idx]));
      r, T := Ok(ref), Below(cur, Uc);
    } else if cur.Ref? {
      cur.node.Delete(toks[idx]);
      r, T := Ok(ref), Below(cur, Uc);
    } else {
      r := Err(RuntimeFault);
    }
  }

  /** The `reduce` over the decoded `from` tokens (lines 52-64). It follows
      the tokens from the accumulator without cloning anything; at the last
      token a move takes the element out of its container in place (`splice`
      or `delete`) and hands it on, and a copy hands on a spread of it. The
      target and the error agree with `From`; so does the accumulator when the
      container is the accumulator itself. `holder` is the container: below
      the top level it is a node of the document that was passed in, and a
      move has taken the last token out of it. */
  method TakeFromInPlace(acc: Value, toks: seq<string>, from: string, move: bool, ghost j: Option<Json>, ghost U: set<Node>)
    returns (r: Result<Value>, ghost T: set<Node>, ghost holder: Value)
    requires |toks| >= 1 && DenotesOpt(acc, j, U)
    modifies U
    ensures r.Err? ==> Target(From(j, toks, 0, from, move)) == Err(r.error)
    ensures r.Ok? ==> Target(From(j, toks, 0, from, move)).Ok?
    ensures r.Ok? ==> Denotes(r.value, Target(From(j, toks, 0, from, move)).value, T)
    ensures fresh(T - U) && (acc.Ref? ==> acc.node !in T)
    ensures !move ==> unchanged(U)
    ensures move && |toks| == 1 && r.Ok? ==> Denotes(acc, From(j, toks, 0, from, move).value.0, U)
    ensures move && r.Ok? ==> holder.Ref? && holder.node in U && (|toks| >= 2 && acc.Ref? ==> holder.node != acc.node)
    ensures move && r.Ok? && holder.node.isArray ==> |holder.node.elems| + 1 == |old(holder.node.elems)|
    ensures move && r.Ok? && !holder.node.isArray ==>
              toks[|toks| - 1] in old(holder.node.fields) && toks[|toks| - 1] !in holder.node.fields
  {
    T, holder := {}, acc;
    var found; ghost var jc, Uc;
    found, jc, Uc := WalkInPlace(acc, toks, from, move, j, U);
    if found.Err? {
      r := Err(found.error);
      return;
    }
    var cur := found.value;
    holder := cur;
    r, T := TakeLast(cur, toks, |toks| - 1, from, move, jc, Uc);
  }

  /** The tokens before the last one (lines 53-55), followed without
      copying: the container of the last token, read from the document that
      was passed in. */
  method WalkInPlace(acc: Value, toks: seq<string>, from: string, move: bool, ghost j: Option<Json>, ghost U: set<Node>)
    returns (r: Result<Value>, ghost jc: Option<Json>, ghost Uc: set<Node>)
    requires |toks| >= 1 && DenotesOpt(acc, j, U)
    ensures r.Err? ==> Target(From(j, toks, 0, from, move)) == Err(r.error)
    ensures r.Ok? ==> Uc <= U && DenotesOpt(r.value, jc, Uc)
    ensures r.Ok? ==> Target(From(j, toks, 0, from, move)) == Target(From(jc, toks, |toks| - 1, from, move))
    ensures r.Ok? && |toks| >= 2 && acc.Ref? ==> acc.node !in Uc
    ensures r.Ok? && |toks| == 1 ==> r.value == acc && jc == j && Uc == U
  {
    var cur := acc;
    jc, Uc := j, U;
    var idx := 0;
    while idx + 1 < |toks|
      invariant idx < |toks| && Uc <= U && DenotesOpt(cur, jc, Uc)
      invariant Target(From(j, toks, 0, from, move)) == Target(From(jc, toks, idx, from, move))
      invariant idx > 0 && acc.Ref? ==> acc.node !in Uc
      invariant idx == 0 ==> cur == acc && jc == j && Uc == U
      decreases |toks| - idx
    {
      var next; ghost var jn;
      next, jn := TakeStep(cur, toks, idx, from, move, jc, Uc);
      if next.Err? {
        return Err(next.error), jc, Uc;
      }
      cur, jc, Uc := next.value, jn, Below(cur, Uc);
      idx := idx + 1;
    }
    r := Ok(cur);
  }

  // ----- the `from` walk with copies along the way -----

  /** The result of the `from` walk one level down, seen one level up: the
      container `j` gets the new element at `key`. */
  function Wrap(j: Json, key: string, f: Result<(Json, Json)>): Result<(Json, Json)>
  {
    if f.Ok? then Ok((Set(j, key, f.value.0), f.value.1)) else f
  }

  /** The result of the `from` walk at the end of `keys`, seen from the root. */
  function Lift(root: Json, keys: seq<string>, f: Result<(Json, Json)>): Result<(Json, Json)>
  {
    if f.Ok? then Ok((Put(root, keys, f.value.0), f.value.1)) else f
  }

  /** A chain of JSON values along `keys` is a path that exists, and ends at
      its last value. */
  lemma {:induction false} ChainReaches(js: seq<Json>, keys: seq<string>, t: nat)
    requires |js| == |keys| + 1 && Chain(js, keys) && t <= |keys|
    ensures Reaches(js[t], keys[t..]) && At(js[t], keys[t..]) == Some(js[|keys|])
    decreases |keys| - t
  {
    if t < |keys| {
      ChainReaches(js, keys, t + 1);
      assert keys[t..][0] == keys[t] && keys[t..][1..] == keys[t + 1..];
    } else {
      assert keys[t..] == [];
    }
  }

  /** One level of the `from` walk further down the chain. */
  lemma LiftStep(js: seq<Json>, keys: seq<string>, c: string, f: Result<(Json, Json)>)
    requires |js| == |keys| + 1 && Chain(js, keys)
    ensures Lift(js[0], keys, Wrap(js[|keys|], c, f)) == Lift(js[0], keys + [c], f)
  {
    ChainReaches(js, keys, 0);
    assert keys[0..] == keys;
    if f.Ok? {
      PutSnoc(js[0], keys, c, f.value.0);
    }
  }

  /** A move whose walk reaches a value that is neither an array nor an
      object fails: nothing below such a value can be taken out. */
  lemma {:induction false} ScalarMoveFails(cur: Option<Json>, toks: seq<string>, idx: nat, from: string)
    requires idx < |toks| && (cur.Some? ==> !cur.value.JArr? && !cur.value.JObj?)
    ensures From(cur, toks, idx, from, true).Err?
    decreases |toks| - idx
  {
    var ref := Prop(cur, toks[idx]);
    if ref.Ok? && ref.value.Some? && ref.value != Some(JNull) && idx + 1 < |toks| {
      ScalarMoveFails(ref.value, toks, idx + 1, from);
    }
  }

  /** Where the `from` walk is: the target and the error are those of the
      walk from token `idx` at `jp`, and a move that succeeds does so at a
      node at the end of `kj`, with the accumulator rebuilt along `kj`. */
  ghost predicate Taking(whole: Result<(Json, Json)>, J: Option<Json>, toks: seq<string>, from: string, move: bool, idx: nat,
                         jp: Option<Json>, kj: seq<string>, pointer: Value)
  {
    && idx < |toks|
    && Target(whole) == Target(From(jp, toks, idx, from, move))
    && (!move && whole.Ok? ==> J.Some? && whole.value.0 == J.value)
    && (move && whole.Ok? ==>
          && pointer.Ref? && J.Some?
          && whole == Lift(J.value, kj, From(jp, toks, idx, from, move)))
  }

  /** A step of the `from` walk before the last token that copies the array
      or object it is about to enter, as the walk along `path` does. */
  method FromTurn(pointer: Value, toks: seq<string>, idx: nat, from: string, move: bool,
                  ghost root: Value, ghost J: Option<Json>, ghost jp: Option<Json>, ghost kj: seq<string>,
                  ghost spine: seq<Node>, ghost js: seq<Json>, ghost keys: seq<string>, ghost V: set<Node>)
    returns (r: Result<Value>, ghost jn: Option<Json>, ghost spine': seq<Node>, ghost js': seq<Json>, ghost keys': seq<string>)
    requires idx + 1 < |toks|
    requires Walking(root, J, pointer, jp, kj, spine, js, keys, V)
    modifies if pointer.Ref? then {pointer.node} else {}
    ensures r.Err? ==> From(jp, toks, idx, from, move) == Err(r.error)
    ensures r.Ok? ==> jp.Some? && From(jp, toks, idx, from, move) == Wrap(jp.value, toks[idx], From(jn, toks, idx + 1, from, move))
    ensures r.Ok? ==> Walking(root, J, r.value, jn, kj + [toks[idx]], spine', js', keys', V)
    ensures r.Ok? && r.value.Ref? ==> fresh(r.value.node) && spine' == spine + [r.value.node]
    ensures r.Ok? && !r.value.Ref? ==> spine' == spine
  {
    spine', js', keys', jn := spine, js, keys, None;
    var c := toks[idx];
    var visit; ghost var jc, orig;
    visit, jc, orig := Visit(pointer, c, root, J, jp, kj, spine, js, keys, V, [], false);
    if visit.Err? {
      return Err(visit.error), jn, spine', js', keys';
    }
    var child := visit.value;
    jn := Prop(jp, c).value;
    if child == Undefined || child == Null {
      return Err(NotExist(from)), jn, spine', js', keys';
    }
    if child.Ref? {
      Descend(root, J, pointer, jp, kj, spine, js, keys, V, c, child.node, jc);
      spine', js', keys' := spine + [child.node], js + [jc], keys + [c];
    } else {
      GoScalar(root, J, pointer, jp, kj, spine, js, keys, V, child, jn, kj + [c]);
    }
    r := Ok(child);
  }

  /** `FromTurn`, and where the `from` walk is afterwards. */
  method FromStep(pointer: Value, toks: seq<string>, idx: nat, from: string, move: bool,
                  ghost root: Value, ghost whole: Result<(Json, Json)>, ghost J: Option<Json>, ghost jp: Option<Json>, ghost kj: seq<string>,
                  ghost spine: seq<Node>, ghost js: seq<Json>, ghost keys: seq<string>, ghost V: set<Node>)
    returns (r: Result<Value>, ghost jn: Option<Json>, ghost spine': seq<Node>, ghost js': seq<Json>, ghost keys': seq<string>)
    requires idx + 1 < |toks| && Taking(whole, J, toks, from, move, idx, jp, kj, pointer)
    requires Walking(root, J, pointer, jp, kj, spine, js, keys, V)
    modifies if pointer.Ref? then {pointer.node} else {}
    ensures r.Err? ==> whole == Err(r.error)
    ensures r.Ok? ==> Taking(whole, J, toks, from, move, idx + 1, jn, kj + [toks[idx]], r.value)
    ensures r.Ok? ==> Walking(root, J, r.value, jn, kj + [toks[idx]], spine', js', keys', V)
    ensures r.Ok? && r.value.Ref? ==> fresh(r.value.node) && spine' == spine + [r.value.node]
    ensures r.Ok? && !r.value.Ref? ==> spine' == spine
  {
    r, jn, spine', js', keys' := FromTurn(pointer, toks, idx, from, move, root, J, jp, kj, spine, js, keys, V);
    if r.Ok? && move && !r.value.Ref? {
      ScalarMoveFails(jn, toks, idx + 1, from);
    }
    if r.Ok? && pointer.Ref? {
      LiftStep(js, keys, toks[idx], From(jn, toks, idx + 1, from, move));
    }
  }

  /** Lines 58-59 at the last node `P` of a copied spine, which has an
      element at `c`: `splice(c, 1)` on an array, `delete` on an object. The
      node then stands for the container without that element, and the rest
      of the spine is as it was. */
  method TakeOut(P: Node, c: string, ghost spine: seq<Node>, ghost js: seq<Json>, ghost keys: seq<string>, ghost V: set<Node>)
    returns (ghost jq: Json)
    requires Copied(spine, js, keys, V) && P == spine[|keys|] && HasChild(js[|keys|], c)
    modifies P
    ensures js[|keys|].JArr? ==> jq == JArr(RemoveAt(js[|keys|].items, DigitsValue(c)))
    ensures js[|keys|].JObj? ==> jq == JObj(js[|keys|].props - {c})
    ensures Spine(spine, js, keys, V) && Denotes(Ref(P), jq, V + {P})
  {
    ghost var jP := js[|keys|];
    assert (V + {P}) - {P} == V;
    if P.isArray {
      var xs := jP.items;
      var d := DigitsValue(c);
      jq := JArr(RemoveAt(xs, d));
      P.SpliceRemove(d);
      assert forall i :: 0 <= i < |xs| - 1 ==> Denotes(P.elems[i], jq.items[i], V);
    } else {
      jq := JObj(jP.props - {c});
      P.Delete(c);
      assert forall k :: k in jq.props ==> Denotes(P.fields[k], jq.props[k], V);
    }
  }

  /** The last token of a `copy`'s `from` walk (lines 53-55 and 61-62), at
      `pointer`, which stands for `jp`: it hands on a spread of the element
      and writes nothing. */
  method FromLastCopy(pointer: Value, toks: seq<string>, idx: nat, from: string, ghost jp: Option<Json>, ghost D: set<Node>)
    returns (r: Result<Value>, ghost T: set<Node>)
    requires idx + 1 == |toks| && DenotesOpt(pointer, jp, D)
    ensures r.Err? ==> From(jp, toks, idx, from, false) == Err(r.error)
    ensures r.Ok? ==> From(jp, toks, idx, from, false).Ok?
    ensures r.Ok? ==> Denotes(r.value, From(jp, toks, idx, from, false).value.1, T)
    ensures fresh(T - Below(pointer, D))
    ensures r.Ok? ==> r.value.Ref? && fresh(r.value.node)
  {
    T := {};
    var c := toks[idx];
    if jp.Some? {
      GetDenotes(pointer, jp.value, D, c);
    }
    var ref :- Get(pointer, c);
    if ref == Undefined || ref == Null {
      r := Err(NotExist(from));
      return;
    }
    var n := SpreadValue(ref, Some(Member(jp.value, c).value.value), Below(pointer, D));
    r, T := Ok(Ref(n)), Below(pointer, D) + {n};
  }

  /** The last token of a `move`'s `from` walk (lines 53-60), at `pointer`,
      which stands for `jp`: it takes the element out of its container, the
      end of the copied spine, and hands it on. */
  method FromLastMove(pointer: Value, toks: seq<string>, idx: nat, from: string, ghost jp: Option<Json>,
                      ghost spine: seq<Node>, ghost js: seq<Json>, ghost keys: seq<string>, ghost V: set<Node>)
    returns (r: Result<Value>)
    requires idx + 1 == |toks|
    requires pointer.Ref? ==> Copied(spine, js, keys, V) && pointer.node == spine[|keys|] && jp == Some(js[|keys|])
    requires !pointer.Ref? ==> DenotesOpt(pointer, jp, {})
    modifies if pointer.Ref? then {pointer.node} else {}
    ensures r.Err? ==> From(jp, toks, idx, from, true) == Err(r.error)
    ensures r.Ok? ==> From(jp, toks, idx, from, true).Ok?
    ensures r.Ok? ==> Denotes(r.value, From(jp, toks, idx, from, true).value.1, V)
    ensures r.Ok? ==>
              && pointer.Ref? && Spine(spine, js, keys, V)
              && Denotes(pointer, From(jp, toks, idx, from, true).value.0, V + {pointer.node})
  {
    var c := toks[idx];
    ghost var D := if pointer.Ref? then V + {pointer.node} else {};
    if jp.Some? {
      GetDenotes(pointer, jp.value, D, c);
    }
    var ref :- Get(pointer, c);
    if ref == Undefined || ref == Null {
      r := Err(NotExist(from));
      return;
    }
    if pointer.Ref? {
      ghost var jq := TakeOut(pointer.node, c, spine, js, keys, V);
      r := Ok(ref);
    } else {
      r := Err(RuntimeFault);
    }
  }

  /** A move that took the element out of the last node of the spine leaves
      the root standing for the accumulator `From` gives. */
  lemma MoveLifts(root: Value, whole: Result<(Json, Json)>, J: Option<Json>, toks: seq<string>, from: string, idx: nat, jp: Option<Json>, kj: seq<string>,
                  spine: seq<Node>, js: seq<Json>, keys: seq<string>, V: set<Node>)
    requires Spine(spine, js, keys, V) && Taking(whole, J, toks, from, true, idx, jp, kj, Ref(spine[|keys|]))
    requires root.Ref? && spine[0] == root.node && Some(js[0]) == J && kj == keys
    requires From(jp, toks, idx, from, true).Ok?
    requires Denotes(Ref(spine[|keys|]), From(jp, toks, idx, from, true).value.0, V + {spine[|keys|]})
    requires whole.Ok?
    ensures Denotes(root, whole.value.0, V + Suffix(spine, 0))
  {
    Plug(spine, js, keys, V, V, From(jp, toks, idx, from, true).value.0, 0);
    assert keys[0..] == keys;
  }

  /** The last token of the `from` walk, seen from the root: the target and
      the error are those of `From`, and so is the accumulator the root
      stands for afterwards. */
  method FromEnd(pointer: Value, toks: seq<string>, idx: nat, from: string, move: bool,
                 ghost root: Value, ghost whole: Result<(Json, Json)>, ghost J: Option<Json>, ghost jp: Option<Json>, ghost kj: seq<string>,
                 ghost spine: seq<Node>, ghost js: seq<Json>, ghost keys: seq<string>, ghost V: set<Node>)
    returns (r: Result<Value>, ghost T: set<Node>)
    requires idx + 1 == |toks| && Taking(whole, J, toks, from, move, idx, jp, kj, pointer)
    requires Walking(root, J, pointer, jp, kj, spine, js, keys, V)
    requires !root.Ref? ==> DenotesOpt(root, J, {})
    modifies if pointer.Ref? then {pointer.node} else {}
    ensures r.Err? <==> whole.Err?
    ensures r.Err? ==> r.error == whole.error
    ensures r.Ok? ==> Denotes(r.value, whole.value.1, T)
    ensures fresh(T - V)
    ensures r.Ok? && !move ==> r.value.Ref? && fresh(r.value.node)
    ensures move ==> T == V
    ensures r.Ok? && root.Ref? ==> Denotes(root, whole.value.0, V + Suffix(spine, 0))
    ensures r.Ok? && !root.Ref? ==> DenotesOpt(root, Some(whole.value.0), {})
  {
    if move {
      r := FromLastMove(pointer, toks, idx, from, jp, spine, js, keys, V);
      T := V;
      if r.Ok? {
        MoveLifts(root, whole, J, toks, from, idx, jp, kj, spine, js, keys, V);
      }
    } else {
      if root.Ref? {
        Unwind(spine, js, keys, V);
      }
      ghost var D := if pointer.Ref? then V + {pointer.node} else {};
      r, T := FromLastCopy(pointer, toks, idx, from, jp, D);
    }
  }

  /** The `from` walk up to its last token (lines 52-58 for every token but
      the last), copying each array or object it enters. It fails as `From`
      does, and otherwise stops at the value the last token is read from. */
  method FromWalk(root: Value, toks: seq<string>, from: string, move: bool, ghost whole: Result<(Json, Json)>,
                  ghost J: Option<Json>, ghost U: set<Node>)
    returns (r: Result<Value>, ghost jp: Option<Json>, ghost kj: seq<string>,
             ghost spine: seq<Node>, ghost js: seq<Json>, ghost keys: seq<string>, ghost V: set<Node>)
    requires |toks| >= 1 && DenotesOpt(root, J, U) && whole == From(J, toks, 0, from, move)
    modifies if root.Ref? then {root.node} else {}
    ensures r.Err? ==> whole == Err(r.error)
    ensures r.Ok? ==> Taking(whole, J, toks, from, move, |toks| - 1, jp, kj, r.value)
    ensures r.Ok? ==> Walking(root, J, r.value, jp, kj, spine, js, keys, V)
    ensures r.Ok? && r.value.Ref? ==> r.value.node == root.node || fresh(r.value.node)
    ensures !root.Ref? ==> DenotesOpt(root, J, {}) && V == U
    ensures root.Ref? ==> V == U - {root.node}
  {
    var pointer := root;
    var idx := 0;
    jp, kj := J, [];
    spine, js, keys, V := [], [], [], U;
    if root.Ref? {
      spine, js, keys, V := [root.node], [J.value], [], U - {root.node};
      assert V + {root.node} == U;
    } else if move {
      ScalarMoveFails(J, toks, 0, from);
    }
    while idx + 1 < |toks|
      invariant Taking(whole, J, toks, from, move, idx, jp, kj, pointer)
      invariant Walking(root, J, pointer, jp, kj, spine, js, keys, V)
      invariant !root.Ref? ==> DenotesOpt(root, J, {}) && V == U
      invariant root.Ref? ==> V == U - {root.node}
      invariant pointer.Ref? ==> pointer.node == root.node || fresh(pointer.node)
      decreases |toks| - idx
    {
      var next; ghost var jn, spine', js', keys';
      next, jn, spine', js', keys' := FromStep(pointer, toks, idx, from, move, root, whole, J, jp, kj, spine, js, keys, V);
      if next.Err? {
        r := Err(next.error);
        return;
      }
      jp, kj, spine, js, keys := jn, kj + [toks[idx]], spine', js', keys';
      pointer, idx := next.value, idx + 1;
    }
    r := Ok(pointer);
  }

  /** The `reduce` over the decoded `from` tokens (lines 52-64), with each
      array or object it is about to enter replaced by a shallow copy, as
      the walk along `path` does. The target and the error agree with
      `From`, and so does the accumulator afterwards; only the root node
      and fresh copies are written. */
  method TakeFrom(root: Value, toks: seq<string>, from: string, move: bool, ghost J: Option<Json>, ghost U: set<Node>)
    returns (r: Result<Value>, ghost T: set<Node>, ghost A: set<Node>)
    requires |toks| >= 1 && DenotesOpt(root, J, U)
    modifies if root.Ref? then {root.node} else {}
    ensures r.Err? <==> From(J, toks, 0, from, move).Err?
    ensures r.Err? ==> r.error == From(J, toks, 0, from, move).error
    ensures r.Ok? ==> Denotes(r.value, From(J, toks, 0, from, move).value.1, T)
    ensures r.Ok? ==> DenotesOpt(root, Some(From(J, toks, 0, from, move).value.0), A)
    ensures root.Ref? ==> root.node !in T && U - {root.node} <= A
    ensures fresh(T - U)
    ensures r.Ok? && !move ==> r.value.Ref? && fresh(r.value.node)
    ensures move && root.Ref? ==> T <= U
  {
    T, A := {}, U;
    ghost var whole := From(J, toks, 0, from, move);
    var pointer; ghost var jp, kj, spine, js, keys, V;
    pointer, jp, kj, spine, js, keys, V := FromWalk(root, toks, from, move, whole, J, U);
    if pointer.Err? {
      r := Err(pointer.error);
      return;
    }
    r, T := FromEnd(pointer.value, toks, |toks| - 1, from, move, root, whole, J, jp, kj, spine, js, keys, V);
    if r.Ok? && root.Ref? {
      A := V + Suffix(spine, 0);
    }
  }
}
