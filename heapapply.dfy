/** One operation and the whole `reduce` of `applyPatch` on the heap (lines
    38-145). Every method is proved to agree with the matching function of
    `JsonPatch`; `ApplyPatchAt` has no `modifies` clause, so the input
    document, and every node that exists when it is called, is left as it
    was. */
module HeapApply {
  import opened JsonTypes
  import opened Pointer
  import opened Splice
  import opened Equality
  import opened JsonPatch
  import opened Heap
  import opened HeapWalk
  import opened HeapPatch
  import opened PatchLaws

  // ----- the switch at lines 118-140 -----

  /** Each element of `vs` stands for the matching one of `xs`, reading
      only `V`. */
  ghost predicate Elems(vs: seq<Value>, xs: seq<Json>, V: set<Node>)
    reads V
  {
    |vs| == |xs| && forall i :: 0 <= i < |xs| ==> Denotes(vs[i], xs[i], V)
  }

  /** An array node outside `V` stands for the array of what its elements
      stand for. */
  lemma ArrayDenotes(P: Node, xs: seq<Json>, V: set<Node>)
    requires P.isArray && P !in V
    ensures Denotes(Ref(P), JArr(xs), V + {P}) <==> Elems(P.elems, xs, V)
  {
    assert (V + {P}) - {P} == V;
  }

  /** The elements an array holds after the switch writes `x` at `c`, from
      the elements `es` it held: `push` or `splice(c, 0, x)` for `add`,
      `splice(c, 1)` for `remove`, and `splice(c, 1, x)` or a property write
      (an overwrite, or an append just past the end) otherwise. */
  function ArrayWrite(op: string, c: string, es: seq<Value>, x: Value): seq<Value>
  {
    var i := if c == "-" || !AllDigits(c) then |es| else SpliceStart(c, |es|);
    if op == "add" then InsertAt(es, i, x)
    else if op == "remove" then (if i < |es| then RemoveAt(es, i) else es)
    else if i < |es| then es[i := x]
    else es + [x]
  }

  /** The properties an object holds after the switch: `delete` for
      `remove`, a property write otherwise. */
  function ObjectWrite(op: string, c: string, fs: map<string, Value>, x: Value): map<string, Value>
  {
    if op == "remove" then fs - {c} else fs[c := x]
  }

  /** The array switch for `add` (lines 120-122): `push` for `-`, otherwise
      `splice(component, 0, value)` at the clamped position. */
  method AddToArray(P: Node, c: string, x: Value, ghost s: Spot, ghost jx: Json, ghost V: set<Node>)
    requires Checked("add", s) && c == s.component
    requires P.isArray && P !in V && Denotes(Ref(P), s.pointer, V + {P}) && Denotes(x, jx, V)
    modifies P
    ensures Edit("add", s, jx).Ok? && Denotes(Ref(P), Edit("add", s, jx).value, V + {P})
    ensures P.elems == ArrayWrite("add", c, old(P.elems), x)
  {
    ghost var xs, ps := s.pointer.items, P.elems;
    ArrayDenotes(P, xs, V);
    if c == "-" {
      P.Push(x);
      assert ArrayWrite("add", c, ps, x) == ps + [x] by {
        assert ps[..|ps|] == ps && ps[|ps|..] == [];
      }
      assert Edit("add", s, jx) == Ok(JArr(xs + [jx]));
      ArrayDenotes(P, xs + [jx], V);
    } else {
      P.SpliceInsert(c, x);
      assert Edit("add", s, jx) == Ok(JArr(InsertAt(xs, SpliceStart(c, |xs|), jx)));
      ArrayDenotes(P, InsertAt(xs, SpliceStart(c, |xs|), jx), V);
    }
  }

  /** The array switch for `replace` and `remove` (lines 126 and 130):
      `splice(component, 1, value)` and `splice(component, 1)` at an index
      the checks found in range. */
  method SpliceArray(P: Node, op: string, c: string, x: Value, ghost s: Spot, ghost jx: Json, ghost V: set<Node>)
    requires op in {"replace", "remove"} && Checked(op, s) && c == s.component
    requires P.isArray && P !in V && Denotes(Ref(P), s.pointer, V + {P})
    requires op == "replace" ==> Denotes(x, jx, V)
    modifies P
    ensures Edit(op, s, jx).Ok? && Denotes(Ref(P), Edit(op, s, jx).value, V + {P})
    ensures P.elems == ArrayWrite(op, c, old(P.elems), x)
  {
    ghost var xs := s.pointer.items;
    ArrayDenotes(P, xs, V);
    if op == "replace" {
      P.SpliceReplace(DigitsValue(c), x);
      ArrayDenotes(P, xs[DigitsValue(c) := jx], V);
    } else {
      P.SpliceRemove(DigitsValue(c));
      ArrayDenotes(P, RemoveAt(xs, DigitsValue(c)), V);
    }
  }

  /** The switch on an array node `P` that stands for `s.pointer`, with `x`
      standing for `jx`: `push` or `splice` for `add`, `replace` and
      `remove`, and a plain property write for a move or copy, which on an
      array only works at an index in range or just past the end. */
  method WriteArray(P: Node, op: string, c: string, x: Value, ghost s: Spot, ghost jx: Json, ghost V: set<Node>)
    returns (r: Result<()>)
    requires op in {"add", "replace", "remove", "move", "copy"} && Checked(op, s) && c == s.component
    requires P.isArray && P !in V && Denotes(Ref(P), s.pointer, V + {P})
    requires op != "remove" ==> Denotes(x, jx, V)
    modifies P
    ensures r.Err? <==> Edit(op, s, jx).Err?
    ensures r.Err? ==> r.error == RuntimeFault
    ensures r.Ok? ==> Denotes(Ref(P), Edit(op, s, jx).value, V + {P})
    ensures r.Ok? ==> P.elems == ArrayWrite(op, c, old(P.elems), x)
  {
    r := Ok(());
    if op == "add" {
      AddToArray(P, c, x, s, jx, V);
    } else if op == "replace" || op == "remove" {
      SpliceArray(P, op, c, x, s, jx, V);
    } else {
      ghost var xs := s.pointer.items;
      ArrayDenotes(P, xs, V);
      var ok := P.Assign(c, x);
      if !ok {
        r := Err(RuntimeFault);
      } else if DigitsValue(c) < |xs| {
        ArrayDenotes(P, xs[DigitsValue(c) := jx], V);
      } else {
        ArrayDenotes(P, xs + [jx], V);
      }
    }
  }

  /** The switch on an object node `P` that stands for `s.pointer`: `delete`
      for a removal, a property write otherwise. */
  method WriteObject(P: Node, op: string, c: string, x: Value, ghost s: Spot, ghost jx: Json, ghost V: set<Node>)
    returns (r: Result<()>)
    requires op in {"add", "replace", "remove", "move", "copy"} && Checked(op, s) && c == s.component
    requires !P.isArray && P !in V && Denotes(Ref(P), s.pointer, V + {P})
    requires op != "remove" ==> Denotes(x, jx, V)
    modifies P
    ensures r.Err? <==> Edit(op, s, jx).Err?
    ensures r.Ok? ==> Denotes(Ref(P), Edit(op, s, jx).value, V + {P})
    ensures r.Ok? ==> P.fields == ObjectWrite(op, c, old(P.fields), x)
  {
    assert (V + {P}) - {P} == V;
    r := Ok(());
    if op == "remove" {
      P.Delete(c);
    } else {
      var _ := P.Assign(c, x);
    }
  }

  /** The elements `ws` of an array the switch wrote at `c`, against the
      elements `bs` of the input's array it was copied from: every element
      is `bs`'s own but the one written and the one the walk copied at a
      canonical index in range (lines 87-94). An insertion moves the later
      elements one place right and a removal one place left; an overwrite
      keeps them in place. */
  ghost predicate ElemsBut(ws: seq<Value>, bs: seq<Value>, op: string, c: string)
  {
    var n := |bs|;
    var i := if c == "-" || !AllDigits(c) then n else SpliceStart(c, n);
    var j := if IsArrayIndex(c) && i < n then i + 1 else i;
    if op == "add" then |ws| == n + 1 && ws[..i] == bs[..i] && ws[j + 1..] == bs[j..]
    else if op == "remove" then ws == if i < n then bs[..i] + bs[i + 1..] else bs
    else && |ws| == (if i < n then n else n + 1) && ws[..i] == bs[..i]
         && (i < n ==> ws[i + 1..] == bs[i + 1..])
  }

  /** The container `a` the switch wrote at `c`, against the input's node
      `b` the walk copied it from: of the same kind, an object holding
      `b`'s own value at every key but `c`, and an array ws `ElemsBut`
      says. */
  ghost predicate EditedBut(a: Node, b: Node, op: string, c: string)
    reads a, b
  {
    && a.isArray == b.isArray
    && (if a.isArray then ElemsBut(a.elems, b.elems, op, c) else a.fields - {c} == b.fields - {c})
  }

  /** What `EditedBut` means for an object: every other key reads the
      input's own value. */
  lemma EditedButLookup(a: Node, b: Node, op: string, c: string, k: string)
    requires EditedBut(a, b, op, c) && !a.isArray && k != c
    ensures a.Lookup(k) == b.Lookup(k)
  {
    assert k in a.fields <==> k in a.fields - {c};
    assert k in b.fields <==> k in b.fields - {c};
    if k in a.fields {
      assert a.fields[k] == (a.fields - {c})[k];
      assert b.fields[k] == (b.fields - {c})[k];
    }
  }

  /** What `EditedBut` means for an array: every element before the
      position the switch wrote at is the input's own. */
  lemma EditedButBefore(a: Node, b: Node, op: string, c: string, k: nat)
    requires EditedBut(a, b, op, c) && a.isArray && c != "-" && AllDigits(c) && k < SpliceStart(c, |b.elems|)
    ensures k < |a.elems| && a.elems[k] == b.elems[k]
  {
    var i := SpliceStart(c, |b.elems|);
    assert a.elems[..i][k] == b.elems[..i][k];
  }

  /** An array switch on elements `ps` that were the input's `bs` but at
      the walked index keeps the rest of `bs` as `ElemsBut` says. */
  lemma ArrayWriteKeeps(op: string, c: string, ps: seq<Value>, bs: seq<Value>, x: Value)
    requires IsArrayIndex(c) && DigitsValue(c) < |bs| ==> |ps| == |bs| && ps == bs[DigitsValue(c) := ps[DigitsValue(c)]]
    requires !(IsArrayIndex(c) && DigitsValue(c) < |bs|) ==> ps == bs
    ensures ElemsBut(ArrayWrite(op, c, ps, x), bs, op, c)
  {
    if op == "add" {
      InsertKeeps(c, ps, bs, x);
    } else if op == "remove" {
      RemoveKeeps(c, ps, bs, x);
    } else {
      SetKeeps(op, c, ps, bs, x);
    }
  }

  /** `ArrayWriteKeeps` for `add`: the elements from the insert position
      on move one place right, past the element the walk copied. */
  lemma InsertKeeps(c: string, ps: seq<Value>, bs: seq<Value>, x: Value)
    requires IsArrayIndex(c) && DigitsValue(c) < |bs| ==> |ps| == |bs| && ps == bs[DigitsValue(c) := ps[DigitsValue(c)]]
    requires !(IsArrayIndex(c) && DigitsValue(c) < |bs|) ==> ps == bs
    ensures ElemsBut(ArrayWrite("add", c, ps, x), bs, "add", c)
  {
    var n := |bs|;
    var i := if c == "-" || !AllDigits(c) then n else SpliceStart(c, n);
    assert ps[..i] == bs[..i];
    var ws := ArrayWrite("add", c, ps, x);
    assert ws == ps[..i] + [x] + ps[i..];
    assert ws[..i] == ps[..i];
    if IsArrayIndex(c) && i < n {
      assert ws[i + 2..] == ps[i + 1..] == bs[i + 1..];
    } else {
      assert ws[i + 1..] == ps[i..] == bs[i..];
    }
  }

  /** `ArrayWriteKeeps` for `remove`: the element at the position goes,
      the others are the input's. */
  lemma RemoveKeeps(c: string, ps: seq<Value>, bs: seq<Value>, x: Value)
    requires IsArrayIndex(c) && DigitsValue(c) < |bs| ==> |ps| == |bs| && ps == bs[DigitsValue(c) := ps[DigitsValue(c)]]
    requires !(IsArrayIndex(c) && DigitsValue(c) < |bs|) ==> ps == bs
    ensures ElemsBut(ArrayWrite("remove", c, ps, x), bs, "remove", c)
  {
    var n := |bs|;
    var i := if c == "-" || !AllDigits(c) then n else SpliceStart(c, n);
    if i < n {
      assert ps[..i] == bs[..i];
      assert ps[i + 1..] == bs[i + 1..];
    }
  }

  /** `ArrayWriteKeeps` for the writes by assignment: one element is set
      or appended, the others are the input's. */
  lemma SetKeeps(op: string, c: string, ps: seq<Value>, bs: seq<Value>, x: Value)
    requires op != "add" && op != "remove"
    requires IsArrayIndex(c) && DigitsValue(c) < |bs| ==> |ps| == |bs| && ps == bs[DigitsValue(c) := ps[DigitsValue(c)]]
    requires !(IsArrayIndex(c) && DigitsValue(c) < |bs|) ==> ps == bs
    ensures ElemsBut(ArrayWrite(op, c, ps, x), bs, op, c)
  {
    var n := |bs|;
    var i := if c == "-" || !AllDigits(c) then n else SpliceStart(c, n);
    assert ps[..i] == bs[..i];
    var ws := ArrayWrite(op, c, ps, x);
    if i < n {
      assert ws[..i] == ps[..i];
      assert ws[i + 1..] == ps[i + 1..] == bs[i + 1..];
    } else {
      assert ws[..i] == ps;
    }
  }

  /** An object switch on properties `ps` that were the input's `bs` but
      at `c` keeps every other property of `bs`. */
  lemma ObjectWriteKeeps(op: string, c: string, ps: map<string, Value>, bs: map<string, Value>, v: Value, x: Value)
    requires ps == if c in bs then bs[c := v] else bs
    ensures ObjectWrite(op, c, ps, x) - {c} == bs - {c}
  {
    assert ps - {c} == bs - {c};
  }

  /** The switch on a node `P` that stands for `s.pointer`: `WriteArray` or
      `WriteObject`. */
  method WriteAt(P: Node, op: string, c: string, x: Value, ghost s: Spot, ghost jx: Json, ghost V: set<Node>)
    returns (r: Result<()>)
    requires op in {"add", "replace", "remove", "move", "copy"} && Checked(op, s) && c == s.component
    requires P !in V && Denotes(Ref(P), s.pointer, V + {P})
    requires op != "remove" ==> Denotes(x, jx, V)
    modifies P
    ensures r.Err? <==> Edit(op, s, jx).Err?
    ensures r.Err? ==> r.error == RuntimeFault
    ensures r.Ok? ==> Denotes(Ref(P), Edit(op, s, jx).value, V + {P})
    ensures r.Ok? && P.isArray ==> P.elems == ArrayWrite(op, c, old(P.elems), x)
    ensures r.Ok? && !P.isArray ==> P.fields == ObjectWrite(op, c, old(P.fields), x)
  {
    if P.isArray {
      r := WriteArray(P, op, c, x, s, jx, V);
    } else {
      r := WriteObject(P, op, c, x, s, jx, V);
    }
  }

  /** A node that held its original's entries but at `c` (`held` there),
      once the switch wrote it, holds them as `EditedBut` says. */
  lemma WriteKeeps(P: Node, B: Node, op: string, c: string, ps: seq<Value>, pf: map<string, Value>, held: Value, x: Value)
    requires P.isArray == B.isArray
    requires P.isArray ==> ps == (if IsArrayIndex(c) && DigitsValue(c) < |B.elems| then B.elems[DigitsValue(c) := held] else B.elems)
    requires !P.isArray ==> pf == (if c in B.fields then B.fields[c := held] else B.fields)
    requires P.isArray ==> P.elems == ArrayWrite(op, c, ps, x)
    requires !P.isArray ==> P.fields == ObjectWrite(op, c, pf, x)
    ensures EditedBut(P, B, op, c)
  {
    if P.isArray {
      ArrayWriteKeeps(op, c, ps, B.elems, x);
    } else {
      ObjectWriteKeeps(op, c, pf, B.fields, held, x);
    }
  }

  /** The edit of the switch for every operation but `test`, on the node `P`
      the walk stopped at, the end of the spine, which stands for the spot's
      container; `x` stands for the value put in (the operation's value or
      the target). The write fails and succeeds where `Edit` does, and
      afterwards `P` stands for the container `Edit` gives; the rest of the
      spine keeps what it held, and so do the originals `origs` it was
      copied from. `P` itself, which held its original's entries but at
      `c`, holds them afterwards as `EditedBut` says. */
  method EditAt(P: Node, op: string, c: string, x: Value, ghost s: Spot, ghost jx: Json,
                ghost spine: seq<Node>, ghost js: seq<Json>, ghost keys: seq<string>, ghost W: set<Node>, ghost V: set<Node>,
                ghost origs: seq<Node>, ghost track: bool)
    returns (r: Result<()>)
    requires op in {"add", "replace", "remove", "move", "copy"} && Checked(op, s) && c == s.component
    requires Spine(spine, js, keys, W) && W <= V && P == spine[|keys|] && js[|keys|] == s.pointer
    requires P !in V && Denotes(Ref(P), s.pointer, V + {P})
    requires op != "remove" ==> Denotes(x, jx, V)
    requires track ==> |origs| == |spine| && CopiesAlong(spine, origs, keys) && P !in origs
    requires track ==> AgreeBut(P, origs[|keys|], c)
    modifies P
    ensures r.Err? <==> Edit(op, s, jx).Err?
    ensures r.Err? ==> r.error == RuntimeFault
    ensures r.Ok? ==> Denotes(Ref(P), Edit(op, s, jx).value, V + {P})
    ensures Spine(spine, js, keys, W)
    ensures track ==> CopiesAlong(spine, origs, keys)
    ensures track && r.Ok? ==> EditedBut(P, origs[|keys|], op, c)
  {
    ghost var B := if track then origs[|keys|] else P;
    ghost var ps, pf, held := P.elems, P.fields, P.Lookup(c);
    r := WriteAt(P, op, c, x, s, jx, V);
    if track && r.Ok? {
      WriteKeeps(P, B, op, c, ps, pf, held, x);
    }
  }

  /** The switch cannot write through a value that holds no node: writing or
      deleting a property of a scalar throws. */
  lemma EditScalarFails(op: string, s: Spot, x: Json)
    requires op in {"add", "replace", "remove", "move", "copy"} && Checked(op, s)
    requires !s.pointer.JArr? && !s.pointer.JObj?
    ensures Edit(op, s, x) == Err(RuntimeFault)
  {
  }

  // ----- the checks at lines 100-116 -----

  /** The three checks at lines 100-116, on what the heap walk found. */
  function CheckAt(op: string, path: string, f: Found, n: nat): (r: Result<()>)
    ensures r.Err? ==> r.error == NotExist(path)
    ensures forall s :: Agrees(f, s) ==> r == Check(op, path, s, n)
  {
    if || (f.i < n && f.child == Undefined)
       || (f.i == n && op !in {"add", "move", "copy"} && f.child == Undefined)
       || (IsArrayValue(f.pointer) && f.component != "-" && !AllDigits(f.component))
    then Err(NotExist(path))
    else Ok(())
  }

  // ----- an operation on the whole document (lines 70-74) -----

  /** Lines 70-74 as the evidently intended behaviour: the new accumulator
      is never a node the caller can still see. A test compares and then
      hands on a fresh copy of the value, as do `add` and `replace`; a copy
      hands on its target, already a fresh spread; a move hands on a shallow
      copy of its target, so that later operations cannot write into the
      input document. */
  method RootAt(op: string, acc1: Value, value: Json, target: Value,
                ghost J1: Option<Json>, ghost U1: set<Node>, ghost jt: Json, ghost T: set<Node>)
    returns (r: Result<Value>, ghost R: set<Node>)
    requires op in Operations - {"remove"} && DenotesOpt(acc1, J1, U1)
    requires op in {"move", "copy"} ==> Denotes(target, jt, T)
    ensures r.Err? <==> AtRoot(op, J1, value, jt).Err?
    ensures r.Err? ==> r.error == AtRoot(op, J1, value, jt).error
    ensures r.Ok? ==> DenotesOpt(r.value, AtRoot(op, J1, value, jt).value, R)
    ensures r.Ok? && r.value.Ref? ==> fresh(r.value.node) || (op == "copy" && r.value == target)
  {
    R := {};
    if op == "test" {
      var _ :- AssertEquality(Freeze(acc1, J1, U1), value);
    }
    if op == "test" || op == "add" || op == "replace" {
      assert AtRoot(op, J1, value, jt) == Ok(Some(value));
      var v; ghost var X;
      v, X := Materialize(value);
      return Ok(v), X;
    }
    assert AtRoot(op, J1, value, jt) == Ok(Some(jt));
    if op == "copy" {
      return Ok(target), T;
    }
    var v;
    v, R := Detach(target, jt, T);
    r := Ok(v);
  }

  /** The moved value with its top node replaced by a shallow copy. */
  method Detach(target: Value, ghost jt: Json, ghost T: set<Node>) returns (v: Value, ghost R: set<Node>)
    requires Denotes(target, jt, T)
    ensures Denotes(v, jt, R)
    ensures v.Ref? ==> fresh(v.node)
  {
    if !target.Ref? {
      return target, T;
    }
    var c := Clone(target.node);
    CloneDenotes(target.node, c, jt, T);
    v, R := Ref(c), T + {c};
  }

  /** Lines 70-74 as written: a move hands on its target itself, a node that
      may still belong to the input document. */
  method RootAtAsWritten(op: string, acc1: Value, value: Json, target: Value,
                         ghost J1: Option<Json>, ghost U1: set<Node>, ghost jt: Json, ghost T: set<Node>)
    returns (r: Result<Value>, ghost R: set<Node>)
    requires op in Operations - {"remove"} && DenotesOpt(acc1, J1, U1)
    requires op in {"move", "copy"} ==> Denotes(target, jt, T)
    ensures r.Err? <==> AtRoot(op, J1, value, jt).Err?
    ensures r.Err? ==> r.error == AtRoot(op, J1, value, jt).error
    ensures r.Ok? ==> DenotesOpt(r.value, AtRoot(op, J1, value, jt).value, R)
    ensures r.Ok? && op in {"move", "copy"} ==> r.value == target
  {
    R := {};
    if op == "test" {
      var _ :- AssertEquality(Freeze(acc1, J1, U1), value);
    }
    if op == "test" || op == "add" || op == "replace" {
      var v; ghost var X;
      v, X := Materialize(value);
      return Ok(v), X;
    }
    r, R := Ok(target), T;
  }

  // ----- an operation at a path (lines 76-141) -----

  /** `test` at a path: the walk without copies, the checks, then the
      comparison of the element found with the value. The accumulator is
      handed on untouched. */
  method TestAt(path: string, acc1: Value, value: Json, ghost J1: Option<Json>, ghost U1: set<Node>)
    returns (r: Result<Value>)
    requires DenotesOpt(acc1, J1, U1)
    ensures r.Err? <==> TestPath(path, J1, value).Err?
    ensures r.Err? ==> r.error == TestPath(path, J1, value).error
    ensures r.Ok? ==> r == Ok(acc1)
  {
    var comps := RawTokens(path);
    ghost var decoded := Decoded(comps);
    var f :- WalkRead(acc1, comps, decoded, J1, U1);
    ghost var s := Walk(J1, decoded, 0, [], J1).value;
    var _ :- CheckAt("test", path, f, |comps|);
    var _ :- AssertEquality(Freeze(f.child, s.child, U1), value);
    r := Ok(acc1);
  }

  /** What the walk with copies and the checks leave for the edit: the
      walk stopped at `f` where the JSON walk stopped at `s`, which passed
      the checks; a scalar container stands for one that is neither array
      nor object, and a node is the end of the copied spine. When `track`
      holds, the walk went to the end of a path with no restart, copying
      the nodes `origs` as it went. */
  ghost predicate Reached(op: string, f: Found, s: Spot, acc1: Value, J1: Option<Json>, spine: seq<Node>, js: seq<Json>, keys: seq<string>,
                          W: set<Node>, V: set<Node>, origs: seq<Node>, track: bool, decoded: seq<Result<string>>, U1: set<Node>)
    reads spine, V, origs
  {
    && Checked(op, s) && Agrees(f, s)
    && (!f.pointer.Ref? ==> !s.pointer.JArr? && !s.pointer.JObj?)
    && (f.pointer.Ref? ==> Trail(acc1, J1, f.pointer, s.pointer, s.keys, spine, js, keys, W, V) && U1 - {acc1.node} <= W)
    && (track && f.pointer.Ref? ==>
          && Shared(spine, origs, keys, f.component) && 1 <= |decoded| && NoRestart(decoded)
          && Walk(J1, decoded, 0, [], J1) == Ok(s) && s.i == |decoded|)
  }

  /** The edit at the end of a walk that stopped at `f`, where the JSON
      walk stopped at `s`: a scalar container throws, and a node, the end
      of the copied spine, is edited by the switch. The accumulator then
      stands for the root's value with the edited container put back along
      the keys. The copies along the spine, which the edit does not
      write, keep what they share with their originals `origs`. */
  method EditFound(op: string, f: Found, x: Value, ghost s: Spot, ghost jx: Json, ghost acc1: Value, ghost J1: Option<Json>,
                   ghost spine: seq<Node>, ghost js: seq<Json>, ghost keys: seq<string>, ghost W: set<Node>, ghost V: set<Node>,
                   ghost origs: seq<Node>, ghost track: bool, ghost decoded: seq<Result<string>>, ghost U1: set<Node>)
    returns (r: Result<()>, ghost R: set<Node>)
    requires op in {"add", "replace", "remove", "move", "copy"}
    requires Reached(op, f, s, acc1, J1, spine, js, keys, W, V, origs, track, decoded, U1)
    requires op != "remove" ==> Denotes(x, jx, Below(acc1, U1))
    modifies if f.pointer.Ref? then {f.pointer.node} else {}
    ensures r.Err? <==> Edit(op, s, jx).Err?
    ensures r.Err? ==> r.error == RuntimeFault
    ensures r.Ok? ==> f.pointer.Ref?
    ensures r.Ok? ==> acc1.Ref? && Denotes(acc1, Put(J1.value, s.keys, Edit(op, s, jx).value), R)
    ensures track && r.Ok? ==> PathCopies(spine, origs, keys, decoded, op, U1 - {acc1.node})
  {
    R := {};
    if !f.pointer.Ref? {
      EditScalarFails(op, s, jx);
      return Err(RuntimeFault), R;
    }
    var P := f.pointer.node;
    if op != "remove" {
      DenotesMono(x, jx, Below(acc1, U1), V);
    }
    if track {
      WalkShape(J1, decoded, s, acc1, U1, f.pointer, spine, js, keys, W, V, origs, f.component);
    }
    r := EditAt(P, op, f.component, x, s, jx, spine, js, keys, W, V, origs, track);
    if r.Ok? {
      Plug(spine, js, keys, W, V, Edit(op, s, jx).value, 0);
      assert keys[0..] == keys;
      R := V + Suffix(spine, 0);
    }
    if track && r.Ok? {
      FrontCopies(spine, origs, keys, decoded, op, U1 - {acc1.node});
    }
  }

  /** After an edit at a path whose tokens (`decoded`) hold no restart, the
      nodes `copies` lead from the accumulator's node along `keys`, the
      tokens but the last, and are the shallow copies made of the nodes
      `origs` the path led through before: none of them is a node of `S` or
      one of the originals, and each holds, at every key but the path's, the
      very value its original holds there. The last copy, the container
      `op` edited at the last token, holds its original's own entries but
      there (`EditedBut`). */
  ghost predicate PathCopies(copies: seq<Node>, origs: seq<Node>, keys: seq<string>, decoded: seq<Result<string>>, op: string,
                             S: set<Node>)
    reads copies, origs
  {
    && CopyShape(copies, origs, keys, decoded, S)
    && decoded[|keys|].Ok? && EditedBut(copies[|keys|], origs[|keys|], op, decoded[|keys|].value)
    && (forall t :: 0 <= t < |keys| ==>
          copies[t].Lookup(keys[t]) == Ref(copies[t + 1]) && origs[t].Lookup(keys[t]) == Ref(origs[t + 1]))
    && (forall t, k :: 0 <= t < |keys| && k != keys[t] ==> copies[t].Lookup(k) == origs[t].Lookup(k))
  }

  /** The part of `PathCopies` that does not read the heap. */
  ghost predicate CopyShape(copies: seq<Node>, origs: seq<Node>, keys: seq<string>, decoded: seq<Result<string>>, S: set<Node>)
  {
    && |copies| == |origs| == |keys| + 1 == |decoded|
    && (forall t :: 0 <= t < |keys| ==> decoded[t] == Ok(keys[t]))
    && (forall t :: 0 <= t < |copies| ==> copies[t] !in S && origs[t] !in copies)
  }

  /** A walk with copies to the end of a path with no restart leaves the
      shape `CopyShape` asks for: one copy per token, led to by the decoded
      tokens, none of them a node of the input but the accumulator's. */
  lemma WalkShape(J1: Option<Json>, decoded: seq<Result<string>>, s: Spot, acc1: Value, U1: set<Node>, p: Value,
                  spine: seq<Node>, js: seq<Json>, keys: seq<string>, W: set<Node>, V: set<Node>, origs: seq<Node>, c: string)
    requires 1 <= |decoded| && NoRestart(decoded) && Walk(J1, decoded, 0, [], J1).Ok?
    requires s == Walk(J1, decoded, 0, [], J1).value && s.i == |decoded|
    requires acc1.Ref? && Trail(acc1, J1, p, s.pointer, s.keys, spine, js, keys, W, V) && U1 - {acc1.node} <= W
    requires Shared(spine, origs, keys, c)
    ensures CopyShape(spine, origs, keys, decoded, U1 - {acc1.node})
    ensures decoded[|keys|] == Ok(s.component)
  {
    WalkKeys(J1, decoded, 0, [], J1);
  }

  /** Copies linked along the keys that agree with their originals but
      for the path's keys share, at every other key, the very value their
      originals hold. */
  lemma FrontCopies(copies: seq<Node>, origs: seq<Node>, keys: seq<string>, decoded: seq<Result<string>>, op: string, S: set<Node>)
    requires CopyShape(copies, origs, keys, decoded, S) && Linked(copies, keys) && CopiesAlong(copies, origs, keys)
    requires decoded[|keys|].Ok? && EditedBut(copies[|keys|], origs[|keys|], op, decoded[|keys|].value)
    ensures PathCopies(copies, origs, keys, decoded, op, S)
  {
    forall t, k | 0 <= t < |keys| && k != keys[t] ensures copies[t].Lookup(k) == origs[t].Lookup(k) {
      AgreeButLookup(copies[t], origs[t], keys[t], k);
    }
  }

  /** The walk with copies along `path` and the checks after it (lines
      76-116): it throws where `EditPath` throws before the switch, and
      otherwise stops where the JSON walk stops, at a spot that passes the
      checks, leaving what the edit needs (`Reached`). */
  method WalkChecked(op: string, path: string, acc1: Value, ghost jx: Json, ghost J1: Option<Json>, ghost U1: set<Node>,
                     ghost O: Node, ghost track: bool)
    returns (r: Result<Found>, ghost s: Spot, ghost spine: seq<Node>, ghost js: seq<Json>, ghost keys: seq<string>,
             ghost W: set<Node>, ghost V: set<Node>, ghost origs: seq<Node>)
    requires op in {"add", "replace", "remove", "move", "copy"} && DenotesOpt(acc1, J1, U1)
    requires track ==> acc1.Ref? && SameEntries(acc1.node, O) && O in U1 - {acc1.node} && NoRestart(Decoded(RawTokens(path)))
    modifies if acc1.Ref? then {acc1.node} else {}
    ensures r.Err? ==> EditPath(op, path, J1, jx) == Err(r.error)
    ensures r.Ok? ==> Reached(op, r.value, s, acc1, J1, spine, js, keys, W, V, origs, track, Decoded(RawTokens(path)), U1)
    ensures r.Ok? ==> Walk(J1, Decoded(RawTokens(path)), 0, [], J1) == Ok(s) && Check(op, path, s, |RawTokens(path)|) == Ok(())
    ensures r.Ok? && r.value.pointer.Ref? ==> acc1.Ref? && (r.value.pointer.node == acc1.node || fresh(r.value.pointer.node))
    ensures track && r.Ok? && r.value.pointer.Ref? ==> spine[0] == acc1.node && origs[0] == O
  {
    var comps := RawTokens(path);
    ghost var decoded := Decoded(comps);
    s := Spot([], JNull, "", None, 0);
    var f;
    f, spine, js, keys, W, V, origs := WalkCopy(acc1, comps, decoded, J1, U1, O, track);
    if f.Err? {
      return Err(f.error), s, spine, js, keys, W, V, origs;
    }
    s := Walk(J1, decoded, 0, [], J1).value;
    var _ :- CheckAt(op, path, f.value, |comps|);
    CheckedSpot(op, path, s, |comps|);
    r := Ok(f.value);
  }

  /** Every operation but `test` at a path: the walk with copies, the
      checks, then the edit of the node the walk stopped at. `x` stands for
      the value put in (the operation's value, or the target of a move or
      copy), reading only nodes other than the accumulator's. The
      accumulator node itself is updated and handed on. When `track` says
      that the accumulator's node held what `O` holds and the path has no
      restart, the nodes along the path are copies sharing everything off
      the path with the nodes of `O`'s tree (`PathCopies`). */
  method EditPathAt(op: string, path: string, acc1: Value, x: Value, ghost jx: Json, ghost J1: Option<Json>, ghost U1: set<Node>,
                    ghost O: Node, ghost track: bool)
    returns (r: Result<Value>, ghost R: set<Node>, ghost copies: seq<Node>, ghost origs: seq<Node>, ghost keys: seq<string>)
    requires op in {"add", "replace", "remove", "move", "copy"} && DenotesOpt(acc1, J1, U1)
    requires op != "remove" ==> Denotes(x, jx, Below(acc1, U1))
    requires track ==> acc1.Ref? && SameEntries(acc1.node, O) && O in U1 - {acc1.node} && NoRestart(Decoded(RawTokens(path)))
    modifies if acc1.Ref? then {acc1.node} else {}
    ensures r.Err? <==> EditPath(op, path, J1, jx).Err?
    ensures r.Err? ==> r.error == EditPath(op, path, J1, jx).error
    ensures r.Ok? ==> r == Ok(acc1) && DenotesOpt(acc1, EditPath(op, path, J1, jx).value, R)
    ensures track && r.Ok? ==>
              PathCopies(copies, origs, keys, Decoded(RawTokens(path)), op, U1 - {acc1.node}) && copies[0] == acc1.node && origs[0] == O
  {
    R := {};
    var f; ghost var s, js, W, V;
    f, s, copies, js, keys, W, V, origs := WalkChecked(op, path, acc1, jx, J1, U1, O, track);
    if f.Err? {
      return Err(f.error), R, copies, origs, keys;
    }
    var e;
    e, R := EditFound(op, f.value, x, s, jx, acc1, J1, copies, js, keys, W, V, origs, track, Decoded(RawTokens(path)), U1);
    if e.Err? {
      return Err(e.error), R, copies, origs, keys;
    }
    r := Ok(acc1);
  }

  // ----- one operation (lines 43-144) -----

  /** Lines 45-66: a move or copy takes its target from `from` before
      anything else, copying what it passes through; other operations take
      nothing. What is taken, and the error thrown, agree with `Source`.
      The target reads no node of the accumulator's own, and a copy's
      target is a fresh spread. */
  method SourceAt(acc: Value, item: Op, ghost J: Option<Json>, ghost U: set<Node>)
    returns (t: Result<Value>, ghost J1: Option<Json>, ghost U1: set<Node>, ghost jt: Json, ghost T: set<Node>)
    requires item.op in Operations && DenotesOpt(acc, J, U)
    modifies if acc.Ref? then {acc.node} else {}
    ensures t.Err? <==> Source(J, item).Err?
    ensures t.Err? ==> t.error == Source(J, item).error
    ensures t.Ok? ==> Source(J, item) == Ok((J1, jt)) && DenotesOpt(acc, J1, U1)
    ensures t.Ok? && item.op in {"move", "copy"} ==> Denotes(t.value, jt, T) && (acc.Ref? ==> acc.node !in T)
    ensures t.Ok? && item.op == "copy" ==> t.value.Ref? && fresh(t.value.node)
    ensures item.op !in {"move", "copy"} ==> t == Ok(Null) && J1 == J && U1 == U && (acc.Ref? ==> unchanged(acc.node))
  {
    J1, U1, jt, T := J, U, JNull, {};
    if item.op != "move" && item.op != "copy" {
      return Ok(Null), J1, U1, jt, T;
    }
    if item.from.None? {
      return Err(RuntimeFault), J1, U1, jt, T;
    }
    var toks :- EscapeAll(RawTokens(item.from.value));
    ghost var A;
    t, T, A := TakeFrom(acc, toks, item.from.value, item.op == "move", J, U);
    if t.Ok? {
      ghost var f := From(J, toks, 0, item.from.value, item.op == "move");
      J1, U1, jt := Some(f.value.0), A, f.value.1;
    }
  }

  /** Lines 76-141 after the `from` walk: `test` reads, every other
      operation edits, a fresh copy of the operation's value standing for it
      where one is put in. */
  method PathAt(item: Op, acc: Value, target: Value, ghost J1: Option<Json>, ghost U1: set<Node>, ghost jt: Json, ghost T: set<Node>,
                ghost O: Node, ghost track: bool)
    returns (r: Result<Value>, ghost R: set<Node>, ghost copies: seq<Node>, ghost origs: seq<Node>, ghost keys: seq<string>)
    requires item.op in Operations && DenotesOpt(acc, J1, U1)
    requires item.op in {"move", "copy"} ==> Denotes(target, jt, T) && (acc.Ref? ==> acc.node !in T)
    requires track ==> && item.op in {"add", "replace", "remove"} && acc.Ref? && SameEntries(acc.node, O) && O in U1 - {acc.node}
                       && NoRestart(Decoded(RawTokens(item.path)))
    modifies if acc.Ref? then {acc.node} else {}
    ensures r.Err? <==> AtPath(item.op, item.path, J1, item.value, jt).Err?
    ensures r.Err? ==> r.error == AtPath(item.op, item.path, J1, item.value, jt).error
    ensures r.Ok? ==> r == Ok(acc) && DenotesOpt(acc, AtPath(item.op, item.path, J1, item.value, jt).value, R)
    ensures track && r.Ok? ==>
              PathCopies(copies, origs, keys, Decoded(RawTokens(item.path)), item.op, U1 - {acc.node}) && copies[0] == acc.node && origs[0] == O
  {
    var op := item.op;
    if op == "test" {
      r := TestAt(item.path, acc, item.value, J1, U1);
      return r, U1, [], [], [];
    }
    var x; ghost var X;
    x, X := ValueIn(op, item.value, target, jt, T, acc, J1, U1);
    r, R, copies, origs, keys := EditPathAt(op, item.path, acc, x, if op in {"move", "copy"} then jt else item.value, J1, U1 + X, O, track);
  }

  /** The value an edit puts in: a fresh copy of the operation's value for
      `add` and `replace`, the target for a move or copy. It reads no node
      of the accumulator's own. */
  method ValueIn(op: string, value: Json, target: Value, ghost jt: Json, ghost T: set<Node>,
                 acc: Value, ghost J1: Option<Json>, ghost U1: set<Node>)
    returns (x: Value, ghost X: set<Node>)
    requires op in {"add", "replace", "remove", "move", "copy"} && DenotesOpt(acc, J1, U1)
    requires op in {"move", "copy"} ==> Denotes(target, jt, T) && (acc.Ref? ==> acc.node !in T)
    ensures DenotesOpt(acc, J1, U1 + X)
    ensures op != "remove" ==> Denotes(x, if op in {"move", "copy"} then jt else value, Below(acc, U1 + X))
  {
    x, X := target, T;
    if op == "add" || op == "replace" {
      x, X := Materialize(value);
    }
    if op != "remove" {
      DenotesMono(x, if op in {"move", "copy"} then jt else value, X, Below(acc, U1 + X));
    }
    if J1.Some? {
      DenotesMono(acc, J1.value, U1, U1 + X);
    }
  }

  /** One step of the `reduce` (lines 43-144): an unknown operation makes
      the accumulator `undefined`; a move or copy takes its target; then
      the operation applies to the whole document or at its path. It fails
      exactly where `ApplyOp` fails, with the same error, and otherwise
      gives a heap value that stands for the accumulator `ApplyOp` gives.
      Only the accumulator's own node and fresh nodes are written, and the
      new accumulator is that node or a fresh one. When the accumulator's
      node held what `O` holds, an `add`, `replace` or `remove` at a path
      with no restart leaves along the path copies that share everything
      off the path with the nodes of `O`'s tree. */
  method ApplyOpAt(acc: Value, item: Op, ghost J: Option<Json>, ghost U: set<Node>, ghost O: Node)
    returns (r: Result<Value>, ghost R: set<Node>, ghost copies: seq<Node>, ghost origs: seq<Node>, ghost keys: seq<string>)
    requires DenotesOpt(acc, J, U)
    modifies if acc.Ref? then {acc.node} else {}
    ensures r.Err? <==> ApplyOp(J, item).Err?
    ensures r.Err? ==> r.error == ApplyOp(J, item).error
    ensures r.Ok? ==> DenotesOpt(r.value, ApplyOp(J, item).value, R)
    ensures r.Ok? && r.value.Ref? ==> (acc.Ref? && r.value.node == acc.node) || fresh(r.value.node)
    ensures r.Ok? && item.op in Operations && (item.path != "" || item.op == "remove") ==> r.value == acc
    ensures && r.Ok? && acc.Ref? && old(SameEntries(acc.node, O)) && O in U - {acc.node} && item.op in {"add", "replace", "remove"}
            && item.path != "" && NoRestart(Decoded(RawTokens(item.path))) ==>
              PathCopies(copies, origs, keys, Decoded(RawTokens(item.path)), item.op, U - {acc.node}) && copies[0] == acc.node && origs[0] == O
  {
    R, copies, origs, keys := {}, [], [], [];
    if item.op !in Operations {
      return Ok(Undefined), R, copies, origs, keys;
    }
    ghost var track := && acc.Ref? && SameEntries(acc.node, O) && O in U - {acc.node} && item.op in {"add", "replace", "remove"}
                       && item.path != "" && NoRestart(Decoded(RawTokens(item.path)));
    var target; ghost var J1, U1, jt, T;
    target, J1, U1, jt, T := SourceAt(acc, item, J, U);
    if target.Err? {
      return Err(target.error), R, copies, origs, keys;
    }
    if item.path == "" && item.op != "remove" {
      r, R := RootAt(item.op, acc, item.value, target.value, J1, U1, jt, T);
    } else {
      r, R, copies, origs, keys := PathAt(item, acc, target.value, J1, U1, jt, T, O, track);
    }
  }

  // ----- the whole patch (lines 38-145) -----

  /** `applyPatch(doc, ops)` on the heap: `doc` itself when `ops` is not an
      array or is empty, otherwise the operations applied in order to a
      fresh copy of the root, the first error ending the call. The result
      stands for the value `ApplyPatch` gives, and, as the method has no
      `modifies` clause, no node that existed before the call (the input
      document among them) is written. When operations ran, the result's
      root is a fresh node, but it is a shallow copy: the caller's nodes
      are shared. For a patch of one `add`, `replace` or `remove` at a path
      with no restart, the nodes along the path are copies, none of them a
      node of the input, of the input's nodes along it (`origs`, from
      `doc`'s node down). Every entry off the path is the very value, node
      or scalar, that the input holds there. That includes the entries of
      the edited container other than the one written and the one the walk
      copied, where `splice` left them (`EditedBut`). The spreads at lines
      41, 88 and 93 copy one level each. Lines 108-109 of `index.test.mjs`
      check this kind of sharing, but after a patch of several operations,
      for which this contract does not state it. */
  method ApplyPatchAt(doc: Value, ops: Ops, ghost J: Json, ghost U: set<Node>)
    returns (r: Result<Value>, ghost R: set<Node>, ghost copies: seq<Node>, ghost origs: seq<Node>, ghost keys: seq<string>)
    requires Denotes(doc, J, U)
    ensures r.Err? <==> ApplyPatch(J, ops).Err?
    ensures r.Err? ==> r.error == ApplyPatch(J, ops).error
    ensures r.Ok? ==> DenotesOpt(r.value, ApplyPatch(J, ops).value, R)
    ensures ops.NotArray? || ops.items == [] ==> r == Ok(doc)
    ensures r.Ok? && ops.OpArray? && ops.items != [] && r.value.Ref? ==> fresh(r.value.node)
    ensures && r.Ok? && doc.Ref? && ops.OpArray? && |ops.items| == 1 && ops.items[0].op in {"add", "replace", "remove"}
            && ops.items[0].path != "" && NoRestart(Decoded(RawTokens(ops.items[0].path))) ==>
              PathCopies(copies, origs, keys, Decoded(RawTokens(ops.items[0].path)), ops.items[0].op, U) && r.value == Ref(copies[0]) && origs[0] == doc.node
  {
    copies, origs, keys := [], [], [];
    if ops.NotArray? || ops.items == [] {
      return Ok(doc), U, copies, origs, keys;
    }
    var items := ops.items;
    var root := CopyRoot(doc, J, U);
    var acc := Ref(root);
    ghost var O := if doc.Ref? then doc.node else root;
    ghost var one := && doc.Ref? && |items| == 1 && items[0].op in {"add", "replace", "remove"} && items[0].path != ""
                     && NoRestart(Decoded(RawTokens(items[0].path)));
    ghost var Jc := Some(RootCopy(J));
    R := U + {root};
    assert R - {root} == U;
    for k := 0 to |items|
      invariant ApplyPatch(J, ops) == ApplyAll(Jc, items[k..])
      invariant DenotesOpt(acc, Jc, R)
      invariant acc.Ref? ==> fresh(acc.node)
      invariant one && k == 0 ==> acc == Ref(root) && SameEntries(root, O) && O in R - {root} && R - {root} == U
      invariant one && k == 1 ==>
                  PathCopies(copies, origs, keys, Decoded(RawTokens(items[0].path)), items[0].op, U) && acc == Ref(copies[0]) && origs[0] == O
    {
      assert items[k..][1..] == items[k + 1..];
      var next; ghost var Rn;
      next, Rn, copies, origs, keys := ApplyOpAt(acc, items[k], Jc, R, O);
      if next.Err? {
        return Err(next.error), R, copies, origs, keys;
      }
      acc, Jc, R := next.value, ApplyOp(Jc, items[k]).value, Rn;
    }
    assert items[|items|..] == [];
    r := Ok(acc);
  }
}
