/** The walk along `path` on the heap (lines 76-98): it follows the decoded
    tokens from the accumulator and, for every operation but `test`, replaces
    each array or object it is about to enter by a shallow copy, so that the
    edit at the end touches only nodes that nothing else refers to. */
module HeapWalk {
  import opened JsonTypes
  import opened Pointer
  import opened Splice
  import opened Equality
  import opened JsonPatch
  import opened Heap

  /** `a` is an array or object of the same kind as `b`, holding the very
      elements `b` holds: what the spread `[...b]` or `{...b}` makes. */
  ghost predicate SameEntries(a: Node, b: Node)
    reads a, b
  {
    && a.isArray == b.isArray
    && (if a.isArray then a.elems == b.elems else a.fields == b.fields)
  }

  /** `a` is `b` with at most the element `b` has at key `c` replaced. */
  ghost predicate AgreeBut(a: Node, b: Node, c: string)
    reads a, b
  {
    && a.isArray == b.isArray
    && (if a.isArray then
          a.elems == if IsArrayIndex(c) && DigitsValue(c) < |b.elems| then b.elems[DigitsValue(c) := a.Lookup(c)] else b.elems
        else
          a.fields == if c in b.fields then b.fields[c := a.Lookup(c)] else b.fields)
  }

  /** What `AgreeBut` means to a reader: every other key reads the same. */
  lemma AgreeButLookup(a: Node, b: Node, c: string, k: string)
    requires AgreeBut(a, b, c) && k != c
    ensures a.Lookup(k) == b.Lookup(k)
  {
    if a.isArray && IsArrayIndex(k) && IsArrayIndex(c) {
      IndexRoundTrip(k);
      IndexRoundTrip(c);
    }
  }

  /** The copies `spine` made along `keys` of the nodes `origs`: the
      originals are linked along the keys, and each copy holds, at every
      key but the path's, the very value its original holds. */
  ghost predicate CopiesAlong(spine: seq<Node>, origs: seq<Node>, keys: seq<string>)
    requires |spine| == |origs| == |keys| + 1
    reads spine, origs
  {
    forall t :: 0 <= t < |keys| ==> origs[t].Lookup(keys[t]) == Ref(origs[t + 1]) && AgreeBut(spine[t], origs[t], keys[t])
  }

  /** One more copy made along the path: the spine grows by `C`, which
      holds all that the original `X` at `c` holds. */
  lemma AlongSnoc(spine: seq<Node>, origs: seq<Node>, keys: seq<string>, c: string, C: Node, X: Node)
    requires |spine| == |origs| == |keys| + 1 && CopiesAlong(spine, origs, keys)
    requires AgreeBut(spine[|keys|], origs[|keys|], c) && origs[|keys|].Lookup(c) == Ref(X)
    ensures CopiesAlong(spine + [C], origs + [X], keys + [c])
  {
    var spine', origs', keys' := spine + [C], origs + [X], keys + [c];
    assert forall t :: 0 <= t < |spine| ==> spine'[t] == spine[t] && origs'[t] == origs[t];
    assert forall t :: 0 <= t < |keys| ==> keys'[t] == keys[t];
  }

  /** The walk so far copied the nodes `origs`, all in `S`, into `spine`:
      each copy shares with its original every element off the path, and
      the last copy, not yet written, shares all of them. */
  ghost predicate Tracked(spine: seq<Node>, origs: seq<Node>, keys: seq<string>, S: set<Node>)
    reads spine, origs
  {
    && |spine| == |origs| == |keys| + 1
    && (forall t :: 0 <= t < |origs| ==> origs[t] in S)
    && CopiesAlong(spine, origs, keys)
    && SameEntries(spine[|keys|], origs[|keys|])
  }

  /** As `Tracked`, once the walk stopped at key `c` of the last copy, which
      may have had the element there copied in turn; no original is one of
      the copies. */
  ghost predicate Shared(spine: seq<Node>, origs: seq<Node>, keys: seq<string>, c: string)
    reads spine, origs
  {
    && |spine| == |origs| == |keys| + 1
    && (forall t :: 0 <= t < |origs| ==> origs[t] !in spine)
    && CopiesAlong(spine, origs, keys)
    && AgreeBut(spine[|keys|], origs[|keys|], c)
  }


  /** `[...x]` or `{...x}`: a fresh node with the same elements (lines 88
      and 93). */
  method Clone(x: Node) returns (c: Node)
    ensures fresh(c) && c.isArray == x.isArray
    ensures c.isArray ==> c.elems == x.elems
    ensures !c.isArray ==> c.fields == x.fields
  {
    if x.isArray {
      c := new Node.Array(x.elems);
    } else {
      c := new Node.Object(x.fields);
    }
  }

  /** A clone stands for what its original stands for. */
  lemma CloneDenotes(x: Node, c: Node, j: Json, W: set<Node>)
    requires Denotes(Ref(x), j, W) && c !in W
    requires c.isArray == x.isArray
    requires c.isArray ==> c.elems == x.elems
    requires !c.isArray ==> c.fields == x.fields
    ensures Denotes(Ref(c), j, W + {c})
  {
    if j.JArr? {
      forall i | 0 <= i < |j.items| ensures Denotes(c.elems[i], j.items[i], W) {
        DenotesMono(c.elems[i], j.items[i], W - {x}, W);
      }
    } else if j.JObj? {
      forall k | k in j.props ensures Denotes(c.fields[k], j.props[k], W) {
        DenotesMono(c.fields[k], j.props[k], W - {x}, W);
      }
    }
    assert (W + {c}) - {c} == W;
  }

  // ----- a node with one element left open -----

  /** Contents of the shape of `j` (an array of the same length or an object
      with the same keys) in which every element except the one at `hole`
      stands for the matching element of `j`, reading only `W`. */
  ghost predicate HoldsContents(isArray: bool, elems: seq<Value>, fields: map<string, Value>, j: Json, hole: string, W: set<Node>)
    reads W
  {
    || (&& j.JArr? && isArray && |elems| == |j.items|
        && forall i :: 0 <= i < |j.items| && NatToString(i) != hole ==> Denotes(elems[i], j.items[i], W))
    || (&& j.JObj? && !isArray && fields.Keys == j.props.Keys
        && forall k :: k in j.props && k != hole ==> Denotes(fields[k], j.props[k], W))
  }

  /** The node `n` stands for `j` except perhaps at `hole`. */
  ghost predicate Holds(n: Node, j: Json, hole: string, W: set<Node>)
    reads n, W
  {
    HoldsContents(n.isArray, n.elems, n.fields, j, hole, W)
  }

  /** A node that stands for `j` holds `j` with any hole. */
  lemma HoldsOfDenotes(n: Node, j: Json, hole: string, W: set<Node>)
    requires n !in W && Denotes(Ref(n), j, W + {n})
    ensures Holds(n, j, hole, W)
  {
    assert (W + {n}) - {n} == W;
  }

  /** Writing the element at the hole keeps the rest of the contents. */
  lemma HoldsWrite(isArray: bool, elems: seq<Value>, fields: map<string, Value>, j: Json, hole: string, W: set<Node>, v: Value)
    requires HoldsContents(isArray, elems, fields, j, hole, W)
    requires isArray ==> IsArrayIndex(hole) && DigitsValue(hole) < |elems|
    requires !isArray ==> hole in fields
    ensures isArray ==> HoldsContents(isArray, elems[DigitsValue(hole) := v], fields, j, hole, W)
    ensures !isArray ==> HoldsContents(isArray, elems, fields[hole := v], j, hole, W)
  {
    if isArray {
      IndexRoundTrip(hole);
    }
  }

  /** Putting an element that stands for `x` into the hole gives a node that
      stands for `Set(j, key, x)`. */
  lemma PlugStep(n: Node, j: Json, key: string, x: Json, W: set<Node>, D: set<Node>)
    requires Holds(n, j, key, W) && HasChild(j, key)
    requires Denotes(n.Lookup(key), x, D) && W <= D && n !in D
    ensures Denotes(Ref(n), Set(j, key, x), D + {n})
  {
    assert (D + {n}) - {n} == D;
    if j.JArr? {
      var d := DigitsValue(key);
      IndexRoundTrip(key);
      forall i | 0 <= i < |j.items| ensures Denotes(n.elems[i], j.items[d := x][i], D) {
        if i != d {
          NatToStringInjective(i, d);
          DenotesMono(n.elems[i], j.items[i], W, D);
        }
      }
    } else {
      forall k | k in j.props ensures Denotes(n.fields[k], j.props[key := x][k], D) {
        if k != key {
          DenotesMono(n.fields[k], j.props[k], W, D);
        }
      }
    }
  }

  /** A node whose hole holds what `j` has there (or nothing, where `j` has
      nothing) stands for `j`. */
  lemma Fill(n: Node, j: Json, key: string, W: set<Node>, D: set<Node>)
    requires Holds(n, j, key, W) && W <= D && n !in D
    requires HasChild(j, key) ==> Denotes(n.Lookup(key), Child(j, key), D)
    ensures Denotes(Ref(n), j, D + {n})
  {
    if HasChild(j, key) {
      PlugStep(n, j, key, Child(j, key), W, D);
      if j.JArr? {
        assert j.items[DigitsValue(key) := Child(j, key)] == j.items;
      } else {
        assert j.props[key := Child(j, key)] == j.props;
      }
    } else {
      assert (D + {n}) - {n} == D;
      if j.JArr? {
        forall i | 0 <= i < |j.items| ensures Denotes(n.elems[i], j.items[i], D) {
          DenotesMono(n.elems[i], j.items[i], W, D);
        }
      } else {
        forall k | k in j.props ensures Denotes(n.fields[k], j.props[k], D) {
          DenotesMono(n.fields[k], j.props[k], W, D);
        }
      }
    }
  }

  // ----- the copied path from the root -----

  /** The nodes `spine` lead from the root along `keys`, standing for the JSON
      values `js` on that path: the element of each node at its key is the
      next node, every other element stands for its JSON element reading only
      `W`, and `W` holds no node of the spine. */
  ghost predicate Spine(spine: seq<Node>, js: seq<Json>, keys: seq<string>, W: set<Node>)
    reads spine, W
  {
    && |spine| == |js| == |keys| + 1
    && Outside(spine, W)
    && Chain(js, keys)
    && Linked(spine, keys)
    && HoldAll(spine, js, keys, W)
  }

  ghost predicate Outside(spine: seq<Node>, W: set<Node>)
  {
    && (forall t :: 0 <= t < |spine| ==> spine[t] !in W)
    && (forall a, b :: 0 <= a < b < |spine| ==> spine[a] != spine[b])
  }

  ghost predicate Chain(js: seq<Json>, keys: seq<string>)
    requires |js| == |keys| + 1
  {
    forall t :: 0 <= t < |keys| ==> HasChild(js[t], keys[t]) && js[t + 1] == Child(js[t], keys[t])
  }

  ghost predicate Linked(spine: seq<Node>, keys: seq<string>)
    requires |spine| == |keys| + 1
    reads spine
  {
    forall t :: 0 <= t < |keys| ==> spine[t].Lookup(keys[t]) == Ref(spine[t + 1])
  }

  ghost predicate HoldAll(spine: seq<Node>, js: seq<Json>, keys: seq<string>, W: set<Node>)
    requires |spine| == |js| == |keys| + 1
    reads spine, W
  {
    forall t :: 0 <= t < |keys| ==> Holds(spine[t], js[t], keys[t], W)
  }

  /** The nodes of the spine from `t` on. */
  ghost function Suffix(spine: seq<Node>, t: nat): set<Node>
  {
    set q | t <= q < |spine| :: spine[q]
  }

  /** When the last node of a spine stands for `p`, the first stands for the
      root's JSON value with `p` put at the end of the path. */
  lemma {:induction false} Plug(spine: seq<Node>, js: seq<Json>, keys: seq<string>, W: set<Node>, E: set<Node>, p: Json, t: nat)
    requires Spine(spine, js, keys, W) && t <= |keys|
    requires W <= E && forall q :: 0 <= q < |spine| ==> spine[q] !in E
    requires Denotes(Ref(spine[|keys|]), p, E + {spine[|keys|]})
    ensures Denotes(Ref(spine[t]), Put(js[t], keys[t..], p), E + Suffix(spine, t))
    decreases |keys| - t
  {
    if t == |keys| {
      assert Put(js[t], keys[t..], p) == p by {
        assert keys[t..] == [];
      }
      assert Suffix(spine, t) == {spine[t]};
    } else {
      Plug(spine, js, keys, W, E, p, t + 1);
      var D := E + Suffix(spine, t + 1);
      var x := Put(js[t + 1], keys[t + 1..], p);
      assert Put(js[t], keys[t..], p) == Set(js[t], keys[t], x) by {
        assert keys[t..][0] == keys[t] && keys[t..][1..] == keys[t + 1..];
      }
      assert D + {spine[t]} == E + Suffix(spine, t);
      assert spine[t] !in D;
      assert HasChild(js[t], keys[t]) && js[t + 1] == Child(js[t], keys[t]);
      assert spine[t].Lookup(keys[t]) == Ref(spine[t + 1]);
      assert Holds(spine[t], js[t], keys[t], W);
      PlugStep(spine[t], js[t], keys[t], x, W, D);
    }
  }

  /** Putting back the value found at the end of the path changes nothing. */
  lemma {:induction false} PutChain(js: seq<Json>, keys: seq<string>, t: nat)
    requires |js| == |keys| + 1 && t <= |keys|
    requires forall q :: 0 <= q < |keys| ==> HasChild(js[q], keys[q]) && js[q + 1] == Child(js[q], keys[q])
    ensures Put(js[t], keys[t..], js[|keys|]) == js[t]
    decreases |keys| - t
  {
    if t < |keys| {
      PutChain(js, keys, t + 1);
      assert keys[t..][0] == keys[t] && keys[t..][1..] == keys[t + 1..];
      var j := js[t];
      if j.JArr? {
        assert j.items[DigitsValue(keys[t]) := js[t + 1]] == j.items;
      } else {
        assert j.props[keys[t] := js[t + 1]] == j.props;
      }
    } else {
      assert keys[t..] == [];
    }
  }

  /** A spine whose last node stands for its JSON value in full. */
  ghost predicate Copied(spine: seq<Node>, js: seq<Json>, keys: seq<string>, V: set<Node>)
    reads spine, V
  {
    && Spine(spine, js, keys, V)
    && Denotes(Ref(spine[|keys|]), js[|keys|], V + {spine[|keys|]})
  }

  /** The whole spine stands for the JSON value at its first node. */
  lemma Unwind(spine: seq<Node>, js: seq<Json>, keys: seq<string>, V: set<Node>)
    requires Copied(spine, js, keys, V)
    ensures Denotes(Ref(spine[0]), js[0], V + Suffix(spine, 0))
  {
    Plug(spine, js, keys, V, V, js[|keys|], 0);
    PutChain(js, keys, 0);
    assert keys[0..] == keys;
  }

  /** Lines 87-94 when `pointer[component]` is an array or an object: it is
      replaced by a shallow copy. The rest of the spine is untouched, the
      last node keeps its other elements, and the copy stands for the
      element it replaces. */
  method CopyChild(P: Node, c: string, ghost spine: seq<Node>, ghost js: seq<Json>, ghost keys: seq<string>, ghost V: set<Node>)
    returns (C: Node, ghost jc: Json, ghost X: Node)
    requires Copied(spine, js, keys, V) && P == spine[|keys|] && P.Lookup(c).Ref?
    modifies P
    ensures fresh(C) && P.Lookup(c) == Ref(C)
    ensures HasChild(js[|keys|], c) && jc == Child(js[|keys|], c)
    ensures Spine(spine, js, keys, V) && Holds(P, js[|keys|], c, V)
    ensures Denotes(Ref(C), jc, V + {C})
    ensures old(P.Lookup(c)) == Ref(X) && X in V && SameEntries(C, X)
    ensures P.isArray ==> IsArrayIndex(c) && DigitsValue(c) < |old(P.elems)| && P.elems == old(P.elems)[DigitsValue(c) := Ref(C)]
    ensures !P.isArray ==> c in old(P.fields) && P.fields == old(P.fields)[c := Ref(C)]
  {
    ghost var jP := js[|keys|];
    assert (V + {P}) - {P} == V;
    var x := P.Lookup(c).node;
    X := x;
    if P.isArray {
      IndexRoundTrip(c);
    }
    jc := Child(jP, c);
    C := Clone(x);
    CloneDenotes(x, C, jc, V);
    HoldsOfDenotes(P, jP, c, V);
    HoldsWrite(P.isArray, P.elems, P.fields, jP, c, V, Ref(C));
    var ok := P.Assign(c, Ref(C));
  }

  /** After `CopyChild`, the copy extends the spine. */
  lemma Extend(spine: seq<Node>, js: seq<Json>, keys: seq<string>, V: set<Node>, c: string, C: Node, jc: Json)
    requires Spine(spine, js, keys, V)
    requires Holds(spine[|keys|], js[|keys|], c, V) && spine[|keys|].Lookup(c) == Ref(C)
    requires HasChild(js[|keys|], c) && jc == Child(js[|keys|], c)
    requires C !in V && C !in spine && Denotes(Ref(C), jc, V + {C})
    ensures Copied(spine + [C], js + [jc], keys + [c], V)
  {
    var spine', js', keys' := spine + [C], js + [jc], keys + [c];
    assert forall t :: 0 <= t < |spine| ==> spine'[t] == spine[t] && js'[t] == js[t];
    assert forall t :: 0 <= t < |keys| ==> keys'[t] == keys[t];
    assert Chain(js', keys');
    assert Linked(spine', keys');
    assert HoldAll(spine', js', keys', V);
  }

  // ----- the walk (lines 76-98) -----

  /** Where the walk is, for every operation but `test`: a spine copied from
      the root when the root is a node, and `pointer` either its last node
      (with `jp` and the keys since the last restart matching it) or a value
      that holds no node. */
  ghost predicate Walking(root: Value, J: Option<Json>, pointer: Value, jp: Option<Json>, kj: seq<string>,
                          spine: seq<Node>, js: seq<Json>, keys: seq<string>, V: set<Node>)
    reads spine, V
  {
    && (root.Ref? ==> Copied(spine, js, keys, V) && spine[0] == root.node && Some(js[0]) == J)
    && (pointer.Ref? ==> root.Ref? && pointer == Ref(spine[|keys|]) && jp == Some(js[|keys|]) && kj == keys)
    && (!pointer.Ref? ==> DenotesOpt(pointer, jp, {}))
  }

  /** Just after `CopyChild` put the copy `C` of the element at `c` into `p`,
      the end of the spine. */
  ghost predicate Copying(root: Value, J: Option<Json>, p: Value, jp: Option<Json>, kj: seq<string>,
                          spine: seq<Node>, js: seq<Json>, keys: seq<string>, V: set<Node>, c: string, C: Node, jc: Json)
    reads spine, V, C
  {
    && Spine(spine, js, keys, V) && root.Ref? && spine[0] == root.node && Some(js[0]) == J
    && p == Ref(spine[|keys|]) && jp == Some(js[|keys|]) && kj == keys
    && Holds(spine[|keys|], js[|keys|], c, V) && spine[|keys|].Lookup(c) == Ref(C)
    && HasChild(js[|keys|], c) && jc == Child(js[|keys|], c)
    && C !in V && C !in spine && Denotes(Ref(C), jc, V + {C})
  }

  /** `pointer[component]` read at line 87, and replaced by a shallow copy
      when it is an array or an object (lines 87-94). The read throws where
      the JSON read does and gives `undefined` where it does; a copy is
      fresh and leaves the walk `Copying`, any other value leaves the walk
      where it was. */
  method Visit(pointer: Value, c: string, ghost root: Value, ghost J: Option<Json>, ghost jp: Option<Json>, ghost kj: seq<string>,
               ghost spine: seq<Node>, ghost js: seq<Json>, ghost keys: seq<string>, ghost V: set<Node>,
               ghost origs: seq<Node>, ghost track: bool)
    returns (r: Result<Value>, ghost jc: Json, ghost origs': seq<Node>)
    requires Walking(root, J, pointer, jp, kj, spine, js, keys, V)
    requires track ==> pointer.Ref? && Tracked(spine, origs, keys, V)
    modifies if pointer.Ref? then {pointer.node} else {}
    ensures r.Err? <==> Prop(jp, c).Err?
    ensures r.Err? ==> r.error == RuntimeFault
    ensures track && r.Ok? ==> Shared(spine, origs, keys, c)
    ensures track && r.Ok? && r.value.Ref? ==>
              Tracked(spine + [r.value.node], origs', keys + [c], V) && origs'[0] == origs[0]
    ensures r.Ok? ==> (r.value == Undefined <==> Prop(jp, c).value.None?)
    ensures r.Ok? && !r.value.Ref? ==>
              DenotesOpt(r.value, Prop(jp, c).value, {}) && Walking(root, J, pointer, jp, kj, spine, js, keys, V)
    ensures r.Ok? && r.value.Ref? ==>
              && fresh(r.value.node) && Prop(jp, c).value == Some(jc)
              && Copying(root, J, pointer, jp, kj, spine, js, keys, V, c, r.value.node, jc)
  {
    ghost var D := if pointer.Ref? then V + {pointer.node} else {};
    if jp.Some? {
      GetDenotes(pointer, jp.value, D, c);
    }
    jc, origs' := JNull, origs;
    var child :- Get(pointer, c);
    if child.Ref? {
      var C; ghost var X;
      C, jc, X := CopyChild(pointer.node, c, spine, js, keys, V);
      if track {
        assert forall t :: 0 <= t < |origs| ==> origs[t] != pointer.node;
        assert forall t :: 0 <= t < |keys| ==> spine[t] != pointer.node;
        assert AgreeBut(pointer.node, origs[|keys|], c);
        AlongSnoc(spine, origs, keys, c, C, X);
        origs' := origs + [X];
      }
      return Ok(Ref(C)), jc, origs';
    }
    r := Ok(child);
  }

  /** `decoded` holds what `escapeComponent` gives for each of `comps`. */
  ghost predicate DecodesTo(comps: seq<string>, decoded: seq<Result<string>>)
  {
    && |decoded| == |comps|
    && forall i {:trigger EscapeComponent(comps[i])} :: 0 <= i < |comps| ==> decoded[i] == EscapeComponent(comps[i])
  }

  /** Where the heap walk stops: `pointer`, the last decoded `component`,
      `pointer[component]` and the number `i` of tokens used. */
  datatype Found = Found(pointer: Value, component: string, child: Value, i: nat)

  /** The heap walk stopped where the JSON walk stops. */
  ghost predicate Agrees(f: Found, s: Spot)
  {
    && f.component == s.component && f.i == s.i
    && (f.child == Undefined <==> s.child.None?)
    && (IsArrayValue(f.pointer) <==> s.pointer.JArr?)
  }

  /** `pointer[component]` at line 97, for `test`: it throws where the JSON
      read does, and otherwise gives a value that stands for the JSON
      element. */
  method Read(pointer: Value, c: string, ghost jp: Option<Json>, ghost U: set<Node>) returns (r: Result<Value>, ghost jc: Option<Json>)
    requires DenotesOpt(pointer, jp, U)
    ensures r.Err? <==> Prop(jp, c).Err?
    ensures r.Err? ==> r.error == RuntimeFault
    ensures r.Ok? ==> jc == Prop(jp, c).value && DenotesOpt(r.value, jc, U)
  {
    jc := None;
    if jp.Some? {
      GetDenotes(pointer, jp.value, U, c);
    }
    var child :- Get(pointer, c);
    jc := Prop(jp, c).value;
    if jc.Some? {
      DenotesMono(child, jc.value, Below(pointer, U), U);
    }
    r := Ok(child);
  }

  /** What a turn of the loop gives on the heap: where the walk stops, or
      the value the next turn starts from. */
  datatype Move = Stopped(found: Found) | Moved(pointer: Value)

  /** One turn of the loop at lines 81-98 for `test`. */
  method ReadTurn(root: Value, comps: seq<string>, i: nat, pointer: Value, ghost decoded: seq<Result<string>>,
                  ghost J: Option<Json>, ghost jp: Option<Json>, ghost kj: seq<string>, ghost U: set<Node>)
    returns (r: Result<Move>)
    requires i < |comps| && DecodesTo(comps, decoded) && DenotesOpt(pointer, jp, U) && DenotesOpt(root, J, U)
    ensures r.Err? <==> Step(J, decoded, i, kj, jp).Err?
    ensures r.Err? ==> r.error == Step(J, decoded, i, kj, jp).error
    ensures r.Ok? ==> (r.value.Stopped? <==> Step(J, decoded, i, kj, jp).value.Stop?)
    ensures r.Ok? && r.value.Stopped? ==> Agrees(r.value.found, Step(J, decoded, i, kj, jp).value.spot)
    ensures r.Ok? && r.value.Stopped? ==> DenotesOpt(r.value.found.child, Step(J, decoded, i, kj, jp).value.spot.child, U)
    ensures r.Ok? && r.value.Moved? ==> DenotesOpt(r.value.pointer, Step(J, decoded, i, kj, jp).value.pointer, U)
  {
    var token := EscapeComponent(comps[i]);
    if token.Err? {
      return Err(token.error);
    }
    var component := token.value;
    var read, jchild := Read(pointer, component, jp, U);
    if read.Err? {
      return Err(read.error);
    }
    var child := read.value;
    if !(i + 1 < |comps| && child != Undefined) {
      r := Ok(Stopped(Found(pointer, component, child, i + 1)));
    } else if component == "" {
      r := Ok(Moved(root));
    } else {
      r := Ok(Moved(child));
    }
  }

  /** The do-while loop at lines 81-98 for `test`, which skips the copying
      (line 85): it reads along the decoded tokens from the accumulator
      `root`, which stands for `J`, going back to `root` after an empty
      token, and stops and fails exactly where `Walk` does. The element it
      stops at stands for the one `Walk` finds. */
  method WalkRead(root: Value, comps: seq<string>, ghost decoded: seq<Result<string>>, ghost J: Option<Json>, ghost U: set<Node>)
    returns (r: Result<Found>)
    requires |comps| >= 1 && DecodesTo(comps, decoded) && DenotesOpt(root, J, U)
    ensures r.Err? <==> Walk(J, decoded, 0, [], J).Err?
    ensures r.Err? ==> r.error == Walk(J, decoded, 0, [], J).error
    ensures r.Ok? ==> Agrees(r.value, Walk(J, decoded, 0, [], J).value)
    ensures r.Ok? ==> DenotesOpt(r.value.child, Walk(J, decoded, 0, [], J).value.child, U)
  {
    var pointer := root;
    var i := 0;
    ghost var jp, kj: seq<string> := J, [];
    while true
      invariant i < |comps|
      invariant Walk(J, decoded, 0, [], J) == Walk(J, decoded, i, kj, jp)
      invariant DenotesOpt(pointer, jp, U)
      decreases |comps| - i
    {
      var turn := ReadTurn(root, comps, i, pointer, decoded, J, jp, kj, U);
      if turn.Err? {
        return Err(turn.error);
      }
      if turn.value.Stopped? {
        return Ok(turn.value.found);
      }
      pointer, i := turn.value.pointer, i + 1;
      jp, kj := Step(J, decoded, i - 1, kj, jp).value.pointer, Step(J, decoded, i - 1, kj, jp).value.keys;
    }
  }

  /** Where the walk stopped at a node `p`, for every operation but `test`:
      `p` ends a spine from the root along `kq`, and stands for `jq`, the
      value there. */
  ghost predicate Trail(root: Value, J: Option<Json>, p: Value, jq: Json, kq: seq<string>,
                        spine: seq<Node>, js: seq<Json>, keys: seq<string>, W: set<Node>, V: set<Node>)
    reads spine, V
  {
    && W <= V && root.Ref? && Spine(spine, js, keys, W)
    && (forall t :: 0 <= t < |spine| ==> spine[t] !in V)
    && spine[0] == root.node && Some(js[0]) == J
    && p == Ref(spine[|keys|]) && Denotes(p, js[|keys|], V + {spine[|keys|]})
    && js[|keys|] == jq && keys == kq
  }

  /** Where the JSON walk goes on after reading `jc` at `c`: back to the
      root after an empty token, down into `jc` otherwise. */
  ghost predicate Next(J: Option<Json>, kj: seq<string>, c: string, jc: Option<Json>, kj': seq<string>, jp': Option<Json>)
  {
    if c == "" then kj' == [] && jp' == J else kj' == kj + [c] && jp' == jc
  }

  /** The JSON walk after token `i` decoded to `c` and read `jc`: it stops
      there, goes back to the root after an empty token, or goes on down. */
  lemma WalkTurns(J: Option<Json>, decoded: seq<Result<string>>, i: nat, kj: seq<string>, jp: Option<Json>, c: string, jc: Option<Json>,
                  kj': seq<string>, jp': Option<Json>)
    requires i < |decoded| && decoded[i] == Ok(c) && Prop(jp, c) == Ok(jc) && Next(J, kj, c, jc, kj', jp')
    ensures !(i + 1 < |decoded| && jc.Some?) ==> Walk(J, decoded, i, kj, jp) == Ok(Spot(kj, jp.value, c, jc, i + 1))
    ensures i + 1 < |decoded| && jc.Some? ==> Walk(J, decoded, i, kj, jp) == Walk(J, decoded, i + 1, kj', jp')
  {
  }

  /** The copy made at `c` extends the spine, and the walk goes on there. */
  lemma Descend(root: Value, J: Option<Json>, p: Value, jp: Option<Json>, kj: seq<string>,
                spine: seq<Node>, js: seq<Json>, keys: seq<string>, V: set<Node>, c: string, C: Node, jc: Json)
    requires Copying(root, J, p, jp, kj, spine, js, keys, V, c, C, jc)
    ensures Walking(root, J, Ref(C), Some(jc), kj + [c], spine + [C], js + [jc], keys + [c], V)
  {
    Extend(spine, js, keys, V, c, C, jc);
  }

  /** A value other than a node read at `c` leaves the spine as it was. */
  lemma GoScalar(root: Value, J: Option<Json>, p: Value, jp: Option<Json>, kj: seq<string>,
                 spine: seq<Node>, js: seq<Json>, keys: seq<string>, V: set<Node>, x: Value, jx: Option<Json>, kx: seq<string>)
    requires Walking(root, J, p, jp, kj, spine, js, keys, V)
    requires !x.Ref? && DenotesOpt(x, jx, {})
    ensures Walking(root, J, x, jx, kx, spine, js, keys, V)
  {
  }

  /** The nodes of a spine below its root, after one more node. */
  lemma SuffixSnoc(spine: seq<Node>, C: Node)
    requires |spine| >= 1
    ensures Suffix(spine + [C], 1) == Suffix(spine, 1) + {C}
  {
    var s := spine + [C];
    forall n | n in Suffix(s, 1) ensures n in Suffix(spine, 1) + {C} {
      var q :| 1 <= q < |s| && s[q] == n;
      if q < |spine| {
        assert spine[q] == n;
      }
    }
    forall n | n in Suffix(spine, 1) ensures n in Suffix(s, 1) {
      var q :| 1 <= q < |spine| && spine[q] == n;
      assert s[q] == n;
    }
    assert s[|spine|] == C;
  }

  /** After an empty token the walk starts again at the root: the nodes of
      the old spine below the root join those the root's value reaches. */
  lemma Restart(root: Value, J: Option<Json>, p: Value, jp: Option<Json>, kj: seq<string>,
                spine: seq<Node>, js: seq<Json>, keys: seq<string>, V: set<Node>)
    requires Walking(root, J, p, jp, kj, spine, js, keys, V) && root.Ref?
    ensures Walking(root, J, root, J, [], [root.node], [J.value], [], V + Suffix(spine, 1))
  {
    Unwind(spine, js, keys, V);
    assert Suffix(spine, 0) == {root.node} + Suffix(spine, 1);
    assert V + Suffix(spine, 1) + {root.node} == V + Suffix(spine, 0);
  }

  /** The walk stopped at the spine's end after copying the element at `c`. */
  lemma StopCopied(root: Value, J: Option<Json>, p: Value, jp: Option<Json>, kj: seq<string>,
                   spine: seq<Node>, js: seq<Json>, keys: seq<string>, V: set<Node>, c: string, C: Node, jc: Json)
    requires Copying(root, J, p, jp, kj, spine, js, keys, V, c, C, jc)
    ensures Trail(root, J, p, jp.value, kj, spine, js, keys, V, V + {C})
  {
    Fill(spine[|keys|], js[|keys|], c, V, V + {C});
  }

  /** The walk stopped at the spine's end without copying. */
  lemma StopHere(root: Value, J: Option<Json>, p: Value, jp: Option<Json>, kj: seq<string>,
                 spine: seq<Node>, js: seq<Json>, keys: seq<string>, V: set<Node>)
    requires Walking(root, J, p, jp, kj, spine, js, keys, V) && p.Ref?
    ensures Trail(root, J, p, jp.value, kj, spine, js, keys, V, V)
  {
  }

  /** The walk stopped at a value other than a node: the JSON value there is
      not a container. */
  lemma StopScalar(root: Value, J: Option<Json>, p: Value, jp: Option<Json>, kj: seq<string>,
                   spine: seq<Node>, js: seq<Json>, keys: seq<string>, V: set<Node>)
    requires Walking(root, J, p, jp, kj, spine, js, keys, V) && !p.Ref? && jp.Some?
    ensures !jp.value.JArr? && !jp.value.JObj?
  {
  }

  /** One turn of the loop at lines 81-98 for every operation but `test`,
      after token `i` of `n` decoded to `c`: `Visit` reads and copies, then
      the walk stops (closing the spine), goes on down, or goes back to the
      root after an empty token. The read fails where the JSON read does. */
  method CopyTurn(root: Value, i: nat, n: nat, pointer: Value, c: string,
                  ghost J: Option<Json>, ghost jp: Option<Json>, ghost kj: seq<string>,
                  ghost spine: seq<Node>, ghost js: seq<Json>, ghost keys: seq<string>, ghost V: set<Node>,
                  ghost origs: seq<Node>, ghost track: bool)
    returns (r: Result<Move>, ghost jchild: Option<Json>, ghost kj': seq<string>, ghost jp': Option<Json>,
             ghost spine': seq<Node>, ghost js': seq<Json>, ghost keys': seq<string>, ghost W: set<Node>, ghost V': set<Node>,
             ghost origs': seq<Node>)
    requires Walking(root, J, pointer, jp, kj, spine, js, keys, V)
    requires !root.Ref? ==> DenotesOpt(root, J, {})
    requires track ==> pointer.Ref? && Tracked(spine, origs, keys, V)
    modifies if pointer.Ref? then {pointer.node} else {}
    ensures r.Err? <==> Prop(jp, c).Err?
    ensures r.Err? ==> r.error == RuntimeFault
    ensures r.Ok? ==> Prop(jp, c) == Ok(jchild)
    ensures r.Ok? ==> (r.value.Stopped? <==> !(i + 1 < n && jchild.Some?))
    ensures r.Ok? && r.value.Stopped? ==>
              r.value.found.pointer == pointer && r.value.found.component == c && r.value.found.i == i + 1
    ensures r.Ok? && r.value.Stopped? ==> (r.value.found.child == Undefined <==> jchild.None?)
    ensures r.Ok? && r.value.Stopped? && !pointer.Ref? ==> !jp.value.JArr? && !jp.value.JObj?
    ensures r.Ok? && r.value.Stopped? && pointer.Ref? ==> Trail(root, J, pointer, jp.value, kj, spine', js', keys', W, V')
    ensures r.Ok? ==> Next(J, kj, c, jchild, kj', jp')
    ensures r.Ok? && r.value.Moved? ==> Walking(root, J, r.value.pointer, jp', kj', spine', js', keys', V')
    ensures r.Ok? && r.value.Moved? && r.value.pointer.Ref? ==> r.value.pointer.node == root.node || fresh(r.value.pointer.node)
    ensures V <= W <= V'
    ensures r.Ok? && r.value.Moved? && r.value.pointer.Ref? && c != "" ==> pointer.Ref?
    ensures track && r.Ok? && r.value.Stopped? ==> keys' == keys && Shared(spine', origs, keys', c)
    ensures track && r.Ok? && r.value.Moved? && r.value.pointer.Ref? && c != "" ==>
              keys' == keys + [c] && Tracked(spine', origs', keys', V') && origs'[0] == origs[0]
  {
    spine', js', keys', W, V' := spine, js, keys, V, V;
    jchild, kj', jp' := None, kj, jp;
    var visit; ghost var jc;
    visit, jc, origs' := Visit(pointer, c, root, J, jp, kj, spine, js, keys, V, origs, track);
    if visit.Err? {
      r := Err(visit.error);
      return;
    }
    var child := visit.value;
    jchild := Prop(jp, c).value;
    if c == "" {
      kj', jp' := [], J;
    } else {
      kj', jp' := kj + [c], jchild;
    }
    if !(i + 1 < n && child != Undefined) {
      r := Ok(Stopped(Found(pointer, c, child, i + 1)));
      if child.Ref? {
        StopCopied(root, J, pointer, jp, kj, spine, js, keys, V, c, child.node, jc);
        V' := V + {child.node};
      } else if pointer.Ref? {
        StopHere(root, J, pointer, jp, kj, spine, js, keys, V);
      } else {
        StopScalar(root, J, pointer, jp, kj, spine, js, keys, V);
      }
      return;
    }
    if child.Ref? {
      Descend(root, J, pointer, jp, kj, spine, js, keys, V, c, child.node, jc);
      spine', js', keys' := spine + [child.node], js + [jc], keys + [c];
    } else {
      GoScalar(root, J, pointer, jp, kj, spine, js, keys, V, child, jchild, kj + [c]);
    }
    if c == "" {
      if root.Ref? {
        Restart(root, J, child, jchild, kj + [c], spine', js', keys', V);
        V' := V + Suffix(spine', 1);
        spine', js', keys' := [root.node], [J.value], [];
      }
      r := Ok(Moved(root));
    } else {
      r := Ok(Moved(child));
    }
  }

  /** `escapeComponent(components[i])` at line 83. */
  method Token(comps: seq<string>, i: nat, ghost decoded: seq<Result<string>>) returns (r: Result<string>)
    requires i < |comps| && DecodesTo(comps, decoded)
    ensures r == decoded[i]
  {
    r := EscapeComponent(comps[i]);
  }

  /** One turn of the loop at lines 81-98 for every operation but `test`,
      from token `i`: decode the token (line 83), then `CopyTurn`. It fails
      where `Walk` fails from the same place, stops where it stops, and
      otherwise moves to the state `Walk` goes on from. */
  method CopyStep(root: Value, comps: seq<string>, i: nat, pointer: Value,
                  ghost decoded: seq<Result<string>>, ghost J: Option<Json>, ghost jp: Option<Json>, ghost kj: seq<string>,
                  ghost spine: seq<Node>, ghost js: seq<Json>, ghost keys: seq<string>, ghost V: set<Node>,
                  ghost origs: seq<Node>, ghost track: bool)
    returns (r: Result<Move>, ghost jp': Option<Json>, ghost kj': seq<string>,
             ghost spine': seq<Node>, ghost js': seq<Json>, ghost keys': seq<string>, ghost W: set<Node>, ghost V': set<Node>,
             ghost origs': seq<Node>)
    requires i < |comps| && DecodesTo(comps, decoded)
    requires Walking(root, J, pointer, jp, kj, spine, js, keys, V)
    requires !root.Ref? ==> DenotesOpt(root, J, {})
    requires track ==> NoRestart(decoded)
    requires track && pointer.Ref? ==> Tracked(spine, origs, keys, V)
    modifies if pointer.Ref? then {pointer.node} else {}
    ensures r.Err? ==> Walk(J, decoded, i, kj, jp) == Err(r.error)
    ensures r.Ok? && r.value.Stopped? ==>
              && Walk(J, decoded, i, kj, jp).Ok?
              && Agrees(r.value.found, Walk(J, decoded, i, kj, jp).value)
              && r.value.found.pointer == pointer
              && Walk(J, decoded, i, kj, jp).value.pointer == jp.value
              && Walk(J, decoded, i, kj, jp).value.keys == kj
    ensures r.Ok? && r.value.Stopped? && !pointer.Ref? ==> !jp.value.JArr? && !jp.value.JObj?
    ensures r.Ok? && r.value.Stopped? && pointer.Ref? ==> Trail(root, J, pointer, jp.value, kj, spine', js', keys', W, V')
    ensures r.Ok? && r.value.Moved? ==>
              && i + 1 < |comps|
              && Walk(J, decoded, i, kj, jp) == Walk(J, decoded, i + 1, kj', jp')
              && Walking(root, J, r.value.pointer, jp', kj', spine', js', keys', V')
    ensures r.Ok? && r.value.Moved? && r.value.pointer.Ref? ==> r.value.pointer.node == root.node || fresh(r.value.pointer.node)
    ensures V <= W <= V'
    ensures track && r.Ok? && r.value.Stopped? && pointer.Ref? ==>
              Shared(spine', origs, keys', r.value.found.component)
    ensures track && r.Ok? && r.value.Moved? && r.value.pointer.Ref? ==>
              && pointer.Ref?
              && Tracked(spine', origs', keys', V') && origs'[0] == origs[0]
  {
    jp', kj', spine', js', keys', W, V', origs' := jp, kj, spine, js, keys, V, V, origs;
    var token := Token(comps, i, decoded);
    if token.Err? {
      r := Err(token.error);
      return;
    }
    var component := token.value;
    ghost var jchild;
    r, jchild, kj', jp', spine', js', keys', W, V', origs' := CopyTurn(root, i, |comps|, pointer, component, J, jp, kj, spine, js, keys, V, origs, track && pointer.Ref?);
    if r.Ok? {
      WalkTurns(J, decoded, i, kj, jp, component, jchild, kj', jp');
    }
  }

  /** The do-while loop at lines 81-98 for every operation but `test`, from
      the accumulator `root`, which stands for `J`. Each array or object it
      is about to enter is replaced by a shallow copy; after an empty token
      the walk goes back to `root`. It stops and fails exactly where `Walk`
      does, and only the root node and fresh copies are written. When
      `pointer` ends at a node, that node is the end of a spine from the root
      along the keys `Walk` reports, and stands for the value `Walk` stops
      at: putting a value into it gives the root's new value (`Plug`). */
  method WalkCopy(root: Value, comps: seq<string>, ghost decoded: seq<Result<string>>, ghost J: Option<Json>, ghost U: set<Node>, ghost O: Node, ghost track: bool)
    returns (r: Result<Found>, ghost spine: seq<Node>, ghost js: seq<Json>, ghost keys: seq<string>, ghost W: set<Node>, ghost V: set<Node>,
             ghost origs: seq<Node>)
    requires |comps| >= 1 && DecodesTo(comps, decoded) && DenotesOpt(root, J, U)
    requires track ==> root.Ref? && SameEntries(root.node, O) && O in U - {root.node} && NoRestart(decoded)
    modifies if root.Ref? then {root.node} else {}
    ensures r.Err? <==> Walk(J, decoded, 0, [], J).Err?
    ensures r.Err? ==> r.error == Walk(J, decoded, 0, [], J).error
    ensures r.Ok? ==> Agrees(r.value, Walk(J, decoded, 0, [], J).value)
    ensures r.Ok? && !r.value.pointer.Ref? ==>
              !Walk(J, decoded, 0, [], J).value.pointer.JArr? && !Walk(J, decoded, 0, [], J).value.pointer.JObj?
    ensures r.Ok? && r.value.pointer.Ref? ==>
              && Trail(root, J, r.value.pointer, Walk(J, decoded, 0, [], J).value.pointer, Walk(J, decoded, 0, [], J).value.keys,
                       spine, js, keys, W, V)
              && U - {root.node} <= W
              && (r.value.pointer.node == root.node || fresh(r.value.pointer.node))
    ensures track && r.Ok? && r.value.pointer.Ref? ==>
              Shared(spine, origs, keys, r.value.component) && origs[0] == O
  {
    var pointer := root;
    var i := 0;
    ghost var jp, kj: seq<string> := J, [];
    ghost var w := Walk(J, decoded, 0, [], J);
    spine, js, keys, W, V, origs := [], [], [], U, U, [];
    if root.Ref? {
      spine, js, keys, V, origs := [root.node], [J.value], [], U - {root.node}, [O];
      assert V + {root.node} == U;
    }
    while true
      invariant i < |comps|
      invariant w == Walk(J, decoded, i, kj, jp)
      invariant Walking(root, J, pointer, jp, kj, spine, js, keys, V)
      invariant !root.Ref? ==> DenotesOpt(root, J, {})
      invariant root.Ref? ==> U - {root.node} <= V
      invariant pointer.Ref? ==> pointer.node == root.node || fresh(pointer.node)
      invariant track && pointer.Ref? ==>
                  Tracked(spine, origs, keys, V) && origs[0] == O
      decreases |comps| - i
    {
      var turn;
      ghost var jp', kj', spine', js', keys', W', V', origs';
      turn, jp', kj', spine', js', keys', W', V', origs' := CopyStep(root, comps, i, pointer, decoded, J, jp, kj, spine, js, keys, V, origs, track);
      if turn.Err? {
        r := Err(turn.error);
        return;
      }
      if turn.value.Stopped? {
        r := Ok(turn.value.found);
        spine, js, keys, W, V := spine', js', keys', W', V';
        return;
      }
      pointer, i := turn.value.pointer, i + 1;
      jp, kj, spine, js, keys, V, origs := jp', kj', spine', js', keys', V', origs';
    }
  }
}
