/** The JavaScript heap the patch engine works on: arrays and plain objects
    are `Node`s that can be shared and updated in place; every other value is
    held directly. `Denotes` connects a heap value to the JSON value it
    stands for. */
module Heap {
  import opened JsonTypes
  import opened Pointer
  import opened Splice
  import opened Equality

  /** A JavaScript array (`isArray`, contents in `elems`) or plain object
      (contents in `fields`). */
  class Node {
    const isArray: bool
    var elems: seq<Value>
    var fields: map<string, Value>

    /** `[...elems]` */
    constructor Array(elems: seq<Value>)
      ensures isArray && this.elems == elems && fields == map[]
    {
      isArray := true;
      this.elems := elems;
      fields := map[];
    }

    /** `{...fields}` */
    constructor Object(fields: map<string, Value>)
      ensures !isArray && this.fields == fields && elems == []
    {
      isArray := false;
      elems := [];
      this.fields := fields;
    }

    /** `this[key]`: an array has only its canonical indices in range; a
        missing key reads as `undefined`. */
    function Lookup(key: string): (r: Value)
      reads this
      ensures isArray && IsArrayIndex(key) && DigitsValue(key) < |elems| ==> r == elems[DigitsValue(key)]
      ensures !isArray && key in fields ==> r == fields[key]
      ensures r == Undefined <== (isArray && !(IsArrayIndex(key) && DigitsValue(key) < |elems|))
                                 || (!isArray && key !in fields)
    {
      if isArray then
        if IsArrayIndex(key) && DigitsValue(key) < |elems| then elems[DigitsValue(key)] else Undefined
      else if key in fields then fields[key] else Undefined
    }

    /** `this.push(v)` */
    method Push(v: Value)
      requires isArray
      modifies this
      ensures elems == old(elems) + [v] && fields == old(fields)
    {
      elems := elems + [v];
    }

    /** `this.splice(token, 0, v)` for a token of digits: insert at the
        clamped position. */
    method SpliceInsert(token: string, v: Value)
      requires isArray && AllDigits(token)
      modifies this
      ensures elems == InsertAt(old(elems), SpliceStart(token, |old(elems)|), v)
      ensures fields == old(fields)
    {
      elems := InsertAt(elems, SpliceStart(token, |elems|), v);
    }

    /** `this.splice(i, 1, v)` with `i` in range. */
    method SpliceReplace(i: nat, v: Value)
      requires isArray && i < |elems|
      modifies this
      ensures elems == old(elems)[i := v] && fields == old(fields)
    {
      elems := elems[i := v];
    }

    /** `this.splice(i, 1)` with `i` in range. */
    method SpliceRemove(i: nat)
      requires isArray && i < |elems|
      modifies this
      ensures elems == RemoveAt(old(elems), i) && fields == old(fields)
    {
      elems := RemoveAt(elems, i);
    }

    /** `delete this[key]` on an object. */
    method Delete(key: string)
      requires !isArray
      modifies this
      ensures fields == old(fields) - {key} && elems == old(elems)
    {
      fields := fields - {key};
    }

    /** `this[key] = v`. On an array only an index in range or just past the
        end is a JSON-shaped write; a sparse index or a named property on an
        array is reported as a runtime fault (`ok` false, nothing written). */
    method Assign(key: string, v: Value) returns (ok: bool)
      modifies this
      ensures ok <==> !isArray || (IsArrayIndex(key) && DigitsValue(key) <= |old(elems)|)
      ensures !isArray ==> fields == old(fields)[key := v] && elems == old(elems)
      ensures isArray && ok && DigitsValue(key) < |old(elems)| ==>
                elems == old(elems)[DigitsValue(key) := v] && fields == old(fields)
      ensures isArray && ok && DigitsValue(key) == |old(elems)| ==>
                elems == old(elems) + [v] && fields == old(fields)
      ensures !ok ==> elems == old(elems) && fields == old(fields)
    {
      if !isArray {
        fields := fields[key := v];
        ok := true;
      } else if IsArrayIndex(key) && DigitsValue(key) < |elems| {
        elems := elems[DigitsValue(key) := v];
        ok := true;
      } else if IsArrayIndex(key) && DigitsValue(key) == |elems| {
        elems := elems + [v];
        ok := true;
      } else {
        ok := false;
      }
    }
  }

  /** A JavaScript value: `undefined`, a JSON scalar, or a reference to an
      array or object. */
  datatype Value =
    | Undefined
    | Null
    | Bool(b: bool)
    | Num(n: int)
    | Str(s: string)
    | Ref(node: Node)

  /** `Array.isArray(v)` */
  predicate IsArrayValue(v: Value)
  {
    v.Ref? && v.node.isArray
  }

  /** `v[key]`. Reading a property of `null` or `undefined` is a TypeError; a
      string gives its one-character string at a canonical index in range; a
      number or boolean has no JSON properties, so the read gives
      `undefined`. */
  function Get(v: Value, key: string): (r: Result<Value>)
    reads if v.Ref? then {v.node} else {}
    ensures r.Err? <==> v.Undefined? || v.Null?
    ensures r.Err? ==> r.error == RuntimeFault
    ensures v.Ref? ==> r == Ok(v.node.Lookup(key))
    ensures v.Bool? || v.Num? ==> r == Ok(Undefined)
  {
    match v
    case Undefined => Err(RuntimeFault)
    case Null => Err(RuntimeFault)
    case Bool(_) => Ok(Undefined)
    case Num(_) => Ok(Undefined)
    case Str(s) =>
      Ok(if IsArrayIndex(key) && DigitsValue(key) < |s| then Str([s[DigitsValue(key)]]) else Undefined)
    case Ref(n) => Ok(n.Lookup(key))
  }

  // ----- abstraction -----

  /** The heap value `v` stands for the JSON value `j`, reading only nodes of
      `U`. The elements of a node are read without the node itself, so a
      structure that contains itself stands for no JSON value. */
  ghost predicate Denotes(v: Value, j: Json, U: set<Node>)
    reads U
    decreases j
  {
    match j
    case JNull => v == Null
    case JBool(b) => v == Bool(b)
    case JNum(n) => v == Num(n)
    case JStr(s) => v == Str(s)
    case JArr(xs) =>
      && v.Ref? && v.node in U && v.node.isArray && |v.node.elems| == |xs|
      && forall i :: 0 <= i < |xs| ==> Denotes(v.node.elems[i], xs[i], U - {v.node})
    case JObj(m) =>
      && v.Ref? && v.node in U && !v.node.isArray && v.node.fields.Keys == m.Keys
      && forall k :: k in m ==> Denotes(v.node.fields[k], m[k], U - {v.node})
  }

  /** `v` stands for `j`, or both are `undefined`. */
  ghost predicate DenotesOpt(v: Value, j: Option<Json>, U: set<Node>)
    reads U
  {
    if j.None? then v == Undefined else Denotes(v, j.value, U)
  }

  /** A heap value stands for at most one JSON value. */
  lemma {:induction false} DenotesUnique(v: Value, j1: Json, j2: Json, U: set<Node>)
    requires Denotes(v, j1, U) && Denotes(v, j2, U)
    ensures j1 == j2
    decreases j1
  {
    match j1
    case JArr(xs) =>
      var ys := j2.items;
      forall i | 0 <= i < |xs| ensures xs[i] == ys[i] {
        DenotesUnique(v.node.elems[i], xs[i], ys[i], U - {v.node});
      }
    case JObj(m) =>
      var m2 := j2.props;
      forall k | k in m ensures m[k] == m2[k] {
        DenotesUnique(v.node.fields[k], m[k], m2[k], U - {v.node});
      }
    case _ =>
  }

  /** Allowing more nodes to be read does not change what a value stands for. */
  lemma {:induction false} DenotesMono(v: Value, j: Json, U: set<Node>, V: set<Node>)
    requires Denotes(v, j, U) && U <= V
    ensures Denotes(v, j, V)
    decreases j
  {
    match j
    case JArr(xs) =>
      forall i | 0 <= i < |xs| ensures Denotes(v.node.elems[i], xs[i], V - {v.node}) {
        DenotesMono(v.node.elems[i], xs[i], U - {v.node}, V - {v.node});
      }
    case JObj(m) =>
      forall k | k in m ensures Denotes(v.node.fields[k], m[k], V - {v.node}) {
        DenotesMono(v.node.fields[k], m[k], U - {v.node}, V - {v.node});
      }
    case _ =>
  }

  /** The nodes a value's elements are read from: all of `U` but the value's
      own node. */
  function Below(v: Value, U: set<Node>): set<Node>
  {
    if v.Ref? then U - {v.node} else U
  }

  /** Reading a property of a heap value agrees with reading it from the JSON
      value it stands for: the same TypeError, `undefined` at the same keys,
      and otherwise an element that stands for the JSON element. */
  lemma GetDenotes(v: Value, j: Json, U: set<Node>, key: string)
    requires Denotes(v, j, U)
    ensures Get(v, key).Err? <==> Member(j, key).Err?
    ensures Get(v, key).Ok? ==> DenotesOpt(Get(v, key).value, Member(j, key).value, Below(v, U))
  {
  }

  // ----- reading a heap value back -----

  /** The JSON value a heap value stands for, read off the heap: how
      `testEquality`, which only reads, sees its first argument. */
  function Freeze(v: Value, ghost j: Option<Json>, ghost U: set<Node>): (x: Option<Json>)
    requires DenotesOpt(v, j, U)
    reads U
    ensures x == j
    decreases U, 0
  {
    match v
    case Undefined => None
    case Null => Some(JNull)
    case Bool(b) => Some(JBool(b))
    case Num(n) => Some(JNum(n))
    case Str(s) => Some(JStr(s))
    case Ref(n) =>
      if n.isArray then Some(JArr(FreezeItems(n.elems, j.value.items, U - {n})))
      else
        var m := map k | k in n.fields :: Freeze(n.fields[k], Some(j.value.props[k]), U - {n}).value;
        assert m == j.value.props;
        Some(JObj(m))
  }

  /** `Freeze` of every element of an array. */
  function FreezeItems(vs: seq<Value>, ghost xs: seq<Json>, ghost U: set<Node>): (r: seq<Json>)
    requires |vs| == |xs| && forall i :: 0 <= i < |xs| ==> Denotes(vs[i], xs[i], U)
    reads U
    ensures r == xs
    decreases U, 1, |vs|
  {
    if vs == [] then []
    else [Freeze(vs[0], Some(xs[0]), U).value] + FreezeItems(vs[1..], xs[1..], U)
  }
}
