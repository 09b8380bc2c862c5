/** `applyPatch` on JSON values: what each operation does to the accumulated
    document, with the code's branches. The shallow clones the walk makes are
    invisible at this level (a clone stands for the same JSON value as its
    original); the heap model in `HeapPatch` is proved to agree with these
    functions. Two places follow the corrected code rather than the code as
    written, because values cannot share: `From`, whose move deletes only
    from the accumulator and never from a container the accumulator shares
    with an earlier copy's target or with the input, and `AtRoot`, whose
    move hands on the target as a value. */
module JsonPatch {
  import opened JsonTypes
  import opened Pointer
  import opened Splice
  import opened Equality

  /** One element of `ops`: its `op`, `path`, `from` (None when absent) and
      `value`. */
  datatype Op = Op(op: string, path: string, from: Option<string>, value: Json)

  /** The `ops` argument: an array of operations, or anything else. */
  datatype Ops = OpArray(items: seq<Op>) | NotArray

  /** The operation names the engine knows (line 36). */
  const Operations: set<string> := {"move", "copy", "add", "replace", "remove", "test"}

  /** `v[key]` where `v` may be `undefined` (None). */
  function Prop(v: Option<Json>, key: string): (r: Result<Option<Json>>)
    ensures r.Err? <==> v.None? || v == Some(JNull)
    ensures r.Err? ==> r.error == RuntimeFault
  {
    if v.None? then Err(RuntimeFault) else Member(v.value, key)
  }

  /** The one-character strings of `s`, as the elements a spread sees. */
  function Chars(s: string): (r: seq<Json>)
    ensures |r| == |s| && forall i :: 0 <= i < |s| ==> r[i] == JStr([s[i]])
  {
    seq(|s|, i requires 0 <= i < |s| => JStr([s[i]]))
  }

  /** `{...v}`: an object holding the own enumerable properties of `v`. An
      array or a string gives an object keyed by index; `null`, `undefined`,
      numbers and booleans give `{}`. */
  function Spread(v: Option<Json>): (r: Json)
    ensures r.JObj?
  {
    match v
    case Some(JArr(xs)) => JObj(IndexMap(xs))
    case Some(JObj(m)) => JObj(m)
    case Some(JStr(s)) => JObj(IndexMap(Chars(s)))
    case _ => JObj(map[])
  }

  /** `Array.isArray(doc) ? [...doc] : {...doc}` (line 41). */
  function RootCopy(doc: Json): (r: Json)
    ensures doc.JArr? || doc.JObj? ==> r == doc
    ensures r.JArr? || r.JObj?
  {
    if doc.JArr? then doc else Spread(Some(doc))
  }

  // ----- positions inside a value -----

  /** `j` has an element at `key`: a canonical index in range of an array,
      or a key of an object. */
  predicate HasChild(j: Json, key: string)
  {
    || (j.JArr? && IsArrayIndex(key) && DigitsValue(key) < |j.items|)
    || (j.JObj? && key in j.props)
  }

  /** The element of `j` at `key`. */
  function Child(j: Json, key: string): (r: Json)
    requires HasChild(j, key)
    ensures Member(j, key) == Ok(Some(r))
  {
    if j.JArr? then j.items[DigitsValue(key)] else j.props[key]
  }

  /** `j` with its element at `key` replaced by `x`; `j` itself when there is
      no such element. */
  function Set(j: Json, key: string, x: Json): (r: Json)
    ensures HasChild(j, key) ==> HasChild(r, key) && Child(r, key) == x
    ensures !HasChild(j, key) ==> r == j
  {
    if j.JArr? && IsArrayIndex(key) && DigitsValue(key) < |j.items| then
      JArr(j.items[DigitsValue(key) := x])
    else if j.JObj? && key in j.props then JObj(j.props[key := x])
    else j
  }

  /** The value reached from `root` by reading `keys` one after the other,
      or None once a read gives `undefined` or throws. */
  function At(root: Json, keys: seq<string>): Option<Json>
    decreases |keys|
  {
    if keys == [] then Some(root)
    else
      match Member(root, keys[0])
      case Ok(Some(c)) => At(c, keys[1..])
      case _ => None
  }

  /** `root` with the value at `keys` replaced by `x`. Every key must name an
      element of a container; the value is unchanged where one does not. */
  function Put(root: Json, keys: seq<string>, x: Json): Json
    decreases |keys|
  {
    if keys == [] then x
    else if HasChild(root, keys[0]) then Set(root, keys[0], Put(Child(root, keys[0]), keys[1..], x))
    else root
  }

  // ----- the walk along `path` (lines 76-98) -----

  /** Where the walk stops: the keys from the root to `pointer` (counted from
      the last restart), the last decoded `component`, the value
      `pointer[component]` read there, and the number `i` of tokens used. */
  datatype Spot = Spot(keys: seq<string>, pointer: Json, component: string, child: Option<Json>, i: nat)

  /** What one turn of the do-while loop leads to: the walk stops at a
      spot, or goes on with the next token from the keys and value given. */
  datatype Turn = Stop(spot: Spot) | Go(keys: seq<string>, pointer: Option<Json>)

  /** One turn of the loop at lines 76-98 on token `i`, with `pointer` the
      value reached so far. The token is decoded (and may be banned), then
      `pointer[token]` is read; the loop goes on while tokens remain and the
      read gave a value, from the root again after an empty token. */
  function Step(root: Option<Json>, decoded: seq<Result<string>>, i: nat, keys: seq<string>, pointer: Option<Json>): (r: Result<Turn>)
    requires i < |decoded|
    ensures r.Err? <==> decoded[i].Err? || pointer.None? || pointer == Some(JNull)
    ensures r.Err? ==> r.error == RuntimeFault || decoded[i] == Err(r.error)
    ensures r.Ok? && r.value.Stop? ==> r.value.spot.i == i + 1 && r.value.spot.pointer == pointer.value
    ensures r.Ok? && r.value.Stop? ==> Member(r.value.spot.pointer, r.value.spot.component) == Ok(r.value.spot.child)
    ensures r.Ok? && r.value.Stop? && i + 1 < |decoded| ==> r.value.spot.child.None?
    ensures r.Ok? && r.value.Go? ==> i + 1 < |decoded| && (r.value.keys != [] ==> r.value.pointer.Some?)
  {
    var component :- decoded[i];
    var child :- Prop(pointer, component);
    if i + 1 < |decoded| && child.Some? then
      if component == "" then Ok(Go([], root)) else Ok(Go(keys + [component], child))
    else Ok(Stop(Spot(keys, pointer.value, component, child, i + 1)))
  }

  /** The do-while loop from token `i` on: turns until one stops or fails. */
  function Walk(root: Option<Json>, decoded: seq<Result<string>>, i: nat, keys: seq<string>, pointer: Option<Json>): (r: Result<Spot>)
    requires i < |decoded|
    ensures r.Ok? ==> pointer.Some? && i < r.value.i <= |decoded|
    ensures r.Ok? ==> Member(r.value.pointer, r.value.component) == Ok(r.value.child)
    ensures r.Ok? && r.value.i < |decoded| ==> r.value.child.None?
    ensures r.Err? ==> r.error == RuntimeFault || exists q :: i <= q < |decoded| && decoded[q] == Err(r.error)
    decreases |decoded| - i
  {
    var turn :- Step(root, decoded, i, keys, pointer);
    match turn
    case Stop(spot) => Ok(spot)
    case Go(keys', pointer') => Walk(root, decoded, i + 1, keys', pointer')
  }

  /** No token before the last decodes to the empty string, so the walk
      never goes back to the root (line 83 with an empty `component`). */
  predicate NoRestart(decoded: seq<Result<string>>)
  {
    forall q :: 0 <= q < |decoded| - 1 ==> decoded[q] != Ok("")
  }

  /** The existence and index checks at lines 100-116 after a walk over `n`
      tokens. */
  function Check(op: string, path: string, s: Spot, n: nat): (r: Result<()>)
    ensures r.Err? ==> r.error == NotExist(path)
  {
    if || (s.i < n && s.child.None?)
       || (s.i == n && op !in {"add", "move", "copy"} && s.child.None?)
       || (s.pointer.JArr? && s.component != "-" && !AllDigits(s.component))
    then Err(NotExist(path))
    else Ok(())
  }

  /** `pointer[key] = x` (lines 123, 127 and 138). Writing a property of a
      scalar throws; on an array only a canonical index in range or just
      past the end gives a JSON array (anything else is a runtime fault). */
  function Assign(p: Json, key: string, x: Json): (r: Result<Json>)
    ensures p.JObj? ==> r == Ok(JObj(p.props[key := x]))
    ensures p.JArr? ==> (r.Ok? <==> IsArrayIndex(key) && DigitsValue(key) <= |p.items|)
    ensures !p.JArr? && !p.JObj? ==> r == Err(RuntimeFault)
    ensures r.Err? ==> r.error == RuntimeFault
  {
    match p
    case JObj(m) => Ok(JObj(m[key := x]))
    case JArr(xs) =>
      if IsArrayIndex(key) && DigitsValue(key) < |xs| then Ok(JArr(xs[DigitsValue(key) := x]))
      else if IsArrayIndex(key) && DigitsValue(key) == |xs| then Ok(JArr(xs + [x]))
      else Err(RuntimeFault)
    case _ => Err(RuntimeFault)
  }

  /** The checks passed: a `replace` or `remove` found its target, and an
      array token other than `-` is made of digits. */
  predicate Checked(op: string, s: Spot)
  {
    && Member(s.pointer, s.component) == Ok(s.child)
    && (op in {"replace", "remove"} ==> s.child.Some?)
    && (s.pointer.JArr? && s.component != "-" ==> AllDigits(s.component))
  }

  /** A walk that passed the checks has what `Edit` needs. */
  lemma CheckedSpot(op: string, path: string, s: Spot, n: nat)
    requires Member(s.pointer, s.component) == Ok(s.child)
    requires s.i <= n && (s.i < n ==> s.child.None?)
    requires Check(op, path, s, n).Ok?
    ensures Checked(op, s)
  {
  }

  /** The switch at lines 118-140 for every operation but `test`: the new
      value of `pointer`, given `x`, the operation's value or the target of a
      move or copy. */
  function Edit(op: string, s: Spot, x: Json): (r: Result<Json>)
    requires op in {"add", "replace", "remove", "move", "copy"}
    requires Checked(op, s)
    ensures r.Err? ==> r.error == RuntimeFault
  {
    var p, c := s.pointer, s.component;
    if op == "add" then
      if p.JArr? && c == "-" then Ok(JArr(p.items + [x]))
      else if p.JArr? then Ok(JArr(InsertAt(p.items, SpliceStart(c, |p.items|), x)))
      else Assign(p, c, x)
    else if op == "replace" then
      if p.JArr? then Ok(JArr(p.items[DigitsValue(c) := x])) else Assign(p, c, x)
    else if op == "remove" then
      if p.JArr? then Ok(JArr(RemoveAt(p.items, DigitsValue(c))))
      else if p.JObj? then Ok(JObj(p.props - {c}))
      else Err(RuntimeFault)
    else Assign(p, c, x)
  }

  // ----- the `from` walk (lines 47-65) -----

  /** The `reduce` over the decoded `from` tokens from `idx` on, starting at
      `cur`: the new value of `cur` (a move deletes the last token from its
      container) and the target (a copy spreads it). `null` or `undefined`
      anywhere on the way is reported as missing. */
  function From(cur: Option<Json>, toks: seq<string>, idx: nat, from: string, move: bool): (r: Result<(Json, Json)>)
    requires idx < |toks|
    ensures r.Ok? ==> cur.Some? && cur.value != JNull
    ensures r.Ok? && !move ==> r.value.0 == cur.value
    ensures r.Err? ==> r.error == NotExist(from) || r.error == RuntimeFault
    decreases |toks| - idx
  {
    var ref :- Prop(cur, toks[idx]);
    if ref.None? || ref == Some(JNull) then Err(NotExist(from))
    else if idx + 1 < |toks| then
      var res :- From(ref, toks, idx + 1, from, move);
      Ok((Set(cur.value, toks[idx], res.0), res.1))
    else if !move then Ok((cur.value, Spread(ref)))
    else if cur.value.JArr? then Ok((JArr(RemoveAt(cur.value.items, DigitsValue(toks[idx]))), ref.value))
    else if cur.value.JObj? then Ok((JObj(cur.value.props - {toks[idx]}), ref.value))
    else Err(RuntimeFault)
  }

  /** What a move or copy takes from `from` before `path` is looked at: the
      accumulator afterwards and the target. Other operations leave the
      accumulator as it is. */
  function Source(acc: Option<Json>, item: Op): (r: Result<(Option<Json>, Json)>)
    ensures r.Ok? && item.op != "move" ==> r.value.0 == acc
  {
    if item.op == "move" || item.op == "copy" then
      if item.from.None? then Err(RuntimeFault)
      else
        var toks :- EscapeAll(RawTokens(item.from.value));
        var res :- From(acc, toks, 0, item.from.value, item.op == "move");
        Ok((Some(res.0), res.1))
    else Ok((acc, JNull))
  }

  // ----- one operation, and the whole patch -----

  /** Lines 70-74: an operation other than `remove` on the whole document.
      `test` compares the accumulator with the value and then hands the
      value on; `add` and `replace` hand the value on; a move or copy hands
      its target on. */
  function AtRoot(op: string, acc1: Option<Json>, value: Json, target: Json): (r: Result<Option<Json>>)
    requires op in Operations - {"remove"}
    ensures op != "test" ==> r.Ok?
    ensures op == "test" ==> (r.Ok? <==> acc1.Some? && Embeds(acc1.value, value))
    ensures r.Ok? ==> r.value.Some?
  {
    if op == "test" then
      var _ :- AssertEquality(acc1, value);
      Ok(Some(value))
    else if op == "add" || op == "replace" then Ok(Some(value))
    else Ok(Some(target))
  }

  /** Lines 76-141 for `test`: the walk, the checks, then the comparison of
      the element found with the value; the accumulator is left as it is. */
  function TestPath(path: string, acc1: Option<Json>, value: Json): (r: Result<Option<Json>>)
    ensures r.Ok? ==> r == Ok(acc1)
  {
    var comps := RawTokens(path);
    var s :- Walk(acc1, Decoded(comps), 0, [], acc1);
    var _ :- Check("test", path, s, |comps|);
    var _ :- AssertEquality(s.child, value);
    Ok(acc1)
  }

  /** Lines 76-141 for every other operation: the walk, the checks, then the
      edit of the container the walk stopped at, put back along the keys;
      `x` is the value put in. */
  function EditPath(op: string, path: string, acc1: Option<Json>, x: Json): (r: Result<Option<Json>>)
    requires op in {"add", "replace", "remove", "move", "copy"}
    ensures r.Ok? ==> acc1.Some? && r.value.Some?
    ensures r.Err? ==> r.error == NotExist(path) || r.error.Banned? || r.error == RuntimeFault
  {
    var comps := RawTokens(path);
    var s :- Walk(acc1, Decoded(comps), 0, [], acc1);
    var _ :- Check(op, path, s, |comps|);
    CheckedSpot(op, path, s, |comps|);
    var p :- Edit(op, s, x);
    Ok(Some(Put(acc1.value, s.keys, p)))
  }

  /** Lines 76-141: the walk along `path`, the checks, then the switch. A
      move or copy puts in its target, `add` and `replace` the operation's
      value. */
  function AtPath(op: string, path: string, acc1: Option<Json>, value: Json, target: Json): (r: Result<Option<Json>>)
    requires op in Operations
    ensures r.Ok? ==> acc1.Some? && r.value.Some?
    ensures op == "test" && r.Ok? ==> r == Ok(acc1)
  {
    if op == "test" then TestPath(path, acc1, value)
    else EditPath(op, path, acc1, if op in {"move", "copy"} then target else value)
  }

  /** One step of the `reduce` at lines 43-144: the accumulator after `item`,
      or the error thrown. An unknown operation makes the accumulator
      `undefined`. */
  function ApplyOp(acc: Option<Json>, item: Op): (r: Result<Option<Json>>)
    ensures item.op !in Operations ==> r == Ok(None)
    ensures r.Ok? && item.op in Operations ==> r.value.Some?
    ensures item.op == "test" && item.path != "" && r.Ok? ==> r == Ok(acc)
  {
    if item.op !in Operations then Ok(None)
    else
      var pre :- Source(acc, item);
      if item.path == "" && item.op != "remove" then AtRoot(item.op, pre.0, item.value, pre.1)
      else AtPath(item.op, item.path, pre.0, item.value, pre.1)
  }

  /** The operations folded over the accumulator in order; the first error
      stops the fold. */
  function ApplyAll(acc: Option<Json>, items: seq<Op>): (r: Result<Option<Json>>)
    ensures r.Ok? && items != [] && items[|items| - 1].op in Operations ==> r.value.Some?
    ensures r.Ok? && (forall i :: 0 <= i < |items| ==> items[i].op == "test" && items[i].path != "") ==> r == Ok(acc)
    decreases |items|
  {
    if items == [] then Ok(acc)
    else
      var next :- ApplyOp(acc, items[0]);
      ApplyAll(next, items[1..])
  }

  /** `applyPatch(doc, ops)` on values: `doc` itself when `ops` is not an
      array or is empty, otherwise the fold over a copy of the root. */
  function ApplyPatch(doc: Json, ops: Ops): (r: Result<Option<Json>>)
    ensures ops.NotArray? || ops.items == [] ==> r == Ok(Some(doc))
    ensures r.Ok? && ops.OpArray? && ops.items != [] && ops.items[|ops.items| - 1].op in Operations ==> r.value.Some?
    ensures r.Ok? && (doc.JArr? || doc.JObj?) && ops.OpArray? && (forall i :: 0 <= i < |ops.items| ==> ops.items[i].op == "test" && ops.items[i].path != "") ==> r == Ok(Some(doc))
  {
    if ops.NotArray? || ops.items == [] then Ok(Some(doc))
    else ApplyAll(Some(RootCopy(doc)), ops.items)
  }
}
