/** What `applyPatch` does, stated about the value-level functions of
    `JsonPatch`: the effect of each operation on mappings and sequences, the
    failures, the quirks of the code as written, and round trips. */
module PatchLaws {
  import opened JsonTypes
  import opened Pointer
  import opened Splice
  import opened Equality
  import opened JsonPatch

  /** A token that needs no decoding and is not banned. */
  predicate Plain(t: string)
  {
    '~' !in t && '/' !in t && t !in BannedKeys
  }

  lemma PlainDecodes(t: string)
    requires Plain(t)
    ensures EscapeComponent(t) == Ok(t)
  {
    UnescapeWithoutTilde(t);
  }

  /** A run of digits is a plain token. */
  lemma DigitsArePlain(t: string)
    requires AllDigits(t)
    ensures Plain(t)
  {
    assert forall i :: 0 <= i < |t| ==> t[i] != '~' && t[i] != '/' && t[i] != '_' && t[i] != 'c' && t[i] != 'p';
    if |t| > 0 {
      assert t[0] != '_' && t[0] != 'c' && t[0] != 'p';
    }
  }

  /** A plain token decodes to itself in a `from` pointer too. */
  lemma EscapeOne(t: string)
    requires Plain(t)
    ensures EscapeAll([t]) == Ok([t])
  {
    PlainDecodes(t);
    var r := EscapeAll([t]);
    assert r.Ok?;
    assert |r.value| == 1 && r.value[0] == t;
    assert r.value == [t];
  }

  /** Two operations in a row. */
  lemma ApplyTwo(acc: Option<Json>, o1: Op, o2: Op, a1: Option<Json>)
    requires ApplyOp(acc, o1) == Ok(a1)
    ensures ApplyAll(acc, [o1, o2]) == ApplyOp(a1, o2)
  {
    assert [o1, o2][1..] == [o2];
    assert [o2][1..] == [];
    assert ApplyAll(acc, [o1, o2]) == ApplyAll(a1, [o2]);
    match ApplyOp(a1, o2)
    case Ok(a2) =>
      assert ApplyAll(a1, [o2]) == ApplyAll(a2, []);
    case Err(_) =>
  }

  /** `"/" + t` splits into the single token `t`. */
  lemma OneToken(t: string)
    requires '/' !in t
    ensures RawTokens("/" + t) == [t]
  {
    assert Tail("/" + t) == t;
    SplitJoin([t]);
  }

  /** The walk over a single plain token reads it in the accumulator. */
  lemma WalkOne(acc: Json, t: string)
    requires Plain(t) && acc != JNull
    ensures Walk(Some(acc), Decoded([t]), 0, [], Some(acc)) == Ok(Spot([], acc, t, Member(acc, t).value, 1))
  {
    PlainDecodes(t);
  }

  // ----- single operations on a mapping -----

  /** `add /t` on an object sets key `t`, creating or overwriting it. */
  lemma AddMember(m: map<string, Json>, t: string, from: Option<string>, v: Json)
    requires Plain(t)
    ensures ApplyOp(Some(JObj(m)), Op("add", "/" + t, from, v)) == Ok(Some(JObj(m[t := v])))
  {
    OneToken(t);
    WalkOne(JObj(m), t);
  }

  /** `replace /t` on an object overwrites key `t`; a missing key does not
      exist. */
  lemma ReplaceMember(m: map<string, Json>, t: string, from: Option<string>, v: Json)
    requires Plain(t)
    ensures t in m ==> ApplyOp(Some(JObj(m)), Op("replace", "/" + t, from, v)) == Ok(Some(JObj(m[t := v])))
    ensures t !in m ==> ApplyOp(Some(JObj(m)), Op("replace", "/" + t, from, v)) == Err(NotExist("/" + t))
  {
    OneToken(t);
    WalkOne(JObj(m), t);
  }

  /** `remove /t` on an object deletes key `t`; a missing key does not
      exist. */
  lemma RemoveMember(m: map<string, Json>, t: string, from: Option<string>, v: Json)
    requires Plain(t)
    ensures t in m ==> ApplyOp(Some(JObj(m)), Op("remove", "/" + t, from, v)) == Ok(Some(JObj(m - {t})))
    ensures t !in m ==> ApplyOp(Some(JObj(m)), Op("remove", "/" + t, from, v)) == Err(NotExist("/" + t))
  {
    OneToken(t);
    WalkOne(JObj(m), t);
  }

  /** `test /t` on an object succeeds, leaving it as it is, exactly when the
      member embeds in the expected value; on a mismatch the error is the
      assertion failure or a TypeError. */
  lemma TestMember(m: map<string, Json>, t: string, from: Option<string>, v: Json)
    requires Plain(t)
    ensures var r := ApplyOp(Some(JObj(m)), Op("test", "/" + t, from, v));
      && (t !in m ==> r == Err(NotExist("/" + t)))
      && (t in m ==> (r.Ok? <==> Embeds(m[t], v)))
      && (r.Ok? ==> r == Ok(Some(JObj(m))))
      && (t in m && r.Err? ==> r.error == AssertionFailed || r.error == RuntimeFault)
  {
    OneToken(t);
    WalkOne(JObj(m), t);
  }

  /** Adding a new key and removing it again gives the object back. */
  lemma AddRemoveMember(m: map<string, Json>, t: string, v: Json)
    requires Plain(t) && t !in m
    ensures ApplyAll(Some(JObj(m)), [Op("add", "/" + t, None, v), Op("remove", "/" + t, None, v)]) == Ok(Some(JObj(m)))
  {
    assert m[t := v] - {t} == m;
    AddMember(m, t, None, v);
    RemoveMember(m[t := v], t, None, v);
    ApplyTwo(Some(JObj(m)), Op("add", "/" + t, None, v), Op("remove", "/" + t, None, v), Some(JObj(m[t := v])));
  }

  /** A value just added passes a `test` against itself. */
  lemma AddThenTestMember(m: map<string, Json>, t: string, v: Json)
    requires Plain(t)
    ensures ApplyAll(Some(JObj(m)), [Op("add", "/" + t, None, v), Op("test", "/" + t, None, v)]) == Ok(Some(JObj(m[t := v])))
  {
    AddMember(m, t, None, v);
    EmbedsReflexive(v);
    TestMember(m[t := v], t, None, v);
    ApplyTwo(Some(JObj(m)), Op("add", "/" + t, None, v), Op("test", "/" + t, None, v), Some(JObj(m[t := v])));
  }

  /** `move` from `/a` to `/b` on an object deletes `a` and stores the same
      value under `b`. */
  lemma MoveMember(m: map<string, Json>, a: string, b: string, v: Json)
    requires Plain(a) && Plain(b) && a in m && m[a] != JNull
    ensures ApplyOp(Some(JObj(m)), Op("move", "/" + b, Some("/" + a), v)) == Ok(Some(JObj((m - {a})[b := m[a]])))
  {
    OneToken(a);
    OneToken(b);
    EscapeOne(a);
    WalkOne(JObj(m - {a}), b);
  }

  /** `copy` from `/a` to `/b` on an object stores the spread `{...m[a]}`
      under `b`, which turns an array into an object keyed by index. */
  lemma CopyMember(m: map<string, Json>, a: string, b: string, v: Json)
    requires Plain(a) && Plain(b) && a in m && m[a] != JNull
    ensures ApplyOp(Some(JObj(m)), Op("copy", "/" + b, Some("/" + a), v)) == Ok(Some(JObj(m[b := Spread(Some(m[a]))])))
  {
    OneToken(a);
    OneToken(b);
    EscapeOne(a);
    WalkOne(JObj(m), b);
  }

  /** A `null` at `from` counts as missing: `ref == null` is true of it. */
  lemma MoveOrCopyNull(m: map<string, Json>, a: string, b: string, op: string, v: Json)
    requires Plain(a) && a in m && m[a] == JNull && op in {"move", "copy"}
    ensures ApplyOp(Some(JObj(m)), Op(op, b, Some("/" + a), v)) == Err(NotExist("/" + a))
  {
    OneToken(a);
    EscapeOne(a);
  }

  /** `remove` with the empty path is not the whole document: it walks the
      single empty token and deletes the key `""`. */
  lemma RemoveEmptyPath(m: map<string, Json>, from: Option<string>, v: Json)
    ensures "" in m ==> ApplyOp(Some(JObj(m)), Op("remove", "", from, v)) == Ok(Some(JObj(m - {""})))
    ensures "" !in m ==> ApplyOp(Some(JObj(m)), Op("remove", "", from, v)) == Err(NotExist(""))
  {
    assert RawTokens("") == [""];
    WalkOne(JObj(m), "");
  }

  // ----- single operations on a sequence -----

  /** `add /-` appends. */
  lemma AppendDash(xs: seq<Json>, from: Option<string>, v: Json)
    ensures ApplyOp(Some(JArr(xs)), Op("add", "/-", from, v)) == Ok(Some(JArr(xs + [v])))
  {
    OneToken("-");
    WalkOne(JArr(xs), "-");
  }

  /** `add /t` with a run of digits inserts at `Number(t)` and shifts the
      later elements right. The check is loose: leading zeros pass, and the
      empty token counts as 0. */
  lemma InsertDigits(xs: seq<Json>, t: string, from: Option<string>, v: Json)
    requires AllDigits(t)
    ensures ApplyOp(Some(JArr(xs)), Op("add", "/" + t, from, v)) == Ok(Some(JArr(InsertAt(xs, SpliceStart(t, |xs|), v))))
  {
    DigitsArePlain(t);
    OneToken(t);
    WalkOne(JArr(xs), t);
  }

  /** An `add` index past the end appends, where section 4.1 of RFC 6902
      calls it an error: `splice` clamps its start. */
  lemma AddPastEndAppends(xs: seq<Json>, t: string, from: Option<string>, v: Json)
    requires AllDigits(t) && DigitsValue(t) > |xs|
    ensures ApplyOp(Some(JArr(xs)), Op("add", "/" + t, from, v)) == Ok(Some(JArr(xs + [v])))
  {
    InsertDigits(xs, t, from, v);
    assert InsertAt(xs, |xs|, v) == xs + [v];
  }

  /** `replace /t` on an array overwrites the element at a canonical index
      in range. */
  lemma ReplaceElement(xs: seq<Json>, t: string, from: Option<string>, v: Json)
    requires IsArrayIndex(t) && DigitsValue(t) < |xs|
    ensures ApplyOp(Some(JArr(xs)), Op("replace", "/" + t, from, v)) == Ok(Some(JArr(xs[DigitsValue(t) := v])))
  {
    DigitsArePlain(t);
    OneToken(t);
    WalkOne(JArr(xs), t);
    var spot := Spot([], JArr(xs), t, Some(xs[DigitsValue(t)]), 1);
    EditAtSpot(JArr(xs), Op("replace", "/" + t, from, v), spot, JArr(xs[DigitsValue(t) := v]));
  }

  /** `remove /t` on an array deletes the element at a canonical index in
      range and shifts the later ones left. */
  lemma RemoveElement(xs: seq<Json>, t: string, from: Option<string>, v: Json)
    requires IsArrayIndex(t) && DigitsValue(t) < |xs|
    ensures ApplyOp(Some(JArr(xs)), Op("remove", "/" + t, from, v)) == Ok(Some(JArr(RemoveAt(xs, DigitsValue(t)))))
  {
    DigitsArePlain(t);
    OneToken(t);
    WalkOne(JArr(xs), t);
  }

  /** An array token with a character other than a digit, `-` aside, does
      not exist (`1e3` is refused although `Number` would read it). */
  lemma NonDigitToken(xs: seq<Json>, t: string, op: string, from: Option<string>, v: Json)
    requires Plain(t) && t != "-" && !AllDigits(t)
    requires op in {"add", "replace", "remove", "test"}
    ensures ApplyOp(Some(JArr(xs)), Op(op, "/" + t, from, v)) == Err(NotExist("/" + t))
  {
    OneToken(t);
    WalkOne(JArr(xs), t);
  }

  /** Inserting at an index up to the length and removing at the same index
      gives the array back. */
  lemma AddRemoveElement(xs: seq<Json>, t: string, v: Json)
    requires IsArrayIndex(t) && DigitsValue(t) <= |xs|
    ensures ApplyAll(Some(JArr(xs)), [Op("add", "/" + t, None, v), Op("remove", "/" + t, None, v)]) == Ok(Some(JArr(xs)))
  {
    InsertDigits(xs, t, None, v);
    var ys := InsertAt(xs, DigitsValue(t), v);
    RemoveElement(ys, t, None, v);
    RemoveInsert(xs, DigitsValue(t), v);
    ApplyTwo(Some(JArr(xs)), Op("add", "/" + t, None, v), Op("remove", "/" + t, None, v), Some(JArr(ys)));
  }

  /** The source of a `copy` from an element of an array. */
  lemma CopySource(xs: seq<Json>, a: string, b: string, v: Json)
    requires IsArrayIndex(a) && DigitsValue(a) < |xs| && xs[DigitsValue(a)] != JNull
    ensures Source(Some(JArr(xs)), Op("copy", "/" + b, Some("/" + a), v))
         == Ok((Some(JArr(xs)), Spread(Some(xs[DigitsValue(a)]))))
  {
    DigitsArePlain(a);
    OneToken(a);
    EscapeOne(a);
    assert From(Some(JArr(xs)), [a], 0, "/" + a, false) == Ok((JArr(xs), Spread(Some(xs[DigitsValue(a)]))));
  }

  /** `copy` into an array assigns the element (`pointer[component] =
      target`) instead of inserting it, and stores the spread of the source. */
  lemma CopyElement(xs: seq<Json>, a: string, b: string, v: Json)
    requires IsArrayIndex(a) && DigitsValue(a) < |xs| && xs[DigitsValue(a)] != JNull
    requires IsArrayIndex(b) && DigitsValue(b) < |xs|
    ensures ApplyOp(Some(JArr(xs)), Op("copy", "/" + b, Some("/" + a), v))
         == Ok(Some(JArr(xs[DigitsValue(b) := Spread(Some(xs[DigitsValue(a)]))])))
  {
    CopySource(xs, a, b, v);
    DigitsArePlain(b);
    OneToken(b);
    WalkOne(JArr(xs), b);
  }

  // ----- the whole document, unknown operations, banned tokens -----

  /** With the empty path, `add` and `replace` return the operation's value,
      a successful `test` returns it too, and `move` and `copy` return the
      target resolved from `from`. */
  lemma WholeDocument(acc: Option<Json>, item: Op)
    requires item.path == "" && item.op in Operations && item.op != "remove"
    ensures item.op in {"add", "replace"} ==> ApplyOp(acc, item) == Ok(Some(item.value))
    ensures item.op == "test" ==> (ApplyOp(acc, item).Ok? <==> acc.Some? && Embeds(acc.value, item.value))
    ensures item.op == "test" && ApplyOp(acc, item).Ok? ==> ApplyOp(acc, item) == Ok(Some(item.value))
    ensures item.op in {"move", "copy"} && Source(acc, item).Ok? ==>
              ApplyOp(acc, item) == Ok(Some(Source(acc, item).value.1))
  {
  }

  /** An unknown operation leaves `undefined` behind, and every known
      operation at a non-empty path then throws. */
  lemma UndefinedAccumulator(acc: Option<Json>, unknown: Op, item: Op)
    requires unknown.op !in Operations
    requires item.op in Operations && item.path != ""
    ensures ApplyOp(acc, unknown) == Ok(None)
    ensures ApplyAll(acc, [unknown, item]).Err?
  {
    ApplyTwo(acc, unknown, item, None);
    UndefinedFails(item);
  }

  /** Every known operation at a non-empty path throws on an `undefined`
      accumulator. */
  lemma UndefinedFails(item: Op)
    requires item.op in Operations && item.path != ""
    ensures ApplyOp(None, item).Err?
  {
    if item.op in {"move", "copy"} {
      assert Source(None, item).Err?;
    } else {
      assert Source(None, item) == Ok((None, JNull));
    }
  }

  /** A `test` at a non-empty path leaves the accumulator as it is. */
  lemma TestKeepsDocument(acc: Option<Json>, item: Op)
    requires item.op == "test" && item.path != ""
    ensures ApplyOp(acc, item).Ok? ==> ApplyOp(acc, item) == Ok(acc)
  {
  }

  /** A banned token anywhere in `from` fails a move or copy before anything
      is read. */
  lemma BannedFrom(acc: Option<Json>, item: Op)
    requires item.op in {"move", "copy"} && item.from.Some?
    requires EscapeAll(RawTokens(item.from.value)).Err?
    ensures ApplyOp(acc, item) == Err(EscapeAll(RawTokens(item.from.value)).error)
    ensures ApplyOp(acc, item).error.Banned?
  {
  }

  /** A banned first token of `path` fails every operation that walks it. */
  lemma BannedPathHead(acc: Option<Json>, item: Op)
    requires item.op in {"add", "replace", "remove", "test"} && item.path != ""
    requires Unescape(RawTokens(item.path)[0]) in BannedKeys
    ensures ApplyOp(acc, item) == Err(Banned(RawTokens(item.path)[0]))
  {
  }

  // ----- paths of several tokens -----

  /** Every key names an element of a container, from `root` down. */
  predicate Reaches(root: Json, keys: seq<string>)
    decreases |keys|
  {
    keys == [] || (HasChild(root, keys[0]) && Reaches(Child(root, keys[0]), keys[1..]))
  }

  /** Reading a reachable path one key at a time. */
  lemma {:induction false} AtStep(root: Json, keys: seq<string>, i: nat)
    requires Reaches(root, keys) && i < |keys|
    ensures At(root, keys[..i]).Some?
    ensures HasChild(At(root, keys[..i]).value, keys[i])
    ensures At(root, keys[..i + 1]) == Some(Child(At(root, keys[..i]).value, keys[i]))
    decreases i
  {
    var c := Child(root, keys[0]);
    if i == 0 {
      assert keys[..1] == [keys[0]];
      assert keys[..1][1..] == [];
    } else {
      AtStep(c, keys[1..], i - 1);
      assert keys[..i][1..] == keys[1..][..i - 1];
      assert keys[..i + 1][1..] == keys[1..][..i];
    }
  }

  /** A reachable path reads a value. */
  lemma {:induction false} ReachesAt(root: Json, keys: seq<string>)
    requires Reaches(root, keys)
    ensures At(root, keys).Some?
    decreases |keys|
  {
    if keys != [] {
      ReachesAt(Child(root, keys[0]), keys[1..]);
    }
  }

  /** Reading one more key after a path. */
  lemma {:induction false} AtSnoc(root: Json, keys: seq<string>, k: string)
    requires Reaches(root, keys)
    ensures At(root, keys).Some?
    ensures At(root, keys + [k]) == (match Member(At(root, keys).value, k) case Ok(Some(c)) => Some(c) case _ => None)
    decreases |keys|
  {
    ReachesAt(root, keys);
    if keys == [] {
      assert keys + [k] == [k];
      assert [k][1..] == [];
    } else {
      AtSnoc(Child(root, keys[0]), keys[1..], k);
      assert (keys + [k])[1..] == keys[1..] + [k];
    }
  }

  /** Putting a value at a reachable position and reading it back gives it,
      and the position stays reachable. */
  lemma {:induction false} AtPut(root: Json, keys: seq<string>, x: Json)
    requires Reaches(root, keys)
    ensures Reaches(Put(root, keys, x), keys)
    ensures At(Put(root, keys, x), keys) == Some(x)
    decreases |keys|
  {
    if keys != [] {
      AtPut(Child(root, keys[0]), keys[1..], x);
    }
  }

  /** Putting back the value found at a position changes nothing. */
  lemma {:induction false} PutAt(root: Json, keys: seq<string>)
    requires Reaches(root, keys)
    ensures At(root, keys).Some? && Put(root, keys, At(root, keys).value) == root
    decreases |keys|
  {
    ReachesAt(root, keys);
    if keys != [] {
      var k := keys[0];
      PutAt(Child(root, k), keys[1..]);
      if root.JObj? {
        assert root.props[k := root.props[k]] == root.props;
      } else {
        assert root.items[DigitsValue(k) := root.items[DigitsValue(k)]] == root.items;
      }
    }
  }

  /** A second put at the same position overrides the first. */
  lemma {:induction false} PutPut(root: Json, keys: seq<string>, x: Json, y: Json)
    requires Reaches(root, keys)
    ensures Put(Put(root, keys, x), keys, y) == Put(root, keys, y)
    decreases |keys|
  {
    if keys != [] {
      var k := keys[0];
      PutPut(Child(root, k), keys[1..], x, y);
      if root.JObj? {
        assert root.props[k := Put(Child(root, k), keys[1..], x)][k := Put(Child(root, k), keys[1..], y)]
            == root.props[k := Put(Child(root, k), keys[1..], y)];
      } else {
        var i := DigitsValue(k);
        assert root.items[i := Put(Child(root, k), keys[1..], x)][i := Put(Child(root, k), keys[1..], y)]
            == root.items[i := Put(Child(root, k), keys[1..], y)];
      }
    }
  }

  /** `path` decodes to `toks`; the walk goes through containers, with no
      empty token, up to position `s`, and stops there: `s` is the last
      token, or the element it names is missing. */
  predicate StopsAt(root: Json, path: string, toks: seq<string>, s: nat)
  {
    && EscapeAll(RawTokens(path)) == Ok(toks)
    && s < |toks|
    && (forall q :: 0 <= q < s ==> toks[q] != "")
    && Reaches(root, toks[..s])
    && At(root, toks[..s]).Some? && At(root, toks[..s]).value != JNull
    && (s + 1 == |toks| || Member(At(root, toks[..s]).value, toks[s]) == Ok(None))
  }

  /** The `i`-th decoded token of a pointer that decodes. */
  lemma EscapedToken(comps: seq<string>, toks: seq<string>, i: nat)
    requires EscapeAll(comps) == Ok(toks) && i < |comps|
    ensures i < |toks| && EscapeComponent(comps[i]) == Ok(toks[i])
  {
    assert EscapeComponent(comps[i]).Ok?;
    assert toks[i] == Unescape(comps[i]);
  }

  /** One step of the walk into an element that exists. */
  lemma WalkStep(root: Json, comps: seq<string>, i: nat, keys: seq<string>, p: Json, k: string, c: Json)
    requires i + 1 < |comps| && EscapeComponent(comps[i]) == Ok(k) && k != ""
    requires Member(p, k) == Ok(Some(c))
    ensures Walk(Some(root), Decoded(comps), i, keys, Some(p)) == Walk(Some(root), Decoded(comps), i + 1, keys + [k], Some(c))
  {
  }

  /** The step where the walk stops: the last token, or a missing element. */
  lemma WalkStop(root: Json, comps: seq<string>, i: nat, keys: seq<string>, p: Json, k: string)
    requires i < |comps| && EscapeComponent(comps[i]) == Ok(k) && p != JNull
    requires i + 1 == |comps| || Member(p, k) == Ok(None)
    ensures Member(p, k).Ok?
    ensures Walk(Some(root), Decoded(comps), i, keys, Some(p)) == Ok(Spot(keys, p, k, Member(p, k).value, i + 1))
  {
  }

  /** The walk from position `i` on ends at position `s`, at the value
      `At(root, toks[..s])`. */
  lemma {:induction false} WalkUntil(root: Json, comps: seq<string>, toks: seq<string>, i: nat, s: nat)
    requires i <= s < |toks| == |comps|
    requires forall q :: i <= q <= s ==> EscapeComponent(comps[q]) == Ok(toks[q])
    requires forall q :: i <= q < s ==> toks[q] != ""
    requires Reaches(root, toks[..s])
    requires At(root, toks[..s]).Some? && At(root, toks[..s]).value != JNull
    requires s + 1 == |toks| || Member(At(root, toks[..s]).value, toks[s]) == Ok(None)
    ensures At(root, toks[..i]).Some?
    ensures Walk(Some(root), Decoded(comps), i, toks[..i], At(root, toks[..i]))
         == Ok(Spot(toks[..s], At(root, toks[..s]).value, toks[s], Member(At(root, toks[..s]).value, toks[s]).value, s + 1))
    decreases s - i
  {
    if i < s {
      AtStep(root, toks[..s], i);
      assert toks[..s][..i] == toks[..i];
      assert toks[..s][..i + 1] == toks[..i + 1];
      TakeOneMore(toks, i);
      var p := At(root, toks[..i]).value;
      var c := Child(p, toks[i]);
      assert At(root, toks[..i + 1]) == Some(c);
      WalkStep(root, comps, i, toks[..i], p, toks[i], c);
      WalkUntil(root, comps, toks, i + 1, s);
    } else {
      var p := At(root, toks[..s]).value;
      assert At(root, toks[..i]) == Some(p);
      WalkStop(root, comps, i, toks[..i], p, toks[s]);
    }
  }

  /** Without a restart the walk goes down the decoded tokens in order: it
      stops after `i` tokens, at the container the first `i - 1` of them
      lead to, having read the last of them there. */
  lemma {:induction false} WalkKeys(root: Option<Json>, decoded: seq<Result<string>>, i: nat, keys: seq<string>, pointer: Option<Json>)
    requires i < |decoded| && NoRestart(decoded) && Walk(root, decoded, i, keys, pointer).Ok?
    requires |keys| == i && forall t :: 0 <= t < i ==> decoded[t] == Ok(keys[t])
    ensures var s := Walk(root, decoded, i, keys, pointer).value;
            && |s.keys| + 1 == s.i && (forall t :: 0 <= t < |s.keys| ==> decoded[t] == Ok(s.keys[t]))
            && decoded[|s.keys|] == Ok(s.component)
    decreases |decoded| - i
  {
    var turn := Step(root, decoded, i, keys, pointer).value;
    if turn.Go? {
      assert forall t :: 0 <= t < i ==> turn.keys[t] == keys[t];
      WalkKeys(root, decoded, i + 1, turn.keys, turn.pointer);
    }
  }

  /** The walk of a whole path that stops at `s`. */
  lemma WalkPath(root: Json, path: string, toks: seq<string>, s: nat)
    requires StopsAt(root, path, toks, s)
    ensures Walk(Some(root), Decoded(RawTokens(path)), 0, [], Some(root))
         == Ok(Spot(toks[..s], At(root, toks[..s]).value, toks[s], Member(At(root, toks[..s]).value, toks[s]).value, s + 1))
  {
    var comps := RawTokens(path);
    forall q | 0 <= q < |comps| ensures EscapeComponent(comps[q]) == Ok(toks[q]) {
      EscapedToken(comps, toks, q);
    }
    WalkUntil(root, comps, toks, 0, s);
    assert toks[..0] == [];
  }

  /** A missing element before the last token makes every operation but
      `move` and `copy` fail with the path. */
  lemma MissingOnTheWay(root: Json, item: Op, toks: seq<string>, s: nat)
    requires item.op in {"add", "replace", "remove", "test"} && item.path != ""
    requires StopsAt(root, item.path, toks, s) && s + 1 < |toks|
    ensures ApplyOp(Some(root), item) == Err(NotExist(item.path))
  {
    WalkPath(root, item.path, toks, s);
    var comps := RawTokens(item.path);
    var spot := Walk(Some(root), Decoded(comps), 0, [], Some(root)).value;
    assert spot.i < |comps| && spot.child.None?;
    CheckFailsAtSpot(root, item, spot);
  }

  // ----- the operations at the end of a path -----

  /** A non-empty `path` whose walk reaches the container that holds its
      last token. */
  predicate Reaching(root: Json, path: string, toks: seq<string>)
  {
    path != "" && |toks| > 0 && StopsAt(root, path, toks, |toks| - 1)
  }

  /** The keys from the root to the parent of the last token. */
  function ParentKeys(toks: seq<string>): seq<string>
    requires |toks| > 0
  {
    toks[..|toks| - 1]
  }

  /** The container that holds the last token. */
  function Parent(root: Json, path: string, toks: seq<string>): Json
    requires Reaching(root, path, toks)
  {
    At(root, ParentKeys(toks)).value
  }

  /** Where the walk of a reaching path stops. */
  function LastSpot(root: Json, path: string, toks: seq<string>): Spot
    requires Reaching(root, path, toks)
  {
    var p := Parent(root, path, toks);
    Spot(ParentKeys(toks), p, toks[|toks| - 1], Member(p, toks[|toks| - 1]).value, |toks|)
  }

  /** The walk of a reaching path stops at its parent, and the value it finds
      there is the one at the path. */
  lemma WalkLast(root: Json, path: string, toks: seq<string>)
    requires Reaching(root, path, toks)
    ensures |RawTokens(path)| == |toks|
    ensures Walk(Some(root), Decoded(RawTokens(path)), 0, [], Some(root)) == Ok(LastSpot(root, path, toks))
    ensures LastSpot(root, path, toks).child == At(root, toks)
    ensures Reaches(root, ParentKeys(toks))
  {
    WalkPath(root, path, toks, |toks| - 1);
    AtSnoc(root, ParentKeys(toks), toks[|toks| - 1]);
    SplitLast(toks);
  }

  /** A prefix grows by the next element. */
  lemma TakeOneMore<T>(s: seq<T>, i: nat)
    requires i < |s|
    ensures s[..i] + [s[i]] == s[..i + 1]
  {
  }

  /** A non-empty sequence is its front and its last element. */
  lemma SplitLast<T>(s: seq<T>)
    requires |s| > 0
    ensures s == s[..|s| - 1] + [s[|s| - 1]]
  {
  }

  /** An `add`, `replace` or `remove` whose walk passed the checks and whose
      edit gave `q` puts `q` back along the walk's keys. */
  lemma EditAtSpot(root: Json, item: Op, spot: Spot, q: Json)
    requires item.op in {"add", "replace", "remove"} && item.path != ""
    requires Walk(Some(root), Decoded(RawTokens(item.path)), 0, [], Some(root)) == Ok(spot)
    requires Check(item.op, item.path, spot, |RawTokens(item.path)|).Ok?
    requires Checked(item.op, spot) && Edit(item.op, spot, item.value) == Ok(q)
    ensures ApplyOp(Some(root), item) == Ok(Some(Put(root, spot.keys, q)))
  {
  }

  /** An `add`, `replace` or `remove` whose edit throws fails with it. */
  lemma EditFailsAtSpot(root: Json, item: Op, spot: Spot)
    requires item.op in {"add", "replace", "remove"} && item.path != ""
    requires Walk(Some(root), Decoded(RawTokens(item.path)), 0, [], Some(root)) == Ok(spot)
    requires Check(item.op, item.path, spot, |RawTokens(item.path)|).Ok?
    requires Checked(item.op, spot) && Edit(item.op, spot, item.value).Err?
    ensures ApplyOp(Some(root), item) == Err(RuntimeFault)
  {
  }

  /** An operation whose walk fails the checks fails with the path. */
  lemma CheckFailsAtSpot(root: Json, item: Op, spot: Spot)
    requires item.op in {"add", "replace", "remove", "test"} && item.path != ""
    requires Walk(Some(root), Decoded(RawTokens(item.path)), 0, [], Some(root)) == Ok(spot)
    requires Check(item.op, item.path, spot, |RawTokens(item.path)|).Err?
    ensures ApplyOp(Some(root), item) == Err(NotExist(item.path))
  {
  }

  /** A `test` whose walk passed the checks compares the value it found and
      keeps the document. */
  lemma TestAtSpot(root: Json, item: Op, spot: Spot)
    requires item.op == "test" && item.path != ""
    requires Walk(Some(root), Decoded(RawTokens(item.path)), 0, [], Some(root)) == Ok(spot)
    requires Check(item.op, item.path, spot, |RawTokens(item.path)|).Ok?
    ensures var t := AssertEquality(spot.child, item.value);
            ApplyOp(Some(root), item) == if t.Ok? then Ok(Some(root)) else Err(t.error)
  {
  }

  /** The walk and the edit of an `add` under an object or a scalar. */
  lemma AddFacts(root: Json, path: string, toks: seq<string>, v: Json)
    requires Reaching(root, path, toks) && !Parent(root, path, toks).JArr?
    ensures var spot, n := LastSpot(root, path, toks), |RawTokens(path)|;
            && Walk(Some(root), Decoded(RawTokens(path)), 0, [], Some(root)) == Ok(spot)
            && Check("add", path, spot, n).Ok? && Checked("add", spot)
            && (spot.pointer.JObj? ==> Edit("add", spot, v) == Ok(JObj(spot.pointer.props[toks[|toks| - 1] := v])))
            && (!spot.pointer.JObj? ==> Edit("add", spot, v).Err?)
  {
    WalkLast(root, path, toks);
    CheckedSpot("add", path, LastSpot(root, path, toks), |toks|);
  }

  /** `add` at a path whose parent exists and is not an array: an object
      gets the member, and a scalar parent throws. */
  lemma AddAtPath(root: Json, path: string, toks: seq<string>, from: Option<string>, v: Json)
    requires Reaching(root, path, toks) && !Parent(root, path, toks).JArr?
    ensures var p, r := Parent(root, path, toks), ApplyOp(Some(root), Op("add", path, from, v));
            && (p.JObj? ==> r == Ok(Some(Put(root, ParentKeys(toks), JObj(p.props[toks[|toks| - 1] := v])))))
            && (!p.JObj? ==> r == Err(RuntimeFault))
  {
    AddFacts(root, path, toks, v);
    var spot := LastSpot(root, path, toks);
    if spot.pointer.JObj? {
      EditAtSpot(root, Op("add", path, from, v), spot, JObj(spot.pointer.props[toks[|toks| - 1] := v]));
    } else {
      EditFailsAtSpot(root, Op("add", path, from, v), spot);
    }
  }

  /** The walk and the edit of an `add` under an array. */
  lemma AddArrayFacts(root: Json, path: string, toks: seq<string>, v: Json)
    requires Reaching(root, path, toks) && Parent(root, path, toks).JArr?
    requires toks[|toks| - 1] == "-" || AllDigits(toks[|toks| - 1])
    ensures var spot, n, last := LastSpot(root, path, toks), |RawTokens(path)|, toks[|toks| - 1];
            var xs := spot.pointer.items;
            && Walk(Some(root), Decoded(RawTokens(path)), 0, [], Some(root)) == Ok(spot)
            && Check("add", path, spot, n).Ok? && Checked("add", spot)
            && Edit("add", spot, v) == Ok(JArr(if last == "-" then xs + [v] else InsertAt(xs, SpliceStart(last, |xs|), v)))
  {
    WalkLast(root, path, toks);
    CheckedSpot("add", path, LastSpot(root, path, toks), |toks|);
  }

  /** `add` at a path whose parent is an array: `-` appends and digits
      splice the value in, clamped to the length. */
  lemma AddAtArrayPath(root: Json, path: string, toks: seq<string>, from: Option<string>, v: Json)
    requires Reaching(root, path, toks) && Parent(root, path, toks).JArr?
    requires toks[|toks| - 1] == "-" || AllDigits(toks[|toks| - 1])
    ensures var last, xs := toks[|toks| - 1], Parent(root, path, toks).items;
            var r := ApplyOp(Some(root), Op("add", path, from, v));
            r == Ok(Some(Put(root, ParentKeys(toks), JArr(if last == "-" then xs + [v] else InsertAt(xs, SpliceStart(last, |xs|), v)))))
  {
    AddArrayFacts(root, path, toks, v);
    var spot, last := LastSpot(root, path, toks), toks[|toks| - 1];
    var xs := spot.pointer.items;
    EditAtSpot(root, Op("add", path, from, v), spot,
               JArr(if last == "-" then xs + [v] else InsertAt(xs, SpliceStart(last, |xs|), v)));
  }

  /** Under an array, a last token that is neither `-` nor a run of digits
      does not exist, whatever the operation. */
  lemma NonDigitAtArrayPath(root: Json, item: Op, toks: seq<string>)
    requires item.op in {"add", "replace", "remove", "test"}
    requires Reaching(root, item.path, toks) && Parent(root, item.path, toks).JArr?
    requires toks[|toks| - 1] != "-" && !AllDigits(toks[|toks| - 1])
    ensures ApplyOp(Some(root), item) == Err(NotExist(item.path))
  {
    WalkLast(root, item.path, toks);
    CheckFailsAtSpot(root, item, LastSpot(root, item.path, toks));
  }

  /** The walk and the failed check of an operation other than `add` at a
      path where nothing is found. */
  lemma MissingFacts(root: Json, op: string, path: string, toks: seq<string>)
    requires op in {"replace", "remove", "test"}
    requires Reaching(root, path, toks) && At(root, toks).None?
    ensures Walk(Some(root), Decoded(RawTokens(path)), 0, [], Some(root)) == Ok(LastSpot(root, path, toks))
    ensures Check(op, path, LastSpot(root, path, toks), |RawTokens(path)|).Err?
  {
    WalkLast(root, path, toks);
  }

  /** `replace`, `remove` and `test` at a path where nothing is found fail
      with the path. */
  lemma MissingAtPath(root: Json, item: Op, toks: seq<string>)
    requires item.op in {"replace", "remove", "test"}
    requires Reaching(root, item.path, toks) && At(root, toks).None?
    ensures ApplyOp(Some(root), item) == Err(NotExist(item.path))
  {
    MissingFacts(root, item.op, item.path, toks);
    CheckFailsAtSpot(root, item, LastSpot(root, item.path, toks));
  }

  /** Setting a member of an object reached by `keys` and reading it back
      along `keys + [k]` gives the value set. */
  lemma {:induction false} PutMemberAt(root: Json, keys: seq<string>, m: map<string, Json>, k: string, v: Json)
    requires Reaches(root, keys) && At(root, keys) == Some(JObj(m))
    ensures At(Put(root, keys, JObj(m[k := v])), keys + [k]) == Some(v)
  {
    AtPut(root, keys, JObj(m[k := v]));
    AtSnoc(Put(root, keys, JObj(m[k := v])), keys, k);
  }

  /** A path is reachable when its parent is and the parent has the last
      element. */
  lemma {:induction false} ReachesSnoc(root: Json, keys: seq<string>, k: string)
    requires Reaches(root, keys)
    ensures At(root, keys).Some?
    ensures Reaches(root, keys + [k]) <==> HasChild(At(root, keys).value, k)
    decreases |keys|
  {
    ReachesAt(root, keys);
    if keys == [] {
      assert [k][1..] == [];
    } else {
      ReachesSnoc(Child(root, keys[0]), keys[1..], k);
      assert (keys + [k])[1..] == keys[1..] + [k];
    }
  }

  /** Putting at `keys + [k]` is setting `k` in the container at `keys`. */
  lemma {:induction false} PutSnoc(root: Json, keys: seq<string>, k: string, x: Json)
    requires Reaches(root, keys)
    ensures At(root, keys).Some?
    ensures Put(root, keys + [k], x) == Put(root, keys, Set(At(root, keys).value, k, x))
    decreases |keys|
  {
    ReachesAt(root, keys);
    if keys == [] {
      assert [k][1..] == [];
    } else {
      PutSnoc(Child(root, keys[0]), keys[1..], k, x);
      assert (keys + [k])[1..] == keys[1..] + [k];
    }
  }

  /** On a path that exists, the walk finds the element at the last token. */
  lemma LastExists(root: Json, path: string, toks: seq<string>)
    requires Reaching(root, path, toks) && Reaches(root, toks)
    ensures HasChild(Parent(root, path, toks), toks[|toks| - 1])
    ensures LastSpot(root, path, toks).child == Some(Child(Parent(root, path, toks), toks[|toks| - 1]))
  {
    var keys, last := ParentKeys(toks), toks[|toks| - 1];
    assert toks == keys + [last];
    ReachesSnoc(root, keys, last);
  }

  /** The walk, the edit and the lens facts of a `replace` at a path that
      exists. */
  lemma ReplaceFacts(root: Json, path: string, toks: seq<string>, v: Json)
    requires Reaching(root, path, toks) && Reaches(root, toks)
    ensures var spot, n := LastSpot(root, path, toks), |RawTokens(path)|;
            && Walk(Some(root), Decoded(RawTokens(path)), 0, [], Some(root)) == Ok(spot)
            && Check("replace", path, spot, n).Ok? && Checked("replace", spot)
            && Edit("replace", spot, v) == Ok(Set(spot.pointer, toks[|toks| - 1], v))
            && Put(root, toks, v) == Put(root, spot.keys, Set(spot.pointer, toks[|toks| - 1], v))
            && At(Put(root, toks, v), toks) == Some(v)
  {
    WalkLast(root, path, toks);
    LastExists(root, path, toks);
    CheckedSpot("replace", path, LastSpot(root, path, toks), |toks|);
    SplitLast(toks);
    PutSnoc(root, ParentKeys(toks), toks[|toks| - 1], v);
    AtPut(root, toks, v);
  }

  /** `replace` at a path that exists writes the value there and nowhere
      else; reading the path back gives the value. */
  lemma ReplaceAtPath(root: Json, path: string, toks: seq<string>, from: Option<string>, v: Json)
    requires Reaching(root, path, toks) && Reaches(root, toks)
    ensures ApplyOp(Some(root), Op("replace", path, from, v)) == Ok(Some(Put(root, toks, v)))
    ensures At(Put(root, toks, v), toks) == Some(v)
  {
    ReplaceFacts(root, path, toks, v);
    var spot := LastSpot(root, path, toks);
    EditAtSpot(root, Op("replace", path, from, v), spot, Set(spot.pointer, toks[|toks| - 1], v));
  }

  /** The walk and the edit of a `remove` at a path that exists. */
  lemma RemoveFacts(root: Json, path: string, toks: seq<string>, v: Json)
    requires Reaching(root, path, toks) && Reaches(root, toks)
    ensures var spot, n, last := LastSpot(root, path, toks), |RawTokens(path)|, toks[|toks| - 1];
            && Walk(Some(root), Decoded(RawTokens(path)), 0, [], Some(root)) == Ok(spot)
            && Check("remove", path, spot, n).Ok? && Checked("remove", spot)
            && (spot.pointer.JObj? || spot.pointer.JArr?)
            && (spot.pointer.JObj? ==> Edit("remove", spot, v) == Ok(JObj(spot.pointer.props - {last})))
            && (spot.pointer.JArr? ==> IsArrayIndex(last) && DigitsValue(last) < |spot.pointer.items|)
            && (spot.pointer.JArr? ==> Edit("remove", spot, v) == Ok(JArr(RemoveAt(spot.pointer.items, DigitsValue(last)))))
  {
    WalkLast(root, path, toks);
    LastExists(root, path, toks);
    CheckedSpot("remove", path, LastSpot(root, path, toks), |toks|);
  }

  /** `remove` at a path that exists deletes the element from its parent:
      the key of an object, the index of an array with the later elements
      shifted left. */
  lemma RemoveAtPath(root: Json, path: string, toks: seq<string>, from: Option<string>, v: Json)
    requires Reaching(root, path, toks) && Reaches(root, toks)
    ensures var last, p := toks[|toks| - 1], Parent(root, path, toks);
            var r := ApplyOp(Some(root), Op("remove", path, from, v));
            && (p.JObj? ==> r == Ok(Some(Put(root, ParentKeys(toks), JObj(p.props - {last})))))
            && (p.JArr? ==> IsArrayIndex(last) && DigitsValue(last) < |p.items|)
            && (p.JArr? ==> r == Ok(Some(Put(root, ParentKeys(toks), JArr(RemoveAt(p.items, DigitsValue(last)))))))
  {
    RemoveFacts(root, path, toks, v);
    var spot, last := LastSpot(root, path, toks), toks[|toks| - 1];
    if spot.pointer.JObj? {
      EditAtSpot(root, Op("remove", path, from, v), spot, JObj(spot.pointer.props - {last}));
    } else {
      EditAtSpot(root, Op("remove", path, from, v), spot, JArr(RemoveAt(spot.pointer.items, DigitsValue(last))));
    }
  }

  /** The walk and the checks of a `test` at a reaching path. */
  lemma TestFacts(root: Json, path: string, toks: seq<string>)
    requires Reaching(root, path, toks)
    ensures var spot, n := LastSpot(root, path, toks), |RawTokens(path)|;
            && Walk(Some(root), Decoded(RawTokens(path)), 0, [], Some(root)) == Ok(spot)
            && spot.child == At(root, toks)
            && (Check("test", path, spot, n).Ok? <==> spot.child.Some?)
  {
    WalkLast(root, path, toks);
    var spot := LastSpot(root, path, toks);
    assert spot.pointer.JArr? && spot.child.Some? ==> IsArrayIndex(spot.component);
    CheckTest(path, spot, |RawTokens(path)|);
  }

  /** At the last token, the checks let a `test` through exactly when a
      value was found. */
  lemma CheckTest(path: string, spot: Spot, n: nat)
    requires spot.i == n && (spot.pointer.JArr? && spot.child.Some? ==> IsArrayIndex(spot.component))
    ensures Check("test", path, spot, n).Ok? <==> spot.child.Some?
  {
  }

  /** `test` at a path succeeds exactly when a value is there and the
      value embeds the operation's value; it then changes nothing, and it
      fails with the path when nothing is there. */
  lemma TestAtPath(root: Json, path: string, toks: seq<string>, from: Option<string>, v: Json)
    requires Reaching(root, path, toks)
    ensures var r := ApplyOp(Some(root), Op("test", path, from, v));
            && (r.Ok? <==> At(root, toks).Some? && Embeds(At(root, toks).value, v))
            && (r.Ok? ==> r == Ok(Some(root)))
            && (At(root, toks).None? ==> r == Err(NotExist(path)))
  {
    TestFacts(root, path, toks);
    var spot := LastSpot(root, path, toks);
    if spot.child.Some? {
      TestAtSpot(root, Op("test", path, from, v), spot);
    } else {
      CheckFailsAtSpot(root, Op("test", path, from, v), spot);
    }
  }

  /** After adding a member under an object, the path still reaches, and
      the member is found there. */
  lemma AddedMember(root: Json, path: string, toks: seq<string>, v: Json)
    requires Reaching(root, path, toks) && Parent(root, path, toks).JObj?
    ensures var m := Parent(root, path, toks).props;
            var root' := Put(root, ParentKeys(toks), JObj(m[toks[|toks| - 1] := v]));
            && Reaching(root', path, toks)
            && Parent(root', path, toks) == JObj(m[toks[|toks| - 1] := v])
            && At(root', toks) == Some(v)
  {
    var keys, last := ParentKeys(toks), toks[|toks| - 1];
    var m := Parent(root, path, toks).props;
    ReachingPut(root, path, toks, JObj(m[last := v]));
    PutMemberAt(root, keys, m, last, v);
    assert toks == keys + [last];
  }

  /** Putting a container in place of the parent of a reaching path keeps
      the path reaching, with the new container as its parent. */
  lemma ReachingPut(root: Json, path: string, toks: seq<string>, p: Json)
    requires Reaching(root, path, toks) && p != JNull
    ensures Reaching(Put(root, ParentKeys(toks), p), path, toks)
    ensures Parent(Put(root, ParentKeys(toks), p), path, toks) == p
  {
    AtPut(root, ParentKeys(toks), p);
  }

  /** Adding a member under an object and testing for it at the same path
      succeeds, and the test changes nothing. */
  lemma AddThenTestAtPath(root: Json, path: string, toks: seq<string>, v: Json)
    requires Reaching(root, path, toks) && Parent(root, path, toks).JObj?
    ensures var m := Parent(root, path, toks).props;
            var r := ApplyAll(Some(root), [Op("add", path, None, v), Op("test", path, None, v)]);
            r == Ok(Some(Put(root, ParentKeys(toks), JObj(m[toks[|toks| - 1] := v]))))
  {
    var m := Parent(root, path, toks).props;
    var root' := Put(root, ParentKeys(toks), JObj(m[toks[|toks| - 1] := v]));
    AddAtPath(root, path, toks, None, v);
    AddedMember(root, path, toks, v);
    TestAtPath(root', path, toks, None, v);
    EmbedsReflexive(v);
    ApplyTwo(Some(root), Op("add", path, None, v), Op("test", path, None, v), Some(root'));
  }

  /** Setting a new member of an object reached by `keys` makes `keys + [k]`
      reachable, and deleting it again gives the document back. */
  lemma PutNewMemberBack(root: Json, keys: seq<string>, m: map<string, Json>, k: string, v: Json)
    requires Reaches(root, keys) && At(root, keys) == Some(JObj(m)) && k !in m
    ensures Reaches(Put(root, keys, JObj(m[k := v])), keys + [k])
    ensures Put(Put(root, keys, JObj(m[k := v])), keys, JObj(m[k := v] - {k})) == root
  {
    var root' := Put(root, keys, JObj(m[k := v]));
    AtPut(root, keys, JObj(m[k := v]));
    ReachesSnoc(root', keys, k);
    assert m[k := v] - {k} == m;
    PutPut(root, keys, JObj(m[k := v]), JObj(m));
    PutAt(root, keys);
  }

  /** Adding a new member under an object leaves a path that reaches it, and
      deleting the member from the new parent gives the document back. */
  lemma AddedNewMember(root: Json, path: string, toks: seq<string>, v: Json)
    requires Reaching(root, path, toks) && Parent(root, path, toks).JObj?
    requires toks[|toks| - 1] !in Parent(root, path, toks).props
    ensures var keys, last, m := ParentKeys(toks), toks[|toks| - 1], Parent(root, path, toks).props;
            var root' := Put(root, keys, JObj(m[last := v]));
            && Reaches(root', toks)
            && Put(root', keys, JObj(m[last := v] - {last})) == root
  {
    var keys, last := ParentKeys(toks), toks[|toks| - 1];
    var m := Parent(root, path, toks).props;
    assert Reaches(root, keys) && At(root, keys) == Some(JObj(m));
    PutNewMemberBack(root, keys, m, last, v);
    assert toks == keys + [last];
  }

  /** Adding a new member under an object and removing it at the same path
      gives the document back. */
  lemma AddRemoveAtPath(root: Json, path: string, toks: seq<string>, v: Json)
    requires Reaching(root, path, toks) && Parent(root, path, toks).JObj?
    requires toks[|toks| - 1] !in Parent(root, path, toks).props
    ensures ApplyAll(Some(root), [Op("add", path, None, v), Op("remove", path, None, v)]) == Ok(Some(root))
  {
    var m := Parent(root, path, toks).props;
    var root' := Put(root, ParentKeys(toks), JObj(m[toks[|toks| - 1] := v]));
    AddAtPath(root, path, toks, None, v);
    AddedMember(root, path, toks, v);
    AddedNewMember(root, path, toks, v);
    RemoveAtPath(root', path, toks, None, v);
    ApplyTwo(Some(root), Op("add", path, None, v), Op("remove", path, None, v), Some(root'));
  }

  // ----- move and copy from any depth -----

  /** The container `p` without its element at `k`: an array closes the gap
      (`splice`), an object loses the key (`delete`). */
  function Removed(p: Json, k: string): Json
  {
    if p.JArr? && HasChild(p, k) then JArr(RemoveAt(p.items, DigitsValue(k)))
    else if p.JObj? then JObj(p.props - {k})
    else p
  }

  /** `root` with the element at the path `keys` deleted from its container,
      everything else in place. */
  function Taken(root: Json, keys: seq<string>): Json
    requires |keys| > 0
  {
    match At(root, ParentKeys(keys))
    case Some(p) => Put(root, ParentKeys(keys), Removed(p, keys[|keys| - 1]))
    case None => root
  }

  /** The `from` walk (lines 47-65) along tokens that reach a value other
      than `null`: a move hands that value out and deletes it from its
      container, leaving the rest of the document in place; a copy leaves
      the document alone and hands out the spread of the value. */
  lemma {:induction false} FromAt(root: Json, toks: seq<string>, idx: nat, from: string, move: bool)
    requires idx < |toks| && Reaches(root, toks[idx..]) && At(root, toks[idx..]) != Some(JNull)
    ensures At(root, toks[idx..]).Some?
    ensures From(Some(root), toks, idx, from, move)
            == Ok(if move then (Taken(root, toks[idx..]), At(root, toks[idx..]).value)
                  else (root, Spread(At(root, toks[idx..]))))
    decreases |toks| - idx
  {
    var keys, k := toks[idx..], toks[idx];
    var c := Child(root, k);
    assert keys[0] == k && keys[1..] == toks[idx + 1..];
    if idx + 1 == |toks| {
      assert keys == [k] && ParentKeys(keys) == [];
    } else {
      var rest := keys[1..];
      assert Member(root, k) == Ok(Some(c)) && HasChild(c, toks[idx + 1]);
      FromAt(c, toks, idx + 1, from, move);
      assert ParentKeys(keys)[0] == k && ParentKeys(keys)[1..] == ParentKeys(rest);
      assert At(root, keys) == At(c, rest);
      assert At(root, ParentKeys(keys)) == At(c, ParentKeys(rest));
      AtStep(c, rest, |rest| - 1);
      assert rest[..|rest| - 1] == ParentKeys(rest) && keys[|keys| - 1] == rest[|rest| - 1];
      if move {
        var p := At(c, ParentKeys(rest)).value;
        var y := Removed(p, rest[|rest| - 1]);
        assert Put(root, ParentKeys(keys), y) == Set(root, k, Put(c, ParentKeys(rest), y));
      }
    }
  }

  /** The `from` walk (lines 52-55) along tokens that miss, at any depth:
      where a token reads `undefined` or `null`, a move or copy throws
      "path … does not exist" for its `from`. */
  lemma {:induction false} FromMissing(root: Json, toks: seq<string>, idx: nat, from: string, move: bool)
    requires idx < |toks| && root != JNull
    requires At(root, toks[idx..]).None? || At(root, toks[idx..]) == Some(JNull)
    ensures From(Some(root), toks, idx, from, move) == Err(NotExist(from))
    decreases |toks| - idx
  {
    var keys, k := toks[idx..], toks[idx];
    assert keys[0] == k && keys[1..] == toks[idx + 1..];
    match Member(root, k)
    case Ok(Some(c)) =>
      if c != JNull {
        assert At(root, keys) == At(c, toks[idx + 1..]);
        if idx + 1 < |toks| {
          FromMissing(c, toks, idx + 1, from, move);
        }
      }
    case _ =>
  }

  /** The walk and the write of a move or copy under an object or a
      scalar: the target is written under the last token, and a scalar
      parent throws. */
  lemma PutFacts(root: Json, op: string, path: string, toks: seq<string>, x: Json)
    requires op in {"move", "copy"} && Reaching(root, path, toks) && !Parent(root, path, toks).JArr?
    ensures var spot, n := LastSpot(root, path, toks), |RawTokens(path)|;
            && Walk(Some(root), Decoded(RawTokens(path)), 0, [], Some(root)) == Ok(spot)
            && Check(op, path, spot, n).Ok? && Checked(op, spot)
            && (spot.pointer.JObj? ==> Edit(op, spot, x) == Ok(JObj(spot.pointer.props[toks[|toks| - 1] := x])))
            && (!spot.pointer.JObj? ==> Edit(op, spot, x).Err?)
  {
    WalkLast(root, path, toks);
    var spot := LastSpot(root, path, toks);
    CheckedSpot(op, path, spot, |toks|);
    EditAssigns(op, spot, x);
  }

  /** A move or copy writes with a plain assignment. */
  lemma EditAssigns(op: string, s: Spot, x: Json)
    requires op in {"move", "copy"} && Checked(op, s)
    ensures Edit(op, s, x) == Assign(s.pointer, s.component, x)
  {
  }

  /** A move or copy whose `from` walk gave `root1` and the target `x`, and
      whose walk along `path` on `root1` passed the checks, puts the write
      of `x` back along the walk's keys, or throws with the write. */
  lemma SourcedAtSpot(root: Json, item: Op, root1: Json, x: Json, spot: Spot)
    requires item.op in {"move", "copy"} && item.path != ""
    requires Source(Some(root), item) == Ok((Some(root1), x))
    requires Walk(Some(root1), Decoded(RawTokens(item.path)), 0, [], Some(root1)) == Ok(spot)
    requires Check(item.op, item.path, spot, |RawTokens(item.path)|).Ok? && Checked(item.op, spot)
    ensures var q := Edit(item.op, spot, x);
            ApplyOp(Some(root), item) == if q.Ok? then Ok(Some(Put(root1, spot.keys, q.value))) else Err(RuntimeFault)
  {
  }

  /** `move` from a `from` path that reaches a value other than `null`, at
      any depth, to a path whose parent, once the value is deleted, is not an
      array: the value is deleted from its old container first, then an
      object parent gets it under the last token, and a scalar parent
      throws. */
  lemma MoveAtPath(root: Json, from: string, ftoks: seq<string>, path: string, toks: seq<string>, v: Json)
    requires EscapeAll(RawTokens(from)) == Ok(ftoks) && Reaches(root, ftoks) && At(root, ftoks) != Some(JNull)
    requires Reaching(Taken(root, ftoks), path, toks) && !Parent(Taken(root, ftoks), path, toks).JArr?
    ensures At(root, ftoks).Some?
    ensures var root1, x := Taken(root, ftoks), At(root, ftoks).value;
            var p, r := Parent(root1, path, toks), ApplyOp(Some(root), Op("move", path, Some(from), v));
            && (p.JObj? ==> r == Ok(Some(Put(root1, ParentKeys(toks), JObj(p.props[toks[|toks| - 1] := x])))))
            && (!p.JObj? ==> r == Err(RuntimeFault))
  {
    assert ftoks[0..] == ftoks;
    FromAt(root, ftoks, 0, from, true);
    var root1, x := Taken(root, ftoks), At(root, ftoks).value;
    var item := Op("move", path, Some(from), v);
    assert Source(Some(root), item) == Ok((Some(root1), x));
    PutFacts(root1, "move", path, toks, x);
    SourcedAtSpot(root, item, root1, x, LastSpot(root1, path, toks));
  }

  /** `copy` from a `from` path that reaches a value other than `null`, at
      any depth, to a path whose parent is not an array: the document is
      left as it is but for an object parent, which gets the spread of the
      value under the last token; a scalar parent throws. */
  lemma CopyAtPath(root: Json, from: string, ftoks: seq<string>, path: string, toks: seq<string>, v: Json)
    requires EscapeAll(RawTokens(from)) == Ok(ftoks) && Reaches(root, ftoks) && At(root, ftoks) != Some(JNull)
    requires Reaching(root, path, toks) && !Parent(root, path, toks).JArr?
    ensures var p, r := Parent(root, path, toks), ApplyOp(Some(root), Op("copy", path, Some(from), v));
            && (p.JObj? ==> r == Ok(Some(Put(root, ParentKeys(toks), JObj(p.props[toks[|toks| - 1] := Spread(At(root, ftoks))])))))
            && (!p.JObj? ==> r == Err(RuntimeFault))
  {
    assert ftoks[0..] == ftoks;
    FromAt(root, ftoks, 0, from, false);
    var x := Spread(At(root, ftoks));
    var item := Op("copy", path, Some(from), v);
    assert Source(Some(root), item) == Ok((Some(root), x));
    PutFacts(root, "copy", path, toks, x);
    SourcedAtSpot(root, item, root, x, LastSpot(root, path, toks));
  }

  // ----- the restart after an empty token -----

  /** The raw tokens of `/a//b`. */
  lemma RestartTokens(a: string, b: string)
    requires '/' !in a && '/' !in b
    ensures RawTokens("/" + a + "//" + b) == [a, "", b]
  {
    assert Tail("/" + a + "//" + b) == a + "//" + b;
    assert Join([a, "", b]) == a + "//" + b by {
      assert [a, "", b][1..] == ["", b];
      assert ["", b][1..] == [b];
      assert Join(["", b]) == "/" + b;
      assert a + "/" + ("/" + b) == a + "//" + b;
    }
    SplitJoin([a, "", b]);
  }

  /** The walks of `/a//b` and `/b` stop at the same place once `a[""]`
      exists: the empty token sends the walk back to the root. */
  lemma RestartWalks(m: map<string, Json>, a: string, b: string)
    requires Plain(a) && Plain(b)
    requires a in m && m[a].JObj? && "" in m[a].props
    ensures Walk(Some(JObj(m)), Decoded([a, "", b]), 0, [], Some(JObj(m))) == Ok(Spot([], JObj(m), b, Member(JObj(m), b).value, 3))
    ensures Walk(Some(JObj(m)), Decoded([b]), 0, [], Some(JObj(m))) == Ok(Spot([], JObj(m), b, Member(JObj(m), b).value, 1))
  {
    PlainDecodes(a);
    PlainDecodes(b);
    UnescapeWithoutTilde("");
    var comps := [a, "", b];
    assert Walk(Some(JObj(m)), Decoded(comps), 0, [], Some(JObj(m))) == Walk(Some(JObj(m)), Decoded(comps), 1, [a], Some(m[a]));
    assert Walk(Some(JObj(m)), Decoded(comps), 1, [a], Some(m[a])) == Walk(Some(JObj(m)), Decoded(comps), 2, [], Some(JObj(m)));
  }

  /** `/a//b` addresses what `/b` addresses once `a[""]` exists: an empty
      token before the last restarts the walk at the root instead of reading
      the member `""`. Only the path in a `NotExist` error differs. */
  lemma EmptyTokenRestarts(m: map<string, Json>, a: string, b: string, op: string, from: Option<string>, v: Json)
    requires Plain(a) && Plain(b) && op in {"add", "replace", "remove", "test"}
    requires a in m && m[a].JObj? && "" in m[a].props
    ensures var r1 := ApplyOp(Some(JObj(m)), Op(op, "/" + a + "//" + b, from, v));
            var r2 := ApplyOp(Some(JObj(m)), Op(op, "/" + b, from, v));
            r1 == if r2.Err? && r2.error.NotExist? then Err(NotExist("/" + a + "//" + b)) else r2
  {
    var p1, p2 := "/" + a + "//" + b, "/" + b;
    var i1, i2 := Op(op, p1, from, v), Op(op, p2, from, v);
    RestartTokens(a, b);
    OneToken(b);
    RestartWalks(m, a, b);
    var c := Member(JObj(m), b).value;
    var s1, s2 := Spot([], JObj(m), b, c, 3), Spot([], JObj(m), b, c, 1);
    if Check(op, p2, s2, 1).Err? {
      CheckFailsAtSpot(JObj(m), i1, s1);
      CheckFailsAtSpot(JObj(m), i2, s2);
    } else if op == "test" {
      TestAtSpot(JObj(m), i1, s1);
      TestAtSpot(JObj(m), i2, s2);
    } else {
      CheckedSpot(op, p1, s1, 3);
      CheckedSpot(op, p2, s2, 1);
      assert Edit(op, s1, v) == Edit(op, s2, v);
      if Edit(op, s2, v).Ok? {
        EditAtSpot(JObj(m), i1, s1, Edit(op, s2, v).value);
        EditAtSpot(JObj(m), i2, s2, Edit(op, s2, v).value);
      } else {
        EditFailsAtSpot(JObj(m), i1, s1);
        EditFailsAtSpot(JObj(m), i2, s2);
      }
    }
  }
}
