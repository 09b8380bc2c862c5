/** `testEquality`: the comparison the `test` operation uses. It walks the
    FIRST argument only, looking each index or key up in the second, so
    extra elements or keys of the second argument are never seen. Object
    entries are compared without their order (`EntriesEqual`). */
module Equality {
  import opened JsonTypes
  import opened Pointer

  /** JavaScript's `typeof` of a value that may be `undefined`. */
  function TypeOfOpt(v: Option<Json>): string
  {
    match v
    case None => "undefined"
    case Some(j) => TypeOf(j)
  }

  /** `second[key]`: an element of an array or a character of a string
      (canonical index keys only), a property of an object, or `undefined`
      (None). Reading a property of `null` is a TypeError; numbers and
      booleans have no JSON properties. */
  function Member(second: Json, key: string): (r: Result<Option<Json>>)
    ensures second.JArr? ==> r.Ok? && (r.value.Some? <==> IsArrayIndex(key) && DigitsValue(key) < |second.items|)
    ensures second.JArr? && r.value.Some? ==> r.value.value == second.items[DigitsValue(key)]
    ensures second.JObj? ==> r.Ok? && (r.value.Some? <==> key in second.props)
    ensures second.JObj? && key in second.props ==> r.value.value == second.props[key]
    ensures second.JStr? ==> r.Ok? && (r.value.Some? <==> IsArrayIndex(key) && DigitsValue(key) < |second.s|)
    ensures second.JStr? && r.value.Some? ==> r.value.value == JStr([second.s[DigitsValue(key)]])
    ensures second.JBool? || second.JNum? ==> r == Ok(None)
    ensures r.Err? <==> second.JNull?
  {
    match second
    case JNull => Err(RuntimeFault)
    case JBool(_) => Ok(None)
    case JNum(_) => Ok(None)
    case JStr(s) =>
      Ok(if IsArrayIndex(key) && DigitsValue(key) < |s| then Some(JStr([s[DigitsValue(key)]])) else None)
    case JArr(items) =>
      Ok(if IsArrayIndex(key) && DigitsValue(key) < |items| then Some(items[DigitsValue(key)]) else None)
    case JObj(props) => Ok(if key in props then Some(props[key]) else None)
  }

  /** `testEquality(first, second)`. `Err` is a TypeError raised inside it. */
  function TestEquality(first: Json, second: Option<Json>): (r: Result<bool>)
    ensures r.Err? ==> r.error == RuntimeFault
    decreases first, 2
  {
    if TypeOf(first) != TypeOfOpt(second) then Ok(false)
    else if first.JStr? || first.JNum? then Ok(second == Some(first))
    else if first.JNull? && second == Some(JNull) then Ok(true)
    else
      match first
      case JArr(items) => ItemsEqual(items, 0, second.value, first)
      case JObj(props) => EntriesEqual(props, second.value, first)
      // Object.entries(null) throws
      case JNull => Err(RuntimeFault)
      // Object.entries(true) is empty, so nothing can differ
      case JBool(_) => Ok(true)
  }

  /** `!items.some((value, index) => !testEquality(value, second[index]))`
      from index `i` on: the first element that is not equal stops the scan. */
  function ItemsEqual(items: seq<Json>, i: nat, second: Json, ghost whole: Json): (r: Result<bool>)
    requires whole == JArr(items) && i <= |items|
    ensures r.Err? ==> r.error == RuntimeFault
    decreases whole, 0, |items| - i
  {
    if i == |items| then Ok(true)
    else
      var other :- Member(second, NatToString(i));
      var same :- TestEquality(items[i], other);
      if !same then Ok(false) else ItemsEqual(items, i + 1, second, whole)
  }

  /** The comparison of one entry of the first object with `second[key]`. */
  function EntryEqual(props: map<string, Json>, key: string, second: Json, ghost whole: Json): (r: Result<bool>)
    requires whole == JObj(props) && key in props
    ensures r.Err? ==> r.error == RuntimeFault
    decreases whole, 0
  {
    var other :- Member(second, key);
    TestEquality(props[key], other)
  }

  /** `!Object.entries(first).some(([k, v]) => !testEquality(v, second[k]))`.
      Entry order is not modelled: a TypeError in any entry is reported,
      even where the code would stop earlier at an entry that differs. */
  function EntriesEqual(props: map<string, Json>, second: Json, ghost whole: Json): (r: Result<bool>)
    requires whole == JObj(props)
    ensures r.Err? ==> r.error == RuntimeFault
    decreases whole, 1
  {
    if exists k :: k in props && EntryEqual(props, k, second, whole).Err? then Err(RuntimeFault)
    else Ok(forall k :: k in props ==> EntryEqual(props, k, second, whole) == Ok(true))
  }

  /** `assertEquality(first, second)`: `Ok` when `testEquality` says yes, the
      `ERR_ASSERTION` failure when it says no, and the TypeError when it
      throws. `first` is `undefined` (None) when nothing is found, and its
      `typeof` differs from that of every JSON value. */
  function AssertEquality(first: Option<Json>, second: Json): (r: Result<()>)
    ensures r.Ok? <==> first.Some? && Embeds(first.value, second)
    ensures first.None? ==> r == Err(AssertionFailed)
    ensures r.Err? ==> r.error == AssertionFailed || r.error == RuntimeFault
  {
    if first.None? then Err(AssertionFailed)
    else
      TestEqualityIsEmbedding(first.value, second);
      var same :- TestEquality(first.value, Some(second));
      if same then Ok(()) else Err(AssertionFailed)
  }

  // ----- what the comparison means -----

  /** The reference reading of `testEquality(first, second) === true`: every
      index and every entry of `first` is found, at the same place, in
      `second`, recursively. Strings and numbers must be identical, any two
      booleans match, and an empty array or object also matches `null`. */
  ghost predicate Embeds(first: Json, second: Json)
    decreases first, 2
  {
    match first
    case JNull => second == JNull
    case JBool(_) => second.JBool?
    case JNum(_) => second == first
    case JStr(_) => second == first
    case JArr(xs) =>
      (second.JArr? || second.JObj? || second.JNull?) &&
      forall i :: 0 <= i < |xs| ==> ItemEmbeds(xs[i], second, i)
    case JObj(m) =>
      (second.JArr? || second.JObj? || second.JNull?) &&
      forall k :: k in m ==> EntryEmbeds(m[k], second, k)
  }

  /** `x` is found at index `i` of `second` (an array, or an object keyed by
      the decimal spelling of `i`). */
  ghost predicate ItemEmbeds(x: Json, second: Json, i: nat)
    decreases x, 3
  {
    || (second.JArr? && i < |second.items| && Embeds(x, second.items[i]))
    || (second.JObj? && NatToString(i) in second.props && Embeds(x, second.props[NatToString(i)]))
  }

  /** `x` is found under `key` in `second` (an object, or an array whose
      canonical index `key` is in range). */
  ghost predicate EntryEmbeds(x: Json, second: Json, key: string)
    decreases x, 3
  {
    || (second.JObj? && key in second.props && Embeds(x, second.props[key]))
    || (second.JArr? && IsArrayIndex(key) && DigitsValue(key) < |second.items|
        && Embeds(x, second.items[DigitsValue(key)]))
  }

  /** `testEquality` returns true exactly when the first value embeds in the
      second: the one-sided comparison, stated without its scan order. */
  lemma {:induction false} TestEqualityIsEmbedding(first: Json, second: Json)
    ensures TestEquality(first, Some(second)) == Ok(true) <==> Embeds(first, second)
    decreases first, 2
  {
    if TypeOf(first) == TypeOf(second) {
      match first
      case JArr(xs) =>
        ItemsEmbedding(xs, 0, second, first);
      case JObj(m) =>
        forall k | k in m
          ensures EntryEqual(m, k, second, first) == Ok(true) <==> EntryEmbeds(m[k], second, k)
        {
          EntryEmbedding(m, k, second, first);
        }
      case _ =>
    }
  }

  /** The scan of `ItemsEqual` from index `i` succeeds exactly when every
      remaining element embeds at its index. */
  lemma {:induction false} ItemsEmbedding(xs: seq<Json>, i: nat, second: Json, whole: Json)
    requires whole == JArr(xs) && i <= |xs|
    requires TypeOf(second) == "object"
    ensures ItemsEqual(xs, i, second, whole) == Ok(true)
        <==> forall j :: i <= j < |xs| ==> ItemEmbeds(xs[j], second, j)
    decreases whole, 1, |xs| - i
  {
    if i < |xs| {
      ItemEmbedding(xs, i, second, whole);
      ItemsEmbedding(xs, i + 1, second, whole);
      assert (forall j :: i <= j < |xs| ==> ItemEmbeds(xs[j], second, j))
        <==> ItemEmbeds(xs[i], second, i) && forall j :: i + 1 <= j < |xs| ==> ItemEmbeds(xs[j], second, j);
    }
  }

  /** One step of the scan of `ItemsEqual` succeeds exactly when the element
      embeds at its index and the rest of the scan succeeds. */
  lemma {:induction false} ItemEmbedding(xs: seq<Json>, i: nat, second: Json, whole: Json)
    requires whole == JArr(xs) && i < |xs|
    requires TypeOf(second) == "object"
    ensures ItemsEqual(xs, i, second, whole) == Ok(true)
        <==> ItemEmbeds(xs[i], second, i) && ItemsEqual(xs, i + 1, second, whole) == Ok(true)
    decreases whole, 0
  {
    var key := NatToString(i);
    var member := Member(second, key);
    if member.Ok? && member.value.Some? {
      TestEqualityIsEmbedding(xs[i], member.value.value);
      if second.JArr? {
        IndexRoundTrip(key);
      }
    }
  }

  /** One entry of `EntriesEqual` succeeds exactly when it embeds. */
  lemma {:induction false} EntryEmbedding(m: map<string, Json>, key: string, second: Json, whole: Json)
    requires whole == JObj(m) && key in m
    requires TypeOf(second) == "object"
    ensures EntryEqual(m, key, second, whole) == Ok(true) <==> EntryEmbeds(m[key], second, key)
    decreases whole, 1
  {
    var member := Member(second, key);
    if member.Ok? && member.value.Some? {
      TestEqualityIsEmbedding(m[key], member.value.value);
    }
  }

  /** Every JSON value embeds in itself. */
  lemma {:induction false} EmbedsReflexive(j: Json)
    ensures Embeds(j, j)
  {
    match j
    case JArr(xs) =>
      forall i | 0 <= i < |xs| ensures ItemEmbeds(xs[i], j, i) { EmbedsReflexive(xs[i]); }
    case JObj(m) =>
      forall k | k in m ensures EntryEmbeds(m[k], j, k) { EmbedsReflexive(m[k]); }
    case _ =>
  }

  /** `testEquality` is reflexive on every JSON value: a `test` of a value
      against itself never fails. */
  lemma TestEqualityReflexive(j: Json)
    ensures TestEquality(j, Some(j)) == Ok(true)
  {
    EmbedsReflexive(j);
    TestEqualityIsEmbedding(j, j);
  }

  /** Strings and numbers compare with `===`; values of different `typeof`
      never compare equal. */
  lemma TestEqualityScalars(first: Json, second: Json)
    ensures TypeOf(first) != TypeOf(second) ==> TestEquality(first, Some(second)) == Ok(false)
    ensures first.JStr? || first.JNum? ==> TestEquality(first, Some(second)) == Ok(first == second)
    ensures first == JNull == second ==> TestEquality(first, Some(second)) == Ok(true)
  {
  }

  /** As written, `typeof` is the only check made on booleans: `true` and
      `false` compare equal. */
  lemma TestEqualityBooleans(a: bool, b: bool)
    ensures TestEquality(JBool(a), Some(JBool(b))) == Ok(true)
  {
  }

  /** Elements of the second array past the end of the first are never
      looked at: a longer second array still compares equal. */
  lemma TestEqualityIgnoresExtraItems(xs: seq<Json>, ys: seq<Json>)
    ensures TestEquality(JArr(xs), Some(JArr(xs + ys))) == Ok(true)
  {
    var second := JArr(xs + ys);
    forall i | 0 <= i < |xs| ensures ItemEmbeds(xs[i], second, i) {
      assert second.items[i] == xs[i];
      EmbedsReflexive(xs[i]);
    }
    TestEqualityIsEmbedding(JArr(xs), second);
  }

  /** Keys that only the second object has are never looked at: an object
      compares equal to any object that extends it. */
  lemma TestEqualityIgnoresExtraKeys(m: map<string, Json>, more: map<string, Json>)
    requires forall k :: k in m ==> k in more && more[k] == m[k]
    ensures TestEquality(JObj(m), Some(JObj(more))) == Ok(true)
  {
    forall k | k in m ensures EntryEmbeds(m[k], JObj(more), k) {
      EmbedsReflexive(m[k]);
    }
    TestEqualityIsEmbedding(JObj(m), JObj(more));
  }

  /** A key of the first object that the second lacks makes the comparison
      fail (or throw). */
  lemma TestEqualityMissingKey(m: map<string, Json>, other: map<string, Json>, k: string)
    requires k in m && k !in other
    ensures TestEquality(JObj(m), Some(JObj(other))) != Ok(true)
  {
    TestEqualityIsEmbedding(JObj(m), JObj(other));
  }

  /** A first array longer than the second makes the comparison fail. */
  lemma TestEqualityShorterSecond(xs: seq<Json>, ys: seq<Json>)
    requires |ys| < |xs|
    ensures TestEquality(JArr(xs), Some(JArr(ys))) != Ok(true)
  {
    TestEqualityIsEmbedding(JArr(xs), JArr(ys));
    assert !ItemEmbeds(xs[|ys|], JArr(ys), |ys|);
  }
}

