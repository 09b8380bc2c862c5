/** The array edits `applyPatch` makes with `push` and `splice`, as functions
    on sequences. */
module Splice {
  import opened Pointer

  /** `a.splice(i, 0, x)` with `i` in range: `x` lands at `i` and the later
      elements move one place right. */
  function InsertAt<T>(s: seq<T>, i: nat, x: T): (r: seq<T>)
    requires i <= |s|
    ensures |r| == |s| + 1 && r[i] == x
    ensures forall j :: 0 <= j < i ==> r[j] == s[j]
    ensures forall j :: i < j <= |s| ==> r[j] == s[j - 1]
  {
    s[..i] + [x] + s[i..]
  }

  /** `a.splice(i, 1)` with `i` in range: the element at `i` goes and the
      later ones move one place left. */
  function RemoveAt<T>(s: seq<T>, i: nat): (r: seq<T>)
    requires i < |s|
    ensures |r| == |s| - 1
    ensures forall j :: 0 <= j < i ==> r[j] == s[j]
    ensures forall j :: i <= j < |r| ==> r[j] == s[j + 1]
  {
    s[..i] + s[i + 1..]
  }

  /** Removing what was just inserted gives the sequence back. */
  lemma RemoveInsert<T>(s: seq<T>, i: nat, x: T)
    requires i <= |s|
    ensures RemoveAt(InsertAt(s, i, x), i) == s
  {
    var r := RemoveAt(InsertAt(s, i, x), i);
    assert forall j :: 0 <= j < |s| ==> r[j] == s[j];
  }

  /** Inserting the removed element where it was gives the sequence back. */
  lemma InsertRemove<T>(s: seq<T>, i: nat)
    requires i < |s|
    ensures InsertAt(RemoveAt(s, i), i, s[i]) == s
  {
    var r := InsertAt(RemoveAt(s, i), i, s[i]);
    assert forall j :: 0 <= j < |s| ==> r[j] == s[j];
  }

  /** The position `splice(token, …)` starts at for a token that passed the
      digits check: `Number(token)` (0 for the empty token), clamped to the
      length. An index past the end appends. */
  function SpliceStart(token: string, length: nat): (r: nat)
    requires AllDigits(token)
    ensures r <= length
    ensures r == length <==> DigitsValue(token) >= length
    ensures r < length ==> r == DigitsValue(token)
  {
    if DigitsValue(token) < length then DigitsValue(token) else length
  }

  /** The index of the object key `"0"`, `"1"`, … that spreading an array or a
      string into an object gives each element. */
  function IndexMap<T>(s: seq<T>): (m: map<string, T>)
    ensures forall i :: 0 <= i < |s| ==> NatToString(i) in m && m[NatToString(i)] == s[i]
    ensures forall k :: k in m ==> IsArrayIndex(k) && DigitsValue(k) < |s|
  {
    if s == [] then map[]
    else
      var m := IndexMap(s[..|s| - 1]);
      assert forall i :: 0 <= i < |s| - 1 ==> s[..|s| - 1][i] == s[i];
      forall i | 0 <= i < |s| - 1 ensures NatToString(i) != NatToString(|s| - 1) {
        NatToStringInjective(i, |s| - 1);
      }
      m[NatToString(|s| - 1) := s[|s| - 1]]
  }

  /** The keys of `IndexMap(s)` are the canonical indices of `s`, each mapped
      to its element. */
  lemma IndexMapAt<T>(s: seq<T>, k: string)
    ensures k in IndexMap(s) <==> IsArrayIndex(k) && DigitsValue(k) < |s|
    ensures k in IndexMap(s) ==> IndexMap(s)[k] == s[DigitsValue(k)]
  {
    if IsArrayIndex(k) && DigitsValue(k) < |s| {
      IndexRoundTrip(k);
    }
  }
}
