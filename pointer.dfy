/** JSON pointers as `applyPatch` reads them: `p.substr(1).split('/')`, each
    token decoded by `escapeComponent`, and the two tests it applies to a
    token that addresses an array (a run of digits, a canonical index). */
module Pointer {
  import opened JsonTypes

  /** Tokens that would reach an object's prototype machinery. */
  const BannedKeys: set<string> := {"__proto__", "constructor", "prototype"}

  /** `s.substr(1)`: everything after the first character. */
  function Tail(s: string): (r: string)
    ensures s == [] ==> r == []
    ensures s != [] ==> s == [s[0]] + r
  {
    if s == [] then [] else s[1..]
  }

  /** The first position of `c` in `s`, if any. */
  function IndexOfChar(s: string, c: char): (r: Option<nat>)
    ensures r.Some? ==> r.value < |s| && s[r.value] == c && c !in s[..r.value]
    ensures r.None? ==> c !in s
  {
    if s == [] then None
    else if s[0] == c then Some(0)
    else
      match IndexOfChar(s[1..], c)
      case None => None
      case Some(i) =>
        assert s[..i + 1] == [s[0]] + s[1..][..i];
        Some(i + 1)
  }

  /** `s.split('/')`: the pieces between the slashes; never empty, and the
      empty string gives the single empty token. */
  function Split(s: string): (r: seq<string>)
    ensures |r| >= 1
    ensures forall i :: 0 <= i < |r| ==> '/' !in r[i]
    decreases |s|
  {
    match IndexOfChar(s, '/')
    case None => [s]
    case Some(i) => [s[..i]] + Split(s[i + 1..])
  }

  /** `toks.join('/')`, the inverse of `Split`. */
  function Join(toks: seq<string>): string
    requires |toks| >= 1
  {
    if |toks| == 1 then toks[0] else toks[0] + "/" + Join(toks[1..])
  }

  /** Splitting and joining again gives back the pointer text. */
  lemma {:induction false} JoinSplit(s: string)
    ensures Join(Split(s)) == s
    decreases |s|
  {
    match IndexOfChar(s, '/')
    case None =>
    case Some(i) =>
      var rest := s[i + 1..];
      JoinSplit(rest);
      JoinCons(s[..i], Split(rest));
      assert s == s[..i] + "/" + rest;
  }

  /** Joining a token in front of at least one more. */
  lemma JoinCons(tok: string, toks: seq<string>)
    requires |toks| >= 1
    ensures Join([tok] + toks) == tok + "/" + Join(toks)
  {
    assert ([tok] + toks)[1..] == toks;
  }

  /** Tokens without a slash survive a join followed by a split. */
  lemma {:induction false} SplitJoin(toks: seq<string>)
    requires |toks| >= 1
    requires forall i :: 0 <= i < |toks| ==> '/' !in toks[i]
    ensures Split(Join(toks)) == toks
  {
    if |toks| > 1 {
      var s, t := Join(toks), Join(toks[1..]);
      FirstSlash(toks[0], t);
      assert s[..|toks[0]|] == toks[0] && s[|toks[0]| + 1..] == t;
      SplitJoin(toks[1..]);
    }
  }

  /** The first slash of `a + "/" + b` is the one after `a` when `a` has
      none. */
  lemma FirstSlash(a: string, b: string)
    requires '/' !in a
    ensures IndexOfChar(a + "/" + b, '/') == Some(|a|)
  {
    var s := a + "/" + b;
    assert s[|a|] == '/' && s[..|a|] == a;
  }

  /** The raw tokens of a pointer: `p.substr(1).split('/')`. */
  function RawTokens(p: string): (r: seq<string>)
    ensures |r| >= 1
  {
    Split(Tail(p))
  }

  /** `pat` occurs in `s` at position `i`. */
  predicate OccursAt(s: string, pat: string, i: nat)
  {
    i + |pat| <= |s| && s[i..i + |pat|] == pat
  }

  /** The first occurrence of `pat` in `s` at or after `from`. */
  function FindFrom(s: string, pat: string, from: nat): (r: Option<nat>)
    ensures r.Some? ==> from <= r.value && OccursAt(s, pat, r.value)
    ensures r.Some? ==> forall j :: from <= j < r.value ==> !OccursAt(s, pat, j)
    ensures r.None? ==> forall j :: from <= j ==> !OccursAt(s, pat, j)
    decreases |s| - from
  {
    if from + |pat| > |s| then None
    else if OccursAt(s, pat, from) then Some(from)
    else FindFrom(s, pat, from + 1)
  }

  /** `s.replace(pat, rep)` with a string pattern: only the FIRST occurrence
      of `pat` is replaced. */
  function ReplaceFirst(s: string, pat: string, rep: string): (r: string)
  {
    match FindFrom(s, pat, 0)
    case None => s
    case Some(i) => s[..i] + rep + s[i + |pat|..]
  }

  /** The decoding step of `escapeComponent`: the first `~1` becomes `/`, then
      the first `~0` becomes `~`. */
  function Unescape(token: string): string
  {
    ReplaceFirst(ReplaceFirst(token, "~1", "/"), "~0", "~")
  }

  /** `escapeComponent`: decode a raw token, refusing the banned keys. */
  function EscapeComponent(token: string): (r: Result<string>)
    ensures r.Ok? <==> Unescape(token) !in BannedKeys
    ensures r.Ok? ==> r.value == Unescape(token)
    ensures r.Err? ==> r.error == Banned(token)
  {
    var escaped := Unescape(token);
    if escaped in BannedKeys then Err(Banned(token)) else Ok(escaped)
  }

  /** `tokens.map(escapeComponent)`: every token is decoded, left to right, and
      the first banned one aborts. */
  function EscapeAll(tokens: seq<string>): (r: Result<seq<string>>)
    ensures r.Ok? <==> forall i :: 0 <= i < |tokens| ==> EscapeComponent(tokens[i]).Ok?
    ensures r.Ok? ==> |r.value| == |tokens|
    ensures r.Ok? ==> forall i :: 0 <= i < |tokens| ==> r.value[i] == Unescape(tokens[i])
    ensures r.Err? ==> exists i :: 0 <= i < |tokens| && r.error == Banned(tokens[i])
                                   && Unescape(tokens[i]) in BannedKeys
  {
    if tokens == [] then Ok([])
    else
      var head :- EscapeComponent(tokens[0]);
      var rest :- EscapeAll(tokens[1..]);
      assert forall i :: 1 <= i < |tokens| ==> tokens[i] == tokens[1..][i - 1];
      Ok([head] + rest)
  }

  /** `escapeComponent` applied to each raw token on its own: the decoded
      token, or the error it throws. The walk at lines 81-98 decodes a token
      only when it reaches it, so it consults these one at a time. */
  function Decoded(comps: seq<string>): (r: seq<Result<string>>)
    ensures |r| == |comps|
    ensures forall i {:trigger EscapeComponent(comps[i])} :: 0 <= i < |comps| ==> r[i] == EscapeComponent(comps[i])
  {
    seq(|comps|, i requires 0 <= i < |comps| => EscapeComponent(comps[i]))
  }

  // ----- tokens that address array elements -----

  predicate IsDigit(c: char)
  {
    '0' <= c <= '9'
  }

  /** `!/[^0-9]/.test(s)`: no character other than a decimal digit. The empty
      token passes. */
  predicate AllDigits(s: string)
  {
    forall i :: 0 <= i < |s| ==> IsDigit(s[i])
  }

  /** `Number(s)` for a run of digits; `Number('')` is 0. */
  function DigitsValue(s: string): nat
    requires AllDigits(s)
  {
    if s == [] then 0
    else DigitsValue(s[..|s| - 1]) * 10 + (s[|s| - 1] as int - '0' as int)
  }

  /** A canonical array index as a property name: digits without a leading
      zero (so "0" but not "01" or ""). Any other token names an ordinary
      property, which an array read from JSON does not have. */
  predicate IsArrayIndex(s: string)
  {
    |s| > 0 && AllDigits(s) && (s[0] == '0' ==> |s| == 1)
  }

  /** `String(n)`: the decimal spelling of a natural number. */
  function NatToString(n: nat): (s: string)
    ensures IsArrayIndex(s) && DigitsValue(s) == n
  {
    var d := [(n % 10 + '0' as int) as char];
    if n < 10 then d
    else
      var p := NatToString(n / 10);
      var s := p + d;
      assert s[..|s| - 1] == p;
      s
  }

  /** A canonical index spells its own value: the two index readings agree. */
  lemma {:induction false} IndexRoundTrip(s: string)
    requires IsArrayIndex(s)
    ensures NatToString(DigitsValue(s)) == s
    decreases |s|
  {
    if |s| > 1 {
      var p := s[..|s| - 1];
      assert IsArrayIndex(p) by {
        assert p[0] == s[0];
        forall i | 0 <= i < |p| ensures IsDigit(p[i]) { assert p[i] == s[i]; }
      }
      LeadingDigitPositive(p);
      IndexRoundTrip(p);
      var d := s[|s| - 1] as int - '0' as int;
      LastDigit(DigitsValue(p), d);
      assert DigitsValue(s) == DigitsValue(p) * 10 + d;
      assert s == p + [s[|s| - 1]];
    }
  }

  /** Appending a digit `d` to the spelling of `a`: dividing by ten gives
      `a` back and the remainder is `d`. */
  lemma LastDigit(a: nat, d: int)
    requires 0 <= d < 10
    ensures (a * 10 + d) / 10 == a && (a * 10 + d) % 10 == d
  {
  }

  /** A run of digits that starts with a non-zero digit has a positive value. */
  lemma {:induction false} LeadingDigitPositive(s: string)
    requires |s| > 0 && AllDigits(s) && s[0] != '0'
    ensures DigitsValue(s) > 0
    decreases |s|
  {
    if |s| > 1 {
      var p := s[..|s| - 1];
      assert p[0] == s[0];
      assert AllDigits(p) by {
        forall i | 0 <= i < |p| ensures IsDigit(p[i]) { assert p[i] == s[i]; }
      }
      LeadingDigitPositive(p);
    }
  }

  /** Two different natural numbers have different spellings. */
  lemma NatToStringInjective(m: nat, n: nat)
    ensures NatToString(m) == NatToString(n) ==> m == n
  {
  }

  // ----- decoding -----

  /** An occurrence of `pat` starts with the first character of `pat`. */
  lemma OccursHead(s: string, pat: string, j: nat)
    requires |pat| > 0
    ensures OccursAt(s, pat, j) ==> j < |s| && s[j] == pat[0]
  {
    if OccursAt(s, pat, j) {
      assert s[j..j + |pat|][0] == s[j];
    }
  }

  /** An occurrence of a two-character pattern fixes two characters. */
  lemma OccursPair(s: string, pat: string, j: nat)
    requires |pat| == 2
    ensures OccursAt(s, pat, j) ==> j + 1 < |s| && s[j] == pat[0] && s[j + 1] == pat[1]
  {
    if OccursAt(s, pat, j) {
      assert s[j..j + 2][0] == s[j];
      assert s[j..j + 2][1] == s[j + 1];
    }
  }

  /** When the characters before position `i` hold no `~`, a pattern starting
      with `~` that occurs at `i` is found there first. */
  lemma FindFirstTilde(s: string, pat: string, i: nat)
    requires |pat| > 0 && pat[0] == '~'
    requires OccursAt(s, pat, i)
    requires '~' !in s[..i]
    ensures FindFrom(s, pat, 0) == Some(i)
  {
    var r := FindFrom(s, pat, 0);
    assert r.Some? && r.value <= i;
    OccursHead(s, pat, r.value);
    assert forall k :: 0 <= k < i ==> s[..i][k] == s[k];
  }

  /** A pattern that starts with a character absent from `s` is not found. */
  lemma FindNothing(s: string, pat: string)
    requires |pat| > 0 && pat[0] !in s
    ensures FindFrom(s, pat, 0) == None
  {
    forall j | 0 <= j ensures !OccursAt(s, pat, j) {
      OccursHead(s, pat, j);
    }
  }

  /** A token without `~` is its own decoding. */
  lemma UnescapeWithoutTilde(token: string)
    requires '~' !in token
    ensures Unescape(token) == token
  {
    FindNothing(token, "~1");
    FindNothing(token, "~0");
  }

  /** One escaped slash decodes to `/`. */
  lemma UnescapeSlash(a: string, b: string)
    requires '~' !in a && '~' !in b
    ensures Unescape(a + "~1" + b) == a + "/" + b
  {
    var s := a + "~1" + b;
    assert s[..|a|] == a;
    assert s[|a|..|a| + 2] == "~1";
    FindFirstTilde(s, "~1", |a|);
    assert s[..|a|] + "/" + s[|a| + 2..] == a + "/" + b;
    FindNothing(a + "/" + b, "~0");
  }

  /** Decoding `~0` after `~1`: in `~01` the `~1` is not an escape, so the
      token decodes to `~1` (the order that section 4 of RFC 6901 requires). */
  lemma UnescapeTilde(a: string, b: string)
    requires '~' !in a && '~' !in b
    ensures Unescape(a + "~0" + b) == a + "~" + b
  {
    var s := a + "~0" + b;
    forall j | 0 <= j ensures !OccursAt(s, "~1", j) {
      OccursPair(s, "~1", j);
      if j < |a| {
        assert s[j] == a[j];
      } else if j > |a| + 1 && j < |s| {
        assert s[j] == b[j - |a| - 2];
      }
    }
    assert FindFrom(s, "~1", 0) == None;
    assert s[..|a|] == a;
    assert s[|a|..|a| + 2] == "~0";
    FindFirstTilde(s, "~0", |a|);
    assert s[..|a|] + "~" + s[|a| + 2..] == a + "~" + b;
  }

  /** Only the first escaped slash is decoded: a token holding two `~1`
      escapes keeps the second one as it is. */
  lemma UnescapeOnlyFirstSlash(a: string, b: string, c: string)
    requires '~' !in a && '~' !in b && '~' !in c
    ensures Unescape(a + "~1" + b + "~1" + c) == a + "/" + b + "~1" + c
  {
    var s := a + "~1" + b + "~1" + c;
    assert s[..|a|] == a;
    assert s[|a|..|a| + 2] == "~1";
    FindFirstTilde(s, "~1", |a|);
    var t := a + "/" + b + "~1" + c;
    assert s[..|a|] + "/" + s[|a| + 2..] == t;
    var p := |a| + 1 + |b|;
    forall j | 0 <= j ensures !OccursAt(t, "~0", j) {
      OccursPair(t, "~0", j);
      if j < |a| {
        assert t[j] == a[j];
      } else if |a| < j < p {
        assert t[j] == b[j - |a| - 1];
      } else if j == p && j + 1 < |t| {
        assert t[j + 1] == '1';
      } else if p + 1 < j < |t| {
        assert t[j] == c[j - p - 2];
      }
    }
    assert FindFrom(t, "~0", 0) == None;
  }
}
