# JSON Patch applier, modelled in Dafny

This project models `applyPatch(doc, ops)`. The function takes a JSON
document and an array of JSON Patch operations (`add`, `remove`,
`replace`, `move`, `copy`, `test`, in the style of RFC 6902). It folds the
operations over a shallow copy of the document's root and returns the
result. Three helpers come with it:

- `testEquality`, the one-sided structural comparison behind `test`;
- `assertEquality`, which throws `ERR_ASSERTION` when that comparison fails;
- `escapeComponent`, which decodes one JSON Pointer token and refuses
  `__proto__`, `constructor` and `prototype`.

The model has two layers.

- **JSON layer (`JsonPatch`).** What each operation does to the
  accumulated document, written on immutable JSON values with the code's
  own branches (two places follow the corrected code; see Findings). That
  covers:
  - the walk along `path`, including its restart at the root after an
    empty token;
  - the loose digit check;
  - `splice` clamping;
  - `{...x}` spreading for `copy`;
  - `undefined` as the accumulator after an unknown operation.

  `PatchLaws` proves what this means operation by operation. `Equality`
  proves what `testEquality` compares.
- **Heap layer (`Heap`, `HeapWalk`, `HeapPatch`, `HeapApply`).** The same
  code on mutable JavaScript arrays and objects (class `Heap.Node`):
  - the shallow copies made by the root spread and by the path walk;
  - `push`, `splice`, `delete` and property writes done in place.

  The predicate `Heap.Denotes` ties a heap value to the JSON value it
  stands for. Every heap method that `HeapApply.ApplyPatchAt` uses is
  proved to fail, succeed and compute exactly as the JSON layer does. The
  as-written methods `HeapPatch.TakeFromInPlace` and
  `HeapApply.RootAtAsWritten` are the exceptions. They model the writes
  into the input listed under Findings, and their results are stated
  only in part in JSON terms. `HeapApply.ApplyPatchAt` has no
  `modifies` clause, so it writes no node that existed before the call.
  The input document is one of those nodes.

The code as written does write into its input in two places. Both are
listed under Findings and modelled twice. The JSON layer cannot share
values, so it follows the corrected code in both places:

- as written: `HeapPatch.TakeFromInPlace` and `HeapApply.RootAtAsWritten`;
- corrected: `HeapPatch.TakeFrom` and `HeapApply.RootAt`, which the rest
  of the model uses.

Errors are values of `JsonTypes.Error`:

- `NotExist(path)` for "path … does not exist";
- `Banned(token)` for a banned key;
- `AssertionFailed` for `ERR_ASSERTION`;
- `RuntimeFault` for a TypeError, or a write that would not give a JSON
  value.

## Model

| member | source | states |
|---|---|---|
| Equality.Member | index.mjs:10-13 | `second[key]` on a JSON value: array elements and string characters at canonical indices in range, object properties by key, `undefined` elsewhere; only `null` throws |
| Equality.TestEquality | index.mjs:1-16 | the only failure `testEquality` can raise is the TypeError of reading a property of `null` |
| Equality.AssertEquality | index.mjs:18-26 | passes exactly when the found value exists and embeds in the expected one; `undefined` always fails the assertion; any other failure is the assertion or a TypeError |
| Equality.TestEqualityIsEmbedding | index.mjs:1-16 | `testEquality(first, second)` is true exactly when every index and entry of `first` is found, recursively equal, at the same place in `second` |
| Equality.ItemsEqual | index.mjs:9-10 | the `some` scan over an array throws only the TypeError of reading a property of `null`; what it computes is `Equality.ItemsEmbedding` |
| Equality.EntryEqual | index.mjs:12-14 | the comparison of one entry throws only that TypeError |
| Equality.EntriesEqual | index.mjs:12-14 | the scan over an object's entries throws only that TypeError; what it computes is `Equality.TestEqualityIsEmbedding` |
| Equality.ItemsEmbedding | index.mjs:9-10 | the `some` scan over an array succeeds exactly when every element from the start index embeds at its index |
| Equality.ItemEmbedding | index.mjs:10 | one step of that scan succeeds exactly when the element embeds and the rest of the scan succeeds |
| Equality.EntryEmbedding | index.mjs:12-14 | one entry of an object compares equal exactly when it embeds under its key |
| Equality.EmbedsReflexive | index.mjs:1-16 | every JSON value embeds in itself |
| Equality.TestEqualityReflexive | index.mjs:1-16 | a value always compares equal to itself, so a `test` against itself never fails |
| Equality.TestEqualityScalars | index.mjs:2-8 | different `typeof` gives false; strings and numbers compare with `===`; `null` equals `null` |
| Equality.TestEqualityBooleans | index.mjs:2-8 | `true` and `false` compare equal: only their `typeof` is checked |
| Equality.TestEqualityIgnoresExtraItems | index.mjs:9-10 | an array compares equal to any longer array that starts with it |
| Equality.TestEqualityIgnoresExtraKeys | index.mjs:12-14 | an object compares equal to any object that extends it |
| Equality.TestEqualityMissingKey | index.mjs:12-14 | a key of the first object that the second lacks makes the comparison fail or throw |
| Equality.TestEqualityShorterSecond | index.mjs:9-10 | a first array longer than the second never compares equal |
| Pointer.Tail | index.mjs:49 | `substr(1)` drops exactly the first character and keeps the rest |
| Pointer.Split | index.mjs:50 | `split('/')` gives at least one token and no token holds a slash |
| Pointer.JoinSplit | index.mjs:50 | joining the tokens of a split with `/` gives the text back |
| Pointer.SplitJoin | index.mjs:50 | slash-free tokens survive a join followed by a split |
| Pointer.RawTokens | index.mjs:67 | a pointer always has at least one raw token |
| Pointer.FindFrom | index.mjs:29 | the position `replace` uses is the first occurrence of the pattern at or after the start, or none exists |
| Pointer.EscapeComponent | index.mjs:28-34 | succeeds exactly when the decoded token is not one of the three banned keys, giving the decoded token; otherwise throws naming the raw token |
| Pointer.EscapeAll | index.mjs:51 | decodes every token in order exactly when none is banned; otherwise fails naming a banned token |
| Pointer.NatToString | index.mjs:10 | `String(n)` is a canonical index whose value is `n` |
| Pointer.IndexRoundTrip | index.mjs:10 | a canonical index is the spelling of its own value |
| Pointer.NatToStringInjective | index.mjs:10 | different indices have different spellings |
| Pointer.UnescapeWithoutTilde | index.mjs:29 | a token without `~` decodes to itself |
| Pointer.UnescapeSlash | index.mjs:29 | `~1` decodes to `/` |
| Pointer.UnescapeTilde | index.mjs:29 | `~01` decodes to `~1`, the order RFC 6901 section 4 asks for |
| Pointer.UnescapeOnlyFirstSlash | index.mjs:29 | only the first `~1` in a token is decoded; a second one stays as it is |
| Splice.InsertAt | index.mjs:122 | `splice(i, 0, x)`: `x` lands at `i`, earlier elements stay, later ones move one place right |
| Splice.RemoveAt | index.mjs:130 | `splice(i, 1)`: the element at `i` goes, earlier elements stay, later ones move one place left |
| Splice.RemoveInsert | index.mjs:122-130 | removing what was just inserted gives the array back |
| Splice.InsertRemove | index.mjs:122-130 | inserting the removed element where it was gives the array back |
| Splice.SpliceStart | index.mjs:122 | the start `splice` uses for a digit token is its value, or the length when the value is at least the length |
| Splice.IndexMap | index.mjs:62 | spreading an array keys each element by its canonical index, and by nothing else |
| Splice.IndexMapAt | index.mjs:62 | a key is in the spread exactly when it is a canonical index in range, and maps to that element |
| Heap.Node.Array | index.mjs:88 | `[...x]` builds an array node with exactly the given elements |
| Heap.Node.Object | index.mjs:93 | `{...x}` builds an object node with exactly the given properties |
| Heap.Node.Lookup | index.mjs:87 | a node read at a key gives the element at a canonical index in range, or the property, and `undefined` everywhere else |
| Heap.Node.Push | index.mjs:121 | `push` appends the value and changes nothing else |
| Heap.Node.SpliceInsert | index.mjs:122 | `splice(token, 0, v)` inserts at the clamped start and changes nothing else |
| Heap.Node.SpliceReplace | index.mjs:126 | `splice(i, 1, v)` overwrites the element at `i` and changes nothing else |
| Heap.Node.SpliceRemove | index.mjs:130 | `splice(i, 1)` removes the element at `i` and changes nothing else |
| Heap.Node.Delete | index.mjs:131 | `delete` removes exactly that key |
| Heap.Node.Assign | index.mjs:123-138 | a property write sets an object's key, or an array's element in range, or appends just past the end; any other write to an array is reported and writes nothing |
| Heap.Get | index.mjs:87 | reading a property throws exactly on `null` and `undefined`; a node gives its lookup; numbers and booleans give `undefined` |
| Heap.GetDenotes | index.mjs:87 | reading a heap value agrees with reading the JSON value it stands for: same TypeError, same `undefined`, otherwise an element that stands for the JSON element |
| Heap.DenotesUnique | index.mjs:41-143 | a heap value stands for at most one JSON value |
| Heap.Freeze | index.mjs:71 | the JSON value read off the heap for `testEquality` is the one the heap value stands for |
| JsonPatch.Prop | index.mjs:53 | `v[key]` throws exactly when `v` is `undefined` or `null` |
| JsonPatch.Spread | index.mjs:62 | `{...v}` is always an object |
| JsonPatch.RootCopy | index.mjs:41 | the root copy of an array or object equals it, and the copy is always an array or object |
| JsonPatch.Step | index.mjs:81-98 | one turn fails exactly when the token is banned or `pointer` is `undefined` or `null`, with the token's error or a TypeError; a turn that stops counts one more token and read `pointer[component]`, and it stops early only where the read gave `undefined`; a turn that goes on has a token left and a value to read from unless it went back to the root; the whole walk is stated by `HeapWalk.WalkTurns` and `PatchLaws.WalkKeys` |
| JsonPatch.Walk | index.mjs:81-98 | a walk that ends used at least one token and read `pointer[component]` where it stopped; it stops before the last token only where the read gave `undefined`; it fails only with a TypeError or the error of one of its tokens |
| JsonPatch.Check | index.mjs:100-116 | the checks fail only with "path … does not exist" for the operation's path |
| JsonPatch.Assign | index.mjs:123-138 | a write into an object sets the key; into an array it succeeds exactly at a canonical index up to the length; into a scalar it throws |
| JsonPatch.From | index.mjs:52-64 | a `from` walk that succeeds started from a value that is not `null`; a copy leaves the accumulator as it was; failures are "does not exist" or a TypeError |
| JsonPatch.Source | index.mjs:47-65 | only a `move` changes the accumulator before `path` is looked at |
| JsonPatch.Edit | index.mjs:118-140 | the switch throws only a TypeError; what it gives is stated per operation by the `PatchLaws` lemmas that follow |
| JsonPatch.TestPath | index.mjs:133-135 | a `test` at a path that passes hands the accumulator on unchanged |
| JsonPatch.EditPath | index.mjs:76-143 | an edit along a path that succeeds started from a document and leaves one; it fails only with "path … does not exist" for its own path, a banned token or a TypeError; what it leaves is stated per operation by `PatchLaws.AddAtPath`, `PatchLaws.MoveAtPath`, `PatchLaws.CopyAtPath`, `PatchLaws.EditAtSpot` and, on the heap, `HeapApply.EditPathAt` |
| JsonPatch.AtPath | index.mjs:76-143 | an operation at a non-empty path that succeeds started from a document and leaves one; a `test` there hands the accumulator on unchanged; on the heap the same is stated by `HeapApply.PathAt` |
| JsonPatch.AtRoot | index.mjs:70-74 | at the empty path every operation but `test` succeeds, and a `test` succeeds exactly when the accumulator embeds the value; what it leaves is a document; stated further by `PatchLaws.WholeDocument` and `HeapApply.RootAt` |
| JsonPatch.ApplyOp | index.mjs:43-144 | an unknown operation makes the accumulator `undefined`; a known one that succeeds leaves a document; a `test` at a non-empty path that passes leaves the accumulator as it was; per operation by the `PatchLaws` lemmas, on the heap by `HeapApply.ApplyOpAt` |
| JsonPatch.ApplyAll | index.mjs:43-144 | when the last operation is a known one, a fold that succeeds ends with a document; a fold of `test`s at non-empty paths that passes ends with the accumulator it started from; `PatchLaws.ApplyTwo` states that two operations in a row apply one after the other |
| JsonPatch.ApplyPatch | index.mjs:38-145 | `ops` not an array or empty gives `doc`; a patch ending in a known operation that succeeds gives a document; a patch of `test`s at non-empty paths that passes on an array or object gives back that document; on the heap by `HeapApply.ApplyPatchAt` |
| PatchLaws.ApplyTwo | index.mjs:43-144 | the `reduce` over two operations applies the second to the accumulator the first gives, and stops at the first one's error |
| PatchLaws.AddMember | index.mjs:120-124 | `add /t` on an object creates or overwrites key `t` |
| PatchLaws.ReplaceMember | index.mjs:125-128 | `replace /t` overwrites key `t`; a missing key does not exist |
| PatchLaws.RemoveMember | index.mjs:129-132 | `remove /t` deletes key `t`; a missing key does not exist |
| PatchLaws.TestMember | index.mjs:133-135 | `test /t` on an object passes, keeping the object, exactly when the member embeds in the value; a missing key does not exist |
| PatchLaws.AddRemoveMember | index.mjs:120-132 | adding a new key and removing it gives the object back |
| PatchLaws.AddThenTestMember | index.mjs:120-135 | a value just added passes a `test` against itself |
| PatchLaws.MoveMember | index.mjs:47-139 | `move` from `/a` to `/b` deletes `a` and stores its value under `b` |
| PatchLaws.CopyMember | index.mjs:47-139 | `copy` from `/a` to `/b` stores the spread of `a`'s value under `b` |
| PatchLaws.MoveOrCopyNull | index.mjs:54 | a `null` at `from` counts as missing |
| PatchLaws.RemoveEmptyPath | index.mjs:70-132 | `remove` with the empty path deletes the key `""` instead of the whole document |
| PatchLaws.AppendDash | index.mjs:121 | `add /-` appends to an array |
| PatchLaws.InsertDigits | index.mjs:122 | `add` with a digit token inserts at the clamped start |
| PatchLaws.AddPastEndAppends | index.mjs:122 | an `add` index past the end appends instead of failing |
| PatchLaws.ReplaceElement | index.mjs:126 | `replace` overwrites the array element at a canonical index in range |
| PatchLaws.RemoveElement | index.mjs:130 | `remove` deletes the array element at a canonical index in range |
| PatchLaws.NonDigitToken | index.mjs:113 | under an array, a token that is neither `-` nor digits does not exist |
| PatchLaws.AddRemoveElement | index.mjs:120-132 | inserting at an index up to the length, then removing there, gives the array back |
| PatchLaws.CopySource | index.mjs:52-62 | copying from an array element takes the spread of that element and leaves the array as it is |
| PatchLaws.CopyElement | index.mjs:136-139 | `copy` into an array overwrites the element instead of inserting |
| PatchLaws.WholeDocument | index.mjs:70-74 | with the empty path, `add`/`replace` give the value, `test` passes exactly when the accumulator embeds in the value and then gives the value, and `move`/`copy` give their target |
| PatchLaws.UndefinedAccumulator | index.mjs:44 | an unknown operation leaves `undefined`, and every later known operation at a non-empty path fails |
| PatchLaws.UndefinedFails | index.mjs:47-98 | every known operation at a non-empty path fails on an `undefined` accumulator |
| PatchLaws.TestKeepsDocument | index.mjs:133-143 | a `test` at a non-empty path that passes keeps the accumulator |
| PatchLaws.BannedFrom | index.mjs:51 | a banned token anywhere in `from` fails a move or copy with the banned error |
| PatchLaws.BannedPathHead | index.mjs:84 | a banned first token of `path` fails every operation that walks it |
| PatchLaws.AtPut | index.mjs:143 | writing at a reachable position and reading it back gives the written value, and the position stays reachable |
| PatchLaws.PutAt | index.mjs:143 | putting back the value found at a position changes nothing |
| PatchLaws.PutPut | index.mjs:143 | a second write at the same position overrides the first |
| PatchLaws.WalkKeys | index.mjs:81-98 | without an empty token, the walk stops one token after the keys it went down, and those keys are the decoded tokens in order |
| PatchLaws.WalkPath | index.mjs:81-98 | a walk through existing containers stops at the last token, or at the first missing element |
| PatchLaws.MissingOnTheWay | index.mjs:100-102 | a missing element before the last token fails every operation but `move` and `copy` with the path |
| PatchLaws.WalkLast | index.mjs:81-98 | the walk of a path whose parent exists stops at that parent, and finds there the value at the path |
| PatchLaws.CheckFailsAtSpot | index.mjs:100-116 | an operation whose walk fails the checks fails with its path |
| PatchLaws.EditAtSpot | index.mjs:118-143 | an `add`, `replace` or `remove` whose edit succeeds gives the document with the edited container put back along the walk's keys |
| PatchLaws.AddAtPath | index.mjs:120-124 | `add` under an object at any depth sets the member; under a scalar it throws |
| PatchLaws.AddAtArrayPath | index.mjs:120-122 | `add` under an array at any depth appends for `-` and inserts at the clamped start for digits |
| PatchLaws.NonDigitAtArrayPath | index.mjs:113 | under an array at any depth, a last token that is neither `-` nor digits does not exist |
| PatchLaws.MissingAtPath | index.mjs:104-106 | `replace`, `remove` and `test` fail with the path where nothing is found |
| PatchLaws.ReplaceAtPath | index.mjs:125-128 | `replace` at any depth overwrites the value found there |
| PatchLaws.RemoveAtPath | index.mjs:129-132 | `remove` at any depth removes the value found there |
| PatchLaws.TestAtPath | index.mjs:133-135 | `test` at any depth passes exactly when the value found embeds in the expected one, keeping the document |
| PatchLaws.AddThenTestAtPath | index.mjs:120-135 | at any depth, a value just added under an object passes a `test` against itself |
| PatchLaws.AddRemoveAtPath | index.mjs:120-132 | at any depth, adding a new member and removing it gives the document back |
| PatchLaws.FromAt | index.mjs:47-65 | a `from` path that reaches a value other than `null`, at any depth: a move hands that value out and deletes it from its container, everything else in place; a copy hands out its spread and leaves the accumulator as it is |
| PatchLaws.FromMissing | index.mjs:52-55 | a `from` path that misses at any depth, where some token reads `undefined` or `null`, makes a move or copy throw "path … does not exist" for its `from`; `HeapPatch.TakeFrom` fails exactly as `From` does, so the heap walk throws the same |
| PatchLaws.MoveAtPath | index.mjs:47-139 | `move` at any depth: the value at `from` is deleted first; then an object parent of `path` gets it under the last token, and a scalar parent throws |
| PatchLaws.CopyAtPath | index.mjs:47-139 | `copy` at any depth: an object parent of `path` gets the spread of the value at `from` under the last token, the rest of the document unchanged; a scalar parent throws |
| PatchLaws.RestartTokens | index.mjs:67 | `/a//b` splits into `a`, the empty token, and `b` |
| PatchLaws.RestartWalks | index.mjs:82-83 | once `a[""]` exists, the walks of `/a//b` and `/b` stop at the same place |
| PatchLaws.EmptyTokenRestarts | index.mjs:82-83 | `/a//b` addresses what `/b` addresses; only the path named in a "does not exist" error differs |
| HeapWalk.AgreeButLookup | index.mjs:88-94 | a copy that differs from its original at most at the walked key reads, at every other key, what the original holds |
| HeapWalk.WalkTurns | index.mjs:81-98 | after a token is read, the JSON walk stops there when it was the last token or the read gave `undefined`; otherwise it goes back to the root after an empty token, or down with the token added to its keys |
| HeapWalk.Clone | index.mjs:88-93 | `[...x]` / `{...x}` gives a fresh node of the same kind with the same elements |
| HeapWalk.CloneDenotes | index.mjs:88-93 | a clone stands for what its original stands for |
| HeapWalk.CopyChild | index.mjs:87-94 | an array or object at `pointer[component]` is replaced by a fresh copy that stands for the same element, and the rest of the copied path is kept |
| HeapWalk.Visit | index.mjs:87-94 | the read at `pointer[component]` throws and gives `undefined` where the JSON read does; a container read there is replaced by a fresh copy |
| HeapWalk.Read | index.mjs:97 | for `test`, the read throws where the JSON read does and otherwise stands for the JSON element |
| HeapWalk.Token | index.mjs:84 | the token decoded at each turn is `escapeComponent` of the raw token |
| HeapWalk.ReadTurn | index.mjs:81-98 | one turn for `test` fails, stops or goes on exactly as `Step` does |
| HeapWalk.WalkRead | index.mjs:81-98 | the loop for `test` copies nothing, and fails and stops exactly where `Walk` does, at a value standing for what `Walk` finds |
| HeapWalk.CopyTurn | index.mjs:81-98 | one copying turn reads as the JSON walk does, and stops, goes down into a fresh copy, or goes back to the root |
| HeapWalk.CopyStep | index.mjs:81-98 | one copying turn fails, stops and goes on where `Step` does |
| HeapWalk.WalkCopy | index.mjs:81-98 | the copying loop fails and stops where `Walk` does; it writes only the root and fresh copies; the node where it stops ends a copied path from the root; each copy on that path holds, off the path, what its original in the input holds |
| HeapPatch.Materialize | index.mjs:120-127 | an operation's value enters the heap as fresh nodes that stand for it |
| HeapPatch.SpreadValue | index.mjs:62 | `{...v}` is a fresh object that stands for the JSON spread of `v` |
| HeapPatch.SpreadDenotes | index.mjs:62 | an object holding the own properties of a value stands for the spread of its JSON value |
| HeapPatch.CopyRoot | index.mjs:41 | the root copy is a fresh node standing for `RootCopy` of the document |
| HeapPatch.TakeStep | index.mjs:53-55 | a step of the `from` walk before the last token hands on the element read, and fails as `From` does |
| HeapPatch.TakeLast | index.mjs:53-63 | the last `from` step fails and gives the target as `From` does; a copy writes nothing; a move takes the element out of its container in place |
| HeapPatch.WalkInPlace | index.mjs:52-55 | the `from` tokens before the last are followed without copying, and fail as `From` does |
| HeapPatch.TakeFromInPlace | index.mjs:47-65 | the `from` walk as written: its target and error agree with `From`, and a move takes the last token out of a container that, below the top level, belongs to the input document |
| HeapPatch.ScalarMoveFails | index.mjs:58-59 | a move whose walk reaches a scalar fails |
| HeapPatch.TakeOut | index.mjs:58-59 | `splice(c, 1)` or `delete` at the end of the copied path removes exactly that element |
| HeapPatch.FromTurn | index.mjs:53-55 | a copying step of the `from` walk reads what `From` reads and enters a fresh copy |
| HeapPatch.FromStep | index.mjs:53-55 | a copying step fails as `From` does, or keeps the walk where `From` goes on |
| HeapPatch.FromLastCopy | index.mjs:61-62 | the last step of a copy hands on a fresh spread of the element and writes nothing |
| HeapPatch.FromLastMove | index.mjs:57-60 | the last step of a move takes the element out of the last copied node and hands it on |
| HeapPatch.MoveLifts | index.mjs:57-60 | after that, the root stands for the accumulator `From` gives |
| HeapPatch.FromEnd | index.mjs:53-63 | seen from the root, the last step fails, gives the target and leaves the accumulator as `From` does |
| HeapPatch.FromWalk | index.mjs:52-55 | the copying `from` walk up to its last token fails as `From` does, and writes only the root and fresh copies |
| HeapPatch.TakeFrom | index.mjs:47-65 | the corrected `from` walk fails exactly as `From` does, with the same error; it gives the target and leaves the accumulator `From` gives; it writes only the root node; a copy's target is fresh |
| HeapApply.AddToArray | index.mjs:120-122 | `push` or `splice` on an array node gives the array `Edit` gives |
| HeapApply.SpliceArray | index.mjs:125-132 | `splice` for `replace` and `remove` gives the array `Edit` gives |
| HeapApply.WriteArray | index.mjs:118-140 | the switch on an array node fails exactly where `Edit` does; otherwise the node stands for the array `Edit` gives, and its elements are those `push`, `splice` or the property write leave |
| HeapApply.WriteObject | index.mjs:118-140 | the switch on an object node fails exactly where `Edit` does; otherwise the node stands for the object `Edit` gives, and its properties are those `delete` or the property write leave |
| HeapApply.WriteAt | index.mjs:118-140 | the switch on any node: the array or the object case |
| HeapApply.WriteKeeps | index.mjs:87-140 | a container that held its original's entries but at the last token still holds them, after the switch, but at the entries written or copied, shifted where `splice` shifts |
| HeapApply.ArrayWriteKeeps | index.mjs:120-139 | on elements, `push`, `splice` and the property write keep every element of the original except the written one and the walk's copy, where `splice` moves them |
| HeapApply.ObjectWriteKeeps | index.mjs:123-138 | on properties, `delete` and the property write keep every key of the original but the last token |
| HeapApply.EditedButLookup | index.mjs:123-138 | in an edited object, every key but the last token reads the input's own value |
| HeapApply.EditedButBefore | index.mjs:120-139 | in an edited array, every element before the position written is the input's own |
| HeapApply.EditAt | index.mjs:118-140 | the switch at the end of the copied path agrees with `Edit` and keeps the rest of the path, still sharing with its originals; the edited node keeps its original's entries but at the last token (`EditedBut`) |
| HeapApply.EditScalarFails | index.mjs:123-131 | writing or deleting a property of a scalar throws |
| HeapApply.CheckAt | index.mjs:100-116 | the checks on the heap walk's result agree with `Check` on the JSON walk's result |
| HeapApply.RootAt | index.mjs:70-74 | the whole-document branch fails as `AtRoot` does and otherwise stands for its result; the new accumulator is a fresh node, or the fresh spread of a copy |
| HeapApply.Detach | index.mjs:73 | a shallow copy of a moved value stands for the same JSON value and is fresh |
| HeapApply.RootAtAsWritten | index.mjs:70-74 | as written, the whole-document branch agrees with `AtRoot` but hands on a move's target node itself |
| HeapApply.TestAt | index.mjs:76-135 | `test` at a path fails exactly as `TestPath` does, with the same error, and otherwise hands on the accumulator untouched |
| HeapApply.WalkChecked | index.mjs:76-116 | the walk with copies and the checks throw where `EditPath` throws before the switch; otherwise they stop where the JSON walk stops, at a spot that passes the checks, on the accumulator's node or a fresh copy |
| HeapApply.EditFound | index.mjs:118-143 | the edit at the end of the walk fails as `Edit` does, and otherwise the accumulator stands for the root with the edited container put back; on a path with no empty token, the copies along it share every off-path entry with the input, the edited container's included (`PathCopies`) |
| HeapApply.WalkShape | index.mjs:81-94 | a walk with copies along a path with no empty token makes one copy per token, led to by the decoded tokens, none of them a node of the input |
| HeapApply.FrontCopies | index.mjs:88-94 | copies linked along the path that agree with their originals but at the path's keys hold, at every other key, the very value their originals hold; with the edited last copy, that is `PathCopies` |
| HeapApply.EditPathAt | index.mjs:76-143 | every operation but `test` at a path fails exactly as `EditPath` does, and otherwise updates the accumulator node to stand for its result; on a path with no empty token, from a node that held what an input node holds, the path's copies share every off-path entry with the input's nodes, the edited container's included |
| HeapApply.SourceAt | index.mjs:46-65 | what a move or copy takes from `from`, and the error it throws, agree with `Source`; the target reads no node of the accumulator's; other operations leave the accumulator untouched |
| HeapApply.PathAt | index.mjs:76-143 | lines 76-143 fail exactly as `AtPath` does and otherwise stand for its result; an `add`, `replace` or `remove` keeps the off-path sharing of `EditPathAt` |
| HeapApply.ValueIn | index.mjs:120-139 | the value put in stands for the operation's value or the target, and reads no node of the accumulator's |
| HeapApply.ApplyOpAt | index.mjs:43-144 | one step of the `reduce` fails exactly as `ApplyOp` does, with the same error; otherwise it stands for the accumulator `ApplyOp` gives, which is the old accumulator node or a fresh one; an `add`, `replace` or `remove` at a path with no empty token leaves copies along the path that share every off-path entry with the input, the edited container's included |
| HeapApply.ApplyPatchAt | index.mjs:38-145 | `applyPatch` fails exactly as `ApplyPatch` does, with the same error; otherwise it stands for its result; it writes no node that existed before the call; `ops` not an array or empty gives `doc` itself; when operations ran, the result's root is a fresh node; after one `add`, `replace` or `remove` at a path with no empty token, the result's root is a copy of `doc`'s node and every path node a copy, none of them an input node, of the input's node there; every entry off the path is the input's own value, and so is every entry of the edited container but the one written and the one the walk copied, shifted where `splice` shifts them |
| Findings.NestedJson | index.mjs:38-41 | a document shaped like `{"a": {"b": 1}}` on the heap, as a JSON value |
| Findings.MoveOne | index.mjs:52-60 | a move of a top-level member takes it out of the copied root |
| Findings.MoveTwo | index.mjs:52-60 | a move from `/a/b` succeeds on such a document |
| Findings.DeepMoveWritesInput | index.mjs:52-60 | as written, a move from `/a/b` deletes `b` from the input's own object at `/a` |
| Findings.TakeInner | index.mjs:52-60 | a move from `/a` hands out the input's own object at `/a` |
| Findings.MoveToRootAsWritten | index.mjs:73 | as written, a move from `/a` to `""` makes the input's own object the accumulator |
| Findings.RootMoveWritesInput | index.mjs:73-123 | as written, a later `add /c` then writes `c` into the input's own object |
| Findings.CorrectedLeavesInput | index.mjs:38-145 | the same two patches through the corrected model leave the input's object unchanged |

## Left out

- Arrays carry only their elements. A write of a named property, a
  sparse index or `length` on an array is reported as `RuntimeFault`,
  because it does not give a JSON value. That happens when a `move` or
  `copy` writes to `/-` of an array, or to an index more than one past the
  end. The JavaScript code would set an ordinary property or leave a
  hole.
- `Equality.EntriesEqual`: object key order is not modelled, because
  objects are maps. The model reports a TypeError whenever any entry
  throws, for instance where the first object has `null` and the second
  an object. The code stops at the first differing entry in insertion
  order and returns false without reaching a later entry that would throw.
  So `testEquality({"a":1,"b":null}, {"a":2,"b":{}})` is false in the code
  and a `RuntimeFault` in the model. A `test` built on such a pair fails
  with a different error, not with `ERR_ASSERTION`.
- Numbers are integers. Floating point, `NaN` and `-0` are left out.
- `Equality.Member`: a read gives only array elements, string
  characters and object members. The `length` of an array or a string,
  and inherited properties such as `toString`, read as `undefined`. The
  banned keys keep the prototype out of writes. Observable consequences:
  - `test /s/length` with value 3 on `{"s":"abc"}` passes in the code
    and fails with "does not exist" in the model.
  - A `move` from `/arr/length` runs `splice("length", 1)` in the code,
    which removes element 0 and hands on the old length. The model fails
    with "does not exist". A `copy` from there gives `{}` in the code.
  - A `replace` at `/s/length` throws a TypeError in the code (a write to
    a string) and fails with "does not exist" in the model.
- `Heap.Freeze`: `testEquality` only reads, so it is modelled on the JSON
  value the heap value stands for, not on the heap itself.
- `HeapPatch.Materialize`: the operation's `value` enters the heap as fresh
  nodes. The code stores the caller's `item.value` object itself. After an
  `add`, `replace` or `test` at `""`, a later operation would write into
  the caller's value object. That sharing is not modelled.
- The `ops` argument is an array of well-formed operation records or
  something else (`JsonPatch.Ops`). A record whose `path` is missing or is
  not a string (a TypeError at `substr`) is not modelled.
- The messages of thrown errors are left out. Only their kind and the
  path or token they name are kept.
- `JsonPatch.From`: it models the corrected `from` walk, not the code as
  written. The code deletes a moved value from containers that the copied
  root shares with the input, or with the spread target of an earlier
  `copy`. So `applyPatch({"a":{"x":{"y":1}}}, [copy /a to /b, move /a/x/y
  to /z])` gives `{"a":{"x":{}},"b":{"x":{}},"z":1}` in the code: the
  spread at line 62 shares `x` between `a` and `b`. The model gives `b.x.y`
  still 1. The write into shared containers is the first finding.
- `HeapPatch.TakeFromInPlace`: the accumulator is stated in terms of
  `From` only when the last token is at the top level. Below it, the
  contract states the write into the holder node instead, which is the
  point of the finding.
- `HeapApply.ApplyPatchAt`: which nodes the result shares with the input
  is stated only for a patch of one `add`, `replace` or `remove` at a path
  with no empty token. For longer patches, for `move` and `copy`, for the
  whole-document branch and for paths that restart at the root, the
  contract states the JSON value of the result and that no input node is
  written, but not the sharing. The reason is that the sharing is tracked
  along one chain of copies from the root:
  - every later operation copies along its own path, from nodes that are
    already copies;
  - a move or copy also walks `from`;
  - a restart goes back to the root in the middle of the path.
  Stating the sharing for these would need one chain of copies per walk,
  which the model does not keep. The element the walk copied at the last
  token (lines 87-94) is stated only through the JSON value it stands
  for. After an insert it sits one place right of the written one, and it
  is a copy when it is a container and the input's own value otherwise.
- `HeapApply.EditFound`: the edited container is stated through
  `EditedBut`, which leaves out one entry. After an `add` at an index
  inside an array, the element one place right of the written one is the
  walk's copy from lines 87-94. It is a fresh node when it is a container
  and the input's own value otherwise, and the model ties it to its
  original only through the JSON value both stand for.
- `HeapApply.EditAt`: the same entry is left out as for `HeapApply.EditFound`.
- `HeapApply.EditPathAt`: the same entry is left out as for `HeapApply.EditFound`.
- `HeapApply.PathAt`: the same entry is left out as for `HeapApply.EditFound`.
- `HeapApply.ApplyOpAt`: the same entry is left out as for `HeapApply.EditFound`.
- `PatchLaws.MoveAtPath`: stated for a target parent that is not an
  array. A move into an array is the plain assignment of
  `PatchLaws.CopyElement`, stated for a one-token path.
- `PatchLaws.CopyAtPath`: stated for a target parent that is not an
  array, for the same reason as `PatchLaws.MoveAtPath`.
- `PatchLaws.FromAt`: stated for `from` paths through arrays and objects
  (`PatchLaws.Reaches`). A `from` that ends at a character of a string,
  such as a copy from `/s/0` with `s` a string, is left out; `From` itself
  models it (`Equality.Member` reads the character), and a copy from there
  gives the spread of a one-character string.
- `Equality.TestEquality`: its contract only bounds the error. What it
  computes is stated by `Equality.TestEqualityIsEmbedding`.
- The model has no I/O, clock or randomness; the code has none either.

## Findings

| source | as written | input that shows it | evidently intended | confidence | as-written member | corrected member |
|---|---|---|---|---|---|---|
| index.mjs:52-60 | the `from` walk follows tokens from the root copy without copying anything, so a `move` whose `from` has two or more tokens runs `delete`/`splice` on a container that belongs to the input document | `applyPatch({"a":{"b":1}}, [{"op":"move","from":"/a/b","path":"/c"}])` deletes `b` from the caller's object at `a`; and after a `copy` the spread target shares containers with its source, so `applyPatch({"a":{"x":{"y":1}}}, [copy /a to /b, move /a/x/y to /z])` gives `{"a":{"x":{}},"b":{"x":{}},"z":1}` | neither the input document nor an earlier copy's target is written, as the copying walk along `path` already ensures; `JsonPatch.From` and `HeapPatch.TakeFrom` give `b.x.y` still 1 | not executed | Findings.DeepMoveWritesInput | HeapPatch.TakeFrom |
| index.mjs:73 | a `move` to `""` returns the moved value itself, a node of the input document, as the new accumulator, and later operations write into it | `applyPatch({"a":{"b":1}}, [{"op":"move","from":"/a","path":""},{"op":"add","path":"/c","value":2}])` adds `c` to the caller's object at `a` | the new accumulator is a copy, as the root is at line 41 | not executed | Findings.RootMoveWritesInput | HeapApply.RootAt |
