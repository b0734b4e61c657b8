# transformErrors, modelled in Dafny

The repository holds one function, `transformErrors` (test.js), and one test of it. The
function turns the error object that a form-validation API returns into messages that
can be shown. The input is a map from field names to nested lists and maps whose leaves
are message strings, plus a skip list of field names.

- A field **not on the skip list** is flattened, repeated messages are dropped, the rest
  are joined with `". "`, and a final `"."` is added. How much `flatten()` keeps depends
  on the value:
  - A list value yields all its messages at any depth, numbered as they come.
  - A map value yields each message under the key it has in its innermost container (a
    list index or a map key), and the result is rebuilt as a map. A later message under
    the same innermost key overwrites an earlier one, so some messages can be lost (see
    "## Findings").
- A field **on the skip list** keeps its outer list or map. Each child of that value
  goes through `deepJoin`:
  - An empty list or map is returned as it is.
  - A list or map whose children are all messages becomes one message: the children
    joined with `"."`, then a final `"."`. A map's keys are lost in this step.
  - Any other list or map keeps its kind and shape, and `deepJoin` recurses into each
    child.

The model is pure, like the source. An error node is the datatype
`Node = Leaf(msg) | List(items) | Rec(fields)`. A map is the sequence of its entries
(`Entry(key, val)`) in insertion order, because a map's `join` and `flatten` follow that
order.

- `text.dfy` (module `Text`): join, split, de-duplication and concatenation of
  sequences. It also proves that splitting undoes joining.
- `transform_errors.dfy` (module `ErrorTree`): flattening (the flatten of a list, and
  the keyed flatten of a map with the map it rebuilds), `deepJoin`, `map(deepJoin)` and
  `transformErrors`, with their properties.
- `fixture.dfy` (module `Fixture`): the repository's test case, proved end to end.

In the source, `deepJoin` throws a `TypeError` when it reaches a bare string, because
strings have no `isEmpty`. This happens when a container mixes messages with
sub-containers, or when a skip-listed value has a message as a direct child. A top-level
value that is a bare string throws too, since it has neither `flatten` nor `map`. The
model states these conditions as preconditions. `Joinable` and `ChildrenJoinable` say
when `deepJoin` runs to completion, and `Completes` says when `transformErrors` does.

Further points of test.js that the model keeps:

- `deepJoin` runs on the children of a skip-listed map as well as of a skip-listed list
  (`url` in the test is a map).
- The `". "`-separated segments of a flattened value are distinct only when no message
  contains `". "`. `SegmentsAmbiguous` gives two distinct messages whose segments repeat.

## Model

| member | source | states |
|---|---|---|
| `ErrorTree.TransformErrors` | test.js:27-30 | The result has the input's keys, in the same order. A key not on the skip list gets `FlattenJoin` of its value, with the keyed flatten for a map value. A key on the skip list gets its value with `deepJoin` applied to each direct child only. Defined only when the call runs to completion (`Completes`). |
| `ErrorTree.Completes` | test.js:27-30 | The call runs to completion exactly when every value is a list or a map and every child of a skip-listed value is one `deepJoin` can finish. A bare string has neither `flatten` nor `map` and throws. |
| `ErrorTree.Flatten` | test.js:30 | The deep `flatten` of a list value: every leaf message, left to right, repeats included. For a map value the source keeps fewer (`FlattenValues`). |
| `ErrorTree.FlattenOccurs` | test.js:30 | `Flatten` yields a message exactly when that message is a leaf at some depth of the value. This is what a list value's `flatten()` keeps. A map value's `flatten()` can keep fewer (`MapFlattenKeepsLast`). |
| `ErrorTree.KeyedLeaves` | test.js:30 | The entries a map value's `flatten()` produces: each leaf under the key it has in its innermost container. |
| `ErrorTree.KeyedLeavesMsgs` | test.js:30 | The keyed flatten visits the same leaves, in the same order, as `Flatten`; only the keys differ. |
| `ErrorTree.SlotIndex` | test.js:30 | Finds the position of a key in a map: the first entry with that key (no earlier entry has it), or -1 exactly when no entry has it. |
| `ErrorTree.Put` | test.js:30 | `set`, as used when the flattened map is rebuilt. The result never holds a key twice. Where the entry goes is stated by `PutPositions`. |
| `ErrorTree.PutPositions` | test.js:30 | An existing key keeps its position and takes the new message, every other entry stays where it was, and the length is unchanged. A new key goes at the end, one position past the old entries. This fixes the order of a map value's joined message. |
| `ErrorTree.PutMembers` | test.js:30 | After `set` the map holds the new entry and every old entry under another key, and nothing else. |
| `ErrorTree.Rebuild` | test.js:30 | Building a map from the keyed leaves by setting them in order. The result never holds a key twice. |
| `ErrorTree.RebuildKeepsLast` | test.js:30 | An entry is in the rebuilt map exactly when no later entry has the same key. |
| `ErrorTree.RebuildOfDistinct` | test.js:30 | Rebuilding entries whose keys are all different changes nothing. |
| `ErrorTree.FlattenValues` | test.js:30 | What `flatten()` hands to `toSet()`: `Flatten` for a list value, and the messages of the rebuilt map for a map value. |
| `ErrorTree.FlattenValuesSound` | test.js:30 | Every message `flatten()` yields, for a list or a map value, is a leaf of the value. |
| `ErrorTree.FlattenValuesEmpty` | test.js:30 | `flatten()` yields nothing exactly when the value holds no message. |
| `ErrorTree.MapFlattenKeepsLast` | test.js:30 | For a map value, a message survives `flatten()` exactly when it sits at a leaf whose innermost key no later leaf shares. |
| `ErrorTree.FlattenAgrees` | test.js:30 | For a list value, or a map value whose leaves all have different innermost keys, `flatten()` keeps every leaf. The source's result then equals `FlattenJoinAll`. |
| `ErrorTree.FlattenJoin` | test.js:30 | The value for a key not on the skip list is non-empty and ends with `"."`. |
| `ErrorTree.FlattenJoinWrittenSegments` | test.js:30 | Take a value holding at least one message, none containing `". "`. Cut before the final `"."` and at each `". "`, the result is `toSet` of what `flatten()` yields. The segments are pairwise distinct and each is a message of the value. For a list value every message is among them. |
| `ErrorTree.FlattenJoinAll` | test.js:30 | The corrected flatten-and-join that keeps every leaf of a map value too. The result is non-empty and ends with `"."`. |
| `ErrorTree.FlattenJoinSegments` | test.js:30 | For `FlattenJoinAll`: take a value holding at least one message, none containing `". "`. Cut before the final `"."`, the `". "`-separated segments are pairwise distinct and are exactly the messages at any depth. |
| `ErrorTree.FlattenJoinNoMessages` | test.js:30 | A value holding only empty containers becomes exactly `"."`. |
| `ErrorTree.SegmentsAmbiguous` | test.js:30 | If a message contains `". "`, the segments can repeat although the messages are distinct. `"a. b"` and `"b"` give segments `a, b, b`. |
| `ErrorTree.MapFlattenDropsMessage` | test.js:27-30 | With an empty skip list, `{f: {code: [x], id: [y]}}` becomes `{f: "y."}` for any distinct `x` and `y`. Keeping every leaf would give `"x. y."`. |
| `Text.Join` | test.js:21 | `join(sep)`: the parts with `sep` between neighbours. `SplitJoin` undoes it. |
| `Text.SplitJoin` | test.js:21 | Splitting a `join(sep)` at `sep` gives the parts back, when no occurrence of `sep` starts inside a part followed by `sep`. This holds when no part contains `sep`'s first character (`AvoidsClean`), or, for `". "`, when no part contains `". "` (`DotSpaceClean`). |
| `Text.DedupJoinSplit` | test.js:30 | Take the distinct messages joined with `". "`. Split at `". "`, they come back exactly, when no message contains `". "`. |
| `Text.Dedup` | test.js:30 | The `toSet` step: the result has no repeats and holds exactly the input's values. |
| `Text.DedupOfDistinct` | test.js:30 | Removing duplicates from a sequence that has none returns it unchanged, in the same order. |
| `ErrorTree.Joinable` | test.js:17-25 | `deepJoin` runs to completion exactly when its argument is a list or a map, and is either all messages (or empty) or has children it can finish. A bare string has no `isEmpty` and throws. |
| `ErrorTree.ChildrenJoinable` | test.js:23 | `map(deepJoin)` runs to completion exactly when `deepJoin` does on every child. |
| `ErrorTree.DeepJoin` | test.js:17-25 | An empty container is returned unchanged. The result is a message exactly when the input is a non-empty container of messages. Otherwise the kind is kept: a list stays a list, a map stays a map. |
| `ErrorTree.MapDeepJoin` | test.js:23 | `map(deepJoin)` gives a container of the same kind. A list keeps its length and a map keeps its keys in order. Each child is replaced by its `deepJoin`. |
| `ErrorTree.DeepJoinCollapse` | test.js:20-21 | A non-empty container of messages, none containing `"."`, collapses to one message. Cutting it at `"."` before the final `"."` gives the messages back in order. |
| `ErrorTree.RecordKeysDropped` | test.js:20-21 | A map of messages collapses exactly like the list of its values, so its keys do not survive. |
| `ErrorTree.MixedNotJoinable` | test.js:18-23 | A list that mixes a message with a container is not one `deepJoin` can finish: the call reaches the message and throws. |
| `ErrorTree.DeepJoinTerminated` | test.js:21 | Every message in a `deepJoin` result, at any depth, ends with `"."`. |
| `ErrorTree.MapDeepJoinTerminated` | test.js:29 | Every message in a transformed skip-listed value ends with `"."`. |
| `ErrorTree.DeepJoinKeepsMessages` | test.js:17-25 | `deepJoin` loses no message and keeps their order. Cutting each result message back at its `"."`s gives the input's messages, left to right, when none contains `"."`. |
| `ErrorTree.MapDeepJoinKeepsMessages` | test.js:29 | The same for a whole skip-listed value: no message is lost and the order is kept. |
| `Fixture.PlaceholdersKept` | test.js:38 | The `{}` placeholders in a skip-listed list are kept as `{}`, beside a joined sibling. |
| `Fixture.SiteJoins` | test.js:44-49 | The nested `site` map becomes `{site: {code: "…invalid.", id: "Unsupported id."}}`. |
| `Fixture.TagsFlattenJoin` | test.js:50-59 | The `tags` value becomes its three distinct messages in first-occurrence order, joined with `". "`, plus `"."`. |
| `Fixture.TagFlattenJoin` | test.js:60-64 | The `tag` map has a single leaf, so its keyed flatten keeps it: the value becomes that message plus `"."`. |
| `Fixture.TransformExample` | test.js:35-93 | For any seven messages that are distinct where the test's are, the test's input maps to its expected output. |
| `Fixture.FixtureTransform` | test.js:73-93 | The test's own input and skip list `['url', 'urls']` give exactly the expected object. |

## Left out

- Immutable.js itself (test.js:1) is not modelled: `fromJS`/`toJS`, hashing and value equality of collections. Input and output are the datatype directly. Of Immutable's behaviour, the model keeps the keyed `flatten` of a map and the map `set` it rebuilds with.
- The mocha `it` harness and `assert.deepEqual` (test.js:2, 33, 75) are not modelled. The test's data is kept as the `Fixture` lemmas.
- Iteration order is modelled as insertion order. Immutable's `Map` and `Set` keep insertion order only up to 8 entries and use hash order beyond that. So for larger maps, and for more than 8 distinct messages after `toSet`, the source's order can differ from the model's. The properties about distinctness and about which messages appear do not depend on order.
- FlattenJoin: de-duplication keeps each message's first occurrence, which matches the test's output. The order of a larger `Set` (see above) is not modelled.
- FlattenJoinWrittenSegments: stated only for messages in which `". "` does not occur, because such a message makes the segments ambiguous (`SegmentsAmbiguous`). For a map value it states that the segments are messages of the value; which ones is `MapFlattenKeepsLast`.
- FlattenJoinSegments: stated only for messages in which `". "` does not occur, for the same reason.
- DeepJoinCollapse: stated only for messages without `"."`, since the collapse joins with `"."` itself.
- DeepJoinKeepsMessages: stated only for messages without `"."`, for the same reason.
- MapDeepJoinKeepsMessages: stated only for messages without `"."`, for the same reason.
- Leaves that are not strings (numbers, `null`) fall outside the datatype; the source assumes string leaves.
- The `TypeError` the source throws on a bare string is modelled as a precondition (`Joinable`, `ChildrenJoinable`, `Completes`) rather than as an error result.
- Maps with repeated keys: `Rec` and the top-level entry sequence admit them, while an Immutable `Map` cannot hold them. No property relies on keys being unique. The map that `flatten()` rebuilds is modelled with unique keys (`Put`, `Rebuild`).

## Findings

| source | as written | input that shows it | evidently intended | confidence | as-written member | corrected member |
|---|---|---|---|---|---|---|
| test.js:30 | A map value's `flatten()` keeps one message per innermost key. A later message under the same list index or map key overwrites an earlier one. | `{f: {code: ['x'], id: ['y']}}` with an empty skip list gives `{f: 'y.'}` | every message of the value, distinct and joined: `{f: 'x. y.'}` | medium, not executed | `ErrorTree.MapFlattenDropsMessage` | `ErrorTree.FlattenJoinSegments` |

`TransformErrors` follows the code as written. `FlattenJoinAll` is the corrected definition, and `FlattenJoinSegments` proves the intended property about it. `FlattenAgrees` proves the two coincide for list values and for map values whose leaves have different innermost keys. Every non-skip-listed value in the test is of that kind.
