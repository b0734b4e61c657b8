/**
 The error transform `transformErrors` and its helper `deepJoin`.

 An error structure is a tree whose leaves are messages and whose inner
 nodes are lists or maps. A map is kept as the sequence of its entries in
 insertion order, because joining a map's values follows that order.
 */
module ErrorTree {
  import opened Text

  datatype Node =
    | Leaf(msg: string)
    | List(items: seq<Node>)
    | Rec(fields: seq<Entry>)

  datatype Entry = Entry(key: string, val: Node)

  /** The keys of a map, in order. */
  function Keys(es: seq<Entry>): seq<string>
  {
    seq(|es|, i requires 0 <= i < |es| => es[i].key)
  }

  /** A list or a map, the only nodes with `map`, `flatten` and `isEmpty`. */
  predicate IsContainer(n: Node)
  {
    !n.Leaf?
  }

  /** A container without children. */
  predicate IsEmpty(n: Node)
  {
    match n
    case Leaf(_) => false
    case List(items) => items == []
    case Rec(fields) => fields == []
  }

  /** A container whose direct children (a map's values) are all messages. */
  predicate AllLeafChildren(n: Node)
  {
    match n
    case Leaf(_) => false
    case List(items) => forall i :: 0 <= i < |items| ==> items[i].Leaf?
    case Rec(fields) => forall i :: 0 <= i < |fields| ==> fields[i].val.Leaf?
  }

  /** The messages that are the direct children of an all-message container; a map's keys are not kept. */
  function LeafMsgs(n: Node): seq<string>
    requires AllLeafChildren(n)
  {
    match n
    case List(items) => seq(|items|, i requires 0 <= i < |items| => items[i].msg)
    case Rec(fields) => seq(|fields|, i requires 0 <= i < |fields| => fields[i].val.msg)
  }

  /** The message `s` is a leaf somewhere in `n`, at any depth. */
  predicate Occurs(n: Node, s: string)
  {
    match n
    case Leaf(m) => m == s
    case List(items) => exists i :: 0 <= i < |items| && Occurs(items[i], s)
    case Rec(fields) => exists i :: 0 <= i < |fields| && Occurs(fields[i].val, s)
  }

  /** Every leaf message of `n` ends with a full stop. */
  ghost predicate Terminated(n: Node)
  {
    forall s :: Occurs(n, s) ==> |s| > 0 && s[|s| - 1] == '.'
  }

  /** No leaf message of `n` contains a full stop. */
  ghost predicate DotFree(n: Node)
  {
    forall s :: Occurs(n, s) ==> '.' !in s
  }

  // ---------------------------------------------------------------------------
  // Flattening: the branch for keys that are not on the skip list
  // ---------------------------------------------------------------------------

  /** No leaf message of `n` contains the separator ". ". */
  ghost predicate SepFree(n: Node)
  {
    forall s :: Occurs(n, s) ==> Lacks(s, ". ")
  }

  /**
   All leaf messages of `n`, left to right, at any depth, repeats included:
   the deep `flatten` of a list, which numbers its leaves as it goes.
   */
  function Flatten(n: Node): seq<string>
  {
    match n
    case Leaf(m) => [m]
    case List(items) => Concat(seq(|items|, i requires 0 <= i < |items| => Flatten(items[i])))
    case Rec(fields) => Concat(seq(|fields|, i requires 0 <= i < |fields| => Flatten(fields[i].val)))
  }

  /** Flattening collects exactly the messages that occur in the tree. */
  lemma {:induction false} FlattenOccurs(n: Node, s: string)
    ensures s in Flatten(n) <==> Occurs(n, s)
  {
    match n
    case Leaf(m) =>
    case List(items) =>
      var parts := seq(|items|, i requires 0 <= i < |items| => Flatten(items[i]));
      ConcatIn(parts, s);
      forall i | 0 <= i < |items| ensures s in parts[i] <==> Occurs(items[i], s) {
        FlattenOccurs(items[i], s);
      }
    case Rec(fields) =>
      var parts := seq(|fields|, i requires 0 <= i < |fields| => Flatten(fields[i].val));
      ConcatIn(parts, s);
      forall i | 0 <= i < |fields| ensures s in parts[i] <==> Occurs(fields[i].val, s) {
        FlattenOccurs(fields[i].val, s);
      }
  }

  /** The key a leaf sits under in its innermost container: a list index or a map key. */
  datatype Slot = Index(index: nat) | Name(name: string)

  /** A leaf message with the key it sits under. */
  datatype Keyed = Keyed(slot: Slot, msg: string)

  /**
   The entries the deep `flatten` of a map produces: every leaf, left to
   right, under the key it has in its innermost container.
   */
  function KeyedLeaves(n: Node): seq<Keyed>
    requires IsContainer(n)
  {
    match n
    case List(items) =>
      Concat(seq(|items|, i requires 0 <= i < |items| =>
        if items[i].Leaf? then [Keyed(Index(i), items[i].msg)] else KeyedLeaves(items[i])))
    case Rec(fields) =>
      Concat(seq(|fields|, i requires 0 <= i < |fields| =>
        if fields[i].val.Leaf? then [Keyed(Name(fields[i].key), fields[i].val.msg)]
        else KeyedLeaves(fields[i].val)))
  }

  /** The messages of a sequence of entries, in order. */
  function Values(ps: seq<Keyed>): seq<string>
  {
    seq(|ps|, i requires 0 <= i < |ps| => ps[i].msg)
  }

  /** No key occurs twice, as in a map. */
  predicate DistinctSlots(m: seq<Keyed>)
  {
    forall i, j :: 0 <= i < j < |m| ==> m[i].slot != m[j].slot
  }

  /** The position of the entry with key `k` in `m`, or -1 when there is none. */
  function SlotIndex(m: seq<Keyed>, k: Slot): (r: int)
    ensures -1 <= r < |m|
    ensures r >= 0 ==> m[r].slot == k && forall i :: 0 <= i < r ==> m[i].slot != k
    ensures r < 0 <==> forall i :: 0 <= i < |m| ==> m[i].slot != k
    decreases |m|
  {
    if m == [] then -1
    else if m[0].slot == k then 0
    else
      var r := SlotIndex(m[1..], k);
      if r < 0 then -1 else r + 1
  }

  /**
   `set` on a map: an entry whose key is already present takes the place of
   the old entry; an entry with a new key is added at the end.
   */
  function Put(m: seq<Keyed>, e: Keyed): (r: seq<Keyed>)
    requires DistinctSlots(m)
    ensures DistinctSlots(r)
  {
    var i := SlotIndex(m, e.slot);
    if i >= 0 then m[i := e] else m + [e]
  }

  /**
   Where `set` puts the entry: an entry whose key is present replaces the old
   entry in its position, and everything else stays where it was; an entry
   with a new key goes at the end.
   */
  lemma PutPositions(m: seq<Keyed>, e: Keyed)
    requires DistinctSlots(m)
    ensures var r := Put(m, e);
            (exists j :: 0 <= j < |m| && m[j].slot == e.slot) ==> |r| == |m|
    ensures var r := Put(m, e);
            (forall j :: 0 <= j < |m| ==> m[j].slot != e.slot) ==> |r| == |m| + 1 && r[|m|] == e
    ensures var r := Put(m, e);
            forall j :: 0 <= j < |m| ==> r[j] == if m[j].slot == e.slot then e else m[j]
  {
  }

  /** After `set`, the map holds the new entry and every entry under another key, and nothing else. */
  lemma PutMembers(m: seq<Keyed>, e: Keyed, x: Keyed)
    requires DistinctSlots(m)
    ensures x in Put(m, e) <==> x == e || (x in m && x.slot != e.slot)
  {
    var r := Put(m, e);
    var i := SlotIndex(m, e.slot);
    if x in r {
      var j :| 0 <= j < |r| && r[j] == x;
      if i >= 0 && j != i {
        assert m[j] == x && m[j].slot != m[i].slot;
      } else if i < 0 && j < |m| {
        assert m[j] == x;
      }
    }
    if x in m && x.slot != e.slot {
      var j :| 0 <= j < |m| && m[j] == x;
      assert r[j] == x;
    }
    if x == e {
      if i >= 0 {
        assert r[i] == e;
      } else {
        assert r[|m|] == e;
      }
    }
  }

  /** The map built from a sequence of entries by setting them one after another. */
  function Rebuild(ps: seq<Keyed>): (m: seq<Keyed>)
    ensures DistinctSlots(m)
    decreases |ps|
  {
    if ps == [] then [] else Put(Rebuild(ps[..|ps| - 1]), ps[|ps| - 1])
  }

  /** Entry `j` of `ps` is the last one with its key. */
  predicate LastWithSlot(ps: seq<Keyed>, j: int)
    requires 0 <= j < |ps|
  {
    forall k :: j < k < |ps| ==> ps[k].slot != ps[j].slot
  }

  /** Entry `j` is last with its key among all entries exactly when it is among all but the final one and the final one has another key. */
  lemma LastStep(ps: seq<Keyed>, j: int)
    requires 0 <= j < |ps| - 1
    ensures LastWithSlot(ps, j) <==> LastWithSlot(ps[..|ps| - 1], j) && ps[|ps| - 1].slot != ps[j].slot
  {
    var init := ps[..|ps| - 1];
    if LastWithSlot(init, j) && ps[|ps| - 1].slot != ps[j].slot {
      forall k | j < k < |ps| ensures ps[k].slot != ps[j].slot {
        if k < |ps| - 1 {
          assert ps[k] == init[k];
        }
      }
    }
    if LastWithSlot(ps, j) {
      forall k | j < k < |init| ensures init[k].slot != init[j].slot {
        assert init[k] == ps[k];
      }
    }
  }

  /** Every entry of the rebuilt map is an entry no later entry with the same key overwrites. */
  lemma {:induction false} RebuildSound(ps: seq<Keyed>, x: Keyed)
    requires x in Rebuild(ps)
    ensures exists j :: 0 <= j < |ps| && ps[j] == x && LastWithSlot(ps, j)
    decreases |ps|
  {
    var n := |ps| - 1;
    var init := ps[..n];
    PutMembers(Rebuild(init), ps[n], x);
    if x == ps[n] {
      assert LastWithSlot(ps, n);
    } else {
      assert x in Rebuild(init) && x.slot != ps[n].slot;
      RebuildSound(init, x);
      var j :| 0 <= j < |init| && init[j] == x && LastWithSlot(init, j);
      LastStep(ps, j);
      assert ps[j] == x;
    }
  }

  /** Every entry that no later entry with the same key overwrites is in the rebuilt map. */
  lemma {:induction false} RebuildComplete(ps: seq<Keyed>, j: int)
    requires 0 <= j < |ps| && LastWithSlot(ps, j)
    ensures ps[j] in Rebuild(ps)
    decreases |ps|
  {
    var n := |ps| - 1;
    var init := ps[..n];
    if j < n {
      LastStep(ps, j);
      RebuildComplete(init, j);
      assert init[j] == ps[j];
      PutMembers(Rebuild(init), ps[n], ps[j]);
    } else {
      PutMembers(Rebuild(init), ps[n], ps[n]);
    }
  }

  /** The rebuilt map holds exactly the entries that no later entry with the same key overwrites. */
  lemma RebuildKeepsLast(ps: seq<Keyed>, x: Keyed)
    ensures x in Rebuild(ps) <==> exists j :: 0 <= j < |ps| && ps[j] == x && LastWithSlot(ps, j)
  {
    if x in Rebuild(ps) {
      RebuildSound(ps, x);
    }
    if exists j :: 0 <= j < |ps| && ps[j] == x && LastWithSlot(ps, j) {
      var j :| 0 <= j < |ps| && ps[j] == x && LastWithSlot(ps, j);
      RebuildComplete(ps, j);
    }
  }

  /** Without its final entry a map is still a map, and that entry's key is not among the rest. */
  lemma DistinctInit(ps: seq<Keyed>)
    requires DistinctSlots(ps) && ps != []
    ensures DistinctSlots(ps[..|ps| - 1])
    ensures forall i :: 0 <= i < |ps| - 1 ==> ps[i].slot != ps[|ps| - 1].slot
  {
    var init := ps[..|ps| - 1];
    forall i, j | 0 <= i < j < |init| ensures init[i].slot != init[j].slot {
      assert init[i] == ps[i] && init[j] == ps[j];
    }
  }

  /** Rebuilding entries whose keys are all different changes nothing. */
  lemma {:induction false} RebuildOfDistinct(ps: seq<Keyed>)
    requires DistinctSlots(ps)
    ensures Rebuild(ps) == ps
    decreases |ps|
  {
    if ps != [] {
      var n := |ps| - 1;
      var init := ps[..n];
      DistinctInit(ps);
      RebuildOfDistinct(init);
      assert ps == init + [ps[n]];
    }
  }

  /** Taking the messages distributes over concatenation. */
  lemma {:induction false} ValuesConcat(xs: seq<seq<Keyed>>, ys: seq<seq<string>>)
    requires |xs| == |ys|
    requires forall i :: 0 <= i < |xs| ==> Values(xs[i]) == ys[i]
    ensures Values(Concat(xs)) == Concat(ys)
    decreases |xs|
  {
    if xs != [] {
      ValuesConcat(xs[1..], ys[1..]);
      assert Values(xs[0] + Concat(xs[1..])) == Values(xs[0]) + Values(Concat(xs[1..]));
    }
  }

  /** The keyed flatten visits the same leaves, in the same order, as the flatten of a list. */
  lemma {:induction false} KeyedLeavesMsgs(n: Node)
    requires IsContainer(n)
    ensures Values(KeyedLeaves(n)) == Flatten(n)
  {
    match n
    case List(items) =>
      var xs := seq(|items|, i requires 0 <= i < |items| =>
        if items[i].Leaf? then [Keyed(Index(i), items[i].msg)] else KeyedLeaves(items[i]));
      var ys := seq(|items|, i requires 0 <= i < |items| => Flatten(items[i]));
      forall i | 0 <= i < |items| ensures Values(xs[i]) == ys[i] {
        if !items[i].Leaf? {
          KeyedLeavesMsgs(items[i]);
        }
      }
      ValuesConcat(xs, ys);
    case Rec(fields) =>
      var xs := seq(|fields|, i requires 0 <= i < |fields| =>
        if fields[i].val.Leaf? then [Keyed(Name(fields[i].key), fields[i].val.msg)]
        else KeyedLeaves(fields[i].val));
      var ys := seq(|fields|, i requires 0 <= i < |fields| => Flatten(fields[i].val));
      forall i | 0 <= i < |fields| ensures Values(xs[i]) == ys[i] {
        if !fields[i].val.Leaf? {
          KeyedLeavesMsgs(fields[i].val);
        }
      }
      ValuesConcat(xs, ys);
  }

  /**
   The messages `flatten()` hands to `toSet()`: for a list, every leaf; for
   a map, the values of the map rebuilt from its keyed leaves.
   */
  function FlattenValues(v: Node): seq<string>
    requires IsContainer(v)
  {
    if v.List? then Flatten(v) else Values(Rebuild(KeyedLeaves(v)))
  }

  /** Every message of a flattened value is a message of the value. */
  lemma FlattenValuesSound(v: Node, s: string)
    requires IsContainer(v)
    ensures s in FlattenValues(v) ==> Occurs(v, s)
  {
    if s in FlattenValues(v) {
      if v.Rec? {
        var ps := KeyedLeaves(v);
        var m := Rebuild(ps);
        var k :| 0 <= k < |m| && Values(m)[k] == s;
        RebuildKeepsLast(ps, m[k]);
        var j :| 0 <= j < |ps| && ps[j] == m[k] && LastWithSlot(ps, j);
        KeyedLeavesMsgs(v);
        assert Values(ps)[j] == s;
      }
      FlattenOccurs(v, s);
    }
  }

  /** A flattened value is empty exactly when the value holds no message. */
  lemma FlattenValuesEmpty(v: Node)
    requires IsContainer(v)
    ensures FlattenValues(v) == [] <==> Flatten(v) == []
  {
    if v.Rec? {
      var ps := KeyedLeaves(v);
      KeyedLeavesMsgs(v);
      assert |ps| == |Flatten(v)|;
      if ps != [] {
        RebuildKeepsLast(ps, ps[|ps| - 1]);
        assert LastWithSlot(ps, |ps| - 1);
        assert ps[|ps| - 1] in Rebuild(ps);
      }
    }
  }

  /** A message of the rebuilt map comes from an entry no later entry with the same key overwrites. */
  lemma ValuesRebuildSound(ps: seq<Keyed>, s: string)
    requires s in Values(Rebuild(ps))
    ensures exists j :: 0 <= j < |ps| && ps[j].msg == s && LastWithSlot(ps, j)
  {
    var m := Rebuild(ps);
    var k :| 0 <= k < |m| && Values(m)[k] == s;
    RebuildSound(ps, m[k]);
    var j :| 0 <= j < |ps| && ps[j] == m[k] && LastWithSlot(ps, j);
    assert ps[j].msg == s;
  }

  /** The message of an entry no later entry with the same key overwrites is in the rebuilt map. */
  lemma ValuesRebuildComplete(ps: seq<Keyed>, j: int)
    requires 0 <= j < |ps| && LastWithSlot(ps, j)
    ensures ps[j].msg in Values(Rebuild(ps))
  {
    var m := Rebuild(ps);
    RebuildComplete(ps, j);
    var k :| 0 <= k < |m| && m[k] == ps[j];
    assert Values(m)[k] == ps[j].msg;
  }

  /** A message is a value of the rebuilt map exactly when some entry with it is not overwritten later. */
  lemma ValuesRebuild(ps: seq<Keyed>, s: string)
    ensures s in Values(Rebuild(ps)) <==> exists j :: 0 <= j < |ps| && ps[j].msg == s && LastWithSlot(ps, j)
  {
    if s in Values(Rebuild(ps)) {
      ValuesRebuildSound(ps, s);
    }
    if exists j :: 0 <= j < |ps| && ps[j].msg == s && LastWithSlot(ps, j) {
      var j :| 0 <= j < |ps| && ps[j].msg == s && LastWithSlot(ps, j);
      ValuesRebuildComplete(ps, j);
    }
  }

  /**
   For a map value a message survives `flatten()` exactly when it sits at a
   leaf under whose innermost key no later leaf sits.
   */
  lemma MapFlattenKeepsLast(v: Node, s: string)
    requires v.Rec?
    ensures var ps := KeyedLeaves(v);
            s in FlattenValues(v) <==> exists j :: 0 <= j < |ps| && ps[j].msg == s && LastWithSlot(ps, j)
  {
    var ps := KeyedLeaves(v);
    assert FlattenValues(v) == Values(Rebuild(ps));
    ValuesRebuild(ps, s);
  }

  /**
   The value produced for a key that is not on the skip list: the distinct
   messages of the flattened value joined with ". ", followed by ".".
   */
  function FlattenJoin(v: Node): (r: string)
    requires IsContainer(v)
    ensures |r| > 0 && r[|r| - 1] == '.'
  {
    Join(". ", Dedup(FlattenValues(v))) + "."
  }

  /** The same, keeping every leaf of a map value as the flatten of a list does. */
  function FlattenJoinAll(v: Node): (r: string)
    requires IsContainer(v)
    ensures |r| > 0 && r[|r| - 1] == '.'
  {
    Join(". ", Dedup(Flatten(v))) + "."
  }

  /**
   A list value, or a map value whose leaves all sit under different keys,
   loses no leaf to `flatten()`: both definitions agree.
   */
  lemma FlattenAgrees(v: Node)
    requires IsContainer(v)
    requires v.List? || DistinctSlots(KeyedLeaves(v))
    ensures FlattenValues(v) == Flatten(v) && FlattenJoin(v) == FlattenJoinAll(v)
  {
    if v.Rec? {
      RebuildOfDistinct(KeyedLeaves(v));
      KeyedLeavesMsgs(v);
    }
  }

  /**
   Cut before its final "." and at each ". ", the value produced for a key
   not on the skip list gives distinct messages of the value, all of them
   for a list value, when no message contains ". ".
   */
  lemma FlattenJoinWrittenSegments(v: Node)
    requires IsContainer(v) && SepFree(v)
    requires exists s :: Occurs(v, s)
    ensures var r := FlattenJoin(v);
            var segs := Split(". ", r[..|r| - 1]);
            segs == Dedup(FlattenValues(v)) && Distinct(segs)
            && (forall s :: s in segs ==> Occurs(v, s))
            && (v.List? ==> forall s :: Occurs(v, s) ==> s in segs)
  {
    var f := FlattenValues(v);
    forall s | s in f ensures Occurs(v, s) {
      FlattenValuesSound(v, s);
    }
    assert f != [] by {
      var s :| Occurs(v, s);
      FlattenOccurs(v, s);
      FlattenValuesEmpty(v);
    }
    DedupJoinSplit(f);
    if v.List? {
      forall s | Occurs(v, s) ensures s in f {
        FlattenOccurs(v, s);
      }
    }
    var r := FlattenJoin(v);
    assert r[..|r| - 1] == Join(". ", Dedup(f));
  }

  /**
   With every leaf kept, the ". "-separated segments (before the final ".")
   are distinct and are exactly the messages found at any depth, when no
   message contains ". ".
   */
  lemma FlattenJoinSegments(v: Node)
    requires IsContainer(v) && SepFree(v)
    requires exists s :: Occurs(v, s)
    ensures var r := FlattenJoinAll(v);
            var segs := Split(". ", r[..|r| - 1]);
            Distinct(segs) && forall s :: s in segs <==> Occurs(v, s)
  {
    var f := Flatten(v);
    forall s ensures s in f <==> Occurs(v, s) {
      FlattenOccurs(v, s);
    }
    assert f != [] by {
      var s :| Occurs(v, s);
      assert s in f;
    }
    DedupJoinSplit(f);
    var r := FlattenJoinAll(v);
    assert r[..|r| - 1] == Join(". ", Dedup(f));
  }

  /** A value holding no message at all (only empty containers) becomes just ".". */
  lemma FlattenJoinNoMessages(v: Node)
    requires IsContainer(v)
    requires forall s :: !Occurs(v, s)
    ensures FlattenJoin(v) == "."
  {
    if Flatten(v) != [] {
      FlattenOccurs(v, Flatten(v)[0]);
    }
    FlattenValuesEmpty(v);
  }

  /**
   Why the segment lemmas ask for messages without ". ": such a message
   cannot be told apart from two messages, so the segments of the result
   may repeat although the messages are distinct.
   */
  lemma SegmentsAmbiguous(a: string, b: string)
    requires '.' !in a && '.' !in b
    ensures var r := FlattenJoin(List([Leaf(a + ". " + b), Leaf(b)]));
            Split(". ", r[..|r| - 1]) == [a, b, b] && !Distinct(Split(". ", r[..|r| - 1]))
  {
    var m := a + ". " + b;
    TwoMessagesFlattenJoin(m, b);
    var three := [a, b, b];
    assert three[1..] == [b, b] && three[1..][1..] == [b];
    assert Join(". ", three) == Join(". ", [m, b]);
    AvoidsClean(". ", three);
    SplitJoin(". ", three);
    var r := FlattenJoin(List([Leaf(m), Leaf(b)]));
    assert r[..|r| - 1] == Join(". ", three);
  }

  /** Two different messages side by side are joined in their order. */
  lemma TwoMessagesFlattenJoin(m: string, b: string)
    requires m != b
    ensures FlattenJoin(List([Leaf(m), Leaf(b)])) == Join(". ", [m, b]) + "."
  {
    var v := List([Leaf(m), Leaf(b)]);
    var parts := seq(2, i requires 0 <= i < 2 => Flatten(v.items[i]));
    assert parts == [[m], [b]];
    assert Concat(parts[1..][1..]) == [];
    assert Concat(parts[1..]) == [b];
    assert Flatten(v) == [m, b];
    assert FlattenValues(v) == [m, b];
    assert [m, b][..1] == [m];
    assert Dedup([m, b]) == [m, b];
  }

  /** A list holding one message: its keyed flatten and its flatten. */
  lemma SingleLeaf(m: string)
    ensures KeyedLeaves(List([Leaf(m)])) == [Keyed(Index(0), m)]
    ensures Flatten(List([Leaf(m)])) == [m]
  {
    var items := [Leaf(m)];
    ConcatSingletons(seq(|items|, i requires 0 <= i < |items| =>
      if items[i].Leaf? then [Keyed(Index(i), items[i].msg)] else KeyedLeaves(items[i])), [Keyed(Index(0), m)]);
    ConcatSingletons(seq(|items|, i requires 0 <= i < |items| => Flatten(items[i])), [m]);
  }

  /** The map `{code: [x], id: [y]}`: two leaves, both at index 0 of their lists. */
  function SameSlot(x: string, y: string): Node
  {
    Rec([Entry("code", List([Leaf(x)])), Entry("id", List([Leaf(y)]))])
  }

  /** The keyed flatten of `SameSlot` keeps only the later leaf. */
  lemma SameSlotFlattenJoin(x: string, y: string)
    ensures FlattenJoin(SameSlot(x, y)) == y + "."
  {
    var kx := Keyed(Index(0), x);
    var ky := Keyed(Index(0), y);
    SingleLeaf(x);
    SingleLeaf(y);
    var fields := SameSlot(x, y).fields;
    ConcatSingletons(seq(|fields|, i requires 0 <= i < |fields| =>
      if fields[i].val.Leaf? then [Keyed(Name(fields[i].key), fields[i].val.msg)]
      else KeyedLeaves(fields[i].val)), [kx, ky]);
    assert KeyedLeaves(SameSlot(x, y)) == [kx, ky];
    assert [kx, ky][..1] == [kx];
    assert Rebuild([kx]) == [kx];
    assert Rebuild([kx, ky]) == [ky];
    assert FlattenValues(SameSlot(x, y)) == [y];
    assert Dedup([y]) == [y];
  }

  /** Keeping every leaf of `SameSlot` gives both messages. */
  lemma SameSlotFlattenJoinAll(x: string, y: string)
    requires x != y
    ensures FlattenJoinAll(SameSlot(x, y)) == x + ". " + y + "."
  {
    SingleLeaf(x);
    SingleLeaf(y);
    var fields := SameSlot(x, y).fields;
    ConcatSingletons(seq(|fields|, i requires 0 <= i < |fields| => Flatten(fields[i].val)), [x, y]);
    assert Flatten(SameSlot(x, y)) == [x, y];
    assert [x, y][..1] == [x];
    assert Dedup([x, y]) == [x, y];
    assert [x, y][1..] == [y];
    assert Join(". ", [x, y]) == x + ". " + y;
  }

  /** An error object with one key, not on an empty skip list. */
  lemma TransformSingle(k: string, v: Node)
    requires IsContainer(v)
    ensures Completes([Entry(k, v)], [])
    ensures TransformErrors([Entry(k, v)], []) == [Entry(k, Leaf(FlattenJoin(v)))]
  {
    var r := TransformErrors([Entry(k, v)], []);
    assert |r| == 1 && r[0].key == k;
  }

  /**
   For a map value, messages under the same innermost key overwrite each
   other: `{f: {code: [x], id: [y]}}` with an empty skip list becomes
   `{f: "y."}`, where keeping every leaf would give "x. y.".
   */
  lemma MapFlattenDropsMessage(x: string, y: string)
    requires x != y
    ensures Completes([Entry("f", SameSlot(x, y))], [])
    ensures TransformErrors([Entry("f", SameSlot(x, y))], []) == [Entry("f", Leaf(y + "."))]
    ensures FlattenJoinAll(SameSlot(x, y)) == x + ". " + y + "."
  {
    SameSlotFlattenJoin(x, y);
    SameSlotFlattenJoinAll(x, y);
    TransformSingle("f", SameSlot(x, y));
  }

  // ---------------------------------------------------------------------------
  // deepJoin: the branch for keys on the skip list
  // ---------------------------------------------------------------------------

  /**
   `deepJoin` runs to completion on `n`: `n` is a container, and it is either
   all messages (or empty) or every child is again such a container. Calling
   `deepJoin` on a bare message throws, since a string has no `isEmpty`.
   */
  predicate Joinable(n: Node)
    decreases n, 1
  {
    IsContainer(n) && (AllLeafChildren(n) || ChildrenJoinable(n))
  }

  /** `deepJoin` runs to completion on every direct child of `n`. */
  predicate ChildrenJoinable(n: Node)
    decreases n, 0
  {
    match n
    case Leaf(_) => false
    case List(items) => forall i :: 0 <= i < |items| ==> Joinable(items[i])
    case Rec(fields) => forall i :: 0 <= i < |fields| ==> Joinable(fields[i].val)
  }

  /**
   `deepJoin`: an empty container is returned as it is; a container of
   messages becomes the messages joined with "." followed by "."; any other
   container keeps its kind and has `deepJoin` applied to each child.
   */
  function DeepJoin(n: Node): (r: Node)
    requires Joinable(n)
    ensures IsEmpty(n) ==> r == n
    ensures r.Leaf? <==> !IsEmpty(n) && AllLeafChildren(n)
    ensures r.List? ==> n.List?
    ensures r.Rec? ==> n.Rec?
    decreases n, 1
  {
    if IsEmpty(n) then n
    else if AllLeafChildren(n) then Leaf(Join(".", LeafMsgs(n)) + ".")
    else MapDeepJoin(n)
  }

  /**
   `map(deepJoin)`: the same kind of container, of the same length (a list)
   or with the same keys in the same order (a map), each child replaced by
   its `deepJoin`.
   */
  function MapDeepJoin(v: Node): (r: Node)
    requires ChildrenJoinable(v)
    ensures v.List? ==> r.List? && |r.items| == |v.items|
                        && forall i :: 0 <= i < |v.items| ==> r.items[i] == DeepJoin(v.items[i])
    ensures v.Rec? ==> r.Rec? && Keys(r.fields) == Keys(v.fields)
                       && forall i :: 0 <= i < |v.fields| ==> r.fields[i].val == DeepJoin(v.fields[i].val)
    decreases v, 0
  {
    match v
    case List(items) =>
      List(seq(|items|, i requires 0 <= i < |items| => DeepJoin(items[i])))
    case Rec(fields) =>
      Rec(seq(|fields|, i requires 0 <= i < |fields| => Entry(fields[i].key, DeepJoin(fields[i].val))))
  }

  /** Every message `deepJoin` produces ends with the "." it appends. */
  lemma {:induction false} DeepJoinTerminated(n: Node)
    requires Joinable(n)
    ensures Terminated(DeepJoin(n))
    decreases n, 1
  {
    if !IsEmpty(n) && !AllLeafChildren(n) {
      MapDeepJoinTerminated(n);
    }
  }

  /** Every message `map(deepJoin)` produces ends with ".". */
  lemma {:induction false} MapDeepJoinTerminated(v: Node)
    requires ChildrenJoinable(v)
    ensures Terminated(MapDeepJoin(v))
    decreases v, 0
  {
    var r := MapDeepJoin(v);
    forall s | Occurs(r, s) ensures |s| > 0 && s[|s| - 1] == '.' {
      match v
      case List(items) =>
        var i :| 0 <= i < |r.items| && Occurs(r.items[i], s);
        DeepJoinTerminated(items[i]);
      case Rec(fields) =>
        var i :| 0 <= i < |r.fields| && Occurs(r.fields[i].val, s);
        DeepJoinTerminated(fields[i].val);
    }
  }

  /** Calling `deepJoin` on a list that mixes a message with a container throws. */
  lemma MixedNotJoinable(items: seq<Node>, i: nat, j: nat)
    requires i < |items| && j < |items|
    requires items[i].Leaf? && IsContainer(items[j])
    ensures !Joinable(List(items))
  {
    assert !AllLeafChildren(List(items)) by { assert !items[j].Leaf?; }
    assert !Joinable(items[i]);
  }

  /**
   A non-empty container of messages collapses to one message; cutting that
   message at each "." (before its final ".") gives the messages back, when
   none of them contains a full stop.
   */
  lemma DeepJoinCollapse(n: Node)
    requires IsContainer(n) && !IsEmpty(n) && AllLeafChildren(n) && DotFree(n)
    ensures DeepJoin(n).Leaf?
    ensures var m := DeepJoin(n).msg; Split(".", m[..|m| - 1]) == LeafMsgs(n)
  {
    var ms := LeafMsgs(n);
    assert Avoids(ms, '.') by {
      forall i | 0 <= i < |ms| ensures '.' !in ms[i] {
        match n
        case List(items) => assert Occurs(items[i], ms[i]);
        case Rec(fields) => assert Occurs(fields[i].val, ms[i]);
      }
    }
    AvoidsClean(".", ms);
    SplitJoin(".", ms);
    var m := DeepJoin(n).msg;
    assert m[..|m| - 1] == Join(".", ms);
  }

  /**
   A map of messages collapses exactly like the list of its values: whatever
   the keys were, they do not survive `deepJoin`.
   */
  lemma RecordKeysDropped(fields: seq<Entry>, items: seq<Node>)
    requires |fields| == |items| > 0
    requires forall i :: 0 <= i < |items| ==> items[i].Leaf? && fields[i].val == items[i]
    ensures DeepJoin(Rec(fields)) == DeepJoin(List(items))
  {
    assert LeafMsgs(Rec(fields)) == LeafMsgs(List(items));
  }

  /** Removes the final character of a joined message, the "." that `deepJoin` appends. */
  function Strip(m: string): string
  {
    if m == "" then m else m[..|m| - 1]
  }

  /** Undoes the collapses of `deepJoin`: each message, without its final ".", cut at every ".". */
  function Unjoin(ms: seq<string>): seq<string>
  {
    if ms == [] then [] else Split(".", Strip(ms[0])) + Unjoin(ms[1..])
  }

  /** Undoing the collapses distributes over concatenation. */
  lemma {:induction false} UnjoinAppend(a: seq<string>, b: seq<string>)
    ensures Unjoin(a + b) == Unjoin(a) + Unjoin(b)
    decreases |a|
  {
    if a != [] {
      assert (a + b)[0] == a[0];
      assert (a + b)[1..] == a[1..] + b;
      UnjoinAppend(a[1..], b);
    } else {
      assert a + b == b;
    }
  }

  /** Undoing the collapses of a concatenation undoes them piece by piece. */
  lemma {:induction false} UnjoinConcat(xs: seq<seq<string>>, ys: seq<seq<string>>)
    requires |xs| == |ys|
    requires forall i :: 0 <= i < |xs| ==> Unjoin(xs[i]) == ys[i]
    ensures Unjoin(Concat(xs)) == Concat(ys)
    decreases |xs|
  {
    if xs != [] {
      UnjoinAppend(xs[0], Concat(xs[1..]));
      UnjoinConcat(xs[1..], ys[1..]);
    }
  }

  /**
   `deepJoin` loses no message and keeps their order: undoing its collapses on
   the messages of its result gives back every message of the input, left to
   right, when no message contains a full stop.
   */
  lemma {:induction false} DeepJoinKeepsMessages(n: Node)
    requires Joinable(n) && DotFree(n)
    ensures Unjoin(Flatten(DeepJoin(n))) == Flatten(n)
    decreases n, 1
  {
    if IsEmpty(n) {
      match n
      case List(items) =>
      case Rec(fields) =>
    } else if AllLeafChildren(n) {
      CollapseKeepsMessages(n);
    } else {
      MapDeepJoinKeepsMessages(n);
    }
  }

  /** The collapsing case of `DeepJoinKeepsMessages`. */
  lemma CollapseKeepsMessages(n: Node)
    requires IsContainer(n) && !IsEmpty(n) && AllLeafChildren(n) && DotFree(n)
    ensures Unjoin(Flatten(DeepJoin(n))) == Flatten(n)
  {
    DeepJoinCollapse(n);
    var m := DeepJoin(n).msg;
    assert Unjoin([m]) == Split(".", m[..|m| - 1]);
    var ms := LeafMsgs(n);
    match n
    case List(items) =>
      ConcatSingletons(seq(|items|, i requires 0 <= i < |items| => Flatten(items[i])), ms);
    case Rec(fields) =>
      ConcatSingletons(seq(|fields|, i requires 0 <= i < |fields| => Flatten(fields[i].val)), ms);
  }

  /** `map(deepJoin)`, as applied to a skip-listed value, loses no message and keeps their order. */
  lemma {:induction false} MapDeepJoinKeepsMessages(n: Node)
    requires ChildrenJoinable(n) && DotFree(n)
    ensures Unjoin(Flatten(MapDeepJoin(n))) == Flatten(n)
    decreases n, 0
  {
    var r := MapDeepJoin(n);
    match n
    case List(items) =>
      var xs := seq(|items|, i requires 0 <= i < |items| => Flatten(r.items[i]));
      var ys := seq(|items|, i requires 0 <= i < |items| => Flatten(items[i]));
      forall i | 0 <= i < |items| ensures Unjoin(xs[i]) == ys[i] {
        assert DotFree(items[i]) by {
          forall s | Occurs(items[i], s) ensures '.' !in s {
            assert Occurs(n, s);
          }
        }
        DeepJoinKeepsMessages(items[i]);
      }
      UnjoinConcat(xs, ys);
    case Rec(fields) =>
      var xs := seq(|fields|, i requires 0 <= i < |fields| => Flatten(r.fields[i].val));
      var ys := seq(|fields|, i requires 0 <= i < |fields| => Flatten(fields[i].val));
      forall i | 0 <= i < |fields| ensures Unjoin(xs[i]) == ys[i] {
        assert DotFree(fields[i].val) by {
          forall s | Occurs(fields[i].val, s) ensures '.' !in s {
            assert Occurs(n, s);
          }
        }
        DeepJoinKeepsMessages(fields[i].val);
      }
      UnjoinConcat(xs, ys);
  }

  // ---------------------------------------------------------------------------
  // transformErrors
  // ---------------------------------------------------------------------------

  /**
   `transformErrors` runs to completion: every value is a list or a map (a
   bare message has neither `flatten` nor `map`), and, for a key on the skip
   list, `deepJoin` runs to completion on each of the value's children.
   */
  predicate Completes(errors: seq<Entry>, skip: seq<string>)
  {
    forall i :: 0 <= i < |errors| ==> IsContainer(errors[i].val) && (errors[i].key in skip ==> ChildrenJoinable(errors[i].val))
  }

  /**
   `transformErrors`: every key keeps its place; a key on the skip list keeps
   its structure with `deepJoin` applied to each child, any other key
   becomes one flattened, de-duplicated, joined message.
   */
  function TransformErrors(errors: seq<Entry>, skip: seq<string>): (r: seq<Entry>)
    requires Completes(errors, skip)
    ensures Keys(r) == Keys(errors)
    ensures forall i :: 0 <= i < |r| && errors[i].key !in skip ==> r[i].val == Leaf(FlattenJoin(errors[i].val))
    ensures forall i :: 0 <= i < |r| && errors[i].key in skip ==> r[i].val == MapDeepJoin(errors[i].val)
  {
    seq(|errors|, i requires 0 <= i < |errors| =>
      var e := errors[i];
      Entry(e.key, if e.key in skip then MapDeepJoin(e.val) else Leaf(FlattenJoin(e.val))))
  }
}
