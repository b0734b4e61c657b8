/**
 The example from the repository's test: an error object as an API returns
 it, the skip list `['url', 'urls']`, and the object `transformErrors` is
 expected to produce. The structure is written over its seven messages, so
 that the proof depends only on which of them are equal.
 */
module Fixture {
  import opened Text
  import opened ErrorTree

  /** The seven messages of the example. */
  datatype Messages = Messages(
    required: string, numeric: string, siteCode: string, badId: string,
    alnum: string, third: string, minLength: string)

  const TestMessages := Messages(
    "This field is required",
    "Only numeric characters are allowed",
    "This site code is invalid",
    "Unsupported id",
    "Only alphanumeric characters are allowed",
    "Third error",
    "Minumum length of 10 characters is required")

  const Skip: seq<string> := ["url", "urls"]

  function Msgs(ms: seq<string>): Node
  {
    List(seq(|ms|, i requires 0 <= i < |ms| => Leaf(ms[i])))
  }

  function SiteInner(m: Messages): Node
  {
    Rec([Entry("code", Msgs([m.siteCode])), Entry("id", Msgs([m.badId]))])
  }

  function Site(m: Messages): Node
  {
    Rec([Entry("site", SiteInner(m))])
  }

  function SiteInnerJoined(m: Messages): Node
  {
    Rec([Entry("code", Leaf(m.siteCode + ".")), Entry("id", Leaf(m.badId + "."))])
  }

  function SiteJoined(m: Messages): Node
  {
    Rec([Entry("site", SiteInnerJoined(m))])
  }

  function TagsSecond(m: Messages): Node
  {
    Rec([Entry("non_field_errors", Msgs([m.alnum])),
         Entry("another_error", Msgs([m.alnum])),
         Entry("third_error", Msgs([m.third]))])
  }

  function TagsFourth(m: Messages): Node
  {
    Rec([Entry("non_field_errors", Msgs([m.minLength, m.alnum]))])
  }

  function Tags(m: Messages): Node
  {
    List([Rec([]), TagsSecond(m), Rec([]), TagsFourth(m)])
  }

  function Tag(m: Messages): Node
  {
    Rec([Entry("nested", Rec([Entry("non_field_errors", Msgs([m.alnum]))]))])
  }

  /** The input error object of the test. */
  function Errors(m: Messages): seq<Entry>
  {
    [ Entry("name", Msgs([m.required])),
      Entry("age", Msgs([m.required, m.numeric])),
      Entry("urls", List([Rec([]), Rec([]), Site(m)])),
      Entry("url", Site(m)),
      Entry("tags", Tags(m)),
      Entry("tag", Tag(m)) ]
  }

  /** The output the test expects. */
  function Expected(m: Messages): seq<Entry>
  {
    [ Entry("name", Leaf(m.required + ".")),
      Entry("age", Leaf(m.required + ". " + m.numeric + ".")),
      Entry("urls", List([Rec([]), Rec([]), SiteJoined(m)])),
      Entry("url", SiteJoined(m)),
      Entry("tags", Leaf(m.alnum + ". " + m.third + ". " + m.minLength + ".")),
      Entry("tag", Leaf(m.alnum + ".")) ]
  }

  lemma FlattenMsgs(ms: seq<string>)
    ensures Flatten(Msgs(ms)) == ms
  {
    var items := Msgs(ms).items;
    ConcatSingletons(seq(|items|, i requires 0 <= i < |items| => Flatten(items[i])), ms);
  }

  lemma FlattenEmpty()
    ensures Flatten(Rec([])) == [] && Flatten(List([])) == []
  {
  }

  lemma FlattenListCons(x: Node, rest: seq<Node>)
    ensures Flatten(List([x] + rest)) == Flatten(x) + Flatten(List(rest))
  {
    var items := [x] + rest;
    var parts := seq(|items|, i requires 0 <= i < |items| => Flatten(items[i]));
    assert parts[1..] == seq(|rest|, i requires 0 <= i < |rest| => Flatten(rest[i]));
  }

  lemma FlattenRecCons(e: Entry, rest: seq<Entry>)
    ensures Flatten(Rec([e] + rest)) == Flatten(e.val) + Flatten(Rec(rest))
  {
    var fields := [e] + rest;
    var parts := seq(|fields|, i requires 0 <= i < |fields| => Flatten(fields[i].val));
    assert parts[1..] == seq(|rest|, i requires 0 <= i < |rest| => Flatten(rest[i].val));
  }

  lemma DeepJoinOne(s: string)
    ensures Joinable(Msgs([s])) && DeepJoin(Msgs([s])) == Leaf(s + ".")
  {
  }

  lemma SiteInnerJoins(m: Messages)
    ensures Joinable(SiteInner(m)) && DeepJoin(SiteInner(m)) == SiteInnerJoined(m)
  {
  }

  lemma SiteJoins(m: Messages)
    ensures ChildrenJoinable(Site(m)) && Joinable(Site(m)) && DeepJoin(Site(m)) == SiteJoined(m)
  {
    SiteInnerJoins(m);
    var n := Site(m);
    assert ChildrenJoinable(n);
    assert !AllLeafChildren(n) by { assert !n.fields[0].val.Leaf?; }
    var r := MapDeepJoin(n);
    assert r.fields[0] == SiteJoined(m).fields[0];
  }

  lemma PlaceholdersKept(x: Node, y: Node)
    requires Joinable(x) && DeepJoin(x) == y
    ensures ChildrenJoinable(List([Rec([]), Rec([]), x]))
    ensures MapDeepJoin(List([Rec([]), Rec([]), x])) == List([Rec([]), Rec([]), y])
  {
  }

  lemma UrlsJoins(m: Messages)
    ensures ChildrenJoinable(List([Rec([]), Rec([]), Site(m)]))
    ensures MapDeepJoin(List([Rec([]), Rec([]), Site(m)])) == List([Rec([]), Rec([]), SiteJoined(m)])
  {
    SiteJoins(m);
    PlaceholdersKept(Site(m), SiteJoined(m));
  }

  lemma TagsFlatten(m: Messages)
    ensures Flatten(Tags(m)) == [m.alnum, m.alnum, m.third, m.minLength, m.alnum]
  {
    FlattenEmpty();
    FlattenMsgs([m.alnum]);
    FlattenMsgs([m.third]);
    FlattenMsgs([m.minLength, m.alnum]);
    var second := TagsSecond(m).fields;
    FlattenRecCons(second[2], []);
    assert [second[2]] + [] == second[2..];
    FlattenRecCons(second[1], second[2..]);
    assert [second[1]] + second[2..] == second[1..];
    FlattenRecCons(second[0], second[1..]);
    assert [second[0]] + second[1..] == second;
    var fourth := TagsFourth(m).fields;
    FlattenRecCons(fourth[0], []);
    assert [fourth[0]] + [] == fourth;
    var items := Tags(m).items;
    FlattenListCons(items[3], []);
    assert [items[3]] + [] == items[3..];
    FlattenListCons(items[2], items[3..]);
    assert [items[2]] + items[3..] == items[2..];
    FlattenListCons(items[1], items[2..]);
    assert [items[1]] + items[2..] == items[1..];
    FlattenListCons(items[0], items[1..]);
    assert [items[0]] + items[1..] == items;
  }

  lemma TagsFlattenJoin(m: Messages)
    requires m.alnum != m.third && m.alnum != m.minLength && m.third != m.minLength
    ensures FlattenJoin(Tags(m)) == m.alnum + ". " + m.third + ". " + m.minLength + "."
  {
    TagsFlatten(m);
    var f := [m.alnum, m.alnum, m.third, m.minLength, m.alnum];
    assert f[..0] == [];
    assert Dedup(f[..1]) == [m.alnum];
    assert Dedup(f[..2]) == [m.alnum] by { assert f[..2][..1] == f[..1]; }
    assert Dedup(f[..3]) == [m.alnum, m.third] by { assert f[..3][..2] == f[..2]; }
    assert Dedup(f[..4]) == [m.alnum, m.third, m.minLength] by {
      assert f[..4][..3] == f[..3];
      assert f[..4][3] == m.minLength;
      assert m.minLength !in [m.alnum, m.third];
    }
    assert Dedup(f) == [m.alnum, m.third, m.minLength] by {
      assert f[..4] == f[..|f| - 1];
    }
    var d := [m.alnum, m.third, m.minLength];
    assert d[1..][1..] == [m.minLength];
    assert Join(". ", d[1..]) == m.third + ". " + m.minLength;
    assert Join(". ", d) == m.alnum + ". " + (m.third + ". " + m.minLength);
  }

  lemma TagFlatten(m: Messages)
    ensures Flatten(Tag(m)) == [m.alnum]
  {
    FlattenEmpty();
    FlattenMsgs([m.alnum]);
    var inner := Rec([Entry("non_field_errors", Msgs([m.alnum]))]);
    FlattenRecCons(inner.fields[0], []);
    assert [inner.fields[0]] + [] == inner.fields;
    FlattenRecCons(Tag(m).fields[0], []);
    assert [Tag(m).fields[0]] + [] == Tag(m).fields;
  }

  /** `tag` is a map with a single leaf, so the keyed flatten keeps it. */
  lemma TagFlattenJoin(m: Messages)
    ensures FlattenJoin(Tag(m)) == m.alnum + "."
  {
    TagFlatten(m);
    KeyedLeavesMsgs(Tag(m));
    assert |KeyedLeaves(Tag(m))| == 1;
    FlattenAgrees(Tag(m));
    assert Dedup([m.alnum]) == [m.alnum];
  }

  /** Which keys of the example are on the skip list. */
  lemma SkipKeys()
    ensures "name" !in Skip && "age" !in Skip && "tags" !in Skip && "tag" !in Skip
    ensures "url" in Skip && "urls" in Skip
  {
  }

  /** `transformErrors` runs to completion on the example. */
  lemma ExampleWellFormed(m: Messages)
    ensures Completes(Errors(m), Skip)
  {
    SkipKeys();
    UrlsJoins(m);
    SiteJoins(m);
    var e := Errors(m);
    assert IsContainer(e[0].val) && e[0].key !in Skip;
    assert IsContainer(e[1].val) && e[1].key !in Skip;
    assert IsContainer(e[2].val) && ChildrenJoinable(e[2].val);
    assert IsContainer(e[3].val) && ChildrenJoinable(e[3].val);
    assert IsContainer(e[4].val) && e[4].key !in Skip;
    assert IsContainer(e[5].val) && e[5].key !in Skip;
  }

  lemma AgeFlattenJoin(m: Messages)
    requires m.required != m.numeric
    ensures FlattenJoin(Msgs([m.required, m.numeric])) == m.required + ". " + m.numeric + "."
    ensures FlattenJoin(Msgs([m.required])) == m.required + "."
  {
    FlattenMsgs([m.required]);
    FlattenMsgs([m.required, m.numeric]);
    var two := [m.required, m.numeric];
    assert Dedup([m.required]) == [m.required];
    assert two[..1] == [m.required];
    assert Dedup(two) == two;
    assert two[1..] == [m.numeric];
    assert Join(". ", two) == m.required + ". " + m.numeric;
  }

  /** The entry `transformErrors` gives a key not on the skip list. */
  lemma FlattenedAt(errors: seq<Entry>, i: nat)
    requires Completes(errors, Skip) && i < |errors| && errors[i].key !in Skip
    ensures TransformErrors(errors, Skip)[i] == Entry(errors[i].key, Leaf(FlattenJoin(errors[i].val)))
  {
    assert Keys(TransformErrors(errors, Skip))[i] == Keys(errors)[i];
  }

  /** The keys not on the skip list become joined messages. */
  lemma FlattenedKeys(m: Messages)
    requires m.required != m.numeric
    requires m.alnum != m.third && m.alnum != m.minLength && m.third != m.minLength
    ensures Completes(Errors(m), Skip)
    ensures var r := TransformErrors(Errors(m), Skip);
            r[0] == Expected(m)[0] && r[1] == Expected(m)[1] && r[4] == Expected(m)[4] && r[5] == Expected(m)[5]
  {
    ExampleWellFormed(m);
    SkipKeys();
    var e := Errors(m);
    FlattenedAt(e, 0);
    FlattenedAt(e, 1);
    FlattenedAt(e, 4);
    FlattenedAt(e, 5);
    TagsFlattenJoin(m);
    TagFlattenJoin(m);
    AgeFlattenJoin(m);
  }

  /** The keys on the skip list keep their structure. */
  lemma SkippedKeys(m: Messages)
    ensures Completes(Errors(m), Skip)
    ensures var r := TransformErrors(Errors(m), Skip);
            r[2] == Expected(m)[2] && r[3] == Expected(m)[3]
  {
    ExampleWellFormed(m);
    SkipKeys();
    UrlsJoins(m);
    SiteJoins(m);
    var r := TransformErrors(Errors(m), Skip);
    assert r[2].key == "urls" && r[3].key == "url";
  }

  /** The transform maps the test's input to the test's expected output, for any messages distinct as in the test. */
  lemma TransformExample(m: Messages)
    requires m.required != m.numeric
    requires m.alnum != m.third && m.alnum != m.minLength && m.third != m.minLength
    ensures Completes(Errors(m), Skip) && TransformErrors(Errors(m), Skip) == Expected(m)
  {
    FlattenedKeys(m);
    SkippedKeys(m);
    var r := TransformErrors(Errors(m), Skip);
    var x := Expected(m);
    assert |r| == 6 == |x|;
    forall i | 0 <= i < 6 ensures r[i] == x[i] {
      if i == 0 {} else if i == 1 {} else if i == 2 {} else if i == 3 {} else if i == 4 {} else {}
    }
  }

  /** The test itself: its error object, transformed with skip list `['url', 'urls']`, gives the expected object. */
  lemma FixtureTransform()
    ensures Completes(Errors(TestMessages), Skip)
    ensures TransformErrors(Errors(TestMessages), Skip) == Expected(TestMessages)
  {
    var m := TestMessages;
    assert m.required[0] != m.numeric[0];
    assert m.alnum[1] != m.third[1] && m.alnum[0] != m.minLength[0] && m.third[0] != m.minLength[0];
    TransformExample(m);
  }
}
