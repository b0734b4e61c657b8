/**
 String operations the error transform is built from: joining a sequence of
 messages with a separator (Immutable's `join`), the split that undoes it,
 removing repeated messages (`toSet`), and concatenating nested sequences
 (the deep `flatten`).
 */
module Text {

  /** `parts` with `sep` between each two neighbours; the empty sequence joins to "". */
  function Join(sep: string, parts: seq<string>): string
  {
    if |parts| == 0 then ""
    else if |parts| == 1 then parts[0]
    else parts[0] + sep + Join(sep, parts[1..])
  }

  /** Cuts `s` at every occurrence of `sep`, scanning from the left; always at least one piece. */
  function Split(sep: string, s: string): (r: seq<string>)
    requires sep != ""
    ensures |r| > 0
    decreases |s|
  {
    if |sep| <= |s| && s[..|sep|] == sep then [""] + Split(sep, s[|sep|..])
    else if s == "" then [""]
    else
      var rest := Split(sep, s[1..]);
      [[s[0]] + rest[0]] + rest[1..]
  }

  /** No part contains the character `c`. */
  predicate Avoids(parts: seq<string>, c: char)
  {
    forall i :: 0 <= i < |parts| ==> c !in parts[i]
  }

  /** `sep` occurs in `s` starting at index `i`. */
  predicate At(sep: string, s: string, i: int)
  {
    0 <= i && i + |sep| <= |s| && s[i..i + |sep|] == sep
  }

  /** `sep` occurs nowhere in `s`. */
  predicate Lacks(s: string, sep: string)
  {
    forall i :: 0 <= i < |s| ==> !At(sep, s, i)
  }

  /** Followed by `sep`, the part `p` holds no occurrence of `sep` that starts inside `p`. */
  predicate Clean(sep: string, p: string)
  {
    forall i :: 0 <= i < |p| ==> !At(sep, p + sep, i)
  }

  /** Whether `sep` occurs at `i` depends only on the characters up to its end. */
  lemma AtPrefix(sep: string, s: string, t: string, i: int)
    requires 0 <= i && i + |sep| <= |s|
    ensures At(sep, s + t, i) == At(sep, s, i)
  {
    assert (s + t)[i..i + |sep|] == s[i..i + |sep|];
  }

  /** A part free of the separator's first character is clean. */
  lemma AvoidsClean(sep: string, parts: seq<string>)
    requires sep != "" && Avoids(parts, sep[0])
    ensures forall k :: 0 <= k < |parts| ==> Clean(sep, parts[k])
  {
    forall k, i | 0 <= k < |parts| && 0 <= i < |parts[k]| ensures !At(sep, parts[k] + sep, i) {
      var s := parts[k] + sep;
      assert s[i] == parts[k][i] && parts[k][i] != sep[0];
      if i + |sep| <= |s| {
        assert s[i..i + |sep|][0] == s[i];
      }
    }
  }

  /** A part in which ". " does not occur is clean for the separator ". ". */
  lemma DotSpaceClean(p: string)
    requires Lacks(p, ". ")
    ensures Clean(". ", p)
  {
    forall i | 0 <= i < |p| ensures !At(". ", p + ". ", i) {
      if i + 2 <= |p| {
        AtPrefix(". ", p, ". ", i);
      } else {
        assert (p + ". ")[i + 1] == '.';
        assert (p + ". ")[i..i + 2][1] == (p + ". ")[i + 1];
      }
    }
  }

  /** A piece in which no occurrence of the separator starts is never cut. */
  lemma {:induction false} SplitPrefix(sep: string, p: string, t: string)
    requires sep != ""
    requires forall i :: 0 <= i < |p| ==> !At(sep, p + t, i)
    ensures Split(sep, p + t) == [p + Split(sep, t)[0]] + Split(sep, t)[1..]
    decreases |p|
  {
    if p == "" {
      var r := Split(sep, t);
      assert p + t == t && p + r[0] == r[0];
      assert r == [r[0]] + r[1..];
    } else {
      var s := p + t;
      assert !At(sep, s, 0);
      assert s[0] == p[0];
      assert s[1..] == p[1..] + t;
      forall i | 0 <= i < |p[1..]| ensures !At(sep, p[1..] + t, i) {
        assert !At(sep, s, i + 1);
        if i + |sep| <= |s[1..]| {
          assert s[1..][i..i + |sep|] == s[i + 1..i + 1 + |sep|];
        }
      }
      SplitPrefix(sep, p[1..], t);
      assert [p[0]] + (p[1..] + Split(sep, t)[0]) == p + Split(sep, t)[0];
    }
  }

  /** A leading separator yields an empty first piece. */
  lemma SplitSep(sep: string, t: string)
    requires sep != ""
    ensures Split(sep, sep + t) == [""] + Split(sep, t)
  {
  }

  /** Splitting undoes joining, provided every part is clean for the separator. */
  lemma {:induction false} SplitJoin(sep: string, parts: seq<string>)
    requires sep != "" && |parts| > 0
    requires forall k :: 0 <= k < |parts| ==> Clean(sep, parts[k])
    ensures Split(sep, Join(sep, parts)) == parts
    decreases |parts|
  {
    var p := parts[0];
    assert Clean(sep, p);
    if |parts| == 1 {
      forall i | 0 <= i < |p| ensures !At(sep, p + "", i) {
        if i + |sep| <= |p| {
          AtPrefix(sep, p, sep, i);
        }
      }
      SplitPrefix(sep, p, "");
      assert p + "" == p;
    } else {
      var rest := Join(sep, parts[1..]);
      assert Join(sep, parts) == p + (sep + rest);
      forall i | 0 <= i < |p| ensures !At(sep, p + (sep + rest), i) {
        assert p + (sep + rest) == (p + sep) + rest;
        AtPrefix(sep, p + sep, rest, i);
      }
      SplitPrefix(sep, p, sep + rest);
      SplitSep(sep, rest);
      SplitJoin(sep, parts[1..]);
      var r := Split(sep, sep + rest);
      assert r[0] == "" && r[1..] == parts[1..];
      assert p + r[0] == p;
      assert parts == [p] + parts[1..];
    }
  }

  /** No value occurs twice. */
  predicate Distinct(s: seq<string>)
  {
    forall i, j :: 0 <= i < j < |s| ==> s[i] != s[j]
  }

  /** The distinct values of `s`, each where it first occurs. */
  function Dedup(s: seq<string>): (r: seq<string>)
    ensures Distinct(r)
    ensures forall x :: x in r <==> x in s
    ensures |r| <= |s|
  {
    if s == [] then []
    else
      var d := Dedup(s[..|s| - 1]);
      assert s == s[..|s| - 1] + [s[|s| - 1]];
      if s[|s| - 1] in d then d else d + [s[|s| - 1]]
  }

  /** Removing duplicates from a sequence that has none leaves it as it is. */
  lemma {:induction false} DedupOfDistinct(s: seq<string>)
    requires Distinct(s)
    ensures Dedup(s) == s
    decreases |s|
  {
    if s != [] {
      var init := s[..|s| - 1];
      assert Distinct(init) by {
        forall i, j | 0 <= i < j < |init| ensures init[i] != init[j] {
          assert init[i] == s[i] && init[j] == s[j];
        }
      }
      DedupOfDistinct(init);
      assert s[|s| - 1] !in init by {
        forall i | 0 <= i < |init| ensures init[i] != s[|s| - 1] {
          assert init[i] == s[i];
        }
      }
      assert s == init + [s[|s| - 1]];
    }
  }

  /**
   The distinct values of `ms` joined with ". " are cut back into exactly
   those values, when ". " occurs in none of them.
   */
  lemma DedupJoinSplit(ms: seq<string>)
    requires ms != []
    requires forall i :: 0 <= i < |ms| ==> Lacks(ms[i], ". ")
    ensures Split(". ", Join(". ", Dedup(ms))) == Dedup(ms)
  {
    var d := Dedup(ms);
    assert ms[0] in d;
    forall k | 0 <= k < |d| ensures Clean(". ", d[k]) {
      assert d[k] in ms;
      DotSpaceClean(d[k]);
    }
    SplitJoin(". ", d);
  }

  /** The sequences of `ss` one after another. */
  function Concat<T>(ss: seq<seq<T>>): seq<T>
  {
    if ss == [] then [] else ss[0] + Concat(ss[1..])
  }

  /** A value is in the concatenation exactly when it is in one of the pieces. */
  lemma {:induction false} ConcatIn<T>(ss: seq<seq<T>>, x: T)
    ensures x in Concat(ss) <==> exists i :: 0 <= i < |ss| && x in ss[i]
    decreases |ss|
  {
    if ss != [] {
      ConcatIn(ss[1..], x);
      if x in Concat(ss[1..]) {
        var i :| 0 <= i < |ss[1..]| && x in ss[1..][i];
        assert x in ss[i + 1];
      }
      if exists i :: 0 <= i < |ss| && x in ss[i] {
        var i :| 0 <= i < |ss| && x in ss[i];
        if i > 0 {
          assert x in ss[1..][i - 1];
        }
      }
    }
  }

  /** Concatenating one-element pieces gives back the elements. */
  lemma {:induction false} ConcatSingletons<T>(ss: seq<seq<T>>, xs: seq<T>)
    requires |ss| == |xs|
    requires forall i :: 0 <= i < |ss| ==> ss[i] == [xs[i]]
    ensures Concat(ss) == xs
    decreases |ss|
  {
    if ss != [] {
      ConcatSingletons(ss[1..], xs[1..]);
      assert xs == [xs[0]] + xs[1..];
    }
  }
}
