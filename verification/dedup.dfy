/** The order-preserving de-duplication of the column list in `main`: a
    column is kept at its first occurrence and dropped at every later one. */
module Dedup {
  import opened Naming
  import opened Types
  import opened Flatten

  /** No element occurs twice. */
  ghost predicate Distinct(xs: seq<string>)
  {
    forall i, j :: 0 <= i < j < |xs| ==> xs[i] != xs[j]
  }

  /** The columns with every repeat dropped: the last element is kept
      exactly when it does not occur earlier. */
  function Dedup(xs: seq<string>): (r: seq<string>)
    ensures forall x :: x in r <==> x in xs
    ensures Distinct(r)
    ensures |r| <= |xs|
  {
    if |xs| == 0 then []
    else
      var init := xs[..|xs| - 1];
      var last := xs[|xs| - 1];
      assert forall x :: x in xs <==> x in init || x == last;
      if last in init then Dedup(init) else Dedup(init) + [last]
  }

  /** `a` is `b` with some elements deleted, the rest kept in order
      (matched greedily from the front). */
  ghost predicate Subsequence(a: seq<string>, b: seq<string>)
    decreases |b|
  {
    if |a| == 0 then true
    else if |b| == 0 then false
    else if a[0] == b[0] then Subsequence(a[1..], b[1..])
    else Subsequence(a, b[1..])
  }

  /** An extra element at the end of `b` can be skipped... */
  lemma {:induction false} SubsequenceExtend(a: seq<string>, b: seq<string>, x: string)
    requires Subsequence(a, b)
    ensures Subsequence(a, b + [x])
    decreases |b|
  {
    if |a| > 0 {
      assert (b + [x])[0] == b[0] && (b + [x])[1..] == b[1..] + [x];
      if a[0] == b[0] {
        SubsequenceExtend(a[1..], b[1..], x);
      } else {
        SubsequenceExtend(a, b[1..], x);
      }
    }
  }

  /** ... or matched by the same element at the end of `a`. */
  lemma {:induction false} SubsequenceBoth(a: seq<string>, b: seq<string>, x: string)
    requires Subsequence(a, b)
    ensures Subsequence(a + [x], b + [x])
    decreases |b|
  {
    if |b| == 0 {
      assert a + [x] == [x] && b + [x] == [x];
      assert [x][1..] == [];
    } else {
      assert (b + [x])[0] == b[0] && (b + [x])[1..] == b[1..] + [x];
      if |a| == 0 {
        assert a + [x] == [x];
        if b[0] == x {
          assert [x][1..] == [];
        } else {
          SubsequenceBoth(a, b[1..], x);
        }
      } else {
        assert (a + [x])[0] == a[0] && (a + [x])[1..] == a[1..] + [x];
        if a[0] == b[0] {
          SubsequenceBoth(a[1..], b[1..], x);
        } else {
          SubsequenceBoth(a, b[1..], x);
        }
      }
    }
  }

  /** The de-duplicated columns are the input with elements deleted, the
      rest in their original order. */
  lemma {:induction false} DedupSubsequence(xs: seq<string>)
    ensures Subsequence(Dedup(xs), xs)
  {
    if |xs| > 0 {
      var init := xs[..|xs| - 1];
      var last := xs[|xs| - 1];
      DedupSubsequence(init);
      if last in init {
        SubsequenceExtend(Dedup(init), init, last);
      } else {
        SubsequenceBoth(Dedup(init), init, last);
      }
      assert xs == init + [last];
    }
  }

  /** The position of the first occurrence of `x`. */
  function FirstIndex(xs: seq<string>, x: string): (k: nat)
    requires x in xs
    ensures k < |xs| && xs[k] == x
    ensures forall j :: 0 <= j < k ==> xs[j] != x
  {
    if xs[0] == x then 0
    else
      assert x in xs[1..] by {
        var j :| 0 <= j < |xs| && xs[j] == x;
        assert xs[1..][j - 1] == x;
      }
      1 + FirstIndex(xs[1..], x)
  }

  lemma FirstIndexPrefix(xs: seq<string>, ys: seq<string>, x: string)
    requires x in xs
    ensures FirstIndex(xs + ys, x) == FirstIndex(xs, x)
  {
    var k := FirstIndex(xs, x);
    var k' := FirstIndex(xs + ys, x);
    assert (xs + ys)[k] == x;
    assert k' <= k;
    assert xs[k'] == (xs + ys)[k'];
  }

  /** The columns come out in the order of their first occurrences. */
  lemma {:induction false} DedupFirstOccurrenceOrder(xs: seq<string>)
    ensures forall i, j :: 0 <= i < j < |Dedup(xs)| ==>
              FirstIndex(xs, Dedup(xs)[i]) < FirstIndex(xs, Dedup(xs)[j])
  {
    if |xs| > 0 {
      var init := xs[..|xs| - 1];
      var last := xs[|xs| - 1];
      var p := Dedup(init);
      var r := Dedup(xs);
      DedupFirstOccurrenceOrder(init);
      assert xs == init + [last];
      forall i, j | 0 <= i < j < |r|
        ensures FirstIndex(xs, r[i]) < FirstIndex(xs, r[j])
      {
        assert r[i] in p;
        FirstIndexPrefix(init, [last], r[i]);
        if j < |p| {
          assert r[j] == p[j];
          FirstIndexPrefix(init, [last], r[j]);
        } else {
          assert r[j] == last && last !in init;
        }
      }
    }
  }

  /** A list without repeats is left as it is. */
  lemma {:induction false} DedupDistinct(xs: seq<string>)
    requires Distinct(xs)
    ensures Dedup(xs) == xs
  {
    if |xs| > 0 {
      var init := xs[..|xs| - 1];
      assert Distinct(init);
      DedupDistinct(init);
      assert xs[|xs| - 1] !in init;
      assert xs == init + [xs[|xs| - 1]];
    }
  }

  /** De-duplicating twice is de-duplicating once. */
  lemma {:induction false} DedupIdempotent(xs: seq<string>)
    ensures Dedup(Dedup(xs)) == Dedup(xs)
  {
    DedupDistinct(Dedup(xs));
  }

  /** The loop of `main`: walk the columns, keeping a column when it has
      not been seen and recording it as seen. */
  method DedupColumns(columns: seq<string>) returns (unique: seq<string>)
    ensures unique == Dedup(columns)
  {
    unique := [];
    var seen: set<string> := {};
    for i := 0 to |columns|
      invariant unique == Dedup(columns[..i])
      invariant forall x :: x in seen <==> x in columns[..i]
    {
      assert columns[..i + 1][..i] == columns[..i];
      assert columns[..i + 1][i] == columns[i];
      var col := columns[i];
      if col !in seen {
        seen := seen + {col};
        unique := unique + [col];
      }
      assert forall x :: x in columns[..i + 1] <==> x in columns[..i] || x == col;
    }
    assert columns[..|columns|] == columns;
  }

  // ---- Case folding can make two columns collide ----

  lemma SnakeCollision()
    ensures ApplyCase("aB", "snake") == "a_b"
    ensures ApplyCase("a_b", "snake") == "a_b"
  {
    assert SnakeUpTo("aB", 1) == "a";
    assert SnakeUpTo("aB", 2) == "a_b";
    SnakeOfLowerIdentity("a_b");
  }

  /** Fields `aB` and `a_b` both become `a_b` in snake case; only the
      first survives de-duplication. */
  lemma CollidingFieldsKeptOnce()
    ensures SchemaColumns(map["R" := [Field("aB", Prim(Str)), Field("a_b", Prim(Str))]],
                          Config("_", "snake", 1, 3, {}, {}), "R") == ["a_b", "a_b"]
    ensures Dedup(["a_b", "a_b"]) == ["a_b"]
  {
    var env := map["R" := [Field("aB", Prim(Str)), Field("a_b", Prim(Str))]];
    var cfg := Config("_", "snake", 1, 3, {}, {});
    var fields := [Field("aB", Prim(Str)), Field("a_b", Prim(Str))];
    SnakeCollision();
    FieldShapes(env, cfg, fields[0], "", 0);
    FieldShapes(env, cfg, fields[1], "", 0);
    assert fields[1..] == [fields[1]] && fields[1..][1..] == [];
    assert ["a_b", "a_b"][..1] == ["a_b"];
  }
}
