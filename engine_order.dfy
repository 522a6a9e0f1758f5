/**
  Orders of search engines, each engine named by its `shortName`.

  The registry keeps its engines as a sequence of short names; the
  functions here build and rearrange such sequences, and the lemmas
  relate an order to the catalog it is an order of.
 */
module EngineOrder {

  /** No short name occurs twice in `s`. */
  predicate Distinct(s: seq<string>)
  {
    forall i, j :: 0 <= i < j < |s| ==> s[i] != s[j]
  }

  /** The set of names occurring in `s`. */
  function Elems(s: seq<string>): (r: set<string>)
    ensures forall x :: x in r <==> x in s
  {
    set x | x in s
  }

  /** `order` lists every engine of `universe` exactly once, and nothing else. */
  predicate IsOrderOf(order: seq<string>, universe: seq<string>)
  {
    && Distinct(order)
    && (forall x :: x in order ==> x in universe)
    && (forall x :: x in universe ==> x in order)
  }

  /** Concatenating two duplicate-free sequences with no name in common gives a duplicate-free sequence. */
  lemma DistinctConcat(a: seq<string>, b: seq<string>)
    requires Distinct(a) && Distinct(b)
    requires forall x :: x in a ==> x !in b
    ensures Distinct(a + b)
  {
    forall i, j | 0 <= i < j < |a + b|
      ensures (a + b)[i] != (a + b)[j]
    {
      if j < |a| {
        assert (a + b)[i] == a[i] && (a + b)[j] == a[j];
      } else if |a| <= i {
        assert (a + b)[i] == b[i - |a|] && (a + b)[j] == b[j - |a|];
      } else {
        assert (a + b)[i] == a[i] && a[i] in a;
        assert (a + b)[j] == b[j - |a|] && b[j - |a|] in b;
      }
    }
  }

  /** The names of `s` that are not in `xs`, in their order in `s`. */
  function Drop(s: seq<string>, xs: set<string>): (r: seq<string>)
    ensures forall y :: y in r <==> y in s && y !in xs
    ensures |r| <= |s|
    ensures forall y :: y in s && y in xs ==> |r| < |s|
    ensures (forall y :: y in s ==> y !in xs) ==> r == s
    ensures Distinct(s) ==> Distinct(r)
  {
    if s == [] then []
    else if s[0] in xs then Drop(s[1..], xs)
    else
      var rest := Drop(s[1..], xs);
      assert Distinct(s) ==> Distinct(s[1..]) && s[0] !in s[1..];
      assert Distinct(s) ==> Distinct([s[0]] + rest) by {
        if Distinct(s) { DistinctConcat([s[0]], rest); }
      }
      assert s == [s[0]] + s[1..];
      [s[0]] + rest
  }

  /** The names of `s` that are in `xs`, in their order in `s`. */
  function Keep(s: seq<string>, xs: set<string>): (r: seq<string>)
    ensures forall y :: y in r <==> y in s && y in xs
    ensures (forall y :: y in s ==> y in xs) ==> r == s
  {
    if s == [] then []
    else if s[0] in xs then
      assert s == [s[0]] + s[1..];
      [s[0]] + Keep(s[1..], xs)
    else Keep(s[1..], xs)
  }

  /** The first occurrence of each name of `s`, in order. */
  function Dedup(s: seq<string>): (r: seq<string>)
    ensures forall y :: y in r <==> y in s
    ensures Distinct(r)
    ensures Distinct(s) ==> r == s
  {
    if s == [] then []
    else
      var rest := Drop(Dedup(s[1..]), {s[0]});
      DistinctConcat([s[0]], rest);
      assert Distinct(s) ==> Distinct(s[1..]) && s[0] !in s[1..];
      assert s == [s[0]] + s[1..];
      [s[0]] + rest
  }

  /**
    `prefix`, followed by the names of `universe` that `prefix` leaves out,
    in their order in `universe`.
   */
  function Complete(prefix: seq<string>, universe: seq<string>): (r: seq<string>)
    ensures |prefix| <= |r| && r[..|prefix|] == prefix
    ensures Distinct(prefix) && Distinct(universe) && (forall x :: x in prefix ==> x in universe) ==>
              IsOrderOf(r, universe)
    ensures IsOrderOf(prefix, universe) ==> r == prefix
    ensures Drop(r, Elems(prefix)) == Drop(universe, Elems(prefix))
  {
    var rest := Drop(universe, Elems(prefix));
    DropPrefix(prefix, rest);
    assert Distinct(prefix) && Distinct(universe) ==> Distinct(prefix + rest) by {
      if Distinct(prefix) && Distinct(universe) { DistinctConcat(prefix, rest); }
    }
    assert rest != [] ==> rest[0] in rest;
    assert (prefix + rest)[..|prefix|] == prefix;
    prefix + rest
  }

  /** `s` with `x` put first and every other name kept in its relative order. */
  function MoveToFront(s: seq<string>, x: string): (r: seq<string>)
    ensures |r| > 0 && r[0] == x
    ensures Drop(r, {x}) == Drop(s, {x})
    ensures Distinct(s) && x in s ==> IsOrderOf(r, s) && |r| == |s|
  {
    var r := Complete([x], s);
    assert Elems([x]) == {x};
    assert r == [x] + Drop(s, {x});
    assert r[1..] == Drop(s, {x});
    assert Distinct(s) && x in s ==> |r| == |s| by {
      if Distinct(s) && x in s { OrderLength(r, s); }
    }
    r
  }

  /** A non-empty `a` is its head followed by its tail, also in front of `b`. */
  lemma SplitHead(a: seq<string>, b: seq<string>)
    requires a != []
    ensures a == [a[0]] + a[1..] && a + b == [a[0]] + (a[1..] + b)
  {
  }

  /** Putting `x` in front of a concatenation puts it in front of its first part. */
  lemma ConsAssoc(x: string, a: seq<string>, b: seq<string>)
    ensures [x] + (a + b) == ([x] + a) + b
  {
  }

  /** `Drop` on a sequence that starts with `x`. */
  lemma DropCons(x: string, s: seq<string>, xs: set<string>)
    ensures Drop([x] + s, xs) == if x in xs then Drop(s, xs) else [x] + Drop(s, xs)
  {
    assert ([x] + s)[0] == x && ([x] + s)[1..] == s;
  }

  /** Dropping names from a concatenation drops them from each part. */
  lemma {:induction false} DropConcat(a: seq<string>, b: seq<string>, xs: set<string>)
    ensures Drop(a + b, xs) == Drop(a, xs) + Drop(b, xs)
  {
    if a == [] {
      assert a + b == b;
    } else {
      DropConcat(a[1..], b, xs);
      SplitHead(a, b);
      DropCons(a[0], a[1..] + b, xs);
      DropCons(a[0], a[1..], xs);
      if a[0] !in xs {
        ConsAssoc(a[0], Drop(a[1..], xs), Drop(b, xs));
      }
    }
  }

  /** Dropping the names of `prefix` from `prefix + rest` leaves `rest` when `rest` holds none of them. */
  lemma DropPrefix(prefix: seq<string>, rest: seq<string>)
    requires forall y :: y in rest ==> y !in prefix
    ensures Drop(prefix + rest, Elems(prefix)) == rest
  {
    DropConcat(prefix, rest, Elems(prefix));
    DropAll(prefix, Elems(prefix));
  }

  /** Dropping every name of `s` leaves nothing. */
  lemma {:induction false} DropAll(s: seq<string>, xs: set<string>)
    requires forall y :: y in s ==> y in xs
    ensures Drop(s, xs) == []
  {
    if s != [] {
      assert s[0] in s && forall y :: y in s[1..] ==> y in s;
      DropAll(s[1..], xs);
    }
  }

  /** Keeping no name of `s` leaves nothing. */
  lemma {:induction false} KeepNone(s: seq<string>, xs: set<string>)
    requires forall y :: y in s ==> y !in xs
    ensures Keep(s, xs) == []
  {
    if s != [] {
      assert s[0] in s && forall y :: y in s[1..] ==> y in s;
      KeepNone(s[1..], xs);
    }
  }

  /** `Keep` on a sequence that starts with `x`. */
  lemma KeepCons(x: string, s: seq<string>, xs: set<string>)
    ensures Keep([x] + s, xs) == if x !in xs then Keep(s, xs) else [x] + Keep(s, xs)
  {
    assert ([x] + s)[0] == x && ([x] + s)[1..] == s;
  }

  /** Keeping names of a concatenation keeps them in each part. */
  lemma {:induction false} KeepConcat(a: seq<string>, b: seq<string>, xs: set<string>)
    ensures Keep(a + b, xs) == Keep(a, xs) + Keep(b, xs)
  {
    if a == [] {
      assert a + b == b;
    } else {
      KeepConcat(a[1..], b, xs);
      SplitHead(a, b);
      KeepCons(a[0], a[1..] + b, xs);
      KeepCons(a[0], a[1..], xs);
      if a[0] in xs {
        ConsAssoc(a[0], Keep(a[1..], xs), Keep(b, xs));
      }
    }
  }

  /** Two sets that agree on the names of `s` drop the same names from it. */
  lemma {:induction false} DropAgreeing(s: seq<string>, xs: set<string>, ys: set<string>)
    requires forall y :: y in s ==> (y in xs <==> y in ys)
    ensures Drop(s, xs) == Drop(s, ys)
  {
    if s != [] {
      assert forall y :: y in s[1..] ==> y in s;
      DropAgreeing(s[1..], xs, ys);
    }
  }

  /** Dropping twice drops the union. */
  lemma {:induction false} DropDrop(s: seq<string>, xs: set<string>, ys: set<string>)
    ensures Drop(Drop(s, xs), ys) == Drop(s, xs + ys)
  {
    if s != [] {
      DropDrop(s[1..], xs, ys);
      if s[0] !in xs {
        assert Drop(s, xs) == [s[0]] + Drop(s[1..], xs);
      }
    }
  }

  /**
    A name is appended to the deduplicated list at its first occurrence and
    never after, so the names of `Dedup(s)` stand in the order of their first
    occurrence in `s`.
   */
  lemma {:induction false} DedupSnoc(s: seq<string>, x: string)
    ensures Dedup(s + [x]) == if x in s then Dedup(s) else Dedup(s) + [x]
  {
    if s == [] {
      assert s + [x] == [x];
    } else {
      DedupSnoc(s[1..], x);
      assert s == [s[0]] + s[1..];
      DedupSnocStep(s[0], s[1..], x);
    }
  }

  /** The inductive step of `DedupSnoc`: putting `a` in front keeps the property. */
  lemma DedupSnocStep(a: string, t: seq<string>, x: string)
    requires Dedup(t + [x]) == if x in t then Dedup(t) else Dedup(t) + [x]
    ensures Dedup([a] + t + [x]) == if x in [a] + t then Dedup([a] + t) else Dedup([a] + t) + [x]
  {
    ConsAssoc(a, t, [x]);
    DedupCons(a, t + [x]);
    DedupCons(a, t);
    if x !in t {
      DropConcat(Dedup(t), [x], {a});
      DropSingle(x, {a});
      if x == a {
        EmptyRight(Drop(Dedup(t), {a}));
      } else {
        ConsAssoc(a, Drop(Dedup(t), {a}), [x]);
      }
    }
  }

  /** `Dedup` on a sequence that starts with `x`. */
  lemma DedupCons(x: string, s: seq<string>)
    ensures Dedup([x] + s) == [x] + Drop(Dedup(s), {x})
  {
    assert ([x] + s)[0] == x && ([x] + s)[1..] == s;
  }

  /** `Drop` on a one-name sequence. */
  lemma DropSingle(x: string, xs: set<string>)
    ensures Drop([x], xs) == if x in xs then [] else [x]
  {
    assert [x][1..] == [];
  }

  /** Appending nothing changes nothing. */
  lemma EmptyRight(a: seq<string>)
    ensures a + [] == a
  {
  }

  /** A duplicate-free sequence is no longer than any sequence holding all its names. */
  lemma {:induction false} DistinctSubsetLength(a: seq<string>, b: seq<string>)
    requires Distinct(a)
    requires forall x :: x in a ==> x in b
    ensures |a| <= |b|
    decreases |a|
  {
    if a != [] {
      var b' := Drop(b, {a[0]});
      forall x | x in a[1..]
        ensures x in b'
      {
        var k :| 0 <= k < |a[1..]| && a[1..][k] == x;
        assert a[k + 1] == x;
      }
      assert a[0] in b;
      DistinctSubsetLength(a[1..], b');
    }
  }

  /** An order of a duplicate-free universe has exactly the universe's length. */
  lemma OrderLength(order: seq<string>, universe: seq<string>)
    requires Distinct(universe)
    requires IsOrderOf(order, universe)
    ensures |order| == |universe|
  {
    DistinctSubsetLength(order, universe);
    DistinctSubsetLength(universe, order);
  }

  /** In a duplicate-free sequence a name occurs once if it is present and not at all otherwise. */
  lemma {:induction false} DistinctOccurrences(s: seq<string>, x: string)
    requires Distinct(s)
    ensures multiset(s)[x] == if x in s then 1 else 0
  {
    if s != [] {
      assert s == [s[0]] + s[1..];
      assert Distinct(s[1..]) && s[0] !in s[1..];
      DistinctOccurrences(s[1..], x);
    }
  }
}
