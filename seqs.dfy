/** Sequence functions behind JavaScript's `Set`, `filter(...).length` and `indexOf`. */
module Seqs {

  /** Number of occurrences of `x` in `s`. */
  function Count<T(==)>(s: seq<T>, x: T): (n: nat)
    ensures n <= |s|
  {
    if s == [] then 0
    else
      Count(s[..|s| - 1], x) + (if s[|s| - 1] == x then 1 else 0)
  }

  /** An element occurs at least once exactly when it is in the sequence. */
  lemma {:induction false} CountZero<T>(s: seq<T>, x: T)
    ensures Count(s, x) == 0 <==> x !in s
  {
    if s != [] {
      var p := s[..|s| - 1];
      assert s == p + [s[|s| - 1]];
      CountZero(p, x);
    }
  }

  lemma CountSnoc<T>(s: seq<T>, c: T, x: T)
    ensures Count(s + [c], x) == Count(s, x) + (if c == x then 1 else 0)
  {
    assert (s + [c])[..|s + [c]| - 1] == s;
  }

  lemma TakeSnoc<T>(s: seq<T>, n: nat)
    requires n < |s|
    ensures s[..n + 1] == s[..n] + [s[n]]
  {
  }

  predicate NoDuplicates<T(==)>(s: seq<T>) {
    forall i, j :: 0 <= i < j < |s| ==> s[i] != s[j]
  }

  /** Index of the first occurrence of `x` in `s` (`indexOf`). */
  function FirstIndex<T(==)>(s: seq<T>, x: T): (i: nat)
    requires x in s
    ensures i < |s| && s[i] == x
    ensures forall j :: 0 <= j < i ==> s[j] != x
  {
    if s[0] == x then 0 else 1 + FirstIndex(s[1..], x)
  }

  /** `[...new Set(s)]`: a `Set` is filled in the order of `s` and keeps only the
      first occurrence of each element, so this adds the elements of `s` one by one
      and skips those already present. */
  function Distinct<T(==, !new)>(s: seq<T>): (r: seq<T>)
    ensures NoDuplicates(r)
    ensures forall x :: x in r <==> x in s
    ensures |r| <= |s|
  {
    if s == [] then []
    else
      var d, c := Distinct(s[..|s| - 1]), s[|s| - 1];
      assert s == s[..|s| - 1] + [c];
      if c in d then d else d + [c]
  }

  lemma DistinctSnoc<T(!new)>(s: seq<T>, c: T)
    ensures Distinct(s + [c]) == if c in Distinct(s) then Distinct(s) else Distinct(s) + [c]
  {
    assert (s + [c])[..|s + [c]| - 1] == s;
  }

  /** The elements of `Distinct(s)` stand in the order of their first occurrence in `s`. */
  lemma {:induction false} DistinctFirstOccurrenceOrder<T(!new)>(s: seq<T>)
    ensures forall i, j :: 0 <= i < j < |Distinct(s)| ==>
              FirstIndex(s, Distinct(s)[i]) < FirstIndex(s, Distinct(s)[j])
  {
    if s != [] {
      var p, c := s[..|s| - 1], s[|s| - 1];
      assert s == p + [c];
      DistinctFirstOccurrenceOrder(p);
      DistinctSnoc(p, c);
      var d := Distinct(p);
      forall x | x in p ensures FirstIndex(s, x) == FirstIndex(p, x) < |p| {
        var k := FirstIndex(p, x);
        assert s[k] == x;
        assert forall j :: 0 <= j < k ==> s[j] == p[j];
      }
      if c !in d {
        assert FirstIndex(s, c) == |p|;
        assert Distinct(s) == d + [c];
        forall i, j | 0 <= i < j < |Distinct(s)|
          ensures FirstIndex(s, Distinct(s)[i]) < FirstIndex(s, Distinct(s)[j])
        {
          assert Distinct(s)[i] == d[i] && d[i] in p;
          if j < |d| {
            assert Distinct(s)[j] == d[j] && d[j] in p;
          }
        }
      } else {
        forall i, j | 0 <= i < j < |Distinct(s)|
          ensures FirstIndex(s, Distinct(s)[i]) < FirstIndex(s, Distinct(s)[j])
        {
          assert d[i] in p && d[j] in p;
        }
      }
    }
  }

  /** The first element of `Distinct(s)` is the first element of `s`. */
  lemma {:induction false} DistinctHead<T(!new)>(s: seq<T>)
    requires s != []
    ensures Distinct(s) != [] && Distinct(s)[0] == s[0]
  {
    var p, c := s[..|s| - 1], s[|s| - 1];
    assert s == p + [c];
    DistinctSnoc(p, c);
    if p != [] {
      DistinctHead(p);
      assert p[0] == s[0];
    }
  }

  /** Names X, Y, X list as X, Y: two names, each once, in first-seen order. */
  lemma DistinctExample()
    ensures Distinct(["X", "Y", "X"]) == ["X", "Y"]
  {
    assert Distinct<string>([]) == [];
    DistinctSnoc([], "X");
    assert [] + ["X"] == ["X"];
    DistinctSnoc(["X"], "Y");
    assert ["X"] + ["Y"] == ["X", "Y"];
    DistinctSnoc(["X", "Y"], "X");
    assert ["X", "Y"] + ["X"] == ["X", "Y", "X"];
  }

  /** A sequence without duplicates is its own `Distinct`. */
  lemma {:induction false} DistinctOfDistinct<T(!new)>(s: seq<T>)
    requires NoDuplicates(s)
    ensures Distinct(s) == s
  {
    if s != [] {
      var p, c := s[..|s| - 1], s[|s| - 1];
      assert s == p + [c];
      DistinctOfDistinct(p);
      DistinctSnoc(p, c);
      assert c !in p;
    }
  }

  /** `new Set([...new Set(a), ...b])` holds what `new Set([...a, ...b])` holds, in the same order. */
  lemma {:induction false} DistinctAbsorbLeft<T(!new)>(a: seq<T>, b: seq<T>)
    ensures Distinct(Distinct(a) + b) == Distinct(a + b)
  {
    if b == [] {
      assert Distinct(a) + b == Distinct(a) && a + b == a;
      DistinctOfDistinct(Distinct(a));
    } else {
      var b', c := b[..|b| - 1], b[|b| - 1];
      DistinctAbsorbLeft(a, b');
      assert Distinct(a) + b == (Distinct(a) + b') + [c];
      assert a + b == (a + b') + [c];
      DistinctSnoc(Distinct(a) + b', c);
      DistinctSnoc(a + b', c);
    }
  }

  /** `new Set([...a, ...new Set(b)])` holds what `new Set([...a, ...b])` holds, in the same order. */
  lemma {:induction false} DistinctAbsorbRight<T(!new)>(a: seq<T>, b: seq<T>)
    ensures Distinct(a + Distinct(b)) == Distinct(a + b)
  {
    if b == [] {
      assert a + b == a && a + Distinct(b) == a;
    } else {
      var b', c := b[..|b| - 1], b[|b| - 1];
      var db := Distinct(b');
      assert b == b' + [c];
      assert a + b == (a + b') + [c];
      DistinctAbsorbRight(a, b');
      DistinctSnoc(b', c);
      DistinctSnoc(a + b', c);
      if c in db {
        assert c in a + b';
      } else {
        assert a + Distinct(b) == (a + db) + [c];
        DistinctSnoc(a + db, c);
      }
    }
  }

  // ---------------------------------------------------------------------------
  // Counting occurrences per distinct element

  /** Each key with the number of its occurrences in `names`. */
  function CountsFor<T(==)>(keys: seq<T>, names: seq<T>): (r: seq<(T, nat)>)
    ensures |r| == |keys|
    ensures forall i :: 0 <= i < |keys| ==> r[i] == (keys[i], Count(names, keys[i]))
  {
    if keys == [] then [] else [(keys[0], Count(names, keys[0]))] + CountsFor(keys[1..], names)
  }

  /** The entries of a JavaScript `Map` counting `names`: the distinct names in
      first-occurrence (insertion) order, each with its number of occurrences. */
  function Tally<T(==, !new)>(names: seq<T>): seq<(T, nat)> {
    CountsFor(Distinct(names), names)
  }

  /** The entries are the distinct names, in first-occurrence order, each with
      the number of its occurrences, which is at least one. */
  lemma TallyEntries<T(!new)>(names: seq<T>)
    ensures |Tally(names)| == |Distinct(names)|
    ensures forall i :: 0 <= i < |Tally(names)| ==> Tally(names)[i].0 == Distinct(names)[i]
    ensures forall i :: 0 <= i < |Tally(names)| ==>
              Tally(names)[i].1 == Count(names, Tally(names)[i].0) >= 1
  {
    var d := Distinct(names);
    forall i | 0 <= i < |d| ensures Count(names, d[i]) >= 1 {
      CountZero(names, d[i]);
    }
  }

  /** The names of the entries stand in the order in which they first occur. */
  lemma TallyOrder<T(!new)>(names: seq<T>)
    ensures forall i, j :: 0 <= i < j < |Tally(names)| ==>
              FirstIndex(names, Tally(names)[i].0) < FirstIndex(names, Tally(names)[j].0)
  {
    DistinctFirstOccurrenceOrder(names);
  }

  /** Every name has an entry, and only names have entries. */
  lemma TallyCovers<T(!new)>(names: seq<T>, x: T)
    ensures x in names <==> exists i :: 0 <= i < |Tally(names)| && Tally(names)[i].0 == x
  {
    var d := Distinct(names);
    if x in names {
      var i :| 0 <= i < |d| && d[i] == x;
      assert Tally(names)[i].0 == x;
    }
  }

  /** Sum of the counts. */
  function Total<T>(es: seq<(T, nat)>): nat {
    if es == [] then 0 else es[0].1 + Total(es[1..])
  }

  /** One more occurrence of the key at `j` adds one to that entry only. */
  lemma CountsForBump<T>(keys: seq<T>, names: seq<T>, c: T, j: nat)
    requires NoDuplicates(keys) && j < |keys| && keys[j] == c
    ensures CountsFor(keys, names + [c]) == CountsFor(keys, names)[j := (c, Count(names, c) + 1)]
  {
    var t, t' := CountsFor(keys, names), CountsFor(keys, names + [c]);
    var u := t[j := (c, Count(names, c) + 1)];
    forall i | 0 <= i < |keys| ensures t'[i] == u[i] {
      CountSnoc(names, c, keys[i]);
      if i != j {
        assert keys[i] != c;
      }
    }
    assert t' == u;
  }

  /** A name seen again leaves the keys of the tally as they are. */
  lemma TallySnocPresent<T(!new)>(names: seq<T>, c: T)
    requires c in names
    ensures Tally(names + [c]) == CountsFor(Distinct(names), names + [c])
  {
    DistinctSnoc(names, c);
  }

  /** Counting one more occurrence of a name already present adds one to its entry. */
  lemma TallyBump<T(!new)>(names: seq<T>, c: T, j: nat)
    requires j < |Distinct(names)| && Distinct(names)[j] == c
    ensures Tally(names + [c]) == Tally(names)[j := (c, Count(names, c) + 1)]
  {
    TallySnocPresent(names, c);
    CountsForBump(Distinct(names), names, c, j);
  }

  /** `map.set(c, 1 + map.get(c))` for a name the tally already has. */
  lemma TallyStepPresent<T(!new)>(names: seq<T>, c: T, j: nat, entries: seq<(T, nat)>)
    requires entries == Tally(names) && j < |entries| && entries[j].0 == c
    ensures entries[j := (c, 1 + entries[j].1)] == Tally(names + [c])
  {
    assert Distinct(names)[j] == c && entries[j].1 == Count(names, c);
    TallyBump(names, c, j);
  }

  /** A key seen for the first time gets an entry with count 1 at the end. */
  lemma CountsForFresh<T>(keys: seq<T>, names: seq<T>, c: T)
    requires c !in keys && c !in names
    ensures CountsFor(keys + [c], names + [c]) == CountsFor(keys, names) + [(c, 1)]
  {
    var t, t' := CountsFor(keys, names), CountsFor(keys + [c], names + [c]);
    var u := t + [(c, 1)];
    CountZero(names, c);
    forall i | 0 <= i <= |keys| ensures t'[i] == u[i] {
      var x := (keys + [c])[i];
      CountSnoc(names, c, x);
      if i < |keys| {
        assert x == keys[i] && x != c;
      }
    }
    assert t' == u;
  }

  /** Counting a new name appends an entry with count 1. */
  lemma TallyAppend<T(!new)>(names: seq<T>, c: T)
    requires c !in names
    ensures Tally(names + [c]) == Tally(names) + [(c, 1)]
  {
    var d := Distinct(names);
    assert c !in d;
    DistinctSnoc(names, c);
    assert Distinct(names + [c]) == d + [c];
    CountsForFresh(d, names, c);
    assert Tally(names + [c]) == CountsFor(d + [c], names + [c]);
  }


  /** `map.set(c, 1)` for a name the tally does not have yet. */
  lemma TallyStepNew<T(!new)>(names: seq<T>, c: T, entries: seq<(T, nat)>)
    requires entries == Tally(names) && forall i :: 0 <= i < |entries| ==> entries[i].0 != c
    ensures entries + [(c, 1)] == Tally(names + [c])
  {
    TallyCovers(names, c);
    TallyAppend(names, c);
  }

  lemma {:induction false} TotalCountsForNone<T>(keys: seq<T>)
    ensures Total(CountsFor(keys, [])) == 0
  {
    if keys != [] {
      TotalCountsForNone(keys[1..]);
    }
  }

  lemma {:induction false} TotalCountsForSnoc<T>(keys: seq<T>, names: seq<T>, c: T)
    requires NoDuplicates(keys)
    ensures Total(CountsFor(keys, names + [c])) == Total(CountsFor(keys, names)) + (if c in keys then 1 else 0)
  {
    if keys != [] {
      assert NoDuplicates(keys[1..]) by {
        forall i, j | 0 <= i < j < |keys[1..]| ensures keys[1..][i] != keys[1..][j] {
          assert keys[1..][i] == keys[i + 1] && keys[1..][j] == keys[j + 1];
        }
      }
      TotalCountsForSnoc(keys[1..], names, c);
      CountSnoc(names, c, keys[0]);
      assert keys == [keys[0]] + keys[1..];
      assert c == keys[0] ==> c !in keys[1..];
    }
  }

  lemma {:induction false} TotalCountsFor<T>(keys: seq<T>, names: seq<T>)
    requires NoDuplicates(keys)
    requires forall i :: 0 <= i < |names| ==> names[i] in keys
    ensures Total(CountsFor(keys, names)) == |names|
  {
    if names == [] {
      TotalCountsForNone(keys);
    } else {
      var p, c := names[..|names| - 1], names[|names| - 1];
      assert names == p + [c];
      TotalCountsFor(keys, p);
      TotalCountsForSnoc(keys, p, c);
    }
  }

  /** The counts of the grouping add up to the number of features grouped. */
  lemma TallyTotal<T(!new)>(names: seq<T>)
    ensures Total(Tally(names)) == |names|
  {
    TotalCountsFor(Distinct(names), names);
  }
}
