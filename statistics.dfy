/** The four statistics the component derives from delivered collections: the
    number of graves in "Buschhoven", the union of the property names of the grave
    plots, and the graveyard with the most unassigned grave plots. (The number of
    graveyards is the length of a list and needs nothing here.) */
module Statistics {
  import opened Wrappers
  import opened Seqs
  import opened Features

  const Buschhoven: string := "Buschhoven"

  /** `features.filter(f => f.properties['friedhof'] === name).length` */
  function GravesIn(fs: seq<Feature>, name: string): (n: nat)
    ensures n == Count(Names(fs), name)
    ensures n <= |fs|
    ensures n == 0 <==> forall i :: 0 <= i < |fs| ==> fs[i].friedhof != name
  {
    CountZero(Names(fs), name);
    |Matching(fs, name)|
  }

  // ---------------------------------------------------------------------------
  // Property-name union

  /** All property names of all features, concatenated in feature order. */
  function AllKeys(fs: seq<Feature>): seq<string> {
    if fs == [] then [] else AllKeys(fs[..|fs| - 1]) + fs[|fs| - 1].keys
  }

  lemma {:induction false} AllKeysHas(fs: seq<Feature>, k: string)
    ensures k in AllKeys(fs) <==> exists i :: 0 <= i < |fs| && k in fs[i].keys
  {
    if fs != [] {
      var p := fs[..|fs| - 1];
      AllKeysHas(p, k);
      if k in AllKeys(p) {
        var i :| 0 <= i < |p| && k in p[i].keys;
        assert fs[i] == p[i];
      }
      if exists i :: 0 <= i < |fs| && k in fs[i].keys {
        var i :| 0 <= i < |fs| && k in fs[i].keys;
        if i < |p| {
          assert p[i] == fs[i];
        }
      }
    }
  }

  /** `features.map(f => new Set(Object.keys(f.properties))).reduce((l, r) => new Set([...l, ...r]))`
      on a non-empty list: a left fold of set unions. */
  function UnionReduce(fs: seq<Feature>): seq<string>
    requires fs != []
  {
    if |fs| == 1 then Distinct(fs[0].keys)
    else Distinct(UnionReduce(fs[..|fs| - 1]) + Distinct(fs[|fs| - 1].keys))
  }

  /** The fold of unions is the set of all property names, in first-seen order. */
  lemma {:induction false} UnionReduceIsDistinctKeys(fs: seq<Feature>)
    requires fs != []
    ensures UnionReduce(fs) == Distinct(AllKeys(fs))
  {
    var p, f := fs[..|fs| - 1], fs[|fs| - 1];
    if |fs| == 1 {
      assert p == [];
      assert AllKeys(fs) == [] + f.keys == f.keys;
    } else {
      UnionReduceIsDistinctKeys(p);
      DistinctAbsorbLeft(AllKeys(p), Distinct(f.keys));
      DistinctAbsorbRight(AllKeys(p), f.keys);
    }
  }

  /** The `gravePlotFields` statistic: every property name of every feature, once
      each, in the order first seen; the `reduce` throws on an empty list. */
  function KeyUnion(fs: seq<Feature>): (r: Result<seq<string>>)
    ensures r.Err? <==> fs == []
    ensures r.Err? ==> r.error == ReduceOfEmptyArray
    ensures r.Ok? ==> NoDuplicates(r.value)
    ensures r.Ok? ==> forall k :: k in r.value <==> exists i :: 0 <= i < |fs| && k in fs[i].keys
    ensures r.Ok? ==> r.value == Distinct(AllKeys(fs))
  {
    if fs == [] then Err(ReduceOfEmptyArray)
    else
      UnionReduceIsDistinctKeys(fs);
      assert forall k :: k in AllKeys(fs) <==> exists i :: 0 <= i < |fs| && k in fs[i].keys by {
        forall k ensures k in AllKeys(fs) <==> exists i :: 0 <= i < |fs| && k in fs[i].keys {
          AllKeysHas(fs, k);
        }
      }
      Ok(UnionReduce(fs))
  }

  /** Reordering or repeating features does not change which names the union holds. */
  lemma KeyUnionReorder(fs: seq<Feature>, gs: seq<Feature>)
    requires fs != [] && gs != []
    requires forall f :: f in fs <==> f in gs
    ensures forall k :: k in KeyUnion(fs).value <==> k in KeyUnion(gs).value
  {
    forall k ensures k in KeyUnion(fs).value ==> k in KeyUnion(gs).value {
      if k in KeyUnion(fs).value {
        var i :| 0 <= i < |fs| && k in fs[i].keys;
        assert fs[i] in gs;
      }
    }
    forall k ensures k in KeyUnion(gs).value ==> k in KeyUnion(fs).value {
      if k in KeyUnion(gs).value {
        var i :| 0 <= i < |gs| && k in gs[i].keys;
        assert gs[i] in fs;
      }
    }
  }

  // ---------------------------------------------------------------------------
  // Grouping by graveyard

  /** `Map.has` followed by `Map.get` on the entries: the index of `k`, if present. */
  function KeyIndex(es: seq<(string, nat)>, k: string): (r: Option<nat>)
    ensures r.None? <==> forall i :: 0 <= i < |es| ==> es[i].0 != k
    ensures r.Some? ==> r.value < |es| && es[r.value].0 == k
  {
    if es == [] then None
    else if es[0].0 == k then Some(0)
    else match KeyIndex(es[1..], k)
      case None => None
      case Some(i) => Some(i + 1)
  }

  /** The `forEach` loop that fills `gravePlotsByGraveyardMap`: an insertion-ordered
      map from graveyard name to the number of its features. */
  method GroupByFriedhof(fs: seq<Feature>) returns (entries: seq<(string, nat)>)
    ensures entries == Tally(Names(fs))
  {
    ghost var names := Names(fs);
    entries := [];
    for n := 0 to |fs|
      invariant entries == Tally(names[..n])
    {
      var name := fs[n].friedhof;
      ghost var before := names[..n];
      TakeSnoc(names, n);
      var k := KeyIndex(entries, name);
      if k.Some? {
        TallyStepPresent(before, name, k.value, entries);
        entries := entries[k.value := (name, 1 + entries[k.value].1)];
      } else {
        TallyStepNew(before, name, entries);
        entries := entries + [(name, 1)];
      }
    }
    assert names[..|fs|] == names;
  }

  // ---------------------------------------------------------------------------
  // The entry with the largest count

  /** Entry `k` of `es` has a count no entry exceeds, and no earlier entry reaches it. */
  ghost predicate EarliestMaxAt<K>(es: seq<(K, nat)>, k: int) {
    0 <= k < |es| &&
    (forall i :: 0 <= i < |es| ==> es[i].1 <= es[k].1) &&
    (forall j :: 0 <= j < k ==> es[j].1 < es[k].1)
  }

  /** `r` is the entry of `es` whose count no entry exceeds and that no earlier entry
      reaches. */
  ghost predicate IsEarliestMax<K>(es: seq<(K, nat)>, r: (K, nat)) {
    exists k {:trigger EarliestMaxAt(es, k)} :: EarliestMaxAt(es, k) && es[k] == r
  }

  /** At most one entry is the earliest with the largest count. */
  lemma EarliestMaxUnique<K>(es: seq<(K, nat)>, a: (K, nat), b: (K, nat))
    requires IsEarliestMax(es, a) && IsEarliestMax(es, b)
    ensures a == b
  {
    var ka :| EarliestMaxAt(es, ka) && es[ka] == a;
    var kb :| EarliestMaxAt(es, kb) && es[kb] == b;
    assert ka == kb;
  }

  /** `entries.reduce((left, right) => right[1] > left[1] ? right : left)` on a
      non-empty list: a left fold that replaces the kept entry only by a strictly larger one. */
  function ReduceMax<K(==)>(es: seq<(K, nat)>): (r: (K, nat))
    requires es != []
    ensures r in es
    ensures IsEarliestMax(es, r)
  {
    if |es| == 1 then
      assert EarliestMaxAt(es, 0);
      es[0]
    else
      var p := es[..|es| - 1];
      var left, right := ReduceMax(p), es[|es| - 1];
      assert es == p + [right];
      if right.1 > left.1 then
        assert EarliestMaxAt(es, |es| - 1) by {
          var k :| EarliestMaxAt(p, k) && p[k] == left;
        }
        right
      else
        assert IsEarliestMax(es, left) by {
          var k :| EarliestMaxAt(p, k) && p[k] == left;
          assert EarliestMaxAt(es, k);
        }
        left
  }

  /** The `graveyardWithMostUnassigned` statistic: the earliest entry with the
      largest count; the `reduce` throws on an empty list. */
  function MostUnassigned<K(==)>(es: seq<(K, nat)>): (r: Result<(K, nat)>)
    ensures r.Err? <==> es == []
    ensures r.Err? ==> r.error == ReduceOfEmptyArray
    ensures r.Ok? ==> r.value in es && IsEarliestMax(es, r.value)
  {
    if es == [] then Err(ReduceOfEmptyArray) else Ok(ReduceMax(es))
  }

  lemma EarliestMaxOfTallyBound<T(!new)>(names: seq<T>, r: (T, nat))
    requires IsEarliestMax(Tally(names), r)
    ensures r.0 in names && r.1 == Count(names, r.0)
    ensures forall other :: Count(names, other) <= r.1
  {
    var es := Tally(names);
    TallyEntries(names);
    var k :| EarliestMaxAt(es, k) && es[k] == r;
    forall other ensures Count(names, other) <= r.1 {
      CountZero(names, other);
      TallyCovers(names, other);
      if other in names {
        var i :| 0 <= i < |es| && es[i].0 == other;
      }
    }
  }

  lemma EarliestMaxOfTallyFirst<T(!new)>(names: seq<T>, r: (T, nat), other: T)
    requires IsEarliestMax(Tally(names), r)
    requires other in names && Count(names, other) == r.1
    ensures r.0 in names
    ensures FirstIndex(names, r.0) <= FirstIndex(names, other)
  {
    var es := Tally(names);
    TallyEntries(names);
    var k :| EarliestMaxAt(es, k) && es[k] == r;
    TallyCovers(names, other);
    var i :| 0 <= i < |es| && es[i].0 == other;
    assert es[i].1 == r.1;
    assert k <= i;
    if k < i {
      TallyOrder(names);
    }
  }

  /** Over the grouped names themselves: the statistic names a graveyard that
      occurs, with its number of occurrences; no name occurs more often, and among
      the names that occur that often it is the one that occurs first. */
  lemma MostUnassignedIsMostFrequent<T(!new)>(names: seq<T>)
    requires names != []
    ensures MostUnassigned(Tally(names)).Ok?
    ensures var r := MostUnassigned(Tally(names)).value;
              r.0 in names && r.1 == Count(names, r.0) &&
              (forall other :: Count(names, other) <= r.1) &&
              (forall other :: other in names && Count(names, other) == r.1 ==>
                 FirstIndex(names, r.0) <= FirstIndex(names, other))
  {
    assert Tally(names) != [] by {
      TallyCovers(names, names[0]);
    }
    var r := MostUnassigned(Tally(names)).value;
    EarliestMaxOfTallyBound(names, r);
    forall other | other in names && Count(names, other) == r.1
      ensures FirstIndex(names, r.0) <= FirstIndex(names, other)
    {
      EarliestMaxOfTallyFirst(names, r, other);
    }
  }

  lemma TallyOfAB()
    ensures Tally(["A", "B"]) == [("A", 1), ("B", 1)]
  {
    assert Tally<string>([]) == [];
    TallyAppend([], "A");
    assert [] + ["A"] == ["A"];
    TallyAppend(["A"], "B");
    assert ["A"] + ["B"] == ["A", "B"];
  }

  lemma TallyOfABA()
    ensures Tally(["A", "B", "A"]) == [("A", 2), ("B", 1)]
  {
    TallyOfAB();
    TallyEntries(["A", "B"]);
    TallyBump(["A", "B"], "A", 0);
    assert ["A", "B"] + ["A"] == ["A", "B", "A"];
  }

  /** Features named A, B, A give ("A", 2). */
  lemma MostUnassignedExample()
    ensures MostUnassigned(Tally(["A", "B", "A"])) == Ok(("A", 2))
  {
    TallyOfABA();
    var es := Tally(["A", "B", "A"]);
    assert IsEarliestMax(es, ("A", 2)) by {
      assert es[0] == ("A", 2) && EarliestMaxAt(es, 0);
    }
    EarliestMaxUnique(es, ("A", 2), MostUnassigned(es).value);
  }

  /** On a tie the first entry wins: {A: 3, B: 3} gives ("A", 3). */
  lemma MostUnassignedTie()
    ensures MostUnassigned([("A", 3), ("B", 3)]) == Ok(("A", 3))
  {
    var es := [("A", 3), ("B", 3)];
    assert IsEarliestMax(es, ("A", 3)) by {
      assert es[0] == ("A", 3) && EarliestMaxAt(es, 0);
    }
    EarliestMaxUnique(es, ("A", 3), MostUnassigned(es).value);
  }
}
