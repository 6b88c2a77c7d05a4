/** Rows of a relational table keyed by an integer primary key, and the two
    things every repository call here needs: "some row matching a condition"
    (a `findOne` without an order) and a fresh primary key. */
module Tables {
  import opened Outcomes

  /** `k` is at most every key of `ks`. */
  predicate LowerBound(k: nat, ks: set<nat>)
  {
    forall j :: j in ks ==> k <= j
  }

  /** Every non-empty key set has a smallest key. */
  lemma {:induction false} LeastExists(ks: set<nat>)
    requires ks != {}
    ensures exists k :: k in ks && LowerBound(k, ks)
    decreases ks
  {
    var x :| x in ks;
    var rest := ks - {x};
    if rest == {} {
      assert ks == {x};
      assert LowerBound(x, ks);
    } else {
      LeastExists(rest);
      var y :| y in rest && LowerBound(y, rest);
      var k := if x <= y then x else y;
      assert ks == rest + {x};
      assert LowerBound(k, ks);
      assert k in ks;
    }
  }

  /** The smallest key of a non-empty key set. */
  function Least(ks: set<nat>): (k: nat)
    requires ks != {}
    ensures k in ks
    ensures forall j :: j in ks ==> k <= j
  {
    LeastExists(ks);
    var k :| k in ks && LowerBound(k, ks);
    k
  }

  /** A key strictly above every key in use: a freshly generated primary key. */
  function Fresh(ks: set<nat>): (k: nat)
    ensures k !in ks
    ensures forall j :: j in ks ==> j < k
    decreases ks
  {
    if ks == {} then 0
    else
      var m := Least(ks);
      var r := Fresh(ks - {m});
      assert forall j :: j in ks ==> j == m || j in ks - {m};
      if r <= m then m + 1 else r
  }

  /** `findOne({ where: ... })` without an ORDER BY: some row satisfying `p`,
      or nothing exactly when no row satisfies it. The least key is chosen;
      callers rely only on the two ensures. */
  function FindKey<V>(m: map<nat, V>, p: V -> bool): (r: Option<nat>)
    ensures r.Some? ==> r.value in m && p(m[r.value])
    ensures r.None? <==> forall k :: k in m ==> !p(m[k])
  {
    var hits := set k | k in m && p(m[k]);
    assert forall k :: k in m && p(m[k]) ==> k in hits;
    if hits == {} then None else Some(Least(hits))
  }

  /** The lookup depends only on which rows match: rewriting rows without
      changing whether they match leaves the answer unchanged. */
  lemma FindKeyStable<V>(m: map<nat, V>, n: map<nat, V>, p: V -> bool)
    requires m.Keys == n.Keys
    requires forall k :: k in m ==> p(m[k]) == p(n[k])
    ensures FindKey(m, p) == FindKey(n, p)
  {
    var hm := set k | k in m && p(m[k]);
    var hn := set k | k in n && p(n[k]);
    assert hm == hn;
    assert FindKey(m, p) == (if hm == {} then None else Some(Least(hm)));
    assert FindKey(n, p) == (if hn == {} then None else Some(Least(hn)));
  }

  /** True when no element occurs twice. */
  predicate NoDup<T(==)>(s: seq<T>)
  {
    forall i, j :: 0 <= i < j < |s| ==> s[i] != s[j]
  }
}
