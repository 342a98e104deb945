/**
  The iteration order of `std::map<std::string, V>`: keys ascend in the
  lexicographic order of their bytes. `Items` is the sequence a range-for over
  the map visits.
 */
module StdMap {
  import opened Bytes
  import opened Wrappers

  predicate Less(a: ByteString, b: ByteString) {
    if |b| == 0 then false
    else if |a| == 0 then true
    else a[0] < b[0] || (a[0] == b[0] && Less(a[1..], b[1..]))
  }

  lemma {:induction false} LessTotal(a: ByteString, b: ByteString)
    ensures a == b || Less(a, b) || Less(b, a)
  {
    if |a| != 0 && |b| != 0 && a[0] == b[0] {
      LessTotal(a[1..], b[1..]);
      assert a == [a[0]] + a[1..] && b == [b[0]] + b[1..];
    }
  }

  lemma {:induction false} LessAsymmetric(a: ByteString, b: ByteString)
    requires Less(a, b)
    ensures !Less(b, a)
  {
    if |a| != 0 && a[0] == b[0] {
      LessAsymmetric(a[1..], b[1..]);
    }
  }

  lemma {:induction false} LessTransitive(a: ByteString, b: ByteString, c: ByteString)
    requires Less(a, b) && Less(b, c)
    ensures Less(a, c)
  {
    if |a| != 0 && a[0] == b[0] == c[0] {
      LessTransitive(a[1..], b[1..], c[1..]);
    }
  }

  predicate IsFirst(k: ByteString, keys: set<ByteString>) {
    k in keys && forall j :: j in keys ==> j == k || Less(k, j)
  }

  lemma FirstUnique(k: ByteString, j: ByteString, keys: set<ByteString>)
    requires IsFirst(k, keys) && IsFirst(j, keys)
    ensures k == j
  {
    if k != j {
      LessAsymmetric(k, j);
    }
  }

  lemma {:induction false} FirstExists(keys: set<ByteString>)
    requires keys != {}
    ensures exists k :: IsFirst(k, keys)
    ensures forall j, k :: IsFirst(j, keys) && IsFirst(k, keys) ==> j == k
  {
    forall j, k | IsFirst(j, keys) && IsFirst(k, keys) ensures j == k {
      FirstUnique(j, k, keys);
    }
    var k :| k in keys;
    if keys == {k} {
      assert IsFirst(k, keys);
    } else {
      var rest := keys - {k};
      assert keys == rest + {k};
      FirstExists(rest);
      var f :| IsFirst(f, rest);
      LessTotal(k, f);
      if Less(f, k) {
        assert IsFirst(f, keys);
      } else {
        forall j | j in keys ensures j == k || Less(k, j) {
          if j != k && j != f {
            LessTransitive(k, f, j);
          }
        }
        assert IsFirst(k, keys);
      }
    }
  }

  function FirstKey(keys: set<ByteString>): (k: ByteString)
    requires keys != {}
    ensures IsFirst(k, keys)
  {
    FirstExists(keys);
    var k :| k in keys && IsFirst(k, keys);
    k
  }

  /** The entries of `m` in iteration order. */
  function Items<V>(m: map<ByteString, V>): (items: seq<(ByteString, V)>)
    ensures |items| == |m|
    decreases |m|
  {
    if m == map[] then []
    else
      var k := FirstKey(m.Keys);
      RemoveSize(m, k);
      [(k, m[k])] + Items(m - {k})
  }

  lemma RemoveSize<V>(m: map<ByteString, V>, k: ByteString)
    requires k in m
    ensures |m - {k}| == |m| - 1
  {
    assert (m - {k}).Keys == m.Keys - {k};
    assert |m.Keys - {k}| == |m.Keys| - 1;
    assert |m.Keys| == |m| && |(m - {k}).Keys| == |m - {k}|;
  }

  /** Assigning the pairs to `m` one after the other with `m[key] = value`. */
  function AssignAll<V>(m: map<ByteString, V>, items: seq<(ByteString, V)>): map<ByteString, V>
    decreases |items|
  {
    if |items| == 0 then m else AssignAll(m[items[0].0 := items[0].1], items[1..])
  }

  lemma {:induction false} AssignAllAppend<V>(
      m: map<ByteString, V>, a: seq<(ByteString, V)>, b: seq<(ByteString, V)>)
    ensures AssignAll(m, a + b) == AssignAll(AssignAll(m, a), b)
    decreases |a|
  {
    if |a| == 0 {
      assert a + b == b;
    } else {
      assert (a + b)[1..] == a[1..] + b;
      AssignAllAppend(m[a[0].0 := a[0].1], a[1..], b);
    }
  }

  function Lookup<V>(m: map<ByteString, V>, key: ByteString): Option<V> {
    if key in m then Some(m[key]) else None
  }

  /** The last value given for a key. */
  function LastPair<V>(items: seq<(ByteString, V)>, key: ByteString): Option<V> {
    if |items| == 0 then None
    else if items[|items| - 1].0 == key then Some(items[|items| - 1].1)
    else LastPair(items[..|items| - 1], key)
  }

  /** Assigning pairs binds every key to its last value, and no other key. */
  lemma {:induction false} LastPairWins<V>(items: seq<(ByteString, V)>, key: ByteString)
    ensures Lookup(AssignAll(map[], items), key) == LastPair(items, key)
    decreases |items|
  {
    if |items| > 0 {
      var front, last := items[..|items| - 1], items[|items| - 1];
      assert items == front + [last];
      AssignAllAppend(map[], front, [last]);
      assert AssignAll(AssignAll(map[], front), [last]) == AssignAll(map[], front)[last.0 := last.1] by {
        assert [last][1..] == [];
      }
      LastPairWins(front, key);
    }
  }

  /** Copying a map entry by entry is the right-biased union. */
  lemma {:induction false} AssignAllItems<V>(m0: map<ByteString, V>, m: map<ByteString, V>)
    ensures AssignAll(m0, Items(m)) == m0 + m
    decreases |m|
  {
    if m != map[] {
      var k := FirstKey(m.Keys);
      var m1, rest := m0[k := m[k]], m - {k};
      ItemsStep(m);
      AssignAllItems(m1, rest);
      assert AssignAll(m0, Items(m)) == AssignAll(m1, Items(rest));
      MergeStep(m0, m, k);
    }
  }

  lemma ItemsStep<V>(m: map<ByteString, V>)
    requires m != map[]
    ensures var k := FirstKey(m.Keys);
      |m - {k}| < |m| && |Items(m)| > 0 && Items(m)[0] == (k, m[k]) && Items(m)[1..] == Items(m - {k})
  {
    RemoveSize(m, FirstKey(m.Keys));
  }

  lemma MergeStep<V>(m0: map<ByteString, V>, m: map<ByteString, V>, k: ByteString)
    requires k in m
    ensures m0[k := m[k]] + (m - {k}) == m0 + m
  {
  }

  lemma ItemsDetermineMap<V>(m: map<ByteString, V>)
    ensures AssignAll(map[], Items(m)) == m
  {
    AssignAllItems(map[], m);
    assert map[] + m == m;
  }

  lemma {:induction false} AssignAllKeys<V>(m: map<ByteString, V>, items: seq<(ByteString, V)>)
    ensures |AssignAll(m, items)| <= |m| + |items|
    ensures forall k :: k in AssignAll(m, items) ==>
      (k in m && AssignAll(m, items)[k] == m[k]) ||
      (exists i :: 0 <= i < |items| && items[i] == (k, AssignAll(m, items)[k]))
    decreases |items|
  {
    if |items| != 0 {
      var (k0, v0) := items[0];
      var m1 := m[k0 := v0];
      assert |m1| <= |m| + 1 by {
        assert m1.Keys == m.Keys + {k0};
        assert |m1.Keys| <= |m.Keys| + 1;
      }
      AssignAllKeys(m1, items[1..]);
      var r := AssignAll(m, items);
      forall k | k in r
        ensures (k in m && r[k] == m[k]) || (exists i :: 0 <= i < |items| && items[i] == (k, r[k]))
      {
        if k in m1 && r[k] == m1[k] {
          if k == k0 { assert items[0] == (k, r[k]); }
        } else {
          var i :| 0 <= i < |items[1..]| && items[1..][i] == (k, r[k]);
          assert items[i + 1] == (k, r[k]);
        }
      }
    }
  }

  lemma {:induction false} ItemsInMap<V>(m: map<ByteString, V>, i: nat)
    requires i < |Items(m)|
    ensures Items(m)[i].0 in m && m[Items(m)[i].0] == Items(m)[i].1
    decreases i
  {
    var k := FirstKey(m.Keys);
    if i != 0 {
      ItemsInMap(m - {k}, i - 1);
    }
  }

  // ---------- The order, on the characters ----------

  /** `a` and `b` agree on `n` characters, and there `a` ends or has the smaller byte. */
  predicate PrecedesAt(a: ByteString, b: ByteString, n: nat) {
    n <= |a| && n < |b| && a[..n] == b[..n] && (n == |a| || a[n] as int < b[n] as int)
  }

  ghost predicate Precedes(a: ByteString, b: ByteString) {
    exists n: nat :: PrecedesAt(a, b, n)
  }

  lemma {:induction false} LessPrecedes(a: ByteString, b: ByteString) returns (n: nat)
    requires Less(a, b)
    ensures PrecedesAt(a, b, n)
  {
    if |a| > 0 && a[0] == b[0] {
      var m := LessPrecedes(a[1..], b[1..]);
      n := m + 1;
      assert a[..n] == [a[0]] + a[1..][..m] && b[..n] == [b[0]] + b[1..][..m];
    } else {
      n := 0;
    }
  }

  lemma {:induction false} PrecedesLess(a: ByteString, b: ByteString, n: nat)
    requires PrecedesAt(a, b, n)
    ensures Less(a, b)
    decreases n
  {
    if n > 0 {
      assert a[..n][0] == b[..n][0];
      assert a[1..][..n - 1] == a[..n][1..] && b[1..][..n - 1] == b[..n][1..];
      PrecedesLess(a[1..], b[1..], n - 1);
    }
  }

  /** The order of keys is the lexicographic order of their bytes. */
  lemma LessExactly(a: ByteString, b: ByteString)
    ensures Less(a, b) <==> Precedes(a, b)
  {
    if Less(a, b) {
      var n := LessPrecedes(a, b);
    }
    if Precedes(a, b) {
      var n: nat :| PrecedesAt(a, b, n);
      PrecedesLess(a, b, n);
    }
  }

  /** Every key comes before all later ones. */
  ghost predicate Ascending<V>(items: seq<(ByteString, V)>) {
    forall i, j :: 0 <= i < j < |items| ==> Precedes(items[i].0, items[j].0)
  }

  lemma {:induction false} ItemsAscend<V>(m: map<ByteString, V>)
    ensures Ascending(Items(m))
    decreases |m|
  {
    if m != map[] {
      var k, items := FirstKey(m.Keys), Items(m);
      ItemsStep(m);
      ItemsAscend(m - {k});
      forall i, j | 0 <= i < j < |items| ensures Precedes(items[i].0, items[j].0) {
        if i == 0 {
          assert items[j] == items[1..][j - 1];
          ItemsInMap(m - {k}, j - 1);
          LessExactly(k, items[j].0);
        } else {
          assert items[i] == items[1..][i - 1] && items[j] == items[1..][j - 1];
        }
      }
    }
  }

  lemma {:induction false} AssignedAll<V>(m: map<ByteString, V>, items: seq<(ByteString, V)>)
    requires Ascending(items) && forall i :: 0 <= i < |items| ==> items[i].0 !in m
    ensures var r := AssignAll(m, items);
      (forall k :: k in r <==> k in m || exists i :: 0 <= i < |items| && items[i].0 == k) &&
      (forall k :: k in m ==> r[k] == m[k]) &&
      (forall i :: 0 <= i < |items| ==> items[i].0 in r && r[items[i].0] == items[i].1)
    decreases |items|
  {
    if |items| > 0 {
      var p, rest := items[0], items[1..];
      forall i | 0 <= i < |rest| ensures rest[i].0 !in m[p.0 := p.1] {
        assert rest[i] == items[i + 1];
        LessExactly(p.0, rest[i].0);
        LessIrreflexive(p.0);
      }
      forall i, j | 0 <= i < j < |rest| ensures Precedes(rest[i].0, rest[j].0) {
        assert rest[i] == items[i + 1] && rest[j] == items[j + 1];
      }
      AssignedAll(m[p.0 := p.1], rest);
      assert forall i :: 0 < i < |items| ==> items[i] == rest[i - 1];
      assert forall i :: 0 <= i < |rest| ==> rest[i] == items[i + 1];
    }
  }

  lemma {:induction false} LessIrreflexive(a: ByteString)
    ensures !Less(a, a)
  {
    if |a| > 0 {
      LessIrreflexive(a[1..]);
    }
  }

  /** A map visits its entries in ascending order of their keys, and that determines the sequence. */
  lemma ItemsExactly<V>(m: map<ByteString, V>, items: seq<(ByteString, V)>)
    ensures items == Items(m) <==> Ascending(items) && AssignAll(map[], items) == m
  {
    ItemsAscend(m);
    ItemsDetermineMap(m);
    if Ascending(items) && AssignAll(map[], items) == m {
      AscendingIsItems(m, items);
    }
  }

  lemma {:induction false} AscendingIsItems<V>(m: map<ByteString, V>, items: seq<(ByteString, V)>)
    requires Ascending(items) && AssignAll(map[], items) == m
    ensures items == Items(m)
    decreases |items|
  {
    AssignedAll(map[], items);
    if |items| > 0 {
      var k, rest := items[0].0, items[1..];
      forall j | j in m ensures j == k || Less(k, j) {
        var i :| 0 <= i < |items| && items[i].0 == j;
        if i > 0 {
          LessExactly(k, j);
        }
      }
      assert IsFirst(k, m.Keys);
      FirstUnique(k, FirstKey(m.Keys), m.Keys);
      forall i, j | 0 <= i < j < |rest| ensures Precedes(rest[i].0, rest[j].0) {
        assert rest[i] == items[i + 1] && rest[j] == items[j + 1];
      }
      AssignedAll(map[], rest);
      RestOfMap(m, items);
      AscendingIsItems(m - {k}, rest);
      ItemsStep(m);
      assert items == [items[0]] + rest && Items(m) == [Items(m)[0]] + Items(m)[1..];
    }
  }

  lemma RestOfMap<V>(m: map<ByteString, V>, items: seq<(ByteString, V)>)
    requires |items| > 0 && Ascending(items) && Ascending(items[1..]) && AssignAll(map[], items) == m
    ensures AssignAll(map[], items[1..]) == m - {items[0].0}
  {
    hide AssignAll, Precedes, Less, Ascending;
    var k, rest := items[0].0, items[1..];
    var r := AssignAll(map[], rest);
    AssignedAll(map[], items);
    AssignedAll(map[], rest);
    LaterKeys(items);
    forall j | j in r ensures j in m - {k} && r[j] == m[j] {
      var i :| 0 <= i < |rest| && rest[i].0 == j;
      assert items[i + 1] == rest[i];
    }
    forall j | j in m - {k} ensures j in r {
      var i :| 0 <= i < |items| && items[i].0 == j;
      assert rest[i - 1] == items[i];
    }
  }

  lemma LaterKeys<V>(items: seq<(ByteString, V)>)
    requires |items| > 0 && Ascending(items)
    ensures forall i :: 0 < i < |items| ==> items[i].0 != items[0].0
  {
    hide Precedes, Less;
    forall i | 0 < i < |items| ensures items[i].0 != items[0].0 {
      LessExactly(items[0].0, items[i].0);
      LessIrreflexive(items[0].0);
    }
  }
}
