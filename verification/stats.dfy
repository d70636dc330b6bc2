/**
 The per-name frequency table (`statistics`, a BTreeMap<String, i32> in the
 source) and its update `entry(name).and_modify(|e| *e += 1).or_insert(1)`.
 Counts are unbounded here; see README for the i32 width.
 */
module Stats {

  /** Record one observation of `name`. */
  function Increment(counts: map<string, nat>, name: string): (r: map<string, nat>)
    ensures r.Keys == counts.Keys + {name}
    ensures r[name] == (if name in counts then counts[name] + 1 else 1)
    ensures forall n :: n in counts && n != name ==> r[n] == counts[n]
  {
    if name in counts then counts[name := counts[name] + 1] else counts[name := 1]
  }

  /** The sum of all counts. */
  ghost function MapSum(m: map<string, nat>): nat
    decreases |m|
  {
    if m == map[] then 0
    else
      var k :| k in m;
      m[k] + MapSum(m - {k})
  }

  /** `MapSum` may peel off any key, not just the one it happened to pick. */
  lemma {:induction false} MapSumRemove(m: map<string, nat>, k: string)
    requires k in m
    ensures MapSum(m) == m[k] + MapSum(m - {k})
    decreases |m|
  {
    var j :| j in m && MapSum(m) == m[j] + MapSum(m - {j});
    if j != k {
      var mj, mk := m - {j}, m - {k};
      assert mj - {k} == mk - {j};
      assert |mj| < |m| && |mk| < |m|;
      MapSumRemove(mj, k);
      MapSumRemove(mk, j);
    }
  }

  /** One increment adds exactly one to the sum of counts. */
  lemma IncrementSum(m: map<string, nat>, name: string)
    ensures MapSum(Increment(m, name)) == MapSum(m) + 1
  {
    var r := Increment(m, name);
    MapSumRemove(r, name);
    assert r - {name} == m - {name};
    if name in m {
      MapSumRemove(m, name);
    } else {
      assert m - {name} == m;
    }
  }

  /** The table after recording a history of names, oldest first. */
  function Tally(history: seq<string>): map<string, nat>
  {
    if |history| == 0 then map[]
    else Increment(Tally(history[..|history| - 1]), history[|history| - 1])
  }

  /** The table holds exactly the names seen, each with the number of times it was seen. */
  lemma {:induction false} TallyCounts(history: seq<string>)
    ensures forall n :: n in Tally(history) <==> n in history
    ensures forall n :: n in Tally(history) ==> Tally(history)[n] == multiset(history)[n]
    decreases |history|
  {
    if |history| > 0 {
      var init, last := history[..|history| - 1], history[|history| - 1];
      assert history == init + [last];
      TallyCounts(init);
      assert multiset(history) == multiset(init) + multiset{last};
    }
  }

  /** The counts always sum to the number of observations. */
  lemma {:induction false} TallySum(history: seq<string>)
    ensures MapSum(Tally(history)) == |history|
    decreases |history|
  {
    if |history| == 0 {
      assert Tally(history) == map[];
    } else {
      var init := history[..|history| - 1];
      TallySum(init);
      IncrementSum(Tally(init), history[|history| - 1]);
    }
  }

  /** A history of one repeated name leaves a one-entry table. */
  lemma SingleNameTally(history: seq<string>)
    requires |history| > 0
    requires forall i :: 0 <= i < |history| ==> history[i] == history[0]
    ensures |Tally(history)| == 1
  {
    TallyCounts(history);
    assert Tally(history).Keys == {history[0]};
  }
}
