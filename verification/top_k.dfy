/** Selection of the best documents: Python's stable `sorted(..., reverse=True)`
    by score, followed by the slice `[:100]`. */
module TopK {
  import opened ScoreTables

  /** At most this many documents are returned. */
  const MaxResults: nat := 100

  /** Scores never increase along `s`. */
  predicate NonIncreasing(s: seq<(int, real)>)
  {
    forall i, j :: 0 <= i < j < |s| ==> s[i].1 >= s[j].1
  }

  /** No document id occurs twice in `s`. */
  predicate DistinctIds(s: seq<(int, real)>)
  {
    forall i, j :: 0 <= i < j < |s| ==> s[i].0 != s[j].0
  }

  /** Places `x` before the first entry that scores no higher than `x`. */
  function Insert(x: (int, real), s: seq<(int, real)>): (r: seq<(int, real)>)
    ensures |r| == |s| + 1
    ensures multiset(r) == multiset(s) + multiset{x}
    ensures r[0] == x || (s != [] && r[0] == s[0])
    ensures NonIncreasing(s) ==> NonIncreasing(r)
  {
    if s == [] || s[0].1 <= x.1 then
      assert NonIncreasing(s) ==> NonIncreasing([x] + s) by {
        if NonIncreasing(s) {
          ConsNonIncreasing(x, s);
        }
      }
      [x] + s
    else
      var rest := Insert(x, s[1..]);
      assert s == [s[0]] + s[1..];
      assert NonIncreasing(s) ==> NonIncreasing([s[0]] + rest) by {
        if NonIncreasing(s) {
          TailNonIncreasing(s);
          assert rest[0] == x || rest[0] == s[1];
          ConsNonIncreasing(s[0], rest);
        }
      }
      [s[0]] + rest
  }

  /** Dropping the head keeps the order. */
  lemma TailNonIncreasing(s: seq<(int, real)>)
    requires NonIncreasing(s) && s != []
    ensures NonIncreasing(s[1..])
  {
    forall i, j | 0 <= i < j < |s[1..]| ensures s[1..][i].1 >= s[1..][j].1 {
      assert s[1..][i] == s[i + 1] && s[1..][j] == s[j + 1];
    }
  }

  /** Putting an entry that scores at least the head in front keeps the order. */
  lemma ConsNonIncreasing(a: (int, real), r: seq<(int, real)>)
    requires NonIncreasing(r)
    requires r != [] ==> a.1 >= r[0].1
    ensures NonIncreasing([a] + r)
  {
    forall i, j | 0 <= i < j < |[a] + r| ensures ([a] + r)[i].1 >= ([a] + r)[j].1 {
      if i == 0 && j > 1 {
        assert r[0].1 >= r[j - 1].1;
      }
    }
  }

  /** `sorted(items, key=lambda x: x[1], reverse=True)`: a permutation of the
      items in non-increasing score order. */
  function SortByScoreDesc(s: seq<(int, real)>): (r: seq<(int, real)>)
    ensures |r| == |s| && multiset(r) == multiset(s)
    ensures NonIncreasing(r)
  {
    if s == [] then []
    else
      assert s == [s[0]] + s[1..];
      Insert(s[0], SortByScoreDesc(s[1..]))
  }

  /** Inserting a new document into a list of distinct documents keeps them distinct. */
  lemma {:induction false} InsertDistinct(x: (int, real), s: seq<(int, real)>)
    requires DistinctIds(s)
    requires forall i :: 0 <= i < |s| ==> s[i].0 != x.0
    ensures DistinctIds(Insert(x, s))
    decreases |s|
  {
    if s != [] && s[0].1 > x.1 {
      var rest := Insert(x, s[1..]);
      InsertDistinct(x, s[1..]);
      forall j | 0 <= j < |rest| ensures rest[j].0 != s[0].0 {
        assert rest[j] in multiset(s[1..]) + multiset{x};
        if rest[j] != x {
          assert rest[j] in multiset(s[1..]);
          var k :| 0 <= k < |s[1..]| && s[1..][k] == rest[j];
          assert s[k + 1] == rest[j];
        }
      }
      assert Insert(x, s) == [s[0]] + rest;
    }
  }

  /** Sorting a list of distinct documents keeps them distinct. */
  lemma {:induction false} SortDistinct(s: seq<(int, real)>)
    requires DistinctIds(s)
    ensures DistinctIds(SortByScoreDesc(s))
    decreases |s|
  {
    if s != [] {
      var rest := SortByScoreDesc(s[1..]);
      SortDistinct(s[1..]);
      forall i | 0 <= i < |rest| ensures rest[i].0 != s[0].0 {
        assert rest[i] in multiset(s[1..]);
        var k :| 0 <= k < |s[1..]| && s[1..][k] == rest[i];
        assert s[k + 1] == rest[i];
      }
      InsertDistinct(s[0], rest);
    }
  }

  /** Python's slice `s[:k]`: the first `k` entries, or all of a shorter `s`. */
  function Prefix(s: seq<(int, real)>, k: nat): (r: seq<(int, real)>)
    ensures |r| == if |s| <= k then |s| else k
    ensures r == s[..|r|]
  {
    if |s| <= k then s else s[..k]
  }

  /** The selected `(doc_id, score)` pairs of backend.py:128 and backend.py:132: at most
      `MaxResults` of them, best score first. */
  function Ranked(t: ScoreTable): (r: seq<(int, real)>)
    ensures |r| == if |t.order| <= MaxResults then |t.order| else MaxResults
    ensures NonIncreasing(r)
  {
    Prefix(SortByScoreDesc(t.Items()), MaxResults)
  }

  // ---------------------------------------------------------------------------
  // Stability: entries with equal scores keep their relative order

  /** The entries of `s` whose score is `v`, in order. */
  function WithScore(s: seq<(int, real)>, v: real): seq<(int, real)>
  {
    if s == [] then []
    else (if s[0].1 == v then [s[0]] else []) + WithScore(s[1..], v)
  }

  lemma {:induction false} WithScoreAppend(a: seq<(int, real)>, b: seq<(int, real)>, v: real)
    ensures WithScore(a + b, v) == WithScore(a, v) + WithScore(b, v)
    decreases |a|
  {
    if a == [] {
      assert a + b == b;
    } else {
      assert (a + b)[0] == a[0] && (a + b)[1..] == a[1..] + b;
      WithScoreAppend(a[1..], b, v);
      var h := if a[0].1 == v then [a[0]] else [];
      assert WithScore(a + b, v) == h + (WithScore(a[1..], v) + WithScore(b, v));
      assert WithScore(a, v) == h + WithScore(a[1..], v);
    }
  }

  lemma {:induction false} InsertWithScore(x: (int, real), s: seq<(int, real)>, v: real)
    ensures WithScore(Insert(x, s), v) == (if x.1 == v then [x] else []) + WithScore(s, v)
    decreases |s|
  {
    if s == [] || s[0].1 <= x.1 {
      assert ([x] + s)[1..] == s;
    } else {
      InsertWithScore(x, s[1..], v);
      var r := Insert(x, s);
      assert r != [] && r[0] == s[0] && r[1..] == Insert(x, s[1..]);
      assert WithScore(s, v) == (if s[0].1 == v then [s[0]] else []) + WithScore(s[1..], v);
      assert WithScore(r, v) == (if s[0].1 == v then [s[0]] else []) + WithScore(r[1..], v);
      if s[0].1 == v {
        assert x.1 != v;
      }
    }
  }

  /** The sort is stable: for every score, the entries with that score come
      out in the order they went in. */
  lemma {:induction false} SortStable(s: seq<(int, real)>, v: real)
    ensures WithScore(SortByScoreDesc(s), v) == WithScore(s, v)
    decreases |s|
  {
    if s != [] {
      SortStable(s[1..], v);
      InsertWithScore(s[0], SortByScoreDesc(s[1..]), v);
    }
  }

  // ---------------------------------------------------------------------------
  // What the selection returns

  /** The items of a valid table name distinct documents with their scores. */
  lemma ItemsDistinct(t: ScoreTable)
    requires t.Valid()
    ensures DistinctIds(t.Items())
    ensures forall i :: 0 <= i < |t.Items()| ==>
              t.Items()[i].0 in t.score && t.Items()[i].1 == t.score[t.Items()[i].0]
  {
  }

  /** The selection has `min(100, len(scores))` entries, in non-increasing
      score order, naming distinct documents. */
  lemma RankedShape(t: ScoreTable)
    requires t.Valid()
    ensures |Ranked(t)| == if |t.score| <= MaxResults then |t.score| else MaxResults
    ensures NonIncreasing(Ranked(t)) && DistinctIds(Ranked(t))
  {
    SizeIsOrderLength(t);
    ItemsDistinct(t);
    SortDistinct(t.Items());
  }

  /** Every selected entry is a scored document paired with its score. */
  lemma RankedEntries(t: ScoreTable)
    requires t.Valid()
    ensures forall i :: 0 <= i < |Ranked(t)| ==>
              Ranked(t)[i].0 in t.score && Ranked(t)[i].1 == t.score[Ranked(t)[i].0]
  {
    var items := t.Items();
    var sorted := SortByScoreDesc(items);
    var r := Ranked(t);
    ItemsDistinct(t);
    forall i | 0 <= i < |r| ensures r[i].0 in t.score && r[i].1 == t.score[r[i].0] {
      assert r[i] == sorted[i];
      assert sorted[i] in multiset(items);
    }
  }

  /** A scored document that was not selected scores no higher than any
      selected one. */
  lemma RankedOmittedNoHigher(t: ScoreTable, d: int)
    requires t.Valid()
    requires d in t.score
    requires forall k :: 0 <= k < |Ranked(t)| ==> Ranked(t)[k].0 != d
    ensures forall i :: 0 <= i < |Ranked(t)| ==> t.score[d] <= Ranked(t)[i].1
  {
    var items := t.Items();
    var sorted := SortByScoreDesc(items);
    var r := Ranked(t);
    var k :| 0 <= k < |t.order| && t.order[k] == d;
    assert items[k] == (d, t.score[d]);
    assert items[k] in multiset(sorted);
    var m :| 0 <= m < |sorted| && sorted[m] == items[k];
    if m < |r| {
      assert false;
    }
    forall i | 0 <= i < |r| ensures t.score[d] <= r[i].1 {
      assert sorted[i] == r[i];
    }
  }

  /** Ties are broken by insertion order: for every score, the selected
      documents with that score are the first ones, in insertion order, of
      all scored documents with that score. */
  lemma RankedTiesInInsertionOrder(t: ScoreTable, v: real)
    ensures |WithScore(Ranked(t), v)| <= |WithScore(t.Items(), v)|
    ensures WithScore(Ranked(t), v) == WithScore(t.Items(), v)[..|WithScore(Ranked(t), v)|]
  {
    var sorted := SortByScoreDesc(t.Items());
    var r := Ranked(t);
    SortStable(t.Items(), v);
    assert sorted == r + sorted[|r|..];
    WithScoreAppend(r, sorted[|r|..], v);
  }

  /** Entry `k` of `s` sits in `WithScore(s, s[k].1)` right after the entries
      with that score that precede it. */
  lemma WithScorePosition(s: seq<(int, real)>, k: int)
    requires 0 <= k < |s|
    ensures var p := |WithScore(s[..k], s[k].1)|;
      p < |WithScore(s, s[k].1)| && WithScore(s, s[k].1)[p] == s[k]
  {
    var v := s[k].1;
    assert s == s[..k] + s[k..];
    WithScoreAppend(s[..k], s[k..], v);
    assert s[k..][0] == s[k];
  }

  /** An entry scoring `v` between positions `i` and `j` puts more such entries
      before `j` than before `i`. */
  lemma WithScoreMonotone(s: seq<(int, real)>, i: int, j: int, v: real)
    requires 0 <= i < j <= |s| && s[i].1 == v
    ensures |WithScore(s[..i], v)| < |WithScore(s[..j], v)|
  {
    assert s[..j] == s[..i] + s[i..j];
    WithScoreAppend(s[..i], s[i..j], v);
    assert s[i..j][0] == s[i];
  }

  /** The entries kept for score `v` are entries of `s` that score `v`. */
  lemma {:induction false} WithScoreMembers(s: seq<(int, real)>, v: real)
    ensures forall x :: x in WithScore(s, v) ==> x in s && x.1 == v
    decreases |s|
  {
    if s != [] {
      WithScoreMembers(s[1..], v);
    }
  }

  /** Keeping the entries with one score keeps the ids distinct. */
  lemma {:induction false} WithScoreDistinct(s: seq<(int, real)>, v: real)
    requires DistinctIds(s)
    ensures DistinctIds(WithScore(s, v))
    decreases |s|
  {
    if s != [] {
      WithScoreDistinct(s[1..], v);
      WithScoreMembers(s[1..], v);
      var w := WithScore(s[1..], v);
      forall k | 0 <= k < |w| ensures w[k].0 != s[0].0 {
        assert w[k] in s[1..];
        var m :| 0 <= m < |s[1..]| && s[1..][m] == w[k];
        assert s[m + 1] == w[k];
      }
    }
  }

  /** If the entries of `r` scoring `v` are a prefix of those of `items`, two
      such entries keep in `r` the relative order they have in `items`. */
  lemma TieOrderKept(r: seq<(int, real)>, items: seq<(int, real)>, v: real, i: int, j: int, ki: int, kj: int)
    requires |WithScore(r, v)| <= |WithScore(items, v)|
    requires WithScore(r, v) == WithScore(items, v)[..|WithScore(r, v)|]
    requires DistinctIds(items)
    requires 0 <= i < j < |r| && r[i].1 == v && r[j].1 == v
    requires 0 <= ki < |items| && 0 <= kj < |items| && items[ki] == r[i] && items[kj] == r[j]
    ensures ki < kj
  {
    WithScorePosition(r, i);
    WithScorePosition(r, j);
    WithScoreMonotone(r, i, j, v);
    WithScorePosition(items, ki);
    WithScorePosition(items, kj);
    WithScoreDistinct(items, v);
    var wi := WithScore(items, v);
    var pa := |WithScore(r[..i], v)|;
    var pb := |WithScore(r[..j], v)|;
    var qa := |WithScore(items[..ki], v)|;
    var qb := |WithScore(items[..kj], v)|;
    assert wi[pa] == r[i] && wi[pb] == r[j];
    assert qa == pa by {
      assert wi[qa].0 == wi[pa].0;
    }
    assert qb == pb by {
      assert wi[qb].0 == wi[pb].0;
    }
    if kj < ki {
      WithScoreMonotone(items, kj, ki, v);
    }
  }

  /** Two selected documents with the same score are selected in the order in
      which they were inserted into the table. */
  lemma RankedTieOrder(t: ScoreTable, i: int, j: int)
    requires t.Valid()
    requires 0 <= i < j < |Ranked(t)| && Ranked(t)[i].1 == Ranked(t)[j].1
    ensures Ranked(t)[i].0 in t.order && Ranked(t)[j].0 in t.order
    ensures IndexOf(t.order, Ranked(t)[i].0) < IndexOf(t.order, Ranked(t)[j].0)
  {
    var items := t.Items();
    var r := Ranked(t);
    RankedEntries(t);
    ItemsDistinct(t);
    var ki := IndexOf(t.order, r[i].0);
    var kj := IndexOf(t.order, r[j].0);
    assert items[ki] == r[i] && items[kj] == r[j];
    RankedTiesInInsertionOrder(t, r[i].1);
    TieOrderKept(r, items, r[i].1, i, j, ki, kj);
  }
}
