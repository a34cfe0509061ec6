/** The per-query accumulator `scores = defaultdict(float)`: a dictionary that
    remembers the order in which keys were first inserted and reads a missing
    key as 0.0. */
module ScoreTables {

  datatype ScoreTable = ScoreTable(order: seq<int>, score: map<int, real>)
  {
    /** Keys in `order` are distinct and are exactly the keys of `score`. */
    ghost predicate Valid()
    {
      && (forall i, j :: 0 <= i < j < |order| ==> order[i] != order[j])
      && (forall d :: d in score <==> d in order)
    }

    /** A side-effect-free lookup, like `scores.get(d, 0.0)`: the stored score,
        or 0.0 when absent; it never inserts a key (the insertion a defaultdict
        makes on `scores[d] += x` is carried by `Add`). On a consistent table a
        non-zero score belongs to an inserted key. */
    function Get(d: int): (r: real)
      ensures d in score ==> r == score[d]
      ensures d !in score ==> r == 0.0
      ensures Valid() && r != 0.0 ==> d in order
    {
      if d in score then score[d] else 0.0
    }

    /** `scores[d] += x` of backend.py:125: creates the entry at 0.0 if absent, then adds `x`.
        A new key goes to the end of the insertion order. */
    function Add(d: int, x: real): (t: ScoreTable)
      ensures t.Get(d) == Get(d) + x
      ensures forall e :: e != d ==> t.Get(e) == Get(e)
      ensures t.score.Keys == score.Keys + {d}
      ensures Valid() ==> t.Valid()
      ensures d in score ==> t.order == order
      ensures d !in score ==> t.order == order + [d]
    {
      ScoreTable(if d in score then order else order + [d], score[d := Get(d) + x])
    }

    /** `scores.items()`: the (key, score) pairs in insertion order. */
    function Items(): (r: seq<(int, real)>)
      ensures |r| == |order|
      ensures forall i :: 0 <= i < |r| ==> r[i] == (order[i], Get(order[i]))
    {
      seq(|order|, i requires 0 <= i < |order| => (order[i], Get(order[i])))
    }
  }

  /** A freshly created `defaultdict(float)`: consistent, without keys, and
      every document reads as 0.0. */
  function Empty(): (t: ScoreTable)
    ensures t.Valid() && |t.score| == 0 && t.order == []
    ensures forall d :: t.Get(d) == 0.0
  {
    ScoreTable([], map[])
  }

  /** The position of the first occurrence of `x` in `s`. */
  function IndexOf(s: seq<int>, x: int): (k: nat)
    requires x in s
    ensures k < |s| && s[k] == x
    ensures forall m :: 0 <= m < k ==> s[m] != x
  {
    if s[0] == x then 0 else 1 + IndexOf(s[1..], x)
  }

  /** The insertion order after `scores[id] += ...` for each of `ids` in turn,
      starting from insertion order `order`: an id not yet present is appended,
      one already present keeps its place. */
  function InsertAll(order: seq<int>, ids: seq<int>): (r: seq<int>)
    ensures |order| <= |r| && r[..|order|] == order
    ensures forall x :: x in r <==> x in order || x in ids
    ensures forall i :: |order| <= i < |r| ==> r[i] !in order
    decreases |ids|
  {
    if ids == [] then order
    else InsertAll(if ids[0] in order then order else order + [ids[0]], ids[1..])
  }

  /** Inserting `a` and then `b` is inserting `a + b`. */
  lemma {:induction false} InsertAllAppend(order: seq<int>, a: seq<int>, b: seq<int>)
    ensures InsertAll(InsertAll(order, a), b) == InsertAll(order, a + b)
    decreases |a|
  {
    if a == [] {
      assert a + b == b;
    } else {
      assert (a + b)[0] == a[0] && (a + b)[1..] == a[1..] + b;
      InsertAllAppend(if a[0] in order then order else order + [a[0]], a[1..], b);
    }
  }

  /** The keys `InsertAll` appends come in the order of their first occurrence
      in `ids`. */
  lemma {:induction false} InsertAllFirstSeen(order: seq<int>, ids: seq<int>)
    ensures var r := InsertAll(order, ids);
      forall i, j :: |order| <= i < j < |r| ==>
        r[i] in ids && r[j] in ids && IndexOf(ids, r[i]) < IndexOf(ids, r[j])
    decreases |ids|
  {
    if ids != [] {
      var next := if ids[0] in order then order else order + [ids[0]];
      var r := InsertAll(order, ids);
      InsertAllFirstSeen(next, ids[1..]);
      assert r == InsertAll(next, ids[1..]);
      forall i, j | |order| <= i < j < |r|
        ensures r[i] in ids && r[j] in ids && IndexOf(ids, r[i]) < IndexOf(ids, r[j])
      {
        assert r[j] !in next && r[j] in ids[1..];
        assert IndexOf(ids, r[j]) == 1 + IndexOf(ids[1..], r[j]);
        if i < |next| {
          assert r[..|next|] == next;
          assert r[i] == ids[0];
        } else {
          assert r[i] !in next && r[i] in ids[1..];
          assert IndexOf(ids, r[i]) == 1 + IndexOf(ids[1..], r[i]);
        }
      }
    }
  }

  /** A sequence without repetitions has as many distinct elements as entries. */
  lemma {:induction false} DistinctCount(s: seq<int>)
    requires forall i, j :: 0 <= i < j < |s| ==> s[i] != s[j]
    ensures |set x | x in s| == |s|
  {
    if s != [] {
      DistinctCount(s[1..]);
      var tail := set x | x in s[1..];
      assert (set x | x in s) == {s[0]} + tail;
      assert s[0] !in tail;
    }
  }

  /** `len(scores)` equals the number of keys in insertion order. */
  lemma SizeIsOrderLength(t: ScoreTable)
    requires t.Valid()
    ensures |t.score| == |t.order|
  {
    DistinctCount(t.order);
    assert t.score.Keys == set x | x in t.order;
  }
}
