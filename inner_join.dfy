/**
 * `DataFrame.merge(..., on=key, how="inner")` on a single string key:
 * for each left row in order, one output row per right row with the same
 * key, in right order.
 */
module InnerJoin {

  /** The right rows whose key is k, in their order, each paired with the left row a. */
  function MatchesOf<A, B>(k: string, a: A, right: seq<(string, B)>): (r: seq<(string, A, B)>)
    ensures |r| <= |right|
  {
    if right == [] then []
    else if right[0].0 == k then [(k, a, right[0].1)] + MatchesOf(k, a, right[1..])
    else MatchesOf(k, a, right[1..])
  }

  function Join<A, B>(left: seq<(string, A)>, right: seq<(string, B)>): (r: seq<(string, A, B)>)
    ensures |r| <= |left| * |right|
  {
    if left == [] then [] else MatchesOf(left[0].0, left[0].1, right) + Join(left[1..], right)
  }

  lemma {:induction false} MatchesOfSound<A, B>(k: string, a: A, right: seq<(string, B)>, i: int)
    requires 0 <= i < |MatchesOf(k, a, right)|
    ensures exists q :: 0 <= q < |right| && right[q].0 == k && MatchesOf(k, a, right)[i] == (k, a, right[q].1)
  {
    var rest := MatchesOf(k, a, right[1..]);
    if right[0].0 == k && i == 0 {
      assert MatchesOf(k, a, right)[0] == (k, a, right[0].1);
    } else {
      var i' := if right[0].0 == k then i - 1 else i;
      assert MatchesOf(k, a, right)[i] == rest[i'];
      MatchesOfSound(k, a, right[1..], i');
      var q :| 0 <= q < |right[1..]| && right[1..][q].0 == k && rest[i'] == (k, a, right[1..][q].1);
      assert right[q + 1] == right[1..][q];
    }
  }

  lemma {:induction false} MatchesOfComplete<A, B>(k: string, a: A, right: seq<(string, B)>, q: int)
    requires 0 <= q < |right| && right[q].0 == k
    ensures (k, a, right[q].1) in MatchesOf(k, a, right)
  {
    if q > 0 {
      assert right[1..][q - 1] == right[q];
      MatchesOfComplete(k, a, right[1..], q - 1);
    }
  }

  /** Every joined row pairs a left and a right row with the same key. */
  lemma {:induction false} JoinSound<A, B>(left: seq<(string, A)>, right: seq<(string, B)>, i: int)
    requires 0 <= i < |Join(left, right)|
    ensures exists p, q :: (0 <= p < |left| && 0 <= q < |right| && left[p].0 == right[q].0
      && Join(left, right)[i] == (left[p].0, left[p].1, right[q].1))
  {
    var m := MatchesOf(left[0].0, left[0].1, right);
    if i < |m| {
      assert Join(left, right)[i] == m[i];
      MatchesOfSound(left[0].0, left[0].1, right, i);
    } else {
      assert Join(left, right)[i] == Join(left[1..], right)[i - |m|];
      JoinSound(left[1..], right, i - |m|);
      var p, q :| 0 <= p < |left[1..]| && 0 <= q < |right| && left[1..][p].0 == right[q].0
        && Join(left[1..], right)[i - |m|] == (left[1..][p].0, left[1..][p].1, right[q].1);
      assert left[p + 1] == left[1..][p];
    }
  }

  /** Every pair of a left and a right row with the same key is joined. */
  lemma {:induction false} JoinComplete<A, B>(left: seq<(string, A)>, right: seq<(string, B)>, p: int, q: int)
    requires 0 <= p < |left| && 0 <= q < |right| && left[p].0 == right[q].0
    ensures (left[p].0, left[p].1, right[q].1) in Join(left, right)
  {
    if p == 0 {
      MatchesOfComplete(left[0].0, left[0].1, right, q);
    } else {
      assert left[1..][p - 1] == left[p];
      JoinComplete(left[1..], right, p - 1, q);
    }
  }

  /** The join works left row by left row: joining a concatenation concatenates the joins. */
  lemma {:induction false} JoinAppend<A, B>(l1: seq<(string, A)>, l2: seq<(string, A)>, right: seq<(string, B)>)
    ensures Join(l1 + l2, right) == Join(l1, right) + Join(l2, right)
  {
    if l1 != [] {
      assert (l1 + l2)[1..] == l1[1..] + l2;
      JoinAppend(l1[1..], l2, right);
    } else {
      assert l1 + l2 == l2;
    }
  }

  /** With one right row per key, the join has at most one row per left row. */
  lemma {:induction false} JoinAtMostLeft<A, B>(left: seq<(string, A)>, right: seq<(string, B)>)
    requires forall i, j :: 0 <= i < j < |right| ==> right[i].0 != right[j].0
    ensures |Join(left, right)| <= |left|
  {
    if left != [] {
      UniqueKeyOneMatch(left[0].0, left[0].1, right);
      JoinAtMostLeft(left[1..], right);
    }
  }

  lemma {:induction false} UniqueKeyOneMatch<A, B>(k: string, a: A, right: seq<(string, B)>)
    requires forall i, j :: 0 <= i < j < |right| ==> right[i].0 != right[j].0
    ensures |MatchesOf(k, a, right)| <= 1
  {
    if right != [] {
      UniqueKeyOneMatch(k, a, right[1..]);
      if right[0].0 == k {
        NoMatchWithoutKey(k, a, right[1..]);
      }
    }
  }

  lemma {:induction false} NoMatchWithoutKey<A, B>(k: string, a: A, right: seq<(string, B)>)
    requires forall i :: 0 <= i < |right| ==> right[i].0 != k
    ensures MatchesOf(k, a, right) == []
  {
    if right != [] {
      NoMatchWithoutKey(k, a, right[1..]);
    }
  }

  /** Two left rows with different keys and one right row for the first key join to one row. */
  lemma JoinOneOfTwo<A, B>(left: seq<(string, A)>, right: seq<(string, B)>)
    requires |left| == 2 && |right| == 1
    requires left[0].0 == right[0].0 != left[1].0
    ensures Join(left, right) == [(left[0].0, left[0].1, right[0].1)]
  {
    assert right[1..] == [];
    assert MatchesOf(left[0].0, left[0].1, right) == [(left[0].0, left[0].1, right[0].1)];
    assert MatchesOf(left[1].0, left[1].1, right) == [];
    assert left[1..][0] == left[1] && left[1..][1..] == [];
    assert Join(left[1..], right) == [];
  }
}
