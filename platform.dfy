/**
 * Platform choice (`recommend_platform`, app.py).
 *
 * A platform dataset is a table of (`User_id`, `Attention`) rows; a learner
 * may have any number of rows. For each platform the recommendation averages
 * `Attention` over the rows of the group (the neighbours plus the query
 * learner); a mean over no rows is pandas' NaN, here `None`.
 */
module Platform {
  import opened Wrappers

  /** One row of a platform dataset: `User_id` and one `Attention` sample. */
  type Sample = (int, real)
  type Table = seq<Sample>

  datatype PlatformName = Udemy | Coursera

  /** The learner has no row in the table. */
  predicate Absent(table: Table, id: int) {
    forall i :: 0 <= i < |table| ==> table[i].0 != id
  }

  /** `table.loc[table['User_id'].isin(group), 'Attention']`: the samples of the group's learners, in row order. */
  function Selected(table: Table, group: seq<int>): (values: seq<real>)
    ensures |values| <= |table|
    ensures values == [] <==> forall i :: 0 <= i < |table| ==> table[i].0 !in group
  {
    if table == [] then []
    else (if table[0].0 in group then [table[0].1] else []) + Selected(table[1..], group)
  }

  function Sum(values: seq<real>): real {
    if values == [] then 0.0 else values[0] + Sum(values[1..])
  }

  /** `Series.mean()` of the selected samples; `None` where pandas gives NaN (no sample selected). */
  function Mean(table: Table, group: seq<int>): (mean: Option<real>)
    ensures mean.None? <==> forall i :: 0 <= i < |table| ==> table[i].0 !in group
  {
    var values := Selected(table, group);
    if values == [] then None else Some(Sum(values) / |values| as real)
  }

  /** `a > b` on pandas scalars: false as soon as either side is NaN. */
  predicate Greater(a: Option<real>, b: Option<real>) {
    a.Some? && b.Some? && a.value > b.value
  }

  /**
   * `recommend_platform`: Udemy exactly when both platforms have samples for
   * the group (the neighbours plus the learner) and Udemy's mean attention is
   * strictly higher; Coursera otherwise, including ties and missing data.
   */
  function RecommendPlatform(userId: int, similarUsers: seq<int>, udemy: Table, coursera: Table): (name: PlatformName)
    ensures var group := similarUsers + [userId];
      name == Udemy <==>
        && Mean(udemy, group).Some? && Mean(coursera, group).Some?
        && Mean(udemy, group).value > Mean(coursera, group).value
    ensures Mean(udemy, similarUsers + [userId]) == Mean(coursera, similarUsers + [userId]) ==> name == Coursera
    ensures (Absent(udemy, userId) && forall id :: id in similarUsers ==> Absent(udemy, id)) ==> name == Coursera
    ensures (Absent(coursera, userId) && forall id :: id in similarUsers ==> Absent(coursera, id)) ==> name == Coursera
  {
    var userGroup := similarUsers + [userId];
    if Greater(Mean(udemy, userGroup), Mean(coursera, userGroup)) then Udemy else Coursera
  }

  lemma {:induction false} SumConcat(a: seq<real>, b: seq<real>)
    ensures Sum(a + b) == Sum(a) + Sum(b)
  {
    if a != [] {
      assert (a + b)[1..] == a[1..] + b;
      SumConcat(a[1..], b);
    } else {
      assert a + b == b;
    }
  }

  lemma {:induction false} SelectedConcat(a: Table, b: Table, group: seq<int>)
    ensures Selected(a + b, group) == Selected(a, group) + Selected(b, group)
  {
    if a != [] {
      assert (a + b)[1..] == a[1..] + b;
      SelectedConcat(a[1..], b, group);
    } else {
      assert a + b == b;
    }
  }

  /** Taking row `k` out of a table takes its sample, if selected, out of the count and the sum. */
  lemma SelectedRemove(table: Table, k: int, group: seq<int>)
    requires 0 <= k < |table|
    ensures var rest := table[..k] + table[k + 1..];
      && |Selected(table, group)| == |Selected(rest, group)| + (if table[k].0 in group then 1 else 0)
      && Sum(Selected(table, group)) == Sum(Selected(rest, group)) + (if table[k].0 in group then table[k].1 else 0.0)
  {
    var before, after := table[..k], table[k + 1..];
    assert table == before + ([table[k]] + after);
    SelectedConcat(before, [table[k]] + after, group);
    SelectedConcat([table[k]], after, group);
    SelectedConcat(before, after, group);
    SumConcat(Selected(before, group), Selected([table[k]] + after, group));
    SumConcat(Selected([table[k]], group), Selected(after, group));
    SumConcat(Selected(before, group), Selected(after, group));
  }

  lemma MultisetRemove(table: Table, k: int)
    requires 0 <= k < |table|
    ensures multiset(table[..k] + table[k + 1..]) == multiset(table) - multiset{table[k]}
  {
    assert table == table[..k] + [table[k]] + table[k + 1..];
  }

  /** Matching the first row of one table with row `k` of another reduces both to what is left. */
  lemma PermutationStep(table: Table, shuffled: Table, k: int, group: seq<int>)
    requires |table| > 0 && 0 <= k < |shuffled| && shuffled[k] == table[0]
    requires var rest := shuffled[..k] + shuffled[k + 1..];
      && |Selected(table[1..], group)| == |Selected(rest, group)|
      && Sum(Selected(table[1..], group)) == Sum(Selected(rest, group))
    ensures |Selected(table, group)| == |Selected(shuffled, group)|
    ensures Sum(Selected(table, group)) == Sum(Selected(shuffled, group))
  {
    assert table[..0] + table[1..] == table[1..];
    SelectedRemove(table, 0, group);
    SelectedRemove(shuffled, k, group);
  }

  /** Reordering the rows of a table changes neither the number nor the sum of the selected samples. */
  lemma {:induction false} SelectedPermutation(table: Table, shuffled: Table, group: seq<int>)
    requires multiset(table) == multiset(shuffled)
    ensures |Selected(table, group)| == |Selected(shuffled, group)|
    ensures Sum(Selected(table, group)) == Sum(Selected(shuffled, group))
  {
    if table == [] {
      assert |shuffled| == |multiset(shuffled)| == 0;
    } else {
      assert table[0] in multiset(shuffled);
      var k :| 0 <= k < |shuffled| && shuffled[k] == table[0];
      MultisetRemove(shuffled, k);
      MultisetRemove(table, 0);
      assert table[..0] + table[1..] == table[1..];
      SelectedPermutation(table[1..], shuffled[..k] + shuffled[k + 1..], group);
      PermutationStep(table, shuffled, k, group);
    }
  }

  /** The mean does not depend on the order of the rows. */
  lemma MeanPermutation(table: Table, shuffled: Table, group: seq<int>)
    requires multiset(table) == multiset(shuffled)
    ensures Mean(table, group) == Mean(shuffled, group)
  {
    SelectedPermutation(table, shuffled, group);
  }

  /** Only who is in the group matters: not the order of the list, nor repeated ids. */
  lemma {:induction false} SelectedSameMembers(table: Table, group: seq<int>, other: seq<int>)
    requires forall id :: id in group <==> id in other
    ensures Selected(table, group) == Selected(table, other)
  {
    if table != [] {
      SelectedSameMembers(table[1..], group, other);
    }
  }

  lemma MeanSameMembers(table: Table, group: seq<int>, other: seq<int>)
    requires forall id :: id in group <==> id in other
    ensures Mean(table, group) == Mean(table, other)
  {
    SelectedSameMembers(table, group, other);
  }

  lemma {:induction false} SelectedBounds(table: Table, group: seq<int>, lo: real, hi: real)
    requires forall i :: 0 <= i < |table| && table[i].0 in group ==> lo <= table[i].1 <= hi
    ensures forall i :: 0 <= i < |Selected(table, group)| ==> lo <= Selected(table, group)[i] <= hi
  {
    if table != [] {
      SelectedBounds(table[1..], group, lo, hi);
    }
  }

  lemma {:induction false} SumBounds(values: seq<real>, lo: real, hi: real)
    requires forall i :: 0 <= i < |values| ==> lo <= values[i] <= hi
    ensures lo * |values| as real <= Sum(values) <= hi * |values| as real
  {
    if values != [] {
      SumBounds(values[1..], lo, hi);
      assert lo * |values| as real == lo + lo * |values[1..]| as real;
      assert hi * |values| as real == hi + hi * |values[1..]| as real;
    }
  }

  lemma QuotientBounds(total: real, n: real, lo: real, hi: real)
    requires n > 0.0 && lo * n <= total <= hi * n
    ensures lo <= total / n <= hi
  {
  }


  /** The mean lies between the smallest and the largest attention sample of the group. */
  lemma MeanBounds(table: Table, group: seq<int>, lo: real, hi: real)
    requires forall i :: 0 <= i < |table| && table[i].0 in group ==> lo <= table[i].1 <= hi
    ensures Mean(table, group).Some? ==> lo <= Mean(table, group).value <= hi
  {
    var values := Selected(table, group);
    if values != [] {
      SelectedBounds(table, group, lo, hi);
      SumBounds(values, lo, hi);
      QuotientBounds(Sum(values), |values| as real, lo, hi);
    }
  }

  /** The recommendation does not depend on the order of either table's rows. */
  lemma RecommendRowOrder(userId: int, similarUsers: seq<int>, udemy: Table, udemy': Table, coursera: Table, coursera': Table)
    requires multiset(udemy) == multiset(udemy') && multiset(coursera) == multiset(coursera')
    ensures RecommendPlatform(userId, similarUsers, udemy, coursera) == RecommendPlatform(userId, similarUsers, udemy', coursera')
  {
    MeanPermutation(udemy, udemy', similarUsers + [userId]);
    MeanPermutation(coursera, coursera', similarUsers + [userId]);
  }

  /** Neighbour lists with the same members give the same recommendation. */
  lemma RecommendSameMembers(userId: int, similarUsers: seq<int>, others: seq<int>, udemy: Table, coursera: Table)
    requires forall id :: id in similarUsers <==> id in others
    ensures RecommendPlatform(userId, similarUsers, udemy, coursera) == RecommendPlatform(userId, others, udemy, coursera)
  {
    MeanSameMembers(udemy, similarUsers + [userId], others + [userId]);
    MeanSameMembers(coursera, similarUsers + [userId], others + [userId]);
  }
}
