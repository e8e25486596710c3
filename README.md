# EEG-based e-learning platform recommendation, modelled in Dafny

The system recommends Udemy or Coursera to a learner. It first finds the
learners whose EEG signal features, recorded while watching YouTube and NPTEL
videos, are most similar to the learner's: the three largest entries of the
learner's row in each cosine-similarity matrix, merged into one set, without
the learner. It then averages the `Attention` samples of that group plus the
learner in the Udemy table and in the Coursera table. Udemy is recommended
only when its mean is strictly higher.

This project models the two functions that do this, `get_similar_users` and
`recommend_platform` in `app.py`, and the call the recommendation page makes
of them. Both are pure, so the model is functions and lemmas:

- `wrappers.dfy`: `Option`, where `None` stands for a NaN mean.
- `neighbours.dfy` (module `Neighbours`): similarity matrices as
  `seq<seq<real>>`; `IsArgSort`, what NumPy's unstable `argsort` may return;
  `ArgSort`, one concrete insertion sort proved to be such a result;
  `IsTopSet`, what "the k largest entries" may be under ties; the top ids of a
  row; and `GetSimilarUsers` with its properties.
- `platform.dfy` (module `Platform`): platform tables as `seq<(int, real)>`
  of (`User_id`, `Attention`) rows; the selection `isin(group)`, the mean, the
  NaN-aware comparison and `RecommendPlatform`.
- `recommendation.dfy` (module `Recommendation`): `RecommendFor`, the two
  calls the "Recommend" button makes, for the ids 12..24 the page accepts.

Two points where the code differs from what a reader might expect:
- The comment at app.py:23 says "top two"; the code takes three columns per
  row (the learner itself is usually one of them), and `argsort` fixes no
  order among equal entries. The model keeps that order open.
- `udemy_attention > coursera_attention` is false when either mean is NaN, so
  the answer is Coursera on a tie and whenever either mean is undefined,
  even when only Udemy has samples for the group.

## Model

| member | source | states |
|---|---|---|
| `Neighbours.ArgSortFirst` | app.py:24-25 | insertion sort of the first n columns: exactly the columns 0..n-1, each once, in ascending order of their entries |
| `Neighbours.ArgSort` | app.py:24-25 | `row.argsort()` is admissible: a permutation of all columns that orders the row ascending |
| `Neighbours.ArgSortTop` | app.py:24-25 | for every admissible argsort result, its last k columns are min(k, N) distinct columns, none smaller than any column left out |
| `Neighbours.TopSetFewerAbove` | app.py:24-25 | each column of a top-k set has fewer than k columns with a strictly greater entry |
| `Neighbours.TopColumns` | app.py:24-25 | `argsort()[-3:][::-1]` gives min(3, N) distinct columns in range, largest entry first, that form a top-3 set of the row |
| `Neighbours.TopIds` | app.py:24-25 | the `+ 1` ids: min(3, N) distinct ids in 1..N; an id is among them exactly when column id - 1 is a top column |
| `Neighbours.Listing` | app.py:27 | `list(set)`: every member of the set between the bounds appears, once, and nothing else |
| `Neighbours.Without` | app.py:28 | the comprehension keeps exactly the ids other than the learner and keeps a list free of repeats |
| `Neighbours.GetSimilarUsers` | app.py:20-29 | the result never holds the learner, has no repeats, stays within the row length, and holds an id exactly when it is a YouTube or NPTEL top id other than the learner |
| `Neighbours.NeighbourCount` | app.py:24-27 | at most 3 + 3 = 6 neighbours |
| `Neighbours.NeighboursInRange` | app.py:21-25 | with both matrices N by N, every neighbour is an id in 1..N |
| `Neighbours.NeighboursFewerAbove` | app.py:21-28 | every neighbour has fewer than three learners strictly more similar to the query learner in the YouTube row or in the NPTEL row |
| `Neighbours.StrictMaxIsTop` | app.py:24-25 | a column strictly greater than all others in its row is always among the top ids |
| `Neighbours.NeighbourCountSelfFirst` | app.py:23-28 | when the learner is strictly most similar to itself in both rows, at most 2 + 2 = 4 neighbours |
| `Platform.Selected` | app.py:35-36 | `isin(group)` selects no sample exactly when no row belongs to a group member |
| `Platform.Mean` | app.py:35-36 | the mean is NaN (`None`) exactly when no row belongs to a group member |
| `Platform.SelectedPermutation` | app.py:35-36 | reordering a table's rows keeps the number and the sum of the selected samples |
| `Platform.MeanPermutation` | app.py:35-36 | reordering a table's rows does not change the mean |
| `Platform.MeanSameMembers` | app.py:33-36 | the mean depends only on who is in the group, not on order or repeated ids |
| `Platform.MeanBounds` | app.py:35-36 | a defined mean lies between any lower and upper bound of the group's samples |
| `Platform.RecommendPlatform` | app.py:32-40 | Udemy exactly when both means over the neighbours plus the learner are defined and Udemy's is strictly greater; Coursera on a tie, and whenever Udemy or Coursera has no row for the group |
| `Platform.RecommendRowOrder` | app.py:35-40 | the recommendation does not depend on the order of either table's rows |
| `Platform.RecommendSameMembers` | app.py:33-40 | neighbour lists with the same members give the same recommendation |
| `Recommendation.RecommendFor` | app.py:64-69 | for an id in 12..24, the recommendation equals the one over the plain concatenation of both top-id lists: removing repeats and the learner changes nothing |

## Left out

- Loading the four CSV files (app.py:10-13) is file I/O; the tables are parameters.
- Building the similarity matrices with scikit-learn's `cosine_similarity` over the feature columns (app.py:16-17) is a foreign call on floating point; the matrices are parameters, and their symmetry and unit diagonal are not assumed. `NeighbourCountSelfFirst` states the "learner is most similar to itself" case as a precondition.
- Image loading (app.py:43-49) and the Streamlit pages (app.py:54-118) are presentation; only the id range 12..24 of app.py:64 and the two calls of app.py:68-69 are kept.
- `GetSimilarUsers` requires `1 <= userId <= |matrix|`: for 1-N <= id <= 0 NumPy reads a row counted from the end, and for id <= -N or id > N it raises IndexError; neither case is modelled. The page passes 12..24, which are in range only when both signal datasets have at least 24 rows; `RecommendFor` requires this.
- `GetSimilarUsers` lists the ids in ascending order; Python lists a set in its hash order. No property depends on the order.
- `ArgSort` is one admissible argsort (ties kept in column order), and `TopColumns`, `TopIds` and `GetSimilarUsers` are defined with it. Only `ArgSortTop` and `LastKOf` are stated for every admissible order; the contracts of `TopColumns`, `TopIds` and `GetSimilarUsers` are proved using only those two facts about `ArgSort`, but are not themselves stated over an arbitrary admissible order.
- Floating point: similarity and attention values are exact reals, so rounding in the sum and the mean is not modelled, and a NaN inside the `Attention` column (which pandas' mean would skip) is not modelled.
- `Platform.RecommendPlatform` returns a datatype with the constructors `Udemy` and `Coursera` in place of the two strings.
- The copy of `similar_users` before the append (app.py:33-34) is implicit: sequences are values, so the caller's list cannot change.
