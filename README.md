# Movie recommender: similarity ranking and poster URLs

A Dafny model of the recommendation core of a small movie recommender web app
(`app.py`). Given the title a user selected, `recommend`:

1. finds the first catalog row holding that title;
2. pairs every row index of that row's similarity vector with its score and
   sorts the pairs by score, highest first, with Python's stable sort;
3. drops the first sorted entry and keeps the next five (`distances[1:6]`);
4. appends, for each kept entry, the catalog title and the poster URL of the
   row's movie id to two lists, and returns both lists.

`fetch_poster` turns the `poster_path` field of the movie database's response
into a URL under a fixed image prefix, or `None` when the field is empty or null.

The model has four modules:

- `Wrappers` (`wrappers.dfy`): `Option`, `Result`, `Min`.
- `Ranking` (`ranking.dfy`): `enumerate`, the stable descending sort, the
  `[1:6]` slice, and what is proved about them. Scores are `real`, because
  they are only compared. The sort is a functional insertion sort. It is tied
  to an independent description: the unique arrangement of the enumerated
  pairs that is ordered by descending score, with ties broken by ascending
  row index (`RanksBefore`).
- `Posters` (`posters.dfy`): the URL decision of `fetch_poster`. The HTTP
  response is reduced to its `poster_path` field: absent, `null`, or a string.
- `Recommender` (`recommender.dfy`): the catalog lookup, the specification
  `Recommendation` of `recommend`, and the method `Recommend`. The method runs
  the source's loop, appending to the two lists, with invariants that tie the
  lists to the specification. The provider's responses are a parameter `api`
  that maps a movie id to its `poster_path` field.

One might expect a recommender never to list the query movie itself. The code
does not ensure that. It always takes positions 1 to 5 of the sorted list, so
what it drops is the top-ranked entry, not necessarily the query row. The two
coincide exactly when the query's self-score is the row's maximum and every
lower row index scores strictly less (`TopIsRowIff`). `SelfExcluded` proves
exclusion under that condition; a higher row that ties the self-score does not
break it, since the stable sort keeps the query ahead. `SelfNotExcludedOnTie`
shows the query being recommended when a lower row ties its self-score.

## Model

| member | source | states |
|---|---|---|
| `Ranking.Enumerate` | app.py:22 | `list(enumerate(row))`: one pair per score, pair `j` holds row index `j` and `row[j]`, so row indices increase; the definition the sort lemmas start from |
| `Ranking.Distances` | app.py:22 | `distances`: a permutation of the enumerated pairs in descending-score / ascending-row order; the definition the ranking and selection lemmas are about |
| `Ranking.Insert` | app.py:22 | inserting into a sorted list adds exactly that entry: the multiset grows by it |
| `Ranking.SortDescending` | app.py:22 | the sorted list is a permutation of its input: no pair is lost or duplicated |
| `Ranking.SortDescendingRanked` | app.py:22 | when the input rows increase, as they do for `enumerate`, the sorted list has non-increasing scores, and equal scores keep ascending row order (the sort is stable) |
| `Ranking.DistancesAreSortedEnumeration` | app.py:22 | `distances` holds every `(j, similarity[index][j])` exactly once, has one entry per score, has distinct rows, and is in descending-score / ascending-row order |
| `Ranking.RankedUnique` | app.py:22 | two sequences with the same entries, both in that order, are equal |
| `Ranking.DistancesAreUnique` | app.py:22 | any arrangement of the enumerated pairs in that order equals `distances`, so the output is fully determined by the row |
| `Ranking.TopEntryIsFirstMaximum` | app.py:22-26 | the entry the slice drops has the row's highest score and the lowest row index that reaches it |
| `Ranking.Slice` | app.py:26 | Python slicing with non-negative bounds: both ends are clamped to the length, and element `k` is element `lo + k` of the input |
| `Ranking.Selected` | app.py:26 | `distances[1:6]` has at most five entries, each a valid row with that row's score |
| `Ranking.SelectedIsDistancesAfterTop` | app.py:26 | exactly the first sorted entry is excluded: the result is sorted positions 1.. in order, of length `min(5, n - 1)` |
| `Ranking.TopIsRowIff` | app.py:22-26 | the entry the slice drops is row `i` exactly when `i` has the row's highest score and every lower row index scores strictly less |
| `Ranking.SelfExcluded` | app.py:22-26 | if the query's self-score is the row's maximum and every lower row index scores strictly less, the query row is not selected |
| `Ranking.SelfNotExcludedOnTie` | app.py:22-26 | for the row `[1.0, 1.0]` and query row 1, the query row itself is selected |
| `Ranking.ThreeScoreExample` | app.py:22-26 | the row `[1.0, 0.8, 0.3]` selects rows 1 and 2, in that order |
| `Posters.FetchPoster` | app.py:14-17 | a non-empty `poster_path` gives the fixed prefix followed by exactly that path; a null or empty one gives `None`; a missing one raises |
| `Posters.PosterUrlRoundTrip` | app.py:15 | the URL built from a non-empty path is injective in the path: stripping the prefix (`PathOf`, a helper with no counterpart in the source) gives back the path |
| `Recommender.PosterOf` | app.py:27-29 | the `fetch_poster(movie_id)` call for a picked row: it raises exactly when the response for that row's movie id lacks `poster_path`, and gives a URL exactly when the path is non-empty |
| `Recommender.Collect` | app.py:26-30 | the loop over the picks, one title and one poster appended per pick, stopping at the first raising iteration; a result has one title and one poster per pick; the definition `CollectPairsPositions` and `CollectFailureSticks` are about |
| `Recommender.Recommendation` | app.py:20-31 | `recommend(movie)`: the not-found error when no row holds the title; any result has equally long title and poster lists of at most five; the definition `Recommend` is proved equal to and the recommender lemmas are about |
| `Recommender.FindTitle` | app.py:21 | the lookup yields the smallest catalog position whose title equals the selected one, and yields nothing exactly when no row matches |
| `Recommender.Recommend` | app.py:20-31 | the loop's result equals `Recommendation`: the not-found error, an index error, the first poster error, or the two lists built over `distances[1:6]`; the two lists have equal length |
| `Recommender.CollectFailureSticks` | app.py:26-30 | once an iteration raises, the loop's outcome is that error, whatever the later picks |
| `Recommender.CollectPairsPositions` | app.py:26-30 | the loop succeeds exactly when every lookup succeeds; position `k` of both lists is about pick `k` (its title, its movie's poster); on failure, the error is that of the first failing lookup |
| `Recommender.NotFoundIffNoRowMatches` | app.py:21 | `recommend` raises the not-found error exactly when no catalog row holds the title; it never answers with empty lists instead |
| `Recommender.CollectNeverNotFound` | app.py:26-30 | the loop itself never raises the not-found error |
| `Recommender.RecommendationPairsSelectedRows` | app.py:20-31 | on aligned data with the title found, `recommend` succeeds exactly when every selected row's poster lookup succeeds, else it raises a poster error; a result has `min(5, n - 1)` titles and as many posters, and position `k` of both is about the `k`-th selected row |
| `Recommender.QueryNotRecommended` | app.py:21-26 | for the looked-up query row, a self-score that is the row's maximum and strictly above every lower row index's score keeps that row out of the selection |
| `Recommender.ThreeMovieExample` | app.py:20-31 | for catalog Alpha/Beta/Gamma and Alpha's row `[1.0, 0.8, 0.3]`, `recommend("Alpha")` returns `["Beta", "Gamma"]` with their posters |

## Left out

- The HTTP request and JSON decoding in `fetch_poster` (app.py:8-11) are network I/O. The model takes the decoded `poster_path` field as input (`PosterField`). Network errors and non-JSON bodies, which raise in the source, are not modelled.
- The API key embedded in the request URL (app.py:9) is configuration.
- A `poster_path` of a JSON type other than string or null is not modelled: `poster_path` is assumed to be a string or null.
- Pickle loading and the pandas DataFrame (app.py:35-37) are file I/O and a library. The catalog is a `seq<Movie>` and the matrix a `seq<seq<Score>>`. `Recommend` accepts any such pair. A position past the end of the matrix or the catalog gives `IndexOutOfRange`, as the source's `IndexError` would. The lemmas about lengths and pairing assume aligned data (`Aligned`): that assumption is made of the loaded pickles, whose producer is not part of this model. The DataFrame is taken to have its default index, so the label that `.index[0]` returns is the row position.
- The Streamlit UI (app.py:40-53) is presentation. Its loop reads `names[i]` for five columns, so it fails for catalogs with fewer than six rows, where `recommend` returns fewer than five titles.
- Similarity scores are `real`, not floating point. NaN and its effect on Python's sort are not modelled.
- `Recommend` builds its lists as sequence values. Python's in-place `append` on list objects, and aliasing between them, are not modelled; nothing else refers to these lists.
- The error constructors record which statement raised: `TitleNotFound` for `.index[0]`, `IndexOutOfRange` for `similarity[index]` and `movies.iloc[...]`, `PosterPathMissing(movieId)` for `data['poster_path']`. Python's exceptions carry less: the first two are both an `IndexError`, and the third is a `KeyError('poster_path')` that does not name the movie.
- Each poster lookup in the source sends a new HTTP request (app.py:8-11). The model's `api` is a fixed function, so repeated lookups of one movie id are assumed to get identical responses.
