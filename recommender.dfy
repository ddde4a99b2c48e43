/** `recommend(movie)`: find the selected title in the catalog, rank its similarity row,
    and build the titles and posters of the five entries after the top one. */
module Recommender {
  import opened Wrappers
  import opened Ranking
  import opened Posters

  /** One row of the catalog table: the provider's movie id and the title. */
  datatype Movie = Movie(movieId: MovieId, title: string)

  /** The two lists `recommend` returns, position by position about the same movie. */
  datatype Recommended = Recommended(titles: seq<string>, posters: seq<Option<string>>)

  /** Why `recommend` raises: the title is in no row (`index[0]` on an empty index), a
      position lies past the end of the similarity matrix or of the catalog (`similarity[index]`,
      `movies.iloc[...]`), or a poster lookup met a response without `poster_path`. */
  datatype Error = TitleNotFound | IndexOutOfRange | PosterLookup(cause: PosterError)

  /** What the lemmas assume of the loaded data: one similarity row per catalog row, each
      with one score per catalog row, row positions matching catalog positions. */
  predicate Aligned(catalog: seq<Movie>, similarity: seq<seq<Score>>)
  {
    |similarity| == |catalog| &&
    forall i :: 0 <= i < |similarity| ==> |similarity[i]| == |catalog|
  }

  /** `movies[movies['title'] == movie].index[0]`: the first catalog position holding the
      title, or nothing when no row holds it. */
  function FindTitle(catalog: seq<Movie>, title: string): (r: Option<nat>)
    ensures r.Some? ==> r.value < |catalog| && catalog[r.value].title == title
    ensures r.Some? ==> forall j :: 0 <= j < r.value ==> catalog[j].title != title
    ensures r.None? <==> forall j :: 0 <= j < |catalog| ==> catalog[j].title != title
  {
    if catalog == [] then None
    else if catalog[0].title == title then Some(0)
    else
      match FindTitle(catalog[1..], title)
      case None => None
      case Some(i) => Some(i + 1)
  }

  predicate RowsInCatalog(catalog: seq<Movie>, picks: seq<Entry>)
  {
    forall k :: 0 <= k < |picks| ==> picks[k].row < |catalog|
  }

  /** The poster lookup for the catalog row of `pick`; `api` stands for the provider's
      responses, one `poster_path` field per movie id. */
  function PosterOf(catalog: seq<Movie>, pick: Entry, api: MovieId -> PosterField): (r: Result<Option<string>, PosterError>)
    requires pick.row < |catalog|
    ensures r.Failure? <==> api(catalog[pick.row].movieId).Absent?
    ensures r.Failure? ==> r.error == PosterPathMissing(catalog[pick.row].movieId)
    ensures r.Success? ==>
              (r.value.Some? <==> api(catalog[pick.row].movieId).Path? && api(catalog[pick.row].movieId).path != [])
  {
    FetchPoster(catalog[pick.row].movieId, api(catalog[pick.row].movieId))
  }

  /** The two lists the loop of `recommend` builds over `picks`, one append to each per
      pick, in order; the first failing poster lookup ends it with that error. */
  function Collect(catalog: seq<Movie>, picks: seq<Entry>, api: MovieId -> PosterField): (r: Result<Recommended, Error>)
    ensures r.Success? ==> |r.value.titles| == |picks| && |r.value.posters| == |picks|
    decreases |picks|
  {
    if picks == [] then Success(Recommended([], []))
    else
      var last := picks[|picks| - 1];
      match Collect(catalog, picks[..|picks| - 1], api)
      case Failure(e) => Failure(e)
      case Success(done) =>
        if last.row >= |catalog| then Failure(IndexOutOfRange)
        else match PosterOf(catalog, last, api)
        case Failure(e) => Failure(PosterLookup(e))
        case Success(p) => Success(Recommended(done.titles + [catalog[last.row].title], done.posters + [p]))
  }

  /** What `recommend(movie)` returns or raises. */
  function Recommendation(catalog: seq<Movie>, similarity: seq<seq<Score>>, movie: string,
                          api: MovieId -> PosterField): (r: Result<Recommended, Error>)
    ensures FindTitle(catalog, movie).None? ==> r == Failure(TitleNotFound)
    ensures r.Success? ==> FindTitle(catalog, movie).Some? && |r.value.titles| == |r.value.posters| <= 5
  {
    match FindTitle(catalog, movie)
    case None => Failure(TitleNotFound)
    case Some(index) =>
      if index < |similarity| then Collect(catalog, Selected(similarity[index]), api)
      else Failure(IndexOutOfRange)
  }

  /** `recommend(movie)`: the loop appends one title and one poster per selected entry. */
  method Recommend(catalog: seq<Movie>, similarity: seq<seq<Score>>, movie: string,
                   api: MovieId -> PosterField) returns (r: Result<Recommended, Error>)
    ensures r == Recommendation(catalog, similarity, movie, api)
    ensures r.Success? ==> |r.value.titles| == |r.value.posters|
  {
    var found := FindTitle(catalog, movie);
    if found.None? {
      return Failure(TitleNotFound);
    }
    var index := found.value;
    if index >= |similarity| {
      return Failure(IndexOutOfRange);
    }
    var picks := Selected(similarity[index]);
    var names: seq<string> := [];
    var posters: seq<Option<string>> := [];
    var k := 0;
    while k < |picks|
      invariant 0 <= k <= |picks|
      invariant |names| == |posters| == k
      invariant Collect(catalog, picks[..k], api) == Success(Recommended(names, posters))
    {
      assert picks[..k + 1][..k] == picks[..k];
      var row := picks[k].row;
      if row >= |catalog| {
        CollectFailureSticks(catalog, picks, k + 1, api);
        assert picks[..|picks|] == picks;
        return Failure(IndexOutOfRange);
      }
      var movieId := catalog[row].movieId;
      names := names + [catalog[row].title];
      var poster := FetchPoster(movieId, api(movieId));
      if poster.Failure? {
        CollectFailureSticks(catalog, picks, k + 1, api);
        assert picks[..|picks|] == picks;
        return Failure(PosterLookup(poster.error));
      }
      posters := posters + [poster.value];
      k := k + 1;
    }
    assert picks[..k] == picks;
    r := Success(Recommended(names, posters));
  }

  /** Once a prefix of the picks fails, every longer run fails with the same error. */
  lemma {:induction false} CollectFailureSticks(catalog: seq<Movie>, picks: seq<Entry>, k: nat,
                                                api: MovieId -> PosterField)
    requires k <= |picks|
    requires Collect(catalog, picks[..k], api).Failure?
    ensures Collect(catalog, picks, api) == Collect(catalog, picks[..k], api)
    decreases |picks| - k
  {
    if k < |picks| {
      var init := picks[..|picks| - 1];
      assert init[..k] == picks[..k];
      CollectFailureSticks(catalog, init, k, api);
    } else {
      assert picks[..k] == picks;
    }
  }

  /** The lists hold, at each position, the title of the pick's catalog row and the poster
      for that row's movie id; they fail exactly when some lookup fails, with the error of
      the first one that does. */
  lemma {:induction false} CollectPairsPositions(catalog: seq<Movie>, picks: seq<Entry>, api: MovieId -> PosterField)
    requires RowsInCatalog(catalog, picks)
    ensures Collect(catalog, picks, api).Success? <==>
              forall k :: 0 <= k < |picks| ==> PosterOf(catalog, picks[k], api).Success?
    ensures Collect(catalog, picks, api).Success? ==>
              var rec := Collect(catalog, picks, api).value;
              |rec.titles| == |picks| && |rec.posters| == |picks| &&
              forall k :: 0 <= k < |picks| ==>
                rec.titles[k] == catalog[picks[k].row].title &&
                rec.posters[k] == PosterOf(catalog, picks[k], api).value
    ensures Collect(catalog, picks, api).Failure? ==>
              exists k :: 0 <= k < |picks| && PosterOf(catalog, picks[k], api).Failure? &&
                (forall m :: 0 <= m < k ==> PosterOf(catalog, picks[m], api).Success?) &&
                Collect(catalog, picks, api).error == PosterLookup(PosterOf(catalog, picks[k], api).error)
  {
    if picks != [] {
      var n := |picks| - 1;
      var init := picks[..n];
      CollectPairsPositions(catalog, init, api);
      assert forall k :: 0 <= k < n ==> init[k] == picks[k];
    }
  }

  /** `recommend` raises the not-found error for a title exactly when no catalog row holds
      it; it never answers such a title with empty lists. */
  lemma NotFoundIffNoRowMatches(catalog: seq<Movie>, similarity: seq<seq<Score>>, movie: string,
                                api: MovieId -> PosterField)
    ensures Recommendation(catalog, similarity, movie, api) == Failure(TitleNotFound) <==>
              forall j :: 0 <= j < |catalog| ==> catalog[j].title != movie
  {
    match FindTitle(catalog, movie)
    case None =>
    case Some(index) =>
      if index < |similarity| {
        CollectNeverNotFound(catalog, Selected(similarity[index]), api);
      }
  }

  /** The loop over the picks raises only index and poster errors. */
  lemma {:induction false} CollectNeverNotFound(catalog: seq<Movie>, picks: seq<Entry>, api: MovieId -> PosterField)
    ensures Collect(catalog, picks, api) != Failure(TitleNotFound)
    decreases |picks|
  {
    if picks != [] {
      CollectNeverNotFound(catalog, picks[..|picks| - 1], api);
    }
  }

  /** On aligned data, once the title is found, `recommend` succeeds exactly when the poster
      lookups for all `min(5, n - 1)` selected rows succeed, and otherwise raises a poster
      error. A result has one title and one poster per selected row; position `k` of both
      is about the `k`-th selected row (sorted position `k + 1`). */
  lemma RecommendationPairsSelectedRows(catalog: seq<Movie>, similarity: seq<seq<Score>>, movie: string,
                                        api: MovieId -> PosterField)
    requires Aligned(catalog, similarity)
    requires FindTitle(catalog, movie).Some?
    ensures var picks := Selected(similarity[FindTitle(catalog, movie).value]);
            var r := Recommendation(catalog, similarity, movie, api);
            |picks| == Min(5, |catalog| - 1) && RowsInCatalog(catalog, picks) &&
            (r.Success? <==> forall k :: 0 <= k < |picks| ==> PosterOf(catalog, picks[k], api).Success?) &&
            (r.Failure? ==> r.error.PosterLookup?) &&
            (r.Success? ==>
               |r.value.titles| == |picks| && |r.value.posters| == |picks| &&
               forall k :: 0 <= k < |picks| ==>
                 r.value.titles[k] == catalog[picks[k].row].title &&
                 r.value.posters[k] == PosterOf(catalog, picks[k], api).value)
  {
    var index := FindTitle(catalog, movie).value;
    var scores := similarity[index];
    var picks := Selected(scores);
    SelectedIsDistancesAfterTop(scores);
    CollectPairsPositions(catalog, picks, api);
  }

  /** When the query row's self-score is the highest of that row and every lower row index
      scores strictly less, no selected entry is the query's own catalog row. */
  lemma QueryNotRecommended(catalog: seq<Movie>, similarity: seq<seq<Score>>, movie: string)
    requires Aligned(catalog, similarity)
    requires FindTitle(catalog, movie).Some?
    requires var i := FindTitle(catalog, movie).value;
             (forall j :: 0 <= j < |catalog| ==> similarity[i][j] <= similarity[i][i]) &&
             (forall j :: 0 <= j < i ==> similarity[i][j] < similarity[i][i])
    ensures var i := FindTitle(catalog, movie).value;
            forall k :: 0 <= k < |Selected(similarity[i])| ==> Selected(similarity[i])[k].row != i
  {
    var i := FindTitle(catalog, movie).value;
    SelfExcluded(similarity[i], i);
  }

  /** A three-movie catalog: the row `[1.0, 0.8, 0.3]` of "Alpha" recommends "Beta" then
      "Gamma", with the posters of their ids. */
  lemma ThreeMovieExample(api: MovieId -> PosterField)
    requires api(2) == Path("b.jpg") && api(3) == Null
    ensures var catalog := [Movie(1, "Alpha"), Movie(2, "Beta"), Movie(3, "Gamma")];
            var similarity := [[1.0, 0.8, 0.3], [0.8, 1.0, 0.5], [0.3, 0.5, 1.0]];
            Aligned(catalog, similarity) &&
            Recommendation(catalog, similarity, "Alpha", api) ==
              Success(Recommended(["Beta", "Gamma"], [Some(ImageBase + "b.jpg"), None]))
  {
    var catalog := [Movie(1, "Alpha"), Movie(2, "Beta"), Movie(3, "Gamma")];
    var similarity: seq<seq<Score>> := [[1.0, 0.8, 0.3], [0.8, 1.0, 0.5], [0.3, 0.5, 1.0]];
    var url := ImageBase + "b.jpg";
    assert Aligned(catalog, similarity);
    assert FindTitle(catalog, "Alpha") == Some(0);
    ThreeScoreExample();
    var picks := Selected(similarity[0]);
    assert PosterOf(catalog, picks[0], api) == Success(Some(url));
    assert PosterOf(catalog, picks[1], api) == Success(None);
    RecommendationPairsSelectedRows(catalog, similarity, "Alpha", api);
    var r := Recommendation(catalog, similarity, "Alpha", api).value;
    assert r.titles == ["Beta", "Gamma"];
    assert r.posters == [Some(url), None];
  }
}
