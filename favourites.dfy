/**
 * The favourites page (`FavouritesList`): a view state made of a pending
 * flag, an optional error message and the list of movies. The state is
 * settled once by the fetch of the user's favourites and is then changed
 * only by removals. The two network stages are given as their settled
 * results: the favourites listing (ids, or the message it failed with)
 * and the metadata lookup of each id.
 */
module Favourites {
  import opened Wrappers
  import opened Movies

  // ---------------------------------------------------------------------
  // Removal of a movie by id
  // ---------------------------------------------------------------------

  /** The list with every movie whose id is `id` filtered out. */
  function WithoutId(ms: seq<Movie>, id: int): (r: seq<Movie>)
    ensures forall i :: 0 <= i < |r| ==> r[i].id != id
    ensures forall m :: m in r <==> m in ms && m.id != id
    ensures |r| <= |ms|
    ensures |r| == |ms| <==> forall i :: 0 <= i < |ms| ==> ms[i].id != id
  {
    if ms == [] then []
    else (if ms[0].id == id then [] else [ms[0]]) + WithoutId(ms[1..], id)
  }

  /** Every position of `ps`, moved up by `d`. */
  function Shift(ps: seq<int>, d: int): (r: seq<int>)
    ensures |r| == |ps|
    ensures forall k :: 0 <= k < |r| ==> r[k] == ps[k] + d
  {
    seq(|ps|, k requires 0 <= k < |ps| => ps[k] + d)
  }

  /** The positions of `ms` holding a movie whose id is not `id`, in ascending order. */
  ghost function KeptPositions(ms: seq<Movie>, id: int): seq<int>
  {
    if ms == [] then []
    else (if ms[0].id == id then [] else [0]) + Shift(KeptPositions(ms[1..], id), 1)
  }

  /** The kept positions are positions of the list, in ascending order. */
  lemma {:induction false} KeptPositionsAscend(ms: seq<Movie>, id: int)
    ensures forall k :: 0 <= k < |KeptPositions(ms, id)| ==> 0 <= KeptPositions(ms, id)[k] < |ms|
    ensures forall k, l :: 0 <= k < l < |KeptPositions(ms, id)| ==> KeptPositions(ms, id)[k] < KeptPositions(ms, id)[l]
  {
    if ms != [] {
      KeptPositionsAscend(ms[1..], id);
      var ps0 := KeptPositions(ms[1..], id);
      var sh := Shift(ps0, 1);
      assert forall k :: 0 <= k < |sh| ==> 1 <= sh[k] < |ms|;
      assert forall k, l :: 0 <= k < l < |sh| ==> sh[k] < sh[l];
      if ms[0].id != id {
        var ps := KeptPositions(ms, id);
        assert ps == [0] + sh;
        forall k, l | 0 <= k < l < |ps|
          ensures ps[k] < ps[l]
        {
          assert ps[l] == sh[l - 1];
          if k > 0 {
            assert ps[k] == sh[k - 1];
          }
        }
      }
    }
  }

  /** A position is kept exactly when the movie there has another id. */
  lemma {:induction false} KeptPositionsExact(ms: seq<Movie>, id: int)
    ensures forall j :: 0 <= j < |ms| ==> (j in KeptPositions(ms, id) <==> ms[j].id != id)
  {
    if ms != [] {
      var rest := ms[1..];
      KeptPositionsExact(rest, id);
      KeptPositionsAscend(rest, id);
      var ps0 := KeptPositions(rest, id);
      var sh := Shift(ps0, 1);
      var head: seq<int> := if ms[0].id == id then [] else [0];
      var ps := KeptPositions(ms, id);
      assert ps == head + sh;
      assert forall k :: 0 <= k < |sh| ==> sh[k] >= 1;
      forall j | 0 <= j < |ms|
        ensures j in ps <==> ms[j].id != id
      {
        if j == 0 {
          assert 0 !in sh;
        } else {
          assert ms[j] == rest[j - 1];
          if j - 1 in ps0 {
            var k :| 0 <= k < |ps0| && ps0[k] == j - 1;
            assert sh[k] == j;
          }
          if j in sh {
            var k :| 0 <= k < |sh| && sh[k] == j;
            assert ps0[k] == j - 1;
          }
        }
      }
    }
  }

  /** The k-th movie kept by the filter is the one at the k-th kept position. */
  lemma {:induction false} WithoutIdAtKeptPositions(ms: seq<Movie>, id: int)
    ensures |KeptPositions(ms, id)| == |WithoutId(ms, id)|
    ensures forall k :: 0 <= k < |KeptPositions(ms, id)| ==>
      0 <= KeptPositions(ms, id)[k] < |ms| && WithoutId(ms, id)[k] == ms[KeptPositions(ms, id)[k]]
  {
    if ms != [] {
      var rest := ms[1..];
      WithoutIdAtKeptPositions(rest, id);
      var ps0, r0 := KeptPositions(rest, id), WithoutId(rest, id);
      var ps, r := KeptPositions(ms, id), WithoutId(ms, id);
      var d := if ms[0].id == id then 0 else 1;
      assert |ps| == |ps0| + d && |r| == |r0| + d;
      forall k | d <= k < |ps|
        ensures 0 <= ps[k] < |ms| && r[k] == ms[ps[k]]
      {
        assert ps[k] == ps0[k - d] + 1 && r[k] == r0[k - d];
        assert ms[ps[k]] == rest[ps0[k - d]];
      }
    }
  }

  /**
   * The filter keeps exactly the movies with another id, each once, in
   * their original relative order: its k-th movie is the one at the k-th
   * kept position of the input, and the kept positions ascend.
   */
  lemma WithoutIdKeepsOrder(ms: seq<Movie>, id: int)
    ensures var ps, r := KeptPositions(ms, id), WithoutId(ms, id);
      && |ps| == |r|
      && (forall k :: 0 <= k < |ps| ==> 0 <= ps[k] < |ms| && r[k] == ms[ps[k]])
      && (forall k, l :: 0 <= k < l < |ps| ==> ps[k] < ps[l])
      && (forall j :: 0 <= j < |ms| ==> (j in ps <==> ms[j].id != id))
  {
    KeptPositionsAscend(ms, id);
    KeptPositionsExact(ms, id);
    WithoutIdAtKeptPositions(ms, id);
  }

  /** Removing an id that is not in the list leaves it unchanged. */
  lemma {:induction false} WithoutAbsentId(ms: seq<Movie>, id: int)
    requires forall i :: 0 <= i < |ms| ==> ms[i].id != id
    ensures WithoutId(ms, id) == ms
  {
    if ms != [] {
      WithoutAbsentId(ms[1..], id);
    }
  }

  /** Removing the same id twice is the same as removing it once. */
  lemma WithoutIdIdempotent(ms: seq<Movie>, id: int)
    ensures WithoutId(WithoutId(ms, id), id) == WithoutId(ms, id)
  {
    WithoutAbsentId(WithoutId(ms, id), id);
  }

  /** No two movies of the list share an id. */
  predicate DistinctIds(ms: seq<Movie>) {
    forall i, j :: 0 <= i < j < |ms| ==> ms[i].id != ms[j].id
  }

  /** Removal keeps ids distinct. */
  lemma {:induction false} WithoutIdKeepsDistinct(ms: seq<Movie>, id: int)
    requires DistinctIds(ms)
    ensures DistinctIds(WithoutId(ms, id))
  {
    WithoutIdKeepsOrder(ms, id);
    var ps, r := KeptPositions(ms, id), WithoutId(ms, id);
    forall i, j | 0 <= i < j < |r|
      ensures r[i].id != r[j].id
    {
      assert r[i] == ms[ps[i]] && r[j] == ms[ps[j]] && ps[i] < ps[j];
    }
  }

  /** With distinct ids, removing an id that is present shortens the list by exactly one. */
  lemma {:induction false} WithoutPresentId(ms: seq<Movie>, id: int, i: int)
    requires DistinctIds(ms)
    requires 0 <= i < |ms| && ms[i].id == id
    ensures |WithoutId(ms, id)| == |ms| - 1
  {
    if i == 0 {
      WithoutAbsentId(ms[1..], id);
    } else {
      assert ms[0].id != id;
      WithoutPresentId(ms[1..], id, i - 1);
    }
  }

  // ---------------------------------------------------------------------
  // The fetch of the favourites
  // ---------------------------------------------------------------------

  /** How the fetch settles: with the list of movies, or with an error message. */
  datatype Outcome = Loaded(movies: seq<Movie>) | Failed(message: string)

  /**
   * The metadata lookups of all ids, awaited together: the movies in the
   * order of the ids when every lookup succeeds, and otherwise the failure
   * of one of them, with no partial list.
   */
  function ResolveAll(ids: seq<int>, lookup: int -> Result<Movie, string>): (r: Outcome)
    ensures r.Loaded? <==> forall i :: 0 <= i < |ids| ==> lookup(ids[i]).Success?
    ensures r.Loaded? ==> |r.movies| == |ids|
                          && forall i :: 0 <= i < |ids| ==> r.movies[i] == lookup(ids[i]).value
    ensures r.Failed? ==> exists i :: 0 <= i < |ids| && lookup(ids[i]) == Failure(r.message)
  {
    if ids == [] then Loaded([])
    else
      match lookup(ids[0])
      case Failure(e) => Failed(e)
      case Success(m) =>
        match ResolveAll(ids[1..], lookup)
        case Loaded(ms) => Loaded([m] + ms)
        case Failed(e) => Failed(e)
  }

  /** Both stages: the favourites listing, then the lookups of its ids. */
  function Fetch(listing: Result<seq<int>, string>, lookup: int -> Result<Movie, string>): (r: Outcome)
    ensures listing.Failure? ==> r == Failed(listing.error)
    ensures r.Loaded? ==> listing.Success? && |r.movies| == |listing.value|
  {
    match listing
    case Failure(e) => Failed(e)
    case Success(ids) => ResolveAll(ids, lookup)
  }

  // ---------------------------------------------------------------------
  // View state, its transitions and what it renders
  // ---------------------------------------------------------------------

  /** The three pieces of `useState` state of the page. */
  datatype ViewState = ViewState(isPending: bool, error: Option<string>, moviesData: seq<Movie>)

  /** The state on mount: loading, no error, no movies. */
  const Mounted := ViewState(true, None, [])

  /** The state once the fetch has settled with `outcome`. */
  function Settle(s: ViewState, outcome: Outcome): (t: ViewState)
    ensures !t.isPending
    ensures outcome.Loaded? ==> t.moviesData == outcome.movies && t.error == s.error
    ensures outcome.Failed? ==> t.error == Some(outcome.message) && t.moviesData == s.moviesData
  {
    match outcome
    case Loaded(ms) => s.(moviesData := ms, isPending := false)
    case Failed(m) => s.(isPending := false, error := Some(m))
  }

  /** The state after the delete control of movie `id` reports success. */
  function Deleted(s: ViewState, id: int): (t: ViewState)
    ensures t.isPending == s.isPending && t.error == s.error
    ensures forall i :: 0 <= i < |t.moviesData| ==> t.moviesData[i].id != id
    ensures forall m :: m in t.moviesData <==> m in s.moviesData && m.id != id
  {
    s.(moviesData := WithoutId(s.moviesData, id))
  }

  /** One grid cell: a movie card and a delete control wired to the movie's id. */
  datatype Cell = Cell(movie: Movie, deleteId: int)

  /** What the page shows; the four parts are drawn independently. */
  datatype Page = Page(errorText: Option<string>, loading: bool, nothingAdded: bool, cells: seq<Cell>)

  /**
   * The page for a state. The error is shown when it is a non-empty
   * string (an empty string is falsy), the loading note while pending, the
   * empty note when settled with no movies, and one cell per movie.
   */
  function Render(s: ViewState): (p: Page)
    ensures p.loading <==> s.isPending
    ensures p.nothingAdded <==> !s.isPending && s.moviesData == []
    ensures p.errorText.Some? <==> s.error.Some? && s.error.value != []
    ensures p.errorText.Some? ==> p.errorText == s.error
    ensures |p.cells| == |s.moviesData|
    ensures forall i :: 0 <= i < |p.cells| ==> p.cells[i] == Cell(s.moviesData[i], s.moviesData[i].id)
  {
    Page(
      if s.error.Some? && s.error.value != [] then s.error else None,
      s.isPending,
      !s.isPending && |s.moviesData| == 0,
      seq(|s.moviesData|, i requires 0 <= i < |s.moviesData| => Cell(s.moviesData[i], s.moviesData[i].id)))
  }

  /** On mount only the loading note is shown. */
  lemma MountedShowsLoadingOnly()
    ensures Render(Mounted) == Page(None, true, false, [])
  {
  }

  /**
   * A successful fetch from the mounted state shows the movies in the
   * order of the listed ids, no error and no loading note; the empty note
   * shows exactly when the listing was empty.
   */
  lemma FetchSuccessPage(ids: seq<int>, lookup: int -> Result<Movie, string>)
    requires forall i :: 0 <= i < |ids| ==> lookup(ids[i]).Success?
    ensures var s := Settle(Mounted, Fetch(Success(ids), lookup));
      && s == ViewState(false, None, s.moviesData)
      && |s.moviesData| == |ids|
      && (forall i :: 0 <= i < |ids| ==> s.moviesData[i] == lookup(ids[i]).value)
      && var p := Render(s);
         !p.loading && p.errorText == None && (p.nothingAdded <==> ids == [])
  {
  }

  /**
   * If the listing succeeds but one lookup fails, the whole batch fails:
   * the page shows no movie at all and records the message of a failed
   * lookup.
   */
  lemma OneFailedLookupFailsAll(ids: seq<int>, lookup: int -> Result<Movie, string>, k: int)
    requires 0 <= k < |ids| && lookup(ids[k]).Failure?
    ensures var s := Settle(Mounted, Fetch(Success(ids), lookup));
      && !s.isPending && s.moviesData == []
      && exists i :: 0 <= i < |ids| && lookup(ids[i]) == Failure(s.error.value)
  {
  }

  /**
   * If the favourites listing itself fails, no lookup matters: the state
   * settles with the listing's message as the error and still no movies.
   */
  lemma ListingFailureSkipsLookups(e: string, lookup: int -> Result<Movie, string>)
    ensures Settle(Mounted, Fetch(Failure(e), lookup)) == ViewState(false, Some(e), [])
  {
  }

  /**
   * A failed fetch from the mounted state shows the error and, at the
   * same time, the empty note: the page parts are not exclusive.
   */
  lemma FailurePageShowsErrorAndEmptyNote(listing: Result<seq<int>, string>, lookup: int -> Result<Movie, string>)
    requires Fetch(listing, lookup).Failed? && Fetch(listing, lookup).message != []
    ensures var p := Render(Settle(Mounted, Fetch(listing, lookup)));
      && p.errorText == Some(Fetch(listing, lookup).message)
      && p.nothingAdded && !p.loading && p.cells == []
  {
  }

  /**
   * Deleting through the control of cell `k` removes that cell's movie,
   * and every other movie keeps its cell, in the same order; with distinct
   * ids exactly one cell goes.
   */
  lemma DeleteCellRemovesItsMovie(s: ViewState, k: int)
    requires 0 <= k < |s.moviesData|
    ensures var id := Render(s).cells[k].deleteId;
      var cells := Render(Deleted(s, id)).cells;
      && (forall c :: c in cells ==> c.movie.id != id)
      && |cells| < |s.moviesData|
      && (DistinctIds(s.moviesData) ==> |cells| == |s.moviesData| - 1)
  {
    var id := s.moviesData[k].id;
    var cells := Render(Deleted(s, id)).cells;
    forall c | c in cells
      ensures c.movie.id != id
    {
      var i :| 0 <= i < |cells| && cells[i] == c;
    }
    if DistinctIds(s.moviesData) {
      WithoutPresentId(s.moviesData, id, k);
    }
  }

  /**
   * After a deletion every other cell is still drawn, and the remaining
   * cells are the old cells at the kept positions, in ascending order.
   */
  lemma DeleteKeepsOtherCellsInOrder(s: ViewState, id: int)
    ensures var before, cells := Render(s).cells, Render(Deleted(s, id)).cells;
      forall c :: c in before && c.movie.id != id ==> c in cells
    ensures var before, cells := Render(s).cells, Render(Deleted(s, id)).cells;
      var ps := KeptPositions(s.moviesData, id);
      && |ps| == |cells|
      && (forall j :: 0 <= j < |cells| ==> 0 <= ps[j] < |before| && cells[j] == before[ps[j]])
      && (forall i, j :: 0 <= i < j < |ps| ==> ps[i] < ps[j])
  {
    var before, cells := Render(s).cells, Render(Deleted(s, id)).cells;
    forall c | c in before && c.movie.id != id
      ensures c in cells
    {
      var i :| 0 <= i < |before| && before[i] == c;
      assert s.moviesData[i] in WithoutId(s.moviesData, id);
      var j :| 0 <= j < |cells| && cells[j].movie == s.moviesData[i];
      assert cells[j] == c;
    }
    WithoutIdKeepsOrder(s.moviesData, id);
  }

  /** The component: the three pieces of its state, updated in place. */
  class FavouritesList {
    var isPending: bool
    var error: Option<string>
    var moviesData: seq<Movie>

    function State(): ViewState
      reads this
    {
      ViewState(isPending, error, moviesData)
    }

    constructor ()
      ensures State() == Mounted
    {
      isPending := true;
      error := None;
      moviesData := [];
    }

    /** The mount effect, with the listing and the lookups given as settled results. */
    method FetchFavourites(listing: Result<seq<int>, string>, lookup: int -> Result<Movie, string>)
      modifies this
      ensures State() == Settle(old(State()), Fetch(listing, lookup))
    {
      match Fetch(listing, lookup)
      case Loaded(movieDetails) =>
        moviesData := movieDetails;
        isPending := false;
      case Failed(message) =>
        isPending := false;
        error := Some(message);
    }

    /** Called by a movie's delete control once the backend has removed it. */
    method HandleMovieDeleted(deletedMovieId: int)
      modifies this`moviesData
      ensures State() == Deleted(old(State()), deletedMovieId)
    {
      moviesData := WithoutId(moviesData, deletedMovieId);
    }

    /** What the page currently shows. */
    function View(): Page
      reads this
    {
      Render(State())
    }
  }
}
