# Favourites page and poster carousel: a Dafny model

This project models the two pieces of local UI logic in the movie-browsing client:

- **`MovieSlider`** (`Slider` module). This is the poster carousel. It keeps a cursor `imageIndex` into a fixed list of movies, starting at 0.
  - The right arrow moves the cursor forward and wraps from the last movie to the first.
  - The left arrow moves it back and wraps from the first movie to the last.
  - Up to three dot buttons (one for each of the first three movies) jump straight to a movie.
  - The hover flags of the two arrows are separate state.
  - The rendered output is reduced to what it shows: the poster URL, its `alt` text, the dot row with its active dot, or the "no favorite movies" message.
- **`FavouritesList`** (`Favourites` module). This is the favourites page. Its state is the triple (`isPending`, `error`, `moviesData`). It starts as (true, null, []).
  - The mount effect settles the state once. It first fetches the user's favourite ids, then the metadata of every id, awaited together.
  - After that, the state changes only when a movie's delete control reports success. That removes every movie with that id.
  - The page is reduced to its four independent parts: the error text, the loading note, the "nothing added" note, and one grid cell per movie with a delete control wired to the movie's id.

Both components are modelled as classes whose fields are the component state. Each method is tied to a pure function of the old state: `NextIndex`, `PrevIndex`, `Settle` and `Deleted`. The properties are proved as lemmas about those functions.

The network is not modelled. The favourites listing is an input of type `Result<seq<int>, string>`. The metadata service is an input function `lookup: int -> Result<Movie, string>`.

## Behaviour as the code has it

- A metadata lookup is `fetch(...).then(r => r.json())`. It fails only when the request or the JSON parse fails. An HTTP error status from the metadata service still yields a body, and that body becomes an entry of the list. Only the favourites listing (axios) fails on an error status.
- One failed lookup fails the whole batch (`Promise.all`). No partial list is kept.
- The four page parts are drawn independently and are not mutually exclusive. After a failed fetch, the error text and the "Nothing added to favorites yet!" note show together.
- The error text shows only when `error` is truthy, which means non-null and non-empty. A failure whose message is the empty string shows only the empty note.
- The carousel's empty-list fallback is unreachable as written (see "## Findings").

## Model

| member | source | states |
|---|---|---|
| Slider.NextIndex | client/src/Components/MovieSlider/index.tsx:25-30 | for 0 <= index < length the next cursor is in [0, length) and equals (index + 1) mod length, so the last index wraps to 0 and every other index steps by 1 |
| Slider.PrevIndex | client/src/Components/MovieSlider/index.tsx:32-37 | for 0 <= index < length the previous cursor is in [0, length) and equals (index + length - 1) mod length, so 0 wraps to length - 1 and every other index steps back by 1 |
| Slider.PrevUndoesNext | client/src/Components/MovieSlider/index.tsx:25-37 | prev after next returns any in-range cursor to where it was |
| Slider.NextUndoesPrev | client/src/Components/MovieSlider/index.tsx:25-37 | next after prev returns any in-range cursor to where it was |
| Slider.NextTimesIsShift | client/src/Components/MovieSlider/index.tsx:26-29 | k right-arrow clicks take an in-range cursor c to (c + k) mod length |
| Slider.PrevTimesIsShift | client/src/Components/MovieSlider/index.tsx:33-36 | k left-arrow clicks take an in-range cursor c to (c - k) mod length |
| Slider.NextCycle | client/src/Components/MovieSlider/index.tsx:26-29 | length right-arrow clicks bring the cursor back to its start, and no smaller positive number of clicks does |
| Slider.PrevCycle | client/src/Components/MovieSlider/index.tsx:33-36 | length left-arrow clicks bring the cursor back to its start, and no smaller positive number of clicks does |
| Slider.DotCount | client/src/Components/MovieSlider/index.tsx:84 | the number of dots is min(3, length) |
| Slider.Dots | client/src/Components/MovieSlider/index.tsx:84-96 | there is one dot per movie of `movies.slice(0, 3)`, and dot i is drawn active exactly when i equals the cursor |
| Slider.AltText | client/src/Components/MovieSlider/index.tsx:62 | the poster's alt text is never empty: it is the title, or "Movie Poster" when the title is empty |
| Slider.RenderAsWritten | client/src/Components/MovieSlider/index.tsx:59-100 | as written, the render succeeds exactly when the cursor is in range (otherwise the poster lookup throws), and whenever it succeeds it shows a poster, namely that of the movie at the cursor |
| Slider.FallbackUnreachableAsWritten | client/src/Components/MovieSlider/index.tsx:59-62 | as written (`RenderAsWritten`), the render never shows the empty-list message, and on an empty list it always throws at the poster lookup |
| Slider.Render | client/src/Components/MovieSlider/index.tsx:82-100 | corrected render: the "no favorite movies" fallback shows exactly when the list is empty; otherwise it shows the poster URL and alt text of the movie at the cursor and the dot row, and it never indexes out of range |
| Slider.RenderAgreesWithWritten | client/src/Components/MovieSlider/index.tsx:59-100 | on every non-empty list with an in-range cursor, the written render does not throw and shows the same as the corrected one |
| Slider.ActiveDot | client/src/Components/MovieSlider/index.tsx:84-96 | at most one dot is active, and one is active exactly when the cursor is on one of the first three movies |
| Slider.MovieSlider.constructor | client/src/Components/MovieSlider/index.tsx:20-23 | the cursor starts at 0, both hover flags start false, and the cursor invariant holds |
| Slider.MovieSlider.ShowNextMovie | client/src/Components/MovieSlider/index.tsx:25-30 | the right arrow replaces the cursor by the next-index updater's result, keeps the invariant, and changes nothing else |
| Slider.MovieSlider.ShowPrevMovie | client/src/Components/MovieSlider/index.tsx:32-37 | the left arrow replaces the cursor by the previous-index updater's result, keeps the invariant, and changes nothing else |
| Slider.MovieSlider.SelectDot | client/src/Components/MovieSlider/index.tsx:84-86 | a dot click, offered only for indices in [0, min(3, length)), sets the cursor to that index, which then shows as the active dot |
| Slider.MovieSlider.SetLeftHovered | client/src/Components/MovieSlider/index.tsx:55-56 | entering or leaving the left arrow sets its hover flag and leaves the cursor and the other flag unchanged |
| Slider.MovieSlider.SetRightHovered | client/src/Components/MovieSlider/index.tsx:77-78 | entering or leaving the right arrow sets its hover flag and leaves the cursor and the other flag unchanged |
| Favourites.WithoutId | client/src/Components/FavouritesList/index.tsx:60-62 | after removing an id, no movie with that id remains, and a movie remains exactly when it was there with another id; the list never grows, and it keeps its length exactly when the id was absent |
| Favourites.WithoutIdKeepsOrder | client/src/Components/FavouritesList/index.tsx:61 | the k-th remaining movie is the input's movie at the k-th ascending position whose id differs, so every other movie stays, once, in its original relative order |
| Favourites.WithoutAbsentId | client/src/Components/FavouritesList/index.tsx:61 | removing an id that is absent leaves the list unchanged |
| Favourites.WithoutIdIdempotent | client/src/Components/FavouritesList/index.tsx:61 | removing the same id twice is the same as removing it once |
| Favourites.WithoutIdKeepsDistinct | client/src/Components/FavouritesList/index.tsx:61 | removal keeps a list with pairwise distinct ids distinct |
| Favourites.WithoutPresentId | client/src/Components/FavouritesList/index.tsx:60-62 | with distinct ids, removing an id that is present shortens the list by exactly one |
| Favourites.ResolveAll | client/src/Components/FavouritesList/index.tsx:39-47 | the batch of lookups succeeds exactly when every lookup succeeds, and then gives the movies in the order of the ids; otherwise it fails with the message of one of the failed lookups |
| Favourites.Fetch | client/src/Components/FavouritesList/index.tsx:30-53 | a failed favourites listing makes the whole fetch fail with the listing's message; a successful outcome comes from a successful listing and has one movie per listed id |
| Favourites.ListingFailureSkipsLookups | client/src/Components/FavouritesList/index.tsx:30-53 | when the listing fails, whatever the lookups would return, the mounted state settles as (not pending, the listing's message, no movies) |
| Favourites.Settle | client/src/Components/FavouritesList/index.tsx:47-53 | settling clears pending; on success the movies become the fetched list and the error is untouched; on failure the error becomes the message and the movies are untouched |
| Favourites.Deleted | client/src/Components/FavouritesList/index.tsx:60-62 | a deletion keeps the pending flag and the error, and removes from the movies exactly those with the deleted id |
| Favourites.Render | client/src/Components/FavouritesList/index.tsx:64-84 | loading shows iff pending; the empty note shows iff not pending and there are no movies; the error shows iff it is set and non-empty; there is one cell per movie, in order, whose delete control is wired to that movie's id |
| Favourites.MountedShowsLoadingOnly | client/src/Components/FavouritesList/index.tsx:22-24 | the mounted state (pending, no error, no movies) shows the loading note and nothing else |
| Favourites.FetchSuccessPage | client/src/Components/FavouritesList/index.tsx:28-49 | when every lookup succeeds, the settled state has pending false, no error, and the movies in the order of the ids; the page shows no loading note and no error, and it shows the empty note exactly when the id list was empty |
| Favourites.OneFailedLookupFailsAll | client/src/Components/FavouritesList/index.tsx:39-53 | if any lookup fails, the settled state holds no movies at all and the message of a failed lookup |
| Favourites.FailurePageShowsErrorAndEmptyNote | client/src/Components/FavouritesList/index.tsx:50-53 | after a failed fetch with a non-empty message, the page shows the error and the empty note together, with no loading note and no cells |
| Favourites.DeleteCellRemovesItsMovie | client/src/Components/FavouritesList/index.tsx:72-80 | deleting through a cell's control removes its movie from the page and shortens the list; with distinct ids, exactly one cell goes |
| Favourites.DeleteKeepsOtherCellsInOrder | client/src/Components/FavouritesList/index.tsx:60-81 | after a deletion every cell of a movie with another id is still drawn, and the remaining cells are the old cells at the ascending kept positions, so their relative order is unchanged |
| Favourites.FavouritesList.constructor | client/src/Components/FavouritesList/index.tsx:21-24 | the component state starts as (pending, no error, no movies) |
| Favourites.FavouritesList.FetchFavourites | client/src/Components/FavouritesList/index.tsx:26-57 | the mount effect settles the state with the outcome of the listing and the lookups |
| Favourites.FavouritesList.HandleMovieDeleted | client/src/Components/FavouritesList/index.tsx:59-62 | the deletion callback filters the movie list by id and leaves the pending flag and the error unchanged |

## Findings

| source | as written | input that shows it | evidently intended | confidence | as-written member | corrected member |
|---|---|---|---|---|---|---|
| client/src/Components/MovieSlider/index.tsx:61 | the poster lookup `movies[imageIndex].poster_path` runs before the `movies.length > 0` test at line 82 | `movies = []` with `imageIndex = 0`: `movies[0]` is undefined, so reading `poster_path` throws, and "There are no favorite movies." never shows | an empty list renders the fallback message | high (not executed) | Slider.FallbackUnreachableAsWritten | Slider.Render |

The class `MovieSlider` renders through the corrected `Render`. Its invariant therefore only asks for an in-range cursor when the list is non-empty.

## Left out

- The HTTP requests are inputs, not modelled calls: the favourites listing, the metadata lookups, URL and header construction, the base URL and API key taken from the environment, and the authenticated user from the auth context.
- `Promise.all` runs the lookups concurrently. The model takes the already-settled results.
- ResolveAll: when several lookups fail, the source reports whichever rejects first in time. The model picks the first in id order, and its contract promises only the message of one failed lookup.
- The metadata service is a function of the id, so a duplicate id always resolves the same way at every position. In the source each entry gets its own `fetch`, and those can settle differently.
- The fetch is not cancelled when the component unmounts. This is a lifecycle concern, and the model starts from a settled outcome.
- `handleMovieDeleted` reads `moviesData` from the closure of the render that created it. The model filters the current state.
- A rejection that is not an `Error` leaves `err.message` undefined. The model's failure message is always a string.
- A favourites response whose body is not an array is not modelled. The listing is a sequence of ids.
- The `movies` prop is fixed for the carousel's lifetime. The model does not reset or clamp the cursor when the prop changes.
- The arrow buttons stay clickable on an empty list in the corrected render. The model keeps the source's updaters unchanged there: the next-index updater turns 0 into 1, and the previous-index updater turns 0 into -1. The invariant holds, and the fallback is still shown.
- `vote_average` (a floating-point number) is not part of the movie record. Neither are the fields the cards use beyond id, title, poster path and release date.
- These parts are presentation only: JSX, MUI `Grid`, CSS, the hover image swap, `MovieCard`, `DeleteButton`'s own backend call, and the "View More" button, which does nothing.
