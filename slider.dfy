/**
 * The movie-poster carousel (`MovieSlider`): a cursor `imageIndex` into a
 * fixed list of movies, moved cyclically by the arrow buttons and directly
 * by up to three dot buttons. Rendering is reduced to the values it shows.
 */
module Slider {
  import opened Wrappers
  import opened Movies

  /** The cursor names a movie of a list of `length` movies. */
  predicate InRange(index: int, length: int) {
    0 <= index < length
  }

  /** The updater that `showNextMovie` hands to `setImageIndex`. */
  function NextIndex(index: int, length: int): (r: int)
    ensures InRange(index, length) ==> InRange(r, length) && r == (index + 1) % length
  {
    if index == length - 1 then 0 else index + 1
  }

  /** The updater that `showPrevMovie` hands to `setImageIndex`. */
  function PrevIndex(index: int, length: int): (r: int)
    ensures InRange(index, length) ==> InRange(r, length) && r == (index + length - 1) % length
  {
    if index == 0 then length - 1 else index - 1
  }

  lemma PrevUndoesNext(index: int, length: int)
    requires InRange(index, length)
    ensures PrevIndex(NextIndex(index, length), length) == index
  {
  }

  lemma NextUndoesPrev(index: int, length: int)
    requires InRange(index, length)
    ensures NextIndex(PrevIndex(index, length), length) == index
  {
  }

  /** The cursor after `k` clicks on the right arrow. */
  function NextTimes(index: int, length: int, k: nat): int
  {
    if k == 0 then index else NextIndex(NextTimes(index, length, k - 1), length)
  }

  /** The cursor after `k` clicks on the left arrow. */
  function PrevTimes(index: int, length: int, k: nat): int
  {
    if k == 0 then index else PrevIndex(PrevTimes(index, length, k - 1), length)
  }

  /** `d * n` moves at least one whole `n` away from 0 unless `d` is 0. */
  lemma {:induction false} MulBounds(d: int, n: int)
    requires 0 < n
    ensures d >= 1 ==> d * n >= n
    ensures d <= -1 ==> d * n <= -n
    decreases if d < 0 then -d else d
  {
    if d > 1 {
      MulBounds(d - 1, n);
      assert d * n == (d - 1) * n + n;
    } else if d < -1 {
      MulBounds(d + 1, n);
      assert d * n == (d + 1) * n - n;
    }
  }

  /** Quotient and remainder are determined by `a == q * n + r` with `0 <= r < n`. */
  lemma ModUnique(a: int, n: int, q: int, r: int)
    requires 0 < n && a == q * n + r && 0 <= r < n
    ensures a % n == r && a / n == q
  {
    var q0, r0 := a / n, a % n;
    var d := q - q0;
    assert d * n == r0 - r;
    MulBounds(d, n);
  }

  lemma ModSucc(a: int, n: int)
    requires 0 < n
    ensures ((a % n) + 1) % n == (a + 1) % n
  {
    var q, r := a / n, a % n;
    if r + 1 < n {
      ModUnique(a + 1, n, q, r + 1);
      ModUnique(r + 1, n, 0, r + 1);
    } else {
      assert a + 1 == (q + 1) * n + 0;
      ModUnique(a + 1, n, q + 1, 0);
      ModUnique(n, n, 1, 0);
    }
  }

  lemma ModPred(a: int, n: int)
    requires 0 < n
    ensures ((a % n) + n - 1) % n == (a - 1) % n
  {
    var q, r := a / n, a % n;
    if 0 < r {
      ModUnique(a - 1, n, q, r - 1);
      ModUnique(r + n - 1, n, 1, r - 1);
    } else {
      assert a - 1 == (q - 1) * n + (n - 1);
      ModUnique(a - 1, n, q - 1, n - 1);
      ModUnique(n - 1, n, 0, n - 1);
    }
  }

  /** `k` right-arrow clicks move an in-range cursor `k` places forward, modulo the length. */
  lemma {:induction false} NextTimesIsShift(index: int, length: int, k: nat)
    requires InRange(index, length)
    ensures NextTimes(index, length, k) == (index + k) % length
  {
    if k > 0 {
      NextTimesIsShift(index, length, k - 1);
      ModSucc(index + k - 1, length);
    }
  }

  /** `k` left-arrow clicks move an in-range cursor `k` places back, modulo the length. */
  lemma {:induction false} PrevTimesIsShift(index: int, length: int, k: nat)
    requires InRange(index, length)
    ensures PrevTimes(index, length, k) == (index - k) % length
  {
    if k > 0 {
      PrevTimesIsShift(index, length, k - 1);
      ModPred(index - k + 1, length);
    }
  }

  /** A full turn of `length` right-arrow clicks comes back to the start. */
  lemma NextCycle(index: int, length: int)
    requires InRange(index, length)
    ensures NextTimes(index, length, length) == index
    ensures forall k: nat :: 0 < k < length ==> NextTimes(index, length, k) != index
  {
    NextTimesIsShift(index, length, length);
    ModUnique(index + length, length, 1, index);
    forall k: nat | 0 < k < length
      ensures NextTimes(index, length, k) != index
    {
      NextTimesIsShift(index, length, k);
      if index + k < length {
        ModUnique(index + k, length, 0, index + k);
      } else {
        ModUnique(index + k, length, 1, index + k - length);
      }
    }
  }

  /** A full turn of `length` left-arrow clicks comes back to the start, and no shorter one does. */
  lemma PrevCycle(index: int, length: int)
    requires InRange(index, length)
    ensures PrevTimes(index, length, length) == index
    ensures forall k: nat :: 0 < k < length ==> PrevTimes(index, length, k) != index
  {
    PrevTimesIsShift(index, length, length);
    ModUnique(index - length, length, -1, index);
    forall k: nat | 0 < k < length
      ensures PrevTimes(index, length, k) != index
    {
      PrevTimesIsShift(index, length, k);
      if index - k >= 0 {
        ModUnique(index - k, length, 0, index - k);
      } else {
        ModUnique(index - k, length, -1, index - k + length);
      }
    }
  }

  /** Number of dot buttons: one for each of `movies.slice(0, 3)`. */
  function DotCount(length: nat): (n: nat)
    ensures n <= 3 && n <= length
    ensures n == 3 || n == length
  {
    if length < 3 then length else 3
  }

  const PosterBase: string := "https://image.tmdb.org/t/p/w300/"
  const DefaultAlt: string := "Movie Poster"

  /** What the carousel shows: a poster with its dots, or the empty-list message. */
  datatype SliderView =
    | Showing(posterUrl: string, altText: string, dots: seq<bool>)
    | NoFavourites

  /** The poster's `alt` text: the title, or a default when the title is empty. */
  function AltText(m: Movie): (r: string)
    ensures r != []
    ensures r == m.title || (m.title == [] && r == DefaultAlt)
  {
    if m.title != [] then m.title else DefaultAlt
  }

  /** The dot row: one flag per dot, true for the dot drawn as active. */
  function Dots(length: nat, index: int): (r: seq<bool>)
    ensures |r| == DotCount(length)
    ensures forall i :: 0 <= i < |r| ==> (r[i] <==> i == index)
  {
    seq(DotCount(length), i => i == index)
  }

  /**
   * The render as written: the poster lookup `movies[imageIndex]` runs
   * before the emptiness test, so an index outside the list throws
   * (None) and the empty-list branch is never reached.
   */
  function RenderAsWritten(movies: seq<Movie>, index: int): (r: Option<SliderView>)
    ensures r.Some? <==> InRange(index, |movies|)
    ensures r.Some? ==> r.value.Showing? && r.value.posterUrl == PosterBase + movies[index].posterPath
  {
    if !InRange(index, |movies|) then None
    else
      var m := movies[index];
      if |movies| > 0 then Some(Showing(PosterBase + m.posterPath, AltText(m), Dots(|movies|, index)))
      else Some(NoFavourites)
  }

  /** As written, an empty list always throws and the fallback is never shown. */
  lemma FallbackUnreachableAsWritten(movies: seq<Movie>, index: int)
    ensures RenderAsWritten(movies, index) != Some(NoFavourites)
    ensures movies == [] ==> RenderAsWritten(movies, index) == None
  {
  }

  /** The render with the emptiness test ahead of the poster lookup. */
  function Render(movies: seq<Movie>, index: int): (r: SliderView)
    requires |movies| > 0 ==> InRange(index, |movies|)
    ensures r.NoFavourites? <==> movies == []
    ensures r.Showing? ==> (r.posterUrl == PosterBase + movies[index].posterPath
                            && r.altText == AltText(movies[index])
                            && r.dots == Dots(|movies|, index))
  {
    if |movies| == 0 then NoFavourites
    else
      var m := movies[index];
      Showing(PosterBase + m.posterPath, AltText(m), Dots(|movies|, index))
  }

  /** Wherever the written render does not throw, the corrected one shows the same. */
  lemma RenderAgreesWithWritten(movies: seq<Movie>, index: int)
    requires |movies| > 0 ==> InRange(index, |movies|)
    ensures RenderAsWritten(movies, index).Some? ==> RenderAsWritten(movies, index).value == Render(movies, index)
    ensures movies != [] ==> RenderAsWritten(movies, index).Some?
  {
  }

  /** At most one dot is active, and one is exactly when the cursor is on one of the first three movies. */
  lemma ActiveDot(movies: seq<Movie>, index: int)
    requires InRange(index, |movies|)
    ensures var d := Render(movies, index).dots;
      (forall i, j :: 0 <= i < j < |d| ==> !(d[i] && d[j]))
      && ((exists i :: 0 <= i < |d| && d[i]) <==> index < 3)
  {
    var d := Render(movies, index).dots;
    if index < 3 {
      assert d[index];
    }
  }

  /** The component: its props and the three pieces of `useState` state. */
  class MovieSlider {
    const movies: seq<Movie>
    var imageIndex: int
    var leftHovered: bool
    var rightHovered: bool

    /** The cursor names a movie whenever there is one. */
    ghost predicate Valid()
      reads this
    {
      |movies| > 0 ==> InRange(imageIndex, |movies|)
    }

    constructor (movies: seq<Movie>)
      ensures this.movies == movies
      ensures imageIndex == 0 && !leftHovered && !rightHovered
      ensures Valid()
    {
      this.movies := movies;
      imageIndex := 0;
      leftHovered := false;
      rightHovered := false;
    }

    /** What is on screen for the current state. */
    function View(): SliderView
      reads this
      requires Valid()
    {
      Render(movies, imageIndex)
    }

    /** Right-arrow click. */
    method ShowNextMovie()
      requires Valid()
      modifies this`imageIndex
      ensures Valid()
      ensures imageIndex == NextIndex(old(imageIndex), |movies|)
    {
      imageIndex := NextIndex(imageIndex, |movies|);
    }

    /** Left-arrow click. */
    method ShowPrevMovie()
      requires Valid()
      modifies this`imageIndex
      ensures Valid()
      ensures imageIndex == PrevIndex(old(imageIndex), |movies|)
    {
      imageIndex := PrevIndex(imageIndex, |movies|);
    }

    /** Click on dot `index`; dots exist only for the first three movies. */
    method SelectDot(index: int)
      requires Valid()
      requires 0 <= index < DotCount(|movies|)
      modifies this`imageIndex
      ensures Valid()
      ensures imageIndex == index
      ensures View().Showing? && View().dots[index]
    {
      imageIndex := index;
    }

    /** Mouse entering or leaving the left arrow. */
    method SetLeftHovered(hovered: bool)
      modifies this`leftHovered
      ensures leftHovered == hovered
      ensures imageIndex == old(imageIndex) && rightHovered == old(rightHovered)
    {
      leftHovered := hovered;
    }

    /** Mouse entering or leaving the right arrow. */
    method SetRightHovered(hovered: bool)
      modifies this`rightHovered
      ensures rightHovered == hovered
      ensures imageIndex == old(imageIndex) && leftHovered == old(leftHovered)
    {
      rightHovered := hovered;
    }
  }
}
