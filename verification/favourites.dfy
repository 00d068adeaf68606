/**
 The favourites screen (app/ui/screens/Favourites.tsx) as a reducer. Its state
 is the list of movies shown, a loading flag and a page counter. Two kinds of
 event drive it: the screen gaining focus, and the outcome of a favourites
 request for a given page. The outcome of the request is an input here. Each
 step may also issue a new request, for a page number.
 */
module Favourites {
  import opened Wrappers

  /** A favourite as the backend returns it; the fields are only displayed. */
  datatype Movie = Movie(
    idMovie: string,
    title: string,
    subtitle: string,
    genres: seq<string>,
    releaseDate: string,
    rating: real,
    adult: bool,
    images: string)

  datatype State = State(movies: seq<Movie>, loading: bool, page: int)

  /** What a favourites request for one page came back with: a `results`
      array (possibly empty), a reply without one, a 403, or any other error. */
  datatype Outcome = Results(results: seq<Movie>) | NoResults | Forbidden | Failed

  datatype Event = Focus | Response(pageNumber: int, outcome: Outcome)

  /** The state after a step, and the page requested by it, if any. */
  datatype Transition = Transition(next: State, request: Option<int>)

  /** The state the screen is mounted with. */
  const Initial: State := State([], true, 1)

  /** What the screen renders. */
  datatype Screen = Spinner | NoFavourites | MovieList(items: seq<Movie>)

  /** The page a step asks for: page 1 on focus, and the same page again
      after a 403 (once a token refresh has been attempted,
      whether or not it succeeded). */
  function Request(e: Event): (r: Option<int>)
    ensures r.Some? <==> e.Focus? || e.outcome.Forbidden?
    ensures e.Focus? ==> r == Some(1)
    ensures e.Response? && r.Some? ==> r.value == e.pageNumber
  {
    match e
    case Focus => Some(1)
    case Response(n, Forbidden) => Some(n)
    case Response(_, _) => None
  }

  /** The focus listener: whatever was shown before, the list is emptied,
      the spinner turns on, the page counter goes back to 1 and page 1 is
      requested. */
  function OnFocus(s: State): (t: Transition)
    ensures t.next.movies == [] && t.next.loading && t.next.page == 1
    ensures t.request == Some(1)
  {
    Transition(Initial, Request(Focus))
  }

  /** `fetchFavorites` once the request for page `n` has settled. */
  function OnResponse(s: State, n: int, o: Outcome): (t: Transition)
    // results are appended after what is shown, both in their order
    ensures o.Results? ==> |t.next.movies| == |s.movies| + |o.results|
    ensures o.Results? ==> t.next.movies[..|s.movies|] == s.movies
    ensures o.Results? ==> t.next.movies[|s.movies|..] == o.results
    ensures o.Results? ==> t.next.page == n + 1
    // a 403 changes nothing and asks for the same page again
    ensures o.Forbidden? ==> t.next == s && t.request == Some(n)
    // every other outcome ends loading and keeps list and page
    ensures !o.Forbidden? ==> !t.next.loading && t.request.None?
    ensures !o.Results? ==> t.next.movies == s.movies && t.next.page == s.page
  {
    match o
    case Results(rs) => Transition(State(s.movies + rs, false, n + 1), Request(Response(n, o)))
    case NoResults => Transition(s.(loading := false), Request(Response(n, o)))
    case Forbidden => Transition(s, Request(Response(n, o)))
    case Failed => Transition(s.(loading := false), Request(Response(n, o)))
  }

  /** One event: focus or the settled request. */
  function Step(s: State, e: Event): (t: Transition)
    ensures t.request == Request(e)
    ensures e.Focus? ==> t.next == Initial
  {
    match e
    case Focus => OnFocus(s)
    case Response(n, o) => OnResponse(s, n, o)
  }

  /** The state after the events of `evs`, in order. */
  function Run(s: State, evs: seq<Event>): State
    decreases |evs|
  {
    if |evs| == 0 then s
    else Step(Run(s, evs[..|evs| - 1]), evs[|evs| - 1]).next
  }

  /** The pages requested along `evs`, in order. */
  function Requests(evs: seq<Event>): seq<int>
  {
    if |evs| == 0 then []
    else
      var prev := Requests(evs[..|evs| - 1]);
      match Request(evs[|evs| - 1])
      case Some(p) => prev + [p]
      case None => prev
  }

  /** The movies one event delivers: the results of a successful reply. */
  function Gained(e: Event): seq<Movie>
  {
    match e
    case Response(_, Results(rs)) => rs
    case _ => []
  }

  /** Every movie a successful reply along `evs` delivered, in order. */
  function Delivered(evs: seq<Event>): seq<Movie>
  {
    if |evs| == 0 then [] else Delivered(evs[..|evs| - 1]) + Gained(evs[|evs| - 1])
  }

  /** `Response`s only answer requests the screen made before them. */
  predicate Answered(evs: seq<Event>) {
    forall i :: 0 <= i < |evs| && evs[i].Response? ==> evs[i].pageNumber in Requests(evs[..i])
  }

  /** The render: the spinner while loading, the "no favourites" screen when
      loading has ended with nothing to show, and the list otherwise. The list
      is only rendered once loading is over, so its spinner footer never shows. */
  function View(s: State): (v: Screen)
    ensures v.Spinner? <==> s.loading
    ensures v.NoFavourites? <==> !s.loading && |s.movies| == 0
    ensures v.MovieList? <==> !s.loading && |s.movies| > 0
    ensures v.MovieList? ==> v.items == s.movies
  {
    if s.loading then Spinner
    else if |s.movies| == 0 then NoFavourites
    else MovieList(s.movies)
  }

  /** One more event: a focus empties the list, anything else appends what
      the event delivered. */
  lemma RunLast(s: State, evs: seq<Event>)
    requires |evs| > 0
    ensures var e := evs[|evs| - 1];
      Run(s, evs).movies == if e.Focus? then [] else Run(s, evs[..|evs| - 1]).movies + Gained(e)
  {
  }

  /** With no focus event, the list is the earlier list followed by
      everything delivered. */
  lemma {:induction false} FocusFreeAppends(s: State, evs: seq<Event>)
    requires forall i :: 0 <= i < |evs| ==> !evs[i].Focus?
    ensures Run(s, evs).movies == s.movies + Delivered(evs)
    decreases |evs|
  {
    if |evs| > 0 {
      var pre := evs[..|evs| - 1];
      var e := evs[|evs| - 1];
      FocusFreeAppends(s, pre);
      RunLast(s, evs);
      var a := Run(s, pre).movies;
      var d := Delivered(pre);
      assert a == s.movies + d;
      assert Run(s, evs).movies == a + Gained(e);
      assert Delivered(evs) == d + Gained(e);
      assert (s.movies + d) + Gained(e) == s.movies + (d + Gained(e));
    }
  }

  /** Running two traces one after the other is running their concatenation. */
  lemma {:induction false} RunConcat(s: State, a: seq<Event>, b: seq<Event>)
    ensures Run(s, a + b) == Run(Run(s, a), b)
    decreases |b|
  {
    if |b| == 0 {
      assert a + b == a;
    } else {
      var ab := a + b;
      assert ab[..|ab| - 1] == a + b[..|b| - 1];
      assert ab[|ab| - 1] == b[|b| - 1];
      RunConcat(s, a, b[..|b| - 1]);
    }
  }

  /** After a focus event followed only by replies, the list shown is exactly
      what those replies delivered: nothing from before the focus survives. */
  lemma MoviesSinceFocus(s: State, before: seq<Event>, after: seq<Event>)
    requires forall i :: 0 <= i < |after| ==> !after[i].Focus?
    ensures Run(s, before + [Focus] + after).movies == Delivered(after)
  {
    var mid := Run(s, before + [Focus]);
    RunConcat(s, before + [Focus], after);
    RunConcat(s, before, [Focus]);
    assert Run(Run(s, before), [Focus]) == Initial;
    FocusFreeAppends(mid, after);
  }

  /** Without a focus event the list only grows, and what was shown stays a
      prefix of it. */
  lemma ListOnlyGrows(s: State, evs: seq<Event>)
    requires forall i :: 0 <= i < |evs| ==> !evs[i].Focus?
    ensures s.movies <= Run(s, evs).movies
    ensures |s.movies| <= |Run(s, evs).movies|
  {
    FocusFreeAppends(s, evs);
  }

  /** When replies only answer earlier requests, the screen only ever asks for
      page 1: the page counter is stored but never used for a request. */
  lemma {:induction false} OnlyFirstPageRequested(evs: seq<Event>)
    requires Answered(evs)
    ensures forall j :: 0 <= j < |Requests(evs)| ==> Requests(evs)[j] == 1
    decreases |evs|
  {
    if |evs| > 0 {
      var pre := evs[..|evs| - 1];
      forall i | 0 <= i < |pre| && pre[i].Response?
        ensures pre[i].pageNumber in Requests(pre[..i])
      {
        assert pre[..i] == evs[..i];
      }
      OnlyFirstPageRequested(pre);
      var e := evs[|evs| - 1];
      if e.Response? {
        assert evs[..|evs| - 1] == pre;
      }
    }
  }

  /** From the initial state, with replies only to earlier requests, the page
      counter is 1 or 2: it never moves past the second page. */
  lemma {:induction false} PageNeverPastTwo(evs: seq<Event>)
    requires Answered(evs)
    ensures Run(Initial, evs).page in {1, 2}
    decreases |evs|
  {
    if |evs| > 0 {
      var pre := evs[..|evs| - 1];
      forall i | 0 <= i < |pre| && pre[i].Response?
        ensures pre[i].pageNumber in Requests(pre[..i])
      {
        assert pre[..i] == evs[..i];
      }
      PageNeverPastTwo(pre);
      var e := evs[|evs| - 1];
      if e.Response? {
        OnlyFirstPageRequested(pre);
        assert evs[..|evs| - 1] == pre;
      }
    }
  }

  /** After a focus event the spinner stays up for as long as every reply is a
      403: retries never end loading on their own. */
  lemma {:induction false} SpinnerWhileRetrying(s: State, evs: seq<Event>)
    requires |evs| >= 1 && evs[0].Focus?
    requires forall i :: 1 <= i < |evs| ==> evs[i].Response? && evs[i].outcome.Forbidden?
    ensures View(Run(s, evs)) == Spinner
    ensures Run(s, evs).movies == [] && Run(s, evs).page == 1
    decreases |evs|
  {
    if |evs| > 1 {
      var pre := evs[..|evs| - 1];
      SpinnerWhileRetrying(s, pre);
    } else {
      assert evs[..0] == [];
    }
  }
}
