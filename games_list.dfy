/** The public games list: one filter pass over the server-rendered game
    items, driven by the search box, the date filter and the availability
    filter, which hides items, counts the visible ones and shows the
    "no results" message. */
module GamesList {
  import opened Wrappers
  import opened Text
  import opened GameFilter

  /** The values of the three filter controls. */
  datatype Filters = Filters(search: string, date: string, availability: string)

  const NoFilters := Filters("", "", "")

  /** The date filter of the list: 'today' and 'tomorrow' compare calendar
      days, 'week' and 'month' a window starting at the current instant; any
      other value, the empty one included, lets every game through. */
  predicate DatePasses(range: string, date: Option<int>, clock: Clock) {
    match range
    case "today" => OnDay(date, CalendarDay(clock.now))
    case "tomorrow" => OnDay(date, CalendarDay(clock.now) + 1)
    case "week" => NotOutside(date, clock.now, clock.now + MsPerWeek)
    case "month" => NotOutside(date, clock.now, clock.monthLater)
    case _ => true
  }

  /** 'available' keeps games whose data-available is exactly "true", 'full'
      keeps every other game. */
  predicate AvailabilityPasses(choice: string, available: string) {
    match choice
    case "available" => available == "true"
    case "full" => available != "true"
    case _ => true
  }

  /** A game is shown iff it passes every filter. */
  predicate Shown(g: Game, f: Filters, clock: Clock) {
    && SearchPasses(g, ToLower(f.search))
    && DatePasses(f.date, g.date, clock)
    && AvailabilityPasses(f.availability, g.available)
  }

  /** The number of shown games. */
  function CountShown(games: seq<Game>, f: Filters, clock: Clock): (n: nat)
    ensures n <= |games|
  {
    if games == [] then 0
    else CountShown(games[..|games| - 1], f, clock) + (if Shown(games[|games| - 1], f, clock) then 1 else 0)
  }

  lemma {:induction false} CountShownZero(games: seq<Game>, f: Filters, clock: Clock)
    ensures CountShown(games, f, clock) == 0 <==> forall k :: 0 <= k < |games| ==> !Shown(games[k], f, clock)
  {
    if games != [] {
      var init := games[..|games| - 1];
      CountShownZero(init, f, clock);
      assert forall k :: 0 <= k < |init| ==> init[k] == games[k];
    }
  }

  lemma {:induction false} CountShownAll(games: seq<Game>, f: Filters, clock: Clock)
    requires forall k :: 0 <= k < |games| ==> Shown(games[k], f, clock)
    ensures CountShown(games, f, clock) == |games|
  {
    if games != [] {
      var init := games[..|games| - 1];
      assert forall k :: 0 <= k < |init| ==> init[k] == games[k];
      CountShownAll(init, f, clock);
    }
  }

  /** With every control empty, every game is shown. */
  lemma {:induction false} NoFiltersShowEverything(g: Game, clock: Clock)
    ensures Shown(g, NoFilters, clock)
  {
  }

  /** An invalid date passes 'week' and 'month' but not 'today' or 'tomorrow'. */
  lemma {:induction false} InvalidDate(clock: Clock)
    ensures DatePasses("week", None, clock) && DatePasses("month", None, clock)
    ensures !DatePasses("today", None, clock) && !DatePasses("tomorrow", None, clock)
  {
  }

  /** 'week' includes the instant seven days ahead and nothing after it. */
  lemma {:induction false} WeekBoundary(clock: Clock)
    ensures DatePasses("week", Some(clock.now + MsPerWeek), clock)
    ensures !DatePasses("week", Some(clock.now + MsPerWeek + 1), clock)
    ensures !DatePasses("week", Some(clock.now - 1), clock)
  {
  }

  /** 'week' is a sub-range of 'month'. */
  lemma {:induction false} WeekWithinMonth(date: Option<int>, clock: Clock)
    requires clock.Plausible()
    requires DatePasses("week", date, clock)
    ensures DatePasses("month", date, clock)
  {
  }

  /** A game earlier today is hidden by 'week' but shown by 'today': the
      window starts at the current instant, not at midnight. */
  lemma {:induction false} EarlierTodayQuirk(clock: Clock)
    requires clock.now % MsPerDay > 0
    ensures DatePasses("today", Some(clock.now - clock.now % MsPerDay), clock)
    ensures !DatePasses("week", Some(clock.now - clock.now % MsPerDay), clock)
  {
  }

  /** The body of filterGames' loop: the tests one item goes through. */
  method ItemShown(item: Game, f: Filters, searchTerm: string, clock: Clock) returns (show: bool)
    requires searchTerm == ToLower(f.search)
    ensures show == Shown(item, f, clock)
  {
    show := true;
    if searchTerm != [] {
      if !Contains(item.title, searchTerm) && !Contains(item.location, searchTerm) {
        show := false;
      }
    }
    if f.date != [] && show {
      var today := clock.now;
      var tomorrow := today + MsPerDay;
      NextCalendarDay(today);
      match f.date {
        case "today" =>
          if item.date.None? || CalendarDay(item.date.value) != CalendarDay(today) {
            show := false;
          }
        case "tomorrow" =>
          if item.date.None? || CalendarDay(item.date.value) != CalendarDay(tomorrow) {
            show := false;
          }
        case "week" =>
          var weekFromNow := today + MsPerWeek;
          if item.date.Some? && (item.date.value < today || item.date.value > weekFromNow) {
            show := false;
          }
        case "month" =>
          var monthFromNow := clock.monthLater;
          if item.date.Some? && (item.date.value < today || item.date.value > monthFromNow) {
            show := false;
          }
        case _ =>
      }
    }
    if f.availability != [] && show {
      var hasAvailableSpots := item.available == "true";
      if f.availability == "available" && !hasAvailableSpots {
        show := false;
      }
      if f.availability == "full" && hasAvailableSpots {
        show := false;
      }
    }
  }

  /** The games list page: the items are fixed at page load, `hidden[i]`
      is item i's 'hidden' class and `noResultsShown` is the absence of
      the no-results message's 'd-none' class. */
  class GamesListPage {
    const games: seq<Game>
    const hidden: array<bool>
    var filters: Filters
    var noResultsShown: bool

    ghost predicate Valid()
      reads this
    {
      hidden.Length == |games|
    }

    /** Page load: every item visible, the controls empty. */
    constructor (games: seq<Game>)
      ensures Valid() && fresh(hidden)
      ensures this.games == games && filters == NoFilters && !noResultsShown
      ensures forall i :: 0 <= i < |games| ==> !hidden[i]
    {
      this.games := games;
      hidden := new bool[|games|](_ => false);
      filters := NoFilters;
      noResultsShown := false;
    }

    /** filterGames: one pass over the items. */
    method FilterGames(clock: Clock) returns (visibleCount: nat)
      requires Valid()
      modifies hidden, this`noResultsShown
      ensures Valid()
      ensures forall i :: 0 <= i < |games| ==> hidden[i] == !Shown(games[i], filters, clock)
      ensures visibleCount == CountShown(games, filters, clock)
      ensures noResultsShown <==> visibleCount == 0 && |games| > 0
    {
      var searchTerm := ToLower(filters.search);
      visibleCount := 0;
      var i := 0;
      while i < |games|
        invariant 0 <= i <= |games|
        invariant forall k :: 0 <= k < i ==> hidden[k] == !Shown(games[k], filters, clock)
        invariant visibleCount == CountShown(games[..i], filters, clock)
      {
        var show := ItemShown(games[i], filters, searchTerm, clock);
        if show {
          hidden[i] := false;
          visibleCount := visibleCount + 1;
        } else {
          hidden[i] := true;
        }
        assert games[..i + 1][..i] == games[..i];
        i := i + 1;
      }
      assert games[..i] == games;
      noResultsShown := visibleCount == 0 && |games| > 0;
    }

    /** A filter control changed: store its value and run the pass. */
    method SetFilters(f: Filters, clock: Clock) returns (visibleCount: nat)
      requires Valid()
      modifies hidden, this`filters, this`noResultsShown
      ensures Valid() && filters == f
      ensures forall i :: 0 <= i < |games| ==> hidden[i] == !Shown(games[i], f, clock)
      ensures noResultsShown <==> |games| > 0 && forall i :: 0 <= i < |games| ==> hidden[i]
    {
      filters := f;
      visibleCount := FilterGames(clock);
      CountShownZero(games, filters, clock);
    }

    /** The clear-filters button: empty every control and run the pass. */
    method ClearFilters(clock: Clock) returns (visibleCount: nat)
      requires Valid()
      modifies hidden, this`filters, this`noResultsShown
      ensures Valid() && filters == NoFilters
      ensures forall i :: 0 <= i < |games| ==> !hidden[i]
      ensures visibleCount == |games| && !noResultsShown
    {
      filters := NoFilters;
      visibleCount := FilterGames(clock);
      forall k | 0 <= k < |games| ensures Shown(games[k], NoFilters, clock) {
        NoFiltersShowEverything(games[k], clock);
      }
      CountShownAll(games, NoFilters, clock);
    }

    /** Escape while the search box has focus empties the search term and
      runs the pass; any other key leaves the page alone. */
    method OnKeyDown(key: string, searchFocused: bool, clock: Clock)
      requires Valid()
      modifies hidden, this`filters, this`noResultsShown
      ensures Valid()
      ensures key == "Escape" && searchFocused ==>
        && filters == old(filters).(search := "")
        && (forall i :: 0 <= i < |games| ==> hidden[i] == !Shown(games[i], filters, clock))
        && (noResultsShown <==> CountShown(games, filters, clock) == 0 && |games| > 0)
      ensures !(key == "Escape" && searchFocused) ==>
        filters == old(filters) && noResultsShown == old(noResultsShown) && hidden[..] == old(hidden[..])
    {
      if key == "Escape" && searchFocused {
        filters := filters.(search := "");
        var _ := FilterGames(clock);
      }
    }
  }
}
