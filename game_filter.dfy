/** What the public games list and the manager's games page share: the game
    record as the page's data attributes carry it, the clock, and the search
    and date tests both filter passes use. */
module GameFilter {
  import opened Wrappers
  import opened Text

  const MsPerDay: int := 86_400_000
  /** setDate(getDate() + 7) without daylight-saving shifts. */
  const MsPerWeek: int := 7 * MsPerDay

  /** One game item's data-title, data-location, data-date (None when
      `new Date(...)` gives an invalid date), data-status and data-available. */
  datatype Game = Game(title: string, location: string, date: Option<int>, status: string, available: string)

  /** `new Date()` as milliseconds, and the instant `setMonth(getMonth() + 1)`
      yields from it; calendar arithmetic is not part of this model. */
  datatype Clock = Clock(now: int, monthLater: int) {
    /** One calendar month ahead lies 28 to 31 days ahead. */
    predicate Plausible() {
      now + 28 * MsPerDay <= monthLater <= now + 31 * MsPerDay
    }
  }

  /** The calendar day toDateString() names, counted from the epoch. */
  function CalendarDay(t: int): int {
    t / MsPerDay
  }

  lemma {:induction false} NextCalendarDay(t: int)
    ensures CalendarDay(t + MsPerDay) == CalendarDay(t) + 1
  {
  }

  /** The search test: `term` is the lower-cased search box value; title and
      location are compared exactly as the data attributes carry them. */
  predicate SearchPasses(g: Game, term: string) {
    term == [] || Contains(g.title, term) || Contains(g.location, term)
  }

  /** The date names calendar day `day`; an invalid date renders as
      "Invalid Date" and names no day. */
  predicate OnDay(date: Option<int>, day: int) {
    date.Some? && CalendarDay(date.value) == day
  }

  /** The date lies in [lo, hi]; an invalid date makes both `<` and `>`
      false and is therefore never outside. */
  predicate NotOutside(date: Option<int>, lo: int, hi: int) {
    date.None? || lo <= date.value <= hi
  }

  /** A non-empty search term hides exactly the games whose title and
      location both lack it. */
  lemma {:induction false} SearchHidesIffAbsent(g: Game, term: string)
    requires term != []
    ensures !SearchPasses(g, term) <==> !Contains(g.title, term) && !Contains(g.location, term)
  {
  }

  /** Only the search box value is lower-cased: typing a capitalised title
      exactly as it is written does not find it. */
  lemma {:induction false} CapitalisedTitleNotFound()
    ensures !SearchPasses(Game("Park", "Park", None, "open", "true"), ToLower("Park"))
  {
    var term := ToLower("Park");
    assert term[0] == 'p';
    assert |term| == 4;
    forall i | 0 <= i <= 4
      ensures !OccursAt("Park", term, i)
    {
      if i == 0 {
        assert "Park"[0..4][0] != term[0];
      }
    }
  }
}
