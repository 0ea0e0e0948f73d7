/** The manager's games page: the filter pass over table rows and cards,
    the clear-filters reset, the participants listing and its badge, the
    CSV export text, and the page's current game. */
module ManageGames {
  import opened Wrappers
  import opened Text
  import opened GameFilter

  /** The values of the four controls; `sortBy` is read by the pass but
      never applied. */
  datatype Filters = Filters(search: string, status: string, dateRange: string, sortBy: string)

  /** The date filter of the manager's page: 'future' and 'past' split at
      the current instant; an invalid date passes both. */
  predicate DatePasses(range: string, date: Option<int>, clock: Clock) {
    match range
    case "today" => OnDay(date, CalendarDay(clock.now))
    case "week" => NotOutside(date, clock.now, clock.now + MsPerWeek)
    case "month" => NotOutside(date, clock.now, clock.monthLater)
    case "future" => date.None? || date.value > clock.now
    case "past" => date.None? || date.value <= clock.now
    case _ => true
  }

  /** The status filter is exact equality against data-status. */
  predicate StatusPasses(choice: string, status: string) {
    choice == [] || status == choice
  }

  predicate Shown(g: Game, f: Filters, clock: Clock) {
    && SearchPasses(g, ToLower(f.search))
    && StatusPasses(f.status, g.status)
    && DatePasses(f.dateRange, g.date, clock)
  }

  /** The sort control never affects which games are shown. */
  lemma {:induction false} SortIgnored(g: Game, f: Filters, sortBy: string, clock: Clock)
    ensures Shown(g, f.(sortBy := sortBy), clock) == Shown(g, f, clock)
  {
  }

  /** Every valid date is exactly one of 'future' and 'past'; an invalid one is both. */
  lemma {:induction false} FuturePastPartition(date: Option<int>, clock: Clock)
    ensures date.Some? ==> DatePasses("future", date, clock) != DatePasses("past", date, clock)
    ensures date.None? ==> DatePasses("future", date, clock) && DatePasses("past", date, clock)
  {
  }

  /** 'week' is the window from the current instant to seven days ahead. */
  lemma {:induction false} WeekWindow(t: int, clock: Clock)
    ensures DatePasses("week", Some(t), clock) <==> clock.now <= t <= clock.now + MsPerWeek
  {
  }

  /** The page: `rowHidden`/`cardHidden` are the 'hidden' classes of the
      table rows and the cards, which carry the same data attributes. */
  class ManageGamesPage {
    const rows: seq<Game>
    const cards: seq<Game>
    const rowHidden: array<bool>
    const cardHidden: array<bool>
    var filters: Filters
    var currentGameId: Option<string>

    ghost predicate Valid()
      reads this
    {
      rowHidden.Length == |rows| && cardHidden.Length == |cards| && rowHidden != cardHidden
    }

    constructor (rows: seq<Game>, cards: seq<Game>, sortBy: string)
      ensures Valid() && fresh(rowHidden) && fresh(cardHidden)
      ensures this.rows == rows && this.cards == cards
      ensures filters == Filters("", "", "", sortBy) && currentGameId == None
      ensures forall i :: 0 <= i < |rows| ==> !rowHidden[i]
      ensures forall i :: 0 <= i < |cards| ==> !cardHidden[i]
    {
      this.rows := rows;
      this.cards := cards;
      rowHidden := new bool[|rows|](_ => false);
      cardHidden := new bool[|cards|](_ => false);
      filters := Filters("", "", "", sortBy);
      currentGameId := None;
    }

    /** filterAndSortGames: one pass over the rows followed by the cards. */
    method FilterAndSortGames(clock: Clock)
      requires Valid()
      modifies rowHidden, cardHidden
      ensures Valid()
      ensures forall i :: 0 <= i < |rows| ==> rowHidden[i] == !Shown(rows[i], filters, clock)
      ensures forall i :: 0 <= i < |cards| ==> cardHidden[i] == !Shown(cards[i], filters, clock)
      ensures forall i, j :: 0 <= i < |rows| && 0 <= j < |cards| && rows[i] == cards[j] ==>
        rowHidden[i] == cardHidden[j]
    {
      var searchTerm := ToLower(filters.search);
      var statusValue := filters.status;
      var dateRangeValue := filters.dateRange;
      var sortValue := filters.sortBy;
      var items := rows + cards;
      var i := 0;
      while i < |items|
        invariant 0 <= i <= |items|
        invariant forall k :: 0 <= k < |rows| && k < i ==> rowHidden[k] == !Shown(rows[k], filters, clock)
        invariant forall k :: 0 <= k < |cards| && |rows| + k < i ==> cardHidden[k] == !Shown(cards[k], filters, clock)
      {
        var item := items[i];
        var show := true;
        if searchTerm != [] {
          if !Contains(item.title, searchTerm) && !Contains(item.location, searchTerm) {
            show := false;
          }
        }
        if statusValue != [] && item.status != statusValue {
          show := false;
        }
        if dateRangeValue != [] && show {
          var today := clock.now;
          match dateRangeValue {
            case "today" =>
              if item.date.None? || CalendarDay(item.date.value) != CalendarDay(today) {
                show := false;
              }
            case "week" =>
              var weekFromNow := today + MsPerWeek;
              if item.date.Some? && (item.date.value < today || item.date.value > weekFromNow) {
                show := false;
              }
            case "month" =>
              var monthFromNow := clock.monthLater;
              if item.date.Some? && (item.date.value < today || item.date.value > monthFromNow) {
                show := false;
              }
            case "future" =>
              if item.date.Some? && item.date.value <= today {
                show := false;
              }
            case "past" =>
              if item.date.Some? && item.date.value > today {
                show := false;
              }
            case _ =>
          }
        }
        assert show == Shown(item, filters, clock);
        if i < |rows| {
          rowHidden[i] := !show;
        } else {
          cardHidden[i - |rows|] := !show;
        }
        i := i + 1;
      }
    }

    /** The clear-filters button: empty search, status and date, sort by
      'date_desc', and run the pass; every row and card is then visible. */
    method ClearFilters(clock: Clock)
      requires Valid()
      modifies this`filters, rowHidden, cardHidden
      ensures Valid() && filters == Filters("", "", "", "date_desc")
      ensures forall i :: 0 <= i < |rows| ==> !rowHidden[i]
      ensures forall i :: 0 <= i < |cards| ==> !cardHidden[i]
    {
      filters := Filters("", "", "", "date_desc");
      FilterAndSortGames(clock);
    }

    /** Escape while the search box has focus empties the search term and
      runs the pass. */
    method OnKeyDown(key: string, searchFocused: bool, clock: Clock)
      requires Valid()
      modifies this`filters, rowHidden, cardHidden
      ensures Valid()
      ensures filters == if key == "Escape" && searchFocused then old(filters).(search := "") else old(filters)
      ensures key == "Escape" && searchFocused ==>
        && (forall i :: 0 <= i < |rows| ==> rowHidden[i] == !Shown(rows[i], filters, clock))
        && (forall i :: 0 <= i < |cards| ==> cardHidden[i] == !Shown(cards[i], filters, clock))
      ensures !(key == "Escape" && searchFocused) ==>
        rowHidden[..] == old(rowHidden[..]) && cardHidden[..] == old(cardHidden[..])
    {
      if key == "Escape" && searchFocused {
        filters := filters.(search := "");
        FilterAndSortGames(clock);
      }
    }

    /** A participants or cancel button was clicked: it becomes the current game. */
    method SelectGame(gameId: string)
      modifies this`currentGameId
      ensures currentGameId == Some(gameId)
    {
      currentGameId := Some(gameId);
    }

    /** The export button fetches the current game's registrations only when
      a non-empty game id is current. */
    function ExportTarget(): (target: Option<string>)
      reads this
      ensures target.Some? <==> currentGameId.Some? && currentGameId.value != ""
      ensures target.Some? ==> target.value == currentGameId.value
    {
      if currentGameId.Some? && currentGameId.value != "" then currentGameId else None
    }
  }

  /** One registration as the registrations API returns it;
      `registrationDate` is its registration time already rendered as a
      date string. */
  datatype Participant = Participant(
    firstName: string, lastName: string, username: string, positionName: string, registrationDate: string)

  /** Team A players get the red badge, everybody else the light-blue one. */
  function BadgeClass(positionName: string): (cls: string)
    ensures cls == "bg-danger" <==> StartsWith(positionName, "Team A")
    ensures cls == "bg-danger" || cls == "bg-info"
  {
    if StartsWith(positionName, "Team A") then "bg-danger" else "bg-info"
  }

  datatype Entry = Entry(fullName: string, handle: string, badge: string, position: string, registered: string)

  /** What the participants dialog shows for a loaded list. */
  datatype ParticipantsView = NoParticipants | Listing(entries: seq<Entry>)

  function RenderParticipants(ps: seq<Participant>): (v: ParticipantsView)
    ensures v.NoParticipants? <==> ps == []
    ensures v.Listing? ==> |v.entries| == |ps|
    ensures v.Listing? ==> forall i :: 0 <= i < |ps| ==>
      && v.entries[i].fullName == ps[i].firstName + " " + ps[i].lastName
      && v.entries[i].handle == "@" + ps[i].username
      && (v.entries[i].badge == "bg-danger" <==> StartsWith(ps[i].positionName, "Team A"))
      && v.entries[i].position == ps[i].positionName
      && v.entries[i].registered == ps[i].registrationDate
  {
    if ps == [] then NoParticipants
    else Listing(seq(|ps|, i requires 0 <= i < |ps| =>
      Entry(ps[i].firstName + " " + ps[i].lastName, "@" + ps[i].username,
            BadgeClass(ps[i].positionName), ps[i].positionName, ps[i].registrationDate)))
  }

  /** The CSV header: first name, last name, username, position, registration date. */
  const CsvHeader: seq<string> := ["שם פרטי", "שם משפחה", "שם משתמש", "תפקיד", "תאריך הרשמה"]

  function CsvFields(p: Participant): seq<string> {
    [p.firstName, p.lastName, p.username, p.positionName, p.registrationDate]
  }

  function CsvLines(ps: seq<Participant>): (lines: seq<string>)
    ensures |lines| == |ps|
    ensures forall i :: 0 <= i < |ps| ==> lines[i] == Join(CsvFields(ps[i]), ",")
  {
    if ps == [] then [] else [Join(CsvFields(ps[0]), ",")] + CsvLines(ps[1..])
  }

  /** exportToCSV's text: the header row, then one row per participant;
      fields are joined by ',' and rows by '\n' without any quoting. */
  function ExportToCsv(ps: seq<Participant>): string {
    Join([Join(CsvHeader, ",")] + CsvLines(ps), "\n")
  }

  /** The file name of the download. */
  function ExportFileName(gameId: string): string {
    "participants_game_" + gameId + ".csv"
  }

  predicate CleanField(f: string) {
    ',' !in f && '\n' !in f
  }

  lemma {:induction false} JoinFieldsNoNewline(fields: seq<string>)
    requires forall k :: 0 <= k < |fields| ==> '\n' !in fields[k]
    ensures '\n' !in Join(fields, ",")
  {
    if |fields| > 1 {
      JoinFieldsNoNewline(fields[1..]);
    }
  }

  predicate CleanParticipant(p: Participant) {
    forall k :: 0 <= k < 5 ==> CleanField(CsvFields(p)[k])
  }

  lemma {:induction false} CsvLinesHaveNoNewline(ps: seq<Participant>)
    requires forall i :: 0 <= i < |ps| ==> CleanParticipant(ps[i])
    ensures forall k :: 0 <= k < |ps| ==> '\n' !in CsvLines(ps)[k]
  {
    forall k | 0 <= k < |ps| ensures '\n' !in CsvLines(ps)[k] {
      JoinFieldsNoNewline(CsvFields(ps[k]));
    }
  }

  function CsvAllLines(ps: seq<Participant>): seq<string> {
    [Join(CsvHeader, ",")] + CsvLines(ps)
  }

  lemma {:induction false} CsvAllLinesHaveNoNewline(ps: seq<Participant>)
    requires forall i :: 0 <= i < |ps| ==> CleanParticipant(ps[i])
    ensures forall k :: 0 <= k < |CsvAllLines(ps)| ==> '\n' !in CsvAllLines(ps)[k]
  {
    var body := CsvLines(ps);
    var lines := CsvAllLines(ps);
    JoinFieldsNoNewline(CsvHeader);
    CsvLinesHaveNoNewline(ps);
    forall k | 0 <= k < |lines| ensures '\n' !in lines[k] {
      if k > 0 {
        assert lines[k] == body[k - 1];
      }
    }
  }

  lemma {:induction false} CsvSplitsIntoLines(ps: seq<Participant>)
    requires forall i :: 0 <= i < |ps| ==> CleanParticipant(ps[i])
    ensures Split(ExportToCsv(ps), '\n') == CsvAllLines(ps)
  {
    var lines := CsvAllLines(ps);
    assert ExportToCsv(ps) == Join(lines, "\n");
    CsvAllLinesHaveNoNewline(ps);
    SplitJoin(lines, '\n');
  }

  lemma {:induction false} CsvLinesSplitIntoFields(ps: seq<Participant>)
    requires forall i :: 0 <= i < |ps| ==> CleanParticipant(ps[i])
    ensures forall i :: 0 <= i < |ps| ==> Split(CsvLines(ps)[i], ',') == CsvFields(ps[i])
  {
    forall i | 0 <= i < |ps| ensures Split(CsvLines(ps)[i], ',') == CsvFields(ps[i]) {
      SplitJoin(CsvFields(ps[i]), ',');
    }
  }

  /** When no field holds a comma or a line break, the export splits back
      into the header and exactly one line per participant, in input order,
      each of which splits back into that participant's five fields. */
  lemma {:induction false} CsvRoundTrip(ps: seq<Participant>)
    requires forall i :: 0 <= i < |ps| ==> CleanParticipant(ps[i])
    ensures Split(ExportToCsv(ps), '\n') == [Join(CsvHeader, ",")] + CsvLines(ps)
    ensures forall i :: 0 <= i < |ps| ==> Split(Split(ExportToCsv(ps), '\n')[i + 1], ',') == CsvFields(ps[i])
  {
    CsvSplitsIntoLines(ps);
    CsvLinesSplitIntoFields(ps);
    var lines := CsvAllLines(ps);
    assert forall i :: 0 <= i < |ps| ==> lines[i + 1] == CsvLines(ps)[i];
  }

  /** Without quoting, a comma inside a field adds a column: the row of a
      participant whose first name holds one comma (and no other field
      holds any) reads back as six fields, the name cut in two. */
  lemma {:induction false} CommaInNameAddsColumn(p: Participant, before: string, after: string)
    requires p.firstName == before + "," + after
    requires ',' !in before && ',' !in after
    requires forall k :: 1 <= k < 5 ==> ',' !in CsvFields(p)[k]
    ensures Split(Join(CsvFields(p), ","), ',') ==
      [before, after, p.lastName, p.username, p.positionName, p.registrationDate]
  {
    var others := [p.lastName, p.username, p.positionName, p.registrationDate];
    var cells := [before, after, p.lastName, p.username, p.positionName, p.registrationDate];
    assert CsvFields(p) == [p.firstName] + others;
    CellsCons(before, after, others);
    var rest := Join(others, ",");
    calc {
      Join(CsvFields(p), ",");
      Join([p.firstName] + others, ",");
      { JoinCons(p.firstName, others, ","); }
      p.firstName + "," + rest;
      before + "," + (after + "," + rest);
      { JoinCons(after, others, ","); }
      before + "," + Join([after] + others, ",");
      { JoinCons(before, [after] + others, ","); }
      Join(cells, ",");
    }
    forall k | 0 <= k < |cells| ensures ',' !in cells[k] {
      if k >= 2 {
        assert cells[k] == CsvFields(p)[k - 1];
      }
    }
    SplitJoin(cells, ',');
  }

  lemma {:induction false} CellsCons(a: string, b: string, others: seq<string>)
    requires |others| == 4
    ensures [a] + ([b] + others) == [a, b, others[0], others[1], others[2], others[3]]
  {
  }
}
