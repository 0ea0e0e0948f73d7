/** The Flask views' own decisions: the login and manager gates, the free
    player spots of a game, the registrations grouped by position, the
    dashboard statistics, and the checks the register, create_game and
    chatbot endpoints make before they call the database or the model
    server. */
module AppViews {
  import opened Wrappers
  import opened Text
  import opened TemplateFilters
  import Register

  // ---------------------------------------------------------------------
  // Access control

  /** The keys the views read from the Flask session. */
  datatype Session = Session(userId: Option<int>, userType: Option<string>)

  predicate IsLoggedIn(s: Session) { s.userId.Some? }

  predicate IsManager(s: Session) { s.userType == Some("manager") }

  const LoginFirstMessage := "עליך להתחבר כדי לגשת לעמוד זה"
  const ManagersOnlyMessage := "אין לך הרשאה לגשת לעמוד זה - דרושות הרשאות מנהל"

  /** What a decorated view does: redirect with a flashed error, or run. */
  datatype Gate = RedirectToLogin(message: string) | RedirectToIndex(message: string) | RunView

  function LoginRequired(s: Session): (g: Gate)
    ensures g == RunView <==> IsLoggedIn(s)
    ensures g != RunView ==> g == RedirectToLogin(LoginFirstMessage)
  {
    if !IsLoggedIn(s) then RedirectToLogin(LoginFirstMessage) else RunView
  }

  /** The login test comes first, so a visitor who is not logged in is sent
      to the login page whatever the session's user type says. */
  function ManagerRequired(s: Session): (g: Gate)
    ensures g == RunView <==> IsLoggedIn(s) && IsManager(s)
    ensures g.RedirectToLogin? <==> !IsLoggedIn(s)
    ensures g.RedirectToIndex? <==> IsLoggedIn(s) && !IsManager(s)
    ensures g.RedirectToLogin? ==> g.message == LoginFirstMessage
    ensures g.RedirectToIndex? ==> g.message == ManagersOnlyMessage
  {
    if !IsLoggedIn(s) then RedirectToLogin(LoginFirstMessage)
    else if !IsManager(s) then RedirectToIndex(ManagersOnlyMessage)
    else RunView
  }

  /** Every view the manager gate lets through, the login gate lets
      through too. */
  lemma {:induction false} ManagerGateIsStricter(s: Session)
    ensures ManagerRequired(s) == RunView ==> LoginRequired(s) == RunView
    ensures LoginRequired(s) != RunView ==> ManagerRequired(s) == LoginRequired(s)
  {
  }

  // ---------------------------------------------------------------------
  // Registrations and free spots

  /** A row of get_game_registrations, as far as the views read it. */
  datatype Registration = Registration(userId: int, positionName: string)

  /** A registration that takes a place in one of the two teams. */
  predicate IsPlayer(r: Registration) {
    StartsWith(r.positionName, "Team A") || StartsWith(r.positionName, "Team B")
  }

  /** The list comprehension of player registrations. */
  function Players(regs: seq<Registration>): (ps: seq<Registration>)
    ensures |ps| <= |regs|
    ensures forall x :: x in ps <==> x in regs && IsPlayer(x)
  {
    if regs == [] then []
    else
      var init := regs[..|regs| - 1];
      var last := regs[|regs| - 1];
      assert regs == init + [last];
      Players(init) + (if IsPlayer(last) then [last] else [])
  }

  /** available_spots: ten minus the player registrations, not clamped. */
  function AvailableSpots(regs: seq<Registration>): (n: int)
    ensures 10 - |regs| <= n <= 10
    ensures n == 10 <==> forall k :: 0 <= k < |regs| ==> !IsPlayer(regs[k])
  {
    var ps := Players(regs);
    assert ps != [] ==> ps[0] in ps;
    10 - |ps|
  }

  /** One more registration takes a spot exactly when it is a player's. */
  lemma {:induction false} AvailableSpotsAppend(regs: seq<Registration>, r: Registration)
    ensures AvailableSpots(regs + [r]) == AvailableSpots(regs) - (if IsPlayer(r) then 1 else 0)
  {
    assert (regs + [r])[..|regs|] == regs;
  }

  /** Eleven players leave -1 free spots: the count is not clamped at zero. */
  lemma {:induction false} AvailableSpotsCanBeNegative(r: Registration)
    requires IsPlayer(r)
    ensures AvailableSpots(seq(11, _ => r)) == -1
  {
    SpotsOfRepeated(r, 11);
  }

  lemma {:induction false} SpotsOfRepeated(r: Registration, k: nat)
    requires IsPlayer(r)
    ensures AvailableSpots(seq(k, _ => r)) == 10 - k
  {
    if k > 0 {
      SpotsOfRepeated(r, k - 1);
      assert seq(k, _ => r) == seq(k - 1, _ => r) + [r];
      AvailableSpotsAppend(seq(k - 1, _ => r), r);
    }
  }

  /** A game dict as the views read and extend it. */
  datatype GameRow = GameRow(
    gameId: int, createdBy: int, status: string,
    registrations: Option<seq<Registration>>,
    registrationsCount: Option<int>,
    availableSpots: Option<int>)

  /** The fields index() and games_list() add to one game; games_list also
      attaches the registrations themselves. */
  function WithSpots(g: GameRow, regs: seq<Registration>, attachList: bool): (r: GameRow)
    ensures r.registrationsCount.Some? && r.availableSpots.Some?
    ensures 10 - r.registrationsCount.value <= r.availableSpots.value <= 10
  {
    g.(registrations := if attachList then Some(regs) else g.registrations,
       registrationsCount := Some(|regs|),
       availableSpots := Some(AvailableSpots(regs)))
  }

  /** The loop of index() (attachList false) and games_list() (true) over
      the open games, updating each game dict in place. */
  method AnnotateGames(games: array<GameRow>, registrationsOf: int -> seq<Registration>, attachList: bool)
    modifies games
    ensures forall i :: 0 <= i < games.Length ==>
      games[i] == WithSpots(old(games[i]), registrationsOf(old(games[i]).gameId), attachList)
    ensures forall i :: 0 <= i < games.Length ==>
      && games[i].registrationsCount.Some? && games[i].availableSpots.Some?
      && 10 - games[i].registrationsCount.value <= games[i].availableSpots.value <= 10
  {
    for i := 0 to games.Length
      invariant forall j :: 0 <= j < i ==>
        games[j] == WithSpots(old(games[j]), registrationsOf(old(games[j]).gameId), attachList)
      invariant forall j :: i <= j < games.Length ==> games[j] == old(games[j])
    {
      var regs := registrationsOf(games[i].gameId);
      games[i] := WithSpots(games[i], regs, attachList);
    }
  }

  // ---------------------------------------------------------------------
  // Grouping by position (game_detail)

  /** The position names that occur in `regs`. */
  function Positions(regs: seq<Registration>): set<string> {
    if regs == [] then {}
    else Positions(regs[..|regs| - 1]) + {regs[|regs| - 1].positionName}
  }

  /** The position names in order of first occurrence: the key order of the
      dict the loop builds. */
  function FirstSeen(regs: seq<Registration>): seq<string> {
    if regs == [] then []
    else
      var init := FirstSeen(regs[..|regs| - 1]);
      var p := regs[|regs| - 1].positionName;
      if p in init then init else init + [p]
  }

  /** The key order lists each position that occurs, once. */
  lemma {:induction false} FirstSeenLists(regs: seq<Registration>)
    ensures forall p :: p in FirstSeen(regs) <==> p in Positions(regs)
    ensures forall i, j :: 0 <= i < j < |FirstSeen(regs)| ==> FirstSeen(regs)[i] != FirstSeen(regs)[j]
  {
    if regs != [] {
      FirstSeenLists(regs[..|regs| - 1]);
    }
  }

  /** The registrations for position `p`, in input order. */
  function WithPosition(regs: seq<Registration>, p: string): seq<Registration> {
    if regs == [] then []
    else
      var last := regs[|regs| - 1];
      WithPosition(regs[..|regs| - 1], p) + (if last.positionName == p then [last] else [])
  }

  /** The group of `p` holds exactly the registrations for `p`. */
  lemma {:induction false} WithPositionMembers(regs: seq<Registration>, p: string)
    ensures |WithPosition(regs, p)| <= |regs|
    ensures forall x :: x in WithPosition(regs, p) <==> x in regs && x.positionName == p
  {
    if regs != [] {
      var init := regs[..|regs| - 1];
      assert regs == init + [regs[|regs| - 1]];
      WithPositionMembers(init, p);
    }
  }

  /** The grouping loop of game_detail(): `groups` is the dict and `order`
      its key order. */
  method GroupByPosition(regs: seq<Registration>) returns (groups: map<string, seq<Registration>>, order: seq<string>)
    ensures order == FirstSeen(regs)
    ensures groups.Keys == Positions(regs)
    ensures forall p :: p in groups ==> groups[p] == WithPosition(regs, p)
  {
    groups := map[];
    order := [];
    for i := 0 to |regs|
      invariant order == FirstSeen(regs[..i])
      invariant groups.Keys == Positions(regs[..i])
      invariant forall p :: p in groups ==> groups[p] == WithPosition(regs[..i], p)
    {
      var p := regs[i].positionName;
      assert regs[..i + 1] == regs[..i] + [regs[i]];
      GroupStep(regs[..i], regs[i], groups, order);
      if p !in groups {
        groups := groups[p := []];
        order := order + [p];
      }
      groups := groups[p := groups[p] + [regs[i]]];
    }
    assert regs[..|regs|] == regs;
  }

  /** One turn of the grouping loop keeps the dict and its key order in
      step with the registrations seen so far. */
  lemma {:induction false} GroupStep(prefix: seq<Registration>, r: Registration,
                                     groups: map<string, seq<Registration>>, order: seq<string>)
    requires order == FirstSeen(prefix)
    requires groups.Keys == Positions(prefix)
    requires forall p :: p in groups ==> groups[p] == WithPosition(prefix, p)
    ensures var p := r.positionName;
      var started := if p in groups then groups else groups[p := []];
      var grown := started[p := started[p] + [r]];
      && (if p in groups then order else order + [p]) == FirstSeen(prefix + [r])
      && grown.Keys == Positions(prefix + [r])
      && forall q :: q in grown ==> grown[q] == WithPosition(prefix + [r], q)
  {
    var p := r.positionName;
    GroupsAppend(prefix, r);
    FirstSeenLists(prefix);
    if p !in groups {
      WithPositionAbsent(prefix, p);
    }
  }

  lemma {:induction false} WithPositionAbsent(regs: seq<Registration>, p: string)
    requires p !in Positions(regs)
    ensures WithPosition(regs, p) == []
  {
    if regs != [] {
      WithPositionAbsent(regs[..|regs| - 1], p);
    }
  }

  /** One more registration extends the key order, the key set and its
      own group, and leaves every other group as it was. */
  lemma {:induction false} GroupsAppend(prefix: seq<Registration>, r: Registration)
    ensures FirstSeen(prefix + [r]) ==
      if r.positionName in FirstSeen(prefix) then FirstSeen(prefix) else FirstSeen(prefix) + [r.positionName]
    ensures Positions(prefix + [r]) == Positions(prefix) + {r.positionName}
    ensures forall p :: WithPosition(prefix + [r], p) == WithPosition(prefix, p) + (if r.positionName == p then [r] else [])
  {
    assert (prefix + [r])[..|prefix|] == prefix;
  }

  /** Every position in the dict has at least one registration. */
  lemma {:induction false} NoEmptyGroups(regs: seq<Registration>, p: string)
    requires p in Positions(regs)
    ensures |WithPosition(regs, p)| > 0
  {
    var init := regs[..|regs| - 1];
    if regs[|regs| - 1].positionName != p {
      NoEmptyGroups(init, p);
    }
  }

  /** Each registration's position is a key of the dict. */
  lemma {:induction false} PositionsComplete(regs: seq<Registration>, k: nat)
    requires k < |regs|
    ensures regs[k].positionName in Positions(regs)
  {
    if k < |regs| - 1 {
      PositionsComplete(regs[..|regs| - 1], k);
    }
  }

  /** `user_registered`: the session's user has a registration. */
  function UserRegistered(regs: seq<Registration>, s: Session): (b: bool)
    ensures b <==> IsLoggedIn(s) && exists k :: 0 <= k < |regs| && regs[k].userId == s.userId.value
  {
    IsLoggedIn(s) && FirstRegistrationOf(regs, s.userId.value).Some?
  }

  /** next((r for r in regs if r['user_id'] == userId), None). */
  function FirstRegistrationOf(regs: seq<Registration>, userId: int): (r: Option<nat>)
    ensures r.Some? ==> r.value < |regs| && regs[r.value].userId == userId
    ensures r.Some? ==> forall k :: 0 <= k < r.value ==> regs[k].userId != userId
    ensures r.None? <==> forall k :: 0 <= k < |regs| ==> regs[k].userId != userId
  {
    if regs == [] then None
    else if regs[0].userId == userId then Some(0)
    else
      var rest := FirstRegistrationOf(regs[1..], userId);
      assert forall k :: 1 <= k < |regs| ==> regs[k] == regs[1..][k - 1];
      if rest.None? then None else Some(rest.value + 1)
  }

  // ---------------------------------------------------------------------
  // Dashboard

  /** my_games: the games this manager created, in the order given. */
  function MyGames(all: seq<GameRow>, user: int): (mine: seq<GameRow>)
    ensures |mine| <= |all|
    ensures forall g :: g in mine <==> g in all && g.createdBy == user
  {
    if all == [] then []
    else
      var init := all[..|all| - 1];
      var last := all[|all| - 1];
      assert all == init + [last];
      MyGames(init, user) + (if last.createdBy == user then [last] else [])
  }

  /** The games whose status is 'open'. */
  function OpenCount(games: seq<GameRow>): (n: nat)
    ensures n <= |games|
  {
    if games == [] then 0
    else OpenCount(games[..|games| - 1]) + (if games[|games| - 1].status == "open" then 1 else 0)
  }

  /** The sum of the registration counts of `games`. */
  function TotalRegistrations(games: seq<GameRow>, registrationsOf: int -> seq<Registration>): nat {
    if games == [] then 0
    else TotalRegistrations(games[..|games| - 1], registrationsOf) + |registrationsOf(games[|games| - 1].gameId)|
  }

  datatype Stats = Stats(totalGames: nat, openGames: nat, totalRegistrations: nat)

  /** dashboard(): the statistics of the manager's games and the first
      five of them. */
  method Dashboard(all: seq<GameRow>, user: int, registrationsOf: int -> seq<Registration>)
    returns (listed: seq<GameRow>, stats: Stats)
    ensures var mine := MyGames(all, user);
      && stats == Stats(|mine|, OpenCount(mine), TotalRegistrations(mine, registrationsOf))
      && listed == mine[..if |mine| < 5 then |mine| else 5]
    ensures stats.openGames <= stats.totalGames <= |all|
    ensures |listed| <= 5 && forall g :: g in listed ==> g in all && g.createdBy == user
  {
    var mine := MyGames(all, user);
    stats := Stats(|mine|, OpenCount(mine), 0);
    for i := 0 to |mine|
      invariant stats == Stats(|mine|, OpenCount(mine), TotalRegistrations(mine[..i], registrationsOf))
    {
      var regs := registrationsOf(mine[i].gameId);
      assert mine[..i + 1][..i] == mine[..i];
      stats := stats.(totalRegistrations := stats.totalRegistrations + |regs|);
    }
    assert mine[..|mine|] == mine;
    listed := mine[..if |mine| < 5 then |mine| else 5];
    assert forall g :: g in listed ==> g in mine;
  }

  /** The total grows by each game's count: the total of two lists of games
      is the sum of their totals. */
  lemma {:induction false} TotalRegistrationsAppend(a: seq<GameRow>, b: seq<GameRow>, registrationsOf: int -> seq<Registration>)
    ensures TotalRegistrations(a + b, registrationsOf) == TotalRegistrations(a, registrationsOf) + TotalRegistrations(b, registrationsOf)
  {
    if b != [] {
      var init := b[..|b| - 1];
      assert (a + b)[..|a + b| - 1] == a + init;
      TotalRegistrationsAppend(a, init, registrationsOf);
    } else {
      assert a + b == a;
    }
  }

  // ---------------------------------------------------------------------
  // Input checks before the database or the model server is called

  datatype RegisterDecision = BadRequest | PasswordTooShort | CallCreateUser

  /** register() on POST: a missing form field ends the request with 400;
      a password of fewer than six characters is refused before
      create_user runs. */
  function RegisterGuard(fieldsPresent: bool, password: string): (d: RegisterDecision)
    ensures d == CallCreateUser <==> fieldsPresent && |password| >= 6
    ensures d == PasswordTooShort <==> fieldsPresent && |password| < 6
  {
    if !fieldsPresent then BadRequest
    else if |password| < 6 then PasswordTooShort
    else CallCreateUser
  }

  /** A registration form the page's own checks accept passes the server's
      password check too, when the password has no astral character: the
      page counts UTF-16 code units and the server counts characters. */
  lemma {:induction false} ClientAcceptedPassesServer(form: Register.RegisterForm)
    requires Register.SubmitErrors(form) == []
    requires forall i :: 0 <= i < |form.password| ==> !Text.IsAstral(form.password[i])
    ensures RegisterGuard(true, form.password) == CallCreateUser
  {
    Register.SubmitAcceptedIff(form);
    Text.Utf16LengthIsCount(form.password);
  }

  /** Three emoji make six UTF-16 code units, enough for the page's length
      check, but only three characters, which the server refuses. */
  lemma {:induction false} AstralPasswordPassesOnlyThePage()
    ensures var password := "\U{1F600}\U{1F600}\U{1F600}";
      && Text.Utf16Length(password) == 6
      && RegisterGuard(true, password) == PasswordTooShort
  {
    var password := "\U{1F600}\U{1F600}\U{1F600}";
    assert password[1..][1..][1..] == [];
  }

  /** InsertGame carries what create_game receives: the date and time as
      the form sent them, and the converted max_players. */
  datatype CreateGameDecision = FormError | PastDate | InsertGame(gameDate: string, gameTime: string, maxPlayers: int)

  /** create_game() on POST: a missing field, a max_players that int()
      refuses (`maxPlayers` None) or a date and time strptime refuses all
      end in the same flashed error; a start before `now` is refused;
      only then is the game inserted, with the date and time strings as
      submitted (the parsed start only decides). */
  function CreateGameGuard(fieldsPresent: bool, maxPlayers: Option<int>, gameDate: string, gameTime: string, now: Stamp)
    : (d: CreateGameDecision)
    ensures d.FormError? <==> !fieldsPresent || maxPlayers.None? || ParseGameStart(gameDate, gameTime).None?
    ensures d.PastDate? <==> (fieldsPresent && maxPlayers.Some? && ParseGameStart(gameDate, gameTime).Some?
                              && Before(ParseGameStart(gameDate, gameTime).value, now))
    ensures d.InsertGame? ==> (d.gameDate == gameDate && d.gameTime == gameTime && maxPlayers == Some(d.maxPlayers)
                               && ParseGameStart(gameDate, gameTime).Some?
                               && !Before(ParseGameStart(gameDate, gameTime).value, now))
  {
    if !fieldsPresent || maxPlayers.None? then FormError
    else
      match ParseGameStart(gameDate, gameTime)
      case None => FormError
      case Some(start) => if Before(start, now) then PastDate else InsertGame(gameDate, gameTime, maxPlayers.value)
  }

  /** The form carries minutes only and datetime.now() carries seconds, so a
      game set for the current minute is already in the past once that
      minute has begun. */
  lemma {:induction false} CurrentMinuteIsPast(start: Stamp, second: int)
    requires start.second == 0 && start.micro == 0 && second > 0
    ensures Before(start, start.(second := second))
  {
    var now := start.(second := second);
    var x := [start.date.year, start.date.month, start.date.day, start.hour, start.minute, start.second, start.micro];
    var y := [now.date.year, now.date.month, now.date.day, now.hour, now.minute, now.second, now.micro];
    assert x[..5] == y[..5] && x[5] < y[5];
  }

  /** The `question` member of the JSON body. */
  datatype Question = Absent | Text(text: string) | NotText

  /** The body of a chatbot request: a JSON object, or anything else. */
  datatype ChatRequest = NotAnObject | ChatObject(question: Question)

  datatype ChatDecision = EmptyQuestion | AskModel(question: string) | ServerError

  /** chatbot_api(): the stripped question is sent on only when it is not
      empty; an absent question counts as empty; a body that is not an
      object, or a question that is not a string, fails with 500. */
  function ChatbotGuard(req: ChatRequest): (d: ChatDecision)
    ensures d.EmptyQuestion? <==> (req.ChatObject? && (req.question.Absent?
                                   || (req.question.Text? && Trim(req.question.text, PyWhitespace) == [])))
    ensures d.AskModel? <==> req.ChatObject? && req.question.Text? && Trim(req.question.text, PyWhitespace) != []
    ensures d.AskModel? ==> d.question == Trim(req.question.text, PyWhitespace)
  {
    match req
    case NotAnObject => ServerError
    case ChatObject(q) =>
      match q
      case NotText => ServerError
      case Absent => EmptyQuestion
      case Text(t) =>
        var question := Trim(t, PyWhitespace);
        if question == [] then EmptyQuestion else AskModel(question)
  }

  /** The question sent on has no white space at either end and is not
      white space only. */
  lemma {:induction false} ChatbotSendsStrippedQuestion(req: ChatRequest)
    requires ChatbotGuard(req).AskModel?
    ensures var q := ChatbotGuard(req).question;
      q != [] && Trim(q, PyWhitespace) == q && q[0] !in PyWhitespace && q[|q| - 1] !in PyWhitespace
  {
    TrimIdempotent(req.question.text, PyWhitespace);
  }
}
