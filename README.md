# Basketball game registration: a Dafny model

The application lets players register for pickup basketball games and lets managers create and run them. This project models the deterministic logic underneath its pages and its server:

- **Browser scripts.**
  - The games list and the manager's games page each run a filter pass that hides game items.
  - The registration page has a password strength meter, field validators, a phone formatter, ordered error accumulation on submit and a simulated username-availability check.
  - The login page has submit and real-time validation and a remember-me store.
  - The create-game form has a live preview, quick time and location buttons, date and required-field checks, templates and a reset.
  - The game detail page maps court spots to position options.
  - The 404 page has the Konami-code window, the basketball click counter and the search redirect.
- **Flask views.** Login and manager gates, the free-spots count, grouping of registrations by position, the manager dashboard, the input guards of the register, create-game and chatbot endpoints, and the template filters.
- **Database manager.** SQL parameters are written into the statement text by the substitution as written, which lets a '?' inside a parameter take the next parameter (see Findings). The Turso HTTP reply is read back into rows. `register_to_game` asks its questions in a fixed order, the query helpers fall back to defaults on errors, and the constructor rewrites the URL scheme.

## How the model is built

- **Module layout.** There is one module per source file: `Register`, `Login`, `NotFound`, `CreateGame`, `GamesList`, `ManageGames`, `GameDetail`, `AppViews`, `TemplateFilters` and `Database`. Helper modules:
  - `Wrappers` holds `Option` and `Result`.
  - `Text` holds trimming, search, split/join and number formatting.
  - `Uri` holds `encodeURIComponent`.
  - `GameFilter` holds the game record, clock and search test that both list pages share.
  - `FieldMarks` holds the Bootstrap `is-valid`/`is-invalid` pair.
- **Form of the model.**
  - Handlers that change a page become methods of a class whose fields are the page's inputs, classes and counters. The hidden flags of a list of items are an `array<bool>` beside the fixed `seq` of item records.
  - The views' loops (`annotate games`, grouping, dashboard) and the database manager's loops (`safe_params`, the `?` substitution, `_parse_response`) are methods with loop invariants. Each is proved equal to a specification function.
  - Pure expressions are functions, and their properties are lemmas.
- **Abstractions.**
  - Time is an integer count of milliseconds of local time.
  - A date the browser cannot parse (NaN) is `None`.
  - `checkValidity()` is a function parameter `native`.
  - The HTTP POST is a function parameter `post` from (url, Authorization header, statement) to decoded JSON or an error.
  - SHA-256 is a parameter `sha256`.
  - Exceptions are `Failure` values.
  - JavaScript's `.length` is the UTF-16 length (`Text.Utf16Length`): a character beyond U+FFFF counts twice. Python's `len` counts characters.

## Model

| member | source | states |
|---|---|---|
| Register.Matches | static/js/register.js:37-41 | a character-class test is true iff some character of the password is in the class |
| Register.Score | static/js/register.js:37-41 | one point for each criterion: UTF-16 length at least 6, a lower-case letter, an upper-case letter, a digit, another character |
| Register.PasswordStrength | static/js/register.js:31-41 | the input handler's strength is the score (one point per met criterion) and never exceeds 5 |
| Register.FullStrength | static/js/register.js:37-41 | strength is 5 iff the password has a UTF-16 length of at least six and a lower-case letter, an upper-case letter, a digit and another character; shorter passwords score at most 4 |
| Register.StrengthMeter | static/js/register.js:43-76 | bar width is 20% for strength 0–1 and 20%·strength otherwise; weak iff ≤2, medium iff 3, strong iff ≥4 |
| Register.EmailValid | static/js/register.js:128-132 | the e-mail check as computed: one '@', not first, no white space, and a '.' after the '@' that is neither next to it nor last |
| Register.EmailValidMatchesGrammar | static/js/register.js:128-132 | the computed e-mail check accepts exactly the strings of the form local@domain.tld with no white space and no extra '@' |
| Register.OnBlur | static/js/register.js:84-96 | blur marks the field valid when its validator accepts, otherwise invalid with the message written into an existing feedback element; the value is untouched |
| Register.OnInput | static/js/register.js:98-103 | typing re-marks valid only a field already invalid whose value is now accepted; otherwise the field is unchanged |
| Register.InputNeverInvalidates | static/js/register.js:98-103 | a field not marked invalid never becomes invalid by typing |
| Register.OnConfirmInput | static/js/register.js:136-147 | the confirm field is valid iff it equals a non-empty password (or was valid and is now empty); a non-empty mismatch is invalid; an empty confirm keeps its classes |
| Register.DigitsOnly | static/js/register.js:163 | removing non-digits keeps only digits and never lengthens the value |
| Register.DigitsOnlyAppend | static/js/register.js:163 | digit removal distributes over concatenation |
| Register.DigitsOnlyOfDigits | static/js/register.js:163 | a value of digits only is left as it is |
| Register.DigitsOnlyDash | static/js/register.js:165-172 | a dash inserted by the formatter contributes no digit |
| Register.OnPhoneInput | static/js/register.js:162-183 | the handler's value is the formatted phone number, and the field is marked formatted iff the input holds a digit |
| Register.PhoneFormat | static/js/register.js:162-175 | the formatter's output for a raw value: digits only, dashes after the third and sixth digit, at most ten digits |
| Register.PhoneFormatKeepsDigits | static/js/register.js:163-175 | removing the dashes from the output gives the first (at most ten) digits of the input |
| Register.DashesBetweenRuns | static/js/register.js:165-172 | the digits of the three-run layout are the first ten digits |
| Register.PhoneFormatLayout | static/js/register.js:165-172 | the output holds only digits and dashes, a dash after digit 3 (more than 3 digits) and after digit 6 (more than 6), and as many digits as the input's first ten |
| Register.PhoneFormatIdempotent | static/js/register.js:162-175 | formatting a formatted value changes nothing |
| Register.MissingFields | static/js/register.js:195-202 | the 'required' messages are at most one per field and are all 'required' messages |
| Register.MissingFieldsComplete | static/js/register.js:195-202 | every blank required field has its message |
| Register.MissingFieldsSound | static/js/register.js:195-202 | every 'required' message names a blank required field |
| Register.PushIf | static/js/register.js:204-240 | a failed check adds exactly its message to the list |
| Register.CheckRequired | static/js/register.js:195-202 | the forEach over the required elements produces the 'required' messages in document order and marks exactly the blank elements invalid |
| Register.SubmitErrors | static/js/register.js:190-240 | the messages of the submit checks, in the order the checks run |
| Register.BlankFieldsListed | static/js/register.js:195-202 | every blank required field has its message in the submit list |
| Register.ValidateOnSubmit | static/js/register.js:190-249 | the submit handler's error list is that of the checks in order, and the form is valid iff the list is empty; 'is-invalid' is added to each blank required control and to the password, confirmation, username and e-mail controls exactly when their check fails, so exactly when their message is listed |
| Register.SubmitErrorsContent | static/js/register.js:204-240 | each later check (length, match, username, e-mail, terms) contributes its message iff it fails, and no other non-required message appears |
| Register.SubmitErrorsRequiredOnly | static/js/register.js:195-240 | every 'required' message in the submit list comes from a blank required field |
| Register.PushIfKeepsOrder | static/js/register.js:204-240 | appending a later check keeps the list in check order |
| Register.SubmitErrorsOrdered | static/js/register.js:190-247 | messages come out in the fixed order required → length → match → username → e-mail → terms |
| Register.SubmitAcceptedIff | static/js/register.js:242-248 | the form is submitted iff no required field is blank and every later check passes |
| Register.ShortUsernameQuirk | static/js/register.js:121-226 | "ab" fails the blur check on the username but passes the submit check |
| Register.AvailabilityCheckFor | static/js/register.js:312-324 | the availability check is scheduled iff the blur validator accepts the username, and for that username |
| Register.AfterAvailabilityCheck | static/js/register.js:312-345 | the verdict is on the username captured when the check was scheduled, applied to the field as it is when the check lands: a taken name (compared lower-cased) marks it invalid with the 'taken' message, any other name marks it valid with its feedback unchanged; the field's value is untouched |
| Register.AvailabilityCheckOnCurrentValue | static/js/register.js:312-345 | when the field still holds the captured username, the mark is the verdict on the field's own value |
| Register.StaleAvailabilityCheck | static/js/register.js:312-345 | a check scheduled for "admin" that lands after the field became "admin!" marks the free name "admin!" as taken, because the pending 300 ms delay is never cancelled |
| Register.TakenIgnoresCase | static/js/register.js:334-336 | a name and its lower-cased form get the same taken verdict: the comparison ignores ASCII case |
| Register.TakenExamples | static/js/register.js:333-336 | "Admin" is taken while "admin1" is not: the list is matched exactly after lower-casing |
| Login.UsernameVerdict | static/js/login.js:39-50 | the trimmed username is missing when empty, too short under UTF-16 length 2, accepted otherwise |
| Login.PasswordVerdict | static/js/login.js:53-64 | the raw password is missing when empty, too short under UTF-16 length 3, accepted otherwise |
| Login.TrimmedOnlyForUsername | static/js/login.js:39-64 | a blank before one character still leaves the username too short, while three blanks pass as a password |
| Login.WithError | static/js/login.js:77-90 | showFieldError removes the first feedback element and appends one with the message: a field with at most one element ends with exactly [message], and the message is always last |
| Login.LiveClasses | static/js/login.js:214-238 | real-time marking is tri-state: valid iff length ≥ threshold, invalid iff 0 < length < threshold, never both |
| Login.LiveAgreesWithSubmit | static/js/login.js:39-238 | for each field, the real-time classes equal the submit check's classes iff the value is not missing; a missing value is left unmarked by typing, where submit marks it invalid |
| Login.LoginPage.constructor | static/js/login.js:105-109 | a remembered non-empty username fills the field and checks the box; the page starts unmarked |
| Login.LoginPage.Submit | static/js/login.js:31-118 | submission is prevented iff the username or password check fails; classes and feedback follow each check; the remember-me store is written or cleared |
| Login.LoginPage.ValidateOnSubmit | static/js/login.js:31-74 | the validation listener's verdict, classes and feedback, with loading shown iff not prevented |
| Login.LoginPage.CheckUsernameOnSubmit | static/js/login.js:34-50 | the trimmed username is missing, too short (UTF-16 length under 2) or accepted; the field's classes and feedback follow that verdict and the password's feedback is untouched |
| Login.LoginPage.CheckPasswordOnSubmit | static/js/login.js:34-64 | the raw password is missing, too short (UTF-16 length under 3) or accepted; the field's classes and feedback follow that verdict and the username's feedback is untouched |
| Login.LoginPage.RememberOnSubmit | static/js/login.js:112-118 | a checked box stores the trimmed username; an unchecked box removes the stored value |
| Login.LoginPage.ShowFieldError | static/js/login.js:77-90 | on a page whose fields hold at most one feedback element each, the chosen field's feedback becomes exactly [message] and the other field's is unchanged |
| Login.LoginPage.UsernameInput | static/js/login.js:214-225 | the username's classes follow the trimmed value's UTF-16 length against 2 |
| Login.LoginPage.PasswordInput | static/js/login.js:227-238 | the password's classes follow the raw value's UTF-16 length against 3 |
| Login.LoginPage.ClearForm | static/js/login.js:171-189 | empty inputs, unchecked box, no classes and no feedback; storage unchanged |
| Login.LoginPage.KeyDown | static/js/login.js:154-167 | Enter in a field submits natively iff the form is valid; Escape clears the form; other keys change nothing |
| Login.LoginPage.DemoCardClick | static/js/login.js:194-201 | a click in the first column fills the demo admin account; elsewhere nothing changes |
| Login.LoginPage.TogglePassword | static/js/login.js:8-22 | the eye button flips the password's visibility |
| Login.RememberRoundTrip | static/js/login.js:105-118 | with the box checked, submit then reload restores the trimmed username (and checks the box) iff it is non-empty |
| NotFound.Window | static/js/404.js:76-80 | the buffer holds the last min(n, 10) codes: at most ten, all of them when fewer, the newest last |
| NotFound.WindowPush | static/js/404.js:76-80 | push-then-shift on the buffer equals the window of the extended history |
| NotFound.Error404Page.constructor | static/js/404.js:2-12 | the counter and buffer start empty and the colours unrotated |
| NotFound.Error404Page.HandleBasketballClick | static/js/404.js:59-73 | the alert fires on exactly every fifth click in total, and clickCount stays in 0..4 |
| NotFound.Error404Page.MatchesSequence | static/js/404.js:82-83 | the every() test is true iff the buffer equals the ten-key sequence |
| NotFound.Error404Page.HandleKonamiCode | static/js/404.js:75-88 | activation happens iff the window of the history since the last reset equals the sequence; the buffer is empty right after activation and never exceeds ten codes |
| NotFound.ActivatesOnlyOnLastKey | static/js/404.js:75-88 | typing the sequence activates on its last key and not on any earlier one, whatever came before |
| NotFound.SearchTarget | static/js/404.js:49-57 | the page navigates iff the trimmed term is non-empty, to /games?search= followed by the encoded term |
| NotFound.SearchTargetCarriesTerm | static/js/404.js:55 | the target holds exactly one query parameter, whose decoded value is the trimmed term's UTF-8 |
| Text.Utf16Length | static/js/register.js:37 | `.length`: at least the number of characters and at most twice it; zero iff the string is empty |
| Text.Utf16LengthIsCount | static/js/register.js:37 | the UTF-16 length equals the number of characters iff no character is beyond U+FFFF |
| Uri.Utf8 | static/js/404.js:55 | one to four bytes below 256 per character, one byte iff the character is ASCII |
| Uri.PercentEscapes | static/js/404.js:55 | three characters per byte |
| Uri.EscapesAlphabet | static/js/404.js:55 | the escapes hold only '%' and upper-case hex digits, and start with '%' |
| Uri.EncodeChar | static/js/404.js:55 | an unreserved character is kept; any other becomes percent escapes |
| Uri.EncodeURIComponent | static/js/404.js:55 | the encoding never shortens and holds only unreserved characters and '%' |
| Uri.EncodeIdentityIff | static/js/404.js:55 | encoding leaves a string unchanged iff all of its characters are unreserved |
| Uri.EncodedStaysOneParameter | static/js/404.js:55 | the encoded term holds no '&', '=', '#' or space |
| Uri.DecodeEncode | static/js/404.js:55 | percent-decoding the encoded term gives back its UTF-8 bytes |
| CreateGame.PreviewShowsValueOrPlaceholder | static/js/create_game.js:113-139 | each preview element shows its input's value, or its fixed placeholder when the input is empty or missing |
| CreateGame.GetFormData | static/js/create_game.js:332-341 | the form-data snapshot: each input's value, '' when missing or empty, '10' for max players |
| CreateGame.FormDataDefaults | static/js/create_game.js:332-341 | missing or empty inputs read as '' and max players reads '10' when missing or empty |
| CreateGame.Populate | static/js/create_game.js:315-330 | the template's truthy title, location, description and time are written into the inputs that exist |
| CreateGame.PopulateOverwritesOnlyTruthy | static/js/create_game.js:315-330 | only inputs whose template value is truthy are overwritten; date and max players are never touched |
| CreateGame.DateCheckBoundary | static/js/create_game.js:205-221 | any instant of today passes the date check, the instant before today's midnight fails, an unparseable date passes |
| CreateGame.CreateGameForm.constructor | static/js/create_game.js:87-111 | an empty date becomes tomorrow, a non-empty one is kept, and min is today |
| CreateGame.CreateGameForm.UpdatePreview | static/js/create_game.js:113-139 | the preview is that of the current inputs |
| CreateGame.CreateGameForm.ValidateField | static/js/create_game.js:191-203 | a field is valid iff its element exists and passes its constraint check, and its classes say so |
| CreateGame.CreateGameForm.ValidateDate | static/js/create_game.js:205-221 | a date before today's midnight gets the custom message and is invalid; otherwise the message is cleared |
| CreateGame.CreateGameForm.ValidateRequired | static/js/create_game.js:227-233 | the pass over the required fields is true iff all pass, with every field marked |
| CreateGame.CreateGameForm.HandleFormSubmit | static/js/create_game.js:223-245 | submit is prevented iff the required pass or the date check fails; every present required control other than the date is marked by its native check; the date is marked valid iff it is not past and its native check passes, and its custom message is set iff it is past; loading is shown iff not prevented |
| CreateGame.CreateGameForm.ValidateAll | static/js/create_game.js:343-357 | the form is valid iff every required field and the date are valid, with the same marks and date message as the submit handler |
| CreateGame.CreateGameForm.HandleTimeButtonClick | static/js/create_game.js:155-168 | with a data-time, the time input takes it and only that button is primary; without one nothing changes |
| CreateGame.CreateGameForm.HandleLocationButtonClick | static/js/create_game.js:170-183 | with a data-location, the location input takes it and only that button is highlighted; without one nothing changes |
| CreateGame.CreateGameForm.Input | static/js/create_game.js:185-189 | typing sets the input and the preview follows; a present required control with a non-blank value is re-marked by its native check; a date change sets the custom message and the date's mark by the date check; nothing else is marked |
| CreateGame.CreateGameForm.KeyDown | static/js/create_game.js:266-285 | Ctrl/Cmd+Enter requests a submit; Escape empties the focused input |
| CreateGame.CreateGameForm.PopulateFromTemplate | static/js/create_game.js:315-330 | the inputs become the template population of the old inputs |
| CreateGame.CreateGameForm.ResetForm | static/js/create_game.js:299-313 | inputs return to defaults, required fields lose their marks, no quick button stays highlighted |
| CreateGame.HighlightOnly | static/js/create_game.js:165-166 | exactly the clicked button carries the class |
| CreateGame.ClearAll | static/js/create_game.js:299-313 | no button carries the class |
| GamesList.DatePasses | static/js/games_list.js:38-62 | 'today' and 'tomorrow' compare calendar days, 'week' and 'month' keep dates in [now, end]; an unparseable date passes 'week' and 'month' and fails 'today' and 'tomorrow'; other values pass everything |
| GamesList.AvailabilityPasses | static/js/games_list.js:64-69 | 'available' keeps data-available "true", 'full' keeps everything else, any other value keeps all |
| GamesList.Shown | static/js/games_list.js:25-69 | a game is shown iff it passes the search, date and availability filters |
| GameFilter.NextCalendarDay | static/js/games_list.js:38-62 | the instant a day later lies on the next calendar day |
| GameFilter.SearchHidesIffAbsent | static/js/games_list.js:29-35 | with a non-empty term, an item is hidden iff neither title nor location contains the term |
| GameFilter.CapitalisedTitleNotFound | static/js/games_list.js:19-32 | only the term is lower-cased, so searching "Park" misses the title "Park" |
| GamesList.CountShown | static/js/games_list.js:71-76 | the number of shown games is at most the number of games |
| GamesList.CountShownZero | static/js/games_list.js:80-84 | the count is zero iff no game is shown |
| GamesList.CountShownAll | static/js/games_list.js:71-76 | when every game passes, every game is counted |
| GamesList.NoFiltersShowEverything | static/js/games_list.js:25-76 | with every control empty every game is shown |
| GamesList.InvalidDate | static/js/games_list.js:38-62 | an unparseable date passes 'week' and 'month' and fails 'today' and 'tomorrow' |
| GamesList.WeekBoundary | static/js/games_list.js:51-55 | 'week' includes the instant seven days ahead and excludes the instant after it and the past |
| GamesList.WeekWithinMonth | static/js/games_list.js:51-60 | every date 'week' shows, 'month' shows too |
| GamesList.EarlierTodayQuirk | static/js/games_list.js:40-55 | a game earlier today is shown by 'today' but hidden by 'week', because the reference is now and not midnight |
| GamesList.GamesListPage.constructor | static/js/games_list.js:4-9 | every item starts visible and the controls empty |
| GamesList.ItemShown | static/js/games_list.js:26-69 | the tests one item goes through show it exactly when it passes the search, date and availability filters |
| GamesList.GamesListPage.FilterGames | static/js/games_list.js:18-85 | an item is hidden iff it fails a filter, the count is the number shown, no-results is shown iff the count is 0 and the list is non-empty |
| GamesList.GamesListPage.SetFilters | static/js/games_list.js:88-92 | a changed control stores its value and reruns the pass |
| GamesList.GamesListPage.ClearFilters | static/js/games_list.js:94-99 | after clear-filters every item is visible, the count is the whole list and no-results is hidden |
| GamesList.GamesListPage.OnKeyDown | static/js/games_list.js:193-197 | Escape on the search box empties the term and refilters, the other controls unchanged, and no-results is shown iff nothing passes and the list is non-empty; any other key changes nothing |
| ManageGames.StatusPasses | static/js/manage_games.js:44-46 | an empty status keeps every game, any other keeps the games with exactly that status |
| ManageGames.DatePasses | static/js/manage_games.js:49-74 | 'today' compares calendar days, 'week' and 'month' keep [now, end], 'future' keeps dates after now and 'past' the others; an unparseable date fails only 'today' |
| ManageGames.Shown | static/js/manage_games.js:31-80 | a row or card is shown iff it passes search, status and date |
| ManageGames.SortIgnored | static/js/manage_games.js:25 | the sort value never changes visibility |
| ManageGames.FuturePastPartition | static/js/manage_games.js:67-72 | a valid date passes exactly one of 'future' and 'past'; an invalid one passes both |
| ManageGames.WeekWindow | static/js/manage_games.js:57-61 | 'week' shows exactly the dates in [now, now + 7 days] |
| ManageGames.ManageGamesPage.constructor | static/js/manage_games.js:4-13 | every row and card starts visible and there is no current game |
| ManageGames.ManageGamesPage.FilterAndSortGames | static/js/manage_games.js:21-82 | each row and card is hidden iff it fails search, status or date; a row and a card with the same data get the same visibility |
| ManageGames.ManageGamesPage.ClearFilters | static/js/manage_games.js:92-98 | search, status and date are emptied, sort becomes 'date_desc', every item is shown |
| ManageGames.ManageGamesPage.OnKeyDown | static/js/manage_games.js:371-375 | Escape on the search box empties the term and refilters rows and cards; any other key leaves the filters, rows and cards unchanged |
| ManageGames.ManageGamesPage.SelectGame | static/js/manage_games.js:117-121 | a participants or cancel button makes its game current |
| ManageGames.ManageGamesPage.ExportTarget | static/js/manage_games.js:131-132 | export fetches iff the current game id is set and non-empty |
| ManageGames.BadgeClass | static/js/manage_games.js:169 | the badge is bg-danger iff the position starts with 'Team A', otherwise bg-info |
| ManageGames.RenderParticipants | static/js/manage_games.js:153-180 | an empty list shows the no-participants message; otherwise one entry per participant, in order, with the full name, the @handle, the red badge exactly for Team A positions, the position and the registration date |
| ManageGames.ExportToCsv | static/js/manage_games.js:194-204 | the header line and one line per participant, joined by line breaks |
| ManageGames.ExportFileName | static/js/manage_games.js:209 | the download is named participants_game_<id>.csv after the current game id |
| ManageGames.CsvLines | static/js/manage_games.js:194-204 | one line per participant, in order, its five fields joined by ',' |
| ManageGames.JoinFieldsNoNewline | static/js/manage_games.js:194-204 | joining fields without line breaks gives a line without a break |
| ManageGames.CsvLinesHaveNoNewline | static/js/manage_games.js:194-204 | participant lines hold no line break when no field does |
| ManageGames.CsvAllLinesHaveNoNewline | static/js/manage_games.js:194-204 | neither the header nor any participant line holds a line break |
| ManageGames.CsvSplitsIntoLines | static/js/manage_games.js:194-204 | splitting the export at line breaks gives the header and the participant lines |
| ManageGames.CsvLinesSplitIntoFields | static/js/manage_games.js:194-204 | splitting a participant line at commas gives its five fields when none holds a comma |
| ManageGames.CsvRoundTrip | static/js/manage_games.js:194-204 | the export reads back as the fixed header followed by each participant's fields, in order |
| ManageGames.CommaInNameAddsColumn | static/js/manage_games.js:194-204 | without quoting, a first name holding one comma reads back as six columns, the name cut in two |
| GameDetail.FirstOptionFor | static/js/game_detail.js:36-47 | the first option whose text contains the title, or none iff no option does |
| GameDetail.FirstSpotFor | static/js/game_detail.js:114-125 | the first spot whose data-position equals the id, or none iff no spot does |
| GameDetail.HighlightUsesOptionText | static/js/game_detail.js:131-136 | the change handler passes the option's text, so an option with value "1" does not highlight spot "1" |
| GameDetail.GameDetailPage.constructor | static/js/game_detail.js:24-25 | no spot starts selected |
| GameDetail.GameDetailPage.SpotClick | static/js/game_detail.js:28-51 | the select changes only for an available, confirmed spot, to the first option naming it; with no match it is unchanged; when that option has a non-empty value the registration submit is no longer blocked |
| GameDetail.GameDetailPage.HighlightSelectedPosition | static/js/game_detail.js:114-125 | exactly the first spot matching the id is selected, or none |
| GameDetail.GameDetailPage.SelectChange | static/js/game_detail.js:131-136 | a non-empty choice highlights by the option's text; an empty one leaves the spots; the submit is blocked afterwards iff the chosen value is empty |
| GameDetail.GameDetailPage.SubmitBlocked | static/js/game_detail.js:82-91 | the submit listener's test: blocked iff the select holds no value (what makes it hold one is stated by SpotClick and SelectChange) |
| TemplateFilters.RegexMatch | app.py:19-29 | False for None; otherwise whether the pattern matches at the start |
| TemplateFilters.StartswithFilter | app.py:31-35 | true iff the text is not None and starts with the prefix |
| TemplateFilters.ContainsFilter | app.py:37-41 | true iff the text is not None and contains the substring |
| TemplateFilters.StartswithImpliesContains | app.py:31-41 | a text the startswith filter accepts is accepted by contains |
| TemplateFilters.ParseIsoDate | app.py:362 | a parsed %Y-%m-%d date exists in the calendar |
| TemplateFilters.ParseClock | app.py:371 | a parsed %H:%M:%S time has hour < 24, minute < 60, second < 60 |
| TemplateFilters.Year4 | app.py:365 | %Y writes four digits that read back as the year |
| TemplateFilters.Pad2FieldValue | app.py:365 | a two-digit field reads back as its number |
| TemplateFilters.DatetimeFilter | app.py:358-365 | an unparseable string is returned as it is; a parsed date comes out as DD/MM/YYYY |
| TemplateFilters.TimeFilter | app.py:367-375 | an unparseable string is returned as it is; a parsed time comes out as HH:MM |
| TemplateFilters.ParseIsoDateFormat | app.py:362 | a date written as YYYY-MM-DD reads back as that date |
| TemplateFilters.DatetimeFilterIso | app.py:358-365 | YYYY-MM-DD becomes DD/MM/YYYY |
| TemplateFilters.ParseIsoDateFields | app.py:362 | three tokens joined by '-' are read field by field |
| TemplateFilters.ParseClockFields | app.py:371 | three tokens joined by ':' are read field by field |
| TemplateFilters.DatetimeFilterPadsShortFields | app.py:358-365 | "2025-1-5" becomes "05/01/2025" |
| TemplateFilters.DatetimeFilterKeepsImpossibleDay | app.py:358-365 | "2025-02-30" is returned unchanged |
| TemplateFilters.TimeFilterDropsSeconds | app.py:367-375 | HH:MM:SS becomes HH:MM |
| TemplateFilters.TimeFilterKeepsLeapSecond | app.py:367-375 | "23:59:60" is returned unchanged |
| TemplateFilters.ParseGameStart | app.py:252 | a parsed game start is a valid date with hour < 24 and minute < 60, to the minute |
| TemplateFilters.ParseGameStartForm | app.py:252 | the date and time the create-game form submits are read as that date and time |
| AppViews.LoginRequired | app.py:50-57 | the view runs iff the user is logged in; otherwise redirect to login with the message |
| AppViews.ManagerRequired | app.py:59-69 | not logged in → login; logged in but not a manager → index; otherwise the view runs |
| AppViews.ManagerGateIsStricter | app.py:50-69 | what the manager gate lets through the login gate does too, and both send a visitor who is not logged in to the same redirect |
| AppViews.Players | app.py:82 | the player registrations are exactly those whose position starts with 'Team A' or 'Team B' |
| AppViews.AvailableSpots | app.py:83 | free spots are at most 10 and at least 10 minus all registrations; 10 iff no player is registered |
| AppViews.AvailableSpotsAppend | app.py:82-83 | one more registration takes a spot iff it is a player's |
| AppViews.AvailableSpotsCanBeNegative | app.py:83 | eleven players leave −1 spots: the count is not clamped |
| AppViews.SpotsOfRepeated | app.py:83 | k player registrations leave 10 − k spots |
| AppViews.FirstSeen | app.py:178-183 | the positions in order of first occurrence, each once |
| AppViews.AnnotateGames | app.py:152-157 | every game gets its registration count and free spots (and, on the games list, its registrations) |
| AppViews.FirstSeenLists | app.py:178-183 | the dict's keys are each position that occurs, once, in order of first occurrence |
| AppViews.WithPositionMembers | app.py:178-183 | each group holds exactly the registrations of its position |
| AppViews.GroupByPosition | app.py:177-183 | the loop builds a dict whose keys are the positions that occur and whose lists keep input order |
| AppViews.WithPositionAbsent | app.py:178-183 | a position that does not occur has no registrations |
| AppViews.GroupsAppend | app.py:179-183 | one more registration extends its own group and no other |
| AppViews.NoEmptyGroups | app.py:178-183 | no group is empty |
| AppViews.PositionsComplete | app.py:178-183 | every registration's position is a key |
| AppViews.UserRegistered | app.py:185-189 | the user is registered iff logged in and some registration carries their id |
| AppViews.FirstRegistrationOf | app.py:188 | the first registration with the user's id, or none iff there is none |
| AppViews.MyGames | app.py:296 | exactly the games this manager created |
| AppViews.OpenCount | app.py:300 | the open games are no more than the games |
| AppViews.Dashboard | app.py:295-308 | total is the manager's game count, open ≤ total, registrations is the sum of counts, at most five of their games listed |
| AppViews.TotalRegistrations | app.py:304-306 | the sum of the registration counts of the games |
| AppViews.TotalRegistrationsAppend | app.py:304-306 | the total of two lists of games is the sum of their totals |
| AppViews.RegisterGuard | app.py:94-104 | create_user is called iff all fields are present and the password has at least six characters |
| AppViews.ClientAcceptedPassesServer | app.py:102-104 | a form the page's checks accept passes the server's length check when the password has no character beyond U+FFFF |
| AppViews.AstralPasswordPassesOnlyThePage | app.py:102-104 | three emoji have UTF-16 length 6, enough for the page, but the server counts 3 characters and refuses them |
| AppViews.CreateGameGuard | app.py:242-269 | a bad form is an error, a start before now is refused, and only then is the game inserted, with the date and time strings as submitted and the converted max_players |
| AppViews.CurrentMinuteIsPast | app.py:252-253 | a game starting this minute is already in the past once seconds have passed |
| AppViews.ChatbotGuard | app.py:389-393 | a blank question is refused; otherwise the stripped question is sent on |
| AppViews.ChatbotSendsStrippedQuestion | app.py:390-393 | what is sent is non-empty and has no white space at either end |
| Database.DoubleQuotes | database.py:49 | doubling quotes never shortens a string |
| Database.Render | database.py:43-54 | None → NULL, a string → single-quoted, a bool → 1 or 0 |
| Database.ReadQuotedDoubled | database.py:49-50 | SQL reads a doubled-quote body followed by a closing quote back as the original string |
| Database.RenderedStringReadsBack | database.py:49-50 | a rendered string parameter is read by SQL as exactly that string |
| Database.RenderAll | database.py:43-54 | one rendered text per parameter, in order |
| Database.RenderParams | database.py:43-54 | the loop builds the rendered parameters |
| Database.Substitute | database.py:57-59 | the loop applies one first-'?' replacement per rendered parameter |
| Database.StatementAsWritten | database.py:41-61 | the statement execute_query builds: the query itself without parameters or with an empty tuple, otherwise the substitution as written |
| Database.StatementText | database.py:41-61 | the intended statement: each '?' of the query taken by the next parameter |
| Database.FinalQuery | database.py:41-61 | the statement as written; without parameters or with an empty tuple, the query itself; when no parameter holds a '?', the intended positional text |
| Database.PositionalFillsEachMark | database.py:57-59 | each mark of the query is taken by the next parameter, the text between marks kept |
| Database.AsWrittenAgreesWithoutMarks | database.py:57-59 | the substitution as written equals the positional one when no rendered parameter holds a '?' |
| Database.QuestionMarkInParamShifts | database.py:57-59 | a '?' inside a parameter is taken by the next parameter: "? ?" with 'a?' and 'b' becomes "'a'b'' ?" |
| Database.Lookup | database.py:98-103 | the value of a present key (the last duplicate), none iff absent |
| Database.Keys | database.py:107 | an object iterates over its distinct keys |
| Database.In | database.py:98-101 | `in` on an object, list or string; a TypeError on anything else |
| Database.Index | database.py:99-103 | subscripting by a string succeeds only on an object holding the key |
| Database.Iterate | database.py:105-107 | a for loop walks a list's items; it fails on None, booleans and numbers |
| Database.Len | database.py:108 | len of a list is its length; None, booleans and numbers fail |
| Database.Item | database.py:109 | a list's item i; an object fails with KeyError |
| Database.RowDictFailureStays | database.py:107-109 | an error in a prefix of the columns is the row's error |
| Database.RowDictsFailureStays | database.py:105-110 | an error in a prefix of the rows is the result's error |
| Database.BuildRow | database.py:106-109 | the inner loop builds the row's dict or raises its error |
| Database.BuildRows | database.py:105-110 | the outer loop builds one dict per row or raises |
| Database.ParseResponse | database.py:86-116 | _parse_response with its loops is the reading of the reply |
| Database.Columns | database.py:102 | column names decode as strings, in order |
| Database.RowKeysStep | database.py:107-109 | storing column i adds exactly that column's name to the dict's keys |
| Database.RowValuesStep | database.py:107-109 | storing column i gives its name item i and keeps every other name's value, so the last column with a name wins |
| Database.RowDictPrefix | database.py:105-110 | after k turns of the inner loop the dict holds the names of the first min(k, len(row)) columns, each with its last column's item; a column beyond the row's length is skipped |
| Database.RowDictOfList | database.py:105-110 | a list row maps each column name below the row's length to its item, and no other key |
| Database.RowLists | database.py:103 | rows decode as lists, in order |
| Database.RowDictsOfLists | database.py:105-110 | one matching dict per row, in order |
| Database.ParseTursoReply | database.py:93-116 | a reply with columns and rows yields one dict per row and its last_insert_rowid |
| Database.ParseRepliesWithoutRows | database.py:93-116 | non-list or empty data yields no rows and None; an insert reply yields no rows and its id |
| Database.ReplaceAllWithoutMatch | database.py:17 | replace changes nothing when the pattern does not occur |
| Database.ConnectRewritesScheme | database.py:13-21 | a libsql:// URL becomes https:// with the same rest, and the manager exists iff the test query succeeds |
| Database.ConnectSucceedsIff | database.py:13-30 | a missing or empty setting raises the settings message; otherwise construction succeeds iff the test query does |
| Database.RegisterToGameOrder | database.py:229-258 | "already registered" is asked first and "position taken" second; the insert runs iff both find no row; success iff the insert also goes through |
| Database.ExecuteQuery | database.py:32-84 | posts the statement as written with the Bearer token and reads the reply; a failed request or reply is a failure |
| Database.ExecuteQuerySendsIntended | database.py:41-61 | when no rendered parameter holds a '?', the posted statement is the intended one |
| Database.Connect | database.py:9-30 | both settings present and non-empty, the URL scheme rewritten, the test query run |
| Database.GetAllGames | database.py:118-130 | the games with the given status when it is truthy, all games otherwise; [] on an error |
| Database.GetGameById | database.py:132-142 | the first row of the game query, None when there is none or on an error |
| Database.GetGameRegistrations | database.py:144-159 | the rows of the registrations query, [] on an error |
| Database.GetAllPositions | database.py:161-169 | the rows of the positions query, [] on an error |
| Database.AuthenticateUser | database.py:171-184 | the first user row matching the username and the SHA-256 of the password, None otherwise or on an error |
| Database.GetUserByUsername | database.py:186-196 | the first user row with the username, None otherwise or on an error |
| Database.CreateUser | database.py:198-213 | inserts the user with the hashed password and returns the truthy last insert id, None otherwise or on an error |
| Database.CreateGame | database.py:215-227 | inserts the game and returns the truthy last insert id, None otherwise or on an error |
| Database.RegisterOutcome | database.py:229-258 | register_to_game's reply and the statements it sends, given what each statement returns or raises |
| Database.RegisterToGame | database.py:229-258 | register_to_game over the three statements it may send |
| Database.CancelRegistration | database.py:260-266 | True iff the delete statement does not raise |
| Database.ExecuteFails | database.py:67-84 | a failing request makes execute_query raise |
| Database.ReadHelpersFallBack | database.py:118-196 | on errors the reading helpers return [] or None |
| Database.WriteHelpersFallBack | database.py:198-267 | on errors create_user and create_game return None and cancel_registration returns False |

## Left out

- Animations, IntersectionObserver, CSS injection and auto-refresh, in every script, are cosmetic. Timer delays are not modelled; the username availability check's 500 ms and 300 ms delays are not cosmetic, and the model keeps their effect by judging the username captured at scheduling (Register.AfterAvailabilityCheck), not the field's later value. static/js/index.js, static/js/base.js and static/js/chatbot.js are not part of this model. The floating-point stat counters (static/js/404.js:99-112) are not part of it either.
- `fetch` calls (loading participants, cancelling a game, refreshing participants) and Ollama are network calls. Only the decisions around them are modelled: the export guard, the participants view and the chatbot guard. ollama/* is not part of this model.
- The HTTP POST of `execute_query` is the parameter `post`. Status codes, headers other than Authorization, timeouts and printing are folded into its `Failure`.
- Password hashing is the parameter `sha256`. Exception messages are opaque strings.
- `checkValidity()`, `confirm`, `alert` and the Flask session, flash, render and redirect are inputs or outcome values. localStorage is a `map<string, string>`.
- Locale and time zones: dates are integers of local milliseconds with no daylight-saving shifts. "One month later" (`setMonth`) is an input, and `toLocaleDateString('he-IL')` is an opaque date text. The CSV date column is an opaque string.
- Database.Render: floats are not modelled; a number parameter is an integer written in decimal.
- Python's merging of `1` and `True` as dict keys is not modelled; decoded JSON keys are compared as values.
- Database.ReadQuotedDoubled: stated only when the text after the literal does not start with a quote, because SQL would read a quote directly after the closing quote as an escaped one.
- Database.RegisterToGameOrder: the 'שגיאה בהרשמה' branch is unreachable in the source, because a result object is always truthy. The model has no such branch.
- The multi-line SQL of the query helpers is written on one line. White space inside a statement does not change the substitution.
- The manager's games view annotates counts with no decision to model. The index and games-list views share `AppViews.AnnotateGames`.
- Sorting on the manage page is never applied by the code, so it is not modelled.
- TemplateFilters.ParseGameStart: only ASCII digits are read. strptime also accepts other Unicode decimal digits.
- TemplateFilters.ParseIsoDate: only ASCII digits are read, as for ParseGameStart.
- TemplateFilters.ParseClock: only ASCII digits are read, as for ParseGameStart.
- TemplateFilters.Year4: a year below 1000 is padded to four digits; what strftime's %Y writes for such a year depends on the C library.
- Text.ToLower: `toLowerCase` is modelled for A-Z only; letters outside ASCII keep their case. GamesList.Shown, ManageGames.Shown and Register.TakenIgnoresCase inherit this.
- AppViews.ClientAcceptedPassesServer: stated only for passwords without characters beyond U+FFFF, because the page counts UTF-16 code units and the server counts characters (AppViews.AstralPasswordPassesOnlyThePage).
- GameDetail.GameDetailPage.HighlightSelectedPosition: the selector is matched against the position spots only, not the whole document, and an id holding '"' or '\', which would make the selector throw or be read as an escape, is treated as plain text.
- Register.ValidateOnSubmit: which DOM control a required element is (it may be the password or username control too) is not modelled, so the marks are reported per check and not merged per control.
- ManageGames.RenderParticipants: the escaping of HTML in participant names is not modelled.
- Behaviour that follows the code rather than a prose description of it:
  - The search compares the title as written, not lower-cased.
  - Unparseable dates are kept by 'week' and 'month' and by the manager's 'future' and 'past'.

## Findings

| source | as written | input that shows it | evidently intended | confidence | as-written member | corrected member |
|---|---|---|---|---|---|---|
| database.py:57-59 | each rendered parameter replaces the first '?' of the whole text, including the text of parameters already written in | query "? ?" with parameters 'a?' and 'b' gives "'a'b'' ?" | each '?' of the query is taken, left to right, by the next parameter: "'a?' 'b'" | not executed | Database.QuestionMarkInParamShifts | Database.PositionalFillsEachMark |
