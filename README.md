# Central da Resenha mobile — verified model of the screen logic

This project models the logic inside six screens of a React Native app for booking futsal courts. Everything else in those screens is rendering, styling or network calls, which the model leaves out.

- **Booking modal** (`booking.dfy`, module `Booking`):
  - The draft is the selected field, the week-day label, the ordered list of selected time slots and the people-count text.
  - The modal's buttons change the draft. Toggling a slot removes it if present and appends it otherwise.
  - The model covers the guard in front of "confirm" and the request it builds. That request carries the company-id fallback, a one-key `horario` object keyed by the lower-cased day, the people count passed through `parseInt`, and the `YYYY-MM-DD` date stamp.
  - The draft is the class `BookingModal`. The pure parts are functions.
- **Sign-up** (`signup.dfy`, module `Signup`):
  - The birth-date mask `DD/MM/YYYY`.
  - The date validator.
  - The password/date gate of registration, and the payload with the date reordered to `YYYY-MM-DD`.
- **Profile** (`profile.dfy`, module `Profile`):
  - Capitalisation of words and names.
  - The `'-'` placeholders.
  - The mapping from the server's profile record to the shown values.
  - The five-star fill rule and the gold/white colour of a statistic.
- **My bookings** (`agendamentos.dfy`, module `Agendamentos`):
  - How a booking's `horario` is shown as a day and a list of hours.
  - The paid/pending label.
  - A round trip with the booking modal: a request built for any offered day is listed back as that day label and the slots in selection order.
- **Lineup** (`teams.dfy`, module `Teams`):
  - The seven pitch positions.
  - The name map. A name change updates the map, stops editing and hands the new map to storage.
  - The name shown under each shirt.
- **Verification code** (`code.dfy`, module `CodeEntry`): six one-character cells in an `array<string>`. Each keystroke replaces the array with an updated copy.
- **JavaScript text semantics** (`js_text.dfy`, module `JsText`). The screens rely on these built-ins, modelled explicitly:
  - `parseInt` (leading whitespace, a sign, the leading decimal digits; NaN is `None`);
  - `Number()` on integer text;
  - `split` on a one-character separator, and `join`;
  - ASCII `toUpperCase`/`toLowerCase`;
  - `replace(/[^\d]/g, '')`;
  - the decimal text of a number.

Inputs from the outside world are parameters of the model:
- the stored token (`Option<string>`);
- the device date;
- the current year;
- the saved player map.

JavaScript falsiness is written out wherever the source relies on it: `0`, `NaN`, `''`, `null` and `undefined`.

## Model

| member | source | states |
|---|---|---|
| JsText.ToLower | src/pages/fields/BookingModal.tsx:75 | `toLowerCase` on ASCII text: each ASCII capital becomes its small letter and the length is kept; the result has no ASCII capital (non-ASCII capitals: see Left out) |
| JsText.ToLowerIdempotent | src/pages/fields/BookingModal.tsx:75 | lower-casing twice is lower-casing once |
| JsText.KeepDigits | src/pages/signup/index.tsx:23 | `replace(/[^\d]/g, '')` yields only digits, is no longer than its input, and leaves an all-digit text unchanged |
| JsText.KeepDigitsConcat | src/pages/signup/index.tsx:23 | removing non-digits distributes over concatenation |
| JsText.Join | src/pages/profile/index.tsx:57 | `join` puts the separator between consecutive pieces; its contract is stated by `JsText.SplitJoin` and `JsText.JoinSplit`, which make it the inverse of `split` |
| JsText.Split | src/pages/signup/index.tsx:30 | `split` on one character gives at least one piece and no piece contains the separator |
| JsText.SplitJoin | src/pages/profile/index.tsx:57 | joining separator-free pieces and splitting again gives the pieces back |
| JsText.JoinSplit | src/pages/profile/index.tsx:57 | splitting a text and joining with the same separator gives the text back |
| JsText.ToUpperChar | src/pages/agendamentos/index.tsx:62 | `toUpperCase` on one character: an ASCII small letter becomes its capital (code point minus 32), every other character is kept, and the result is never an ASCII small letter |
| JsText.IntToString | src/pages/profile/index.tsx:62-69 | `toString()` of an integer is non-empty and starts with a digit exactly when the integer is not negative; `Profile.StatTextOfNumber` states that it is `String(n)` for n >= 0 and '-' then `String(-n)` below 0, and `JsText.IntToStringRoundTrip` and `JsText.NumberOfIntToString` that it reads back |
| JsText.NatToString | src/pages/fields/BookingModal.tsx:43-45 | `String(n)` is a non-empty run of digits without a leading zero whose decimal value is `n`; one digit exactly below 10, at most two below 100 |
| JsText.ParseInt | src/pages/fields/BookingModal.tsx:77 | `parseInt` skips leading whitespace, reads a sign and the leading decimal digits, and is NaN (`None`) without digits; its contract is stated by `JsText.ParseIntDigits`, `JsText.ParseIntNoDigits` and `JsText.IntToStringRoundTrip` |
| JsText.ParseIntDigits | src/pages/fields/BookingModal.tsx:77 | `parseInt` of a non-empty run of digits is its decimal value |
| JsText.ParseIntNoDigits | src/pages/signup/index.tsx:30 | `parseInt` of an empty text, or of one starting with a character that is not a digit, sign or space, is NaN |
| JsText.IntToStringRoundTrip | src/pages/profile/index.tsx:62-69 | `parseInt` reads the decimal text of any integer back to that integer |
| JsText.NumberValue | src/pages/profile/index.tsx:94 | `Number()` on integer text; its contract is stated by `JsText.NumberOfIntToString` (the decimal text of an integer reads back to it) and `Profile.PlaceholderIsNaN` ('-' is NaN) |
| JsText.NumberOfIntToString | src/pages/profile/index.tsx:94 | `Number` reads the decimal text of any integer back to that integer |
| Booking.Toggle | src/pages/fields/BookingModal.tsx:30-38 | toggling an absent slot appends it at the end; toggling a present slot removes every occurrence and keeps the other slots in their relative order with their multiplicities |
| Booking.RemoveAll | src/pages/fields/BookingModal.tsx:33 | the filter leaves no occurrence of the slot, keeps every other slot's count and order, and changes nothing when the slot is absent |
| Booking.ToggleTwiceAbsent | src/pages/fields/BookingModal.tsx:30-38 | toggling the same absent slot twice restores the selection |
| Booking.ToggleKeepsDistinct | src/pages/fields/BookingModal.tsx:30-38 | toggling keeps a duplicate-free selection duplicate-free |
| Booking.AvailableSlots | src/pages/fields/BookingModal.tsx:107-111 | no slots when the field, its `horarios` or the lower-cased day's entry is missing; otherwise exactly that entry |
| Booking.Pad2 | src/pages/fields/BookingModal.tsx:44-45 | `padStart(2, '0')` of a number below 100 is two digits whose value is the number |
| Booking.CurrentWeek | src/pages/fields/BookingModal.tsx:41-47 | splitting the stamp on '-' gives exactly three parts: the year's decimal text, the one-based month padded to two digits and the day padded to two digits |
| Booking.CurrentWeekShape | src/pages/fields/BookingModal.tsx:41-47 | the date stamp is the year, the one-based month and the day separated by '-', month and day two digits each that read back to their numbers |
| Booking.CompanyId | src/pages/fields/BookingModal.tsx:73 | the field's company id unless it is absent or 0, then 1 |
| Booking.HasToken | src/pages/fields/BookingModal.tsx:59 | the `!token` test: a token is usable when present and non-empty; this predicate has no contract of its own, and `Booking.Confirm` states that the token error happens exactly when it fails |
| Booking.BuildRequest | src/pages/fields/BookingModal.tsx:71-79 | the request carries the field id, the company id with its fallback, a one-key `horario` from the lower-cased day to the selected slots in order, `parseInt` of the people count and the date stamp |
| Booking.Confirm | src/pages/fields/BookingModal.tsx:51-62 | the form error happens exactly when the field is missing, no slot is selected or the people count is empty; the token error exactly when the form passes and the token is missing or empty; otherwise the built request is sent |
| Booking.NonNumericCountStillSends | src/pages/fields/BookingModal.tsx:51-77 | the guard checks only that the count is non-empty: a count of "abc" still sends a request, whose people count is NaN |
| Booking.SentRequestShape | src/pages/fields/BookingModal.tsx:71-79 | a sent request has exactly one day key, a non-empty slot list and a non-zero company id |
| Booking.BookingModal.constructor | src/pages/fields/BookingModal.tsx:14-18 | the draft starts on the first week day, with no field, no slots and an empty count |
| Booking.BookingModal.HandleFieldSelect | src/pages/fields/BookingModal.tsx:20-23 | selecting a field sets it and empties the slots; day and count are unchanged |
| Booking.BookingModal.HandleBack | src/pages/fields/BookingModal.tsx:25-28 | back clears the field and the slots; day and count are unchanged |
| Booking.BookingModal.ToggleHorarioSelection | src/pages/fields/BookingModal.tsx:30-38 | the slots become their toggle and stay duplicate-free; nothing else changes |
| Booking.BookingModal.SetSelectedDay | src/pages/fields/BookingModal.tsx:180 | choosing a day changes only the day; the selected slots are kept |
| Booking.BookingModal.SetPeopleCount | src/pages/fields/BookingModal.tsx:207-208 | typing the count changes only the count |
| Booking.BookingModal.Slots | src/pages/fields/BookingModal.tsx:107-111 | no slots are offered when no field is selected, the field has no `horarios`, or it has no entry for the lower-cased day; otherwise exactly that entry's slots |
| Booking.BookingModal.HandleConfirmBooking | src/pages/fields/BookingModal.tsx:49-79 | the confirm handler ends in the form error, the token error or the request exactly as `Confirm` decides, on the current draft |
| Signup.FormatDate | src/pages/signup/index.tsx:22-27 | the mask yields only digits and '/', at most 10 characters, and its digits are the first (up to 8) digits of the input |
| Signup.FormatDateParts | src/pages/signup/index.tsx:24-26 | the mask's pieces between slashes are: the digits as is for 2 or fewer; `DD` and the rest for 3 to 4; `DD`, `MM` and at most four year digits otherwise |
| Signup.FormatDateIdempotent | src/pages/signup/index.tsx:171 | masking an already masked text changes nothing |
| Signup.ValidateDate | src/pages/signup/index.tsx:29-39 | an accepted date has at least three pieces between slashes |
| Signup.MissingPartRejected | src/pages/signup/index.tsx:30-33 | a date with fewer than three pieces, or with one of the first three empty, is rejected |
| Signup.TwoPiecesRejected | src/pages/signup/index.tsx:30-33 | a day and a month with no year are rejected |
| Signup.TrailingSlashRejected | src/pages/signup/index.tsx:30-33 | a day and a month followed by a slash and no year are rejected |
| Signup.IncompleteDatesRejected | src/pages/signup/index.tsx:30-33 | `12/05` and `12/05/` are rejected |
| Signup.ValidThreePieces | src/pages/signup/index.tsx:29-39 | three digit pieces are accepted exactly when the day is in 1..31, the month in 1..12 and the year in 1900..current year |
| Signup.ValidateThreePieces | src/pages/signup/index.tsx:29-39 | a text of three runs of digits between slashes is accepted exactly when they read as a day in 1..31, a month in 1..12 and a year in 1900..current year |
| Signup.ValidateMaskedDate | src/pages/signup/index.tsx:22-39 | a masked input is accepted exactly when it has at least 8 digits and they read as a day in 1..31, a month in 1..12 and a year in 1900..current year |
| Signup.ThirtyFirstOfFebruaryAccepted | src/pages/signup/index.tsx:33-36 | there is no per-month day check: `31/02/2000` is accepted |
| Signup.ReorderDate | src/pages/signup/index.tsx:78-79 | when the first three pieces between slashes contain no '-', the `year-month-day` text splits on '-' into exactly the third, second and first piece |
| Signup.Register | src/pages/signup/index.tsx:67-88 | a password mismatch blocks first, then an invalid date; otherwise the payload carries the form's fields, user level 1 and the date reordered to `YYYY-MM-DD` |
| Signup.RegisterMaskedDate | src/pages/signup/index.tsx:78-87 | an accepted masked date reaches the payload as year, month and day from the same eight digits, and splits on '-' back into them |
| Profile.Capitalize | src/pages/profile/index.tsx:56 | '-' for an absent or empty text; otherwise the same length, the first letter not lower-case, the rest not upper-case, each character equal to the input's ignoring case |
| Profile.CapitalizeIdempotent | src/pages/profile/index.tsx:56 | capitalising a capitalised text changes nothing |
| Profile.CapitalizeName | src/pages/profile/index.tsx:57 | '-' for an absent or empty name; otherwise the shown name split on spaces is each space-separated piece of the name capitalised, in order |
| Profile.CapitalizeWords | src/pages/profile/index.tsx:57 | the `map` keeps the word count and capitalises each word |
| Profile.CapitalizeNamePieces | src/pages/profile/index.tsx:57 | the shown name has as many space-separated pieces as the name, each piece capitalised |
| Profile.DoubleSpaceShowsDash | src/pages/profile/index.tsx:57 | a double space between two words shows as " - " between them |
| Profile.StatText | src/pages/profile/index.tsx:62-69 | the text of `value?.toString()`, else '-', is '-' exactly when the value is absent; a present number shows as its decimal text (`String(n)` for n >= 0, so 0 shows "0"; '-' followed by `String(-n)` below 0), which `parseInt` and `Number` read back to the value |
| Profile.StatTextOfNumber | src/pages/profile/index.tsx:62-69 | the decimal text of a present statistic is never '-', is `String(n)` for n >= 0 and '-' then `String(-n)` below 0, and reads back under `parseInt` and `Number` |
| Profile.RatingOf | src/pages/profile/index.tsx:71 | the `estrelas` fallback is the rating when present, else 0 |
| Profile.ViewOf | src/pages/profile/index.tsx:59-74 | an absent or empty name, position, style, city or neighbourhood shows '-'; a present name split on spaces is its pieces each capitalised; position, style, city and neighbourhood are `capitalize` of the record's field; each of the eight statistics is `Profile.StatText` of the record's number (its exact decimal text, or '-' when absent); the star rating is the record's or 0 |
| Profile.ViewShowsStatistics | src/pages/profile/index.tsx:59-74 | every shown statistic is '-' exactly when it is absent and otherwise reads back to the record's number; the star rating is the record's or 0 |
| Profile.EmptyRecordShowsInitialView | src/pages/profile/index.tsx:26-41 | a record with every field absent is shown exactly like the initial state |
| Profile.Stars | src/pages/profile/index.tsx:82-91 | five icons, icon i filled exactly when i < rating |
| Profile.FilledStars | src/pages/profile/index.tsx:82-91 | the number of filled stars is the rating clamped to 0..5 |
| Profile.StatColor | src/pages/profile/index.tsx:93-96 | the colour is gold or white |
| Profile.StatColorOfStat | src/pages/profile/index.tsx:93-96 | a shown statistic is gold exactly when present and above 90; exactly 90 and '-' are white |
| Profile.PlaceholderIsNaN | src/pages/profile/index.tsx:94 | `Number('-')` is NaN |
| Agendamentos.UpperFirst | src/pages/agendamentos/index.tsx:62 | the first character is not lower-case and equals the input's first character ignoring case, the rest is unchanged, the length kept |
| Agendamentos.Lookup | src/pages/agendamentos/index.tsx:60 | a key lookup finds the first entry with the key, and nothing exactly when no entry has it |
| Agendamentos.FormatHorario | src/pages/agendamentos/index.tsx:58-65 | an object with no key makes the source throw (written `None`), and only that one; otherwise the day is the first key with its first letter raised (same letter ignoring case, rest unchanged) and the hours are that key's slots joined with ", " |
| Agendamentos.HorasOfFewSlots | src/pages/agendamentos/index.tsx:60 | one slot shows with no separator, no slot as "" |
| Agendamentos.HorasSeparated | src/pages/agendamentos/index.tsx:60 | two or more slots show as the first, ", ", then the rest joined |
| Agendamentos.StatusLabel | src/pages/agendamentos/index.tsx:95 | "Pago" exactly when paid, "Pendente" exactly when not |
| Agendamentos.WeekDayRoundTrip | src/pages/agendamentos/index.tsx:58-65 | for every offered week day, `{ day.toLowerCase(): slots }` is shown as that day label and the slots joined |
| Agendamentos.BookingRequestRoundTrip | src/pages/fields/BookingModal.tsx:71-79 | the `horario` of any request built by the booking modal is listed back as its day label and the selected slots in order |
| Teams.PositionsTable | src/pages/teams/index.tsx:8-16 | seven positions with pairwise distinct ids |
| Teams.DisplayName | src/pages/teams/index.tsx:101 | the stored name, or "Jogador" when absent or empty; never empty |
| Teams.EditValue | src/pages/teams/index.tsx:95 | the stored name, or "" when absent |
| Teams.DisplayAfterChange | src/pages/teams/index.tsx:48-101 | after a change the position shows the new name (or "Jogador" for an empty one) and every other position shows what it showed |
| Teams.Lineup.constructor | src/pages/teams/index.tsx:22-23 | no names and nobody being edited |
| Teams.Lineup.LoadPlayers | src/pages/teams/index.tsx:29-38 | a saved map replaces the names; without one nothing changes |
| Teams.Lineup.StartEditing | src/pages/teams/index.tsx:90 | pressing a name starts editing that position; the names are unchanged |
| Teams.Lineup.StopEditing | src/pages/teams/index.tsx:97 | leaving the input stops editing; the names are unchanged |
| Teams.Lineup.HandlePlayerNameChange | src/pages/teams/index.tsx:48-53 | the position gets the new name, every other entry is unchanged, editing stops, and the map handed to storage is the new state |
| CodeEntry.WriteKeepsOneChar | src/pages/code/index.tsx:9-23 | writing a text of at most one character keeps every cell at most one character |
| CodeEntry.CodeScreen.constructor | src/pages/code/index.tsx:5 | six empty cells |
| CodeEntry.CodeScreen.HandleChangeText | src/pages/code/index.tsx:7-11 | a fresh array of six cells, cell `index` holding the text and every other cell unchanged; cells stay at most one character when the text is |

## Left out

- Network and storage I/O: the `fetch`/`axios` calls, `AsyncStorage` reads and writes, their error handling and the `Alert` pop-ups. Their outcomes are parameters (the token, the saved player map) or results (the outcome values `Send`, `Submit`, the map returned by `HandlePlayerNameChange`).
- The device clock: `new Date()` is a `CalendarDate` parameter in the booking modal, and the current year is a parameter of the validator.
- Prices (`preco.toFixed(2)`) and `toLocaleDateString('pt-BR')`: floating point and locale formatting.
- Agendamentos.FormatHorario: for an object with no key the source throws a `TypeError` inside `renderAgendamentoItem`; the model returns `None` and does not capture what the error does to the rendering of the rest of the list.
- Agendamentos.Lookup: a `horario` is a list of key/slot pairs, so it can repeat a key, which a JavaScript object cannot; `JSON.parse` keeps the last of repeated keys while `Lookup` returns the first. The one-key objects the booking modal posts never repeat a key.
- Agendamentos.FormatHorario: `Object.keys` puts integer-like keys first in numeric order. The model takes the keys in the order given, which matches for the week-day keys the app writes.
- JsText.ParseInt: the `0x` hexadecimal prefix is not modelled. Whitespace is the ASCII set plus no-break space, byte-order mark and the line and paragraph separators. Numbers beyond double precision are exact here.
- JsText.NumberValue: `Number()` is modelled on integer text only (optional sign, decimal digits, surrounding whitespace, empty text as 0). Fractions, exponents, `Infinity` and hex are NaN here. The statistic colour only sees integers and '-'.
- JsText.ToLower: only ASCII capitals are lowered. JavaScript's `toLowerCase` also lowers non-ASCII capitals such as `Ã` or `Ç`, so `Profile.Capitalize` and `Profile.CapitalizeName` keep those upper-case here ("JOÃO" shows as "JoÃo" instead of "João"). The week-day keys the app writes are unaffected.
- JsText.ToUpperChar: ASCII letters only; `toUpperCase` would also raise non-ASCII small letters such as `ç`, which the model leaves unchanged. This affects `Agendamentos.UpperFirst` and `Profile.Capitalize` only on a first character outside ASCII.
- JsText.IntToString: integers are unbounded and printed as exact decimal digits. JavaScript numbers are doubles, so `toString()` gives exponent notation from 1e21 on ("1e+21") and rounds integers above 2^53; `Profile.StatText` inherits this. A statistic never gets near these values.
- Profile.ViewOf: record fields are typed as numbers or text. A field of another JSON type, for example a string in a numeric slot, is not modelled.
- Teams.Lineup.LoadPlayers: `JSON.parse` of the stored text is not modelled; the parsed map is the parameter.
- The team-name and timer inputs of the lineup screen are plain text state with no logic.
- The screen state for loading flags, password visibility and navigation, and all rendering and styling.
- The login, edit, fields list, menu, header and footer screens and the app shell: these are not part of this model.
- Behaviour the code does not have is not modelled. Choosing a day keeps the selected slots rather than clearing them. Nothing stops a second confirm while one is in flight. There is no price-per-person computation.
