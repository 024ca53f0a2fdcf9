/**
 * The booking modal of the field screen: a draft made of the selected
 * field, the selected week-day label, the ordered list of selected time
 * slots and the people-count text; the transitions the buttons trigger;
 * the guard in front of the confirmation; and the request it builds.
 */
module Booking {
  import opened JsText

  /** The week-day labels the modal offers, in display order. */
  const WeekDays: seq<string> := ["Segunda", "Terça", "Quarta", "Quinta", "Sexta"]

  /**
   * A field record as the modal reads it. `idEmpresa` is absent when the
   * server omits it; `horarios` maps a lower-case day key to its slots.
   * Name, price and banner are only displayed.
   */
  datatype Field = Field(id: int, idEmpresa: Option<int>, horarios: Option<map<string, seq<string>>>)

  /** The device date at confirmation time; `month0` is zero-based, as `getMonth()`. */
  datatype CalendarDate = CalendarDate(year: nat, month0: nat, day: nat)

  /** A JavaScript object with string keys, in key order. */
  type Horario = seq<(string, seq<string>)>

  /** The payload posted to the schedule endpoint. */
  datatype BookingRequest = BookingRequest(
    idCampo: int,
    idEmpresa: int,
    horario: Horario,
    quantidadePessoas: Option<int>,
    semana: string)

  /** What pressing "confirm" leads to. */
  datatype ConfirmOutcome = MissingFields | MissingToken | Send(request: BookingRequest)

  // ---------------------------------------------------------------------
  // Slot selection

  predicate Distinct(s: seq<string>)
  {
    forall i, j :: 0 <= i < j < |s| ==> s[i] != s[j]
  }

  /** `a` is `b` with some elements left out, the rest in the same order. */
  predicate IsSubsequence(a: seq<string>, b: seq<string>)
  {
    if a == [] then true
    else if b == [] then false
    else if a[0] == b[0] then IsSubsequence(a[1..], b[1..])
    else IsSubsequence(a, b[1..])
  }

  /** `prev.filter(t => t !== time)`. */
  function RemoveAll(prev: seq<string>, time: string): (r: seq<string>)
    ensures time !in r
    ensures multiset(r) == multiset(prev)[time := 0]
    ensures IsSubsequence(r, prev)
    ensures time !in prev ==> r == prev
  {
    if prev == [] then []
    else
      var rest := RemoveAll(prev[1..], time);
      assert prev == [prev[0]] + prev[1..];
      if prev[0] == time then
        SubsequenceDropHead(rest, prev);
        rest
      else
        [prev[0]] + rest
  }

  lemma SubsequenceDropHead(a: seq<string>, b: seq<string>)
    requires b != [] && IsSubsequence(a, b[1..])
    ensures IsSubsequence(a, b)
  {
    if a != [] && a[0] == b[0] {
      SubsequenceWeaken(a, b[1..]);
    }
  }

  lemma {:induction false} SubsequenceWeaken(a: seq<string>, b: seq<string>)
    requires a != [] && IsSubsequence(a, b)
    ensures IsSubsequence(a[1..], b)
  {
    if a[0] == b[0] {
      if a[1..] != [] {
        SubsequenceWeaken(a[1..], b[1..]);
        SubsequenceDropHead(a[1..], b);
      }
    } else {
      SubsequenceWeaken(a, b[1..]);
      if a[1..] != [] {
        SubsequenceDropHead(a[1..], b);
      }
    }
  }

  /**
   * `toggleHorarioSelection`: a slot already selected is removed
   * (every occurrence); any other slot is appended at the end.
   */
  function Toggle(prev: seq<string>, time: string): (r: seq<string>)
    ensures time in prev ==> time !in r && multiset(r) == multiset(prev)[time := 0] && IsSubsequence(r, prev)
    ensures time !in prev ==> r == prev + [time]
  {
    if time in prev then RemoveAll(prev, time) else prev + [time]
  }

  /** Toggling an absent slot twice gives the selection back. */
  lemma ToggleTwiceAbsent(prev: seq<string>, time: string)
    requires time !in prev
    ensures Toggle(Toggle(prev, time), time) == prev
  {
    RemoveAppended(prev, time);
  }

  lemma {:induction false} RemoveAppended(prev: seq<string>, time: string)
    requires time !in prev
    ensures RemoveAll(prev + [time], time) == prev
  {
    if prev == [] {
      assert RemoveAll([time], time) == RemoveAll([], time);
    } else {
      assert (prev + [time])[1..] == prev[1..] + [time];
      RemoveAppended(prev[1..], time);
      assert [prev[0]] + prev[1..] == prev;
    }
  }

  /** Toggling keeps a duplicate-free selection duplicate-free. */
  lemma ToggleKeepsDistinct(prev: seq<string>, time: string)
    requires Distinct(prev)
    ensures Distinct(Toggle(prev, time))
  {
    if time in prev {
      SubsequenceDistinct(RemoveAll(prev, time), prev);
    }
  }

  lemma {:induction false} SubsequenceDistinct(a: seq<string>, b: seq<string>)
    requires IsSubsequence(a, b) && Distinct(b)
    ensures Distinct(a)
  {
    if a != [] {
      if a[0] == b[0] {
        SubsequenceDistinct(a[1..], b[1..]);
        SubsequenceElements(a[1..], b[1..]);
        assert a[0] !in b[1..];
      } else {
        SubsequenceDistinct(a, b[1..]);
      }
    }
  }

  lemma {:induction false} SubsequenceElements(a: seq<string>, b: seq<string>)
    requires IsSubsequence(a, b)
    ensures forall x :: x in a ==> x in b
  {
    if a != [] {
      assert b == [b[0]] + b[1..];
      if a[0] == b[0] {
        SubsequenceElements(a[1..], b[1..]);
      } else {
        SubsequenceElements(a, b[1..]);
      }
    }
  }

  // ---------------------------------------------------------------------
  // Availability

  /**
   * The guard of `renderHorarios`: the slots offered for the selected day,
   * none when the field, its `horarios` or the entry for the lower-cased
   * day is missing.
   */
  function AvailableSlots(field: Option<Field>, day: string): (r: seq<string>)
    ensures field.None? || field.value.horarios.None? || ToLower(day) !in field.value.horarios.value ==> r == []
    ensures field.Some? && field.value.horarios.Some? && ToLower(day) in field.value.horarios.value
            ==> r == field.value.horarios.value[ToLower(day)]
  {
    match field
    case None => []
    case Some(f) =>
      match f.horarios
      case None => []
      case Some(h) => if ToLower(day) in h then h[ToLower(day)] else []
  }

  // ---------------------------------------------------------------------
  // Date stamp

  /** `String(n).padStart(2, '0')`. */
  function Pad2(n: nat): (r: string)
    ensures AllDigits(r) && DigitsValue(r) == n
    ensures n < 100 ==> |r| == 2
    ensures n >= 10 ==> r == NatToString(n)
  {
    var s := NatToString(n);
    if |s| < 2 then
      var r := "0" + s;
      assert r[..1] == "0";
      r
    else s
  }

  /** `getCurrentWeek`: `year-MM-DD` from the device date. */
  function CurrentWeek(today: CalendarDate): (r: string)
    ensures Split(r, '-') == [NatToString(today.year), Pad2(today.month0 + 1), Pad2(today.day)]
  {
    var y, m, d := NatToString(today.year), Pad2(today.month0 + 1), Pad2(today.day);
    SplitDashed(y, m, d);
    y + "-" + m + "-" + d
  }

  /**
   * The date stamp has the year, then the one-based month and the day, each
   * as two digits, separated by '-'; each part reads back to its number.
   */
  lemma CurrentWeekShape(today: CalendarDate)
    requires today.month0 < 12 && 1 <= today.day <= 31
    ensures var parts := Split(CurrentWeek(today), '-');
      && |parts| == 3
      && parts[0] == NatToString(today.year)
      && |parts[1]| == 2 && ParseInt(parts[1]) == Some(today.month0 + 1)
      && |parts[2]| == 2 && ParseInt(parts[2]) == Some(today.day)
      && |CurrentWeek(today)| == |NatToString(today.year)| + 6
  {
    var y, m, d := NatToString(today.year), Pad2(today.month0 + 1), Pad2(today.day);
    DashedLength(y, m, d);
    ParseIntDigits(m);
    ParseIntDigits(d);
  }

  /** Two dashes and two two-character parts add six characters to the year. */
  lemma DashedLength(y: string, m: string, d: string)
    requires |m| == 2 && |d| == 2
    ensures |y + "-" + m + "-" + d| == |y| + 6
  {
  }

  // ---------------------------------------------------------------------
  // Confirmation

  /** `selectedField.idEmpresa || 1`: 1 when absent or zero. */
  function CompanyId(field: Field): (r: int)
    ensures r != 0
    ensures field.idEmpresa.Some? && field.idEmpresa.value != 0 ==> r == field.idEmpresa.value
    ensures field.idEmpresa.None? || field.idEmpresa.value == 0 ==> r == 1
  {
    if field.idEmpresa.None? || field.idEmpresa.value == 0 then 1 else field.idEmpresa.value
  }

  /** The `bookingData` object built in `handleConfirmBooking`. */
  function BuildRequest(field: Field, day: string, slots: seq<string>, peopleCount: string, today: CalendarDate): (r: BookingRequest)
    ensures r.idCampo == field.id
    ensures r.idEmpresa == CompanyId(field)
    ensures |r.horario| == 1 && r.horario[0].0 == ToLower(day) && r.horario[0].1 == slots
    ensures r.quantidadePessoas == ParseInt(peopleCount)
    ensures r.semana == CurrentWeek(today)
  {
    BookingRequest(field.id, CompanyId(field), [(ToLower(day), slots)], ParseInt(peopleCount), CurrentWeek(today))
  }

  /** The stored token is present and not the empty string. */
  predicate HasToken(token: Option<string>)
  {
    token.Some? && token.value != ""
  }

  /**
   * The whole confirmation decision on the draft's values: the form guard
   * first, then the token read from storage, then the request.
   */
  function Confirm(field: Option<Field>, day: string, slots: seq<string>, peopleCount: string,
                   token: Option<string>, today: CalendarDate): (r: ConfirmOutcome)
    ensures r == MissingFields <==> field.None? || slots == [] || peopleCount == ""
    ensures r == MissingToken <==> field.Some? && slots != [] && peopleCount != "" && !HasToken(token)
    ensures r.Send? ==> field.Some? && r.request == BuildRequest(field.value, day, slots, peopleCount, today)
  {
    if field.None? || slots == [] || peopleCount == "" then MissingFields
    else if !HasToken(token) then MissingToken
    else Send(BuildRequest(field.value, day, slots, peopleCount, today))
  }

  /** The guard looks only at emptiness: a non-numeric count still builds a request. */
  lemma NonNumericCountStillSends(field: Field, day: string, slots: seq<string>, token: string, today: CalendarDate)
    requires slots != [] && token != ""
    ensures var r := Confirm(Some(field), day, slots, "abc", Some(token), today);
      r.Send? && r.request.quantidadePessoas == None
  {
    ParseIntNoDigits("abc");
  }

  /** A sent request carries exactly one day key and a non-empty slot list. */
  lemma SentRequestShape(field: Option<Field>, day: string, slots: seq<string>, peopleCount: string,
                         token: Option<string>, today: CalendarDate)
    requires Confirm(field, day, slots, peopleCount, token, today).Send?
    ensures var req := Confirm(field, day, slots, peopleCount, token, today).request;
      |req.horario| == 1 && req.horario[0].1 != [] && req.horario[0].1 == slots && req.idEmpresa != 0
  {
  }

  // ---------------------------------------------------------------------
  // The modal's state

  class BookingModal {
    var selectedDay: string
    var peopleCount: string
    var selectedField: Option<Field>
    var selectedHorarios: seq<string>

    /** The day is one of the offered labels and no slot is selected twice. */
    ghost predicate Valid()
      reads this
    {
      selectedDay in WeekDays && Distinct(selectedHorarios)
    }

    /** The `useState` initial values. */
    constructor ()
      ensures Valid()
      ensures selectedDay == WeekDays[0] && peopleCount == ""
      ensures selectedField == None && selectedHorarios == []
    {
      selectedDay := WeekDays[0];
      peopleCount := "";
      selectedField := None;
      selectedHorarios := [];
    }

    /** `handleFieldSelect`: sets the field and clears the slots. */
    method HandleFieldSelect(field: Field)
      requires Valid()
      modifies this
      ensures Valid()
      ensures selectedField == Some(field) && selectedHorarios == []
      ensures selectedDay == old(selectedDay) && peopleCount == old(peopleCount)
    {
      selectedField := Some(field);
      selectedHorarios := [];
    }

    /** `handleBack`: clears the field and the slots. */
    method HandleBack()
      requires Valid()
      modifies this
      ensures Valid()
      ensures selectedField == None && selectedHorarios == []
      ensures selectedDay == old(selectedDay) && peopleCount == old(peopleCount)
    {
      selectedField := None;
      selectedHorarios := [];
    }

    /** A slot button press. */
    method ToggleHorarioSelection(time: string)
      requires Valid()
      modifies this
      ensures Valid()
      ensures selectedHorarios == Toggle(old(selectedHorarios), time)
      ensures selectedField == old(selectedField) && selectedDay == old(selectedDay)
      ensures peopleCount == old(peopleCount)
    {
      ToggleKeepsDistinct(selectedHorarios, time);
      selectedHorarios := Toggle(selectedHorarios, time);
    }

    /** A day button press: only the day changes; the selected slots are kept. */
    method SetSelectedDay(day: string)
      requires Valid() && day in WeekDays
      modifies this
      ensures Valid()
      ensures selectedDay == day
      ensures selectedHorarios == old(selectedHorarios) && selectedField == old(selectedField)
      ensures peopleCount == old(peopleCount)
    {
      selectedDay := day;
    }

    /** The people-count input's `onChangeText`. */
    method SetPeopleCount(text: string)
      requires Valid()
      modifies this
      ensures Valid()
      ensures peopleCount == text
      ensures selectedDay == old(selectedDay) && selectedHorarios == old(selectedHorarios)
      ensures selectedField == old(selectedField)
    {
      peopleCount := text;
    }

    /** The slots the form offers for the current field and day. */
    function Slots(): (r: seq<string>)
      reads this
      ensures (|| selectedField.None?
               || selectedField.value.horarios.None?
               || ToLower(selectedDay) !in selectedField.value.horarios.value) ==> r == []
      ensures (&& selectedField.Some?
               && selectedField.value.horarios.Some?
               && ToLower(selectedDay) in selectedField.value.horarios.value)
              ==> r == selectedField.value.horarios.value[ToLower(selectedDay)]
    {
      AvailableSlots(selectedField, selectedDay)
    }

    /**
     * `handleConfirmBooking` up to the network call: the token read from
     * storage and the device date are inputs; the draft is not changed.
     */
    method HandleConfirmBooking(token: Option<string>, today: CalendarDate) returns (outcome: ConfirmOutcome)
      ensures outcome == MissingFields <==> selectedField.None? || selectedHorarios == [] || peopleCount == ""
      ensures outcome == MissingToken <==>
        selectedField.Some? && selectedHorarios != [] && peopleCount != "" && !HasToken(token)
      ensures outcome.Send? ==> outcome.request == BuildRequest(selectedField.value, selectedDay, selectedHorarios, peopleCount, today)
    {
      outcome := Confirm(selectedField, selectedDay, selectedHorarios, peopleCount, token, today);
    }
  }
}
