/**
 * The "my bookings" list: how a booking's `horario` object is shown as a
 * day and a list of hours, and the payment status label. The `horario`
 * shown here is the one the booking modal posts, so the two are tied by a
 * round-trip lemma.
 */
module Agendamentos {
  import opened JsText
  import Booking

  /** A `horario` object, keys in order. */
  type Horario = Booking.Horario

  /** What `formatHorario` returns. */
  datatype HorarioDisplay = HorarioDisplay(dia: string, horas: string)

  /** `s.charAt(0).toUpperCase() + s.slice(1)`. */
  function UpperFirst(s: string): (r: string)
    ensures |r| == |s|
    ensures s != [] ==> !IsLowerAscii(r[0]) && ToLowerChar(r[0]) == ToLowerChar(s[0]) && r[1..] == s[1..]
    ensures s != [] && !IsLowerAscii(s[0]) ==> r == s
  {
    if s == [] then [] else [ToUpperChar(s[0])] + s[1..]
  }

  /** `h[key]`: the slots of the first entry with that key. */
  function Lookup(h: Horario, key: string): (r: Option<seq<string>>)
    ensures r.None? <==> forall k :: 0 <= k < |h| ==> h[k].0 != key
    ensures r.Some? ==> exists k :: 0 <= k < |h| && h[k].0 == key && r.value == h[k].1
                                   && forall j :: 0 <= j < k ==> h[j].0 != key
  {
    if h == [] then None
    else if h[0].0 == key then
      Some(h[0].1)
    else
      var r := Lookup(h[1..], key);
      if r.Some? then
        var k :| 0 <= k < |h[1..]| && h[1..][k].0 == key && r.value == h[1..][k].1
                 && forall j :: 0 <= j < k ==> h[1..][j].0 != key;
        assert h[k + 1].0 == key && r.value == h[k + 1].1;
        assert forall j :: 0 <= j < k + 1 ==> h[j].0 != key by {
          forall j | 0 <= j < k + 1 ensures h[j].0 != key {
            if j > 0 { assert h[j] == h[1..][j - 1]; }
          }
        }
        r
      else
        r
  }

  /**
   * `formatHorario`: the first key is the day, shown with its first letter
   * in upper case; its slots are joined with ", ". An object with no key
   * makes the source throw, written None.
   */
  function FormatHorario(h: Horario): (r: Option<HorarioDisplay>)
    ensures r.None? <==> h == []
    ensures r.Some? ==>
      && r.value.horas == Join(h[0].1, ", ")
      && |r.value.dia| == |h[0].0|
      && (h[0].0 != [] ==> !IsLowerAscii(r.value.dia[0]) && ToLowerChar(r.value.dia[0]) == ToLowerChar(h[0].0[0])
                           && r.value.dia[1..] == h[0].0[1..])
  {
    if h == [] then None
    else
      var dia := h[0].0;
      var horas := Join(Lookup(h, dia).value, ", ");
      Some(HorarioDisplay(UpperFirst(dia), horas))
  }

  /** One slot is shown without a separator, no slot as the empty text. */
  lemma HorasOfFewSlots(day: string, slot: string)
    ensures FormatHorario([(day, [slot])]).value.horas == slot
    ensures FormatHorario([(day, [])]).value.horas == ""
  {
  }

  /** Hours joined from two or more slots start with the first slot and ", ". */
  lemma HorasSeparated(day: string, slots: seq<string>)
    requires |slots| >= 2
    ensures var horas := FormatHorario([(day, slots)]).value.horas;
      horas == slots[0] + ", " + Join(slots[1..], ", ")
  {
  }

  /** `item.pago ? "Pago" : "Pendente"`. */
  function StatusLabel(pago: bool): (r: string)
    ensures r == "Pago" <==> pago
    ensures r == "Pendente" <==> !pago
  {
    if pago then "Pago" else "Pendente"
  }

  // ---------------------------------------------------------------------
  // Round trip with the booking modal

  /** A label whose first letter is upper case and the rest is not. */
  predicate TitleCase(name: string)
  {
    name != [] && IsUpperAscii(name[0]) && forall i :: 1 <= i < |name| ==> !IsUpperAscii(name[i])
  }

  /** Lower-casing a title-case label and raising its first letter gives it back. */
  lemma UpperFirstOfLower(name: string)
    requires TitleCase(name)
    ensures UpperFirst(ToLower(name)) == name
  {
    var low := ToLower(name);
    assert low[0] == ToLowerChar(name[0]);
    assert ToUpperChar(low[0]) == name[0];
    assert forall i :: 1 <= i < |name| ==> low[i] == name[i];
  }

  lemma WeekDaysTitleCase()
    ensures forall name :: name in Booking.WeekDays ==> TitleCase(name)
  {
    assert TitleCase("Segunda");
    assert TitleCase("Terça");
    assert TitleCase("Quarta");
    assert TitleCase("Quinta");
    assert TitleCase("Sexta");
  }

  /**
   * Every day the modal offers comes back as the same label: formatting
   * `{ label.toLowerCase(): slots }` shows the label and the slots joined.
   */
  lemma WeekDayRoundTrip(name: string, slots: seq<string>)
    requires name in Booking.WeekDays
    ensures FormatHorario([(ToLower(name), slots)]) == Some(HorarioDisplay(name, Join(slots, ", ")))
  {
    WeekDaysTitleCase();
    UpperFirstOfLower(name);
  }

  /**
   * The `horario` of a request the modal builds for one of its days is
   * listed back as that day and the selected slots in selection order.
   */
  lemma BookingRequestRoundTrip(field: Booking.Field, day: string, slots: seq<string>,
                                peopleCount: string, today: Booking.CalendarDate)
    requires day in Booking.WeekDays
    ensures var req := Booking.BuildRequest(field, day, slots, peopleCount, today);
      FormatHorario(req.horario) == Some(HorarioDisplay(day, Join(slots, ", ")))
  {
    WeekDayRoundTrip(day, slots);
  }
}
