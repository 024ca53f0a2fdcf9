/**
 * The profile screen: how the server's profile record becomes the text
 * shown (capitalisation, the '-' placeholders, the star rating) and the
 * colour of a statistic.
 */
module Profile {
  import opened JsText

  // ---------------------------------------------------------------------
  // Capitalisation

  /**
   * `capitalize`: '-' for an absent or empty text; otherwise the first
   * character in upper case and the rest in lower case.
   */
  function Capitalize(s: Option<string>): (r: string)
    ensures s.None? || s.value == "" ==> r == "-"
    ensures s.Some? && s.value != "" ==>
      && |r| == |s.value|
      && !IsLowerAscii(r[0])
      && (forall i :: 1 <= i < |r| ==> !IsUpperAscii(r[i]))
      && (forall i :: 0 <= i < |r| ==> (r[i] == s.value[i] || ToLowerChar(r[i]) == ToLowerChar(s.value[i])))
  {
    if s.None? || s.value == "" then "-"
    else
      var r := [ToUpperChar(s.value[0])] + ToLower(s.value[1..]);
      assert forall i :: 1 <= i < |r| ==> r[i] == ToLowerChar(s.value[i]);
      r
  }

  /** Capitalising a capitalised text changes nothing. */
  lemma CapitalizeIdempotent(s: Option<string>)
    ensures Capitalize(Some(Capitalize(s))) == Capitalize(s)
  {
    if s.Some? && s.value != "" {
      var r := Capitalize(s);
      var t := [ToUpperChar(r[0])] + ToLower(r[1..]);
      assert Capitalize(Some(r)) == t;
      assert forall i :: 0 <= i < |r| ==> t[i] == r[i];
    }
  }

  /** Only letters change, so a space appears where the input had one. */
  lemma CapitalizeKeepsSpaces(w: string)
    requires ' ' !in w
    ensures ' ' !in Capitalize(Some(w))
  {
    var r := Capitalize(Some(w));
    if w != "" {
      forall i | 0 <= i < |r| ensures r[i] != ' ' {
        if i == 0 {
          assert r[0] == ToUpperChar(w[0]);
        } else {
          assert r[i] == ToLower(w[1..])[i - 1] == ToLowerChar(w[i]);
        }
      }
    }
  }

  /** Each word capitalised on its own. */
  function CapitalizeWords(words: seq<string>): (r: seq<string>)
    ensures |r| == |words|
    ensures forall k :: 0 <= k < |words| ==> r[k] == Capitalize(Some(words[k]))
  {
    if words == [] then [] else [Capitalize(Some(words[0]))] + CapitalizeWords(words[1..])
  }

  /**
   * `capitalizeName`: '-' for an absent or empty name; otherwise the name
   * split at each single space, each piece capitalised (an empty piece
   * becomes '-') and the pieces joined with single spaces.
   */
  function CapitalizeName(s: Option<string>): (r: string)
    ensures s.None? || s.value == "" ==> r == "-"
    ensures s.Some? && s.value != "" ==> Split(r, ' ') == CapitalizeWords(Split(s.value, ' '))
  {
    if s.None? || s.value == "" then "-"
    else
      var words := CapitalizeWords(Split(s.value, ' '));
      forall k | 0 <= k < |words| ensures ' ' !in words[k] {
        CapitalizeKeepsSpaces(Split(s.value, ' ')[k]);
      }
      SplitJoin(words, ' ');
      Join(words, " ")
  }

  /**
   * The shown name has as many space-separated pieces as the name it came
   * from, and each is that piece capitalised.
   */
  lemma CapitalizeNamePieces(name: string)
    requires name != ""
    ensures var pieces := Split(name, ' ');
      var shown := Split(CapitalizeName(Some(name)), ' ');
      && |shown| == |pieces|
      && forall k :: 0 <= k < |pieces| ==> shown[k] == Capitalize(Some(pieces[k]))
  {
    var pieces := Split(name, ' ');
    var words := CapitalizeWords(pieces);
    forall k | 0 <= k < |words| ensures ' ' !in words[k] {
      CapitalizeKeepsSpaces(pieces[k]);
    }
    SplitJoin(words, ' ');
  }

  /** A double space leaves an empty piece, shown as '-'. */
  lemma DoubleSpaceShowsDash(first: string, last: string)
    requires ' ' !in first && ' ' !in last
    ensures CapitalizeName(Some(first + "  " + last)) ==
      Capitalize(Some(first)) + " - " + Capitalize(Some(last))
  {
    var name := first + "  " + last;
    var a, c := Capitalize(Some(first)), Capitalize(Some(last));
    DoubleSpacePieces(first, last);
    var words := CapitalizeWords([first, "", last]);
    assert words == [a, "-", c];
    assert CapitalizeName(Some(name)) == Join(words, " ");
    JoinThree(a, "-", c, " ");
    DashBetween(a, c);
  }

  /** Joining with single spaces around '-' is the text " - " in between. */
  lemma DashBetween(a: string, c: string)
    ensures a + " " + "-" + " " + c == a + " - " + c
  {
  }

  lemma DoubleSpacePieces(first: string, last: string)
    requires ' ' !in first && ' ' !in last
    ensures Split(first + "  " + last, ' ') == [first, "", last]
  {
    assert first + "  " + last == Join([first, "", last], " ") by {
      assert Join(["", last], " ") == " " + last;
    }
    SplitJoin([first, "", last], ' ');
  }

  // ---------------------------------------------------------------------
  // The profile record and what is shown of it

  /** The profile record as the server sends it; every field may be absent. */
  datatype ProfileRecord = ProfileRecord(
    nomereal: Option<string>,
    posicao: Option<string>,
    numeropreferido: Option<int>,
    pontos: Option<int>,
    vitorias: Option<int>,
    jogos: Option<int>,
    reflexos: Option<int>,
    defesa: Option<int>,
    forca: Option<int>,
    fisico: Option<int>,
    estilo: Option<string>,
    estrelas: Option<int>,
    cidadeestado: Option<string>,
    bairro: Option<string>)

  /** The screen's `userData` state. */
  datatype UserView = UserView(
    name: string,
    position: string,
    number: string,
    points: string,
    victories: string,
    games: string,
    reflexes: string,
    defense: string,
    kickingPower: string,
    physical: string,
    playingStyle: string,
    styleRating: int,
    location: string,
    subLocation: string)

  /** What the screen shows before the profile arrives, or when it fails to. */
  const InitialView: UserView :=
    UserView("-", "-", "-", "-", "-", "-", "-", "-", "-", "-", "-", 0, "-", "-")

  /**
   * `value?.toString() || '-'`: a number shows as its decimal text, which
   * reads back to it; only an absent one shows '-', so 0 shows "0".
   */
  function StatText(v: Option<int>): (r: string)
    ensures r == "-" <==> v.None?
    ensures v.Some? ==> ParseInt(r) == v && NumberValue(r) == v
    ensures v.Some? && v.value >= 0 ==> r == NatToString(v.value)
    ensures v.Some? && v.value < 0 ==> |r| >= 2 && r[0] == '-' && r[1..] == NatToString(-v.value)
  {
    match v
    case None => "-"
    case Some(x) =>
      StatTextOfNumber(x);
      IntToString(x)
  }

  /** The decimal text of a number is never '-' and reads back to it. */
  lemma StatTextOfNumber(x: int)
    ensures var r := IntToString(x);
      && r != "-"
      && ParseInt(r) == Some(x) && NumberValue(r) == Some(x)
      && (x >= 0 ==> r == NatToString(x))
      && (x < 0 ==> |r| >= 2 && r[0] == '-' && r[1..] == NatToString(-x))
  {
    IntToStringRoundTrip(x);
    NumberOfIntToString(x);
  }

  /** `estrelas || 0`. */
  function RatingOf(v: Option<int>): (r: int)
    ensures v.Some? ==> r == v.value
    ensures v.None? ==> r == 0
  {
    if v.None? || v.value == 0 then 0 else v.value
  }

  /** The `setUserData` call of `fetchUserData`. */
  function ViewOf(p: ProfileRecord): (v: UserView)
    ensures p.nomereal.None? || p.nomereal.value == "" ==> v.name == "-"
    ensures p.posicao.None? || p.posicao.value == "" ==> v.position == "-"
    ensures p.estilo.None? || p.estilo.value == "" ==> v.playingStyle == "-"
    ensures p.cidadeestado.None? || p.cidadeestado.value == "" ==> v.location == "-"
    ensures p.bairro.None? || p.bairro.value == "" ==> v.subLocation == "-"
    ensures p.nomereal.Some? && p.nomereal.value != "" ==>
      Split(v.name, ' ') == CapitalizeWords(Split(p.nomereal.value, ' '))
    ensures v.position == Capitalize(p.posicao)
    ensures v.playingStyle == Capitalize(p.estilo)
    ensures v.location == Capitalize(p.cidadeestado)
    ensures v.subLocation == Capitalize(p.bairro)
    ensures v.number == StatText(p.numeropreferido) && v.points == StatText(p.pontos)
    ensures v.victories == StatText(p.vitorias) && v.games == StatText(p.jogos)
    ensures v.reflexes == StatText(p.reflexos) && v.defense == StatText(p.defesa)
    ensures v.kickingPower == StatText(p.forca) && v.physical == StatText(p.fisico)
    ensures v.styleRating == (if p.estrelas.Some? then p.estrelas.value else 0)
  {
    UserView(
      CapitalizeName(p.nomereal),
      Capitalize(p.posicao),
      StatText(p.numeropreferido),
      StatText(p.pontos),
      StatText(p.vitorias),
      StatText(p.jogos),
      StatText(p.reflexos),
      StatText(p.defesa),
      StatText(p.forca),
      StatText(p.fisico),
      Capitalize(p.estilo),
      RatingOf(p.estrelas),
      Capitalize(p.cidadeestado),
      Capitalize(p.bairro))
  }

  /**
   * Every statistic of the record is shown as '-' exactly when it is
   * absent, and otherwise as text that reads back to the number; the star
   * rating is the record's, or 0.
   */
  lemma ViewShowsStatistics(p: ProfileRecord)
    ensures var v := ViewOf(p);
      && (v.points == "-" <==> p.pontos.None?)
      && (v.victories == "-" <==> p.vitorias.None?)
      && (v.games == "-" <==> p.jogos.None?)
      && (v.number == "-" <==> p.numeropreferido.None?)
      && (v.reflexes == "-" <==> p.reflexos.None?)
      && (v.defense == "-" <==> p.defesa.None?)
      && (v.kickingPower == "-" <==> p.forca.None?)
      && (v.physical == "-" <==> p.fisico.None?)
      && (p.pontos.Some? ==> ParseInt(v.points) == p.pontos)
      && (p.vitorias.Some? ==> ParseInt(v.victories) == p.vitorias)
      && (p.jogos.Some? ==> ParseInt(v.games) == p.jogos)
      && (p.reflexos.Some? ==> ParseInt(v.reflexes) == p.reflexos)
      && (p.defesa.Some? ==> ParseInt(v.defense) == p.defesa)
      && (p.forca.Some? ==> ParseInt(v.kickingPower) == p.forca)
      && (p.fisico.Some? ==> ParseInt(v.physical) == p.fisico)
      && (p.numeropreferido.Some? ==> ParseInt(v.number) == p.numeropreferido)
      && v.styleRating == (if p.estrelas.Some? then p.estrelas.value else 0)
  {
  }

  /** An empty profile record is shown exactly like the initial state. */
  lemma EmptyRecordShowsInitialView()
    ensures ViewOf(ProfileRecord(None, None, None, None, None, None, None, None, None, None, None, None, None, None))
      == InitialView
  {
  }

  // ---------------------------------------------------------------------
  // Stars and colours

  /** `renderStars`: five icons, icon i filled when i < rating. */
  function Stars(rating: int): (r: seq<bool>)
    ensures |r| == 5
    ensures forall i :: 0 <= i < 5 ==> (r[i] <==> i < rating)
  {
    seq(5, i => i < rating)
  }

  function CountFilled(s: seq<bool>): nat
  {
    if s == [] then 0 else CountFilled(s[..|s| - 1]) + (if s[|s| - 1] then 1 else 0)
  }

  function Clamp(x: int, lo: int, hi: int): int
  {
    if x < lo then lo else if x > hi then hi else x
  }

  /** The number of filled stars is the rating clamped to 0..5. */
  lemma FilledStars(rating: int)
    ensures CountFilled(Stars(rating)) == Clamp(rating, 0, 5)
  {
    var s := Stars(rating);
    FilledPrefix(s, rating, 5);
    assert s[..5] == s;
  }

  lemma {:induction false} FilledPrefix(s: seq<bool>, rating: int, k: nat)
    requires k <= |s|
    requires forall i :: 0 <= i < |s| ==> (s[i] <==> i < rating)
    ensures CountFilled(s[..k]) == Clamp(rating, 0, k)
  {
    if k > 0 {
      FilledPrefix(s, rating, k - 1);
      assert s[..k][..k - 1] == s[..k - 1];
    }
  }

  const Gold := "#FFD700"
  const White := "#FFFFFF"

  /** `getColorForStat`: gold when the value reads as a number above 90. */
  function StatColor(value: string): (r: string)
    ensures r == Gold || r == White
  {
    var v := NumberValue(value);
    if v.Some? && v.value > 90 then Gold else White
  }

  /**
   * A shown statistic is gold exactly when the number is present and above
   * 90: exactly 90 and the '-' placeholder are white.
   */
  lemma StatColorOfStat(v: Option<int>)
    ensures StatColor(StatText(v)) == Gold <==> v.Some? && v.value > 90
  {
    if v.None? {
      PlaceholderIsNaN(StatText(v));
    }
  }

  /** `Number('-')` is NaN. */
  lemma PlaceholderIsNaN(s: string)
    requires s == "-"
    ensures NumberValue(s) == None
  {
    assert TrimStart(s) == s;
    assert TrimEnd(s) == s;
  }
}
