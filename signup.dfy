/**
 * The registration screen: the birth-date mask applied on every
 * keystroke, the date validator, and the checks and date reordering done
 * before the registration payload is posted.
 */
module Signup {
  import opened JsText

  function Min(a: int, b: int): int { if a < b then a else b }

  predicate DateAlphabet(s: string)
  {
    forall i :: 0 <= i < |s| ==> IsDigit(s[i]) || s[i] == '/'
  }

  // ---------------------------------------------------------------------
  // The input mask

  /**
   * `formatDate`: keeps the digits, then shows up to two as they are, up
   * to four as `DD/rest`, and more as `DD/MM/YYYY` cut after the eighth
   * digit.
   */
  function FormatDate(text: string): (r: string)
    ensures DateAlphabet(r)
    ensures |r| <= 10
    ensures KeepDigits(r) == KeepDigits(text)[..Min(|KeepDigits(text)|, 8)]
    ensures KeepDigits(r) <= KeepDigits(text)
  {
    var n := KeepDigits(text);
    if |n| <= 2 then
      assert n[..Min(|n|, 8)] == n;
      n
    else if |n| <= 4 then
      MaskTwo(n);
      n[..2] + "/" + n[2..]
    else
      MaskThree(n);
      n[..2] + "/" + n[2..4] + "/" + n[4..Min(|n|, 8)]
  }

  /** A slash after a run of digits is dropped and the digits are kept. */
  lemma KeepDigitsAfterSlash(a: string, b: string)
    requires AllDigits(a)
    ensures KeepDigits(a + "/" + b) == a + KeepDigits(b)
  {
    var t := ['/'] + b;
    assert a + "/" + b == a + t;
    KeepDigitsConcat(a, t);
    KeepDigitsSkip('/', b);
  }

  /** Removing the one slash between two runs of digits gives the digits joined. */
  lemma KeepDigitsAroundSlash(a: string, b: string)
    requires AllDigits(a) && AllDigits(b)
    ensures KeepDigits(a + "/" + b) == a + b
  {
    KeepDigitsAfterSlash(a, b);
  }

  /** The `DD/rest` shape keeps the digits it was given and only adds a slash. */
  lemma MaskTwo(n: string)
    requires AllDigits(n) && 2 < |n| <= 4
    ensures var r := n[..2] + "/" + n[2..];
      DateAlphabet(r) && |r| <= 10 && KeepDigits(r) == n[..Min(|n|, 8)]
  {
    KeepDigitsAroundSlash(n[..2], n[2..]);
    assert n[..2] + n[2..] == n;
    assert n[..Min(|n|, 8)] == n;
    SlashAlphabet(n[..2], n[2..]);
  }

  /** The `DD/MM/YYYY` shape keeps the first eight digits and only adds slashes. */
  lemma MaskThree(n: string)
    requires AllDigits(n) && |n| > 4
    ensures var r := n[..2] + "/" + n[2..4] + "/" + n[4..Min(|n|, 8)];
      DateAlphabet(r) && |r| <= 10 && KeepDigits(r) == n[..Min(|n|, 8)]
  {
    var m := Min(|n|, 8);
    var a, b, c := n[..2], n[2..4], n[4..m];
    MaskDigitsThree(a, b, c);
    assert n[..4] == a + b;
    assert n[..m] == n[..4] + c;
    SlashAlphabet(a, b);
    SlashAlphabet(a + "/" + b, c);
  }

  /** Two texts of digits and slashes joined by a slash are digits and slashes. */
  lemma SlashAlphabet(a: string, b: string)
    requires DateAlphabet(a) && DateAlphabet(b)
    ensures DateAlphabet(a + "/" + b)
  {
    var r := a + "/" + b;
    forall i | 0 <= i < |r| ensures IsDigit(r[i]) || r[i] == '/' {
      if i < |a| {
        assert r[i] == a[i];
      } else if i > |a| {
        assert r[i] == b[i - |a| - 1];
      }
    }
  }

  lemma MaskDigitsThree(a: string, b: string, c: string)
    requires AllDigits(a) && AllDigits(b) && AllDigits(c)
    ensures KeepDigits(a + "/" + b + "/" + c) == a + b + c
  {
    KeepDigitsAroundSlash(a, b);
    KeepDigitsBeforeSlash(a + "/" + b, c);
  }

  /** A slash before a run of digits is dropped and the digits are kept. */
  lemma KeepDigitsBeforeSlash(x: string, c: string)
    requires AllDigits(c)
    ensures KeepDigits(x + "/" + c) == KeepDigits(x) + c
  {
    KeepDigitsConcat(x + "/", c);
    KeepDigitsAppendSkip(x, '/');
  }

  /** The pieces a masked date shows between its slashes, from its digits. */
  function DatePieces(n: string): (r: seq<string>)
    requires AllDigits(n)
    ensures 1 <= |r| <= 3
    ensures forall k :: 0 <= k < |r| ==> AllDigits(r[k])
  {
    if |n| <= 2 then [n]
    else if |n| <= 4 then [n[..2], n[2..]]
    else [n[..2], n[2..4], n[4..Min(|n|, 8)]]
  }

  /** The mask joins the date pieces with '/'. */
  lemma FormatDateIsJoin(text: string)
    ensures FormatDate(text) == Join(DatePieces(KeepDigits(text)), "/")
  {
    var n := KeepDigits(text);
    if |n| > 4 {
      JoinThree(n[..2], n[2..4], n[4..Min(|n|, 8)], "/");
    } else if |n| > 2 {
      JoinTwo(n[..2], n[2..], "/");
    }
  }

  /** The pieces between the slashes of a masked date. */
  lemma FormatDateParts(text: string)
    ensures Split(FormatDate(text), '/') == DatePieces(KeepDigits(text))
  {
    var pieces := DatePieces(KeepDigits(text));
    FormatDateIsJoin(text);
    forall k | 0 <= k < |pieces| ensures '/' !in pieces[k] {
      NoSlash(pieces[k]);
    }
    SplitJoin(pieces, '/');
  }

  lemma NoSlash(s: string)
    requires AllDigits(s)
    ensures '/' !in s
  {
  }

  /** Masking an already masked text changes nothing. */
  lemma FormatDateIdempotent(text: string)
    ensures FormatDate(FormatDate(text)) == FormatDate(text)
  {
    var n := KeepDigits(text);
    var n8 := n[..Min(|n|, 8)];
    FormatDateIsJoin(text);
    FormatDateIsJoin(FormatDate(text));
    assert KeepDigits(FormatDate(text)) == n8;
    if |n| > 8 {
      assert n8[..2] == n[..2] && n8[2..4] == n[2..4] && n8[4..8] == n[4..8];
      assert DatePieces(n8) == DatePieces(n);
    } else {
      assert n8 == n;
    }
  }

  // ---------------------------------------------------------------------
  // The validator

  /** `parseInt` of the k-th piece; a missing piece is `parseInt(undefined)`, NaN. */
  function Part(parts: seq<string>, k: nat): Option<int>
  {
    if k < |parts| then ParseInt(parts[k]) else None
  }

  /** A parsed number is truthy unless it is NaN or 0. */
  predicate Truthy(v: Option<int>)
  {
    v.Some? && v.value != 0
  }

  /**
   * `validateDate`: day, month and year are the first three pieces between
   * slashes; each must parse to a non-zero number, the day lie in 1..31,
   * the month in 1..12 and the year in 1900..currentYear. The day is not
   * checked against the month.
   */
  function ValidateDate(date: string, currentYear: int): (ok: bool)
    ensures ok ==> |Split(date, '/')| >= 3
  {
    ValidParts(Split(date, '/'), currentYear)
  }

  /** The checks of `validateDate` on the pieces of the date. */
  predicate ValidParts(parts: seq<string>, currentYear: int)
  {
    ValidNumbers(Part(parts, 0), Part(parts, 1), Part(parts, 2), currentYear)
  }

  /** The checks of `validateDate` on the parsed day, month and year. */
  predicate ValidNumbers(day: Option<int>, month: Option<int>, year: Option<int>, currentYear: int)
  {
    if !Truthy(day) || !Truthy(month) || !Truthy(year) then false
    else if day.value < 1 || day.value > 31 then false
    else if month.value < 1 || month.value > 12 then false
    else if year.value < 1900 || year.value > currentYear then false
    else true
  }

  /** A date with fewer than three pieces, or with an empty one among them, is rejected. */
  lemma MissingPartRejected(date: string, currentYear: int)
    requires var parts := Split(date, '/');
      |parts| < 3 || parts[0] == "" || parts[1] == "" || parts[2] == ""
    ensures !ValidateDate(date, currentYear)
  {
    var parts := Split(date, '/');
    if |parts| >= 3 {
      if parts[0] == "" { ParseIntNoDigits(parts[0]); }
      if parts[1] == "" { ParseIntNoDigits(parts[1]); }
      if parts[2] == "" { ParseIntNoDigits(parts[2]); }
    }
  }

  /** `12/05` and `12/05/` are rejected. */
  lemma IncompleteDatesRejected(date: string, currentYear: int)
    requires date == "12/05" || date == "12/05/"
    ensures !ValidateDate(date, currentYear)
  {
    var d, m := "12", "05";
    NoSlash(d);
    NoSlash(m);
    if date == "12/05" {
      assert date == d + "/" + m;
      TwoPiecesRejected(d, m, currentYear);
    } else {
      assert date == d + "/" + m + "/";
      TrailingSlashRejected(d, m, currentYear);
    }
  }

  /** Day and month with no year are rejected. */
  lemma TwoPiecesRejected(d: string, m: string, currentYear: int)
    requires '/' !in d && '/' !in m
    ensures !ValidateDate(d + "/" + m, currentYear)
  {
    JoinTwo(d, m, "/");
    SplitJoin([d, m], '/');
    MissingPartRejected(d + "/" + m, currentYear);
  }

  /** Day and month followed by a slash and no year are rejected. */
  lemma TrailingSlashRejected(d: string, m: string, currentYear: int)
    requires '/' !in d && '/' !in m
    ensures !ValidateDate(d + "/" + m + "/", currentYear)
  {
    JoinThree(d, m, "", "/");
    assert d + "/" + m + "/" + "" == d + "/" + m + "/";
    SplitJoin([d, m, ""], '/');
    MissingPartRejected(d + "/" + m + "/", currentYear);
  }

  function Pow10(k: nat): (r: nat)
    ensures r >= 1
  {
    if k == 0 then 1 else 10 * Pow10(k - 1)
  }

  lemma {:induction false} DigitsValueBound(s: string)
    requires AllDigits(s)
    ensures DigitsValue(s) < Pow10(|s|)
  {
    if s != [] {
      DigitsValueBound(s[..|s| - 1]);
    }
  }

  /**
   * What the validator accepts among masked inputs: exactly the texts with
   * at least eight digits whose first two read as a day in 1..31, the next
   * two as a month in 1..12 and the next four as a year in
   * 1900..currentYear.
   */
  lemma ValidateMaskedDate(text: string, currentYear: int)
    ensures var n := KeepDigits(text);
      ValidateDate(FormatDate(text), currentYear) <==>
        && |n| >= 8
        && 1 <= DigitsValue(n[..2]) <= 31
        && 1 <= DigitsValue(n[2..4]) <= 12
        && 1900 <= DigitsValue(n[4..8]) <= currentYear
  {
    FormatDateParts(text);
    ValidDatePieces(KeepDigits(text), currentYear);
  }

  /** `ValidateMaskedDate` on the digits alone. */
  lemma ValidDatePieces(n: string, currentYear: int)
    requires AllDigits(n)
    ensures ValidParts(DatePieces(n), currentYear) <==>
        && |n| >= 8
        && 1 <= DigitsValue(n[..2]) <= 31
        && 1 <= DigitsValue(n[2..4]) <= 12
        && 1900 <= DigitsValue(n[4..8]) <= currentYear
  {
    if |n| <= 4 {
      FewPiecesInvalid(DatePieces(n), currentYear);
    } else if |n| < 8 {
      ShortYearInvalid(n, currentYear);
    } else {
      assert DatePieces(n) == [n[..2], n[2..4], n[4..8]];
      ValidThreePieces(n[..2], n[2..4], n[4..8], currentYear);
    }
  }


  /** A date with fewer than three pieces is rejected. */
  lemma FewPiecesInvalid(parts: seq<string>, currentYear: int)
    requires |parts| < 3
    ensures !ValidParts(parts, currentYear)
  {
  }

  /** With five to seven digits the year has at most three, so it is below 1900. */
  lemma ShortYearInvalid(n: string, currentYear: int)
    requires AllDigits(n) && 4 < |n| < 8
    ensures !ValidParts(DatePieces(n), currentYear)
  {
    ShortDatePieces(n);
    ShortYearValue(n[4..]);
    ValidThreePieces(n[..2], n[2..4], n[4..], currentYear);
  }

  lemma ShortDatePieces(n: string)
    requires AllDigits(n) && 4 < |n| < 8
    ensures DatePieces(n) == [n[..2], n[2..4], n[4..]]
  {
    assert Min(|n|, 8) == |n| && n[4..|n|] == n[4..];
  }

  lemma ShortYearValue(y: string)
    requires AllDigits(y) && |y| <= 3
    ensures DigitsValue(y) < 1000
  {
    DigitsValueBound(y);
    assert Pow10(1) == 10 && Pow10(2) == 100 && Pow10(3) == 1000;
  }

  /** Three non-empty digit pieces are checked by their values. */
  lemma ValidThreePieces(d: string, m: string, y: string, currentYear: int)
    requires d != [] && m != [] && y != []
    requires AllDigits(d) && AllDigits(m) && AllDigits(y)
    ensures ValidParts([d, m, y], currentYear) <==>
      && 1 <= DigitsValue(d) <= 31
      && 1 <= DigitsValue(m) <= 12
      && 1900 <= DigitsValue(y) <= currentYear
  {
    ParseIntDigits(d);
    ParseIntDigits(m);
    ParseIntDigits(y);
    assert ValidParts([d, m, y], currentYear) ==
      ValidNumbers(Some(DigitsValue(d) as int), Some(DigitsValue(m) as int), Some(DigitsValue(y) as int), currentYear);
  }

  /**
   * A date written as three runs of digits between slashes is accepted
   * exactly when the runs read as a day in 1..31, a month in 1..12 and a
   * year in 1900..currentYear.
   */
  lemma ValidateThreePieces(d: string, m: string, y: string, currentYear: int)
    requires d != [] && m != [] && y != []
    requires AllDigits(d) && AllDigits(m) && AllDigits(y)
    ensures ValidateDate(d + "/" + m + "/" + y, currentYear) <==>
      && 1 <= DigitsValue(d) <= 31
      && 1 <= DigitsValue(m) <= 12
      && 1900 <= DigitsValue(y) <= currentYear
  {
    JoinThree(d, m, y, "/");
    NoSlash(d);
    NoSlash(m);
    NoSlash(y);
    SplitJoin([d, m, y], '/');
    ValidThreePieces(d, m, y, currentYear);
  }

  /** The day is not checked against the month: 31 February is accepted. */
  lemma ThirtyFirstOfFebruaryAccepted(date: string, currentYear: int)
    requires date == "31/02/2000" && currentYear >= 2000
    ensures ValidateDate(date, currentYear)
  {
    var d, m, y := "31", "02", "2000";
    FebruaryValues();
    assert date == d + "/" + m + "/" + y;
    ValidateThreePieces(d, m, y, currentYear);
  }

  lemma FebruaryValues()
    ensures DigitsValue("31") == 31 && DigitsValue("02") == 2 && DigitsValue("2000") == 2000
  {
    assert "31"[..1] == "3" && DigitsValue("3") == 3;
    assert "02"[..1] == "0" && DigitsValue("0") == 0;
    assert "2000"[..3] == "200" && DigitsValue("200") == 200 by {
      assert "200"[..2] == "20" && DigitsValue("20") == 20 by {
        assert "20"[..1] == "2" && DigitsValue("2") == 2;
      }
    }
  }

  // ---------------------------------------------------------------------
  // Registration

  datatype SignupForm = SignupForm(
    fullName: string,
    nickname: string,
    email: string,
    password: string,
    confirmPassword: string,
    dataNasc: string)

  /** The registration payload. */
  datatype UserData = UserData(
    email: string,
    password: string,
    nivelUsuario: int,
    nickname: string,
    nomeReal: string,
    dataNasc: string)

  datatype RegisterOutcome = PasswordMismatch | InvalidBirthDate | Submit(userData: UserData)

  /** `${year}-${month}-${day}` from the first three pieces of `DD/MM/YYYY`. */
  function ReorderDate(date: string): (r: string)
    requires |Split(date, '/')| >= 3
    ensures var p := Split(date, '/');
      '-' !in p[0] && '-' !in p[1] && '-' !in p[2] ==> Split(r, '-') == [p[2], p[1], p[0]]
  {
    var p := Split(date, '/');
    if '-' !in p[0] && '-' !in p[1] && '-' !in p[2] then
      SplitDashedPieces(p[2], p[1], p[0]);
      p[2] + "-" + p[1] + "-" + p[0]
    else
      p[2] + "-" + p[1] + "-" + p[0]
  }

  /**
   * `handleRegister` up to the network call: a password mismatch blocks
   * first, then an invalid birth date; otherwise the payload is built with
   * user level 1 and the reordered date.
   */
  function Register(form: SignupForm, currentYear: int): (r: RegisterOutcome)
    ensures r == PasswordMismatch <==> form.password != form.confirmPassword
    ensures r == InvalidBirthDate <==>
      form.password == form.confirmPassword && !ValidateDate(form.dataNasc, currentYear)
    ensures r.Submit? ==>
      && ValidateDate(form.dataNasc, currentYear)
      && r.userData.nivelUsuario == 1
      && r.userData.email == form.email && r.userData.password == form.password
      && r.userData.nickname == form.nickname && r.userData.nomeReal == form.fullName
      && r.userData.dataNasc == ReorderDate(form.dataNasc)
  {
    if form.password != form.confirmPassword then PasswordMismatch
    else if !ValidateDate(form.dataNasc, currentYear) then InvalidBirthDate
    else Submit(UserData(form.email, form.password, 1, form.nickname, form.fullName, ReorderDate(form.dataNasc)))
  }

  /**
   * A birth date typed through the mask and accepted reaches the payload as
   * `YYYY-MM-DD` from the same eight digits: four year digits, then the
   * month's two, then the day's two.
   */
  lemma RegisterMaskedDate(form: SignupForm, typed: string, currentYear: int)
    requires form.dataNasc == FormatDate(typed)
    requires Register(form, currentYear).Submit?
    ensures var n := KeepDigits(typed);
      var d := Register(form, currentYear).userData.dataNasc;
      && |n| >= 8
      && d == n[4..8] + "-" + n[2..4] + "-" + n[..2]
      && Split(d, '-') == [n[4..8], n[2..4], n[..2]]
  {
    var n := KeepDigits(typed);
    ValidateMaskedDate(typed, currentYear);
    FormatDateParts(typed);
    assert DatePieces(n) == [n[..2], n[2..4], n[4..8]];
    SplitDashed(n[4..8], n[2..4], n[..2]);
  }
}
