// Calendar dates written as YYYY-MM-DD.

module Calendar {
  import opened Basics

  predicate IsLeap(year: nat) {
    year % 4 == 0 && (year % 100 != 0 || year % 400 == 0)
  }

  function DaysIn(year: nat, month: nat): nat {
    if month == 2 then if IsLeap(year) then 29 else 28
    else if month in {4, 6, 9, 11} then 30
    else 31
  }

  predicate IsDate(s: string) {
    && |s| == 10 && s[4] == '-' && s[7] == '-'
    && (forall i | 0 <= i < 10 && i != 4 && i != 7 :: IsDigit(s[i]))
    && Number(s[..4]) != 0 && 1 <= Number(s[5..7]) <= 12
    && 1 <= Number(s[8..]) <= DaysIn(Number(s[..4]), Number(s[5..7]))
  }

  ghost function LeapYears(n: nat): set<int> {
    set year: int | 0 < year <= n && IsLeap(year)
  }

  // Of the first n years a fourth are leap years, but not every hundredth, yet
  // every four-hundredth.
  lemma {:induction false} LeapYearsCount(n: nat)
    ensures |LeapYears(n)| == n / 4 - n / 100 + n / 400
  {
    if n == 0 {
      assert LeapYears(n) == {};
    } else {
      LeapYearsCount(n - 1);
      OneMoreYear(n);
      assert LeapYears(n) == LeapYears(n - 1) + if IsLeap(n) then {n as int} else {};
    }
  }

  lemma {:induction false} OneMoreYear(n: nat)
    requires n > 0
    ensures n / 4 - n / 100 + n / 400 ==
            (n - 1) / 4 - (n - 1) / 100 + (n - 1) / 400 + if IsLeap(n) then 1 else 0
  {
    NextFourth(n);
    NextHundredth(n);
    NextFourHundredth(n);
    Multiples(n);
  }

  lemma {:induction false} NextFourth(n: nat)
    requires n > 0
    ensures n / 4 == (n - 1) / 4 + if n % 4 == 0 then 1 else 0
  {
  }

  lemma {:induction false} NextHundredth(n: nat)
    requires n > 0
    ensures n / 100 == (n - 1) / 100 + if n % 100 == 0 then 1 else 0
  {
  }

  lemma {:induction false} NextFourHundredth(n: nat)
    requires n > 0
    ensures n / 400 == (n - 1) / 400 + if n % 400 == 0 then 1 else 0
  {
  }

  lemma {:induction false} Multiples(n: nat)
    ensures n % 400 == 0 ==> n % 100 == 0
    ensures n % 100 == 0 ==> n % 4 == 0
  {
    ExactMultiple(n / 400 * 4);
    ExactMultiple(n / 100 * 25);
  }

  lemma {:induction false} ExactMultiple(q: nat)
    ensures q * 100 % 100 == 0 && q * 4 % 4 == 0
  {
  }

  // Apart from February the months alternate between 31 and 30 days, and begin
  // again with August.
  lemma {:induction false} MonthLengths(year: nat, month: nat)
    requires 1 <= month <= 12
    ensures DaysIn(year, month) ==
            if month == 2 then 28 + (if IsLeap(year) then 1 else 0) else 30 + (month + month / 8) % 2
  {
  }

  // The last digits of a number, padded with zeros.
  function Pad(n: nat, width: nat): (s: string)
    ensures |s| == width
  {
    if width == 0 then "" else Pad(n / 10, width - 1) + ['0' + (n % 10) as char]
  }

  function PowerOfTen(width: nat): nat {
    if width == 0 then 1 else 10 * PowerOfTen(width - 1)
  }

  lemma {:induction false} PadReadsBack(n: nat, width: nat)
    requires n < PowerOfTen(width)
    ensures AllDigits(Pad(n, width)) && Number(Pad(n, width)) == n
  {
    if width > 0 {
      PadReadsBack(n / 10, width - 1);
      assert Pad(n, width)[..width - 1] == Pad(n / 10, width - 1);
    }
  }

  lemma {:induction false} NumberPrintsBack(s: string)
    requires AllDigits(s)
    ensures Number(s) < PowerOfTen(|s|) && Pad(Number(s), |s|) == s
  {
    if s != [] {
      NumberPrintsBack(s[..|s| - 1]);
      assert IsDigit(s[|s| - 1]) && s == s[..|s| - 1] + [s[|s| - 1]];
    }
  }

  function DateText(year: nat, month: nat, day: nat): string {
    Pad(year, 4) + "-" + Pad(month, 2) + "-" + Pad(day, 2)
  }

  lemma {:induction false} DateParts(year: nat, month: nat, day: nat)
    ensures var s := DateText(year, month, day);
            |s| == 10 && s[4] == '-' && s[7] == '-' &&
            s[..4] == Pad(year, 4) && s[5..7] == Pad(month, 2) && s[8..] == Pad(day, 2)
  {
  }

  lemma {:induction false} DateTextIsDate(year: nat, month: nat, day: nat)
    requires year < 10000 && month < 100 && day < 100
    ensures IsDate(DateText(year, month, day)) <==> year > 0 && 1 <= month <= 12 && 1 <= day <= DaysIn(year, month)
  {
    var s := DateText(year, month, day);
    DateParts(year, month, day);
    assert PowerOfTen(2) == 100 && PowerOfTen(4) == 10000;
    PadReadsBack(year, 4);
    PadReadsBack(month, 2);
    PadReadsBack(day, 2);
    forall i | 0 <= i < 10 && i != 4 && i != 7 ensures IsDigit(s[i]) {
      assert i < 4 ==> s[i] == s[..4][i];
      assert 5 <= i < 7 ==> s[i] == s[5..7][i - 5];
      assert 8 <= i ==> s[i] == s[8..][i - 8];
    }
  }

  lemma {:induction false} DigitsOfDate(s: string)
    requires IsDate(s)
    ensures AllDigits(s[..4]) && AllDigits(s[5..7]) && AllDigits(s[8..])
  {
  }

  lemma {:induction false} DateReadsBack(s: string)
    requires IsDate(s)
    ensures s == DateText(Number(s[..4]), Number(s[5..7]), Number(s[8..])) && Number(s[..4]) < 10000
  {
    DigitsOfDate(s);
    assert PowerOfTen(4) == 10000;
    NumberPrintsBack(s[..4]);
    NumberPrintsBack(s[5..7]);
    NumberPrintsBack(s[8..]);
    assert s == s[..4] + [s[4]] + s[5..7] + [s[7]] + s[8..];
  }

  ghost predicate IsDay(s: string, year: nat, month: nat, day: nat) {
    1 <= year <= 9999 && 1 <= month <= 12 && 1 <= day <= DaysIn(year, month) && s == DateText(year, month, day)
  }

  // A date is accepted exactly when it prints a day of the calendar, in a
  // year from 1 to 9999.
  lemma {:induction false} DatesAreCalendarDays(s: string)
    ensures IsDate(s) <==> exists year, month, day :: IsDay(s, year, month, day)
  {
    if IsDate(s) {
      DateReadsBack(s);
      assert IsDay(s, Number(s[..4]), Number(s[5..7]), Number(s[8..]));
    }
    forall year, month, day | IsDay(s, year, month, day) ensures IsDate(s) {
      DateTextIsDate(year, month, day);
    }
  }
}
