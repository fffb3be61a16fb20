/**
 The compact date: an integer written `DDMMYYYY`, whose leading zero on the day
 is lost because it is an integer. Two readers exist: the services' `statisticDate`
 (pad to eight digits, read `ddMMyyyy`) and the app's `Int.toDate` (split seven-
 or eight-character text).
 */
module CompactDate {
  import opened Wrappers
  import opened Decimal
  import opened Calendar

  /** `String(timestamp)`, left-padded with '0' to eight characters when shorter. */
  function PaddedText(timestamp: int): (s: string)
    ensures |IntString(timestamp)| < 8 ==> |s| == 8
    ensures |IntString(timestamp)| < 8 ==>
      (forall i :: 0 <= i < 8 - |IntString(timestamp)| ==> s[i] == '0')
      && s[8 - |IntString(timestamp)|..] == IntString(timestamp)
    ensures |IntString(timestamp)| >= 8 ==> s == IntString(timestamp)
    ensures timestamp >= 0 ==> AllDigits(s) && Value(s) == timestamp
  {
    var s := IntString(timestamp);
    if |s| < 8 then
      ZeroPadded(8 - |s|, s);
      Zeros(8 - |s|) + s
    else s
  }

  /** Zeros in front keep the text at the end and, for digits, the value. */
  lemma ZeroPadded(n: nat, s: string)
    ensures (Zeros(n) + s)[n..] == s
    ensures AllDigits(s) ==> AllDigits(Zeros(n) + s) && Value(Zeros(n) + s) == Value(s)
  {
    if AllDigits(s) {
      ValueLeftPadded(n, s);
    }
  }

  /** `DateFormatter` with format `ddMMyyyy` on an eight-digit string: fixed-width fields, no leniency. */
  function ParseDayMonthYear(s: string): (r: Option<Date>)
    ensures r.Some? ==> IsValid(r.value)
  {
    if |s| == 8 && AllDigits(s) then
      var d := Date(Value(s[..2]), Value(s[2..4]), Value(s[4..]));
      if IsValid(d) then Some(d) else None
    else None
  }

  /** `statisticDate(from:)` (identical in DataService and RealmService), as written: pad, then parse. */
  function StatisticDateByFormatter(timestamp: int): (r: Option<Date>)
    ensures r.Some? ==> IsValid(r.value)
  {
    ParseDayMonthYear(PaddedText(timestamp))
  }

  /** The date fields of `n` read as the decimal digits `DDMMYYYY`. */
  function Fields(n: int): Date {
    Date(n / 1000000, n / 10000 % 100, n % 10000)
  }

  /**
   `statisticDate(from:)` computed on the integer: the eight-digit fields when they form a
   real date. `StatisticDateFields` shows it is the formatter pipeline above for every
   input; the aggregations use this form.
   */
  function StatisticDate(timestamp: int): (r: Option<Date>)
    ensures r.Some? ==> IsValid(r.value)
  {
    if 0 <= timestamp < 100000000 && IsValid(Fields(timestamp)) then Some(Fields(timestamp)) else None
  }

  /** The compact integer of a date with a four-digit year. */
  function Encode(d: Date): int {
    d.day * 1000000 + d.month * 10000 + d.year
  }

  /**
   Padding then reading `ddMMyyyy` is the arithmetic split of the integer: negative
   integers (the minus sign is no digit) and integers of nine or more digits never decode.
   */
  lemma StatisticDateFields(timestamp: int)
    ensures StatisticDateByFormatter(timestamp) == StatisticDate(timestamp)
  {
    Pow10Values();
    var s := IntString(timestamp);
    if timestamp < 0 {
      var p := PaddedText(timestamp);
      assert s[0] == '-';
      if |s| < 8 {
        assert p[8 - |s|] == '-';
      }
      assert !AllDigits(p);
    } else if timestamp < 100000000 {
      DigitsLength(timestamp, 8);
      var p := PaddedText(timestamp);
      ValueLeftPadded(8 - |s|, s);
      assert Value(p) == timestamp;
      SplitEight(p);
    } else {
      DigitsLength(timestamp, 8);
    }
  }

  /** Decoding undoes encoding for every valid date with a year of at most four digits. */
  lemma DecodeEncode(d: Date)
    requires IsValid(d) && d.year <= 9999
    ensures 0 <= Encode(d) < 100000000
    ensures StatisticDate(Encode(d)) == Some(d)
  {
    var n := Encode(d);
    DivModFields(n, d.day, d.month, d.year);
    assert Fields(n) == d;
  }

  /** Every decoded integer is the encoding of its date: the codec has no two spellings of a day. */
  lemma EncodeDecode(timestamp: int)
    requires StatisticDate(timestamp).Some?
    ensures Encode(StatisticDate(timestamp).value) == timestamp
    ensures StatisticDate(timestamp).value.year <= 9999
  {
  }

  /** Two timestamps that decode to the same day are the same integer. */
  lemma StatisticDateInjective(t1: int, t2: int)
    requires StatisticDate(t1).Some? && StatisticDate(t1) == StatisticDate(t2)
    ensures t1 == t2
  {
    EncodeDecode(t1);
    EncodeDecode(t2);
  }

  /**
   `Int.toDate` up to the calendar call: the day, month and year components, with the
   `?? 1` and `?? 1970` fallbacks; `None` unless `String(n)` has 7 or 8 characters.
   */
  function ToDate(n: int): (r: Option<Date>)
    ensures r.Some? <==> |IntString(n)| == 7 || |IntString(n)| == 8
  {
    var s := IntString(n);
    if |s| == 7 then
      Some(Date(ParseInt(s[..1]).GetOr(1), ParseInt(s[1..3]).GetOr(1), ParseInt(s[|s| - 4..]).GetOr(1970)))
    else if |s| == 8 then
      Some(Date(ParseInt(s[..2]).GetOr(1), ParseInt(s[2..4]).GetOr(1), ParseInt(s[|s| - 4..]).GetOr(1970)))
    else None
  }

  /** Which integers `Int.toDate` accepts at all: seven or eight characters, counting a minus sign. */
  lemma ToDateDefined(n: int)
    ensures ToDate(n).Some? <==> (1000000 <= n < 100000000 || -10000000 < n <= -100000)
  {
    Pow10Values();
    if n >= 0 {
      DigitsLength(n, 6);
      DigitsLength(n, 8);
    } else {
      DigitsLength(-n, 5);
      DigitsLength(-n, 7);
    }
  }

  /** For non-negative input both digit layouts give the arithmetic fields; no fallback fires. */
  lemma ToDateFields(n: int)
    requires 1000000 <= n < 100000000
    ensures ToDate(n) == Some(Fields(n))
  {
    Pow10Values();
    var s := IntString(n);
    DigitsLength(n, 6);
    DigitsLength(n, 7);
    DigitsLength(n, 8);
    if |s| == 7 {
      SplitSeven(s);
      assert s[|s| - 4..] == s[3..];
    } else {
      SplitEight(s);
      assert s[|s| - 4..] == s[4..];
    }
  }

  /** For non-negative integers the two readers agree on every real date. */
  lemma ToDateAgreesWithStatisticDate(n: int)
    requires n >= 0
    ensures StatisticDate(n).Some? ==> ToDate(n) == StatisticDate(n)
    ensures ToDate(n).Some? && IsValid(ToDate(n).value) ==> StatisticDate(n) == ToDate(n)
  {
    Pow10Values();
    ToDateDefined(n);
    if 1000000 <= n < 100000000 {
      ToDateFields(n);
    } else {
      assert n < 1000000 ==> Fields(n).day == 0;
    }
  }

  /**
   A negative seven-character input reaches the `?? 1` day fallback: `-109202` splits
   into day 1, month 10, year 9202, a real date, while `statisticDate` rejects it.
   */
  lemma NegativeInputUsesDayFallback()
    ensures ToDate(-109202) == Some(Date(1, 10, 9202))
    ensures IsValid(Date(1, 10, 9202))
    ensures StatisticDate(-109202) == None
  {
    NegativeText();
    var s := IntString(-109202);
    assert s[..1] == "-";
    assert s[1..3] == "10";
    assert s[|s| - 4..] == "9202";
    SmallValues();
  }

  lemma NegativeText()
    ensures IntString(-109202) == "-109202"
  {
    DigitsStep(109202);
    DigitsStep(10920);
    DigitsStep(1092);
    DigitsStep(109);
    DigitsStep(10);
  }

  lemma DigitsStep(n: nat)
    requires n >= 10
    ensures Digits(n) == Digits(n / 10) + [DigitChar(n % 10)]
  {
  }

  lemma SmallValues()
    ensures Value("10") == 10 && Value("9202") == 9202
  {
    assert "10"[..1] == "1";
    assert "9202"[..3] == "920";
    assert "920"[..2] == "92";
    assert "92"[..1] == "9";
  }

  /** `value` as decimal text left-padded with '0' to at least `width` characters. */
  function PadNumber(value: nat, width: nat): (s: string)
    ensures AllDigits(s) && Value(s) == value
    ensures |Digits(value)| <= width ==> |s| == width
  {
    var digits := Digits(value);
    ValueLeftPadded(if |digits| < width then width - |digits| else 0, digits);
    if |digits| < width then Zeros(width - |digits|) + digits else digits
  }

  /** `DateFormatter` with format `dd.MM.yyyy`. */
  function FormatDate(d: Date): (s: string)
    requires IsValid(d)
  {
    PadNumber(d.day, 2) + "." + PadNumber(d.month, 2) + "." + PadNumber(d.year, 4)
  }

  /** `Int.toDateString`: the `dd.MM.yyyy` text of `toDate`'s date, `nil` exactly when `toDate` is. */
  function ToDateString(n: int): (r: Option<string>)
    ensures r.None? <==> ToDate(n).None?
  {
    match ToDate(n)
    case None => None
    case Some(d) => Some(if IsValid(d) then FormatDate(d) else IntString(d.day) + "." + IntString(d.month) + "." + IntString(d.year))
  }

  /** The display text of a real date reads back as that date: `dd`, '.', `MM`, '.', `yyyy`. */
  lemma FormatDateReadsBack(d: Date)
    requires IsValid(d) && d.year <= 9999
    ensures |FormatDate(d)| == 10
    ensures FormatDate(d)[2] == '.' && FormatDate(d)[5] == '.'
    ensures AllDigits(FormatDate(d)[..2]) && Value(FormatDate(d)[..2]) == d.day
    ensures AllDigits(FormatDate(d)[3..5]) && Value(FormatDate(d)[3..5]) == d.month
    ensures AllDigits(FormatDate(d)[6..]) && Value(FormatDate(d)[6..]) == d.year
  {
    Pow10Values();
    DigitsLength(d.day, 2);
    DigitsLength(d.month, 2);
    DigitsLength(d.year, 4);
    var s := FormatDate(d);
    assert s[..2] == PadNumber(d.day, 2);
    assert s[3..5] == PadNumber(d.month, 2);
    assert s[6..] == PadNumber(d.year, 4);
  }
}
