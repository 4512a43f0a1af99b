/** The date rewrite of the bank-comment extractor:
    `datetime.strptime(t, '%y%m%d%H:%M').strftime('%Y-%m-%d %H:%M')`. */
module DateFormat {
  import opened Values

  datatype Stamp = Stamp(year: int, month: int, day: int, hour: int, minute: int)

  /** The value of the two decimal digits at position i. */
  function Two(t: string, i: nat): nat
    requires i + 2 <= |t| && IsDigit(t[i]) && IsDigit(t[i + 1])
  {
    10 * DigitValue(t[i]) + DigitValue(t[i + 1])
  }

  /** "YYMMDDHH:MM": six date digits followed by the time as "HH:MM". */
  predicate ShortShape(t: string) {
    |t| == 11 && t[8] == ':' && forall k :: 0 <= k < 11 && k != 8 ==> IsDigit(t[k])
  }

  /** The century rule of Python's %y: 69-99 are 1969-1999, 00-68 are 2000-2068. */
  function ExpandYear(yy: nat): int
    requires yy < 100
  {
    if yy < 69 then 2000 + yy else 1900 + yy
  }

  function ReadShort(t: string): Stamp
    requires ShortShape(t)
  {
    Stamp(ExpandYear(Two(t, 0)), Two(t, 2), Two(t, 4), Two(t, 6), Two(t, 9))
  }

  predicate IsLeapYear(y: int) {
    y % 4 == 0 && (y % 100 != 0 || y % 400 == 0)
  }

  function DaysInMonth(y: int, m: int): int
    requires 1 <= m <= 12
  {
    if m == 2 then (if IsLeapYear(y) then 29 else 28)
    else if m == 4 || m == 6 || m == 9 || m == 11 then 30
    else 31
  }

  /** A time that exists on the calendar (what datetime accepts). */
  predicate ValidStamp(s: Stamp) {
    && 1 <= s.month <= 12
    && 1 <= s.day <= DaysInMonth(s.year, s.month)
    && 0 <= s.hour <= 23
    && 0 <= s.minute <= 59
  }

  function Pad2(n: nat): string
    requires n < 100
  {
    [DigitChar(n / 10), DigitChar(n % 10)]
  }

  function Pad4(n: nat): string
    requires n < 10000
  {
    Pad2(n / 100) + Pad2(n % 100)
  }

  /** strftime('%Y-%m-%d %H:%M') */
  function WriteLong(s: Stamp): string
    requires ValidStamp(s) && 0 <= s.year < 10000
  {
    Pad4(s.year) + "-" + Pad2(s.month) + "-" + Pad2(s.day) + " " + Pad2(s.hour) + ":" + Pad2(s.minute)
  }

  /** Reads "YYYY-MM-DD HH:MM" back. */
  function ReadLong(t: string): Option<Stamp> {
    if |t| == 16 && t[4] == '-' && t[7] == '-' && t[10] == ' ' && t[13] == ':'
       && forall k :: 0 <= k < 16 && k != 4 && k != 7 && k != 10 && k != 13 ==> IsDigit(t[k])
    then Some(Stamp(100 * Two(t, 0) + Two(t, 2), Two(t, 5), Two(t, 8), Two(t, 11), Two(t, 14)))
    else None
  }

  /** The comment date rewrite: fails, as strptime raises ValueError, unless
      the text has the short shape and names a real calendar time. */
  function Reformat(t: string): (r: Result<string>)
    ensures r.Ok? <==> ShortShape(t) && ValidStamp(ReadShort(t))
    ensures r.Err? ==> r.error == InvalidDateTime(t)
  {
    if ShortShape(t) && ValidStamp(ReadShort(t)) then Ok(WriteLong(ReadShort(t)))
    else Err(InvalidDateTime(t))
  }

  lemma Pad2Reads(t: string, i: nat)
    requires i + 2 <= |t| && IsDigit(t[i]) && IsDigit(t[i + 1])
    ensures Pad2(Two(t, i)) == t[i..i + 2]
  {
    var n := Two(t, i);
    assert n / 10 == DigitValue(t[i]) && n % 10 == DigitValue(t[i + 1]);
  }

  lemma ReadPad2(s: string, i: nat, n: nat)
    requires n < 100 && i + 2 <= |s| && s[i..i + 2] == Pad2(n)
    ensures IsDigit(s[i]) && IsDigit(s[i + 1]) && Two(s, i) == n
  {
    assert s[i] == s[i..i + 2][0] && s[i + 1] == s[i..i + 2][1];
  }

  /** The rewritten date keeps every digit of the input and spells the year
      out with the century %y implies: "YYMMDDHH:MM" becomes
      "CCYY-MM-DD HH:MM". */
  lemma {:induction false} ReformatKeepsDigits(t: string)
    requires Reformat(t).Ok?
    ensures Reformat(t).value ==
            (if Two(t, 0) < 69 then "20" else "19") + t[0..2] + "-" + t[2..4] + "-" + t[4..6]
            + " " + t[6..8] + ":" + t[9..11]
  {
    var s := ReadShort(t);
    Pad2Reads(t, 0);
    Pad2Reads(t, 2);
    Pad2Reads(t, 4);
    Pad2Reads(t, 6);
    Pad2Reads(t, 9);
    var yy := Two(t, 0);
    assert s.year / 100 == (if yy < 69 then 20 else 19) && s.year % 100 == yy;
    assert Pad2(s.year / 100) == (if yy < 69 then "20" else "19");
  }

  lemma WriteLongLayout(s: Stamp)
    requires ValidStamp(s) && 0 <= s.year < 10000
    ensures var t := WriteLong(s);
            && |t| == 16 && t[4] == '-' && t[7] == '-' && t[10] == ' ' && t[13] == ':'
            && t[0..2] == Pad2(s.year / 100) && t[2..4] == Pad2(s.year % 100)
            && t[5..7] == Pad2(s.month) && t[8..10] == Pad2(s.day)
            && t[11..13] == Pad2(s.hour) && t[14..16] == Pad2(s.minute)
  {
    var date := Pad4(s.year) + "-" + Pad2(s.month) + "-" + Pad2(s.day);
    var time := Pad2(s.hour) + ":" + Pad2(s.minute);
    assert WriteLong(s) == date + " " + time;
    assert |date| == 10 && |time| == 5;
    assert date[0..2] == Pad2(s.year / 100) && date[2..4] == Pad2(s.year % 100);
    assert date[5..7] == Pad2(s.month) && date[8..10] == Pad2(s.day);
    assert time[0..2] == Pad2(s.hour) && time[3..5] == Pad2(s.minute);
  }

  /** Nothing is lost in the long form: reading it back gives the same time. */
  lemma {:induction false} LongFormRoundTrip(s: Stamp)
    requires ValidStamp(s) && 0 <= s.year < 10000
    ensures ReadLong(WriteLong(s)) == Some(s)
  {
    var t := WriteLong(s);
    WriteLongLayout(s);
    ReadPad2(t, 0, s.year / 100);
    ReadPad2(t, 2, s.year % 100);
    ReadPad2(t, 5, s.month);
    ReadPad2(t, 8, s.day);
    ReadPad2(t, 11, s.hour);
    ReadPad2(t, 14, s.minute);
  }

  /** A plain date is rewritten with its century. */
  lemma ReformatExample()
    ensures Reformat("23021514:30") == Ok("2023-02-15 14:30")
  {
    var t := "23021514:30";
    assert ShortShape(t);
    assert ReadShort(t) == Stamp(2023, 2, 15, 14, 30);
    ReformatKeepsDigits(t);
    assert t[0..2] == "23" && t[2..4] == "02" && t[4..6] == "15" && t[6..8] == "14" && t[9..11] == "30";
    assert Two(t, 0) == 23;
    assert "20" + "23" + "-" + "02" + "-" + "15" + " " + "14" + ":" + "30" == "2023-02-15 14:30";
  }

  /** Two-digit years from 69 on belong to the twentieth century. */
  lemma ReformatPivotExample()
    ensures Reformat("69123123:59") == Ok("1969-12-31 23:59")
  {
    var t := "69123123:59";
    assert ShortShape(t);
    assert ReadShort(t) == Stamp(1969, 12, 31, 23, 59);
    ReformatKeepsDigits(t);
    assert t[0..2] == "69" && t[2..4] == "12" && t[4..6] == "31" && t[6..8] == "23" && t[9..11] == "59";
    assert Two(t, 0) == 69;
    assert "19" + "69" + "-" + "12" + "-" + "31" + " " + "23" + ":" + "59" == "1969-12-31 23:59";
  }

  /** 29 February exists in 2024 but not in 2023; month 13 and hour 25 never. */
  lemma ReformatRejectsExample()
    ensures Reformat("24022900:00").Ok? && Reformat("23022900:00").Err?
    ensures Reformat("23130514:30").Err? && Reformat("23021525:00").Err?
  {
    assert ShortShape("24022900:00") && ReadShort("24022900:00") == Stamp(2024, 2, 29, 0, 0);
    assert ShortShape("23022900:00") && ReadShort("23022900:00") == Stamp(2023, 2, 29, 0, 0);
    assert ShortShape("23130514:30") && ReadShort("23130514:30").month == 13;
    assert ShortShape("23021525:00") && ReadShort("23021525:00").hour == 25;
  }
}
