/** The client's pure text formatting: the status label shown for a backend
    status (client/src/hooks/useTickets.ts and the identical `formatStatus`
    of client/src/components/TicketHistoryModal.tsx), the history notes cell,
    and the `FormatDate` component (client/src/utils/fct.tsx) built from date
    components that are given rather than parsed. Case mapping covers ASCII
    letters only. */
module Format {
  import opened Wrappers
  import opened Domain
  import opened Numbers

  function UpperChar(c: char): (r: char)
    ensures 'a' <= c <= 'z' ==> 'A' <= r <= 'Z' && r as int == c as int - 32
    ensures !('a' <= c <= 'z') ==> r == c
  {
    if 'a' <= c <= 'z' then (c as int - 32) as char else c
  }

  function LowerChar(c: char): (r: char)
    ensures 'A' <= c <= 'Z' ==> 'a' <= r <= 'z' && r as int == c as int + 32
    ensures !('A' <= c <= 'Z') ==> r == c
  {
    if 'A' <= c <= 'Z' then (c as int + 32) as char else c
  }

  /** `toLowerCase`, letter by letter. */
  function ToLower(s: string): (r: string)
    ensures |r| == |s|
    ensures forall i :: 0 <= i < |s| ==> r[i] == LowerChar(s[i])
  {
    if |s| == 0 then [] else [LowerChar(s[0])] + ToLower(s[1..])
  }

  /** `indexOf` of one character: its first position, or -1. */
  function IndexOf(s: string, c: char): (r: int)
    ensures -1 <= r < |s|
    ensures r == -1 <==> c !in s
    ensures r >= 0 ==> s[r] == c && c !in s[..r]
  {
    if |s| == 0 then -1
    else if s[0] == c then 0
    else
      var k := IndexOf(s[1..], c);
      assert s[1..][..if k < 0 then 0 else k] == s[1..1 + if k < 0 then 0 else k];
      if k < 0 then -1 else k + 1
  }

  /** `replace(from, to)` with a string pattern: only the first occurrence
      is replaced. */
  function ReplaceFirst(s: string, from: char, to: char): (r: string)
    ensures |r| == |s|
    ensures forall i :: 0 <= i < |s| ==> r[i] == if i == IndexOf(s, from) then to else s[i]
  {
    if |s| == 0 then []
    else if s[0] == from then [to] + s[1..]
    else [s[0]] + ReplaceFirst(s[1..], from, to)
  }

  /** Without the pattern, replacing changes nothing. */
  lemma ReplaceAbsent(s: string, from: char, to: char)
    requires from !in s
    ensures ReplaceFirst(s, from, to) == s
  {
  }

  /** The displayed status: first character upper-cased, and in the rest only
      the first "_" turned into a space. */
  function StatusLabel(status: string): (r: string)
    ensures |r| == |status|
    ensures status == "" ==> r == ""
    ensures |status| > 0 ==> r[0] == UpperChar(status[0])
    ensures |status| > 0 ==> r[1..] == ReplaceFirst(status[1..], '_', ' ')
  {
    if |status| == 0 then ""
    else [UpperChar(status[0])] + ReplaceFirst(status[1..], '_', ' ')
  }

  /** Position by position: after the first character, exactly the first
      underscore becomes a space and every other character is kept. */
  lemma StatusLabelAt(status: string, i: int)
    requires 1 <= i < |status|
    ensures StatusLabel(status)[i] == if i == 1 + IndexOf(status[1..], '_') then ' ' else status[i]
  {
    assert StatusLabel(status)[i] == StatusLabel(status)[1..][i - 1];
  }

  /** A value whose letters are all lower case and that has no "_" comes back
      from its label by lower-casing. */
  lemma {:induction false} LabelLowersBack(v: string)
    requires '_' !in v
    requires forall i :: 0 <= i < |v| ==> LowerChar(v[i]) == v[i]
    ensures ToLower(StatusLabel(v)) == v
  {
    var r := StatusLabel(v);
    if |v| > 0 {
      assert forall i :: 0 <= i < |v| - 1 ==> v[1..][i] == v[i + 1];
      assert '_' !in v[1..];
      ReplaceAbsent(v[1..], '_', ' ');
      assert r == [UpperChar(v[0])] + v[1..];
      assert LowerChar(UpperChar(v[0])) == v[0];
      forall i | 0 <= i < |v| ensures ToLower(r)[i] == v[i] {
      }
    }
  }

  /** Every backend status value is recovered by lower-casing its label. */
  lemma StatusLabelRoundTrip(s: TicketStatus)
    ensures ToLower(StatusLabel(StatusValue(s))) == StatusValue(s)
  {
    LabelLowersBack(StatusValue(s));
  }

  /** Without an underscore after the first character, the label is the
      value with its first character upper-cased. */
  lemma LabelWithoutUnderscore(v: string)
    requires |v| > 0 && '_' !in v[1..]
    ensures StatusLabel(v) == [UpperChar(v[0])] + v[1..]
  {
    ReplaceAbsent(v[1..], '_', ' ');
  }

  /** A label replaces only the first underscore: "a_b_c" shows as "A b_c". */
  lemma OnlyFirstUnderscore()
    ensures StatusLabel("a_b_c") == "A b_c"
  {
    var v := "a_b_c";
    assert v[0] == 'a' && v[1..] == "_b_c";
    assert ReplaceFirst("_b_c", '_', ' ') == [' '] + "_b_c"[1..];
    assert UpperChar('a') == 'A';
    assert ['A'] + ([' '] + "b_c") == "A b_c";
  }

  /** The history table's notes cell: the notes when non-empty, otherwise "-";
      the cell is never blank. */
  function NotesCell(notes: Option<string>): (r: string)
    ensures r != ""
    ensures notes.Some? && notes.value != "" ==> r == notes.value
    ensures notes.None? || notes.value == "" ==> r == "-"
  {
    if notes.Some? && notes.value != "" then notes.value else "-"
  }

  /** The history modal fetches only while open and for a truthy ticket id. */
  function ShouldFetchHistory(isOpen: bool, ticketId: Option<int>): (r: bool)
    ensures r ==> isOpen
    ensures r <==> isOpen && ticketId.Some? && ticketId.value != 0
  {
    isOpen && ticketId.Some? && ticketId.value != 0
  }

  /** JavaScript's `hour % 24`: the remainder takes the sign of the
      dividend, and hours of the day are left as they are. */
  function Rem24(a: int): (r: int)
    ensures a >= 0 ==> 0 <= r < 24
    ensures a < 0 ==> -24 < r <= 0
    ensures 0 <= a < 24 ==> r == a
    ensures (a - r) % 24 == 0
  {
    if a >= 0 then a % 24 else -((-a) % 24)
  }

  /** What the `Date` object yields: full year, zero-based month, day of
      month, hours and minutes. */
  datatype DateParts = DateParts(year: int, month: int, day: int, hours: int, minutes: int)

  predicate InRange(d: DateParts) {
    && 1000 <= d.year <= 9999
    && 0 <= d.month <= 11
    && 1 <= d.day <= 31
    && 0 <= d.hours <= 23
    && 0 <= d.minutes <= 59
  }

  /** `String(n).padStart(2, "0")`. */
  function TwoDigits(n: int): string {
    PadStart(IntToString(n), 2, '0')
  }

  function Meridiem(hours: int): (r: string)
    ensures |r| == 3
  {
    if hours >= 12 then " PM" else " AM"
  }

  /** The layout `year-MM-DD HH:mm` followed by the suffix. */
  function DateText(year: string, month: string, day: string, hour: string, minute: string, suffix: string): string {
    year + "-" + month + "-" + day + " " + hour + ":" + minute + suffix
  }

  /** With a four-character year and two-character fields every piece sits
      at a fixed offset. */
  lemma DateTextFields(year: string, month: string, day: string, hour: string, minute: string, suffix: string)
    requires |year| == 4 && |month| == 2 && |day| == 2 && |hour| == 2 && |minute| == 2 && |suffix| == 3
    ensures var t := DateText(year, month, day, hour, minute, suffix);
      && |t| == 19
      && t[..4] == year && t[4] == '-' && t[5..7] == month && t[7] == '-' && t[8..10] == day
      && t[10] == ' ' && t[11..13] == hour && t[13] == ':' && t[14..16] == minute && t[16..] == suffix
  {
  }

  /** `FormatDate`: nothing for an empty date string, otherwise
      `year-MM-DD HH:mm` and the AM/PM suffix; the hour is reduced modulo 24,
      not 12. */
  function FormatDate(dateString: string, d: DateParts): (r: Option<string>)
    ensures r.None? <==> dateString == ""
    ensures r.Some? ==> |r.value| >= 3 && r.value[|r.value| - 3..] == (if d.hours >= 12 then " PM" else " AM")
  {
    if dateString == "" then None
    else
      var hour := Rem24(d.hours);
      Some(DateText(IntToString(d.year), TwoDigits(d.month + 1), TwoDigits(d.day),
                    TwoDigits(hour), TwoDigits(d.minutes), Meridiem(d.hours)))
  }

  /** For in-range components the text is exactly 19 characters, with each
      field at a fixed place and reading back as the component it shows
      (the month one-based, the hour in 24-hour form). */
  lemma {:induction false} FormatDateLayout(dateString: string, d: DateParts)
    requires dateString != "" && InRange(d)
    ensures var t := FormatDate(dateString, d).value;
      && |t| == 19
      && t[4] == '-' && t[7] == '-' && t[10] == ' ' && t[13] == ':'
      && ParseInt(t[..4]) == Some(d.year)
      && AllDigits(t[5..7]) && ReadDigits(t[5..7]) == d.month + 1
      && AllDigits(t[8..10]) && ReadDigits(t[8..10]) == d.day
      && AllDigits(t[11..13]) && ReadDigits(t[11..13]) == d.hours
      && AllDigits(t[14..16]) && ReadDigits(t[14..16]) == d.minutes
      && t[16..] == Meridiem(d.hours)
  {
    IntRoundTrip(d.year);
    FourDigits(d.year);
    Pad2RoundTrip(d.month + 1);
    Pad2RoundTrip(d.day);
    Pad2RoundTrip(d.hours);
    Pad2RoundTrip(d.minutes);
    assert Rem24(d.hours) == d.hours;
    DateTextFields(IntToString(d.year), TwoDigits(d.month + 1), TwoDigits(d.day),
                   TwoDigits(d.hours), TwoDigits(d.minutes), Meridiem(d.hours));
  }

  /** An afternoon time keeps its 24-hour clock and still gets " PM". */
  lemma AfternoonKeeps24Hour()
    ensures FormatDate("2024-03-07T15:05:00", DateParts(2024, 2, 7, 15, 5)) == Some("2024-03-07 15:05 PM")
  {
    YearText();
    FieldTexts();
    assert Rem24(15) == 15;
    assert DateText("2024", "03", "07", "15", "05", " PM") == "2024-03-07 15:05 PM";
  }

  lemma YearText()
    ensures IntToString(2024) == "2024"
  {
    assert NatToString(2) == "2";
    assert NatToString(20) == "20";
    assert NatToString(202) == "202";
  }

  lemma FieldTexts()
    ensures TwoDigits(3) == "03" && TwoDigits(7) == "07" && TwoDigits(5) == "05"
    ensures TwoDigits(15) == "15"
  {
    assert NatToString(1) == "1";
    assert NatToString(15) == "15";
  }
}
