/** The display rules of the retention status dialog: the time until the
    next sweep, the fallback for a missing date, and the history tab, which
    lists the log newest first. */
module DataRetentionStatus {
  import opened Common
  import Retention

  const HourMs: nat := 1000 * 60 * 60
  const MinuteMs: nat := 1000 * 60

  /** `formatTimeUntil(futureDate)` at the moment `now`: "Onbekend" without
      a date, "Nu" once it has passed, otherwise whole hours and minutes,
      the hours only when there is at least one. */
  function FormatTimeUntil(future: Option<int>, now: int): (s: string)
    ensures future.None? ==> s == "Onbekend"
    ensures future.Some? && future.value - now <= 0 ==> s == "Nu"
    ensures future.Some? && 0 < future.value - now < HourMs ==> ' ' !in s
  {
    if future.None? then "Onbekend"
    else
      var diff := future.value - now;
      if diff <= 0 then "Nu"
      else
        FormatParts(diff / HourMs, (diff % HourMs) / MinuteMs)
  }

  /** The text for whole hours and minutes: the hours only when there is at
      least one. */
  function FormatParts(hours: nat, minutes: nat): (s: string)
    ensures hours == 0 ==> ' ' !in s
  {
    if hours > 0 then NatToString(hours) + "u " + NatToString(minutes) + "m"
    else
      NoSpaceInDigits(NatToString(minutes));
      NatToString(minutes) + "m"
  }

  /** The hour and minute parts of a positive difference: the minutes stay
      below an hour, and together they are the difference rounded down to
      the minute. */
  lemma TimeParts(diff: int)
    requires diff > 0
    ensures 0 <= (diff % HourMs) / MinuteMs < 60
    ensures (diff / HourMs) * 60 + (diff % HourMs) / MinuteMs == diff / MinuteMs
  {
    var h := diff / HourMs;
    var r := diff % HourMs;
    var m := r / MinuteMs;
    var r2 := r % MinuteMs;
    assert diff == HourMs * h + r && 0 <= r < HourMs;
    assert r == MinuteMs * m + r2 && 0 <= r2 < MinuteMs;
    assert 0 <= m < 60;
    assert diff == MinuteMs * (60 * h + m) + r2;
  }

  // ---------------------------------------------------------------------------
  // reading the text back

  /** One word of the text: digits followed by the unit letter. */
  function ReadUnit(w: string, unit: char): (r: Option<nat>)
    ensures r.Some? ==> |w| >= 2 && w[|w| - 1] == unit
  {
    if |w| >= 2 && w[|w| - 1] == unit && AllDigits(w[..|w| - 1]) then Some(DigitsValue(w[..|w| - 1])) else None
  }

  /** The number of minutes a text of the form "{h}u {m}m" or "{m}m"
      denotes; any other text denotes none. */
  function ReadDuration(s: string): (r: Option<nat>) {
    var words := Split(s, ' ');
    if |words| == 1 then ReadUnit(words[0], 'm')
    else if |words| == 2 then
      var h := ReadUnit(words[0], 'u');
      var m := ReadUnit(words[1], 'm');
      if h.Some? && m.Some? then Some(h.value * 60 + m.value) else None
    else None
  }

  /** The text for a time still ahead reads back as the whole minutes left,
      with fewer than 60 in the minute part, and the two fixed texts read
      as no duration. */
  lemma FormatTimeUntilReadBack(future: Option<int>, now: int)
    ensures future.Some? && future.value - now > 0 ==>
              ReadDuration(FormatTimeUntil(future, now)) == Some((future.value - now) / MinuteMs)
    ensures future.None? || future.value - now <= 0 ==> ReadDuration(FormatTimeUntil(future, now)).None?
  {
    if future.None? {
      FixedTextReadBack("Onbekend");
    } else if future.value - now <= 0 {
      FixedTextReadBack("Nu");
    } else {
      PositiveReadBack(future.value, now);
    }
  }

  lemma PositiveReadBack(future: int, now: int)
    requires future - now > 0
    ensures ReadDuration(FormatTimeUntil(Some(future), now)) == Some((future - now) / MinuteMs)
  {
    var diff := future - now;
    TimeParts(diff);
    PartsReadBack(diff / HourMs, (diff % HourMs) / MinuteMs, diff / MinuteMs);
  }

  lemma PartsReadBack(hours: nat, minutes: nat, total: nat)
    requires hours * 60 + minutes == total
    ensures ReadDuration(FormatParts(hours, minutes)) == Some(total)
  {
    if hours > 0 {
      HoursReadBack(hours, minutes, total);
    } else {
      MinutesReadBack(minutes);
    }
  }

  /** A word that does not end in a unit letter names no duration. */
  lemma FixedTextReadBack(s: string)
    requires s != [] && ' ' !in s && s[|s| - 1] != 'm'
    ensures ReadDuration(s).None?
  {
    SplitNoSpace(s);
  }

  lemma HoursReadBack(hours: nat, minutes: nat, total: nat)
    requires hours * 60 + minutes == total
    ensures ReadDuration(NatToString(hours) + "u " + NatToString(minutes) + "m") == Some(total)
  {
    var hs := NatToString(hours);
    var ms := NatToString(minutes);
    NatToStringRoundTrip(hours);
    NatToStringRoundTrip(minutes);
    ReadUnitDigits(hs, 'u');
    ReadUnitDigits(ms, 'm');
    ReadTwoWords(hs + "u", ms + "m", hours, minutes);
    HoursText(hs, ms);
  }

  lemma HoursText(hs: string, ms: string)
    ensures hs + "u " + ms + "m" == (hs + "u") + [' '] + (ms + "m")
  {
  }

  lemma ReadTwoWords(w1: string, w2: string, h: nat, m: nat)
    requires ' ' !in w1 && ' ' !in w2
    requires ReadUnit(w1, 'u') == Some(h) && ReadUnit(w2, 'm') == Some(m)
    ensures ReadDuration(w1 + [' '] + w2) == Some(h * 60 + m)
  {
    SplitTwoWords(w1, w2);
  }

  lemma MinutesReadBack(minutes: nat)
    ensures ReadDuration(NatToString(minutes) + "m") == Some(minutes)
  {
    var ms := NatToString(minutes);
    NatToStringRoundTrip(minutes);
    ReadUnitDigits(ms, 'm');
    SplitNoSpace(ms + "m");
  }

  lemma NoSpaceInDigits(s: string)
    requires AllDigits(s)
    ensures ' ' !in s
  {
    assert forall i :: 0 <= i < |s| ==> IsDigit(s[i]);
  }

  lemma ReadUnitDigits(d: string, unit: char)
    requires d != [] && AllDigits(d)
    requires unit != ' '
    ensures ReadUnit(d + [unit], unit) == Some(DigitsValue(d))
    ensures ' ' !in d + [unit]
  {
    assert (d + [unit])[..|d|] == d;
    NoSpaceInDigits(d);
  }

  lemma SplitNoSpace(s: string)
    requires ' ' !in s
    ensures Split(s, ' ') == [s]
  {
    SplitPrefix(s, "", ' ');
    assert s + "" == s;
  }

  lemma SplitTwoWords(a: string, b: string)
    requires ' ' !in a && ' ' !in b
    ensures Split(a + [' '] + b, ' ') == [a, b]
  {
    SplitAtSeparator(a, b, ' ');
    SplitNoSpace(b);
  }

  // ---------------------------------------------------------------------------
  // dates and history

  /** `formatDateTime(dateString)`: "Onbekend" for a missing or empty
      value, otherwise the locale rendering `render` gives it. */
  function FormatDateTime(value: Option<string>, render: string -> string): (s: string)
    ensures value.None? || value.value == "" ==> s == "Onbekend"
    ensures value.Some? && value.value != "" ==> s == render(value.value)
  {
    if value.None? || value.value == "" then "Onbekend" else render(value.value)
  }

  /** The history tab: a message when nothing was swept yet, else the log
      entries. */
  datatype HistoryPane = NoCleanupsYet | Entries(rows: seq<Retention.LogEntry>)

  /** `cleanupHistory.slice().reverse()`: a reversed copy of the log, so
      the newest sweep comes first; the log itself is a value and stays as
      it is. */
  function HistoryView(history: seq<Retention.LogEntry>): (v: HistoryPane)
    ensures v.NoCleanupsYet? <==> history == []
    ensures v.Entries? ==> |v.rows| == |history| &&
                           forall k :: 0 <= k < |history| ==> v.rows[k] == history[|history| - 1 - k]
  {
    if history == [] then NoCleanupsYet
    else
      forall k | 0 <= k < |history| ensures Reverse(history)[k] == history[|history| - 1 - k] {
        ReverseAt(history, k);
      }
      Entries(Reverse(history))
  }

  /** The first row of the history is the sweep the status reports as the
      last one. */
  lemma HistoryStartsWithLastResult(s: Retention.DataRetentionService, now: int)
    ensures s.GetRetentionStatus(now).lastCleanupResults.None? <==> HistoryView(s.GetCleanupHistory()).NoCleanupsYet?
    ensures HistoryView(s.GetCleanupHistory()).Entries? ==>
              HistoryView(s.GetCleanupHistory()).rows[0] == s.GetRetentionStatus(now).lastCleanupResults.value
  {
  }
}
