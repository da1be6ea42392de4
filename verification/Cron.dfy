/** The expansion of cron schedules of src/lib/cron-occurrences.ts, on a clock with a fixed offset from UTC. */
module Cron {
  import opened Wrappers
  import opened Text
  import opened Calendar
  import opened CronSyntax
  import opened CronNotation

  datatype ParsedCron = ParsedCron(minute: Field, hour: Field, dayOfMonth: Field, month: Field, dayOfWeek: Field)

  /** A minute of the schedule; the day key is the local date. */
  datatype Occurrence = Occurrence(atMs: int, dayKey: string)

  const MINUTE: int := 60_000

  ghost predicate FieldHas(number: Number, token: string, min: int, max: int, v: int) {
    TokenHas(number, token, min, max, v as real)
  }

  ghost predicate IsCron(parsed: ParsedCron, number: Number, words: seq<string>) {
    && |words| == 5
    && IsParsed(parsed.minute, number, words[0], 0, 59)
    && IsParsed(parsed.hour, number, words[1], 0, 23)
    && IsParsed(parsed.dayOfMonth, number, words[2], 1, 31)
    && IsParsed(parsed.month, number, words[3], 1, 12)
    && IsParsed(parsed.dayOfWeek, number, words[4], 0, 6)
  }

  method ParseCron(number: Number, raw: string) returns (parsed: Option<ParsedCron>)
    ensures parsed.None? <==> |WordsOf(raw)| != 5
    ensures parsed.Some? ==> IsCron(parsed.value, number, WordsOf(raw))
  {
    var parts := WordsOf(raw);
    if |parts| != 5 {
      return None;
    }
    var minute := ParseToken(number, parts[0], 0, 59);
    var hour := ParseToken(number, parts[1], 0, 23);
    var dayOfMonth := ParseToken(number, parts[2], 1, 31);
    var month := ParseToken(number, parts[3], 1, 12);
    var dayOfWeek := ParseToken(number, parts[4], 0, 6);
    parsed := Some(ParsedCron(minute, hour, dayOfMonth, month, dayOfWeek));
  }

  /** The day of the month and the day of the week; an unrestricted one does not count. */
  ghost predicate DayMatches(number: Number, words: seq<string>, day: int)
    requires |words| == 5
  {
    var dayOfMonth := FieldHas(number, words[2], 1, 31, Civil(day).day);
    var dayOfWeek := FieldHas(number, words[4], 0, 6, DayOfWeek(Civil(day)));
    if IsAny(words[2]) && IsAny(words[4]) then true
    else if IsAny(words[2]) then dayOfWeek
    else if IsAny(words[4]) then dayOfMonth
    else dayOfMonth || dayOfWeek
  }

  ghost predicate DateMatches(number: Number, words: seq<string>, day: int)
    requires |words| == 5
  {
    FieldHas(number, words[3], 1, 12, Civil(day).month) && DayMatches(number, words, day)
  }

  /** A local minute, counted from 1970, that a schedule names. */
  ghost predicate MinuteMatches(number: Number, words: seq<string>, minute: int)
    requires |words| == 5
  {
    && DateMatches(number, words, minute / 1440)
    && FieldHas(number, words[1], 0, 23, minute / 60 % 24)
    && FieldHas(number, words[0], 0, 59, minute % 60)
  }

  /** An instant at the beginning of a local minute that the schedule names. `offset` is local time less UTC. */
  ghost predicate Due(number: Number, schedule: string, offset: int, at: int) {
    var words := WordsOf(schedule);
    |words| == 5 && (at + offset) % MINUTE == 0 && MinuteMatches(number, words, (at + offset) / MINUTE)
  }

  method MatchesDay(parsed: ParsedCron, day: int, ghost number: Number, ghost words: seq<string>) returns (matches: bool)
    requires IsCron(parsed, number, words)
    ensures matches == DayMatches(number, words, day)
  {
    WeekdayOfCivil(day);
    var dayOfMonthMatches := parsed.dayOfMonth.Matches(Civil(day).day);
    var dayOfWeekMatches := parsed.dayOfWeek.Matches(Weekday(day));
    if parsed.dayOfMonth.any && parsed.dayOfWeek.any {
      return true;
    }
    if parsed.dayOfMonth.any {
      return dayOfWeekMatches;
    }
    if parsed.dayOfWeek.any {
      return dayOfMonthMatches;
    }
    return dayOfMonthMatches || dayOfWeekMatches;
  }

  // ---------------------------------------------------------------------------
  // Day keys

  function PadStart2(s: string): string {
    if |s| == 0 then "00" else if |s| == 1 then "0" + s else s
  }

  function YearText(year: int): string {
    if year < 0 then "-" + Decimal(-year) else Decimal(year)
  }

  function BuildDayKey(date: Date): string
    requires IsDate(date)
  {
    YearText(date.year) + "-" + PadStart2(Decimal(date.month)) + "-" + PadStart2(Decimal(date.day))
  }

  /** The date that a day key shows: the last two digits, the two before the last dash, and the year before that. */
  function ReadDayKey(key: string): Date
    requires |key| >= 7
  {
    var n := |key|;
    var year := key[..n - 6];
    Date(if year[0] == '-' then -ReadDigits(year[1..]) else ReadDigits(year), ReadDigits(key[n - 5..n - 3]), ReadDigits(key[n - 2..]))
  }

  lemma Padded(m: nat)
    requires m < 100
    ensures |PadStart2(Decimal(m))| == 2 && ReadDigits(PadStart2(Decimal(m))) == m
  {
    DecimalReads(m);
    var s := PadStart2(Decimal(m));
    assert m >= 10 ==> Decimal(m / 10) == [((m / 10) as char) + '0'];
    assert s[..1][..0] == "" && s[..1][0] == s[0];
    assert m < 10 ==> Decimal(m)[..0] == "";
  }

  lemma YearReads(year: int)
    ensures var s := YearText(year);
      s != "" && (s[0] == '-' <==> year < 0) && year == if s[0] == '-' then -ReadDigits(s[1..]) else ReadDigits(s)
  {
    var n := if year < 0 then -year else year;
    DecimalDigits(n);
    DecimalReads(n);
    assert year < 0 ==> YearText(year)[1..] == Decimal(n);
  }

  /** Every day key reads back as its date. */
  lemma DayKeyReads(date: Date)
    requires IsDate(date)
    ensures var key := BuildDayKey(date);
      |key| >= 7 && key[|key| - 6] == '-' && key[|key| - 3] == '-' && ReadDayKey(key) == date
  {
    Padded(date.month);
    Padded(date.day);
    YearReads(date.year);
    hide Decimal, PadStart2, YearText, ReadDigits;
    var key := BuildDayKey(date);
    var n := |key|;
    assert key[..n - 6] == YearText(date.year);
    assert key[n - 5..n - 3] == PadStart2(Decimal(date.month));
    assert key[n - 2..] == PadStart2(Decimal(date.day));
  }

  /** Two days have the same key only if they are the same day. */
  lemma DayKeysDetermineDays(i: int, j: int)
    requires BuildDayKey(Civil(i)) == BuildDayKey(Civil(j))
    ensures i == j
  {
    DayKeyReads(Civil(i));
    DayKeyReads(Civil(j));
    DatesDetermineDays(i, j);
  }

  // ---------------------------------------------------------------------------
  // The occurrences of a range

  function OccurrenceAt(at: int, offset: int): Occurrence {
    Occurrence(at, BuildDayKey(Civil((at + offset) / MINUTE / 1440)))
  }

  function Cap(max: int): nat {
    if max < 0 then 0 else max
  }

  predicate Holds(list: seq<Occurrence>, at: int) {
    exists i :: 0 <= i < |list| && list[i].atMs == at
  }

  predicate AllBefore(list: seq<Occurrence>, at: int) {
    forall i :: 0 <= i < |list| ==> list[i].atMs < at
  }

  predicate Ascending(list: seq<Occurrence>) {
    forall i, j :: 0 <= i < j < |list| ==> list[i].atMs < list[j].atMs
  }

  ghost predicate AreDue(list: seq<Occurrence>, number: Number, schedule: string, start: int, end: int, offset: int) {
    forall i :: 0 <= i < |list| ==>
      start <= list[i].atMs < end && Due(number, schedule, offset, list[i].atMs) && list[i] == OccurrenceAt(list[i].atMs, offset)
  }

  ghost predicate NoneMissing(list: seq<Occurrence>, number: Number, schedule: string, start: int, end: int, max: int, offset: int) {
    forall at :: start <= at < end && Due(number, schedule, offset, at) ==>
      Holds(list, at) || (|list| == Cap(max) && AllBefore(list, at))
  }

  /** The first `max` due instants of [start, end), in order. */
  ghost predicate Lists(list: seq<Occurrence>, number: Number, schedule: string, start: int, end: int, max: int, offset: int) {
    && |list| <= Cap(max)
    && Ascending(list)
    && AreDue(list, number, schedule, start, end, offset)
    && NoneMissing(list, number, schedule, start, end, max, offset)
  }

  method MatchesMinute(parsed: ParsedCron, minute: int, ghost number: Number, ghost words: seq<string>) returns (matches: bool)
    requires IsCron(parsed, number, words)
    ensures matches == MinuteMatches(number, words, minute)
  {
    var matchesDay := MatchesDay(parsed, minute / 1440, number, words);
    matches :=
      && parsed.month.Matches(Civil(minute / 1440).month)
      && matchesDay
      && parsed.hour.Matches(minute / 60 % 24)
      && parsed.minute.Matches(minute % 60);
  }

  lemma OccurrenceAtTime(at: int, offset: int)
    ensures OccurrenceAt(at, offset).atMs == at
  {
  }

  method GetCronOccurrences(number: Number, schedule: string, rangeStartMs: int, rangeEndMs: int, max: int, offset: int)
    returns (occurrences: seq<Occurrence>)
    ensures Lists(occurrences, number, schedule, rangeStartMs, rangeEndMs, max, offset)
  {
    hide Due, OccurrenceAt, IsCron, WordsOf, MinuteMatches, Lists, Collected;
    occurrences := [];
    if schedule == "" {
      NoWords();
      NothingListed(number, schedule, rangeStartMs, rangeEndMs, max, offset);
      return;
    }
    if rangeEndMs <= rangeStartMs || max <= 0 {
      NothingListed(number, schedule, rangeStartMs, rangeEndMs, max, offset);
      return;
    }
    var parsed := ParseCron(number, schedule);
    if parsed.None? {
      NothingListed(number, schedule, rangeStartMs, rangeEndMs, max, offset);
      return;
    }
    ghost var words := WordsOf(schedule);
    assert |words| == 5;
    var minute := (rangeStartMs + offset) / MINUTE;
    if minute * MINUTE - offset < rangeStartMs {
      minute := minute + 1;
    }
    var cursor := minute * MINUTE - offset;
    NothingDueYet(number, schedule, rangeStartMs, minute, offset);
    while cursor < rangeEndMs && |occurrences| < max
      invariant cursor == minute * MINUTE - offset && rangeStartMs <= cursor
      invariant |occurrences| <= max && AllBefore(occurrences, rangeEndMs)
      invariant Collected(occurrences, number, schedule, rangeStartMs, cursor, offset)
      decreases rangeEndMs - cursor
    {
      var matches := MatchesMinute(parsed.value, minute, number, words);
      DueMinute(number, schedule, minute, offset);
      ghost var before := occurrences;
      if matches {
        occurrences := occurrences + [OccurrenceAt(cursor, offset)];
        OccurrenceAtTime(cursor, offset);
      }
      CollectNext(before, occurrences, number, schedule, rangeStartMs, minute, offset);
      minute := minute + 1;
      cursor := cursor + MINUTE;
    }
    CollectedAll(occurrences, number, schedule, rangeStartMs, rangeEndMs, cursor, max, offset);
  }

  lemma NothingListed(number: Number, schedule: string, start: int, end: int, max: int, offset: int)
    requires |WordsOf(schedule)| != 5 || end <= start || max <= 0
    ensures Lists([], number, schedule, start, end, max, offset)
  {
    hide WordsOf, MinuteMatches;
  }

  /** The due instants of [start, cursor), in order. */
  ghost predicate Collected(list: seq<Occurrence>, number: Number, schedule: string, start: int, cursor: int, offset: int) {
    && Ascending(list)
    && AreDue(list, number, schedule, start, cursor, offset)
    && forall at :: start <= at < cursor && Due(number, schedule, offset, at) ==> Holds(list, at)
  }

  lemma CollectedAll(list: seq<Occurrence>, number: Number, schedule: string, start: int, end: int, cursor: int, max: int, offset: int)
    requires Collected(list, number, schedule, start, cursor, offset) && AllBefore(list, end)
    requires |list| <= max && (cursor >= end || |list| == max)
    ensures Lists(list, number, schedule, start, end, max, offset)
  {
    hide Due, OccurrenceAt;
    forall at | start <= at < end && Due(number, schedule, offset, at)
      ensures Holds(list, at) || (|list| == Cap(max) && AllBefore(list, at))
    {
    }
  }

  lemma NothingDueYet(number: Number, schedule: string, start: int, minute: int, offset: int)
    requires start <= minute * MINUTE - offset < start + MINUTE
    ensures Collected([], number, schedule, start, minute * MINUTE - offset, offset)
  {
    hide Due;
    forall at | start <= at < minute * MINUTE - offset
      ensures !Due(number, schedule, offset, at)
    {
      if Due(number, schedule, offset, at) {
        DueIsAligned(number, schedule, minute, offset, at);
      }
    }
  }

  /** Looking at one minute settles all instants before the next one. */
  lemma CollectNext(before: seq<Occurrence>, after: seq<Occurrence>, number: Number, schedule: string, start: int, minute: int, offset: int)
    requires start <= minute * MINUTE - offset
    requires Collected(before, number, schedule, start, minute * MINUTE - offset, offset)
    requires var cursor := minute * MINUTE - offset;
      after == if Due(number, schedule, offset, cursor) then before + [OccurrenceAt(cursor, offset)] else before
    ensures Collected(after, number, schedule, start, minute * MINUTE - offset + MINUTE, offset)
  {
    hide Due, OccurrenceAt;
    OccurrenceAtTime(minute * MINUTE - offset, offset);
    NextDue(before, after, number, schedule, minute, offset);
  }

  lemma NoWords()
    ensures WordsOf("") == []
  {
  }

  lemma DueMinute(number: Number, schedule: string, minute: int, offset: int)
    requires |WordsOf(schedule)| == 5
    ensures Due(number, schedule, offset, minute * MINUTE - offset) <==> MinuteMatches(number, WordsOf(schedule), minute)
  {
    hide MinuteMatches, WordsOf;
    var at := minute * MINUTE - offset;
    assert at + offset == minute * MINUTE;
    assert (at + offset) % MINUTE == 0 && (at + offset) / MINUTE == minute;
  }

  lemma DueIsAligned(number: Number, schedule: string, minute: int, offset: int, at: int)
    requires Due(number, schedule, offset, at) && minute * MINUTE - offset - MINUTE < at < minute * MINUTE - offset + MINUTE
    ensures at == minute * MINUTE - offset
  {
    hide MinuteMatches, WordsOf;
    assert (at + offset) % MINUTE == 0;
  }

  lemma NextDue(before: seq<Occurrence>, after: seq<Occurrence>, number: Number, schedule: string, minute: int, offset: int)
    requires var cursor := minute * MINUTE - offset;
      after == if Due(number, schedule, offset, cursor) then before + [OccurrenceAt(cursor, offset)] else before
    ensures forall at :: Holds(before, at) ==> Holds(after, at)
    ensures var cursor := minute * MINUTE - offset;
      forall at :: cursor <= at < cursor + MINUTE && Due(number, schedule, offset, at) ==> Holds(after, at)
  {
    hide Due, OccurrenceAt;
    var cursor := minute * MINUTE - offset;
    forall at | Holds(before, at)
      ensures Holds(after, at)
    {
      var i :| 0 <= i < |before| && before[i].atMs == at;
      assert after[i].atMs == at;
    }
    forall at | cursor <= at < cursor + MINUTE && Due(number, schedule, offset, at)
      ensures Holds(after, at)
    {
      DueIsAligned(number, schedule, minute, offset, at);
      OccurrenceAtTime(cursor, offset);
      assert after[|before|].atMs == at;
    }
  }

  // ---------------------------------------------------------------------------
  // What the lists determine

  lemma NotBefore(a: seq<Occurrence>, b: seq<Occurrence>, number: Number, schedule: string, start: int, end: int, max: int, offset: int, k: nat)
    requires Lists(a, number, schedule, start, end, max, offset) && Lists(b, number, schedule, start, end, max, offset)
    requires k < |a| && k <= |b| && a[..k] == b[..k]
    ensures k < |b| && b[k].atMs <= a[k].atMs
  {
    hide Due, OccurrenceAt;
    var at := a[k].atMs;
    assert start <= at < end && Due(number, schedule, offset, at);
    assert forall i :: 0 <= i < k ==> a[..k][i].atMs == b[..k][i].atMs == b[i].atMs && a[..k][i] == a[i];
    assert Holds(b, at) || (|b| == Cap(max) && AllBefore(b, at));
    if Holds(b, at) {
      var i :| 0 <= i < |b| && b[i].atMs == at;
    }
  }

  lemma {:induction false} SamePrefix(a: seq<Occurrence>, b: seq<Occurrence>, number: Number, schedule: string, start: int, end: int, max: int, offset: int, k: nat)
    requires Lists(a, number, schedule, start, end, max, offset) && Lists(b, number, schedule, start, end, max, offset)
    requires k <= |a|
    ensures k <= |b| && a[..k] == b[..k]
  {
    hide Due, OccurrenceAt;
    if k > 0 {
      var n := k - 1;
      SamePrefix(a, b, number, schedule, start, end, max, offset, n);
      NotBefore(a, b, number, schedule, start, end, max, offset, n);
      NotBefore(b, a, number, schedule, start, end, max, offset, n);
      hide NoneMissing, Ascending;
      assert a[n] == OccurrenceAt(a[n].atMs, offset) && b[n] == OccurrenceAt(b[n].atMs, offset);
      assert a[..k] == a[..n] + [a[n]];
      assert b[..k] == b[..n] + [b[n]];
    }
  }

  /** There is only one list. */
  lemma ListsAreUnique(a: seq<Occurrence>, b: seq<Occurrence>, number: Number, schedule: string, start: int, end: int, max: int, offset: int)
    requires Lists(a, number, schedule, start, end, max, offset) && Lists(b, number, schedule, start, end, max, offset)
    ensures a == b
  {
    hide Due, OccurrenceAt;
    SamePrefix(a, b, number, schedule, start, end, max, offset, |a|);
    SamePrefix(b, a, number, schedule, start, end, max, offset, |b|);
  }

  function FirstOf(list: seq<Occurrence>, max: int): seq<Occurrence> {
    if |list| <= Cap(max) then list else list[..Cap(max)]
  }

  /** A smaller maximum gives a prefix. */
  lemma SmallerMaximum(few: seq<Occurrence>, many: seq<Occurrence>, number: Number, schedule: string, start: int, end: int, less: int, max: int, offset: int)
    requires less <= max
    requires Lists(few, number, schedule, start, end, less, offset) && Lists(many, number, schedule, start, end, max, offset)
    ensures few == FirstOf(many, less)
  {
    hide Due, OccurrenceAt;
    var first := FirstOf(many, less);
    forall at | start <= at < end && Due(number, schedule, offset, at)
      ensures Holds(first, at) || (|first| == Cap(less) && AllBefore(first, at))
    {
      FirstHolds(many, less, at);
    }
    ListsAreUnique(few, first, number, schedule, start, end, less, offset);
  }

  lemma FirstHolds(list: seq<Occurrence>, max: int, at: int)
    requires Ascending(list) && (Holds(list, at) || AllBefore(list, at))
    ensures Holds(FirstOf(list, max), at) || AllBefore(FirstOf(list, max), at)
    ensures Holds(list, at) ==> Holds(FirstOf(list, max), at) || |FirstOf(list, max)| == Cap(max)
  {
    var first := FirstOf(list, max);
    if Holds(list, at) {
      var i :| 0 <= i < |list| && list[i].atMs == at;
      if i < |first| {
        assert first[i].atMs == at;
      }
    }
  }

  /** An instant of the first half, or of the second half, that the whole list does not have comes after a full list. */
  lemma FirstHalf(a: seq<Occurrence>, b: seq<Occurrence>, max: int, at: int)
    requires |a| <= Cap(max) && (Holds(a, at) || (|a| == Cap(max) && AllBefore(a, at)))
    ensures var first := FirstOf(a + b, max); Holds(first, at) || (|first| == Cap(max) && AllBefore(first, at))
  {
    var first := FirstOf(a + b, max);
    if Holds(a, at) {
      var i :| 0 <= i < |a| && a[i].atMs == at;
      assert first[i].atMs == at;
    } else {
      assert first == a;
    }
  }

  lemma SecondHalf(a: seq<Occurrence>, b: seq<Occurrence>, max: int, at: int)
    requires |a| <= Cap(max) && |b| <= Cap(max) && Ascending(a + b) && AllBefore(a, at)
    requires Holds(b, at) || (|b| == Cap(max) && AllBefore(b, at))
    ensures var first := FirstOf(a + b, max); Holds(first, at) || (|first| == Cap(max) && AllBefore(first, at))
  {
    if Holds(b, at) {
      var i :| 0 <= i < |b| && b[i].atMs == at;
      assert (a + b)[|a| + i].atMs == at;
    }
    FirstHolds(a + b, max, at);
  }

  /** Cutting a range in two and appending the lists gives the list of the whole range. */
  lemma RangesConcatenate(a: seq<Occurrence>, b: seq<Occurrence>, whole: seq<Occurrence>,
                          number: Number, schedule: string, start: int, mid: int, end: int, max: int, offset: int)
    requires start <= mid <= end
    requires Lists(a, number, schedule, start, mid, max, offset) && Lists(b, number, schedule, mid, end, max, offset)
    requires Lists(whole, number, schedule, start, end, max, offset)
    ensures whole == FirstOf(a + b, max)
  {
    hide Due, OccurrenceAt;
    var first := FirstOf(a + b, max);
    assert Ascending(a + b);
    forall at | start <= at < end && Due(number, schedule, offset, at)
      ensures Holds(first, at) || (|first| == Cap(max) && AllBefore(first, at))
    {
      if at < mid {
        FirstHalf(a, b, max, at);
      } else {
        SecondHalf(a, b, max, at);
      }
    }
    ListsAreUnique(whole, first, number, schedule, start, end, max, offset);
  }

  // ---------------------------------------------------------------------------
  // The crontab day rule

  /** The day rule of the POSIX.1-2017 crontab page, section INPUT FILES. */
  ghost predicate PosixDate(number: Number, words: seq<string>, day: int)
    requires |words| == 5
  {
    var month := FieldHas(number, words[3], 1, 12, Civil(day).month);
    var dayOfMonth := FieldHas(number, words[2], 1, 31, Civil(day).day);
    var dayOfWeek := FieldHas(number, words[4], 0, 6, DayOfWeek(Civil(day)));
    if IsAny(words[4]) then month && dayOfMonth
    else if IsAny(words[3]) && IsAny(words[2]) then dayOfWeek
    else (month && dayOfMonth) || dayOfWeek
  }

  ghost predicate Full(number: Number, token: string, min: int, max: int) {
    forall v :: min <= v <= max ==> FieldHas(number, token, min, max, v)
  }

  ghost predicate Empty(number: Number, token: string, min: int, max: int) {
    forall v :: min <= v <= max ==> !FieldHas(number, token, min, max, v)
  }

  /**
    The month and the day of the week are not both restricted; or they are, but restrict nothing, or leave nothing
    over.
    */
  ghost predicate PosixAgrees(number: Number, words: seq<string>)
    requires |words| == 5
  {
    || IsAny(words[3])
    || IsAny(words[4])
    || if IsAny(words[2]) then
         || (Full(number, words[3], 1, 12) && Full(number, words[4], 0, 6))
         || (Empty(number, words[3], 1, 12) && Empty(number, words[4], 0, 6))
       else
         Full(number, words[3], 1, 12) || Empty(number, words[4], 0, 6)
  }

  lemma AnyIsFull(number: Number, token: string, min: int, max: int)
    requires IsAny(token)
    ensures Full(number, token, min, max)
  {
    AnyToken(number, token, min, max);
    forall v | min <= v <= max
      ensures FieldHas(number, token, min, max, v)
    {
      StepsOfIntegers(min, max, 1, v);
    }
  }

  lemma PosixAgreesEveryDay(number: Number, words: seq<string>, day: int)
    requires |words| == 5 && PosixAgrees(number, words)
    ensures DateMatches(number, words, day) <==> PosixDate(number, words, day)
  {
    if IsAny(words[2]) {
      AnyIsFull(number, words[2], 1, 31);
    }
    if IsAny(words[3]) {
      AnyIsFull(number, words[3], 1, 12);
    }
    if IsAny(words[4]) {
      AnyIsFull(number, words[4], 0, 6);
    }
    DateRanges(Civil(day));
    hide DayOfWeek, FieldHas;
  }

  lemma PosixDiffers(number: Number, words: seq<string>, month: int, weekday: int) returns (day: int)
    requires |words| == 5 && !IsAny(words[3]) && !IsAny(words[4])
    requires 1 <= month <= 12 && 0 <= weekday <= 6
    requires var m, w := FieldHas(number, words[3], 1, 12, month), FieldHas(number, words[4], 0, 6, weekday);
      (!m && w) || (m && !w && IsAny(words[2]))
    ensures DateMatches(number, words, day) != PosixDate(number, words, day)
  {
    day := EveryWeekday(month, weekday);
    DateRanges(Civil(day));
    hide DayOfWeek, FieldHas;
    if IsAny(words[2]) {
      AnyIsFull(number, words[2], 1, 31);
    }
  }

  /** The dates of a schedule are those of the POSIX rule exactly when `PosixAgrees` says so. */
  lemma PosixDayRule(number: Number, words: seq<string>)
    requires |words| == 5
    ensures PosixAgrees(number, words) <==> forall day :: DateMatches(number, words, day) <==> PosixDate(number, words, day)
  {
    if PosixAgrees(number, words) {
      forall day
        ensures DateMatches(number, words, day) <==> PosixDate(number, words, day)
      {
        PosixAgreesEveryDay(number, words, day);
      }
    } else {
      var months, weekdays := words[3], words[4];
      var month, weekday;
      if !Full(number, months, 1, 12) && !Empty(number, weekdays, 0, 6) {
        month :| 1 <= month <= 12 && !FieldHas(number, months, 1, 12, month);
        weekday :| 0 <= weekday <= 6 && FieldHas(number, weekdays, 0, 6, weekday);
      } else {
        month :| 1 <= month <= 12 && FieldHas(number, months, 1, 12, month);
        weekday :| 0 <= weekday <= 6 && !FieldHas(number, weekdays, 0, 6, weekday);
      }
      var day := PosixDiffers(number, words, month, weekday);
    }
  }

  // ---------------------------------------------------------------------------
  // Written crontabs

  /** Every range of every field fits. */
  predicate Fits(c: Crontab) {
    && FieldFits(c.minute, 0, 59)
    && FieldFits(c.hour, 0, 23)
    && FieldFits(c.dayOfMonth, 1, 31)
    && FieldFits(c.month, 1, 12)
    && FieldFits(c.dayOfWeek, 0, 6)
  }

  /** A day of the month and a day of the week that are both restricted need not both match. */
  ghost predicate MeansDay(c: Crontab, date: Date)
    requires IsDate(date)
  {
    var dayOfMonth := FieldMeans(c.dayOfMonth, 1, 31, date.day);
    var dayOfWeek := FieldMeans(c.dayOfWeek, 0, 6, DayOfWeek(date));
    if c.dayOfMonth == [Every] || c.dayOfWeek == [Every] then dayOfMonth && dayOfWeek else dayOfMonth || dayOfWeek
  }

  /** The local times that a crontab means. */
  ghost predicate MeansTime(c: Crontab, date: Date, hour: int, minute: int)
    requires IsDate(date)
  {
    && FieldMeans(c.minute, 0, 59, minute)
    && FieldMeans(c.hour, 0, 23, hour)
    && FieldMeans(c.month, 1, 12, date.month)
    && MeansDay(c, date)
  }

  /** The instant at which local clocks show a time, which is `offset` milliseconds ahead of UTC. */
  function Instant(date: Date, hour: int, minute: int, ms: int, offset: int): int {
    DayNumber(date) * 86_400_000 + hour * 3_600_000 + minute * 60_000 + ms - offset
  }

  lemma OnlyEveryIsAny(field: seq<Element>)
    requires field != []
    ensures IsAny(PrintField(field)) <==> field == [Every]
  {
    SplitField(field);
    TrimNothing(PrintField(field));
    if PrintField(field) == "*" {
      SplitWithout("*", ',');
      assert PrintElements(field)[0] == "*" && |field| == 1;
      OnlyEveryIsStar(field[0]);
    }
  }

  lemma OnlyEveryIsStar(e: Element)
    ensures PrintElement(e) == "*" ==> e == Every
  {
    match e
    case Every =>
    case EveryStep(step) =>
      DecimalDigits(step);
    case One(n) =>
      DecimalDigits(n);
      assert '0' <= PrintElement(e)[0] <= '9';
    case Between(a, b) =>
      DecimalDigits(a);
      assert PrintElement(e)[0] == Decimal(a)[0];
    case BetweenStep(a, b, step) =>
      DecimalDigits(a);
      assert PrintElement(e)[0] == Decimal(a)[0];
  }

  lemma InstantFields(date: Date, hour: int, minute: int, ms: int, offset: int)
    requires IsDate(date) && 0 <= hour < 24 && 0 <= minute < 60 && 0 <= ms < 60_000
    ensures var at := Instant(date, hour, minute, ms, offset);
      && (at + offset) % MINUTE == ms
      && var m := (at + offset) / MINUTE; Civil(m / 1440) == date && m / 60 % 24 == hour && m % 60 == minute
  {
    hide DayNumber, Civil, IsDate;
    var day := DayNumber(date);
    var m := day * 1440 + hour * 60 + minute;
    DateOfDayNumber(date);
    MinuteFields(day, hour, minute);
    MinuteOf(m, ms);
    assert Instant(date, hour, minute, ms, offset) + offset == m * MINUTE + ms;
  }

  lemma MinuteOf(m: int, ms: int)
    requires 0 <= ms < 60_000
    ensures (m * MINUTE + ms) / MINUTE == m && (m * MINUTE + ms) % MINUTE == ms
  {
  }

  lemma MinuteFields(day: int, hour: int, minute: int)
    requires 0 <= hour < 24 && 0 <= minute < 60
    ensures var m := day * 1440 + hour * 60 + minute; m / 1440 == day && m / 60 == day * 24 + hour && m / 60 % 24 == hour && m % 60 == minute
  {
  }

  /**
    A written crontab, with or without a time zone behind it, is due at an instant exactly when local clocks show a
    full minute then that the crontab means.
    */
  lemma WrittenCrontabIsDue(number: Number, c: Crontab, zone: Option<string>, date: Date, hour: int, minute: int, ms: int, offset: int)
    requires ReadsNumerals(number) && Fits(c) && (zone.Some? ==> IsZone(zone.value))
    requires IsDate(date) && 0 <= hour < 24 && 0 <= minute < 60 && 0 <= ms < 60_000
    ensures Due(number, WithZone(PrintWords(PrintFields(c)), zone), offset, Instant(date, hour, minute, ms, offset))
            <==> ms == 0 && MeansTime(c, date, hour, minute)
    ensures OccurrenceAt(Instant(date, hour, minute, ms, offset), offset).dayKey == BuildDayKey(date)
  {
    ScheduleWords(c, zone);
    InstantFields(date, hour, minute, ms, offset);
    hide WordsOf, MinuteMatches, MeansTime, Civil, BuildDayKey, Instant, IsZone, WithZone, Fits;
    WrittenMinuteMatches(number, c, (Instant(date, hour, minute, ms, offset) + offset) / MINUTE);
  }

  lemma WrittenMinuteMatches(number: Number, c: Crontab, m: int)
    requires ReadsNumerals(number) && Fits(c)
    ensures MinuteMatches(number, PrintFields(c), m) <==> MeansTime(c, Civil(m / 1440), m / 60 % 24, m % 60)
  {
    hide TokenHas, FieldMeans, PrintField, IsAny, Civil, Decimal, DayMatches, MeansDay, DayOfWeek;
    var day := m / 1440;
    FieldReadsAsMeant(number, c.minute, 0, 59, m % 60);
    FieldReadsAsMeant(number, c.hour, 0, 23, m / 60 % 24);
    FieldReadsAsMeant(number, c.month, 1, 12, Civil(day).month);
    WrittenDayMatches(number, c, day);
  }

  lemma WrittenDayMatches(number: Number, c: Crontab, day: int)
    requires ReadsNumerals(number) && Fits(c)
    ensures DayMatches(number, PrintFields(c), day) <==> MeansDay(c, Civil(day))
  {
    hide TokenHas, FieldMeans, PrintField, IsAny, Civil, Decimal, DayOfWeek;
    var date := Civil(day);
    FieldReadsAsMeant(number, c.dayOfMonth, 1, 31, date.day);
    FieldReadsAsMeant(number, c.dayOfWeek, 0, 6, DayOfWeek(date));
    OnlyEveryIsAny(c.dayOfMonth);
    OnlyEveryIsAny(c.dayOfWeek);
    DateRanges(date);
    EveryMeansAll(1, 31, date.day);
    EveryMeansAll(0, 6, DayOfWeek(date));
  }

  lemma DateRanges(date: Date)
    requires IsDate(date)
    ensures 1 <= date.day <= 31 && 0 <= DayOfWeek(date) <= 6
  {
  }

  lemma EveryMeansAll(min: int, max: int, v: int)
    requires min <= v <= max
    ensures FieldMeans([Every], min, max, v)
  {
    assert Means([Every][0], min, max, v);
  }
}
