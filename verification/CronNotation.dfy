/** Crontabs as structured values: how they are written, what they mean, and what src/lib/cron-occurrences.ts reads. */
module CronNotation {
  import opened Wrappers
  import opened Text
  import opened CronSyntax

  datatype Element =
    | Every
    | EveryStep(step: nat)
    | One(n: nat)
    | Between(a: nat, b: nat)
    | BetweenStep(a: nat, b: nat, step: nat)

  // ---------------------------------------------------------------------------
  // Writing

  function Decimal(n: nat): string {
    if n < 10 then [(n as char) + '0'] else Decimal(n / 10) + [((n % 10) as char) + '0']
  }

  function PrintElement(e: Element): string {
    match e
    case Every => "*"
    case EveryStep(step) => "*/" + Decimal(step)
    case One(n) => Decimal(n)
    case Between(a, b) => Decimal(a) + "-" + Decimal(b)
    case BetweenStep(a, b, step) => Decimal(a) + "-" + Decimal(b) + "/" + Decimal(step)
  }

  function PrintField(field: seq<Element>): string
    requires field != []
  {
    if |field| == 1 then PrintElement(field[0]) else PrintElement(field[0]) + "," + PrintField(field[1..])
  }

  /** Number() reads decimal numerals. */
  ghost predicate ReadsNumerals(number: Number) {
    forall n: nat :: number(Decimal(n)) == Some(n as real)
  }

  // ---------------------------------------------------------------------------
  // Meaning

  predicate Progression(from: int, to: int, step: nat, v: int) {
    step > 0 && from <= v <= to && (v - from) % step == 0
  }

  /** The values in `min..max` that an element stands for in a crontab. */
  predicate Means(e: Element, min: int, max: int, v: int) {
    && min <= v <= max
    && match e
       case Every => true
       case EveryStep(step) => Progression(min, max, step, v)
       case One(n) => v == n
       case Between(a, b) => a <= v <= b
       case BetweenStep(a, b, step) => Progression(a, b, step, v)
  }

  function ClampInt(n: int, min: int, max: int): int {
    if n < min then min else if n > max then max else n
  }

  /** The values that are read: the bounds of a range are first moved into `min..max`. */
  predicate IsRead(e: Element, min: int, max: int, v: int) {
    match e
    case Every => min <= v <= max
    case EveryStep(step) => Progression(min, max, step, v)
    case One(n) => min <= v <= max && v == n
    case Between(a, b) => ClampInt(a, min, max) <= v <= ClampInt(b, min, max)
    case BetweenStep(a, b, step) => Progression(ClampInt(a, min, max), ClampInt(b, min, max), step, v)
  }

  /** The range does not lie beyond one of the two limits, and a start below the lower limit is in step with it. */
  predicate RangeFits(a: nat, b: nat, step: nat, min: int, max: int) {
    && !(a > max && b >= max)
    && !(b < min && a <= min)
    && (step > 0 && a < min ==> (min - a) % step == 0)
  }

  predicate ElementFits(e: Element, min: int, max: int) {
    match e
    case Between(a, b) => RangeFits(a, b, 1, min, max)
    case BetweenStep(a, b, step) => step > 0 ==> RangeFits(a, b, step, min, max)
    case _ => true
  }

  lemma ProgressionShifts(a: int, from: int, step: nat, v: int)
    requires step > 0 && (from - a) % step == 0
    ensures (v - a) % step == 0 <==> (v - from) % step == 0
  {
    var k := (from - a) / step;
    assert v - a == (v - from) + k * step;
    ModShift(v - from, k, step);
  }

  lemma ModIsUnique(x: int, q: int, r: int, step: nat)
    requires 0 <= r < step && x == q * step + r
    ensures x % step == r
  {
    var q', r' := x / step, x % step;
    assert x == q' * step + r';
    var gap := q - q';
    assert gap * step == r' - r;
    assert gap > 0 ==> gap * step >= step;
    assert gap < 0 ==> gap * step <= 0 - step;
  }

  lemma ModShift(x: int, k: int, step: nat)
    requires step > 0
    ensures (x + k * step) % step == x % step
  {
    var q := x / step;
    assert x + k * step == (q + k) * step + x % step;
    ModIsUnique(x + k * step, q + k, x % step, step);
  }

  lemma RangeReadsExactly(a: nat, b: nat, step: nat, min: int, max: int)
    requires min < max && step > 0
    ensures RangeFits(a, b, step, min, max) <==>
      forall v :: Progression(ClampInt(a, min, max), ClampInt(b, min, max), step, v) <==> min <= v <= max && Progression(a, b, step, v)
  {
    var from, to := ClampInt(a, min, max), ClampInt(b, min, max);
    if RangeFits(a, b, step, min, max) {
      forall v
        ensures Progression(from, to, step, v) <==> min <= v <= max && Progression(a, b, step, v)
      {
        if a < min {
          ProgressionShifts(a, min, step, v);
          assert from == min && to == if b > max then max else b;
        } else if a > max {
          assert from == max && to < max && b < a;
        } else {
          assert from == a;
        }
      }
    } else {
      assert Progression(from, to, step, from) && !Progression(a, b, step, from);
    }
  }

  /** An element is read as what it means exactly when its range fits the field. */
  lemma ElementReadsExactly(e: Element, min: int, max: int)
    requires min < max
    ensures ElementFits(e, min, max) <==> forall v :: IsRead(e, min, max, v) <==> Means(e, min, max, v)
  {
    match e
    case Between(a, b) =>
      RangeReadsExactly(a, b, 1, min, max);
      forall v
        ensures IsRead(e, min, max, v) <==> Progression(ClampInt(a, min, max), ClampInt(b, min, max), 1, v)
        ensures Means(e, min, max, v) <==> min <= v <= max && Progression(a, b, 1, v)
      {
      }
    case BetweenStep(a, b, step) =>
      if step > 0 {
        RangeReadsExactly(a, b, step, min, max);
        forall v
          ensures IsRead(e, min, max, v) <==> Progression(ClampInt(a, min, max), ClampInt(b, min, max), step, v)
          ensures Means(e, min, max, v) <==> min <= v <= max && Progression(a, b, step, v)
        {
        }
      }
    case _ =>
  }

  // ---------------------------------------------------------------------------
  // Reading an element

  predicate IsDigits(s: string) {
    s != "" && forall i :: 0 <= i < |s| ==> '0' <= s[i] <= '9'
  }

  lemma {:induction false} DecimalDigits(n: nat)
    ensures IsDigits(Decimal(n))
  {
    if n >= 10 {
      DecimalDigits(n / 10);
    }
  }

  /** The number that a string of digits denotes. */
  function ReadDigits(s: string): int {
    if s == "" then 0 else 10 * ReadDigits(s[..|s| - 1]) + (s[|s| - 1] as int - '0' as int)
  }

  lemma {:induction false} DecimalReads(n: nat)
    ensures ReadDigits(Decimal(n)) == n
  {
    var s := Decimal(n);
    if n >= 10 {
      DecimalReads(n / 10);
      assert s[..|s| - 1] == Decimal(n / 10);
    } else {
      assert s[..0] == "";
    }
  }

  lemma {:induction false} TrimNothing(s: string)
    requires s != "" ==> !IsSpace(s[0]) && !IsSpace(s[|s| - 1])
    ensures Trim(s) == s
  {
  }

  /** An empty part contributes nothing, and an empty step is a step of 1. */
  lemma EmptyPieces(number: Number, part: string, min: int, max: int, x: real)
    requires part != "" && '/' !in part && !IsSpace(part[0]) && !IsSpace(part[|part| - 1])
    ensures !PartHas(number, "", min, max, x)
    ensures PartHas(number, part + "/", min, max, x) <==> PartHas(number, part, min, max, x)
  {
    TrimNothing("");
    TrimNothing(part);
    TrimNothing(part + "/");
    SplitWithout(part, '/');
    SplitWithout("", '/');
    SplitConcat(part, "", '/');
    assert part + ['/'] + "" == part + "/";
    hide Trim, Split, InSteps, Clamp;
  }

  lemma StepsOfIntegers(from: int, to: int, step: nat, v: int)
    requires step > 0
    ensures InSteps(from as real, to as real, step as real, v as real) <==> Progression(from, to, step, v)
  {
    if Progression(from, to, step, v) {
      var k: nat := (v - from) / step;
      assert v == from + k * step;
      assert v as real == At(from as real, step as real, k);
    }
    if InSteps(from as real, to as real, step as real, v as real) {
      var k: nat :| v as real == At(from as real, step as real, k);
      assert (k * step) as real == k as real * step as real;
      assert v - from == 0 + k * step;
      ModShift(0, k, step);
    }
  }

  /** The steps of an element's progression when it is written with "/step". */
  lemma SplitElement(e: Element)
    ensures var pieces := Split(PrintElement(e), '/');
      match e
      case Every => pieces == ["*"]
      case EveryStep(step) => pieces == ["*", Decimal(step)]
      case One(n) => pieces == [Decimal(n)]
      case Between(a, b) => pieces == [Decimal(a) + "-" + Decimal(b)]
      case BetweenStep(a, b, step) => pieces == [Decimal(a) + "-" + Decimal(b), Decimal(step)]
  {
    match e
    case Every =>
      SplitWithout("*", '/');
    case EveryStep(step) =>
      DecimalDigits(step);
      assert PrintElement(e) == "*" + ['/'] + Decimal(step);
      SplitConcat("*", Decimal(step), '/');
      SplitWithout("*", '/');
      SplitWithout(Decimal(step), '/');
    case One(n) =>
      DecimalDigits(n);
      SplitWithout(Decimal(n), '/');
    case Between(a, b) =>
      DecimalDigits(a);
      DecimalDigits(b);
      SplitWithout(Decimal(a) + "-" + Decimal(b), '/');
    case BetweenStep(a, b, step) =>
      DecimalDigits(a);
      DecimalDigits(b);
      DecimalDigits(step);
      assert PrintElement(e) == (Decimal(a) + "-" + Decimal(b)) + ['/'] + Decimal(step);
      SplitConcat(Decimal(a) + "-" + Decimal(b), Decimal(step), '/');
      SplitWithout(Decimal(a) + "-" + Decimal(b), '/');
      SplitWithout(Decimal(step), '/');
  }

  lemma SplitRange(a: nat, b: nat)
    ensures Split(Decimal(a) + "-" + Decimal(b), '-') == [Decimal(a), Decimal(b)]
    ensures Decimal(a) + "-" + Decimal(b) != "*" && '-' in Decimal(a) + "-" + Decimal(b)
  {
    DecimalDigits(a);
    DecimalDigits(b);
    assert Decimal(a) + "-" + Decimal(b) == Decimal(a) + ['-'] + Decimal(b);
    SplitConcat(Decimal(a), Decimal(b), '-');
    SplitWithout(Decimal(a), '-');
    SplitWithout(Decimal(b), '-');
  }

  /** The characters of a printed element or field. */
  predicate IsCronChar(c: char) {
    '0' <= c <= '9' || c in {'*', '/', '-', ','}
  }

  predicate IsCronText(s: string) {
    s != "" && forall i :: 0 <= i < |s| ==> IsCronChar(s[i])
  }

  lemma ElementText(e: Element)
    ensures IsCronText(PrintElement(e)) && ',' !in PrintElement(e)
  {
    match e
    case Every =>
    case EveryStep(step) =>
      DecimalDigits(step);
    case One(n) =>
      DecimalDigits(n);
    case Between(a, b) =>
      DecimalDigits(a);
      DecimalDigits(b);
    case BetweenStep(a, b, step) =>
      DecimalDigits(a);
      DecimalDigits(b);
      DecimalDigits(step);
  }

  lemma ClampIsInt(n: int, min: int, max: int)
    requires min <= max
    ensures Clamp(n as real, min, max) == ClampInt(n, min, max) as real
  {
  }

  lemma RangeReads(number: Number, a: nat, b: nat, step: nat, min: int, max: int, v: int)
    requires ReadsNumerals(number) && min <= max
    ensures PartHas(number, PrintElement(BetweenStep(a, b, step)), min, max, v as real) <==> IsRead(BetweenStep(a, b, step), min, max, v)
    ensures PartHas(number, PrintElement(Between(a, b)), min, max, v as real) <==> IsRead(Between(a, b), min, max, v)
  {
    hide Decimal, Split, Trim, InSteps, Clamp, ClampInt, Progression;
    var e := BetweenStep(a, b, step);
    var from, to := ClampInt(a, min, max), ClampInt(b, min, max);
    ElementText(e);
    TrimNothing(PrintElement(e));
    SplitElement(e);
    ElementText(Between(a, b));
    TrimNothing(PrintElement(Between(a, b)));
    SplitElement(Between(a, b));
    DecimalDigits(step);
    SplitRange(a, b);
    ClampIsInt(a, min, max);
    ClampIsInt(b, min, max);
    StepZero(from, to, v);
    if step > 0 {
      StepsOfIntegers(from, to, step, v);
    }
    StepsOfIntegers(from, to, 1, v);
    EveryStepIsOne(from, to, v);
  }

  /** An element is read from its text as `IsRead` says. */
  lemma ElementReads(number: Number, e: Element, min: int, max: int, v: int)
    requires ReadsNumerals(number) && min <= max
    ensures PartHas(number, PrintElement(e), min, max, v as real) <==> IsRead(e, min, max, v)
  {
    match e
    case Every =>
      SplitElement(e);
      StepsOfIntegers(min, max, 1, v);
      EveryStepIsOne(min, max, v);
    case EveryStep(step) =>
      StarStepReads(number, step, min, max, v);
    case One(n) =>
      ElementText(e);
      TrimNothing(PrintElement(e));
      SplitElement(e);
      DecimalDigits(n);
    case Between(a, b) =>
      RangeReads(number, a, b, 1, min, max, v);
    case BetweenStep(a, b, step) =>
      RangeReads(number, a, b, step, min, max, v);
  }

  lemma StarStepReads(number: Number, step: nat, min: int, max: int, v: int)
    requires ReadsNumerals(number) && min <= max
    ensures PartHas(number, PrintElement(EveryStep(step)), min, max, v as real) <==> IsRead(EveryStep(step), min, max, v)
  {
    var e := EveryStep(step);
    ElementText(e);
    TrimNothing(PrintElement(e));
    SplitElement(e);
    DecimalDigits(step);
    if step > 0 {
      StepsOfIntegers(min, max, step, v);
    }
    hide Decimal, Split, Trim, InSteps;
  }

  lemma EveryStepIsOne(from: int, to: int, v: int)
    ensures Progression(from, to, 1, v) <==> from <= v <= to
  {
  }

  lemma StepZero(from: int, to: int, v: int)
    ensures !Progression(from, to, 0, v)
  {
  }

  // ---------------------------------------------------------------------------
  // Reading a field

  ghost predicate FieldIsRead(field: seq<Element>, min: int, max: int, v: int) {
    exists i :: 0 <= i < |field| && IsRead(field[i], min, max, v)
  }

  function PrintElements(field: seq<Element>): seq<string> {
    seq(|field|, i requires 0 <= i < |field| => PrintElement(field[i]))
  }

  lemma {:induction false} SplitField(field: seq<Element>)
    requires field != []
    ensures Split(PrintField(field), ',') == PrintElements(field)
    ensures IsCronText(PrintField(field))
  {
    var first := PrintElement(field[0]);
    ElementText(field[0]);
    SplitWithout(first, ',');
    if |field| > 1 {
      SplitField(field[1..]);
      assert PrintField(field) == first + [','] + PrintField(field[1..]);
      SplitConcat(first, PrintField(field[1..]), ',');
      assert PrintElements(field) == [first] + PrintElements(field[1..]);
    } else {
      assert PrintElements(field) == [first];
    }
  }

  lemma FieldReads(number: Number, field: seq<Element>, min: int, max: int, v: int)
    requires field != [] && ReadsNumerals(number) && min <= max
    ensures TokenHas(number, PrintField(field), min, max, v as real) <==> FieldIsRead(field, min, max, v)
  {
    SplitField(field);
    TrimNothing(PrintField(field));
    var parts := PrintElements(field);
    forall i | 0 <= i < |field|
      ensures PartHas(number, parts[i], min, max, v as real) <==> IsRead(field[i], min, max, v)
    {
      ElementReads(number, field[i], min, max, v);
    }
  }

  ghost predicate FieldMeans(field: seq<Element>, min: int, max: int, v: int) {
    exists i :: 0 <= i < |field| && Means(field[i], min, max, v)
  }

  predicate FieldFits(field: seq<Element>, min: int, max: int) {
    field != [] && forall i :: 0 <= i < |field| ==> ElementFits(field[i], min, max)
  }

  /** A field whose ranges fit has the values that its elements mean. */
  lemma FieldReadsAsMeant(number: Number, field: seq<Element>, min: int, max: int, v: int)
    requires FieldFits(field, min, max) && ReadsNumerals(number) && min < max
    ensures TokenHas(number, PrintField(field), min, max, v as real) <==> FieldMeans(field, min, max, v)
  {
    FieldReads(number, field, min, max, v);
    forall i | 0 <= i < |field|
      ensures IsRead(field[i], min, max, v) <==> Means(field[i], min, max, v)
    {
      ElementReadsExactly(field[i], min, max);
    }
  }

  // ---------------------------------------------------------------------------
  // A whole schedule

  /** Minute, hour, day of the month, month, day of the week. */
  datatype Crontab = Crontab(minute: seq<Element>, hour: seq<Element>, dayOfMonth: seq<Element>, month: seq<Element>, dayOfWeek: seq<Element>) {
    predicate Valid() {
      minute != [] && hour != [] && dayOfMonth != [] && month != [] && dayOfWeek != []
    }
  }

  function PrintFields(c: Crontab): seq<string>
    requires c.Valid()
  {
    [PrintField(c.minute), PrintField(c.hour), PrintField(c.dayOfMonth), PrintField(c.month), PrintField(c.dayOfWeek)]
  }

  function PrintWords(words: seq<string>): string {
    Unsplit(words, " ")
  }

  predicate AreCronWords(words: seq<string>) {
    forall i :: 0 <= i < |words| ==> IsCronText(words[i])
  }

  lemma {:induction false} WordOfText(w: string, rest: string)
    requires IsCronText(w) && (rest == "" || IsSpace(rest[0]))
    ensures WordLength(w + rest) == |w|
  {
    assert (w + rest)[1..] == w[1..] + rest;
    if |w| > 1 {
      WordOfText(w[1..], rest);
    } else {
      assert (w + rest)[1..] == rest;
    }
  }

  lemma FirstWord(w: string, rest: string)
    requires IsCronText(w) && (rest == "" || IsSpace(rest[0]))
    ensures Words(w + rest) == [w] + Words(rest)
  {
    WordOfText(w, rest);
    assert (w + rest)[0] == w[0] && !IsSpace(w[0]);
    assert TrimStart(w + rest) == w + rest;
    hide IsSpace, WordLength;
    assert (w + rest)[..|w|] == w && (w + rest)[|w|..] == rest;
  }

  lemma WordsAfterBlank(s: string)
    ensures Words(" " + s) == Words(s)
  {
    assert (" " + s)[1..] == s;
    assert TrimStart(" " + s) == TrimStart(s);
  }

  lemma {:induction false} WordsOfPrinted(words: seq<string>)
    requires AreCronWords(words)
    ensures Words(PrintWords(words)) == words
  {
    hide Words, IsSpace, IsCronText;
    if words == [] {
      NoWordsInNothing();
    } else {
      var w := words[0];
      assert IsCronText(w) && words == [w] + words[1..];
      WordsOfPrinted(words[1..]);
      if |words| == 1 {
        FirstWord(w, "");
        NoWordsInNothing();
        assert w + "" == PrintWords(words);
      } else {
        var rest := " " + PrintWords(words[1..]);
        BlankFirst(PrintWords(words[1..]));
        FirstWord(w, rest);
        WordsAfterBlank(PrintWords(words[1..]));
        assert w + rest == PrintWords(words);
      }
    }
  }

  lemma NoWordsInNothing()
    ensures Words("") == []
  {
  }

  lemma BlankFirst(s: string)
    ensures IsSpace((" " + s)[0])
  {
  }

  /** Printed words begin and end with a printed character, and contain nothing else but blanks. */
  lemma {:induction false} PrintedText(words: seq<string>)
    requires AreCronWords(words) && words != []
    ensures var s := PrintWords(words);
      s != "" && IsCronChar(s[0]) && IsCronChar(s[|s| - 1]) && forall i :: 0 <= i < |s| ==> IsCronChar(s[i]) || s[i] == ' '
  {
    assert IsCronText(words[0]);
    if |words| > 1 {
      PrintedText(words[1..]);
    }
  }

  /** A time zone as it is shown after a schedule. */
  predicate IsZone(zone: string) {
    zone != "" && '(' !in zone && ')' !in zone
  }

  function WithZone(schedule: string, zone: Option<string>): string {
    match zone
    case None => schedule
    case Some(z) => schedule + " (" + z + ")"
  }

  lemma {:induction false} TrimStartSuffix(s: string)
    ensures var t := TrimStart(s); |t| <= |s| && s[|s| - |t|..] == t
  {
    if s != "" && IsSpace(s[0]) {
      TrimStartSuffix(s[1..]);
    }
  }

  /** Without a parenthesis in the first `n` characters, no zone is found before there. */
  lemma {:induction false} BeforeZoneNone(s: string, n: nat)
    requires n <= |s| && (s == "" || s[|s| - 1] != ')')
    ensures BeforeZone(s, n) == ""
  {
    assert !IsZoneSuffix(s[n..]) by {
      TrimStartSuffix(s[n..]);
    }
    if n > 0 {
      BeforeZoneNone(s, n - 1);
    }
  }

  lemma {:induction false} BeforeZoneFinds(body: string, zone: string, n: nat)
    requires IsZone(zone) && body != "" && !IsSpace(body[|body| - 1])
    requires forall i :: 0 <= i < |body| ==> !IsLineTerminator(body[i])
    requires |body| <= n <= |body + " (" + zone + ")"|
    ensures BeforeZone(body + " (" + zone + ")", n) == body
  {
    var s := body + " (" + zone + ")";
    if n == |body| {
      assert s[n..] == " (" + zone + ")";
      assert s[n..][1..] == "(" + zone + ")";
      assert TrimStart(s[n..]) == "(" + zone + ")";
      assert s[..n] == body;
    } else {
      assert !IsZoneSuffix(s[n..]) by {
        TrimStartSuffix(s[n..]);
        var t := TrimStart(s[n..]);
        var at := |s| - |t|;
        assert t != "" ==> t[0] == s[at];
        assert at > |body| ==> forall i :: at <= i < |s| && s[i] == '(' ==> i == |body| + 1;
      }
      BeforeZoneFinds(body, zone, n - 1);
    }
  }

  lemma ScheduleWords(c: Crontab, zone: Option<string>)
    requires c.Valid() && (zone.Some? ==> IsZone(zone.value))
    ensures WordsOf(WithZone(PrintWords(PrintFields(c)), zone)) == PrintFields(c)
  {
    var words := PrintFields(c);
    forall i | 0 <= i < |words|
      ensures IsCronText(words[i])
    {
      SplitField([c.minute, c.hour, c.dayOfMonth, c.month, c.dayOfWeek][i]);
    }
    var body := PrintWords(words);
    var s := WithZone(body, zone);
    PrintedText(words);
    TrimNothing(body);
    TrimNothing(s);
    hide Words, Unsplit, PrintField, Trim, IsZoneSuffix;
    if zone.Some? {
      BeforeZoneFinds(body, zone.value, |s|);
    } else {
      BeforeZoneNone(s, |s|);
    }
    WordsOfPrinted(words);
  }
}
