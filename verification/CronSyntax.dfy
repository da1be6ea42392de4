/** The cron expressions of src/lib/cron-occurrences.ts: parsing, and what a crontab in its usual notation is read as. */
module CronSyntax {
  import opened Wrappers
  import opened Text

  /** Number(): the finite numbers, and None for NaN and the infinities. */
  type Number = string -> Option<real>

  // ---------------------------------------------------------------------------
  // The words of an expression

  predicate IsLineTerminator(c: char) {
    c in {'\n', '\r', '\U{2028}', '\U{2029}'}
  }

  /** A blank and a parenthesized time zone, up to the end. */
  predicate IsZoneSuffix(s: string) {
    var zone := TrimStart(s);
    && 3 <= |zone| < |s|
    && zone[0] == '(' && zone[|zone| - 1] == ')'
    && forall i :: 0 < i < |zone| - 1 ==> zone[i] != ')'
  }

  /** The longest prefix of at most `n` characters that a zone suffix follows; empty if there is none. */
  function BeforeZone(s: string, n: nat): string
    requires n <= |s|
  {
    if (forall i :: 0 <= i < n ==> !IsLineTerminator(s[i])) && IsZoneSuffix(s[n..]) then s[..n]
    else if n == 0 then ""
    else BeforeZone(s, n - 1)
  }

  function NormalizeCronExpression(raw: string): string {
    var trimmed := Trim(raw);
    var body := BeforeZone(trimmed, |trimmed|);
    Trim(if body != "" then body else trimmed)
  }

  predicate AllBlank(s: string) {
    forall i :: 0 <= i < |s| ==> IsSpace(s[i])
  }

  /** Blanks, and a zone in parentheses without a closing parenthesis in it. */
  predicate IsZoneText(tail: string, blanks: string, zone: string) {
    && tail == blanks + "(" + zone + ")" && blanks != "" && AllBlank(blanks)
    && zone != "" && forall i :: 0 <= i < |zone| ==> zone[i] != ')'
  }

  /** The text is a body in one line, followed by blanks and a zone. */
  predicate HasZone(s: string, body: string, blanks: string, zone: string) {
    && body != "" && body <= s && (forall i :: 0 <= i < |body| ==> !IsLineTerminator(body[i]))
    && IsZoneText(s[|body|..], blanks, zone)
  }

  lemma {:induction false} TrimStartDropsBlanks(s: string)
    ensures var t := TrimStart(s); |t| <= |s| && s[|s| - |t|..] == t && AllBlank(s[..|s| - |t|])
  {
    if s != "" && IsSpace(s[0]) {
      TrimStartDropsBlanks(s[1..]);
      var k := |s| - |TrimStart(s)|;
      assert s[..k] == [s[0]] + s[1..][..k - 1];
    }
  }

  lemma {:induction false} TrimStartStops(blanks: string, rest: string)
    requires AllBlank(blanks) && rest != "" && !IsSpace(rest[0])
    ensures TrimStart(blanks + rest) == rest
  {
    if blanks == "" {
      assert blanks + rest == rest;
    } else {
      assert (blanks + rest)[1..] == blanks[1..] + rest;
      TrimStartStops(blanks[1..], rest);
    }
  }

  lemma SuffixHasParts(tail: string) returns (blanks: string, zone: string)
    requires IsZoneSuffix(tail)
    ensures IsZoneText(tail, blanks, zone)
  {
    hide IsSpace;
    TrimStartDropsBlanks(tail);
    var t := TrimStart(tail);
    hide TrimStart;
    blanks, zone := tail[..|tail| - |t|], t[1..|t| - 1];
    assert t == "(" + zone + ")";
    assert tail == blanks + t;
    assert blanks + ("(" + zone + ")") == blanks + "(" + zone + ")";
  }

  lemma PartsAreSuffix(tail: string, blanks: string, zone: string)
    requires IsZoneText(tail, blanks, zone)
    ensures IsZoneSuffix(tail)
  {
    var rest := "(" + zone + ")";
    assert rest[0] == '(' && !IsSpace('(');
    hide IsSpace;
    assert tail == blanks + rest;
    TrimStartStops(blanks, rest);
    hide TrimStart;
    assert forall i :: 0 < i < |rest| - 1 ==> rest[i] == zone[i - 1];
  }

  lemma ZoneFollows(s: string, k: nat)
    requires 0 < k <= |s|
    ensures (forall i :: 0 <= i < k ==> !IsLineTerminator(s[i])) && IsZoneSuffix(s[k..])
            <==> exists blanks, zone :: HasZone(s, s[..k], blanks, zone)
  {
    hide IsLineTerminator, IsZoneSuffix, IsZoneText;
    var body, tail := s[..k], s[k..];
    if IsZoneSuffix(tail) {
      var blanks, zone := SuffixHasParts(tail);
      assert (forall i :: 0 <= i < k ==> !IsLineTerminator(s[i])) ==> HasZone(s, body, blanks, zone);
    }
    if blanks, zone :| HasZone(s, body, blanks, zone) {
      PartsAreSuffix(tail, blanks, zone);
      assert forall i :: 0 <= i < k ==> s[i] == body[i];
    }
  }

  lemma {:induction false} LongestBody(s: string, n: nat)
    requires n <= |s|
    ensures var b := BeforeZone(s, n);
      |b| <= n && b == s[..|b|] && (b != "" ==> exists blanks, zone :: HasZone(s, b, blanks, zone))
    ensures forall k :: 0 < k <= n && k > |BeforeZone(s, n)| ==> forall blanks, zone :: !HasZone(s, s[..k], blanks, zone)
  {
    if n > 0 {
      ZoneFollows(s, n);
      LongestBody(s, n - 1);
    }
  }

  /**
    The expression without the blanks around it; if a zone follows a body in it, the longest such body, without the
    blanks around that.
    */
  lemma ZoneIsDropped(raw: string)
    ensures var s, n := Trim(raw), NormalizeCronExpression(raw);
      || (n == Trim(s) && forall body, blanks, zone :: !HasZone(s, body, blanks, zone))
      || exists body, blanks, zone :: HasZone(s, body, blanks, zone) && n == Trim(body)
           && forall other, blanks', zone' :: HasZone(s, other, blanks', zone') ==> |other| <= |body|
  {
    var s := Trim(raw);
    var b := BeforeZone(s, |s|);
    LongestBody(s, |s|);
    forall other, blanks, zone | HasZone(s, other, blanks, zone)
      ensures |other| <= |b|
    {
      assert other == s[..|other|];
    }
  }

  function WordLength(s: string): (n: nat)
    ensures n <= |s|
    ensures s != "" && !IsSpace(s[0]) ==> n > 0
  {
    if s == "" || IsSpace(s[0]) then 0 else 1 + WordLength(s[1..])
  }

  lemma {:induction false} TrimStartShorter(s: string)
    ensures |TrimStart(s)| <= |s|
    ensures TrimStart(s) != "" ==> !IsSpace(TrimStart(s)[0])
  {
    if s != "" && IsSpace(s[0]) {
      TrimStartShorter(s[1..]);
    }
  }

  /** The maximal runs of characters that are not blank. */
  function Words(s: string): seq<string>
    decreases |s|
  {
    var t := TrimStart(s);
    TrimStartShorter(s);
    if t == "" then [] else [t[..WordLength(t)]] + Words(t[WordLength(t)..])
  }

  function WordsOf(schedule: string): seq<string> {
    Words(NormalizeCronExpression(schedule))
  }

  // ---------------------------------------------------------------------------
  // Fields

  function At(start: real, step: real, k: nat): real {
    start + k as real * step
  }

  ghost predicate InSteps(start: real, end: real, step: real, x: real) {
    x <= end && exists k: nat :: x == At(start, step, k)
  }

  function Clamp(x: real, min: int, max: int): real {
    var most := if x < max as real then x else max as real;
    if most > min as real then most else min as real
  }

  /** What a part between commas contributes to the values of a field. */
  ghost predicate PartHas(number: Number, part: string, min: int, max: int, x: real) {
    var section := Trim(part);
    var pieces := Split(section, '/');
    var step := if |pieces| > 1 && pieces[1] != "" then number(pieces[1]) else Some(1.0);
    && section != "" && step.Some? && step.value > 0.0
    && if pieces[0] == "*" then InSteps(min as real, max as real, step.value, x)
       else if '-' in pieces[0] then
         SplitFinds(pieces[0], '-');
      var ends := Split(pieces[0], '-');
         var from, to := number(ends[0]), number(ends[1]);
         from.Some? && to.Some? && InSteps(Clamp(from.value, min, max), Clamp(to.value, min, max), step.value, x)
       else
         number(pieces[0]) == Some(x) && min as real <= x <= max as real
  }

  ghost predicate AnyPartHas(number: Number, parts: seq<string>, min: int, max: int, x: real) {
    exists i :: 0 <= i < |parts| && PartHas(number, parts[i], min, max, x)
  }

  predicate IsAny(token: string) {
    Trim(token) == "*"
  }

  ghost predicate TokenHas(number: Number, token: string, min: int, max: int, x: real) {
    AnyPartHas(number, Split(Trim(token), ','), min, max, x)
  }

  datatype Field = Field(any: bool, values: set<real>) {
    predicate Matches(v: int) {
      v as real in values
    }
  }

  ghost predicate IsParsed(field: Field, number: Number, token: string, min: int, max: int) {
    (field.any <==> IsAny(token)) && forall x :: x in field.values <==> TokenHas(number, token, min, max, x)
  }

  lemma AtIncreases(start: real, step: real, j: nat, k: nat)
    requires step > 0.0 && j <= k
    ensures At(start, step, j) <= At(start, step, k)
  {
    assert (k - j) as real * step >= 0.0;
  }

  lemma NextStep(end: real, i: real, step: real)
    requires step > 0.0
    ensures (end - (i + step)) / step == (end - i) / step - 1.0
  {
    var q := (end - i) / step;
    assert q * step == end - i;
    assert (q - 1.0) * step == end - (i + step);
    var q' := (end - (i + step)) / step;
    assert q' * step == end - (i + step);
    var gap := q' - (q - 1.0);
    assert gap * step == 0.0;
    assert gap > 0.0 ==> gap * step > 0.0;
    assert gap < 0.0 ==> gap * step < 0.0;
  }

  method AddSteps(before: set<real>, start: real, end: real, step: real) returns (values: set<real>)
    requires step > 0.0
    ensures forall x :: x in values <==> x in before || InSteps(start, end, step, x)
  {
    values := before;
    var i := start;
    ghost var k: nat := 0;
    while i <= end
      invariant i == At(start, step, k)
      invariant forall x :: x in values <==> x in before || (x <= end && exists j: nat :: j < k && x == At(start, step, j))
      decreases (end - i) / step
    {
      values := values + {i};
      NextStep(end, i, step);
      i := i + step;
      k := k + 1;
    }
    forall j: nat | At(start, step, j) <= end
      ensures j < k
    {
      if j >= k {
        AtIncreases(start, step, k, j);
      }
    }
  }

  method AddPart(number: Number, before: set<real>, part: string, min: int, max: int) returns (values: set<real>)
    ensures forall x :: x in values <==> x in before || PartHas(number, part, min, max, x)
  {
    values := before;
    var section := Trim(part);
    if section == "" {
      return;
    }
    var pieces := Split(section, '/');
    var step := if |pieces| > 1 && pieces[1] != "" then number(pieces[1]) else Some(1.0);
    if step.None? || step.value <= 0.0 {
      return;
    }
    if pieces[0] == "*" {
      values := AddSteps(values, min as real, max as real, step.value);
      return;
    }
    if '-' in pieces[0] {
      SplitFinds(pieces[0], '-');
      var ends := Split(pieces[0], '-');
      var from, to := number(ends[0]), number(ends[1]);
      if from.None? || to.None? {
        return;
      }
      values := AddSteps(values, Clamp(from.value, min, max), Clamp(to.value, min, max), step.value);
      return;
    }
    var single := number(pieces[0]);
    if single.Some? && min as real <= single.value <= max as real {
      values := values + {single.value};
    }
  }

  method ParseToken(number: Number, token: string, min: int, max: int) returns (field: Field)
    ensures IsParsed(field, number, token, min, max)
  {
    var trimmed := Trim(token);
    if trimmed == "*" {
      var all := AddSteps({}, min as real, max as real, 1.0);
      AnyToken(number, token, min, max);
      return Field(true, all);
    }
    var parts := Split(trimmed, ',');
    var values := {};
    for i := 0 to |parts|
      invariant forall x :: x in values <==> AnyPartHas(number, parts[..i], min, max, x)
    {
      values := AddPart(number, values, parts[i], min, max);
      forall x
        ensures AnyPartHas(number, parts[..i + 1], min, max, x) <==> AnyPartHas(number, parts[..i], min, max, x) || PartHas(number, parts[i], min, max, x)
      {
        LastPart(number, parts, i, min, max, x);
      }
    }
    assert parts[..|parts|] == parts;
    field := Field(false, values);
  }

  lemma LastPart(number: Number, parts: seq<string>, i: nat, min: int, max: int, x: real)
    requires i < |parts|
    ensures AnyPartHas(number, parts[..i + 1], min, max, x) <==> AnyPartHas(number, parts[..i], min, max, x) || PartHas(number, parts[i], min, max, x)
  {
    assert parts[..i + 1][i] == parts[i];
    assert forall j :: 0 <= j < i ==> parts[..i + 1][j] == parts[..i][j];
  }

  /** An asterisk alone has the values that it has as a part of a list. */
  lemma AnyToken(number: Number, token: string, min: int, max: int)
    requires IsAny(token)
    ensures forall x :: TokenHas(number, token, min, max, x) <==> InSteps(min as real, max as real, 1.0, x)
  {
    SplitWithout("*", ',');
    SplitWithout("*", '/');
    assert Trim("*") == "*";
    forall x
      ensures TokenHas(number, token, min, max, x) <==> InSteps(min as real, max as real, 1.0, x)
    {
      assert PartHas(number, "*", min, max, x) <==> InSteps(min as real, max as real, 1.0, x);
      assert Split(Trim(token), ',')[0] == "*";
    }
  }
}
