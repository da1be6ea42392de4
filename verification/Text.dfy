/** JavaScript string operations used by several of the modelled files. */
module Text {

  /** The class \s of JavaScript regular expressions; String.prototype.trim strips the same characters. */
  predicate IsSpace(c: char) {
    || c in {'\t', '\n', '\U{000B}', '\U{000C}', '\r', ' '}
    || c in {'\U{00A0}', '\U{1680}', '\U{2028}', '\U{2029}', '\U{202F}', '\U{205F}', '\U{3000}', '\U{FEFF}'}
    || '\U{2000}' <= c <= '\U{200A}'
  }

  function TrimStart(s: string): string {
    if s != "" && IsSpace(s[0]) then TrimStart(s[1..]) else s
  }

  function TrimEnd(s: string): string {
    if s != "" && IsSpace(s[|s| - 1]) then TrimEnd(s[..|s| - 1]) else s
  }

  /** String.prototype.trim. */
  function Trim(s: string): string {
    TrimEnd(TrimStart(s))
  }

  /** String.prototype.split with a one-character separator. */
  function Split(s: string, separator: char): (parts: seq<string>)
    ensures parts != []
    ensures forall p <- parts :: separator !in p
  {
    if s == "" then [""]
    else
      var rest := Split(s[1..], separator);
      if s[0] == separator then [""] + rest else [[s[0]] + rest[0]] + rest[1..]
  }

  /** Array.prototype.join. */
  function Unsplit(parts: seq<string>, separator: string): string {
    if parts == [] then ""
    else if |parts| == 1 then parts[0]
    else parts[0] + separator + Unsplit(parts[1..], separator)
  }

  lemma SplitCons(c: char, s: string, separator: char)
    ensures Split([c] + s, separator) ==
      if c == separator then [""] + Split(s, separator) else [[c] + Split(s, separator)[0]] + Split(s, separator)[1..]
  {
    assert ([c] + s)[1..] == s;
  }

  lemma ConcatCons(c: char, p: seq<string>, q: seq<string>)
    requires p != []
    ensures [""] + (p + q) == ([""] + p) + q
    ensures [[c] + (p + q)[0]] + (p + q)[1..] == ([[c] + p[0]] + p[1..]) + q
  {
  }

  lemma {:induction false} SplitConcat(a: string, b: string, separator: char)
    ensures Split(a + [separator] + b, separator) == Split(a, separator) + Split(b, separator)
  {
    if a == "" {
      assert Split(a, separator) == [""];
      hide Split;
      assert a + [separator] + b == [separator] + b;
      SplitCons(separator, b, separator);
    } else {
      SplitConcat(a[1..], b, separator);
      hide Split;
      assert a == [a[0]] + a[1..];
      assert a + [separator] + b == [a[0]] + (a[1..] + [separator] + b);
      SplitCons(a[0], a[1..], separator);
      SplitCons(a[0], a[1..] + [separator] + b, separator);
      ConcatCons(a[0], Split(a[1..], separator), Split(b, separator));
    }
  }

  lemma {:induction false} SplitFinds(s: string, separator: char)
    requires separator in s
    ensures |Split(s, separator)| > 1
  {
    if s[0] != separator {
      SplitFinds(s[1..], separator);
    }
  }

  /** The first part ends at the first separator; the others are the parts of what follows. */
  lemma {:induction false} SplitHead(s: string, separator: char) returns (rest: string)
    requires separator in s
    ensures s == Split(s, separator)[0] + [separator] + rest
    ensures Split(s, separator) == [Split(s, separator)[0]] + Split(rest, separator)
  {
    if s[0] == separator {
      rest := s[1..];
    } else {
      rest := SplitHead(s[1..], separator);
      assert s == [s[0]] + s[1..];
    }
  }

  lemma {:induction false} SplitWithout(s: string, separator: char)
    requires separator !in s
    ensures Split(s, separator) == [s]
  {
    if s != "" {
      SplitWithout(s[1..], separator);
      assert [s[0]] + s[1..] == s;
    }
  }
}
