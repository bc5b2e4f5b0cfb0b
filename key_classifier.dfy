/** The classification of a tag key into `lower`, `lower_colon`, `problemchars`
    and `other`, with each regular expression of the script written out as a
    predicate over the characters of the key. */
module KeyClassifier {

  datatype KeyClass = Lower | LowerColon | ProblemChars | Other

  /** One character of the class `[a-z]|_`. */
  predicate IsLowerChar(c: char) {
    'a' <= c <= 'z' || c == '_'
  }

  /** `([a-z]|_)*` matches the whole of `s`; the empty string matches. */
  predicate IsLowerRun(s: string) {
    forall i :: 0 <= i < |s| ==> IsLowerChar(s[i])
  }

  /** The character class of `problemchars`: `= + / & < > ; ' " ? % # $ @ , .`,
      space, tab, carriage return and line feed. */
  predicate IsProblemChar(c: char) {
    c in {'=', '+', '/', '&', '<', '>', ';', '\'', '"', '?', '%', '#', '$', '@', ',', '.', ' ', '\t', '\r', '\n'}
  }

  /** `problemchars.search(s)` finds a match. */
  predicate HasProblemChar(s: string) {
    exists i :: 0 <= i < |s| && IsProblemChar(s[i])
  }

  /** `colon.search(s)` finds a match. */
  predicate HasColon(s: string) {
    ':' in s
  }

  /** The whole of `s` is a lower run, one colon and a lower run. */
  predicate IsLowerColonKey(s: string) {
    exists i :: 0 <= i < |s| && s[i] == ':' && IsLowerRun(s[..i]) && IsLowerRun(s[i + 1..])
  }

  /** Python's `$` also matches just before a line feed that ends the string,
      so an anchored pattern `^p$` accepts `s` when `p` matches all of `s` or
      all of `s` but a final line feed. */
  predicate EndsWithLineFeed(s: string) {
    |s| > 0 && s[|s| - 1] == '\n'
  }

  function DropLast(s: string): string
    requires |s| > 0
  {
    s[..|s| - 1]
  }

  /** `re.search(lower, s)` as the script writes it. */
  predicate SearchLower(s: string) {
    IsLowerRun(s) || (EndsWithLineFeed(s) && IsLowerRun(DropLast(s)))
  }

  /** `re.search(lower_colon, s)` as the script writes it. */
  predicate SearchLowerColon(s: string) {
    IsLowerColonKey(s) || (EndsWithLineFeed(s) && IsLowerColonKey(DropLast(s)))
  }

  /** The number of colons in `s`. */
  function ColonCount(s: string): nat {
    if s == [] then 0 else ColonCount(s[..|s| - 1]) + (if s[|s| - 1] == ':' then 1 else 0)
  }

  /** The first-match chain of `types_of_text` exactly as written, with
      Python's `$`. It agrees with `Classify` on every key that does not end in
      a line feed. */
  function ClassifyAsWritten(key: string): (c: KeyClass)
    ensures !EndsWithLineFeed(key) ==> c == Classify(key)
  {
    if SearchLower(key) then Lower
    else if SearchLowerColon(key) then LowerColon
    else if HasProblemChar(key) then ProblemChars
    else Other
  }

  /** The first-match chain with the patterns anchored at the very end of the
      key, as the comments of the script describe them. Each bucket is
      characterised on its own: the precedence never hides a key that matches
      a later pattern, because keys of the first two buckets contain no
      problem character and the first two patterns exclude each other. */
  function Classify(key: string): (c: KeyClass)
    ensures c == Lower <==> IsLowerRun(key)
    ensures c == LowerColon <==> IsLowerColonKey(key)
    ensures c == ProblemChars <==> HasProblemChar(key)
    ensures c == Other <==> !IsLowerRun(key) && !IsLowerColonKey(key) && !HasProblemChar(key)
  {
    if IsLowerRun(key) then
      LowerRunIsClean(key);
      Lower
    else if IsLowerColonKey(key) then
      LowerColonKeyIsClean(key);
      LowerColon
    else if HasProblemChar(key) then ProblemChars
    else Other
  }

  lemma LowerRunIsClean(s: string)
    requires IsLowerRun(s)
    ensures !HasProblemChar(s) && !HasColon(s) && !IsLowerColonKey(s)
  {
    assert forall i :: 0 <= i < |s| ==> !IsProblemChar(s[i]) && s[i] != ':';
  }

  lemma LowerColonKeyIsClean(s: string)
    requires IsLowerColonKey(s)
    ensures !HasProblemChar(s) && !IsLowerRun(s)
  {
    var i :| 0 <= i < |s| && s[i] == ':' && IsLowerRun(s[..i]) && IsLowerRun(s[i + 1..]);
    forall j | 0 <= j < |s|
      ensures !IsProblemChar(s[j])
    {
      if j < i {
        assert s[j] == s[..i][j];
      } else if j > i {
        assert s[j] == s[i + 1..][j - i - 1];
      }
    }
  }

  /** Keys in the `lower` and `lower_colon` buckets never hold a problem
      character; a `lower` key holds no colon and a `lower_colon` key exactly one. */
  lemma {:induction false} CleanBuckets(key: string)
    ensures Classify(key) == Lower ==> !HasProblemChar(key) && ColonCount(key) == 0
    ensures Classify(key) == LowerColon ==> !HasProblemChar(key) && ColonCount(key) == 1
  {
    if IsLowerRun(key) {
      LowerRunIsClean(key);
      NoColonCountsZero(key);
    } else if IsLowerColonKey(key) {
      LowerColonKeyIsClean(key);
      LowerColonKeyHasOneColon(key);
    }
  }

  lemma LowerColonKeyHasOneColon(key: string)
    requires IsLowerColonKey(key)
    ensures ColonCount(key) == 1
  {
    var i :| 0 <= i < |key| && key[i] == ':' && IsLowerRun(key[..i]) && IsLowerRun(key[i + 1..]);
    LowerRunIsClean(key[..i]);
    LowerRunIsClean(key[i + 1..]);
    assert key == key[..i] + [':'] + key[i + 1..];
    OneColonBetween(key[..i], key[i + 1..]);
  }

  lemma OneColonBetween(l: string, r: string)
    requires !HasColon(l) && !HasColon(r)
    ensures ColonCount(l + [':'] + r) == 1
  {
    NoColonCountsZero(l);
    NoColonCountsZero(r);
    ColonCountAppend(l + [':'], r);
    ColonCountAppend(l, [':']);
    assert ColonCount([':']) == ColonCount([]) + 1;
  }

  lemma {:induction false} NoColonCountsZero(s: string)
    requires !HasColon(s)
    ensures ColonCount(s) == 0
  {
    if s != [] {
      assert !HasColon(s[..|s| - 1]) by {
        forall x | x in s[..|s| - 1] ensures x in s { }
      }
      NoColonCountsZero(s[..|s| - 1]);
    }
  }

  lemma {:induction false} ColonCountAppend(a: string, b: string)
    ensures ColonCount(a + b) == ColonCount(a) + ColonCount(b)
  {
    if b != [] {
      assert (a + b)[..|a + b| - 1] == a + b[..|b| - 1];
      ColonCountAppend(a, b[..|b| - 1]);
    } else {
      assert a + b == a;
    }
  }

  /** Python's `$` lets every `lower` key followed by a line feed through as
      `lower`, although the line feed is a problem character; the intended
      classification puts such a key among the problem keys. */
  lemma LineFeedSlipsThrough(s: string)
    requires IsLowerRun(s)
    ensures ClassifyAsWritten(s + "\n") == Lower
    ensures HasProblemChar(s + "\n")
    ensures Classify(s + "\n") == ProblemChars
  {
    var t := s + "\n";
    assert DropLast(t) == s;
    assert IsProblemChar(t[|s|]);
  }

  /** The same for `lower_colon`: a key of one colon between two lower runs,
      followed by a line feed, is counted as `lower_colon` as written and
      belongs among the problem keys as intended. */
  lemma ColonLineFeedSlipsThrough(s: string)
    requires IsLowerColonKey(s)
    ensures ClassifyAsWritten(s + "\n") == LowerColon
    ensures HasProblemChar(s + "\n")
    ensures Classify(s + "\n") == ProblemChars
  {
    var t := s + "\n";
    assert DropLast(t) == s;
    assert IsProblemChar(t[|s|]);
    LowerColonKeyIsClean(s);
    assert !IsLowerRun(t) by {
      assert !IsLowerChar(t[|s|]);
    }
  }
}
