/**
 * The component-token scanner of resolveComponent: the global regular
 * expression  (?<!\\)(\\\\)*{{[a-zA-Z]*}}  applied to a page, and the
 * component name derived from a match by deleting every backslash and brace.
 *
 * A match is described by three positions: the backslashes that precede the
 * token lie in [start, open), "{{" sits at open, the name lies in
 * [open + 2, end - 2) and "}}" ends at end.
 */
module Scanner {
  import opened Wrappers

  datatype Match = Match(start: nat, open: nat, end: nat)

  predicate IsLetter(c: char) {
    'a' <= c <= 'z' || 'A' <= c <= 'Z'
  }

  predicate AllLetters(name: string) {
    forall i :: 0 <= i < |name| ==> IsLetter(name[i])
  }

  /** s[b..e] is "{{" followed by letters only (possibly none) and "}}". */
  predicate Body(s: string, b: nat, e: nat) {
    && b + 4 <= e <= |s|
    && s[b] == '{' && s[b + 1] == '{'
    && s[e - 2] == '}' && s[e - 1] == '}'
    && forall i :: b + 2 <= i < e - 2 ==> IsLetter(s[i])
  }

  /**
   * Declarative reading of the pattern: m covers a token body preceded by an
   * even run of backslashes that is maximal, i.e. the character before the
   * run (if any) is not a backslash.
   */
  predicate IsToken(s: string, m: Match) {
    && m.start <= m.open
    && Body(s, m.open, m.end)
    && (forall i :: m.start <= i < m.open ==> s[i] == '\\')
    && (m.start == 0 || s[m.start - 1] != '\\')
    && (m.open - m.start) % 2 == 0
  }

  /** Number of consecutive backslashes starting at p. */
  function RunFrom(s: string, p: nat): (n: nat)
    requires p <= |s|
    ensures p + n <= |s|
    ensures forall i :: p <= i < p + n ==> s[i] == '\\'
    ensures p + n == |s| || s[p + n] != '\\'
    decreases |s| - p
  {
    if p < |s| && s[p] == '\\' then 1 + RunFrom(s, p + 1) else 0
  }

  /** Number of consecutive backslashes ending just before b. */
  function RunBefore(s: string, b: nat): (n: nat)
    requires b <= |s|
    ensures n <= b
    ensures forall i :: b - n <= i < b ==> s[i] == '\\'
    ensures n == b || s[b - n - 1] != '\\'
  {
    if b > 0 && s[b - 1] == '\\' then 1 + RunBefore(s, b - 1) else 0
  }

  /** Number of consecutive ASCII letters starting at p. */
  function LetterRun(s: string, p: nat): (n: nat)
    requires p <= |s|
    ensures p + n <= |s|
    ensures forall i :: p <= i < p + n ==> IsLetter(s[i])
    ensures p + n == |s| || !IsLetter(s[p + n])
    decreases |s| - p
  {
    if p < |s| && IsLetter(s[p]) then 1 + LetterRun(s, p + 1) else 0
  }

  /**
   * The attempt of the regular expression at position p: the negative
   * lookbehind, then as many backslash pairs as there are (backtracking to
   * fewer pairs cannot help, since it leaves a backslash where "{{" must be),
   * then "{{", the greedy letter run and "}}".
   */
  function TokenAt(s: string, p: nat): (r: Option<Match>)
    requires p <= |s|
    ensures r.Some? ==> r.value.start == p && IsToken(s, r.value)
  {
    if p > 0 && s[p - 1] == '\\' then None
    else
      var k := RunFrom(s, p);
      var b := p + k;
      if k % 2 != 0 || b + 2 > |s| || s[b] != '{' || s[b + 1] != '{' then None
      else
        var e := b + 2 + LetterRun(s, b + 2);
        if e + 2 > |s| || s[e] != '}' || s[e + 1] != '}' then None
        else Some(Match(p, b, e + 2))
  }

  /** Every token is found by the attempt at its own start position. */
  lemma TokenAtComplete(s: string, m: Match)
    requires IsToken(s, m)
    ensures TokenAt(s, m.start) == Some(m)
  {
  }

  /** No token starts strictly inside another one. */
  lemma NoTokenInside(s: string, m: Match, n: Match)
    requires IsToken(s, m) && IsToken(s, n)
    requires m.start < n.start
    ensures m.end <= n.start
  {
  }

  /** The global scan from position `from`, resuming after each match. */
  function Scan(s: string, from: nat): (ms: seq<Match>)
    requires from <= |s|
    ensures forall i :: 0 <= i < |ms| ==> from <= ms[i].start < ms[i].end <= |s|
    decreases |s| - from
  {
    if from == |s| then []
    else
      match TokenAt(s, from)
      case Some(m) => [m] + Scan(s, m.end)
      case None => Scan(s, from + 1)
  }

  /** The scan reports its matches left to right, without overlap. */
  lemma {:induction false} ScanOrdered(s: string, from: nat)
    requires from <= |s|
    ensures forall i, j :: 0 <= i < j < |Scan(s, from)| ==> Scan(s, from)[i].end <= Scan(s, from)[j].start
    decreases |s| - from
  {
    if from < |s| {
      match TokenAt(s, from)
      case Some(m0) =>
        ScanOrdered(s, m0.end);
      case None =>
        ScanOrdered(s, from + 1);
    }
  }

  /** Everything the scan reports is a token. */
  lemma {:induction false} ScanSound(s: string, from: nat, m: Match)
    requires from <= |s|
    requires m in Scan(s, from)
    ensures IsToken(s, m)
    decreases |s| - from
  {
    if from < |s| {
      match TokenAt(s, from)
      case Some(m0) =>
        if m != m0 {
          ScanSound(s, m0.end, m);
        }
      case None =>
        ScanSound(s, from + 1, m);
    }
  }

  /** The scan misses no token that starts at or after `from`. */
  lemma {:induction false} ScanComplete(s: string, from: nat, m: Match)
    requires from <= |s|
    requires IsToken(s, m) && from <= m.start
    ensures m in Scan(s, from)
    decreases |s| - from
  {
    if from < |s| {
      match TokenAt(s, from)
      case Some(m0) =>
        if m.start == from {
          TokenAtComplete(s, m);
        } else {
          NoTokenInside(s, m0, m);
          ScanComplete(s, m0.end, m);
        }
      case None =>
        TokenAtComplete(s, m);
        ScanComplete(s, from + 1, m);
    }
  }

  /** The list that string.match returns, in the order of the scan. */
  function Tokens(s: string): (ms: seq<Match>)
    ensures forall i :: 0 <= i < |ms| ==> ms[i].start < ms[i].end <= |s|
  {
    Scan(s, 0)
  }

  /** The matches are exactly the tokens of s, left to right and disjoint. */
  lemma TokensExact(s: string)
    ensures forall m :: m in Tokens(s) <==> IsToken(s, m)
    ensures forall i, j :: 0 <= i < j < |Tokens(s)| ==> Tokens(s)[i].end <= Tokens(s)[j].start
  {
    ScanOrdered(s, 0);
    forall m | IsToken(s, m) ensures m in Tokens(s) {
      ScanComplete(s, 0, m);
    }
    forall m | m in Tokens(s) ensures IsToken(s, m) {
      ScanSound(s, 0, m);
    }
  }

  /** The first match of the scan is the leftmost token of s. */
  lemma FirstTokenLeftmost(s: string, m: Match)
    requires IsToken(s, m)
    ensures Tokens(s) != [] && Tokens(s)[0].start <= m.start
  {
    var ms := Tokens(s);
    TokensExact(s);
    var i :| 0 <= i < |ms| && ms[i] == m;
    if i > 0 {
      assert ms[0].end <= ms[i].start;
    }
  }

  /** A token preceded by an odd run of backslashes is never matched. */
  lemma OddRunEscapes(s: string, b: nat, e: nat)
    requires Body(s, b, e)
    requires RunBefore(s, b) % 2 == 1
    ensures forall m :: m in Tokens(s) ==> m.open != b
  {
    TokensExact(s);
  }

  /**
   * A token preceded by an even run of backslashes (possibly none) is matched,
   * and the match begins with that whole run.
   */
  lemma EvenRunMatched(s: string, b: nat, e: nat)
    requires Body(s, b, e)
    requires RunBefore(s, b) % 2 == 0
    ensures Match(b - RunBefore(s, b), b, e) in Tokens(s)
  {
    var n := RunBefore(s, b);
    assert IsToken(s, Match(b - n, b, e));
    TokensExact(s);
  }

  /** A text whose every "{{" is escaped by an odd run of backslashes has no match. */
  lemma AllEscapedNoMatch(s: string)
    requires forall b :: 0 <= b < |s| - 1 && s[b] == '{' && s[b + 1] == '{' ==> RunBefore(s, b) % 2 == 1
    ensures Tokens(s) == []
  {
    TokensExact(s);
    if Tokens(s) != [] {
      var m := Tokens(s)[0];
      assert IsToken(s, m);
      OddRunEscapes(s, m.open, m.end);
    }
  }

  /** match.replace(/[\\{}]/g, ""): the match with every backslash and brace removed. */
  function StripName(t: string): (r: string)
    ensures |r| <= |t|
    ensures forall i :: 0 <= i < |r| ==> r[i] != '\\' && r[i] != '{' && r[i] != '}'
  {
    if t == [] then []
    else if t[0] == '\\' || t[0] == '{' || t[0] == '}' then StripName(t[1..])
    else [t[0]] + StripName(t[1..])
  }

  lemma {:induction false} StripConcat(a: string, b: string)
    ensures StripName(a + b) == StripName(a) + StripName(b)
  {
    if a == [] {
      assert a + b == b;
    } else {
      assert (a + b)[0] == a[0];
      assert (a + b)[1..] == a[1..] + b;
      StripConcat(a[1..], b);
    }
  }

  lemma {:induction false} StripLetters(t: string)
    requires AllLetters(t)
    ensures StripName(t) == t
  {
    if t != [] {
      StripLetters(t[1..]);
    }
  }

  lemma {:induction false} StripBackslashes(t: string)
    requires forall i :: 0 <= i < |t| ==> t[i] == '\\'
    ensures StripName(t) == []
  {
    if t != [] {
      StripBackslashes(t[1..]);
    }
  }

  /** The component name requested for a match: its letters, nothing else. */
  function NameOf(s: string, m: Match): (name: string)
    requires m.start <= m.end <= |s|
    ensures |name| <= m.end - m.start
    ensures forall i :: 0 <= i < |name| ==> name[i] != '\\' && name[i] != '{' && name[i] != '}'
  {
    StripName(s[m.start..m.end])
  }

  /**
   * The name derived from a token is the text between its braces, so it is
   * made of letters only and may be empty.
   */
  lemma NameOfToken(s: string, m: Match)
    requires IsToken(s, m)
    ensures NameOf(s, m) == s[m.open + 2..m.end - 2]
    ensures AllLetters(NameOf(s, m))
  {
    var run, name := s[m.start..m.open], s[m.open + 2..m.end - 2];
    assert s[m.start..m.end] == run + "{{" + name + "}}";
    StripConcat(run + "{{" + name, "}}");
    StripConcat(run + "{{", name);
    StripConcat(run, "{{");
    StripBackslashes(run);
    StripLetters(name);
    assert StripName("{{") == [] && StripName("}}") == [];
  }
}
