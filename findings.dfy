/**
 * The substitution of resolveComponent as written: string.replace(match, data)
 * with a string pattern replaces the first literal occurrence of the match
 * text, which can be an escaped copy of the token that comes earlier in the
 * page than the matched one.
 */
module Findings {
  import opened Wrappers
  import opened Scanner
  import opened Resolver

  const OneComponent: Files := map["./components/a.html" := "X"]

  /** The matches of  \{{a}}{{a}} : the escaped copy is skipped. */
  lemma PageTokens(s: string)
    requires s == "\\{{a}}{{a}}"
    ensures Tokens(s) == [Match(6, 6, 11)]
  {
    assert LetterRun(s, 9) == 0;
    assert LetterRun(s, 8) == 1;
    assert RunFrom(s, 6) == 0;
    assert TokenAt(s, 6) == Some(Match(6, 6, 11));
    assert Scan(s, 11) == [];
    assert Scan(s, 6) == [Match(6, 6, 11)];
    assert TokenAt(s, 5) == None;
    assert Scan(s, 5) == [Match(6, 6, 11)];
    assert TokenAt(s, 4) == None;
    assert Scan(s, 4) == [Match(6, 6, 11)];
    assert TokenAt(s, 3) == None;
    assert Scan(s, 3) == [Match(6, 6, 11)];
    assert TokenAt(s, 2) == None;
    assert Scan(s, 2) == [Match(6, 6, 11)];
    assert TokenAt(s, 1) == None;
    assert Scan(s, 1) == [Match(6, 6, 11)];
    assert RunFrom(s, 1) == 0;
    assert RunFrom(s, 0) == 1;
    assert TokenAt(s, 0) == None;
  }

  /** The matches of  \X{{a}} . */
  lemma HalfDoneTokens(s: string)
    requires s == "\\X{{a}}"
    ensures Tokens(s) == [Match(2, 2, 7)]
  {
    assert LetterRun(s, 5) == 0;
    assert LetterRun(s, 4) == 1;
    assert RunFrom(s, 2) == 0;
    assert TokenAt(s, 2) == Some(Match(2, 2, 7));
    assert Scan(s, 7) == [];
    assert Scan(s, 2) == [Match(2, 2, 7)];
    assert RunFrom(s, 1) == 0;
    assert TokenAt(s, 1) == None;
    assert Scan(s, 1) == [Match(2, 2, 7)];
    assert RunFrom(s, 0) == 1;
    assert TokenAt(s, 0) == None;
  }

  /** The one component the page uses is ./components/a.html. */
  lemma PagePath(s: string, m: Match)
    requires IsToken(s, m) && s[m.open + 2..m.end - 2] == "a"
    ensures PathOf(s, m) == "./components/a.html"
    ensures FirstMissing(OneComponent, s, [m]) == None
  {
    NameOfToken(s, m);
  }

  /** As written, the first step replaces the escaped copy at position 1. */
  lemma AsWrittenFirstStep(s: string)
    requires s == "\\{{a}}{{a}}"
    ensures StepAsWritten(OneComponent, s) == Rewritten("\\X{{a}}")
  {
    var m := Match(6, 6, 11);
    PageTokens(s);
    TokensExact(s);
    assert m in Tokens(s);
    assert s[8..9] == "a";
    PagePath(s, m);
    var t := s[6..11];
    assert t == "{{a}}";
    assert !OccursAt(s, t, 0);
    assert OccursAt(s, t, 1);
    assert IndexOf(s, t, 0) == Some(1);
  }

  /** As written, the second step replaces the token that was matched first. */
  lemma AsWrittenSecondStep(s: string)
    requires s == "\\X{{a}}"
    ensures StepAsWritten(OneComponent, s) == Rewritten("\\XX")
  {
    var m := Match(2, 2, 7);
    HalfDoneTokens(s);
    TokensExact(s);
    assert m in Tokens(s);
    assert s[4..5] == "a";
    PagePath(s, m);
    var t := s[2..7];
    assert t == "{{a}}";
    assert !OccursAt(s, t, 0) && !OccursAt(s, t, 1);
    assert OccursAt(s, t, 2);
    assert IndexOf(s, t, 0) == Some(2);
  }

  /** In place, the only step replaces the matched token at position 6. */
  lemma InPlaceStep(s: string)
    requires s == "\\{{a}}{{a}}"
    ensures StepOf(OneComponent, s) == Rewritten("\\{{a}}X")
  {
    var m := Match(6, 6, 11);
    PageTokens(s);
    TokensExact(s);
    assert m in Tokens(s);
    assert s[8..9] == "a";
    PagePath(s, m);
  }

  /** Neither  \XX  nor  \{{a}}X  has a token left. */
  lemma Finished(s: string)
    requires s == "\\XX" || s == "\\{{a}}X"
    ensures StepOf(OneComponent, s) == Done && StepAsWritten(OneComponent, s) == Done
  {
    if s == "\\{{a}}X" {
      assert RunBefore(s, 1) == 1;
    }
    AllEscapedNoMatch(s);
  }

  /**
   * As written, the page  \{{a}}{{a}}  resolves to  \XX : the escaped token is
   * replaced too.  In place, it resolves to  \{{a}}X .
   */
  lemma AsWrittenRewritesEscapedToken(s: string)
    requires s == "\\{{a}}{{a}}"
    ensures ResolvedAsWritten(OneComponent, s, 2) == Ok("\\XX")
    ensures Resolved(OneComponent, s, 2) == Ok("\\{{a}}X")
  {
    var w1, w2, r := "\\X{{a}}", "\\XX", "\\{{a}}X";
    AsWrittenFirstStep(s);
    AsWrittenSecondStep(w1);
    Finished(w2);
    InPlaceStep(s);
    Finished(r);
  }
}
