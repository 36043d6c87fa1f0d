/**
 * resolveComponent: replaces every unescaped {{name}} token of a page by the
 * content of ./components/<name>.html, again and again, until the text has no
 * unescaped token left.
 *
 * The file system is a map from path to content; a path that is not a key
 * is a failed readFile.  The source recurses without bound (a component that
 * includes itself never finishes), so the model takes a fuel argument: the
 * largest number of substitutions it performs.
 */
module Resolver {
  import opened Wrappers
  import opened Scanner

  /** The files the server can read, by path. */
  type Files = map<string, string>

  datatype ResolveError = MissingFile(path: string) | OutOfFuel

  /** The file read for a component name; the name can be read back from it. */
  function ComponentPath(name: string): (p: string)
    ensures |p| == |name| + 18 && p[13..|p| - 5] == name
    ensures p[..13] == "./components/" && p[|p| - 5..] == ".html"
  {
    "./components/" + name + ".html"
  }

  /** Every match of ms lies inside s. */
  predicate Fits(s: string, ms: seq<Match>) {
    forall i :: 0 <= i < |ms| ==> ms[i].start <= ms[i].end <= |s|
  }

  /** The file read for match m. */
  function PathOf(s: string, m: Match): string
    requires m.start <= m.end <= |s|
  {
    ComponentPath(NameOf(s, m))
  }

  /**
   * The forEach over the matches: every component file is read, and the
   * first one (in match order) that cannot be read rejects the resolution.
   */
  function FirstMissing(files: Files, s: string, ms: seq<Match>): (r: Option<string>)
    requires Fits(s, ms)
    ensures r.None? <==> forall i :: 0 <= i < |ms| ==> PathOf(s, ms[i]) in files
    ensures r.Some? ==> r.value !in files
    ensures r.Some? ==> exists i :: 0 <= i < |ms| && r.value == PathOf(s, ms[i])
  {
    if ms == [] then None
    else if PathOf(s, ms[0]) !in files then Some(PathOf(s, ms[0]))
    else FirstMissing(files, s, ms[1..])
  }

  /** The text of match m, backslash run included, replaced in place by content. */
  function Substitute(s: string, m: Match, content: string): (r: string)
    requires m.start <= m.end <= |s|
  {
    s[..m.start] + content + s[m.end..]
  }

  /**
   * The substitution keeps the text before the match, puts the content where
   * the match was and keeps the text after it.
   */
  lemma SubstituteInPlace(s: string, m: Match, content: string)
    requires m.start <= m.end <= |s|
    ensures |Substitute(s, m, content)| == |s| - (m.end - m.start) + |content|
    ensures Substitute(s, m, content)[..m.start] == s[..m.start]
    ensures Substitute(s, m, content)[m.start..m.start + |content|] == content
    ensures Substitute(s, m, content)[m.start + |content|..] == s[m.end..]
  {
  }

  /** What one call of resolveComponent does before it recurses. */
  datatype Step = Done | Failed(path: string) | Rewritten(text: string)

  /**
   * One call of resolveComponent: with no token left the text is the answer;
   * otherwise every matched component is read, and the first match is
   * replaced by its component's content.
   */
  function StepOf(files: Files, s: string): (st: Step)
    ensures st.Done? <==> Tokens(s) == []
    ensures st.Failed? ==> st.path !in files
  {
    var ms := Tokens(s);
    if ms == [] then Done
    else
      match FirstMissing(files, s, ms)
      case Some(path) => Failed(path)
      case None => Rewritten(Substitute(s, ms[0], files[PathOf(s, ms[0])]))
  }

  /** Sequential reading of resolveComponent: steps until none is left to take. */
  function Resolved(files: Files, s: string, fuel: nat): (r: Result<string, ResolveError>)
    ensures r.Ok? ==> Tokens(r.value) == []
    ensures r.Err? && r.error.MissingFile? ==> r.error.path !in files
    decreases fuel
  {
    match StepOf(files, s)
    case Done => Ok(s)
    case Failed(path) => Err(MissingFile(path))
    case Rewritten(t) => if fuel == 0 then Err(OutOfFuel) else Resolved(files, t, fuel - 1)
  }

  /** A step finds nothing to do exactly when the text has no unescaped token. */
  lemma StepDone(files: Files, s: string)
    ensures StepOf(files, s) == Done <==> forall m :: !IsToken(s, m)
  {
    TokensExact(s);
    assert Tokens(s) != [] ==> IsToken(s, Tokens(s)[0]);
  }

  /** A step fails only on a component file that is missing. */
  lemma StepFailed(files: Files, s: string)
    requires StepOf(files, s).Failed?
    ensures StepOf(files, s).path !in files
    ensures exists name :: AllLetters(name) && StepOf(files, s).path == ComponentPath(name)
  {
    var ms := Tokens(s);
    var i :| 0 <= i < |ms| && StepOf(files, s).path == PathOf(s, ms[i]);
    TokensExact(s);
    assert ms[i] in ms;
    NameOfToken(s, ms[i]);
  }

  /** A token whose component file is missing makes the step fail. */
  lemma MissingComponentFails(files: Files, s: string, m: Match)
    requires IsToken(s, m) && PathOf(s, m) !in files
    ensures StepOf(files, s).Failed?
  {
    var ms := Tokens(s);
    TokensExact(s);
    var i :| 0 <= i < |ms| && ms[i] == m;
  }

  /**
   * Once every component of the text can be read, a step replaces the
   * leftmost token, backslash run included, at its own position: everything
   * before it stays as it was.
   */
  lemma StepRewrites(files: Files, s: string, m: Match)
    requires IsToken(s, m)
    requires forall n :: IsToken(s, n) ==> m.start <= n.start
    requires forall n :: IsToken(s, n) ==> PathOf(s, n) in files
    ensures StepOf(files, s) == Rewritten(s[..m.start] + files[PathOf(s, m)] + s[m.end..])
  {
    var ms := Tokens(s);
    TokensExact(s);
    FirstTokenLeftmost(s, m);
    assert ms[0] in ms;
    TokenAtComplete(s, m);
    TokenAtComplete(s, ms[0]);
    forall i | 0 <= i < |ms| ensures PathOf(s, ms[i]) in files {
      assert ms[i] in ms;
    }
  }

  /** A text without an unescaped token comes back unchanged. */
  lemma NoTokenUnchanged(files: Files, s: string, fuel: nat)
    requires forall m :: !IsToken(s, m)
    ensures Resolved(files, s, fuel) == Ok(s)
  {
    StepDone(files, s);
  }

  /** A successful resolution leaves no unescaped token in the text. */
  lemma {:induction false} ResolvedHasNoToken(files: Files, s: string, fuel: nat)
    requires Resolved(files, s, fuel).Ok?
    ensures forall m :: !IsToken(Resolved(files, s, fuel).value, m)
    decreases fuel
  {
    match StepOf(files, s)
    case Done => StepDone(files, s);
    case Rewritten(t) => ResolvedHasNoToken(files, t, fuel - 1);
  }

  /** A token of the page whose component is missing makes the resolution fail. */
  lemma ResolutionFailsOnMissing(files: Files, s: string, fuel: nat, m: Match)
    requires IsToken(s, m) && PathOf(s, m) !in files
    ensures Resolved(files, s, fuel).Err? && Resolved(files, s, fuel).error.MissingFile?
  {
    MissingComponentFails(files, s, m);
  }

  /**
   * Apart from running out of fuel, a resolution fails only on an unreadable
   * file, and that file is ./components/<letters>.html.
   */
  lemma {:induction false} FailureIsMissingComponent(files: Files, s: string, fuel: nat)
    requires Resolved(files, s, fuel).Err?
    requires Resolved(files, s, fuel).error.MissingFile?
    ensures Resolved(files, s, fuel).error.path !in files
    ensures exists name :: AllLetters(name) && Resolved(files, s, fuel).error.path == ComponentPath(name)
    decreases fuel
  {
    match StepOf(files, s)
    case Failed(path) => StepFailed(files, s);
    case Rewritten(t) => FailureIsMissingComponent(files, t, fuel - 1);
  }

  /** More fuel never changes an answer that did not run out of fuel. */
  lemma {:induction false} FuelIrrelevant(files: Files, s: string, fuel: nat, more: nat)
    requires Resolved(files, s, fuel) != Err(OutOfFuel)
    requires fuel <= more
    ensures Resolved(files, s, more) == Resolved(files, s, fuel)
    decreases fuel
  {
    match StepOf(files, s)
    case Done =>
    case Failed(_) =>
    case Rewritten(t) => FuelIrrelevant(files, t, fuel - 1, more - 1);
  }

  /**
   * The forEach of resolveComponent: one readFile per match, in match order;
   * the first that fails is the reason for the rejection.
   */
  method ReadComponents(files: Files, s: string, ms: seq<Match>) returns (missing: Option<string>)
    requires Fits(s, ms)
    ensures missing == FirstMissing(files, s, ms)
  {
    for i := 0 to |ms|
      invariant FirstMissing(files, s, ms) == FirstMissing(files, s, ms[i..])
    {
      var path := PathOf(s, ms[i]);
      if path !in files {
        return Some(path);
      }
      assert ms[i..][1..] == ms[i + 1..];
    }
    return None;
  }

  /** One call of resolveComponent up to its recursive call. */
  method ResolveOnce(files: Files, text: string) returns (st: Step)
    ensures st == StepOf(files, text)
  {
    var ms := Tokens(text);
    if ms == [] {
      return Done;
    }
    var missing := ReadComponents(files, text, ms);
    if missing.Some? {
      return Failed(missing.value);
    }
    return Rewritten(Substitute(text, ms[0], files[PathOf(text, ms[0])]));
  }

  /**
   * The resolver as the source runs it, one substitution after the other:
   * each turn of the loop is one call of resolveComponent on the rewritten
   * text, and at most `fuel` substitutions are made.
   */
  method ResolveComponent(files: Files, s: string, fuel: nat) returns (r: Result<string, ResolveError>)
    ensures r == Resolved(files, s, fuel)
  {
    var text, left := s, fuel;
    while true
      invariant Resolved(files, text, left) == Resolved(files, s, fuel)
      decreases left
    {
      var st := ResolveOnce(files, text);
      match st
      case Done =>
        return Ok(text);
      case Failed(path) =>
        return Err(MissingFile(path));
      case Rewritten(next) =>
        if left == 0 {
          return Err(OutOfFuel);
        }
        text, left := next, left - 1;
    }
  }

  // ---------------------------------------------------------------------------
  // The replacement as written: string.replace(match, data) with a string
  // pattern replaces the first LITERAL occurrence of the match text, which
  // need not be the occurrence the regular expression matched.

  predicate OccursAt(s: string, t: string, i: nat) {
    i + |t| <= |s| && s[i..i + |t|] == t
  }

  /** The first position at or after `from` where t occurs in s (String.prototype.indexOf). */
  function IndexOf(s: string, t: string, from: nat): (r: Option<nat>)
    requires from <= |s|
    ensures r.Some? ==> from <= r.value && OccursAt(s, t, r.value)
    ensures r.Some? ==> forall i :: from <= i < r.value ==> !OccursAt(s, t, i)
    ensures r.None? ==> forall i :: from <= i ==> !OccursAt(s, t, i)
    decreases |s| - from
  {
    if from + |t| > |s| then None
    else if OccursAt(s, t, from) then Some(from)
    else IndexOf(s, t, from + 1)
  }

  /** String.prototype.replace with a string pattern and a literal replacement. */
  function ReplaceFirst(s: string, t: string, content: string): string {
    match IndexOf(s, t, 0)
    case None => s
    case Some(i) => s[..i] + content + s[i + |t|..]
  }

  /**
   * replace leaves a text without an occurrence of the pattern alone, and
   * otherwise replaces the occurrence with no other one before it.
   */
  lemma ReplaceFirstSpec(s: string, t: string, content: string)
    ensures (forall i: nat :: !OccursAt(s, t, i)) ==> ReplaceFirst(s, t, content) == s
    ensures forall i: nat :: OccursAt(s, t, i) && (forall j: nat :: j < i ==> !OccursAt(s, t, j)) ==>
      ReplaceFirst(s, t, content) == s[..i] + content + s[i + |t|..]
  {
  }

  /** StepOf, with the substitution done as the source writes it. */
  function StepAsWritten(files: Files, s: string): (st: Step)
    ensures st.Rewritten? <==> StepOf(files, s).Rewritten?
    ensures !st.Rewritten? ==> st == StepOf(files, s)
  {
    var ms := Tokens(s);
    if ms == [] then Done
    else
      match FirstMissing(files, s, ms)
      case Some(path) => Failed(path)
      case None =>
        var m := ms[0];
        Rewritten(ReplaceFirst(s, s[m.start..m.end], files[PathOf(s, m)]))
  }

  /**
   * The two readings agree on a step when the match text does not occur
   * earlier in the text than the match itself.
   */
  lemma AsWrittenAgreesWhenFirst(files: Files, s: string)
    requires Tokens(s) != [] && FirstMissing(files, s, Tokens(s)).None?
    requires IndexOf(s, s[Tokens(s)[0].start..Tokens(s)[0].end], 0) == Some(Tokens(s)[0].start)
    ensures StepAsWritten(files, s) == StepOf(files, s)
  {
  }

  /** Resolved, with the substitution done as the source writes it. */
  function ResolvedAsWritten(files: Files, s: string, fuel: nat): (r: Result<string, ResolveError>)
    ensures r.Ok? ==> Tokens(r.value) == []
    ensures r.Err? && r.error.MissingFile? ==> r.error.path !in files
    decreases fuel
  {
    match StepAsWritten(files, s)
    case Done => Ok(s)
    case Failed(path) => Err(MissingFile(path))
    case Rewritten(t) => if fuel == 0 then Err(OutOfFuel) else ResolvedAsWritten(files, t, fuel - 1)
  }
}
