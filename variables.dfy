/**
 * Variable references inside string scalars (variables.go): the whole-value
 * recogniser `${name}`, the test for inline occurrences, and the interpolation
 * loop that splices resolved text in place of the leftmost occurrence and
 * rescans from the start. The two regular expressions of the source are replaced
 * by a hand-written matcher: an occurrence is `${`, one or more characters of
 * `[A-Za-z0-9_.]`, then `}`.
 */
module Variables {
  import opened Wrappers
  import opened Model
  import opened Configuration
  import opened Strings

  predicate IsNameChar(c: char)
  {
    ('A' <= c <= 'Z') || ('a' <= c <= 'z') || ('0' <= c <= '9') || c == '_' || c == '.'
  }

  /** A variable name: one or more name characters. */
  predicate IsName(s: string)
  {
    |s| > 0 && forall i :: 0 <= i < |s| ==> IsNameChar(s[i])
  }

  /** `s[k..e]` is an occurrence `${name}`. */
  predicate IsOccurrence(s: string, k: int, e: int)
  {
    0 <= k && k + 4 <= e <= |s| && s[k] == '$' && s[k + 1] == '{' && s[e - 1] == '}'
    && IsName(s[k + 2..e - 1])
  }

  ghost predicate HasOccurrence(s: string)
  {
    exists k, e :: IsOccurrence(s, k, e)
  }

  /** The name an occurrence refers to. */
  function NameOf(s: string, k: int, e: int): string
    requires IsOccurrence(s, k, e)
  {
    s[k + 2..e - 1]
  }

  /** Text without `$` holds no occurrence. */
  lemma NoDollarNoOccurrence(s: string)
    requires '$' !in s
    ensures !HasOccurrence(s)
  {
  }

  /** Where an occurrence starts determines where it ends, because `}` is not a
      name character. */
  lemma OccurrenceEndUnique(s: string, k: int, e1: int, e2: int)
    requires IsOccurrence(s, k, e1) && IsOccurrence(s, k, e2)
    ensures e1 == e2
  {
  }

  /** The end of the run of name characters that starts at `i`. */
  function NameEnd(s: string, i: nat): (j: nat)
    requires i <= |s|
    ensures i <= j <= |s|
    ensures forall m :: i <= m < j ==> IsNameChar(s[m])
    ensures j < |s| ==> !IsNameChar(s[j])
    decreases |s| - i
  {
    if i == |s| || !IsNameChar(s[i]) then i else NameEnd(s, i + 1)
  }

  /** The end of the occurrence that starts at `k`, if one does. */
  function OccurrenceAt(s: string, k: nat): (r: Option<nat>)
    requires k <= |s|
    ensures r.Some? ==> IsOccurrence(s, k, r.value)
    ensures r.None? ==> forall e :: !IsOccurrence(s, k, e)
  {
    if k + 1 < |s| && s[k] == '$' && s[k + 1] == '{' then
      var j := NameEnd(s, k + 2);
      if j > k + 2 && j < |s| && s[j] == '}' then
        assert s[k + 2..j] == s[k + 2..j + 1 - 1];
        Some(j + 1)
      else
        OccurrenceEndsName(s, k);
        None
    else None
  }

  /** The name of an occurrence starting at `k` runs exactly to `NameEnd`. */
  lemma OccurrenceEndsName(s: string, k: nat)
    requires k + 2 <= |s|
    ensures forall e :: IsOccurrence(s, k, e) ==> NameEnd(s, k + 2) == e - 1
  {
    forall e | IsOccurrence(s, k, e) ensures NameEnd(s, k + 2) == e - 1 {
      var name := s[k + 2..e - 1];
      assert forall m :: k + 2 <= m < e - 1 ==> name[m - (k + 2)] == s[m];
    }
  }

  /** The leftmost occurrence starting at or after `from`. */
  function FindOccurrence(s: string, from: nat): (r: Option<(nat, nat)>)
    requires from <= |s|
    ensures r.Some? ==> from <= r.value.0 && IsOccurrence(s, r.value.0, r.value.1)
    ensures r.Some? ==> forall k, e :: from <= k < r.value.0 ==> !IsOccurrence(s, k, e)
    ensures r.None? ==> forall k, e :: from <= k ==> !IsOccurrence(s, k, e)
    decreases |s| - from
  {
    if from == |s| then None
    else
      match OccurrenceAt(s, from)
      case Some(e) => Some((from, e))
      case None => FindOccurrence(s, from + 1)
  }

  /** `variableReference`: the name, when `v` is a string whose trimmed form is
      exactly one `${name}`; `("", false)` otherwise, in particular for any value
      that is not a string. */
  function VariableReference(v: Data): (r: (string, bool))
    ensures r.1 <==> v.DStr? && exists name :: IsName(name) && TrimSpace(v.s) == "${" + name + "}"
    ensures r.1 ==> IsName(r.0) && TrimSpace(v.s) == "${" + r.0 + "}"
    ensures !r.1 ==> r.0 == ""
  {
    if v.DStr? then
      var t := TrimSpace(v.s);
      if |t| >= 4 && t[0] == '$' && t[1] == '{' && t[|t| - 1] == '}' && IsName(t[2..|t| - 1]) then
        assert t == "${" + t[2..|t| - 1] + "}";
        (t[2..|t| - 1], true)
      else
        assert forall name :: t == "${" + name + "}" ==> t[2..|t| - 1] == name;
        ("", false)
    else ("", false)
  }

  /** A slice of a slice is a slice of the original. */
  lemma SliceOfSlice(s: string, a: nat, b: nat, i: nat, j: nat)
    requires a <= b <= |s| && i <= j <= b - a
    ensures s[a..b][i..j] == s[a + i..a + j]
  {
    assert forall m :: 0 <= m < j - i ==> s[a..b][i..j][m] == s[a + i + m];
  }

  /** An occurrence lies inside the trimmed middle, since `$` and `}` are not
      white space, and is an occurrence of the trimmed text. */
  lemma OccurrenceSurvivesTrim(s: string, k: int, e: int)
    requires IsOccurrence(s, k, e)
    ensures IsOccurrence(TrimSpace(s), k - TrimBounds(s).0, e - TrimBounds(s).0)
  {
    var (a, b) := TrimBounds(s);
    assert forall i :: 0 <= i < a ==> IsSpace(s[i]) by {
      forall i | 0 <= i < a ensures IsSpace(s[i]) {
        assert s[..a][i] == s[i];
      }
    }
    assert forall i :: b <= i < |s| ==> IsSpace(s[i]) by {
      forall i | b <= i < |s| ensures IsSpace(s[i]) {
        assert s[b..][i - b] == s[i];
      }
    }
    assert !IsSpace(s[k]) && !IsSpace(s[e - 1]);
    assert a <= k && e <= b;
    SliceOfSlice(s, a, b, k - a + 2, e - a - 1);
  }

  /** An occurrence of the trimmed text is one of the original, shifted. */
  lemma OccurrenceBeforeTrim(s: string, k: int, e: int)
    requires IsOccurrence(TrimSpace(s), k, e)
    ensures IsOccurrence(s, k + TrimBounds(s).0, e + TrimBounds(s).0)
  {
    var (a, b) := TrimBounds(s);
    var t := TrimSpace(s);
    SliceOfSlice(s, a, b, k + 2, e - 1);
    assert s[k + a] == t[k] && s[k + a + 1] == t[k + 1] && s[e + a - 1] == t[e - 1];
  }

  /** Trimming never cuts into an occurrence, since none contains white space. */
  lemma TrimKeepsOccurrences(s: string)
    ensures HasOccurrence(TrimSpace(s)) <==> HasOccurrence(s)
  {
    if HasOccurrence(s) {
      var k, e :| IsOccurrence(s, k, e);
      OccurrenceSurvivesTrim(s, k, e);
    }
    if HasOccurrence(TrimSpace(s)) {
      var k, e :| IsOccurrence(TrimSpace(s), k, e);
      OccurrenceBeforeTrim(s, k, e);
    }
  }

  /** `inlineVariablesFound`: whether the string holds at least one occurrence. */
  function InlineVariablesFound(input: string): (r: bool)
    ensures r <==> HasOccurrence(input)
  {
    TrimKeepsOccurrences(input);
    FindOccurrence(TrimSpace(input), 0).Some?
  }

  /** Replacing an occurrence by `$`-free text removes exactly one `$`. */
  lemma SpliceRemovesDollar(s: string, k: int, e: int, t: string)
    requires IsOccurrence(s, k, e) && '$' !in t
    ensures multiset(s[..k] + t + s[e..])['$'] == multiset(s)['$'] - 1
  {
    var name := s[k + 2..e - 1];
    assert '$' !in name by {
      forall i | 0 <= i < |name| ensures name[i] != '$' {
        assert IsNameChar(name[i]);
      }
    }
    assert s[k..e] == ['$'] + ['{'] + name + ['}'];
    assert s == s[..k] + s[k..e] + s[e..];
    assert multiset(s)['$'] == multiset(s[..k])['$'] + multiset(s[k..e])['$'] + multiset(s[e..])['$'];
    assert multiset(t)['$'] == 0;
  }

  /** The result of inline interpolation: repeatedly the leftmost occurrence is
      replaced by the text its name resolves to, and the whole string is scanned
      again from the start, so resolved text that completes a new occurrence is
      expanded in turn. An unresolved name, or one that resolves to a value that
      is not a string, is an error naming the variable. */
  function Interpolate(s: string, chain: seq<VariableResolver>): (r: Result<string, BindError>)
    requires NoDollarChain(chain)
    ensures r.Ok? ==> !HasOccurrence(r.value)
    ensures !HasOccurrence(s) ==> r == Ok(s)
    ensures r.Err? ==> (r.error.UnresolvedVariable? || r.error.NonStringVariableValue?) && IsName(r.error.name)
    decreases multiset(s)['$']
  {
    match FindOccurrence(s, 0)
    case None => Ok(s)
    case Some((k, e)) =>
      var name := NameOf(s, k, e);
      var resolved := ResolveVariable(chain, name);
      if resolved.None? then Err(UnresolvedVariable(name))
      else if !resolved.value.DStr? then Err(NonStringVariableValue(name))
      else
        ResolvedHasNoDollar(chain, name);
        SpliceRemovesDollar(s, k, e, resolved.value.s);
        Interpolate(s[..k] + resolved.value.s + s[e..], chain)
  }

  /** One round of the loop, stated without the matcher: when `s[k..e]` is an
      occurrence and none starts before `k`, interpolation continues on `s` with
      exactly that occurrence replaced, the prefix and suffix unchanged. */
  lemma {:induction false} InterpolateReplacesLeftmost(s: string, k: int, e: int, chain: seq<VariableResolver>, t: string)
    requires NoDollarChain(chain)
    requires IsOccurrence(s, k, e)
    requires forall k', e' :: 0 <= k' < k ==> !IsOccurrence(s, k', e')
    requires ResolveVariable(chain, NameOf(s, k, e)) == Some(DStr(t))
    ensures Interpolate(s, chain) == Interpolate(s[..k] + t + s[e..], chain)
  {
    var m := FindOccurrence(s, 0);
    assert m.Some? && m.value.0 == k;
    OccurrenceEndUnique(s, k, e, m.value.1);
  }

  /** The failing round: the leftmost occurrence's name is unresolved, or
      resolves to a value that is not a string, and interpolation fails with an
      error naming exactly that variable. */
  lemma InterpolateFailsAtLeftmost(s: string, k: int, e: int, chain: seq<VariableResolver>)
    requires NoDollarChain(chain)
    requires IsOccurrence(s, k, e)
    requires forall k', e' :: 0 <= k' < k ==> !IsOccurrence(s, k', e')
    ensures ResolveVariable(chain, NameOf(s, k, e)).None?
            ==> Interpolate(s, chain) == Err(UnresolvedVariable(NameOf(s, k, e)))
    ensures ResolveVariable(chain, NameOf(s, k, e)).Some? && !ResolveVariable(chain, NameOf(s, k, e)).value.DStr?
            ==> Interpolate(s, chain) == Err(NonStringVariableValue(NameOf(s, k, e)))
  {
    var m := FindOccurrence(s, 0);
    assert m.Some? && m.value.0 == k;
    OccurrenceEndUnique(s, k, e, m.value.1);
  }

  /** Input without occurrences comes back trimmed and otherwise unchanged. */
  lemma NoOccurrenceOnlyTrimmed(input: string, chain: seq<VariableResolver>)
    requires NoDollarChain(chain) && !HasOccurrence(input)
    ensures Interpolate(TrimSpace(input), chain) == Ok(TrimSpace(input))
  {
    TrimKeepsOccurrences(input);
  }

  /** `replaceInlineVariables`: trims the input, then loops while an occurrence
      remains. On success the result is free of occurrences; on failure the
      empty string is returned with the error. */
  method ReplaceInlineVariables(input: string, opt: Options) returns (out: string, err: Option<BindError>)
    requires NoDollarChain(opt.variableResolverChain)
    ensures err.None? ==> Interpolate(TrimSpace(input), opt.variableResolverChain) == Ok(out)
    ensures err.Some? ==> Interpolate(TrimSpace(input), opt.variableResolverChain) == Err(err.value) && out == ""
  {
    var chain := opt.variableResolverChain;
    out := TrimSpace(input);
    var vmatch := FindOccurrence(out, 0);
    while vmatch.Some?
      invariant vmatch == FindOccurrence(out, 0)
      invariant Interpolate(out, chain) == Interpolate(TrimSpace(input), chain)
      decreases multiset(out)['$']
    {
      var (k, e) := vmatch.value;
      var next, failure := ReplaceOccurrence(out, k, e, chain);
      if failure.Some? {
        return "", failure;
      }
      out := next;
      vmatch := FindOccurrence(out, 0);
    }
    assert Interpolate(out, chain) == Ok(out);
    err := None;
  }

  /** One round of the loop: the variable named by the occurrence `s[k..e]` is
      resolved, and its text spliced in place of the occurrence. */
  method ReplaceOccurrence(s: string, k: nat, e: nat, chain: seq<VariableResolver>)
    returns (next: string, err: Option<BindError>)
    requires NoDollarChain(chain) && FindOccurrence(s, 0) == Some((k, e))
    ensures err.Some? ==> Interpolate(s, chain) == Err(err.value)
    ensures err.None? ==> Interpolate(next, chain) == Interpolate(s, chain)
                          && multiset(next)['$'] < multiset(s)['$']
  {
    LoopRound(s, k, e, chain);
    var vname := s[k + 2..e - 1];
    assert vname == NameOf(s, k, e);
    var vvalue := ResolveVariable(chain, vname);
    if vvalue.None? {
      return s, Some(UnresolvedVariable(vname));
    }
    if !vvalue.value.DStr? {
      return s, Some(NonStringVariableValue(vname));
    }
    return s[..k] + vvalue.value.s + s[e..], None;
  }

  /** What one round of the loop finds at the leftmost occurrence `s[k..e]`:
      the error for an unresolved or non-string variable, or else a splice that
      keeps the interpolation's result and removes one `$`. */
  lemma LoopRound(s: string, k: nat, e: nat, chain: seq<VariableResolver>)
    requires NoDollarChain(chain) && FindOccurrence(s, 0) == Some((k, e))
    ensures var v := ResolveVariable(chain, NameOf(s, k, e));
            && (v.None? ==> Interpolate(s, chain) == Err(UnresolvedVariable(NameOf(s, k, e))))
            && (v.Some? && !v.value.DStr? ==> Interpolate(s, chain) == Err(NonStringVariableValue(NameOf(s, k, e))))
            && (v.Some? && v.value.DStr? ==>
                  && Interpolate(s, chain) == Interpolate(s[..k] + v.value.s + s[e..], chain)
                  && multiset(s[..k] + v.value.s + s[e..])['$'] < multiset(s)['$'])
  {
    var v := ResolveVariable(chain, NameOf(s, k, e));
    ResolvedHasNoDollar(chain, NameOf(s, k, e));
    if v.None? {
      assert Interpolate(s, chain) == Err(UnresolvedVariable(NameOf(s, k, e)));
    } else if !v.value.DStr? {
      assert Interpolate(s, chain) == Err(NonStringVariableValue(NameOf(s, k, e)));
    } else {
      SpliceRemovesDollar(s, k, e, v.value.s);
      assert Interpolate(s, chain) == Interpolate(s[..k] + v.value.s + s[e..], chain);
    }
  }

  /** A whole-value reference names its variable; a value that is not a string
      is never one. */
  lemma VariableReferenceExamples()
    ensures VariableReference(DStr("${oh.wow}")) == ("oh.wow", true)
    ensures VariableReference(DInt(Int16, 1)) == ("", false)
  {
    assert TrimSpace("${oh.wow}") == "${oh.wow}";
    assert "${oh.wow}"[2..8] == "oh.wow";
  }

  /** The resolver of the inline example: `a` is `oh`, `b` is `wow`. */
  function ExampleResolver(n: string): Option<Data>
  {
    if n == "a" then Some(DStr("oh")) else if n == "b" then Some(DStr("wow")) else None
  }

  lemma ExampleChainNoDollar()
    ensures NoDollarChain([ExampleResolver])
  {
    assert YieldsNoDollar(ExampleResolver);
  }

  lemma InlineFirstStep()
    ensures NoDollarChain([ExampleResolver])
    ensures Interpolate("/hello/world/${a}/and/${b}", [ExampleResolver])
         == Interpolate("/hello/world/oh/and/${b}", [ExampleResolver])
  {
    ExampleChainNoDollar();
    var s0 := "/hello/world/${a}/and/${b}";
    assert forall i :: 0 <= i < 13 ==> s0[i] != '$';
    assert s0[15..16] == "a";
    assert IsOccurrence(s0, 13, 17);
    assert s0[..13] + "oh" + s0[17..] == "/hello/world/oh/and/${b}";
    InterpolateReplacesLeftmost(s0, 13, 17, [ExampleResolver], "oh");
  }

  lemma InlineSecondStep()
    ensures NoDollarChain([ExampleResolver])
    ensures Interpolate("/hello/world/oh/and/${b}", [ExampleResolver])
         == Ok("/hello/world/oh/and/wow")
  {
    ExampleChainNoDollar();
    var s1 := "/hello/world/oh/and/${b}";
    assert forall i :: 0 <= i < 20 ==> s1[i] != '$';
    assert s1[22..23] == "b";
    assert IsOccurrence(s1, 20, 24);
    assert s1[..20] + "wow" + s1[24..] == "/hello/world/oh/and/wow";
    InterpolateReplacesLeftmost(s1, 20, 24, [ExampleResolver], "wow");
    NoDollarNoOccurrence("/hello/world/oh/and/wow");
  }

  /** Each occurrence is replaced in turn, leftmost first. */
  lemma InlineExample()
    ensures NoDollarChain([ExampleResolver])
    ensures Interpolate("/hello/world/${a}/and/${b}", [ExampleResolver]) == Ok("/hello/world/oh/and/wow")
  {
    InlineFirstStep();
    InlineSecondStep();
  }

  /** The resolver of the rescan example: `a` is `b`, `b` is `done`. */
  function RescanResolver(n: string): Option<Data>
  {
    if n == "a" then Some(DStr("b")) else if n == "b" then Some(DStr("done")) else None
  }

  lemma RescanChainNoDollar()
    ensures NoDollarChain([RescanResolver])
  {
    assert YieldsNoDollar(RescanResolver);
  }

  lemma RescanFirstStep()
    ensures NoDollarChain([RescanResolver])
    ensures Interpolate("${${a}}", [RescanResolver]) == Interpolate("${b}", [RescanResolver])
  {
    RescanChainNoDollar();
    var s0 := "${${a}}";
    assert NameEnd(s0, 2) == 2;
    assert OccurrenceAt(s0, 0) == None;
    assert s0[1] != '$';
    assert s0[4..5] == "a";
    assert IsOccurrence(s0, 2, 6);
    assert s0[..2] + "b" + s0[6..] == "${b}";
    InterpolateReplacesLeftmost(s0, 2, 6, [RescanResolver], "b");
  }

  lemma RescanSecondStep()
    ensures NoDollarChain([RescanResolver])
    ensures Interpolate("${b}", [RescanResolver]) == Ok("done")
  {
    RescanChainNoDollar();
    var s1 := "${b}";
    assert s1[2..3] == "b";
    assert IsOccurrence(s1, 0, 4);
    assert s1[..0] + "done" + s1[4..] == "done";
    InterpolateReplacesLeftmost(s1, 0, 4, [RescanResolver], "done");
    NoDollarNoOccurrence("done");
  }

  /** The scan restarts from the beginning after every splice: replacing the
      inner `${a}` of `${${a}}` by `b` forms the new occurrence `${b}`, which is
      expanded in turn. */
  lemma RescanExample()
    ensures NoDollarChain([RescanResolver])
    ensures Interpolate("${${a}}", [RescanResolver]) == Ok("done")
  {
    RescanFirstStep();
    RescanSecondStep();
  }
}
