/** Expansion of braced environment references in configuration files (expandEnvironment in
    axisml-standalone/loader.go). The input is a byte string, one char per byte. */
module EnvExpand {
  import opened Options

  /** The expanded text, or the name of a variable that is unset or empty. */
  datatype Result = Ok(text: string) | Unset(name: string)

  predicate IsLetter(c: char) { 'A' <= c <= 'Z' || 'a' <= c <= 'z' || c == '_' }

  predicate IsWord(c: char) { IsLetter(c) || '0' <= c <= '9' }

  /** The end of the run of name characters that starts at i. */
  function WordEnd(b: string, i: nat): (j: nat)
    requires i <= |b|
    ensures i <= j <= |b| && (forall k | i <= k < j :: IsWord(b[k])) && (j < |b| ==> !IsWord(b[j]))
    decreases |b| - i
  {
    if i < |b| && IsWord(b[i]) then WordEnd(b, i + 1) else i
  }

  /** The end of the reference `${NAME}` that starts exactly at i, if there is one. */
  function RefEnd(b: string, i: nat): (e: Option<nat>)
    ensures e.Some? ==> i + 3 < e.value <= |b|
  {
    if i + 3 < |b| && b[i] == '$' && b[i + 1] == '{' && IsLetter(b[i + 2]) then
      var j := WordEnd(b, i + 3);
      if j < |b| && b[j] == '}' then Some(j + 1) else None
    else None
  }

  function RefName(b: string, i: nat): string
    requires RefEnd(b, i).Some?
  {
    b[i + 2..RefEnd(b, i).value - 1]
  }

  predicate IsSet(env: map<string, string>, name: string) { name in env && env[name] != "" }

  // ---- The specification: one left-to-right pass ------------------------------------------------

  function Prepend(s: string, r: Result): Result {
    if r.Ok? then Ok(s + r.text) else r
  }

  /** Replace every reference from position i on, once; copy every other byte. */
  function Expanded(b: string, i: nat, env: map<string, string>): Result
    requires i <= |b|
    decreases |b| - i
  {
    if i == |b| then Ok("")
    else if RefEnd(b, i).None? then Prepend([b[i]], Expanded(b, i + 1, env))
    else if !IsSet(env, RefName(b, i)) then Unset(RefName(b, i))
    else Prepend(env[RefName(b, i)], Expanded(b, RefEnd(b, i).value, env))
  }

  // ---- The implementation: all matches first, then a buffer --------------------------------------

  datatype Match = Match(start: nat, end: nat)

  /** FindAllSubmatchIndex: leftmost matches, not overlapping, from position i on. */
  function FindAll(b: string, i: nat): seq<Match>
    requires i <= |b|
    decreases |b| - i
  {
    if i == |b| then []
    else if RefEnd(b, i).None? then FindAll(b, i + 1)
    else [Match(i, RefEnd(b, i).value)] + FindAll(b, RefEnd(b, i).value)
  }

  /** Up to the first match nothing is a reference, so the pass copies it. */
  lemma {:induction false} CopyUpToMatch(b: string, i: nat, env: map<string, string>)
    requires i <= |b|
    ensures FindAll(b, i) == [] ==> Expanded(b, i, env) == Ok(b[i..])
    ensures FindAll(b, i) != [] ==>
              var m := FindAll(b, i)[0];
              && i <= m.start <= |b| && RefEnd(b, m.start) == Some(m.end)
              && FindAll(b, i)[1..] == FindAll(b, m.end)
              && Expanded(b, i, env) == Prepend(b[i..m.start], Expanded(b, m.start, env))
    decreases |b| - i
  {
    if i < |b| && RefEnd(b, i).None? {
      CopyUpToMatch(b, i + 1, env);
      assert [b[i]] + b[i + 1..] == b[i..];
      if FindAll(b, i) != [] {
        var m := FindAll(b, i)[0];
        assert [b[i]] + b[i + 1..m.start] == b[i..m.start];
        PrependTwice([b[i]], b[i + 1..m.start], Expanded(b, m.start, env));
      }
    } else if i < |b| {
      assert b[i..i] == "";
      PrependNothing(Expanded(b, i, env));
    }
  }

  lemma PrependTwice(s: string, t: string, r: Result)
    ensures Prepend(s, Prepend(t, r)) == Prepend(s + t, r)
  {
    if r.Ok? { assert s + (t + r.text) == (s + t) + r.text; }
  }

  lemma PrependThrice(s: string, t: string, v: string, r: Result)
    ensures Prepend(s, Prepend(t, Prepend(v, r))) == Prepend(s + t + v, r)
  {
    PrependTwice(t, v, r);
    PrependTwice(s, t + v, r);
    assert s + (t + v) == s + t + v;
  }

  /** At a reference: an unset variable ends the pass, a set one is replaced once. */
  lemma AtReference(b: string, m: Match, env: map<string, string>)
    requires m.start <= |b| && RefEnd(b, m.start) == Some(m.end)
    ensures m.start + 3 < m.end <= |b|
    ensures var name := b[m.start + 2..m.end - 1];
            Expanded(b, m.start, env) ==
              if !IsSet(env, name) then Unset(name) else Prepend(env[name], Expanded(b, m.end, env))
  {
    assert RefName(b, m.start) == b[m.start + 2..m.end - 1];
  }

  /** One round of the loop: the gap before the next match, then its value as it is. The value
      is not scanned again; what follows the reference expands on its own. */
  lemma RoundIsOneReference(b: string, last: nat, out: string, env: map<string, string>)
    requires last <= |b| && FindAll(b, last) != []
    ensures var m := FindAll(b, last)[0];
            && last <= m.start && m.start + 3 < m.end <= |b|
            && FindAll(b, last)[1..] == FindAll(b, m.end)
            && var name := b[m.start + 2..m.end - 1];
               Prepend(out, Expanded(b, last, env)) ==
                 if !IsSet(env, name) then Unset(name)
                 else Prepend(out + b[last..m.start] + env[name], Expanded(b, m.end, env))
  {
    CopyUpToMatch(b, last, env);
    var m := FindAll(b, last)[0];
    AtReference(b, m, env);
    var name := b[m.start + 2..m.end - 1];
    if IsSet(env, name) { PrependThrice(out, b[last..m.start], env[name], Expanded(b, m.end, env)); }
  }

  /** expandEnvironment: find the matches, then copy the gaps and substitute the values. It
      computes the one-pass expansion. */
  method Expand(b: string, env: map<string, string>) returns (result: Result)
    ensures result == Expanded(b, 0, env)
  {
    var matches := FindAll(b, 0);
    if matches == [] {
      CopyUpToMatch(b, 0, env);
      assert b[0..] == b;
      return Ok(b);
    }
    var out, last := "", 0;
    PrependNothing(Expanded(b, 0, env));
    while matches != []
      invariant 0 <= last <= |b| && matches == FindAll(b, last)
      invariant Expanded(b, 0, env) == Prepend(out, Expanded(b, last, env))
    {
      RoundIsOneReference(b, last, out, env);
      var m := matches[0];
      var name := b[m.start + 2..m.end - 1];
      if !IsSet(env, name) {
        return Unset(name);
      }
      out := out + b[last..m.start] + env[name];
      last := m.end;
      matches := matches[1..];
    }
    CopyUpToMatch(b, last, env);
    result := Ok(out + b[last..]);
  }

  lemma PrependNothing(r: Result)
    ensures Prepend("", r) == r
  {
    if r.Ok? { assert "" + r.text == r.text; }
  }

  // ---- What the pass guarantees -------------------------------------------------------------------

  /** No reference starts inside another one. */
  lemma RefsDoNotNest(b: string, i: nat, p: nat)
    requires RefEnd(b, i).Some? && i < p < RefEnd(b, i).value
    ensures RefEnd(b, p).None?
  {
    var j := RefEnd(b, i).value - 1;
    assert j == WordEnd(b, i + 3);
    if p < |b| && i + 3 <= p < j { assert IsWord(b[p]); }
  }

  /** These are references from position i on, in order and without overlap. */
  ghost predicate AreRefs(b: string, i: nat, ms: seq<Match>)
    decreases |ms|
  {
    ms == [] ||
    (i <= ms[0].start < ms[0].end && RefEnd(b, ms[0].start) == Some(ms[0].end) && AreRefs(b, ms[0].end, ms[1..]))
  }

  lemma {:induction false} FindAllAreRefs(b: string, i: nat)
    requires i <= |b|
    ensures AreRefs(b, i, FindAll(b, i))
    decreases |b| - i
  {
    if i < |b| {
      if RefEnd(b, i).None? {
        FindAllAreRefs(b, i + 1);
      } else {
        FindAllAreRefs(b, RefEnd(b, i).value);
      }
    }
  }

  lemma {:induction false} RefsAt(b: string, i: nat, ms: seq<Match>, k: nat)
    requires AreRefs(b, i, ms) && k < |ms|
    ensures i <= ms[k].start < ms[k].end && RefEnd(b, ms[k].start) == Some(ms[k].end)
    ensures forall l | 0 <= l < k :: ms[l].end <= ms[k].start
    decreases |ms|
  {
    if k > 0 {
      RefsAt(b, ms[0].end, ms[1..], k - 1);
      forall l | 0 <= l < k
        ensures ms[l].end <= ms[k].start
      {
        if l > 0 { assert ms[l] == ms[1..][l - 1]; }
      }
    }
  }

  lemma {:induction false} FindAllMissesNone(b: string, i: nat, m: Match)
    requires i <= |b| && i <= m.start && RefEnd(b, m.start) == Some(m.end)
    ensures m in FindAll(b, i)
    decreases |b| - i
  {
    var e := RefEnd(b, i);
    if e.None? {
      FindAllMissesNone(b, i + 1, m);
    } else if m.start > i {
      if m.start < e.value { RefsDoNotNest(b, i, m.start); }
      FindAllMissesNone(b, e.value, m);
      assert m in [Match(i, e.value)] + FindAll(b, e.value);
    }
  }

  /** Matching finds every reference of the text exactly once, in order. */
  lemma FindAllIsExact(b: string, i: nat)
    requires i <= |b|
    ensures forall k | 0 <= k < |FindAll(b, i)| ::
              i <= FindAll(b, i)[k].start && RefEnd(b, FindAll(b, i)[k].start) == Some(FindAll(b, i)[k].end)
    ensures forall k, l | 0 <= k < l < |FindAll(b, i)| :: FindAll(b, i)[k].end <= FindAll(b, i)[l].start
    ensures forall p | i <= p && RefEnd(b, p).Some? :: Match(p, RefEnd(b, p).value) in FindAll(b, i)
  {
    var ms := FindAll(b, i);
    FindAllAreRefs(b, i);
    forall k | 0 <= k < |ms|
      ensures i <= ms[k].start && RefEnd(b, ms[k].start) == Some(ms[k].end)
      ensures forall l | 0 <= l < k :: ms[l].end <= ms[k].start
    {
      RefsAt(b, i, ms, k);
    }
    forall p | i <= p && RefEnd(b, p).Some?
      ensures Match(p, RefEnd(b, p).value) in ms
    {
      FindAllMissesNone(b, i, Match(p, RefEnd(b, p).value));
    }
  }

  ghost predicate BadRef(b: string, p: nat, env: map<string, string>) {
    RefEnd(b, p).Some? && !IsSet(env, RefName(b, p))
  }

  /** Expansion fails exactly when some reference names an unset or empty variable, and it names
      the first such one. */
  lemma {:induction false} FailsOnFirstUnset(b: string, i: nat, env: map<string, string>)
    requires i <= |b|
    ensures Expanded(b, i, env).Unset? <==> exists p :: i <= p && BadRef(b, p, env)
    ensures forall p | i <= p && BadRef(b, p, env) && (forall q | i <= q < p :: !BadRef(b, q, env)) ::
              Expanded(b, i, env) == Unset(RefName(b, p))
    decreases |b| - i
  {
    if i < |b| && !BadRef(b, i, env) {
      var next := if RefEnd(b, i).None? then i + 1 else RefEnd(b, i).value;
      FailsOnFirstUnset(b, next, env);
      forall p | i <= p < next
        ensures !BadRef(b, p, env)
      {
        if i < p { RefsDoNotNest(b, i, p); }
      }
    }
  }

  /** A text without braced references is returned unchanged: bare `$VAR`, unclosed or
      malformed braces included. */
  lemma {:induction false} OtherDollarsStay(b: string, env: map<string, string>)
    requires forall p: nat :: RefEnd(b, p).None?
    ensures Expanded(b, 0, env) == Ok(b)
  {
    FindAllIsExact(b, 0);
    CopyUpToMatch(b, 0, env);
    assert b[0..] == b;
  }

  // ---- References as strings ------------------------------------------------------------------------

  /** A letter or an underscore, then letters, digits and underscores. */
  predicate IsName(name: string) {
    && name != ""
    && ('a' <= name[0] <= 'z' || 'A' <= name[0] <= 'Z' || name[0] == '_')
    && forall k | 0 <= k < |name| ::
         'a' <= name[k] <= 'z' || 'A' <= name[k] <= 'Z' || '0' <= name[k] <= '9' || name[k] == '_'
  }

  function Braced(name: string): string { "${" + name + "}" }

  lemma {:induction false} WordEndIs(b: string, i: nat, j: nat)
    requires i <= j <= |b| && (forall k | i <= k < j :: IsWord(b[k])) && (j < |b| ==> !IsWord(b[j]))
    ensures WordEnd(b, i) == j
    decreases j - i
  {
    if i < j { WordEndIs(b, i + 1, j); }
  }

  /** A braced name is a reference wherever it stands, and the reference has that name. */
  lemma BracedIsRef(b: string, i: nat, name: string)
    requires IsName(name) && i + |name| + 3 <= |b| && b[i..i + |name| + 3] == Braced(name)
    ensures RefEnd(b, i) == Some(i + |name| + 3) && RefName(b, i) == name
  {
    var e := i + |name| + 3;
    assert forall k | 0 <= k < |name| + 3 :: b[i + k] == Braced(name)[k];
    assert b[i] == '$' && b[i + 1] == '{' && b[e - 1] == '}';
    forall k | i + 2 <= k < e - 1
      ensures b[k] == name[k - i - 2]
    {
      assert b[i + (k - i)] == Braced(name)[k - i];
    }
    WordEndIs(b, i + 3, e - 1);
    assert b[i + 2..e - 1] == name;
  }

  /** And nothing else is a reference. */
  lemma RefIsBraced(b: string, i: nat)
    requires RefEnd(b, i).Some?
    ensures IsName(RefName(b, i)) && RefEnd(b, i).value == i + |RefName(b, i)| + 3
    ensures b[i..RefEnd(b, i).value] == Braced(RefName(b, i))
  {
    var e, name := RefEnd(b, i).value, RefName(b, i);
    assert e - 1 == WordEnd(b, i + 3);
    forall k | 0 <= k < |name|
      ensures IsWord(name[k])
    {
      assert name[k] == b[i + 2 + k];
    }
  }

  /** What follows does not change where a reference ends, unless the text breaks off inside a name and
      goes on with it; a dollar sign never does. */
  lemma RefBeforeDollar(a: string, b: string, i: nat)
    requires i < |a| && b != "" && b[0] == '$'
    ensures RefEnd(a + b, i) == RefEnd(a, i)
  {
    var c := a + b;
    assert forall k | 0 <= k < |a| :: c[k] == a[k];
    assert c[|a|] == '$';
    if i + 3 < |a| {
      WordEndIs(c, i + 3, WordEnd(a, i + 3));
    } else if i + 3 == |a| {
      WordEndIs(c, i + 3, i + 3);
    }
  }

  lemma RefBehind(a: string, b: string, i: nat)
    ensures RefEnd(a + b, |a| + i) == if RefEnd(b, i).None? then None else Some(|a| + RefEnd(b, i).value)
    ensures RefEnd(b, i).Some? ==> RefName(a + b, |a| + i) == RefName(b, i)
  {
    var c := a + b;
    assert forall k | 0 <= k < |b| :: c[|a| + k] == b[k];
    if i + 3 < |b| {
      forall k | |a| + i + 3 <= k < |a| + WordEnd(b, i + 3)
        ensures IsWord(c[k])
      {
        assert c[|a| + (k - |a|)] == b[k - |a|];
      }
      WordEndIs(c, |a| + i + 3, |a| + WordEnd(b, i + 3));
      if RefEnd(b, i).Some? {
        assert c[|a| + i + 2..|a| + RefEnd(b, i).value - 1] == b[i + 2..RefEnd(b, i).value - 1];
      }
    }
  }

  /** A text expands the same behind any other. */
  lemma {:induction false} ExpandedBehind(a: string, b: string, i: nat, env: map<string, string>)
    requires i <= |b|
    ensures Expanded(a + b, |a| + i, env) == Expanded(b, i, env)
    decreases |b| - i
  {
    if i < |b| {
      RefBehind(a, b, i);
      assert (a + b)[|a| + i] == b[i];
      ExpandedBehind(a, b, if RefEnd(b, i).None? then i + 1 else RefEnd(b, i).value, env);
    }
  }

  /** One result after the other; the first failure counts. */
  function Both(r: Result, q: Result): Result { if r.Unset? then r else Prepend(r.text, q) }

  /** A text that breaks off before a dollar sign expands on its own. */
  lemma {:induction false} ExpandedBefore(a: string, b: string, i: nat, env: map<string, string>)
    requires i <= |a| && b != "" && b[0] == '$'
    ensures Expanded(a + b, i, env) == Both(Expanded(a, i, env), Expanded(b, 0, env))
    decreases |a| - i
  {
    if i == |a| {
      ExpandedBehind(a, b, 0, env);
      PrependNothing(Expanded(b, 0, env));
    } else {
      RefBeforeDollar(a, b, i);
      assert (a + b)[i] == a[i];
      if RefEnd(a, i).None? {
        ExpandedBefore(a, b, i + 1, env);
        BothPrepends([a[i]], Expanded(a, i + 1, env), Expanded(b, 0, env));
      } else {
        var e := RefEnd(a, i).value;
        assert RefName(a + b, i) == RefName(a, i) by { assert (a + b)[i + 2..e - 1] == a[i + 2..e - 1]; }
        if IsSet(env, RefName(a, i)) {
          ExpandedBefore(a, b, e, env);
          BothPrepends(env[RefName(a, i)], Expanded(a, e, env), Expanded(b, 0, env));
        }
      }
    }
  }

  lemma BothPrepends(s: string, r: Result, q: Result)
    ensures Prepend(s, Both(r, q)) == Both(Prepend(s, r), q)
  {
    if r.Ok? { PrependTwice(s, r.text, q); }
  }

  /** Between any two texts a braced name is replaced by the variable's value, which stays as it is,
      while the texts expand each on its own; a variable that is unset or empty is the failure, unless
      the text before it has one. */
  lemma ReplacedInPlace(before: string, name: string, after: string, env: map<string, string>)
    requires IsName(name)
    ensures Expanded(before + Braced(name) + after, 0, env) ==
            Both(Expanded(before, 0, env),
                 if name in env && env[name] != "" then Prepend(env[name], Expanded(after, 0, env)) else Unset(name))
  {
    var ref := Braced(name) + after;
    assert before + Braced(name) + after == before + ref && ref[0] == '$';
    ExpandedBefore(before, ref, 0, env);
    assert ref[0..|name| + 3] == Braced(name);
    BracedIsRef(ref, 0, name);
    ExpandedBehind(Braced(name), after, 0, env);
  }
}
