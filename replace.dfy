/**
 * `String.prototype.replace` with a string pattern, as ECMA-262 defines it:
 * the first occurrence of the pattern (found by StringIndexOf from position 0)
 * is replaced by the replacement template after GetSubstitution has expanded
 * its `$$`, `$&`, `` $` `` and `$'` references. With a string pattern there are
 * no capture groups, so every other `$` stands for itself.
 */
module Replace {
  import opened Base

  /** `pat` occurs in `s` at index `k`. */
  predicate OccursAt(s: string, pat: string, k: int)
  {
    0 <= k && k + |pat| <= |s| && s[k..k + |pat|] == pat
  }

  /** StringIndexOf(s, pat, from): the least index at or after `from` where `pat` occurs. */
  function IndexFrom(s: string, pat: string, from: nat): (r: Option<nat>)
    decreases |s| - from
    ensures r.Some? ==> from <= r.value && OccursAt(s, pat, r.value)
    ensures r.Some? ==> forall j :: from <= j < r.value ==> !OccursAt(s, pat, j)
    ensures r.None? ==> forall j :: from <= j ==> !OccursAt(s, pat, j)
  {
    if from + |pat| > |s| then None
    else if s[from..from + |pat|] == pat then Some(from)
    else IndexFrom(s, pat, from + 1)
  }

  /** The first occurrence of `pat` in `s`, if any; the empty pattern occurs at 0. */
  function IndexOf(s: string, pat: string): Option<nat>
  {
    IndexFrom(s, pat, 0)
  }

  /**
   * GetSubstitution for a string pattern: `matched` is the text found,
   * `before` and `after` the parts of the subject on either side of it.
   */
  function Expand(template: string, matched: string, before: string, after: string): (r: string)
    decreases |template|
    ensures '$' !in template ==> r == template
  {
    if |template| == 0 then ""
    else if template[0] == '$' && |template| >= 2 && template[1] == '$' then
      "$" + Expand(template[2..], matched, before, after)
    else if template[0] == '$' && |template| >= 2 && template[1] == '&' then
      matched + Expand(template[2..], matched, before, after)
    else if template[0] == '$' && |template| >= 2 && template[1] == '`' then
      before + Expand(template[2..], matched, before, after)
    else if template[0] == '$' && |template| >= 2 && template[1] == '\'' then
      after + Expand(template[2..], matched, before, after)
    else
      [template[0]] + Expand(template[1..], matched, before, after)
  }

  /** `s.replace(pat, rep)` with a string `pat`. */
  function ReplaceFirst(s: string, pat: string, rep: string): (r: string)
    ensures IndexOf(s, pat).None? ==> r == s
    ensures IndexOf(s, pat).Some? ==>
              var k, rest := IndexOf(s, pat).value, |s| - IndexOf(s, pat).value - |pat|;
              k + rest <= |r| && r[..k] == s[..k] && r[|r| - rest..] == s[k + |pat|..]
  {
    match IndexOf(s, pat)
    case None => s
    case Some(k) =>
      s[..k] + Expand(rep, pat, s[..k], s[k + |pat|..]) + s[k + |pat|..]
  }

  /** Without any occurrence of the pattern, the subject is returned unchanged. */
  lemma ReplaceAbsent(s: string, pat: string, rep: string)
    requires forall j :: !OccursAt(s, pat, j)
    ensures ReplaceFirst(s, pat, rep) == s
  {
  }

  /**
   * With a `$`-free replacement, exactly the first occurrence is replaced:
   * everything before it and everything after it is kept.
   */
  lemma ReplaceFirstOccurrence(s: string, pat: string, rep: string, k: nat)
    requires OccursAt(s, pat, k)
    requires forall j :: 0 <= j < k ==> !OccursAt(s, pat, j)
    requires '$' !in rep
    ensures ReplaceFirst(s, pat, rep) == s[..k] + rep + s[k + |pat|..]
  {
    assert IndexOf(s, pat) == Some(k);
  }

  /**
   * With a `$`-free replacement the subject comes back unchanged exactly when
   * the pattern does not occur or the replacement equals the pattern.
   */
  lemma ReplaceUnchangedIff(s: string, pat: string, rep: string)
    requires '$' !in rep
    ensures ReplaceFirst(s, pat, rep) == s <==>
            (forall j :: !OccursAt(s, pat, j)) || rep == pat
  {
    match IndexOf(s, pat)
    case None =>
    case Some(k) =>
        var r := s[..k] + rep + s[k + |pat|..];
      assert ReplaceFirst(s, pat, rep) == r;
      assert s == s[..k] + pat + s[k + |pat|..];
      if r == s {
        assert |rep| == |pat|;
        assert rep == r[k..k + |rep|];
      }
  }

  /** "foo bar foo" with "foo" replaced by "baz" gives "baz bar foo". */
  lemma FirstOccurrenceExample()
    ensures ReplaceFirst("foo bar foo", "foo", "baz") == "baz bar foo"
  {
    var s: string := "foo bar foo";
    assert s[0..3] == "foo";
    FirstAt(s, "foo", 0);
    ReplaceFirstOccurrence(s, "foo", "baz", 0);
    assert s[3..] == " bar foo";
  }

  /**
   * The `$` references are expanded even for a string pattern: "$$" becomes one
   * "$", and "$&" the matched text.
   */
  lemma DollarExample()
    ensures ReplaceFirst("cost", "cost", "$$5") == "$5"
    ensures ReplaceFirst("ab", "a", "[$&]") == "[a]b"
  {
    assert IndexOf("cost", "cost") == Some(0);
    assert IndexOf("ab", "a") == Some(0);
  }

  /** An occurrence at `k` with none before it is the one StringIndexOf finds. */
  lemma FirstAt(s: string, pat: string, k: nat)
    requires OccursAt(s, pat, k)
    requires forall j :: 0 <= j < k ==> !OccursAt(s, pat, j)
    ensures IndexOf(s, pat) == Some(k)
  {
  }

  /** "$`" expands to the text before the match. */
  lemma BeforeReferenceExample()
    ensures ReplaceFirst(['a', 'X', 'a'], ['X'], ['$', '`']) == ['a', 'a', 'a']
  {
    var s: string := ['a', 'X', 'a'];
    assert s[0..1][0] == 'a' && s[1..2] == ['X'];
    FirstAt(s, ['X'], 1);
    assert s[..1] == ['a'] && s[2..] == ['a'];
    assert Expand(['$', '`'], ['X'], ['a'], ['a']) == ['a'];
  }

  /** "$'" expands to the text after the match. */
  lemma AfterReferenceExample()
    ensures ReplaceFirst(['a', 'X', 'b'], ['X'], ['$', '\'']) == ['a', 'b', 'b']
  {
    var s: string := ['a', 'X', 'b'];
    assert s[0..1][0] == 'a' && s[1..2] == ['X'];
    FirstAt(s, ['X'], 1);
    assert s[..1] == ['a'] && s[2..] == ['b'];
    assert Expand(['$', '\''], ['X'], ['a'], ['b']) == ['b'];
  }

  /** The template "$&" expands to exactly the matched text. */
  lemma ExpandMatched(matched: string, before: string, after: string)
    ensures Expand("$&", matched, before, after) == matched
  {
    var t: string := "$&";
    assert |t| == 2 && t[0] == '$' && t[1] == '&' && t[2..] == [];
    assert Expand(t[2..], matched, before, after) == [];
  }

  /**
   * A replacement of "$&" puts back the text it matched, so the subject comes
   * back unchanged even when the pattern occurs in it.
   */
  lemma MatchedReferenceUnchanged(s: string, pat: string, k: nat)
    requires OccursAt(s, pat, k)
    ensures ReplaceFirst(s, pat, "$&") == s
  {
    var i := IndexOf(s, pat).value;
    var before, after := s[..i], s[i + |pat|..];
    ExpandMatched(pat, before, after);
    assert s == before + pat + after;
  }
}
