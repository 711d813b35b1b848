/**
 * The pattern every `removeSuffixFromName` builds: `new RegExp(`${type}(s)?$`, 'i')`,
 * used with `String.prototype.replace` (first match only, replaced by nothing).
 */
module SuffixPattern {
  import opened Ascii
  import opened Wrappers

  /** Equal under the `i` flag's ASCII case folding */
  predicate SameIgnoringCase(a: string, b: string) {
    |a| == |b| && forall i :: 0 <= i < |a| ==> ToLower(a[i]) == ToLower(b[i])
  }

  predicate EndsWithIgnoringCase(name: string, suffix: string) {
    |suffix| <= |name| && SameIgnoringCase(name[|name| - |suffix|..], suffix)
  }

  /** The pattern matches `name` from position `p`: `word`, an optional `s` (either case), then the end. */
  predicate MatchesAt(name: string, word: string, p: nat)
    requires p <= |name|
  {
    && p + |word| <= |name|
    && SameIgnoringCase(name[p..p + |word|], word)
    && (p + |word| == |name| || (p + |word| + 1 == |name| && ToLower(name[p + |word|]) == 's'))
  }

  /** The regex engine's search: the leftmost position at or after `p` where the pattern matches. */
  function FirstMatch(name: string, word: string, p: nat): (r: Option<nat>)
    requires p <= |name|
    ensures r.Some? ==> p <= r.value <= |name| && MatchesAt(name, word, r.value)
    ensures r.Some? ==> forall q :: p <= q < r.value ==> !MatchesAt(name, word, q)
    ensures r.None? ==> forall q :: p <= q <= |name| ==> !MatchesAt(name, word, q)
    decreases |name| - p
  {
    if MatchesAt(name, word, p) then Some(p)
    else if p == |name| then None
    else FirstMatch(name, word, p + 1)
  }

  /** `name.replace(regex, '')`: a match always runs to the end, so everything from it is dropped. */
  function ReplaceSuffix(name: string, word: string): string
  {
    match FirstMatch(name, word, 0)
    case None => name
    case Some(p) => name[..p]
  }

  /** A match just before the last `|word| + 1` characters is a trailing `word + "s"`. */
  lemma MatchIsPlural(name: string, word: string, p: nat)
    requires p <= |name| && p + |word| + 1 == |name| && MatchesAt(name, word, p)
    ensures EndsWithIgnoringCase(name, word + "s")
  {
    var ws := word + "s";
    assert name[|name| - |ws|..] == name[p..];
    forall i | 0 <= i < |ws| ensures ToLower(name[p..][i]) == ToLower(ws[i]) {
      if i < |word| {
        assert name[p..][i] == name[p..p + |word|][i];
      }
    }
  }

  /** A trailing `word + "s"` is a match just before it. */
  lemma PluralIsMatch(name: string, word: string, p: nat)
    requires p <= |name| && p + |word| + 1 == |name| && EndsWithIgnoringCase(name, word + "s")
    ensures MatchesAt(name, word, p)
  {
    var ws := word + "s";
    assert name[p..] == name[|name| - |ws|..];
    forall i | 0 <= i < |word| ensures ToLower(name[p..p + |word|][i]) == ToLower(word[i]) {
      assert name[p..p + |word|][i] == name[p..][i];
      assert ws[i] == word[i];
    }
    assert name[p + |word|] == name[p..][|word|];
  }

  /** Only two positions can match: just before `word + "s"` and just before `word` at the end. */
  lemma MatchPositions(name: string, word: string, p: nat)
    requires p <= |name|
    ensures MatchesAt(name, word, p) <==>
      (p + |word| + 1 == |name| && EndsWithIgnoringCase(name, word + "s")) ||
      (p + |word| == |name| && EndsWithIgnoringCase(name, word))
  {
    if p + |word| + 1 == |name| {
      if MatchesAt(name, word, p) {
        MatchIsPlural(name, word, p);
      }
      if EndsWithIgnoringCase(name, word + "s") {
        PluralIsMatch(name, word, p);
      }
    }
  }

  /**
   * The strip rule: a trailing `type + "s"` (ignoring case) goes first, otherwise a trailing `type`,
   * otherwise nothing; the part before the removed suffix is untouched.
   */
  lemma {:induction false} ReplaceSuffixRule(name: string, word: string)
    ensures ReplaceSuffix(name, word) ==
      if EndsWithIgnoringCase(name, word + "s") then name[..|name| - |word| - 1]
      else if EndsWithIgnoringCase(name, word) then name[..|name| - |word|]
      else name
  {
    var m := FirstMatch(name, word, 0);
    if EndsWithIgnoringCase(name, word + "s") {
      var p := |name| - |word| - 1;
      MatchPositions(name, word, p);
      assert m.Some?;
      MatchPositions(name, word, m.value);
    } else if EndsWithIgnoringCase(name, word) {
      var p := |name| - |word|;
      MatchPositions(name, word, p);
      assert m.Some?;
      MatchPositions(name, word, m.value);
    } else if m.Some? {
      MatchPositions(name, word, m.value);
      assert false;
    }
  }
}
