/** `match_crime_name` (main.py:40-47): resolve a crime token to its canonical name. */
module Matcher {
  import opened Wrappers
  import opened Strings
  import opened Kana
  import opened Config

  /** Some alias of `d`, normalised, is a substring of the normalised token `hira`. */
  ghost predicate Hits(d: CrimeDef, hira: string) {
    exists a :: a in d.aliases && Occurs(Normalize(a), hira)
  }

  /** Entry `k` of `defs` is the first entry, in declaration order, that `hira` hits. */
  ghost predicate FirstHit(defs: seq<CrimeDef>, hira: string, k: int) {
    0 <= k < |defs| && Hits(defs[k], hira)
    && forall l :: 0 <= l < k ==> !Hits(defs[l], hira)
  }

  /** The inner loop over one entry's aliases (main.py:43-46). */
  function AnyAliasIn(aliases: seq<string>, hira: string): (b: bool)
    ensures b <==> exists a :: a in aliases && Occurs(Normalize(a), hira)
  {
    if aliases == [] then false
    else if Contains(hira, Normalize(aliases[0])) then true
    else
      var b := AnyAliasIn(aliases[1..], hira);
      assert forall a :: a in aliases <==> a == aliases[0] || a in aliases[1..];
      b
  }

  /** The outer loop over `CRIME_ALIASES` with its early return (main.py:42-47). */
  function MatchIn(defs: seq<CrimeDef>, hira: string): (r: Option<string>)
    ensures r.None? <==> forall k :: 0 <= k < |defs| ==> !Hits(defs[k], hira)
    ensures r.Some? ==> exists k :: FirstHit(defs, hira, k) && defs[k].canonical == r.value
    ensures forall k :: FirstHit(defs, hira, k) ==> r == Some(defs[k].canonical)
  {
    if defs == [] then None
    else if AnyAliasIn(defs[0].aliases, hira) then
      assert FirstHit(defs, hira, 0);
      Some(defs[0].canonical)
    else
      var r := MatchIn(defs[1..], hira);
      FirstHitShift(defs, hira);
      r
  }

  /** When the first entry is not hit, the first hit of `defs` is that of its tail. */
  lemma FirstHitShift(defs: seq<CrimeDef>, hira: string)
    requires defs != [] && !Hits(defs[0], hira)
    ensures forall k :: 0 < k < |defs| ==> (FirstHit(defs, hira, k) <==> FirstHit(defs[1..], hira, k - 1))
    ensures (forall k :: 0 <= k < |defs| ==> !Hits(defs[k], hira)) <==> (forall k :: 0 <= k < |defs[1..]| ==> !Hits(defs[1..][k], hira))
  {
    assert forall k :: 0 < k < |defs| ==> defs[1..][k - 1] == defs[k];
  }

  /** `match_crime_name(text)`: normalise the token, then search `CRIME_ALIASES`. */
  function MatchCrimeName(text: string): (r: Option<string>)
    ensures r.Some? ==> IsCanonical(r.value)
  {
    MatchIn(CrimeAliases, Normalize(text))
  }

  /**
   * None exactly when no normalised alias is a substring of the normalised token;
   * otherwise the canonical name of the first entry, in declaration order, with a
   * matching alias.
   */
  lemma MatchCrimeNameSpec(text: string)
    ensures MatchCrimeName(text).None? <==>
      forall k, a :: 0 <= k < |CrimeAliases| && a in CrimeAliases[k].aliases ==>
        !Occurs(Normalize(a), Normalize(text))
    ensures forall k :: FirstHit(CrimeAliases, Normalize(text), k) ==>
      MatchCrimeName(text) == Some(CrimeAliases[k].canonical)
    ensures MatchCrimeName(text).Some? ==>
      exists k :: FirstHit(CrimeAliases, Normalize(text), k) && CrimeAliases[k].canonical == MatchCrimeName(text).value
  {
  }

  /** Normalising the token first changes nothing: katakana and hiragana spellings resolve alike. */
  lemma MatchCrimeNameNormalized(text: string)
    ensures MatchCrimeName(Normalize(text)) == MatchCrimeName(text)
  {
    NormalizeIdempotent(text);
  }

  /** Two tokens with the same hiragana form resolve to the same crime. */
  lemma MatchCrimeNameScriptInvariant(a: string, b: string)
    requires Normalize(a) == Normalize(b)
    ensures MatchCrimeName(a) == MatchCrimeName(b)
  {
  }

  /**
   * A token containing an alias of entry `k`, in either script, resolves to the
   * canonical name of entry `k` unless an earlier entry is hit as well.
   */
  lemma {:induction false} AliasInTokenResolves(token: string, k: int, alias: string)
    requires 0 <= k < |CrimeAliases| && alias in CrimeAliases[k].aliases
    requires Occurs(alias, token) || Occurs(Normalize(alias), token)
    requires forall l :: 0 <= l < k ==> !Hits(CrimeAliases[l], Normalize(token))
    ensures MatchCrimeName(token) == Some(CrimeAliases[k].canonical)
  {
    if Occurs(alias, token) {
      NormalizeKeepsOccurrence(alias, token);
    } else {
      NormalizeKeepsOccurrence(Normalize(alias), token);
      NormalizeIdempotent(alias);
    }
    assert Hits(CrimeAliases[k], Normalize(token));
    assert FirstHit(CrimeAliases, Normalize(token), k);
  }

  /** Since every alias is non-empty, the empty token resolves to no crime. */
  lemma EmptyTokenNoCrime()
    ensures MatchCrimeName("") == None
  {
    AliasesNonEmpty();
    MatchCrimeNameSpec("");
    forall k, a | 0 <= k < |CrimeAliases| && a in CrimeAliases[k].aliases
      ensures !Occurs(Normalize(a), Normalize(""))
    {
      assert |Normalize(a)| == |a| > 0;
    }
  }
}
