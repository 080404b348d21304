/**
 * The crime-report token: `re.search(r"犯罪種類\[(.*?)\]", text).group(1)` (main.py:95, main.py:100).
 * `re.search` takes the leftmost position where the pattern matches; there the
 * lazy `(.*?)` stops at the first `]`, and `.` never crosses a newline.
 */
module Extract {
  import opened Wrappers
  import opened Strings

  /** The literal part of the pattern in front of the group: the label and `[`. */
  const Marker: string := "犯罪種類["

  /** Where a match lies: the marker starts at `start`, the closing `]` is at `close`. */
  datatype Span = Span(start: nat, close: nat)

  /** `text[j]` is the `]` that ends the lazy group begun at `k`: no `]` and no newline comes between. */
  ghost predicate Closes(text: string, k: int, j: int) {
    0 <= k <= j < |text| && text[j] == ']'
    && forall m :: k <= m < j ==> text[m] != ']' && text[m] != '\n'
  }

  /** The pattern matches with the marker at `i` and the closing `]` at `j`. */
  ghost predicate MatchesAt(text: string, i: int, j: int) {
    OccursAt(Marker, text, i) && Closes(text, i + |Marker|, j)
  }

  /** The pattern matches at some position `i`. */
  ghost predicate MatchStartsAt(text: string, i: int) {
    exists j :: MatchesAt(text, i, j)
  }

  /** A lazy group has one end only. */
  lemma ClosesUnique(text: string, k: int, j1: int, j2: int)
    requires Closes(text, k, j1) && Closes(text, k, j2)
    ensures j1 == j2
  {
  }

  /** The end of the lazy group `(.*?)\]` begun at `k`, if it can end at all. */
  function CloseFrom(text: string, k: nat): (r: Option<nat>)
    requires k <= |text|
    ensures r.Some? ==> Closes(text, k, r.value)
    ensures r.None? ==> forall j :: !Closes(text, k, j)
    decreases |text| - k
  {
    if k == |text| || text[k] == '\n' then None
    else if text[k] == ']' then Some(k)
    else
      var r := CloseFrom(text, k + 1);
      assert forall j :: Closes(text, k, j) ==> Closes(text, k + 1, j);
      r
  }

  /** `re.search` from position `i`: the leftmost match at or after `i`. */
  function SearchFrom(text: string, i: nat): (r: Option<Span>)
    requires i <= |text|
    ensures r.Some? ==> i <= r.value.start && MatchesAt(text, r.value.start, r.value.close)
    ensures r.Some? ==> forall i' :: i <= i' < r.value.start ==> !MatchStartsAt(text, i')
    ensures r.None? ==> forall i', j :: i <= i' ==> !MatchesAt(text, i', j)
    decreases |text| - i
  {
    if i + |Marker| > |text| then None
    else if text[i..i + |Marker|] == Marker then
      match CloseFrom(text, i + |Marker|)
      case Some(j) => Some(Span(i, j))
      case None => SearchFrom(text, i + 1)
    else SearchFrom(text, i + 1)
  }

  /** `crime_match.group(1)`, or None when `crime_match` is None. */
  function CrimeToken(text: string): Option<string> {
    match SearchFrom(text, 0)
    case None => None
    case Some(sp) => Some(text[sp.start + |Marker|..sp.close])
  }

  /**
   * A token is found exactly when the pattern matches somewhere; the token is then
   * the text between the marker at the leftmost matching position and the first `]`
   * after it.
   */
  lemma CrimeTokenSpec(text: string)
    ensures CrimeToken(text).None? <==> forall i, j :: !MatchesAt(text, i, j)
    ensures CrimeToken(text).Some? ==>
      exists i, j :: MatchesAt(text, i, j) && CrimeToken(text).value == text[i + |Marker|..j]
        && forall i' :: 0 <= i' < i ==> !MatchStartsAt(text, i')
  {
    match SearchFrom(text, 0)
    case None =>
    case Some(sp) =>
      assert MatchesAt(text, sp.start, sp.close);
  }

  /** The token contains neither `]` nor a newline, and it follows the marker in the text. */
  lemma {:induction false} CrimeTokenShape(text: string)
    requires CrimeToken(text).Some?
    ensures var tok := CrimeToken(text).value;
      (forall m :: 0 <= m < |tok| ==> tok[m] != ']' && tok[m] != '\n')
      && Occurs(Marker + tok + "]", text)
  {
    var sp := SearchFrom(text, 0).value;
    var tok := CrimeToken(text).value;
    var i, j := sp.start, sp.close;
    assert MatchesAt(text, i, j);
    assert tok == text[i + |Marker|..j];
    forall m | 0 <= m < |tok| ensures tok[m] != ']' && tok[m] != '\n' {
      assert tok[m] == text[i + |Marker| + m];
    }
    assert text[i..j + 1] == text[i..i + |Marker|] + text[i + |Marker|..j] + text[j..j + 1];
    assert OccursAt(Marker + tok + "]", text, i);
  }

  /** A text in which the marker does not occur carries no token. */
  lemma NoMarkerNoToken(text: string)
    requires !Occurs(Marker, text)
    ensures CrimeToken(text) == None
  {
    match SearchFrom(text, 0)
    case None =>
    case Some(sp) =>
      assert false;
  }
}
