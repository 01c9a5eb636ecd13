/** `generate_group_code` and the loop that draws codes until one is unused.
    The three server versions (PhotoGroupApp/routes/groups.py, app.py and
    routes/groups.py) are the same code; `random.choices` is an input: the
    eight positions it picks in `string.ascii_uppercase + string.digits`. */
module GroupCodes {

  const CodeLength := 8
  const AlphabetSize := 36

  predicate IsCodeChar(c: char) {
    ('A' <= c <= 'Z') || ('0' <= c <= '9')
  }

  /** An 8-character text over A-Z and 0-9. */
  predicate IsGroupCode(code: string) {
    |code| == CodeLength && forall i :: 0 <= i < |code| ==> IsCodeChar(code[i])
  }

  /** The character at position k of "ABC...XYZ0123456789". */
  function CodeChar(k: nat): (c: char)
    requires k < AlphabetSize
    ensures IsCodeChar(c)
  {
    if k < 26 then ('A' as int + k) as char else ('0' as int + (k - 26)) as char
  }

  function CodeCharIndex(c: char): (k: nat)
    requires IsCodeChar(c)
    ensures k < AlphabetSize && CodeChar(k) == c
  {
    if 'A' <= c <= 'Z' then c as int - 'A' as int else 26 + (c as int - '0' as int)
  }

  /** What `random.choices(characters, k=8)` can return: eight positions in
      the 36-character alphabet. */
  predicate ValidPicks(picks: seq<nat>) {
    |picks| == CodeLength && forall i :: 0 <= i < |picks| ==> picks[i] < AlphabetSize
  }

  function GenerateGroupCode(picks: seq<nat>): (code: string)
    requires ValidPicks(picks)
    ensures IsGroupCode(code)
    ensures forall i :: 0 <= i < CodeLength ==> code[i] == CodeChar(picks[i])
  {
    seq(CodeLength, i requires 0 <= i < CodeLength => CodeChar(picks[i]))
  }

  /** The positions that spell a given code. */
  function PicksFor(code: string): (picks: seq<nat>)
    requires IsGroupCode(code)
    ensures ValidPicks(picks)
  {
    seq(CodeLength, i requires 0 <= i < CodeLength => CodeCharIndex(code[i]))
  }

  /** Every 8-character code over A-Z and 0-9 can be drawn. */
  lemma EveryCodeCanBeDrawn(code: string)
    requires IsGroupCode(code)
    ensures GenerateGroupCode(PicksFor(code)) == code
  {
    var drawn := GenerateGroupCode(PicksFor(code));
    forall i | 0 <= i < CodeLength ensures drawn[i] == code[i] {
      assert PicksFor(code)[i] == CodeCharIndex(code[i]);
    }
  }

  /** The `while True` loop of `create_group`: draw a code, look it up among
      the existing group codes, stop at the first that is unused. `draws` are
      the successive outcomes of the random source; the source loops forever
      unless one of them is unused, so that is required. */
  method DrawUnusedCode(used: seq<string>, draws: seq<seq<nat>>) returns (code: string, tries: nat)
    requires forall i :: 0 <= i < |draws| ==> ValidPicks(draws[i])
    requires exists i :: 0 <= i < |draws| && GenerateGroupCode(draws[i]) !in used
    ensures tries < |draws| && code == GenerateGroupCode(draws[tries])
    ensures IsGroupCode(code) && code !in used
    ensures forall j :: 0 <= j < tries ==> GenerateGroupCode(draws[j]) in used
  {
    ghost var w :| 0 <= w < |draws| && GenerateGroupCode(draws[w]) !in used;
    tries := 0;
    while true
      invariant tries <= w
      invariant forall j :: 0 <= j < tries ==> GenerateGroupCode(draws[j]) in used
      decreases w - tries
    {
      code := GenerateGroupCode(draws[tries]);
      if code !in used {
        return;
      }
      tries := tries + 1;
    }
  }
}
