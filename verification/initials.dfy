/**
 * The avatar initials the header and the editor show
 * (client/src/components/Layout/Header.js and
 * client/src/components/Editor/DocumentEditor.js define the same function).
 */
module Initials {
  import opened Wrappers
  import opened Text

  /**
   * The first character of each word, in order; an empty word (from two
   * spaces in a row) contributes nothing, as `word[0]` is undefined and
   * joins as the empty string.
   */
  function Firsts(words: seq<string>): (r: string)
    ensures |r| <= |words|
  {
    if |words| == 0 then ""
    else (if words[0] == "" then "" else [words[0][0]]) + Firsts(words[1..])
  }

  /** `getInitials(name)`: the first two initials, upper-cased, or "U". */
  function GetInitials(name: Option<string>): string {
    if name.None? then "U"
    else
      var s := Upper(Firsts(Split(name.value, ' ')));
      var r := if |s| <= 2 then s else s[..2];
      if r == "" then "U" else r
  }

  /** One or two characters, none of them a lower-case letter; "U" for a missing name. */
  lemma InitialsShape(name: Option<string>)
    ensures 1 <= |GetInitials(name)| <= 2
    ensures forall i :: 0 <= i < |GetInitials(name)| ==> !('a' <= GetInitials(name)[i] <= 'z')
    ensures name.None? ==> GetInitials(name) == "U"
  {
  }

  /** Two words give their first letters, upper-cased. */
  lemma InitialsOfTwoWords(first: string, second: string)
    requires first != "" && second != "" && ' ' !in first && ' ' !in second
    ensures GetInitials(Some(first + " " + second)) == [UpperChar(first[0]), UpperChar(second[0])]
  {
    var parts := [first, second];
    assert Join(parts, ' ') == first + " " + second by {
      assert Join(parts[1..], ' ') == second;
    }
    SplitJoin(parts, ' ');
    assert Firsts(parts) == [first[0], second[0]] by {
      assert parts[1..][1..] == [];
    }
  }

  /** A name of spaces only (the empty name included) has no initials and shows "U". */
  lemma BlankNameShowsU(name: string)
    requires forall i :: 0 <= i < |name| ==> name[i] == ' '
    ensures GetInitials(Some(name)) == "U"
  {
    BlankWordsAreEmpty(name);
    NoFirstsOfEmptyWords(Split(name, ' '));
  }

  lemma {:induction false} BlankWordsAreEmpty(s: string)
    requires forall i :: 0 <= i < |s| ==> s[i] == ' '
    ensures forall i :: 0 <= i < |Split(s, ' ')| ==> Split(s, ' ')[i] == ""
    decreases |s|
  {
    if |s| > 0 {
      BlankWordsAreEmpty(s[1..]);
    }
  }

  lemma {:induction false} NoFirstsOfEmptyWords(words: seq<string>)
    requires forall i :: 0 <= i < |words| ==> words[i] == ""
    ensures Firsts(words) == ""
  {
    if |words| > 0 {
      NoFirstsOfEmptyWords(words[1..]);
    }
  }
}
