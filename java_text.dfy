/** The pieces of java.lang.String and java.lang.Character that the game relies on:
    lower-casing and trimming. Lower-casing is modelled on ASCII letters only; no other
    character lower-cases to one of the letters the game compares against. */
module JavaText {

  /** Character.toLowerCase on ASCII letters. */
  function ToLower(c: char): char
  {
    if 'A' <= c <= 'Z' then (c as int - 'A' as int + 'a' as int) as char else c
  }

  /** String.toLowerCase, character by character. */
  function LowerString(s: string): (r: string)
    ensures |r| == |s|
    ensures forall i :: 0 <= i < |s| ==> r[i] == ToLower(s[i])
  {
    if s == [] then [] else [ToLower(s[0])] + LowerString(s[1..])
  }

  /** String.trim drops leading and trailing characters whose code is at most that of a space. */
  function TrimStart(s: string): string
  {
    if |s| > 0 && s[0] <= ' ' then TrimStart(s[1..]) else s
  }

  function TrimEnd(s: string): string
  {
    if |s| > 0 && s[|s| - 1] <= ' ' then TrimEnd(s[..|s| - 1]) else s
  }

  function Trim(s: string): string
  {
    TrimEnd(TrimStart(s))
  }

  /** The string has a character that String.trim keeps. */
  predicate HasVisible(s: string)
  {
    exists i :: 0 <= i < |s| && s[i] > ' '
  }

  /** Index i is the first character that String.trim keeps. */
  predicate FirstVisibleAt(s: string, i: int)
  {
    0 <= i < |s| && s[i] > ' ' && forall j :: 0 <= j < i ==> s[j] <= ' '
  }

  /** The index of the first character that String.trim keeps. */
  function FirstVisible(s: string): (i: nat)
    requires HasVisible(s)
    ensures FirstVisibleAt(s, i)
  {
    if s[0] > ' ' then 0
    else
      assert HasVisible(s[1..]) by {
        var k :| 0 <= k < |s| && s[k] > ' ';
        assert s[1..][k - 1] == s[k];
      }
      1 + FirstVisible(s[1..])
  }

  lemma {:induction false} TrimStartFirst(s: string, i: int)
    requires FirstVisibleAt(s, i)
    ensures TrimStart(s) == s[i..]
    decreases i
  {
    if i > 0 {
      assert s[0] <= ' ';
      assert FirstVisibleAt(s[1..], i - 1);
      TrimStartFirst(s[1..], i - 1);
      assert s[1..][i - 1..] == s[i..];
    }
  }

  lemma {:induction false} TrimEndKeepsVisibleHead(s: string)
    requires |s| > 0 && s[0] > ' '
    ensures |TrimEnd(s)| > 0 && TrimEnd(s)[0] == s[0]
    decreases |s|
  {
    if s[|s| - 1] <= ' ' {
      assert |s| > 1;
      TrimEndKeepsVisibleHead(s[..|s| - 1]);
    }
  }

  /** The first character of a trimmed string is the first visible character of the original. */
  lemma TrimHead(s: string, i: int)
    requires FirstVisibleAt(s, i)
    ensures |Trim(s)| > 0 && Trim(s)[0] == s[i]
  {
    TrimStartFirst(s, i);
    TrimEndKeepsVisibleHead(s[i..]);
  }
}
