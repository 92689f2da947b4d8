/** Searching and ordering of character sequences, shared by the other modules. */
module Text {

  /** The first index at or after `from` where `c` stands, or `|s|` when there is none. */
  function Find(s: string, c: char, from: nat): (i: nat)
    requires from <= |s|
    ensures from <= i <= |s|
    decreases |s| - from
  {
    if from == |s| || s[from] == c then from else Find(s, c, from + 1)
  }

  /** What makes an index the first one. */
  ghost predicate IsFirst(s: string, c: char, from: nat, i: nat)
    requires from <= |s|
  {
    from <= i <= |s| && (forall j :: from <= j < i ==> s[j] != c) && (i < |s| ==> s[i] == c)
  }

  /** `Find` returns the first index, and there is only one. */
  lemma {:induction false} FindIsFirst(s: string, c: char, from: nat)
    requires from <= |s|
    ensures IsFirst(s, c, from, Find(s, c, from))
    ensures forall i :: IsFirst(s, c, from, i) ==> i == Find(s, c, from)
    decreases |s| - from
  {
    if from < |s| && s[from] != c {
      FindIsFirst(s, c, from + 1);
    }
  }

  lemma FindIsUnique(s: string, c: char, from: nat, i: nat)
    requires from <= |s| && IsFirst(s, c, from, i)
    ensures Find(s, c, from) == i
  {
    FindIsFirst(s, c, from);
  }

  function UpperChar(c: char): char {
    if 'a' <= c <= 'z' then c - 'a' + 'A' else c
  }

  /** The text in capital letters (ASCII). */
  function Upper(s: string): (r: string)
    ensures |r| == |s| && forall i :: 0 <= i < |s| ==> r[i] == UpperChar(s[i])
  {
    seq(|s|, i requires 0 <= i < |s| => UpperChar(s[i]))
  }

  predicate IsSpace(c: char) {
    c == ' ' || c == '\t' || c == '\n' || c == '\r'
  }

  predicate Blank(s: string) {
    forall i :: 0 <= i < |s| ==> IsSpace(s[i])
  }

  /** The text without the blanks around it. */
  function Trim(s: string): string {
    if s == "" then ""
    else if IsSpace(s[0]) then Trim(s[1..])
    else if IsSpace(s[|s| - 1]) then Trim(s[..|s| - 1])
    else s
  }
}
