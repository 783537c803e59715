/** The functions of Go's strings package that the modelled code calls. */
module GoStrings {
  import opened Wrappers

  predicate HasPrefix(s: string, p: string) {
    p <= s
  }

  function TrimPrefix(s: string, p: string): string {
    if p <= s then s[|p|..] else s
  }

  predicate HasSuffix(s: string, p: string) {
    |p| <= |s| && s[|s| - |p|..] == p
  }

  function TrimSuffix(s: string, p: string): string {
    if HasSuffix(s, p) then s[..|s| - |p|] else s
  }

  function TrimLeft(s: string, cut: set<char>): string {
    if s != "" && s[0] in cut then TrimLeft(s[1..], cut) else s
  }

  function TrimRight(s: string, cut: set<char>): string {
    if s != "" && s[|s| - 1] in cut then TrimRight(s[..|s| - 1], cut) else s
  }

  /** strings.Trim: all leading and trailing characters of the cut set removed. */
  function Trim(s: string, cut: set<char>): string {
    TrimRight(TrimLeft(s, cut), cut)
  }

  /** The characters unicode.IsSpace accepts. */
  const SPACES: set<char> := {
    '\t', '\n', '\U{0B}', '\U{0C}', '\r', ' ', '\U{85}', '\U{A0}', '\U{1680}',
    '\U{2000}', '\U{2001}', '\U{2002}', '\U{2003}', '\U{2004}', '\U{2005}', '\U{2006}',
    '\U{2007}', '\U{2008}', '\U{2009}', '\U{200A}', '\U{2028}', '\U{2029}', '\U{202F}',
    '\U{205F}', '\U{3000}'}

  function TrimSpace(s: string): string {
    Trim(s, SPACES)
  }

  /** strings.Replace without a limit: non-overlapping occurrences, left to right. */
  function Replace(s: string, before: string, after: string): string
    requires before != ""
    decreases |s|
  {
    if s == "" then ""
    else if before <= s then after + Replace(s[|before|..], before, after)
    else [s[0]] + Replace(s[1..], before, after)
  }

  /** strings.Split on a one-character separator. */
  function Split(s: string, sep: char): (parts: seq<string>)
    ensures |parts| >= 1
  {
    if s == "" then [""]
    else
      var rest := Split(s[1..], sep);
      if s[0] == sep then [""] + rest else [[s[0]] + rest[0]] + rest[1..]
  }

  /** strings.SplitN(s, sep, 2) when sep occurs: the text before and after its first occurrence. */
  function Cut(s: string, sep: string): Option<(string, string)>
    requires sep != ""
  {
    if sep <= s then Some(("", s[|sep|..]))
    else if s == "" then None
    else
      match Cut(s[1..], sep)
      case None => None
      case Some((before, after)) => Some(([s[0]] + before, after))
  }

  /**
   unicode.ToLower on the characters whose lower case is an ASCII letter: A to Z, the dotted
   capital I and the Kelvin sign. Other characters are left alone.
   */
  function LowerChar(c: char): char {
    if 'A' <= c <= 'Z' then (c as int + 32) as char
    else if c == '\U{130}' then 'i'
    else if c == '\U{212A}' then 'k'
    else c
  }

  function ToLower(s: string): string {
    if s == "" then "" else [LowerChar(s[0])] + ToLower(s[1..])
  }

  lemma TrimNothing(s: string, cut: set<char>)
    requires s == "" || (s[0] !in cut && s[|s| - 1] !in cut)
    ensures Trim(s, cut) == s
  {
  }

  lemma {:induction false} TrimRightChars(s: string, tail: string, cut: set<char>)
    requires forall i :: 0 <= i < |tail| ==> tail[i] in cut
    ensures TrimRight(s + tail, cut) == TrimRight(s, cut)
  {
    if tail == "" {
      assert s + tail == s;
    } else {
      var tail' := tail[..|tail| - 1];
      assert (s + tail)[..|s + tail| - 1] == s + tail';
      TrimRightChars(s, tail', cut);
    }
  }
}
