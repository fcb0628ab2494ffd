// The few Python string operations the model relies on: whitespace class,
// str.strip(), str.split() with no separator, str.startswith() and the
// namespace part of an expanded '{uri}local' name.
module Strs {

  /**
   * Python's str.isspace() on one character, which str.split(), str.strip() and the regex
   * class \s of a str pattern all use: the ASCII controls tab to carriage return, the four
   * information separators, and the Unicode space and line/paragraph separators.
   */
  predicate IsSpace(c: char)
  {
    if c <= ' ' then c == ' ' || ('\t' <= c <= '\r') || '\U{001C}' <= c
    else if c < '\U{0085}' then false
    else c == '\U{0085}' || c == '\U{00A0}' || c == '\U{1680}' || ('\U{2000}' <= c <= '\U{200A}')
         || c == '\U{2028}' || c == '\U{2029}' || c == '\U{202F}' || c == '\U{205F}' || c == '\U{3000}'
  }

  predicate NoSpace(s: string)
  {
    forall i :: 0 <= i < |s| ==> !IsSpace(s[i])
  }

  predicate StartsWith(s: string, prefix: string)
  {
    |prefix| <= |s| && s[..|prefix|] == prefix
  }

  /** str.lstrip(): drops the leading whitespace. */
  function LStrip(s: string): (r: string)
    ensures |r| <= |s| && r == s[|s| - |r|..]
    ensures r == [] || !IsSpace(r[0])
    ensures forall i :: 0 <= i < |s| - |r| ==> IsSpace(s[i])
  {
    if s == [] || !IsSpace(s[0]) then s else LStrip(s[1..])
  }

  /** str.rstrip(): drops the trailing whitespace. */
  function RStrip(s: string): (r: string)
    ensures |r| <= |s| && r == s[..|r|]
    ensures r == [] || !IsSpace(r[|r| - 1])
    ensures forall i :: |r| <= i < |s| ==> IsSpace(s[i])
  {
    if s == [] || !IsSpace(s[|s| - 1]) then s else RStrip(s[..|s| - 1])
  }

  /** str.strip(). */
  function Strip(s: string): (r: string)
    ensures |r| <= |s|
    ensures r == [] || (!IsSpace(r[0]) && !IsSpace(r[|r| - 1]))
  {
    RStrip(LStrip(s))
  }

  /** The words of s, cur being the word read so far (str.split() when cur is empty). */
  function SplitFrom(s: string, cur: string): (r: seq<string>)
    requires NoSpace(cur)
    ensures forall k :: 0 <= k < |r| ==> |r[k]| > 0 && NoSpace(r[k])
  {
    if s == [] then (if cur == [] then [] else [cur])
    else if IsSpace(s[0]) then
      (if cur == [] then SplitFrom(s[1..], []) else [cur] + SplitFrom(s[1..], []))
    else SplitFrom(s[1..], cur + [s[0]])
  }

  /** str.split(): the maximal runs of non-whitespace characters, in order. */
  function Words(s: string): (r: seq<string>)
    ensures forall k :: 0 <= k < |r| ==> |r[k]| > 0 && NoSpace(r[k])
  {
    SplitFrom(s, [])
  }

  /** sep.join(ws). */
  function Join(ws: seq<string>, sep: string): string
  {
    if ws == [] then [] else if |ws| == 1 then ws[0] else ws[0] + sep + Join(ws[1..], sep)
  }

  lemma {:induction false} SplitFromNoSpace(s: string, cur: string)
    requires NoSpace(cur) && NoSpace(s)
    ensures SplitFrom(s, cur) == if cur + s == [] then [] else [cur + s]
    decreases |s|
  {
    if s != [] {
      SplitFromNoSpace(s[1..], cur + [s[0]]);
      assert cur + [s[0]] + s[1..] == cur + s;
    } else {
      assert cur + s == cur;
    }
  }

  /** A single token without whitespace splits to itself. */
  lemma WordsOfToken(s: string)
    requires NoSpace(s)
    ensures Words(s) == if s == [] then [] else [s]
  {
    SplitFromNoSpace(s, []);
    assert [] + s == s;
  }

  /** The text between a leading '{' and the first '}' of an expanded name, else ''. */
  function GetNamespace(name: string): (r: string)
    ensures r != [] ==> 1 + |r| < |name| && name[0] == '{' && name[1..1 + |r|] == r && name[1 + |r|] == '}'
    ensures forall i :: 0 <= i < |r| ==> r[i] != '}'
  {
    if |name| > 0 && name[0] == '{' then CloseBrace(name, 1) else []
  }

  function CloseBrace(name: string, i: nat): (r: string)
    requires 1 <= i <= |name|
    requires forall j :: 1 <= j < i ==> name[j] != '}'
    ensures r != [] ==> 1 + |r| < |name| && name[1..1 + |r|] == r && name[1 + |r|] == '}'
    ensures forall j :: 0 <= j < |r| ==> r[j] != '}'
    decreases |name| - i
  {
    if i == |name| then []
    else if name[i] == '}' then name[1..i]
    else CloseBrace(name, i + 1)
  }
}
