/**
 * XML Schema regular expressions (regex.py): a character group is expanded into the code
 * points it denotes (parse_character_group), a set of code points is compressed back into a
 * character group (generate_character_group), code-point sets and regex character groups are
 * kept in UnicodeSubset and XsdRegexCharGroup objects, and an XML regex is translated into a
 * Python one (get_python_regex).
 */
module Regex {
  import opened Wrappers

  /** sys.maxunicode. */
  const MAX_UNICODE: int := 0x10FFFF

  type CodePoint = c: int | 0 <= c <= MAX_UNICODE

  /** The metacharacters |.^?*+{}() that stand for themselves inside a group. */
  predicate IsMeta(c: char)
  {
    c == '|' || c == '.' || c == '^' || c == '?' || c == '*' || c == '+' ||
    c == '{' || c == '}' || c == '(' || c == ')'
  }

  predicate IsBracket(c: char)
  {
    c == '[' || c == ']'
  }

  /** The characters -|.^?*+{}()[] a range end may escape, and generate_character_group escapes. */
  predicate IsEscaped(c: char)
  {
    c == '-' || IsMeta(c) || IsBracket(c)
  }

  datatype RegexError =
    | BadCharacter(c: char, pos: nat)
    | BadRange(first: char, last: char, pos: nat)
    | OutOfRange(cp: int)
    | InvalidReference(ref: string)
    | MissingKey(key: string)
    | TruncatedEscape(pos: nat)
    | NotAClass(pos: nat)
    | EmptyClass(pos: nat)
    | UnterminatedClass(pos: nat)
    | IndexOutOfRange

  function Ord(c: char): CodePoint
  {
    c as int
  }

  /** The code points lo, lo + 1, ..., hi - 1. */
  function Span(lo: int, hi: int): (r: seq<int>)
    ensures |r| == if lo < hi then hi - lo else 0
    ensures forall k :: 0 <= k < |r| ==> r[k] == lo + k
    decreases hi - lo
  {
    if lo >= hi then [] else [lo] + Span(lo + 1, hi)
  }

  /** The code points lo, lo + 1, ..., hi - 1 that a character range yields. */
  function CodeSpan(lo: int, hi: int): (r: seq<CodePoint>)
    requires 0 <= lo && hi <= MAX_UNICODE + 1
    ensures |r| == if lo < hi then hi - lo else 0
    ensures forall k :: 0 <= k < |r| ==> r[k] == lo + k
    decreases hi - lo
  {
    if lo >= hi then [] else [lo as CodePoint] + CodeSpan(lo + 1, hi)
  }

  // ---- parse_character_group ----

  /**
   * One turn of the loop of parse_character_group at index i: what it yields, where the next
   * turn starts (a range consumes its end, and the escape of its end), the escaped flag, the
   * last character assigned to `char`, and the error it raises.
   */
  datatype Turn = Turn(yielded: seq<CodePoint>, next: nat, escaped: bool, last: char, error: Option<RegexError>)

  function TurnAt(s: string, i: nat, escaped: bool, last: char): (t: Turn)
    requires i < |s|
    ensures i < t.next <= |s|
  {
    if i == 0 then
      var c := s[0];
      if c == '\\' then Turn([], 1, true, c, None)
      else if IsBracket(c) && |s| > 1 then Turn([], 1, escaped, c, Some(BadCharacter(c, 0)))
      else Turn([Ord(c)], 1, escaped, c, None)
    else if s[i] == '-' then
      if escaped || i == |s| - 1 then Turn([Ord('-')], i + 1, false, '-', None)
      else
        var j := if s[i + 1] == '\\' && i + 1 < |s| - 1 && IsEscaped(s[i + 2]) then i + 2 else i + 1;
        var end := s[j];
        if Ord(last) > Ord(end) then Turn([], j + 1, escaped, last, Some(BadRange(last, end, j - 2)))
        else
          Turn(CodeSpan(Ord(last) + 1, Ord(end) + 1), j + 1, escaped, last, None)
    else if IsMeta(s[i]) then Turn([Ord(s[i])], i + 1, false, s[i], None)
    else if IsBracket(s[i]) then
      if !escaped && |s| > 1 then Turn([], i + 1, escaped, last, Some(BadCharacter(s[i], i)))
      else Turn([Ord(s[i])], i + 1, false, s[i], None)
    else if s[i] == '\\' then
      if escaped then Turn([Ord('\\')], i + 1, false, '\\', None)
      else Turn([], i + 1, true, last, None)
    else if escaped then Turn([Ord('\\'), Ord(s[i])], i + 1, false, s[i], None)
    else Turn([Ord(s[i])], i + 1, false, s[i], None)
  }

  /** The code points a group yields, and the error that ends it. */
  datatype GroupParse = GroupParse(chars: seq<CodePoint>, error: Option<RegexError>)

  function Then(ys: seq<CodePoint>, p: GroupParse): GroupParse
  {
    GroupParse(ys + p.chars, p.error)
  }

  /** What parse_character_group yields from index i on; a dangling escape yields a backslash. */
  function ParseFrom(s: string, i: nat, escaped: bool, last: char): GroupParse
    requires i <= |s|
    decreases |s| - i
  {
    if i == |s| then GroupParse(if escaped then [Ord('\\')] else [], None)
    else
      var t := TurnAt(s, i, escaped, last);
      if t.error.Some? then GroupParse(t.yielded, t.error)
      else Then(t.yielded, ParseFrom(s, t.next, t.escaped, t.last))
  }

  function ParseGroup(s: string): GroupParse
  {
    ParseFrom(s, 0, false, ' ')
  }
  lemma ThenAssoc(xs: seq<CodePoint>, ys: seq<CodePoint>, p: GroupParse)
    ensures Then(xs, Then(ys, p)) == Then(xs + ys, p)
  {
    assert xs + (ys + p.chars) == (xs + ys) + p.chars;
  }

  /** The code points lo .. hi, yielded one by one by the range loop. */
  method RangeFrom(lo: int, hi: CodePoint) returns (ys: seq<CodePoint>)
    requires 0 <= lo <= hi + 1
    ensures ys == CodeSpan(lo, hi + 1)
  {
    ys := [];
    var cp := lo;
    while cp <= hi
      invariant lo <= cp <= hi + 1
      invariant |ys| == cp - lo
      invariant forall k :: 0 <= k < |ys| ==> ys[k] == lo + k
    {
      ys := ys + [cp];
      cp := cp + 1;
    }
  }

  /** One turn of the loop of parse_character_group, as TurnAt describes it. */
  method TurnStep(s: string, i: nat, escaped: bool, last: char) returns (t: Turn)
    requires i < |s|
    ensures t == TurnAt(s, i, escaped, last)
  {
    var ys: seq<CodePoint> := [];
    var next, esc, lst, error := i + 1, escaped, last, None;
    if i == 0 {
      lst := s[0];
      if lst == '\\' {
        esc := true;
      } else if IsBracket(lst) && |s| > 1 {
        error := Some(BadCharacter(lst, 0));
      } else {
        ys := [Ord(lst)];
      }
    } else if s[i] == '-' {
      if escaped || i == |s| - 1 {
        lst := s[i];
        ys := [Ord(lst)];
        esc := false;
      } else {
        var j := i + 1;
        var endChar := s[j];
        if endChar == '\\' && j < |s| - 1 && IsEscaped(s[j + 1]) {
          j := j + 1;
          endChar := s[j];
        }
        if Ord(last) > Ord(endChar) {
          error := Some(BadRange(last, endChar, j - 2));
        } else {
          ys := RangeFrom(Ord(last) + 1, Ord(endChar));
        }
        next := j + 1;
      }
    } else if IsMeta(s[i]) {
      lst := s[i];
      ys := [Ord(lst)];
      esc := false;
    } else if IsBracket(s[i]) {
      if !escaped && |s| > 1 {
        error := Some(BadCharacter(s[i], i));
      } else {
        lst := s[i];
        ys := [Ord(lst)];
        esc := false;
      }
    } else if s[i] == '\\' {
      if escaped {
        lst := '\\';
        ys := [Ord(lst)];
        esc := false;
      } else {
        esc := true;
      }
    } else {
      if escaped {
        esc := false;
        ys := [Ord('\\')];
      }
      lst := s[i];
      ys := ys + [Ord(lst)];
    }
    t := Turn(ys, next, esc, lst, error);
  }

  /**
   * parse_character_group, with the generator's output collected: the code points yielded
   * before the error (if any) that ends the group.
   */
  method ParseCharacterGroup(s: string) returns (chars: seq<CodePoint>, error: Option<RegexError>)
    ensures GroupParse(chars, error) == ParseGroup(s)
  {
    var escaped := false;
    var last := ' ';
    chars, error := [], None;
    var i := 0;
    while i < |s| && error.None?
      invariant i <= |s|
      invariant error.None? ==> Then(chars, ParseFrom(s, i, escaped, last)) == ParseGroup(s)
      invariant error.Some? ==> GroupParse(chars, error) == ParseGroup(s)
      decreases |s| - i, if error.None? then 1 else 0
    {
      var t := TurnStep(s, i, escaped, last);
      if t.error.None? {
        ThenAssoc(chars, t.yielded, ParseFrom(s, t.next, t.escaped, t.last));
      }
      chars, i, escaped, last, error := chars + t.yielded, t.next, t.escaped, t.last, t.error;
    }
    if error.None? && escaped {
      chars := chars + [Ord('\\')];
    }
  }

  /** x-y yields every code point from x to y, and a descending range is an error. */
  lemma RangeGroup(x: char, y: char)
    requires x != '\\' && !IsBracket(x)
    ensures Ord(x) <= Ord(y) ==> ParseGroup([x, '-', y]).chars == Span(Ord(x), Ord(y) + 1)
    ensures Ord(x) <= Ord(y) ==> ParseGroup([x, '-', y]).error.None?
    ensures Ord(x) > Ord(y) ==> ParseGroup([x, '-', y]) == GroupParse([Ord(x)], Some(BadRange(x, y, 0)))
  {
    var s := [x, '-', y];
    assert TurnAt(s, 0, false, ' ') == Turn([Ord(x)], 1, false, x, None);
    if Ord(x) <= Ord(y) {
      assert TurnAt(s, 1, false, x) == Turn(CodeSpan(Ord(x) + 1, Ord(y) + 1), 3, false, x, None);
      assert ParseFrom(s, 3, false, x) == GroupParse([], None);
      assert ParseFrom(s, 1, false, x) == GroupParse(CodeSpan(Ord(x) + 1, Ord(y) + 1) + [], None);
      assert CodeSpan(Ord(x) + 1, Ord(y) + 1) == Span(Ord(x) + 1, Ord(y) + 1);
      assert Span(Ord(x), Ord(y) + 1) == [Ord(x)] + Span(Ord(x) + 1, Ord(y) + 1);
    } else {
      assert TurnAt(s, 1, false, x) == Turn([], 3, false, x, Some(BadRange(x, y, 0)));
      assert ParseFrom(s, 1, false, x) == GroupParse([], Some(BadRange(x, y, 0)));
      assert [Ord(x)] + [] == [Ord(x)];
    }
  }

  /** A hyphen at the end of a group, or after an escape, stands for itself. */
  lemma LiteralHyphen(s: string, i: nat, escaped: bool, last: char)
    requires 0 < i < |s| && s[i] == '-' && (escaped || i == |s| - 1)
    ensures ParseFrom(s, i, escaped, last) == Then([Ord('-')], ParseFrom(s, i + 1, false, '-'))
  {
    assert TurnAt(s, i, escaped, last) == Turn([Ord('-')], i + 1, false, '-', None);
  }

  /** An unescaped bracket in a group of more than one character ends it with an error. */
  lemma BracketRejected(s: string, i: nat, last: char)
    requires i < |s| && 1 < |s| && IsBracket(s[i])
    ensures ParseFrom(s, i, false, last) == GroupParse([], Some(BadCharacter(s[i], i)))
  {
    assert TurnAt(s, i, false, last).error == Some(BadCharacter(s[i], i));
  }

  /** A group of one character, even a bracket, yields that character. */
  lemma SingleGroup(c: char)
    requires c != '\\'
    ensures ParseGroup([c]) == GroupParse([Ord(c)], None)
  {
    assert TurnAt([c], 0, false, ' ') == Turn([Ord(c)], 1, false, c, None);
    assert ParseFrom([c], 1, false, c) == GroupParse([], None);
    assert [Ord(c)] + [] == [Ord(c)];
  }
  // ---- generate_character_group ----

  /** The lower-case hexadecimal digit of d. */
  function HexDigit(d: nat): char
    requires d < 16
  {
    if d < 10 then ('0' as int + d) as char else ('a' as int + d - 10) as char
  }

  /** The lower-case hexadecimal digits of n. */
  function HexDigits(n: nat): (r: string)
    ensures |r| >= 1
    decreases n
  {
    if n < 16 then [HexDigit(n)] else HexDigits(n / 16) + [HexDigit(n % 16)]
  }

  /** n in hexadecimal, padded with zeros to `width` digits (the format '{:0<width>x}'). */
  function Padded(n: nat, width: nat): string
  {
    var d := HexDigits(n);
    if |d| < width then seq(width - |d|, _ => '0') + d else d
  }

  /** A code point above 126 as \uXXXX, or as \UXXXXXXXX above the basic plane. */
  function HexRepr(cp: nat): (r: string)
    requires cp > 126
    ensures |r| >= 1
  {
    if cp < 0x10000 then "\\u" + Padded(cp, 4) else "\\U" + Padded(cp, 8)
  }

  /**
   * character_group_repr: a code point above 126 in hexadecimal; the characters of IsEscaped
   * are escaped with a backslash.
   */
  function CharRepr(cp: nat): (r: string)
    ensures |r| >= 1
  {
    if cp > 126 then HexRepr(cp)
    else if IsEscaped(cp as char) then ['\\', cp as char]
    else [cp as char]
  }

  predicate SortedNats(s: seq<nat>)
  {
    forall i, j :: 0 <= i < j < |s| ==> s[i] <= s[j]
  }

  predicate Increasing(s: seq<nat>)
  {
    forall i, j :: 0 <= i < j < |s| ==> s[i] < s[j]
  }

  function InsertNat(x: nat, s: seq<nat>): seq<nat>
  {
    if s == [] || x <= s[0] then [x] + s else [s[0]] + InsertNat(x, s[1..])
  }

  /** A code point no greater than any of sorted code points can go before them. */
  lemma ConsSorted(y: nat, t: seq<nat>)
    requires SortedNats(t) && forall k :: 0 <= k < |t| ==> y <= t[k]
    ensures SortedNats([y] + t)
  {
    var r := [y] + t;
    forall i, j | 0 <= i < j < |r| ensures r[i] <= r[j] {
      assert r[j] == t[j - 1];
      if i > 0 {
        assert r[i] == t[i - 1];
      }
    }
  }

  /** Inserting into sorted code points keeps them sorted and adds x to them. */
  lemma {:induction false} InsertNatSorted(x: nat, s: seq<nat>)
    requires SortedNats(s)
    ensures SortedNats(InsertNat(x, s)) && multiset(InsertNat(x, s)) == multiset(s) + multiset{x}
  {
    InsertNatPerm(x, s);
    if s == [] || x <= s[0] {
      ConsSorted(x, s);
    } else {
      var t := InsertNat(x, s[1..]);
      assert InsertNat(x, s) == [s[0]] + t;
      InsertNatSorted(x, s[1..]);
      LowerBoundKept(s[0], s[1..], x, t);
      ConsSorted(s[0], t);
    }
  }

  /** Inserting adds x to the code points. */
  lemma {:induction false} InsertNatPerm(x: nat, s: seq<nat>)
    ensures multiset(InsertNat(x, s)) == multiset(s) + multiset{x}
  {
    if s != [] && x > s[0] {
      var t := InsertNat(x, s[1..]);
      assert InsertNat(x, s) == [s[0]] + t;
      InsertNatPerm(x, s[1..]);
      assert s == [s[0]] + s[1..];
      assert multiset([s[0]] + t) == multiset{s[0]} + multiset(t);
    }
  }

  /** A lower bound of some code points and of x is one of any arrangement of them with x. */
  lemma LowerBoundKept(y: nat, s: seq<nat>, x: nat, t: seq<nat>)
    requires multiset(t) == multiset(s) + multiset{x} && y <= x
    requires forall k :: 0 <= k < |s| ==> y <= s[k]
    ensures forall j :: 0 <= j < |t| ==> y <= t[j]
  {
    forall j | 0 <= j < |t| ensures y <= t[j] {
      assert t[j] in multiset(t);
      if t[j] != x {
        assert t[j] in multiset(s);
      }
    }
  }

  /** sorted(): the code points in ascending order. */
  function SortNats(s: seq<nat>): (r: seq<nat>)
    ensures SortedNats(r) && multiset(r) == multiset(s)
  {
    if s == [] then []
    else
      var t := SortNats(s[..|s| - 1]);
      InsertNatSorted(s[|s| - 1], t);
      assert s == s[..|s| - 1] + [s[|s| - 1]];
      InsertNat(s[|s| - 1], t)
  }

  /** An item generate_character_group yields: the representation of a code point, or a hyphen. */
  datatype Chunk = Repr(cp: nat) | Hyphen

  function ChunkText(c: Chunk): (r: string)
    ensures |r| >= 1
  {
    match c
    case Repr(cp) => CharRepr(cp)
    case Hyphen => "-"
  }

  /** The yielded items joined into one string. */
  function Join(cs: seq<Chunk>): string
  {
    if cs == [] then "" else ChunkText(cs[0]) + Join(cs[1..])
  }

  /** The items for a run of n consecutive code points: a range is written for three or more. */
  function RunChunks(first: nat, n: nat): seq<Chunk>
    requires n >= 1
  {
    if n == 1 then [Repr(first)]
    else if n == 2 then [Repr(first), Repr(first + 1)]
    else [Repr(first), Hyphen, Repr(first + n - 1)]
  }

  /** The range that closes a group at a duplicated code point. */
  function ClosingChunks(first: nat): seq<Chunk>
  {
    [Repr(first), Hyphen, Repr(MAX_UNICODE)]
  }

  /**
   * The items generate_character_group yields from cps[i] on, while the open run holds the
   * len consecutive code points from start: a successor extends the run, a repeat of its last
   * code point closes the group with a range from start to maxunicode, any other code point
   * ends the run, and the end of the input ends the last run.
   */
  function RunsFrom(cps: seq<nat>, i: nat, start: nat, len: nat): (r: seq<Chunk>)
    requires 1 <= len && i <= |cps|
    ensures |r| >= 1 && r[0] == Repr(start)
    decreases |cps| - i
  {
    if i == |cps| then RunChunks(start, len)
    else if cps[i] == start + len then RunsFrom(cps, i + 1, start, len + 1)
    else if cps[i] == start + len - 1 then ClosingChunks(start)
    else RunChunks(start, len) + RunsFrom(cps, i + 1, cps[i], 1)
  }

  /** The items generate_character_group yields for the sorted code points cps. */
  function GroupChunks(cps: seq<nat>): seq<Chunk>
  {
    if cps == [] then [] else RunsFrom(cps, 1, cps[0], 1)
  }

  /** The items of generate_character_group for any order of the code points. */
  function GenerateChunks(s: seq<nat>): seq<Chunk>
  {
    GroupChunks(SortNats(s))
  }

  /** The joined text of generate_character_group, as the string form of a subset uses it. */
  function GenerateGroup(s: seq<nat>): string
  {
    Join(GenerateChunks(s))
  }

  /** Yields the items of a run, as the loop of generate_character_group does at its end. */
  method EmitRun(out: seq<Chunk>, first: nat, n: nat) returns (out': seq<Chunk>)
    requires n >= 1
    ensures out' == out + RunChunks(first, n)
  {
    out' := out;
    if n <= 2 {
      for k := 0 to n
        invariant out' == out + RunChunks(first, n)[..k]
      {
        out' := out' + [Repr(first + k)];
      }
    } else {
      out' := out' + [Repr(first), Hyphen, Repr(first + n - 1)];
    }
  }

  /** generate_character_group: the items it yields. */
  method GenerateCharacterGroup(s: seq<nat>) returns (out: seq<Chunk>)
    ensures out == GenerateChunks(s)
  {
    out := CompressRuns(SortNats(s));
  }

  /** The state of the loop of generate_character_group: the items so far and the open run. */
  datatype RunState = RunState(out: seq<Chunk>, start: int, len: nat, stopped: bool)

  /**
   * Before cps[i]: a stopped loop has yielded the whole group; before the first code point
   * nothing is yielded; otherwise the items so far and those from the open run on make up
   * the group.
   */
  ghost predicate RunInvariant(cps: seq<nat>, i: nat, st: RunState, whole: seq<Chunk>)
    requires i <= |cps|
  {
    (st.stopped ==> st.out == whole) &&
    (!st.stopped && st.start < 0 ==> i == 0 && st.out == [] && GroupChunks(cps) == whole) &&
    (!st.stopped && st.start >= 0 ==> 1 <= st.len && st.out + RunsFrom(cps, i, st.start, st.len) == whole)
  }

  /** One turn of the loop of generate_character_group, at code point cps[i]. */
  method RunStep(cps: seq<nat>, i: nat, st: RunState, ghost whole: seq<Chunk>) returns (st': RunState)
    requires i < |cps| && !st.stopped && RunInvariant(cps, i, st, whole)
    ensures RunInvariant(cps, i + 1, st', whole)
  {
    var cp := cps[i];
    if st.start < 0 {
      st' := RunState(st.out, cp, 1, false);
    } else if cp == st.start + st.len {
      st' := st.(len := st.len + 1);
    } else if cp == st.start + st.len - 1 {
      st' := st.(out := st.out + [Repr(st.start), Hyphen, Repr(MAX_UNICODE)], stopped := true);
    } else {
      SeqAssoc(st.out, RunChunks(st.start, st.len), RunsFrom(cps, i + 1, cp, 1));
      var out := EmitRun(st.out, st.start, st.len);
      st' := RunState(out, cp, 1, false);
    }
  }

  /** The loop of generate_character_group over the sorted code points. */
  method CompressRuns(cps: seq<nat>) returns (out: seq<Chunk>)
    ensures out == GroupChunks(cps)
  {
    var st := RunState([], -1, 1, false);
    ghost var whole := GroupChunks(cps);
    var i := 0;
    while i < |cps| && !st.stopped
      invariant i <= |cps| && RunInvariant(cps, i, st, whole)
    {
      st := RunStep(cps, i, st, whole);
      i := i + 1;
    }
    out := st.out;
    if !st.stopped && st.start >= 0 {
      out := EmitRun(out, st.start, st.len);
    }
  }

  // ---- what a generated group denotes ----

  /** The code points the items denote: a hyphen between two items makes a range. */
  function Expand(cs: seq<Chunk>): seq<nat>
  {
    if cs == [] then []
    else if |cs| >= 3 && cs[1].Hyphen? then
      (if cs[0].Repr? && cs[2].Repr? then Span(cs[0].cp, cs[2].cp + 1) else []) + Expand(cs[3..])
    else (if cs[0].Repr? then [cs[0].cp] else []) + Expand(cs[1..])
  }

  lemma ExpandSingle(c: nat, rest: seq<Chunk>)
    requires rest == [] || rest[0].Repr?
    ensures Expand([Repr(c)] + rest) == [c] + Expand(rest)
  {
    assert ([Repr(c)] + rest)[1..] == rest;
  }

  lemma ExpandRange(a: nat, n: nat, rest: seq<Chunk>)
    requires n >= 1
    ensures Expand([Repr(a), Hyphen, Repr(a + n - 1)] + rest) == Span(a, a + n) + Expand(rest)
  {
    assert ([Repr(a), Hyphen, Repr(a + n - 1)] + rest)[3..] == rest;
  }

  /** The code points of a run come back from its items, whatever run follows. */
  lemma ExpandRun(start: nat, len: nat, rest: seq<Chunk>)
    requires len >= 1 && (rest == [] || rest[0].Repr?)
    ensures Expand(RunChunks(start, len) + rest) == Span(start, start + len) + Expand(rest)
  {
    if len == 1 {
      ExpandSingle(start, rest);
      assert Span(start, start + 1) == [start];
    } else if len == 2 {
      ExpandSingle(start + 1, rest);
      ExpandSingle(start, [Repr(start + 1)] + rest);
      assert RunChunks(start, len) + rest == [Repr(start)] + ([Repr(start + 1)] + rest);
      assert Span(start, start + 2) == [start] + [start + 1];
    } else {
      ExpandRange(start, len, rest);
    }
  }

  /** The len code points before position i run on from start, one by one. */
  predicate RunAt(cps: seq<nat>, i: nat, start: nat, len: nat)
    requires len <= i <= |cps|
  {
    forall k :: i - len <= k < i ==> cps[k] == start + (k - (i - len))
  }

  /** The code point that follows a run by one extends it. */
  lemma RunGrows(cps: seq<nat>, i: nat, start: nat, len: nat)
    requires len <= i < |cps| && RunAt(cps, i, start, len) && cps[i] == start + len
    ensures RunAt(cps, i + 1, start, len + 1)
  {
  }

  /** Any code point opens a run of one. */
  lemma RunOpens(cps: seq<nat>, i: nat)
    requires i < |cps|
    ensures RunAt(cps, i + 1, cps[i], 1)
  {
  }

  lemma SpanSlice(cps: seq<nat>, i: nat, start: nat, len: nat)
    requires len <= i <= |cps| && RunAt(cps, i, start, len)
    ensures Span(start, start + len) == cps[i - len..i]
  {
  }

  /** Code point k is above the one before it. */
  predicate Ascends(cps: seq<nat>, k: nat)
  {
    0 < k < |cps| && cps[k - 1] < cps[k]
  }

  /** The items from the open run on denote the open run and the code points after it. */
  lemma {:induction false} RunsExpand(cps: seq<nat>, i: nat, start: nat, len: nat)
    requires (forall k :: 0 < k < |cps| ==> Ascends(cps, k)) && 1 <= len <= i <= |cps|
    requires Span(start, start + len) == cps[i - len..i]
    ensures Expand(RunsFrom(cps, i, start, len)) == cps[i - len..]
    decreases |cps| - i
  {
    if i == |cps| {
      LastRunExpand(cps, i, start, len);
    } else if cps[i] == start + len {
      SpanGrows(cps, i, start, len);
      RunsExpand(cps, i + 1, start, len + 1);
      GrowExpand(cps, i, start, len);
    } else {
      SpanLast(cps, i, start, len);
      assert Ascends(cps, i);
      SpanOne(cps, i);
      RunsExpand(cps, i + 1, cps[i], 1);
      BreakExpand(cps, i, start, len);
    }
  }

  /** The code point that follows a run by one extends it. */
  lemma SpanGrows(cps: seq<nat>, i: nat, start: nat, len: nat)
    requires len <= i < |cps| && Span(start, start + len) == cps[i - len..i] && cps[i] == start + len
    ensures Span(start, start + len + 1) == cps[i + 1 - (len + 1)..i + 1]
  {
    SpanSplit(start, start + len, start + len + 1);
    assert Span(start + len, start + len + 1) == [start + len];
    assert i + 1 - (len + 1) == i - len;
    assert cps[i - len..i + 1] == cps[i - len..i] + [cps[i]];
  }

  /** The last code point of a run. */
  lemma SpanLast(cps: seq<nat>, i: nat, start: nat, len: nat)
    requires 1 <= len <= i <= |cps| && Span(start, start + len) == cps[i - len..i]
    ensures cps[i - 1] == start + len - 1
  {
    assert cps[i - 1] == cps[i - len..i][len - 1];
  }

  /** Any code point is a run of one. */
  lemma SpanOne(cps: seq<nat>, i: nat)
    requires i < |cps|
    ensures Span(cps[i], cps[i] + 1) == cps[i + 1 - 1..i + 1]
  {
    assert Span(cps[i], cps[i] + 1) == [cps[i]];
  }

  /** A code point that extends the open run changes nothing in what the items denote. */
  lemma GrowExpand(cps: seq<nat>, i: nat, start: nat, len: nat)
    requires 1 <= len <= i < |cps| && cps[i] == start + len
    requires Expand(RunsFrom(cps, i + 1, start, len + 1)) == cps[i + 1 - (len + 1)..]
    ensures Expand(RunsFrom(cps, i, start, len)) == cps[i - len..]
  {
    RunGrowsOn(cps, i, start, len);
  }

  /** The run that the end of the input closes denotes its code points. */
  lemma LastRunExpand(cps: seq<nat>, i: nat, start: nat, len: nat)
    requires 1 <= len <= i == |cps| && Span(start, start + len) == cps[i - len..i]
    ensures Expand(RunsFrom(cps, i, start, len)) == cps[i - len..]
  {
    assert RunsFrom(cps, i, start, len) == RunChunks(start, len) + [];
    ExpandRun(start, len, []);
    assert cps[i - len..] == cps[i - len..i] + [];
  }

  /** A run that is closed before cps[i] adds its code points before those of the next run. */
  lemma BreakExpand(cps: seq<nat>, i: nat, start: nat, len: nat)
    requires 1 <= len <= i < |cps| && Span(start, start + len) == cps[i - len..i]
    requires cps[i - 1] < cps[i] && cps[i - 1] == start + len - 1 && cps[i] != start + len
    requires Expand(RunsFrom(cps, i + 1, cps[i], 1)) == cps[i..]
    ensures Expand(RunsFrom(cps, i, start, len)) == cps[i - len..]
  {
    var rest := RunsFrom(cps, i + 1, cps[i], 1);
    BreakStep(cps, i, start, len);
    ExpandRun(start, len, rest);
    assert cps[i - len..] == cps[i - len..i] + cps[i..];
  }

  /** A code point that neither extends nor repeats the open run closes it. */
  lemma BreakStep(cps: seq<nat>, i: nat, start: nat, len: nat)
    requires 1 <= len && i < |cps| && cps[i] != start + len && cps[i] != start + len - 1
    ensures RunsFrom(cps, i, start, len) == RunChunks(start, len) + RunsFrom(cps, i + 1, cps[i], 1)
  {
  }

  /** For distinct sorted code points the generated items denote exactly those code points. */
  lemma GroupExpand(cps: seq<nat>)
    requires Increasing(cps)
    ensures Expand(GroupChunks(cps)) == cps
  {
    if cps != [] {
      SpanOne(cps, 0);
      assert forall k :: 0 < k < |cps| ==> Ascends(cps, k);
      RunsExpand(cps, 1, cps[0], 1);
    }
  }

  lemma SpanSplit(lo: int, mid: int, hi: int)
    requires lo <= mid <= hi
    ensures Span(lo, hi) == Span(lo, mid) + Span(mid, hi)
  {
    var l, r := Span(lo, mid), Span(mid, hi);
    forall k | 0 <= k < |Span(lo, hi)| ensures Span(lo, hi)[k] == (l + r)[k] {
      if k >= |l| {
        assert (l + r)[k] == r[k - |l|];
      }
    }
  }

  /**
   * The items from the open run on, when code point j + 1 duplicates code point j and the code
   * points are strictly ascending up to j: those code points, then every code point from cps[j]
   * up to the largest one.
   */
  lemma {:induction false} RunsClosed(cps: seq<nat>, i: nat, start: nat, len: nat, j: nat)
    requires 1 <= len <= i <= j + 1 < |cps| && cps[j + 1] == cps[j] <= MAX_UNICODE
    requires forall k :: 0 < k <= j ==> Ascends(cps, k)
    requires RunAt(cps, i, start, len)
    ensures Expand(RunsFrom(cps, i, start, len)) == cps[i - len..j] + Span(cps[j], MAX_UNICODE + 1)
    decreases j + 1 - i
  {
    assert cps[i - 1] == start + len - 1;
    if cps[i] == start + len {
      RunGrows(cps, i, start, len);
      RunsClosed(cps, i + 1, start, len + 1, j);
      RunGrowsOn(cps, i, start, len);
    } else if cps[i] == start + len - 1 {
      assert i <= j ==> Ascends(cps, i);
      assert i == j + 1;
      ClosedAt(cps, i, start, len, j);
    } else {
      RunOpens(cps, i);
      RunsClosed(cps, i + 1, cps[i], 1, j);
      SpanSlice(cps, i, start, len);
      ClosedBreak(cps, i, start, len, j);
    }
  }

  /** A code point that extends the open run adds no item of its own. */
  lemma RunGrowsOn(cps: seq<nat>, i: nat, start: nat, len: nat)
    requires 1 <= len <= i < |cps| && cps[i] == start + len
    ensures RunsFrom(cps, i, start, len) == RunsFrom(cps, i + 1, start, len + 1)
    ensures i + 1 - (len + 1) == i - len
  {
  }

  /** The run that reaches the duplicate is written as a range up to the largest code point. */
  lemma ClosedAt(cps: seq<nat>, i: nat, start: nat, len: nat, j: nat)
    requires 1 <= len <= i <= j + 1 < |cps| && cps[j + 1] == cps[j] <= MAX_UNICODE
    requires RunAt(cps, i, start, len)
    requires cps[i - 1] == start + len - 1 && cps[i] == start + len - 1 && i == j + 1
    ensures Expand(RunsFrom(cps, i, start, len)) == cps[i - len..j] + Span(cps[j], MAX_UNICODE + 1)
  {
    ClosingStep(cps, i, start, len);
    ExpandRange(start, MAX_UNICODE + 1 - start, []);
    SpanSplit(start, cps[j], MAX_UNICODE + 1);
    RunShrinks(cps, i, start, len);
    SpanSlice(cps, j, start, len - 1);
    calc {
      Expand(RunsFrom(cps, i, start, len));
      Expand(ClosingChunks(start) + []);
      Span(start, MAX_UNICODE + 1) + Expand([]);
      Span(start, cps[j]) + Span(cps[j], MAX_UNICODE + 1);
      cps[i - len..j] + Span(cps[j], MAX_UNICODE + 1);
    }
  }

  /** A repeat of the last code point of the open run closes the group. */
  lemma ClosingStep(cps: seq<nat>, i: nat, start: nat, len: nat)
    requires 1 <= len && i < |cps| && cps[i] == start + len - 1
    ensures RunsFrom(cps, i, start, len) == ClosingChunks(start) + []
  {
  }

  /** A run without its last code point is a run. */
  lemma RunShrinks(cps: seq<nat>, i: nat, start: nat, len: nat)
    requires 1 <= len <= i <= |cps| && RunAt(cps, i, start, len)
    ensures RunAt(cps, i - 1, start, len - 1)
  {
  }

  /** A run closed before the duplicate adds its code points before those of the next run. */
  lemma ClosedBreak(cps: seq<nat>, i: nat, start: nat, len: nat, j: nat)
    requires 1 <= len <= i <= j < |cps| && Span(start, start + len) == cps[i - len..i]
    requires cps[i] != start + len && cps[i] != start + len - 1
    requires Expand(RunsFrom(cps, i + 1, cps[i], 1)) == cps[i..j] + Span(cps[j], MAX_UNICODE + 1)
    ensures Expand(RunsFrom(cps, i, start, len)) == cps[i - len..j] + Span(cps[j], MAX_UNICODE + 1)
  {
    var rest := RunsFrom(cps, i + 1, cps[i], 1);
    assert RunsFrom(cps, i, start, len) == RunChunks(start, len) + rest;
    ExpandRun(start, len, rest);
    SliceSplit(cps, i - len, i, j);
    SeqAssoc(cps[i - len..i], cps[i..j], Span(cps[j], MAX_UNICODE + 1));
  }

  lemma SliceSplit(s: seq<nat>, a: nat, b: nat, c: nat)
    requires a <= b <= c <= |s|
    ensures s[a..c] == s[a..b] + s[b..c]
  {
  }

  /**
   * Sorted code points whose first duplicate follows code point j generate items that denote
   * the code points before j, then all code points from cps[j] up to the largest one.
   */
  lemma GroupClosed(cps: seq<nat>, j: nat)
    requires j + 1 < |cps| && cps[j + 1] == cps[j] <= MAX_UNICODE
    requires forall a, b :: 0 <= a < b <= j ==> cps[a] < cps[b]
    ensures Expand(GroupChunks(cps)) == cps[..j] + Span(cps[j], MAX_UNICODE + 1)
  {
    assert forall k :: 0 < k <= j ==> Ascends(cps, k);
    RunsClosed(cps, 1, cps[0], 1, j);
  }

  // ---- generated groups parse back ----

  /**
   * The code points on which generate_character_group and parse_character_group agree: the
   * ASCII ones that are written as themselves, apart from the backslash.
   */
  predicate Plain(cp: nat)
  {
    cp <= 126 && cp != 92
  }

  /** Items made of lone code points and ascending ranges, all of them plain. */
  predicate Parsable(cs: seq<Chunk>)
    decreases |cs|
  {
    cs == [] ||
    (cs[0].Repr? && Plain(cs[0].cp) &&
     if |cs| >= 3 && cs[1].Hyphen? then
       cs[2].Repr? && Plain(cs[2].cp) && cs[0].cp <= cs[2].cp && Parsable(cs[3..])
     else
       (|cs| == 1 || cs[1].Repr?) && Parsable(cs[1..]))
  }

  /** The length of the representation of a plain code point. */
  function ReprLen(a: nat): nat
    requires Plain(a)
  {
    if IsEscaped(a as char) then 2 else 1
  }

  /** The representation of the plain code point a is written at index k of s. */
  predicate WrittenAt(s: string, k: nat, a: nat)
    requires Plain(a)
  {
    if IsEscaped(a as char) then k + 1 < |s| && s[k] == '\\' && s[k + 1] == a as char
    else k < |s| && s[k] == a as char
  }

  /** The text of the parsable items cs is written from index k of s to its end. */
  predicate WrittenFrom(s: string, k: nat, cs: seq<Chunk>)
    requires Parsable(cs)
    decreases |cs|
  {
    if cs == [] then k == |s|
    else
      var a := cs[0].cp;
      if |cs| >= 3 && cs[1].Hyphen? then
        var b := cs[2].cp;
        var h := k + ReprLen(a);
        WrittenAt(s, k, a) && h < |s| && s[h] == '-' && WrittenAt(s, h + 1, b) &&
        WrittenFrom(s, h + 1 + ReprLen(b), cs[3..])
      else
        WrittenAt(s, k, a) && WrittenFrom(s, k + ReprLen(a), cs[1..])
  }

  lemma ReprWritten(s: string, k: nat, a: nat, t: string)
    requires Plain(a) && k <= |s| && s[k..] == CharRepr(a) + t
    ensures WrittenAt(s, k, a) && k + ReprLen(a) <= |s| && s[k + ReprLen(a)..] == t
  {
    assert |CharRepr(a)| == ReprLen(a);
    assert s[k + ReprLen(a)..] == s[k..][ReprLen(a)..];
    assert s[k] == s[k..][0];
    if IsEscaped(a as char) {
      assert s[k + 1] == s[k..][1];
    }
  }

  lemma HyphenWritten(s: string, k: nat, t: string)
    requires k <= |s| && s[k..] == "-" + t
    ensures k < |s| && s[k] == '-' && s[k + 1..] == t
  {
    assert s[k] == s[k..][0];
    assert s[k + 1..] == s[k..][1..];
  }

  /** The text of a range item triple. */
  lemma JoinRange(cs: seq<Chunk>)
    requires |cs| >= 3 && cs[0].Repr? && cs[1].Hyphen? && cs[2].Repr?
    ensures Join(cs) == CharRepr(cs[0].cp) + ("-" + (CharRepr(cs[2].cp) + Join(cs[3..])))
  {
    var t := Join(cs[3..]);
    assert cs[1..][1..] == cs[2..];
    assert cs[2..][1..] == cs[3..];
    assert Join(cs[2..]) == CharRepr(cs[2].cp) + t;
    assert Join(cs[1..]) == "-" + Join(cs[2..]);
  }

  /** A range item triple is written from index k, up to index h where the remaining items start. */
  lemma RangeWritten(s: string, k: nat, cs: seq<Chunk>) returns (h: nat)
    requires Parsable(cs) && |cs| >= 3 && cs[1].Hyphen? && k <= |s| && s[k..] == Join(cs)
    ensures h == k + ReprLen(cs[0].cp) + 1 + ReprLen(cs[2].cp) && h <= |s| && s[h..] == Join(cs[3..])
    ensures WrittenFrom(s, h, cs[3..]) ==> WrittenFrom(s, k, cs)
  {
    var a, b := cs[0].cp, cs[2].cp;
    JoinRange(cs);
    ReprWritten(s, k, a, "-" + (CharRepr(b) + Join(cs[3..])));
    var m := k + ReprLen(a);
    HyphenWritten(s, m, CharRepr(b) + Join(cs[3..]));
    ReprWritten(s, m + 1, b, Join(cs[3..]));
    h := m + 1 + ReprLen(b);
  }

  /** Joined parsable items are written character by character from where they start. */
  lemma {:induction false} JoinWritten(s: string, k: nat, cs: seq<Chunk>)
    requires Parsable(cs) && k <= |s| && s[k..] == Join(cs)
    ensures WrittenFrom(s, k, cs)
    decreases |cs|
  {
    if cs != [] {
      var a := cs[0].cp;
      if |cs| >= 3 && cs[1].Hyphen? {
        var h := RangeWritten(s, k, cs);
        JoinWritten(s, h, cs[3..]);
      } else {
        ReprWritten(s, k, a, Join(cs[1..]));
        JoinWritten(s, k + ReprLen(a), cs[1..]);
      }
    }
  }

  /** A plain code point written at index k > 0 is read back as itself. */
  lemma SingleParsed(s: string, k: nat, a: nat, last: char)
    requires 0 < k && Plain(a) && WrittenAt(s, k, a)
    ensures ParseFrom(s, k, false, last) == Then([a], ParseFrom(s, k + ReprLen(a), false, a as char))
  {
    if IsEscaped(a as char) {
      assert TurnAt(s, k, false, last) == Turn([], k + 1, true, last, None);
      assert TurnAt(s, k + 1, true, last) == Turn([a], k + 2, false, a as char, None);
    } else {
      assert TurnAt(s, k, false, last) == Turn([a], k + 1, false, a as char, None);
    }
  }

  /** A plain code point written first is read back as itself. */
  lemma FirstParsed(s: string, a: nat)
    requires Plain(a) && WrittenAt(s, 0, a)
    ensures ParseFrom(s, 0, false, ' ') == Then([a], ParseFrom(s, ReprLen(a), false, a as char))
  {
    if IsEscaped(a as char) {
      assert TurnAt(s, 0, false, ' ') == Turn([], 1, true, '\\', None);
      assert TurnAt(s, 1, true, '\\') == Turn([a], 2, false, a as char, None);
    } else {
      assert TurnAt(s, 0, false, ' ') == Turn([a], 1, false, a as char, None);
    }
  }

  /** One turn at a hyphen at index k > 0 before a plain code point b yields the range after a. */
  lemma HyphenTurn(s: string, k: nat, a: nat, b: nat)
    requires 0 < k < |s| && Plain(a) && Plain(b) && a <= b && s[k] == '-' && WrittenAt(s, k + 1, b)
    ensures TurnAt(s, k, false, a as char) == Turn(CodeSpan(a + 1, b + 1), k + 1 + ReprLen(b), false, a as char, None)
  {
    var j := k + ReprLen(b);
    assert j == if s[k + 1] == '\\' && k + 1 < |s| - 1 && IsEscaped(s[k + 2]) then k + 2 else k + 1;
    assert s[j] == b as char;
  }

  /** A hyphen at index k > 0 before a plain code point b reads the range after a. */
  lemma HyphenParsed(s: string, k: nat, a: nat, b: nat)
    requires 0 < k < |s| && Plain(a) && Plain(b) && a <= b && s[k] == '-' && WrittenAt(s, k + 1, b)
    ensures ParseFrom(s, k, false, a as char).chars ==
              Span(a + 1, b + 1) + ParseFrom(s, k + 1 + ReprLen(b), false, a as char).chars
    ensures ParseFrom(s, k, false, a as char).error == ParseFrom(s, k + 1 + ReprLen(b), false, a as char).error
  {
    HyphenTurn(s, k, a, b);
    assert CodeSpan(a + 1, b + 1) == Span(a + 1, b + 1);
  }

  /** Generated items written from index k > 0 parse back into the code points they denote. */
  lemma {:induction false} JoinParsed(s: string, k: nat, cs: seq<Chunk>, last: char)
    requires 0 < k && Parsable(cs) && WrittenFrom(s, k, cs)
    ensures ParseFrom(s, k, false, last).chars == Expand(cs)
    ensures ParseFrom(s, k, false, last).error.None?
    decreases |cs|
  {
    if cs != [] {
      var a := cs[0].cp;
      if |cs| >= 3 && cs[1].Hyphen? {
        var b := cs[2].cp;
        var h := k + ReprLen(a);
        JoinParsed(s, h + 1 + ReprLen(b), cs[3..], a as char);
        SingleParsed(s, k, a, last);
        HyphenParsed(s, h, a, b);
        RangeThen(ParseFrom(s, k, false, last), ParseFrom(s, h, false, a as char),
                  ParseFrom(s, h + 1 + ReprLen(b), false, a as char), a, b);
      } else {
        JoinParsed(s, k + ReprLen(a), cs[1..], a as char);
        SingleParsed(s, k, a, last);
      }
    }
  }

  /** Chaining what a lone code point and the range after it yield. */
  lemma RangeThen(p0: GroupParse, p1: GroupParse, p2: GroupParse, a: CodePoint, b: CodePoint)
    requires a <= b && p0 == Then([a], p1)
    requires p1.chars == Span(a + 1, b + 1) + p2.chars && p1.error == p2.error
    ensures p0.chars == Span(a, b + 1) + p2.chars && p0.error == p2.error
  {
    assert Span(a, b + 1) == [a] + Span(a + 1, b + 1);
  }

  /** A whole generated group parses back into the code points it denotes. */
  lemma GroupParsed(cs: seq<Chunk>)
    requires Parsable(cs)
    ensures ParseGroup(Join(cs)).chars == Expand(cs) && ParseGroup(Join(cs)).error.None?
  {
    var s := Join(cs);
    assert s[0..] == s;
    JoinWritten(s, 0, cs);
    if cs == [] {
    } else if |cs| >= 3 && cs[1].Hyphen? {
      FirstRangeParsed(s, cs);
    } else {
      FirstLoneParsed(s, cs);
    }
  }

  /** Written items that start with a range are read back as what they denote. */
  lemma FirstRangeParsed(s: string, cs: seq<Chunk>)
    requires Parsable(cs) && |cs| >= 3 && cs[1].Hyphen? && WrittenFrom(s, 0, cs)
    ensures ParseFrom(s, 0, false, ' ').chars == Expand(cs) && ParseFrom(s, 0, false, ' ').error.None?
  {
    var a, b := cs[0].cp, cs[2].cp;
    var h := ReprLen(a);
    RangeFacts(s, cs);
    FirstRangeStep(s, a, b);
    JoinParsed(s, h + 1 + ReprLen(b), cs[3..], a as char);
  }

  /** A range written first is read back as its code points, then the parse goes on after it. */
  lemma FirstRangeStep(s: string, a: nat, b: nat)
    requires Plain(a) && Plain(b) && a <= b && WrittenAt(s, 0, a)
    requires 0 < ReprLen(a) < |s| && s[ReprLen(a)] == '-' && WrittenAt(s, ReprLen(a) + 1, b)
    ensures ReprLen(a) + 1 + ReprLen(b) <= |s|
    ensures ParseFrom(s, 0, false, ' ').chars == Span(a, b + 1) + ParseFrom(s, ReprLen(a) + 1 + ReprLen(b), false, a as char).chars
    ensures ParseFrom(s, 0, false, ' ').error == ParseFrom(s, ReprLen(a) + 1 + ReprLen(b), false, a as char).error
  {
    var h := ReprLen(a);
    FirstParsed(s, a);
    HyphenParsed(s, h, a, b);
    RangeThen(ParseFrom(s, 0, false, ' '), ParseFrom(s, h, false, a as char),
              ParseFrom(s, h + 1 + ReprLen(b), false, a as char), a, b);
  }

  /** What written items that start with a range say about the text and what they denote. */
  lemma RangeFacts(s: string, cs: seq<Chunk>)
    requires Parsable(cs) && |cs| >= 3 && cs[1].Hyphen? && WrittenFrom(s, 0, cs)
    ensures var a, b := cs[0].cp, cs[2].cp;
            Plain(a) && Plain(b) && a <= b && WrittenAt(s, 0, a)
            && 0 < ReprLen(a) < |s| && s[ReprLen(a)] == '-' && WrittenAt(s, ReprLen(a) + 1, b)
            && Parsable(cs[3..]) && WrittenFrom(s, ReprLen(a) + 1 + ReprLen(b), cs[3..])
            && Expand(cs) == Span(a, b + 1) + Expand(cs[3..])
  {
  }

  /** Written items that start with a lone code point are read back as what they denote. */
  lemma FirstLoneParsed(s: string, cs: seq<Chunk>)
    requires Parsable(cs) && cs != [] && !(|cs| >= 3 && cs[1].Hyphen?) && WrittenFrom(s, 0, cs)
    ensures ParseFrom(s, 0, false, ' ').chars == Expand(cs) && ParseFrom(s, 0, false, ' ').error.None?
  {
    var a := cs[0].cp;
    FirstParsed(s, a);
    JoinParsed(s, ReprLen(a), cs[1..], a as char);
  }

  /** The items of a run of plain code points, before other parsable items, are parsable. */
  lemma ParsableRun(start: nat, len: nat, rest: seq<Chunk>)
    requires len >= 1 && Plain(start) && Plain(start + len - 1) && (len == 2 ==> Plain(start + 1))
    requires Parsable(rest) && (rest == [] || rest[0].Repr?)
    ensures Parsable(RunChunks(start, len) + rest)
  {
    if len == 1 {
      ParsableLone(start, rest);
    } else if len == 2 {
      ParsableLone(start + 1, rest);
      ParsableLone(start, [Repr(start + 1)] + rest);
      assert RunChunks(start, len) + rest == [Repr(start)] + ([Repr(start + 1)] + rest);
    } else {
      ParsableRange(start, start + len - 1, rest);
    }
  }

  /** A plain code point in front of parsable items that do not start with a hyphen. */
  lemma ParsableLone(a: nat, rest: seq<Chunk>)
    requires Plain(a) && Parsable(rest) && (rest == [] || rest[0].Repr?)
    ensures Parsable([Repr(a)] + rest)
  {
    assert ([Repr(a)] + rest)[1..] == rest;
  }

  /** An ascending range of plain code points in front of parsable items that do not start with a hyphen. */
  lemma ParsableRange(a: nat, b: nat, rest: seq<Chunk>)
    requires Plain(a) && Plain(b) && a <= b && Parsable(rest) && (rest == [] || rest[0].Repr?)
    ensures Parsable([Repr(a), Hyphen, Repr(b)] + rest)
  {
    assert ([Repr(a), Hyphen, Repr(b)] + rest)[3..] == rest;
  }

  predicate AllPlain(cps: seq<nat>)
  {
    forall k :: 0 <= k < |cps| ==> Plain(cps[k])
  }

  /** The items from the open run on are parsable when all the code points are plain. */
  lemma {:induction false} RunsParsable(cps: seq<nat>, i: nat, start: nat, len: nat)
    requires Increasing(cps) && AllPlain(cps) && 1 <= len <= i <= |cps|
    requires RunAt(cps, i, start, len)
    ensures Parsable(RunsFrom(cps, i, start, len))
    decreases |cps| - i
  {
    assert start == cps[i - len] && start + len - 1 == cps[i - 1];
    assert len == 2 ==> start + 1 == cps[i - 1];
    if i == |cps| {
      assert RunsFrom(cps, i, start, len) == RunChunks(start, len) + [];
      ParsableRun(start, len, []);
    } else if cps[i] == start + len {
      RunGrows(cps, i, start, len);
      RunsParsable(cps, i + 1, start, len + 1);
    } else {
      RunOpens(cps, i);
      RunsParsable(cps, i + 1, cps[i], 1);
      BreakParsable(cps, i, start, len);
    }
  }

  lemma BreakParsable(cps: seq<nat>, i: nat, start: nat, len: nat)
    requires 1 <= len <= i < |cps| && Plain(start) && Plain(start + len - 1) && (len == 2 ==> Plain(start + 1))
    requires cps[i - 1] < cps[i] && cps[i - 1] == start + len - 1 && cps[i] != start + len
    requires Parsable(RunsFrom(cps, i + 1, cps[i], 1))
    ensures Parsable(RunsFrom(cps, i, start, len))
  {
    var rest := RunsFrom(cps, i + 1, cps[i], 1);
    assert RunsFrom(cps, i, start, len) == RunChunks(start, len) + rest;
    ParsableRun(start, len, rest);
  }

  /**
   * parse_character_group reads a group generated from distinct sorted plain code points
   * back into those code points.
   */
  lemma GroupRoundTrip(cps: seq<nat>)
    requires Increasing(cps) && AllPlain(cps)
    ensures ParseGroup(Join(GroupChunks(cps))).chars == cps
    ensures ParseGroup(Join(GroupChunks(cps))).error.None?
  {
    GroupExpand(cps);
    if cps != [] {
      RunsParsable(cps, 1, cps[0], 1);
    }
    GroupParsed(GroupChunks(cps));
  }

  /** A code point no smaller than sorted code points is inserted at their end. */
  lemma {:induction false} InsertAbove(x: nat, t: seq<nat>)
    requires SortedNats(t) && forall k :: 0 <= k < |t| ==> t[k] <= x
    ensures InsertNat(x, t) == t + [x]
  {
    if t != [] {
      if x <= t[0] {
        assert forall k :: 0 <= k < |t| ==> t[k] == x by {
          forall k | 0 <= k < |t| ensures t[k] == x {
            assert t[0] <= t[k];
          }
        }
        assert [x] + t == t + [x] by {
          forall k | 0 <= k < |t| + 1 ensures ([x] + t)[k] == (t + [x])[k] {
            if 0 < k {
              assert ([x] + t)[k] == t[k - 1];
            }
            if k < |t| {
              assert (t + [x])[k] == t[k];
            }
          }
        }
      } else {
        InsertAbove(x, t[1..]);
        assert t == [t[0]] + t[1..];
      }
    }
  }

  /** sorted() leaves sorted code points as they are. */
  lemma {:induction false} SortSorted(s: seq<nat>)
    requires SortedNats(s)
    ensures SortNats(s) == s
  {
    if s != [] {
      var p, x := s[..|s| - 1], s[|s| - 1];
      assert SortedNats(p) && forall k :: 0 <= k < |p| ==> p[k] <= x by {
        forall i, j | 0 <= i < j < |p| ensures p[i] <= p[j] {
          assert p[i] == s[i] && p[j] == s[j];
        }
        forall k | 0 <= k < |p| ensures p[k] <= x {
          assert p[k] == s[k];
        }
      }
      SortSorted(p);
      InsertAbove(x, p);
      assert s == p + [x];
    }
  }

  /** The group generated from strictly ascending plain code points parses back into them. */
  lemma GenerateRoundTrip(s: seq<nat>)
    requires Increasing(s) && AllPlain(s)
    ensures ParseGroup(GenerateGroup(s)).chars == s && ParseGroup(GenerateGroup(s)).error.None?
  {
    SortSorted(s);
    GroupRoundTrip(s);
  }

  /**
   * The backslash is written as itself, so it escapes what follows it: the group generated for
   * the backslash and the closing bracket does not parse back.
   */
  lemma BackslashNotReparsed()
    ensures GenerateGroup([92, 93]) == "\\\\]"
    ensures ParseGroup(GenerateGroup([92, 93])).error == Some(BadCharacter(']', 2))
  {
    assert SortNats([92, 93]) == [92, 93] by {
      SortSorted([92, 93]);
    }
    var cs := GroupChunks([92, 93]);
    assert cs == [Repr(92), Repr(93)];
    assert Join(cs) == CharRepr(92) + (CharRepr(93) + Join([]));
    var s := "\\\\]";
    assert TurnAt(s, 0, false, ' ') == Turn([], 1, true, '\\', None);
    assert TurnAt(s, 1, true, '\\') == Turn([92], 2, false, '\\', None);
    assert TurnAt(s, 2, false, '\\').error == Some(BadCharacter(']', 2));
  }

  // ---- UnicodeSubset ----

  /** A non-empty set of code points has a smallest member. */
  lemma {:induction false} LeastMember(s: set<nat>) returns (m: nat)
    requires s != {}
    ensures m in s && forall y :: y in s ==> m <= y
    decreases |s|
  {
    var x :| x in s;
    var rest := s - {x};
    if rest == {} {
      m := x;
      assert forall y :: y in s ==> y == x by {
        forall y | y in s ensures y == x {
          assert y !in rest;
        }
      }
    } else {
      var r := LeastMember(rest);
      m := if x < r then x else r;
      forall y | y in s ensures m <= y {
        if y != x {
          assert y in rest;
        }
      }
    }
  }

  lemma HasMin(s: set<nat>)
    requires s != {}
    ensures exists m :: m in s && forall y :: y in s ==> m <= y
  {
    var m := LeastMember(s);
  }

  /** The smallest of a non-empty set of code points. */
  function MinOf(s: set<nat>): (m: nat)
    requires s != {}
    ensures m in s && forall y :: y in s ==> m <= y
  {
    HasMin(s);
    var m :| m in s && forall y :: y in s ==> m <= y;
    m
  }

  /** sorted() of a set: its members in strictly ascending order. */
  function SetElems(s: set<nat>): (r: seq<nat>)
    ensures Increasing(r) && forall x :: x in r <==> x in s
    decreases |s|
  {
    if s == {} then []
    else
      var m := MinOf(s);
      var t := SetElems(s - {m});
      assert forall k :: 0 <= k < |t| ==> m < t[k] by {
        forall k | 0 <= k < |t| ensures m < t[k] {
          assert t[k] in t;
        }
      }
      [m] + t
  }

  /** The code points of a sequence, as a set. */
  function Members(xs: seq<CodePoint>): (r: set<CodePoint>)
    ensures forall x :: x in r <==> x in xs
  {
    set x | x in xs
  }

  lemma MembersSnoc(xs: seq<CodePoint>, x: CodePoint)
    ensures Members(xs + [x]) == Members(xs) + {x}
  {
  }

  /**
   * str(UnicodeSubset): the character group generated for the members. When they are all plain
   * it parses back into exactly these members.
   */
  function SubsetText(store: set<CodePoint>): (r: string)
    ensures (forall cp :: cp in store ==> Plain(cp)) ==>
              ParseGroup(r).error.None? && Members(ParseGroup(r).chars) == store
  {
    var cps := SetElems(store);
    if forall cp :: cp in store ==> Plain(cp) then
      GenerateRoundTrip(cps);
      GenerateGroup(cps)
    else
      GenerateGroup(cps)
  }

  /** A set of code points that grows and shrinks by code points and by character groups. */
  class UnicodeSubset {
    var store: set<CodePoint>

    constructor ()
      ensures store == {}
    {
      store := {};
    }

    predicate Contains(cp: int)
      reads this
    {
      cp in store
    }

    /** add: a code point outside [0, MAX_UNICODE] is rejected and nothing changes. */
    method Add(cp: int) returns (err: Option<RegexError>)
      modifies this
      ensures 0 <= cp <= MAX_UNICODE ==> err.None? && store == old(store) + {cp}
      ensures !(0 <= cp <= MAX_UNICODE) ==> err == Some(OutOfRange(cp)) && store == old(store)
    {
      if 0 <= cp <= MAX_UNICODE {
        store := store + {cp};
        err := None;
      } else {
        err := Some(OutOfRange(cp));
      }
    }

    /** discard: a code point outside [0, MAX_UNICODE] is rejected and nothing changes. */
    method Discard(cp: int) returns (err: Option<RegexError>)
      modifies this
      ensures 0 <= cp <= MAX_UNICODE ==> err.None? && store == old(store) - {cp}
      ensures !(0 <= cp <= MAX_UNICODE) ==> err == Some(OutOfRange(cp)) && store == old(store)
    {
      if 0 <= cp <= MAX_UNICODE {
        store := store - {cp};
        err := None;
      } else {
        err := Some(OutOfRange(cp));
      }
    }

    /**
     * add_string: every code point the group yields is added, those yielded before an error
     * included, and the error is passed on.
     */
    method AddString(s: string) returns (err: Option<RegexError>)
      modifies this
      ensures store == old(store) + Members(ParseGroup(s).chars) && err == ParseGroup(s).error
    {
      var chars;
      chars, err := ParseCharacterGroup(s);
      AddEach(chars);
    }

    /** The loop of add_string over the parsed code points. */
    method AddEach(chars: seq<CodePoint>)
      modifies this
      ensures store == old(store) + Members(chars)
    {
      for k := 0 to |chars|
        invariant store == old(store) + Members(chars[..k])
      {
        MembersSnoc(chars[..k], chars[k]);
        assert chars[..k + 1] == chars[..k] + [chars[k]];
        store := store + {chars[k]};
      }
      assert chars[..|chars|] == chars;
    }

    /** discard_string: every code point the group yields is removed. */
    method DiscardString(s: string) returns (err: Option<RegexError>)
      modifies this
      ensures store == old(store) - Members(ParseGroup(s).chars) && err == ParseGroup(s).error
    {
      var chars;
      chars, err := ParseCharacterGroup(s);
      DiscardEach(chars);
    }

    /** The loop of discard_string over the parsed code points. */
    method DiscardEach(chars: seq<CodePoint>)
      modifies this
      ensures store == old(store) - Members(chars)
    {
      for k := 0 to |chars|
        invariant store == old(store) - Members(chars[..k])
      {
        MembersSnoc(chars[..k], chars[k]);
        assert chars[..k + 1] == chars[..k] + [chars[k]];
        store := store - {chars[k]};
      }
      assert chars[..|chars|] == chars;
    }

    /** complement: the code points of [0, MAX_UNICODE] that are not members. */
    function Complement(): (r: set<CodePoint>)
      reads this
      ensures forall cp: CodePoint :: cp in r <==> !Contains(cp)
    {
      set cp: CodePoint | 0 <= cp <= MAX_UNICODE && cp !in store
    }

    /** str(): the character group of the members, which reads back as them when they are plain. */
    function Text(): (r: string)
      reads this
      ensures (forall cp :: cp in store ==> Plain(cp)) ==>
                ParseGroup(r).error.None? && Members(ParseGroup(r).chars) == store
    {
      SubsetText(store)
    }
  }

  // ---- XsdRegexCharGroup ----

  /**
   * Membership in a character group kept as a positive and a negative part: with a non-empty
   * negative part, the code points outside it or inside the positive part.
   */
  predicate GroupHas(pos: set<CodePoint>, neg: set<CodePoint>, cp: int)
  {
    if neg != {} then cp !in neg || cp in pos else cp in pos
  }

  /** Swapping the parts complements a group that has only a positive part. */
  lemma SwapComplementsPositive(pos: set<CodePoint>, cp: int)
    requires pos != {}
    ensures GroupHas({}, pos, cp) == !GroupHas(pos, {}, cp)
  {
  }

  /**
   * Swapping the parts does not complement a group with both parts: [^a\\S] should match only
   * white space, but after the swap it matches every code point other than a.
   */
  lemma SwapKeepsOutsiders()
    ensures GroupHas({97}, {32}, 0) && GroupHas({32}, {97}, 0)
  {
  }

  /** The two parts of a character group, as values. */
  datatype Group = Group(pos: set<CodePoint>, neg: set<CodePoint>)

  predicate Has(g: Group, cp: int)
  {
    GroupHas(g.pos, g.neg, cp)
  }

  /** The group of every code point: a negative part inside the positive part. */
  const UNIVERSAL: Group := Group({0}, {0})

  /** The complement of a group, kept positive when the group has a negative part. */
  function Complemented(g: Group): (r: Group)
    ensures forall cp: CodePoint :: Has(r, cp) == !Has(g, cp)
  {
    if g.neg != {} then Group(g.neg - g.pos, {})
    else if g.pos != {} then Group({}, g.pos)
    else UNIVERSAL
  }

  /** The intersection of two groups. */
  function Intersected(a: Group, c: Group): (r: Group)
    ensures forall cp: CodePoint :: Has(r, cp) == (Has(a, cp) && Has(c, cp))
  {
    if a.neg == {} then Group(set x | x in a.pos && Has(c, x), {})
    else if c.neg == {} then Group(set x | x in c.pos && Has(a, x), {})
    else
      var out := (a.neg - a.pos) + (c.neg - c.pos);
      if out == {} then
        assert forall cp :: cp in a.neg ==> cp in a.pos by {
          forall cp | cp in a.neg ensures cp in a.pos {
            assert cp !in out;
          }
        }
        assert forall cp :: cp in c.neg ==> cp in c.pos by {
          forall cp | cp in c.neg ensures cp in c.pos {
            assert cp !in out;
          }
        }
        UNIVERSAL
      else Group({}, out)
  }

  /** The code points of a that are not in b. */
  function Subtracted(a: Group, b: Group): (r: Group)
    ensures forall cp: CodePoint :: Has(r, cp) == (Has(a, cp) && !Has(b, cp))
  {
    Intersected(a, Complemented(b))
  }

  /** __isub__ as written. */
  function SubtractedAsWritten(a: Group, b: Group): Group
  {
    var pos := if a.neg != {} then a.pos + (b.neg - a.neg) else if b.neg != {} then a.pos * b.neg else a.pos;
    var neg := if a.neg != {} && b.neg != {} then {} else a.neg;
    Group(pos - b.pos, neg)
  }

  /** [[a\\S]-[\\S]] as written still holds a, which both groups contain. */
  lemma SubtractAsWrittenKeeps()
    ensures Has(Group({97}, {32}), 97) && Has(Group({}, {32}), 97)
    ensures SubtractedAsWritten(Group({97}, {32}), Group({}, {32})) == Group({97}, {})
    ensures Has(SubtractedAsWritten(Group({97}, {32}), Group({}, {32})), 97)
  {
    assert ({97} + ({32} - {32})) - {} == {97};
  }

  /** The largest of a non-empty set of code points. */
  lemma {:induction false} GreatestMember(s: set<CodePoint>) returns (m: CodePoint)
    requires s != {}
    ensures m in s && forall y :: y in s ==> y <= m
    decreases |s|
  {
    var x :| x in s;
    var rest := s - {x};
    if rest == {} {
      m := x;
      forall y | y in s ensures y == x {
        assert y !in rest;
      }
    } else {
      var r := GreatestMember(rest);
      m := if x > r then x else r;
      forall y | y in s ensures y <= m {
        if y != x {
          assert y in rest;
        }
      }
    }
  }

  lemma HasMax(s: set<CodePoint>)
    requires s != {}
    ensures exists m: CodePoint :: m in s && forall y :: y in s ==> y <= m
  {
    var m := GreatestMember(s);
  }

  /** max() of a non-empty set of code points. */
  function MaxOf(s: set<CodePoint>): (m: CodePoint)
    requires s != {}
    ensures m in s && forall y :: y in s ==> y <= m
  {
    HasMax(s);
    var m: CodePoint :| m in s && forall y :: y in s ==> y <= m;
    m
  }

  /** The members of a group below hi, in ascending order. */
  function MembersBelow(pos: set<CodePoint>, neg: set<CodePoint>, hi: nat): (r: seq<nat>)
    ensures Increasing(r) && forall x :: x in r <==> 0 <= x < hi && GroupHas(pos, neg, x)
    ensures forall k :: 0 <= k < |r| ==> r[k] < hi
  {
    if hi == 0 then []
    else
      var p := MembersBelow(pos, neg, hi - 1);
      if GroupHas(pos, neg, hi - 1) then
        IncreasingSnoc(p, hi - 1);
        p + [hi - 1]
      else p
  }

  lemma IncreasingSnoc(p: seq<nat>, x: nat)
    requires Increasing(p) && forall k :: 0 <= k < |p| ==> p[k] < x
    ensures Increasing(p + [x]) && forall y :: y in p + [x] <==> y in p || y == x
  {
    var r := p + [x];
    forall i, j | 0 <= i < j < |r| ensures r[i] < r[j] {
      assert r[i] == p[i];
      if j < |p| {
        assert r[j] == p[j];
      }
    }
  }

  /** A Python character class: a character group, negated or not. */
  datatype CharClass = CharClass(negated: bool, items: seq<Chunk>)

  function ClassText(c: CharClass): string
  {
    "[" + (if c.negated then "^" else "") + Join(c.items) + "]"
  }

  /** The code points a character class matches. */
  predicate Matches(c: CharClass, cp: int)
  {
    (cp in Expand(c.items)) != c.negated
  }

  lemma InSpan(lo: int, hi: int, cp: int)
    ensures cp in Span(lo, hi) <==> lo <= cp < hi
  {
    if lo <= cp < hi {
      assert Span(lo, hi)[cp - lo] == cp;
    }
  }

  /**
   * str() of a group with a negative part whose largest code point m is below MAX_UNICODE: the
   * members up to m, then m + 1 twice, so that the group closes with a range up to MAX_UNICODE.
   */
  function ClosedMembers(pos: set<CodePoint>, neg: set<CodePoint>, m: nat): (r: seq<nat>)
    requires m < MAX_UNICODE && neg != {}
    requires forall cp :: cp in pos || cp in neg ==> cp <= m
    ensures forall cp: CodePoint :: cp in Expand(GenerateChunks(r)) <==> GroupHas(pos, neg, cp)
  {
    var below := MembersBelow(pos, neg, m + 1);
    ClosedDenotes(pos, neg, m, below);
    below + [m + 1, m + 1]
  }

  lemma ClosedDenotes(pos: set<CodePoint>, neg: set<CodePoint>, m: nat, below: seq<nat>)
    requires m < MAX_UNICODE && neg != {}
    requires forall cp :: cp in pos || cp in neg ==> cp <= m
    requires below == MembersBelow(pos, neg, m + 1)
    ensures forall cp: CodePoint :: cp in Expand(GenerateChunks(below + [m + 1, m + 1])) <==> GroupHas(pos, neg, cp)
  {
    var r := below + [m + 1, m + 1];
    ClosedSorted(below, m + 1);
    SortSorted(r);
    GroupClosed(r, |below|);
    assert r[..|below|] == below;
    ClosedSpan(pos, neg, m, below);
  }

  lemma ClosedSpan(pos: set<CodePoint>, neg: set<CodePoint>, m: nat, below: seq<nat>)
    requires m < MAX_UNICODE && neg != {}
    requires forall cp :: cp in pos || cp in neg ==> cp <= m
    requires forall x :: x in below <==> 0 <= x < m + 1 && GroupHas(pos, neg, x)
    ensures forall cp: CodePoint :: cp in below + Span(m + 1, MAX_UNICODE + 1) <==> GroupHas(pos, neg, cp)
  {
    forall cp: CodePoint ensures cp in below + Span(m + 1, MAX_UNICODE + 1) <==> GroupHas(pos, neg, cp) {
      InSpan(m + 1, MAX_UNICODE + 1, cp);
    }
  }

  /** Ascending code points below x, then x twice. */
  lemma ClosedSorted(below: seq<nat>, x: nat)
    requires Increasing(below) && forall k :: 0 <= k < |below| ==> below[k] < x
    ensures SortedNats(below + [x, x])
    ensures forall a, b :: 0 <= a < b <= |below| ==> (below + [x, x])[a] < (below + [x, x])[b]
    ensures (below + [x, x])[|below| + 1] == (below + [x, x])[|below|] == x
  {
    var r := below + [x, x];
    forall a, b | 0 <= a < b < |r| ensures r[a] <= r[b] && (b <= |below| ==> r[a] < r[b]) {
      if b < |below| {
        assert r[a] == below[a] && r[b] == below[b];
      } else if a < |below| {
        assert r[a] == below[a];
      }
    }
  }

  /**
   * get_char_class: the class written for a group matches exactly the group's members, in
   * every case of str(): a positive part only, a negative part whose largest code point is below
   * MAX_UNICODE or reaches it, and a negative part only.
   */
  function CharClassOf(pos: set<CodePoint>, neg: set<CodePoint>): (c: CharClass)
    ensures forall cp: CodePoint :: Matches(c, cp) <==> GroupHas(pos, neg, cp)
  {
    if pos != {} then
      if neg != {} then
        var m := if MaxOf(pos) > MaxOf(neg) then MaxOf(pos) else MaxOf(neg);
        if m < MAX_UNICODE then
          CharClass(false, GenerateChunks(ClosedMembers(pos, neg, m)))
        else
          var all := MembersBelow(pos, neg, MAX_UNICODE + 1);
          SortSorted(all);
          GroupExpand(all);
          CharClass(false, GenerateChunks(all))
      else
        var all := SetElems(pos);
        SortSorted(all);
        GroupExpand(all);
        CharClass(false, GenerateChunks(all))
    else if neg != {} then
      var all := SetElems(neg);
      SortSorted(all);
      GroupExpand(all);
      CharClass(true, GenerateChunks(all))
    else
      CharClass(false, [])
  }

  // ---- get_unicode_subset ----

  /** The two-letter general categories of the Unicode tables. */
  const SUBCATEGORIES: seq<string> := [
    "Cc", "Cf", "Cs", "Co", "Cn", "Lu", "Ll", "Lt", "Lm", "Lo", "Mn", "Mc", "Me", "Nd", "Nl",
    "No", "Pc", "Pd", "Ps", "Pe", "Pi", "Pf", "Po", "Sm", "Sc", "Sk", "So", "Zs", "Zl", "Zp"]

  /** The categories the one-letter references C, L, M, N, P, S and Z unite. */
  function Composite(ref: string): (names: seq<string>)
    ensures forall n :: n in names ==> n in SUBCATEGORIES
  {
    if ref == "C" then ["Cc", "Cf", "Cs", "Co", "Cn"]
    else if ref == "L" then ["Lu", "Ll", "Lt", "Lm", "Lo"]
    else if ref == "M" then ["Mn", "Mc", "Me"]
    else if ref == "N" then ["Nd", "Nl", "No"]
    else if ref == "P" then ["Pc", "Pd", "Ps", "Pe", "Pi", "Pf", "Po"]
    else if ref == "S" then ["Sm", "Sc", "Sk", "So"]
    else if ref == "Z" then ["Zs", "Zl", "Zp"]
    else []
  }

  /** A table of categories that holds every two-letter general category. */
  predicate KnownCategories(categories: map<string, set<CodePoint>>)
  {
    forall n :: n in SUBCATEGORIES ==> n in categories
  }

  /** The union of the named categories. */
  function UnionOf(categories: map<string, set<CodePoint>>, names: seq<string>): (r: set<CodePoint>)
    requires forall n :: n in names ==> n in categories
    ensures forall k :: 0 <= k < |names| ==> categories[names[k]] <= r
    ensures forall cp :: cp in r ==> exists k :: 0 <= k < |names| && cp in categories[names[k]]
  {
    if names == [] then {}
    else categories[names[0]] + UnionOf(categories, names[1..])
  }

  /** Python's ref[:2] and ref[2:]. */
  function Head2(ref: string): string
  {
    if |ref| >= 2 then ref[..2] else ref
  }

  function Tail2(ref: string): string
  {
    if |ref| >= 2 then ref[2..] else ""
  }

  /**
   * get_unicode_subset as written: a reference that is neither a category nor a block is
   * rejected only when it both lacks the "Is" prefix and does not end in a block name.
   */
  function UnicodeSubsetAsWritten(ref: string, categories: map<string, set<CodePoint>>,
                                  blocks: map<string, set<CodePoint>>): Result<set<CodePoint>, RegexError>
    requires KnownCategories(categories)
  {
    if Composite(ref) != [] then Ok(UnionOf(categories, Composite(ref)))
    else if ref in categories then Ok(categories[ref])
    else if Head2(ref) != "Is" && Tail2(ref) !in blocks then Err(InvalidReference(ref))
    else if Tail2(ref) in blocks then Ok(blocks[Tail2(ref)])
    else Err(MissingKey(Tail2(ref)))
  }

  /** A table in which every general category is empty. */
  function EmptyCategories(): (r: map<string, set<CodePoint>>)
    ensures KnownCategories(r) && forall n :: n in r ==> n in SUBCATEGORIES
  {
    map n | n in SUBCATEGORIES :: {}
  }

  /** "Is" followed by an unknown block name escapes as a missing key instead of an invalid reference. */
  lemma UnknownBlockLeaks()
    ensures UnicodeSubsetAsWritten("IsFoo", EmptyCategories(), map[]) == Err(MissingKey("Foo"))
  {
    assert "IsFoo"[..2] == "Is" && "IsFoo"[2..] == "Foo";
    assert "IsFoo" !in SUBCATEGORIES;
  }

  /** Any two characters before a block name select the block. */
  lemma AnyPrefixSelectsBlock()
    ensures UnicodeSubsetAsWritten("XXBasicLatin", EmptyCategories(), map["BasicLatin" := {65}]) == Ok({65})
  {
    assert "XXBasicLatin"[2..] == "BasicLatin";
    assert "XXBasicLatin" !in SUBCATEGORIES;
  }

  /**
   * get_unicode_subset: a composite category, a category, or "Is" followed by a block name; any
   * other reference is rejected as invalid.
   */
  function UnicodeSubsetOf(ref: string, categories: map<string, set<CodePoint>>,
                           blocks: map<string, set<CodePoint>>): (r: Result<set<CodePoint>, RegexError>)
    requires KnownCategories(categories)
    ensures r.Ok? <==> Composite(ref) != [] || ref in categories || (Head2(ref) == "Is" && Tail2(ref) in blocks)
    ensures r.Err? ==> r.error == InvalidReference(ref)
    ensures Composite(ref) == [] && ref in categories ==> r == Ok(categories[ref])
    ensures Composite(ref) == [] && ref !in categories && r.Ok? ==> r.value == blocks[Tail2(ref)]
  {
    if Composite(ref) != [] then Ok(UnionOf(categories, Composite(ref)))
    else if ref in categories then Ok(categories[ref])
    else if Head2(ref) != "Is" || Tail2(ref) !in blocks then Err(InvalidReference(ref))
    else Ok(blocks[Tail2(ref)])
  }

  /** A composite reference covers every one of its categories and nothing more. */
  lemma CompositeUnion(ref: string, categories: map<string, set<CodePoint>>, blocks: map<string, set<CodePoint>>, cp: CodePoint)
    requires KnownCategories(categories) && Composite(ref) != []
    ensures UnicodeSubsetOf(ref, categories, blocks).Ok?
    ensures cp in UnicodeSubsetOf(ref, categories, blocks).value <==>
              exists n :: n in Composite(ref) && cp in categories[n]
  {
    var names := Composite(ref);
    var r := UnicodeSubsetOf(ref, categories, blocks).value;
    if cp in r {
      var k :| 0 <= k < |names| && cp in categories[names[k]];
      assert names[k] in names;
    }
    if exists n :: n in names && cp in categories[n] {
      var n :| n in names && cp in categories[n];
      var k :| 0 <= k < |names| && names[k] == n;
    }
  }

  // ---- XsdRegexCharGroup.add ----

  predicate IsShortcut(c: char)
  {
    c == 's' || c == 'S' || c == 'd' || c == 'D' || c == 'i' || c == 'I' || c == 'c' || c == 'C' || c == 'w' || c == 'W'
  }

  /** The characters of a category or block name in the splitting pattern. */
  predicate IsNameChar(c: char)
  {
    ('a' <= c <= 'z') || ('A' <= c <= 'Z') || c == '-' || ('0' <= c <= '9')
  }

  /** The word characters of the reference pattern, restricted to ASCII. */
  predicate IsWordChar(c: char)
  {
    ('a' <= c <= 'z') || ('A' <= c <= 'Z') || ('0' <= c <= '9') || c == '_'
  }

  /** The number of name (or word) characters that start at index i. */
  function NameRun(s: string, i: nat, word: bool): (n: nat)
    requires i <= |s|
    ensures i + n <= |s|
    decreases |s| - i
  {
    if i < |s| && (if word then IsWordChar(s[i]) else IsNameChar(s[i])) then 1 + NameRun(s, i + 1, word)
    else 0
  }

  /** The length of a \x shortcut or a \p{name} or \P{name} token at index i; 0 when none starts there. */
  function TokenAt(s: string, i: nat): (n: nat)
    requires i <= |s|
    ensures n == 0 || (2 <= n && i + n <= |s|)
  {
    if i + 1 < |s| && s[i] == '\\' && IsShortcut(s[i + 1]) then 2
    else if i + 2 < |s| && s[i] == '\\' && (s[i + 1] == 'p' || s[i + 1] == 'P') && s[i + 2] == '{' then
      var n := NameRun(s, i + 3, false);
      if 1 <= n && i + 3 + n < |s| && s[i + 3 + n] == '}' then n + 4 else 0
    else 0
  }

  /**
   * re.split with the token pattern as its one group, from index i, with the current text part
   * starting at index from: text parts and tokens alternate, beginning and ending with text.
   */
  function SplitFrom(s: string, i: nat, from: nat): seq<string>
    requires from <= i <= |s|
    decreases |s| - i
  {
    if i == |s| then [s[from..]]
    else
      var n := TokenAt(s, i);
      if n > 0 then [s[from..i], s[i..i + n]] + SplitFrom(s, i + n, i + n)
      else SplitFrom(s, i + 1, from)
  }

  /** The split at a token: the text before it, the token, then the split after it. */
  lemma TokenStep(s: string, i: nat, from: nat, n: nat)
    requires from <= i < |s| && n == TokenAt(s, i) && n > 0
    ensures SplitFrom(s, i, from) == [s[from..i], s[i..i + n]] + SplitFrom(s, i + n, i + n)
  {
  }

  lemma TokenLength(s: string, i: nat, from: nat, n: nat)
    requires from <= i < |s| && n == TokenAt(s, i) && n > 0
    ensures |SplitFrom(s, i, from)| == 2 + |SplitFrom(s, i + n, i + n)|
  {
    TokenStep(s, i, from, n);
  }

  lemma OddPlusTwo(k: int, m: int)
    requires k % 2 == 1 && m == k + 2
    ensures m % 2 == 1
  {
  }

  /** The split where no token starts goes on at the next character. */
  lemma SkipStep(s: string, i: nat, from: nat)
    requires from <= i < |s| && TokenAt(s, i) == 0
    ensures SplitFrom(s, i, from) == SplitFrom(s, i + 1, from)
  {
  }

  /** Text parts and tokens alternate: there is one more text part than there are tokens. */
  lemma {:induction false} SplitAlternates(s: string, i: nat, from: nat)
    requires from <= i <= |s|
    ensures |SplitFrom(s, i, from)| % 2 == 1
    decreases |s| - i
  {
    if i < |s| {
      var n := TokenAt(s, i);
      if n > 0 {
        SplitAlternates(s, i + n, i + n);
        TokenLength(s, i, from, n);
        OddPlusTwo(|SplitFrom(s, i + n, i + n)|, |SplitFrom(s, i, from)|);
      } else {
        SplitAlternates(s, i + 1, from);
        SkipStep(s, i, from);
      }
    } else {
      assert |SplitFrom(s, i, from)| == 1;
    }
  }

  function SplitParts(s: string): seq<string>
  {
    SplitFrom(s, 0, 0)
  }

  function Concat(parts: seq<string>): string
  {
    if parts == [] then "" else parts[0] + Concat(parts[1..])
  }

  lemma ConcatPair(a: string, b: string, rest: seq<string>)
    ensures Concat([a, b] + rest) == a + (b + Concat(rest))
  {
    var parts := [a, b] + rest;
    assert parts[1..][1..] == rest;
  }

  lemma SliceJoin(s: string, a: nat, b: nat, c: nat)
    requires a <= b <= c <= |s|
    ensures s[a..] == s[a..b] + (s[b..c] + s[c..])
  {
  }

  lemma ConcatOne(x: string)
    ensures Concat([x]) == x
  {
    assert Concat([x]) == x + Concat([]);
  }

  /** Text, token and a tail that joins back into what follows the token. */
  lemma TokenSplitConcat(s: string, from: nat, i: nat, j: nat, rest: seq<string>)
    requires from <= i <= j <= |s|
    requires Concat(rest) == s[j..]
    ensures Concat([s[from..i], s[i..j]] + rest) == s[from..]
  {
    var a, b := s[from..i], s[i..j];
    ConcatPair(a, b, rest);
    SliceJoin(s, from, i, j);
  }

  /** The step of SplitConcat at a token. */
  lemma TokenCase(s: string, i: nat, from: nat, n: nat)
    requires from <= i < |s| && n == TokenAt(s, i) && n > 0
    requires Concat(SplitFrom(s, i + n, i + n)) == s[i + n..]
    ensures Concat(SplitFrom(s, i, from)) == s[from..]
  {
    TokenStep(s, i, from, n);
    TokenSplitConcat(s, from, i, i + n, SplitFrom(s, i + n, i + n));
  }

  /** The parts of a split join back into the string. */
  lemma {:induction false} SplitConcat(s: string, i: nat, from: nat)
    requires from <= i <= |s|
    ensures Concat(SplitFrom(s, i, from)) == s[from..]
    decreases |s| - i
  {
    if i == |s| {
      ConcatOne(s[from..]);
    } else {
      var n := TokenAt(s, i);
      if n > 0 {
        SplitConcat(s, i + n, i + n);
        TokenCase(s, i, from, n);
      } else {
        SkipStep(s, i, from);
        SplitConcat(s, i + 1, from);
      }
    }
  }

  /** A string without backslashes is one text part. */
  lemma {:induction false} SplitPlain(s: string, i: nat, from: nat)
    requires from <= i <= |s| && forall k :: 0 <= k < |s| ==> s[k] != '\\'
    ensures SplitFrom(s, i, from) == [s[from..]]
    decreases |s| - i
  {
    if i < |s| {
      SplitPlain(s, i + 1, from);
    }
  }

  /** _re_unicode_ref.search: a \p{word} or \P{word} reference somewhere from index i on. */
  predicate HasReference(t: string, i: nat)
    requires i <= |t|
    decreases |t| - i
  {
    i + 2 < |t| &&
    ((t[i] == '\\' && (t[i + 1] == 'p' || t[i + 1] == 'P') && t[i + 2] == '{' &&
      var n := NameRun(t, i + 3, true);
      1 <= n && i + 3 + n < |t| && t[i + 3 + n] == '}') ||
     HasReference(t, i + 1))
  }

  /** Python's part[3:-1] for a part of at least four characters. */
  function RefName(part: string): string
  {
    if |part| >= 4 then part[3..|part| - 1] else ""
  }

  const WHITESPACE: string := " \n\t\r"
  const DIGITS: string := "0-9"

  /** The group text that \i stands for, as the source writes it. */
  const I_SHORTCUT_REPLACE: string :=
    ":A-Z_a-z\\u00C0-\\u00D6\\u00D8-\\u00F6\\u00F8-\\u02FF\\u0370-\\u037D\\u037F-\\u1FFF"
    + "\\u200C-\\u200D\\u2070-\\u218F\\u2C00-\\u2FEF\\u3001-\\uD7FF\\uF900-\\uFDCF\\uFDF0-\\uFFFD"

  /** The group text that \c stands for, as the source writes it. */
  const C_SHORTCUT_REPLACE: string :=
    "\\-.0-9:A-Z_a-z\\u00B7\\u00C0-\\u00D6\\u00D8-\\u00F6\\u00F8-\\u037D\\u037F-\\u1FFF\\u200C-"
    + "\\u200D\\u203F\\u2040\\u2070-\\u218F\\u2C00-\\u2FEF\\u3001-\\uD7FF\\uF900-\\uFDCF\\uFDF0-\\uFFFD"

  /** The two parts of a group, and the error that stopped an update. */
  datatype Parts = Parts(pos: set<CodePoint>, neg: set<CodePoint>, error: Option<RegexError>)

  function WithPositive(pos: set<CodePoint>, neg: set<CodePoint>, g: string): Parts
  {
    Parts(pos + Members(ParseGroup(g).chars), neg, ParseGroup(g).error)
  }

  function WithNegative(pos: set<CodePoint>, neg: set<CodePoint>, g: string): Parts
  {
    Parts(pos, neg + Members(ParseGroup(g).chars), ParseGroup(g).error)
  }

  /** The code points \W stands for: punctuation, separators and other characters. */
  function NonWord(categories: map<string, set<CodePoint>>): set<CodePoint>
    requires KnownCategories(categories)
  {
    UnionOf(categories, Composite("P")) + UnionOf(categories, Composite("Z")) + UnionOf(categories, Composite("C"))
  }

  /** What adding one part of the split does to the two parts of the group. */
  function AddPart(part: string, pos: set<CodePoint>, neg: set<CodePoint>,
                   categories: map<string, set<CodePoint>>, blocks: map<string, set<CodePoint>>): Parts
    requires KnownCategories(categories)
  {
    if part == "\\s" then WithPositive(pos, neg, WHITESPACE)
    else if part == "\\S" then WithNegative(pos, neg, WHITESPACE)
    else if part == "\\d" then WithPositive(pos, neg, DIGITS)
    else if part == "\\D" then WithNegative(pos, neg, DIGITS)
    else if part == "\\i" then WithPositive(pos, neg, I_SHORTCUT_REPLACE)
    else if part == "\\I" then WithNegative(pos, neg, I_SHORTCUT_REPLACE)
    else if part == "\\c" then WithPositive(pos, neg, C_SHORTCUT_REPLACE)
    else if part == "\\C" then WithNegative(pos, neg, C_SHORTCUT_REPLACE)
    else if part == "\\w" then Parts(pos, neg + NonWord(categories), None)
    else if part == "\\W" then Parts(pos + NonWord(categories), neg, None)
    else if HasReference(part, 0) then
      match UnicodeSubsetOf(RefName(part), categories, blocks)
      case Err(e) => Parts(pos, neg, Some(e))
      case Ok(cps) =>
        if |part| >= 2 && part[..2] == "\\p" then Parts(pos + cps, neg, None) else Parts(pos, neg + cps, None)
    else WithPositive(pos, neg, part)
  }

  /** Adding the parts in order; the first error stops the update. */
  function AddParts(parts: seq<string>, pos: set<CodePoint>, neg: set<CodePoint>,
                    categories: map<string, set<CodePoint>>, blocks: map<string, set<CodePoint>>): Parts
    requires KnownCategories(categories)
  {
    if parts == [] then Parts(pos, neg, None)
    else
      var p := AddPart(parts[0], pos, neg, categories, blocks);
      if p.error.Some? then p else AddParts(parts[1..], p.pos, p.neg, categories, blocks)
  }

  /** Text without backslashes only adds the code points of its group to the positive part. */
  lemma AddPlainText(s: string, pos: set<CodePoint>, neg: set<CodePoint>,
                     categories: map<string, set<CodePoint>>, blocks: map<string, set<CodePoint>>)
    requires KnownCategories(categories) && forall k :: 0 <= k < |s| ==> s[k] != '\\'
    ensures AddParts(SplitParts(s), pos, neg, categories, blocks) ==
              Parts(pos + Members(ParseGroup(s).chars), neg, ParseGroup(s).error)
  {
    SplitPlain(s, 0, 0);
    assert SplitParts(s) == [s];
    assert !HasReference(s, 0) by {
      NoReference(s, 0);
    }
    assert s != "\\s" && s != "\\S" && s != "\\d" && s != "\\D" && s != "\\w" && s != "\\W" by {
      if |s| == 2 {
        assert s[0] != '\\';
      }
    }
    assert s != "\\i" && s != "\\I" && s != "\\c" && s != "\\C" by {
      if |s| == 2 {
        assert s[0] != '\\';
      }
    }
  }

  lemma {:induction false} NoReference(t: string, i: nat)
    requires i <= |t| && forall k :: 0 <= k < |t| ==> t[k] != '\\'
    ensures !HasReference(t, i)
    decreases |t| - i
  {
    if i + 2 < |t| {
      NoReference(t, i + 1);
    }
  }

  /** An empty text part changes nothing. */
  lemma AddEmptyPart(pos: set<CodePoint>, neg: set<CodePoint>,
                     categories: map<string, set<CodePoint>>, blocks: map<string, set<CodePoint>>)
    requires KnownCategories(categories)
    ensures AddPart("", pos, neg, categories, blocks) == Parts(pos, neg, None)
  {
    assert ParseGroup("") == GroupParse([], None);
    assert Members([]) == {};
  }

  /** \d adds the ten decimal digits to the positive part. */
  lemma AddDigits(pos: set<CodePoint>, neg: set<CodePoint>,
                  categories: map<string, set<CodePoint>>, blocks: map<string, set<CodePoint>>)
    requires KnownCategories(categories)
    ensures var r := AddParts(SplitParts("\\d"), pos, neg, categories, blocks);
      r.neg == neg && r.error.None? &&
      forall cp: CodePoint :: cp in r.pos <==> cp in pos || '0' as int <= cp <= '9' as int
  {
    var s := "\\d";
    assert TokenAt(s, 0) == 2;
    assert s[0..2] == s && s[0..0] == "" && s[2..] == "";
    assert SplitFrom(s, 2, 2) == [""];
    assert SplitParts(s) == ["", s, ""];
    RangeGroup('0', '9');
    assert DIGITS == ['0', '-', '9'];
    var digits := Members(ParseGroup(DIGITS).chars);
    forall cp: CodePoint ensures cp in digits <==> '0' as int <= cp <= '9' as int {
      InSpan('0' as int, '9' as int + 1, cp);
    }
    AddEmptyPart(pos, neg, categories, blocks);
    AddEmptyPart(pos + digits, neg, categories, blocks);
    assert ["", s, ""][1..] == [s, ""] && [s, ""][1..] == [""] && [""][1..] == [];
    assert AddPart(s, pos, neg, categories, blocks) == Parts(pos + digits, neg, None);
    assert AddParts([""], pos + digits, neg, categories, blocks) == Parts(pos + digits, neg, None);
    assert AddParts([s, ""], pos, neg, categories, blocks) == Parts(pos + digits, neg, None);
    assert AddParts(["", s, ""], pos, neg, categories, blocks) == Parts(pos + digits, neg, None);
  }

  /** An XML Schema character group: a positive and a negative part. */
  class CharGroup {
    var positive: UnicodeSubset
    var negative: UnicodeSubset

    ghost predicate Valid()
      reads this
    {
      positive != negative
    }

    constructor ()
      ensures Valid() && fresh(positive) && fresh(negative)
      ensures positive.store == {} && negative.store == {}
    {
      positive := new UnicodeSubset();
      negative := new UnicodeSubset();
    }

    /** __contains__ */
    predicate Contains(cp: int)
      reads this, positive, negative
    {
      GroupHas(positive.store, negative.store, cp)
    }

    /** clear: both parts become empty. */
    method Clear()
      requires Valid()
      modifies positive, negative
      ensures positive.store == {} && negative.store == {}
      ensures forall cp :: !Contains(cp)
    {
      positive.store := {};
      negative.store := {};
    }

    /** complement: the two parts are swapped. */
    method Complement()
      requires Valid()
      modifies this
      ensures Valid() && positive == old(negative) && negative == old(positive)
      ensures old(negative.store) == {} && old(positive.store) != {} ==>
                forall cp :: Contains(cp) == !old(Contains(cp))
    {
      positive, negative := negative, positive;
    }

    /** complement, corrected: the group's members become exactly the code points it lacked. */
    method ComplementMembers()
      requires Valid()
      modifies positive, negative
      ensures Group(positive.store, negative.store) == Complemented(old(Group(positive.store, negative.store)))
      ensures forall cp: CodePoint :: Contains(cp) == !old(Contains(cp))
    {
      var g := Complemented(Group(positive.store, negative.store));
      positive.store, negative.store := g.pos, g.neg;
    }

    /** One part of add. */
    method AddOne(part: string, categories: map<string, set<CodePoint>>, blocks: map<string, set<CodePoint>>)
      returns (err: Option<RegexError>)
      requires Valid() && KnownCategories(categories)
      modifies positive, negative
      ensures Parts(positive.store, negative.store, err) ==
                AddPart(part, old(positive.store), old(negative.store), categories, blocks)
    {
      if part == "\\s" {
        err := positive.AddString(WHITESPACE);
      } else if part == "\\S" {
        err := negative.AddString(WHITESPACE);
      } else if part == "\\d" {
        err := positive.AddString(DIGITS);
      } else if part == "\\D" {
        err := negative.AddString(DIGITS);
      } else if part == "\\i" {
        err := positive.AddString(I_SHORTCUT_REPLACE);
      } else if part == "\\I" {
        err := negative.AddString(I_SHORTCUT_REPLACE);
      } else if part == "\\c" {
        err := positive.AddString(C_SHORTCUT_REPLACE);
      } else if part == "\\C" {
        err := negative.AddString(C_SHORTCUT_REPLACE);
      } else if part == "\\w" {
        negative.store := negative.store + NonWord(categories);
        err := None;
      } else if part == "\\W" {
        positive.store := positive.store + NonWord(categories);
        err := None;
      } else if HasReference(part, 0) {
        var subset := UnicodeSubsetOf(RefName(part), categories, blocks);
        if subset.Err? {
          err := Some(subset.error);
        } else if |part| >= 2 && part[..2] == "\\p" {
          positive.store := positive.store + subset.value;
          err := None;
        } else {
          negative.store := negative.store + subset.value;
          err := None;
        }
      } else {
        err := positive.AddString(part);
      }
    }

    /**
     * add: the string is split into text and shortcut or reference tokens, and each part is
     * added in turn until one fails.
     */
    method Add(s: string, categories: map<string, set<CodePoint>>, blocks: map<string, set<CodePoint>>)
      returns (err: Option<RegexError>)
      requires Valid() && KnownCategories(categories)
      modifies positive, negative
      ensures Parts(positive.store, negative.store, err) ==
                AddParts(SplitParts(s), old(positive.store), old(negative.store), categories, blocks)
    {
      var parts := SplitParts(s);
      err := None;
      var k := 0;
      while k < |parts| && err.None?
        invariant 0 <= k <= |parts|
        invariant err.None? ==>
          AddParts(parts[k..], positive.store, negative.store, categories, blocks) ==
          AddParts(parts, old(positive.store), old(negative.store), categories, blocks)
        invariant err.Some? ==>
          Parts(positive.store, negative.store, err) ==
          AddParts(parts, old(positive.store), old(negative.store), categories, blocks)
        decreases |parts| - k, if err.None? then 1 else 0
      {
        assert parts[k..][1..] == parts[k + 1..];
        err := AddOne(parts[k], categories, blocks);
        k := k + 1;
      }
    }

    /** get_char_class */
    function GetCharClass(): (r: string)
      reads this, positive, negative
      ensures exists c :: r == ClassText(c) && forall cp: CodePoint :: Matches(c, cp) <==> Contains(cp)
    {
      ClassText(CharClassOf(positive.store, negative.store))
    }
  }

  // ---- parse_character_class ----

  /** The index of the ']' or '-[' that ends a class's group, skipping escaped characters. */
  function ScanEnd(xml: string, pos: nat): (r: Option<nat>)
    ensures r.Some? ==> pos <= r.value < |xml|
    ensures r.Some? ==> xml[r.value] == ']' || (r.value + 1 < |xml| && xml[r.value] == '-' && xml[r.value + 1] == '[')
    decreases |xml| + 2 - pos
  {
    if pos >= |xml| then None
    else if xml[pos] == '\\' then ScanEnd(xml, pos + 2)
    else if xml[pos] == ']' || (pos + 1 < |xml| && xml[pos] == '-' && xml[pos + 1] == '[') then Some(pos)
    else ScanEnd(xml, pos + 1)
  }

  /** The group a character group text builds, or the error that stops it. */
  function GroupOf(text: string, categories: map<string, set<CodePoint>>, blocks: map<string, set<CodePoint>>): Result<Group, RegexError>
    requires KnownCategories(categories)
  {
    var added := AddParts(SplitParts(text), {}, {}, categories, blocks);
    if added.error.Some? then Err(added.error.value) else Ok(Group(added.pos, added.neg))
  }

  /**
   * parse_character_class: the group of the class that starts at index start, and the index of
   * its closing bracket. IndexOutOfRange stands for the IndexError of reading past the end.
   */
  function ParseClass(xml: string, start: nat, categories: map<string, set<CodePoint>>,
                      blocks: map<string, set<CodePoint>>): (r: Result<(Group, nat), RegexError>)
    requires KnownCategories(categories)
    ensures r.Ok? ==> start < r.value.1 < |xml| && xml[r.value.1] == ']'
    decreases |xml| - start, 1
  {
    if start >= |xml| then Err(IndexOutOfRange)
    else if xml[start] != '[' then Err(NotAClass(start))
    else if start + 1 >= |xml| then Err(IndexOutOfRange)
    else
      var negative := xml[start + 1] == '^';
      var first := if negative then start + 2 else start + 1;
      match ScanEnd(xml, first)
      case None => Err(IndexOutOfRange)
      case Some(e) =>
        if e == first then Err(EmptyClass(start))
        else
          match GroupOf(xml[first..e], categories, blocks)
          case Err(err) => Err(err)
          case Ok(g) => ClassEnd(xml, start, e, if negative then Complemented(g) else g, categories, blocks)
  }

  /** The rest of a class once its group g, ended at index e, is read: ']' or a subtraction. */
  function ClassEnd(xml: string, start: nat, e: nat, g: Group, categories: map<string, set<CodePoint>>,
                    blocks: map<string, set<CodePoint>>): (r: Result<(Group, nat), RegexError>)
    requires KnownCategories(categories) && start < e < |xml|
    ensures r.Ok? ==> e <= r.value.1 < |xml| && xml[r.value.1] == ']'
    decreases |xml| - start, 0
  {
    if xml[e] == ']' then Ok((g, e))
    else
      match ParseClass(xml, e + 1, categories, blocks)
      case Err(err) => Err(err)
      case Ok((sub, q)) =>
        if q + 1 >= |xml| then Err(IndexOutOfRange)
        else if xml[q + 1] != ']' then Err(UnterminatedClass(start))
        else Ok((Subtracted(g, sub), q + 1))
  }

  /** [^...] matches exactly the code points that the group inside the brackets lacks. */
  lemma NegatedClass(xml: string, start: nat, e: nat, categories: map<string, set<CodePoint>>,
                     blocks: map<string, set<CodePoint>>)
    requires KnownCategories(categories)
    requires start + 2 < e < |xml| && xml[start] == '[' && xml[start + 1] == '^'
    requires ScanEnd(xml, start + 2) == Some(e) && xml[e] == ']'
    requires GroupOf(xml[start + 2..e], categories, blocks).Ok?
    ensures ParseClass(xml, start, categories, blocks).Ok?
    ensures ParseClass(xml, start, categories, blocks).value.1 == e
    ensures forall cp: CodePoint :: Has(ParseClass(xml, start, categories, blocks).value.0, cp) ==
              !Has(GroupOf(xml[start + 2..e], categories, blocks).value, cp)
  {
  }

  /** A class whose group is followed by '-[' goes on to the subtraction. */
  lemma ClassGoesOn(xml: string, start: nat, e: nat, categories: map<string, set<CodePoint>>,
                    blocks: map<string, set<CodePoint>>)
    requires KnownCategories(categories)
    requires start + 1 < e < |xml| && xml[start] == '[' && xml[start + 1] != '^'
    requires ScanEnd(xml, start + 1) == Some(e)
    requires GroupOf(xml[start + 1..e], categories, blocks).Ok?
    ensures ParseClass(xml, start, categories, blocks) ==
              ClassEnd(xml, start, e, GroupOf(xml[start + 1..e], categories, blocks).value, categories, blocks)
  {
  }

  /** [g-[h]] matches the code points of g that h does not match. */
  lemma SubtractedClass(xml: string, start: nat, e: nat, categories: map<string, set<CodePoint>>,
                        blocks: map<string, set<CodePoint>>)
    requires KnownCategories(categories)
    requires start + 1 < e < |xml| && xml[start] == '[' && xml[start + 1] != '^'
    requires ScanEnd(xml, start + 1) == Some(e) && xml[e] != ']'
    requires GroupOf(xml[start + 1..e], categories, blocks).Ok?
    requires ParseClass(xml, e + 1, categories, blocks).Ok?
    requires var q := ParseClass(xml, e + 1, categories, blocks).value.1; q + 1 < |xml| && xml[q + 1] == ']'
    ensures ParseClass(xml, start, categories, blocks).Ok?
    ensures forall cp: CodePoint :: Has(ParseClass(xml, start, categories, blocks).value.0, cp) ==
              (Has(GroupOf(xml[start + 1..e], categories, blocks).value, cp) &&
               !Has(ParseClass(xml, e + 1, categories, blocks).value.0, cp))
  {
    ClassGoesOn(xml, start, e, categories, blocks);
  }

  // ---- get_python_regex ----

  /** The index of the first '}' from index i on. */
  function CloseBrace(xml: string, i: nat): (r: Option<nat>)
    ensures r.Some? ==> i <= r.value < |xml| && xml[r.value] == '}'
    ensures r.Some? ==> forall k :: i <= k < r.value ==> xml[k] != '}'
    ensures r.None? ==> forall k :: i <= k < |xml| ==> xml[k] != '}'
    decreases |xml| - i
  {
    if i >= |xml| then None else if xml[i] == '}' then Some(i) else CloseBrace(xml, i + 1)
  }

  /** The class written for the group a shortcut or reference escape builds. */
  function EscapeClass(text: string, next: nat, categories: map<string, set<CodePoint>>,
                       blocks: map<string, set<CodePoint>>): Result<(string, nat), RegexError>
    requires KnownCategories(categories)
  {
    match GroupOf(text, categories, blocks)
    case Err(e) => Err(e)
    case Ok(g) => Ok((ClassText(CharClassOf(g.pos, g.neg)), next))
  }

  /** What one turn of get_python_regex's loop appends at index pos, and where the next turn starts. */
  function Step(xml: string, pos: nat, categories: map<string, set<CodePoint>>,
                blocks: map<string, set<CodePoint>>): (r: Result<(string, nat), RegexError>)
    requires pos < |xml| && KnownCategories(categories)
    ensures r.Ok? ==> pos < r.value.1 <= |xml| + 1
  {
    var ch := xml[pos];
    if ch == '.' then Ok(("[^\r\n]", pos + 1))
    else if ch == '^' || ch == '$' then Ok(("\\" + [ch], pos + 1))
    else if ch == '[' then
      match ParseClass(xml, pos, categories, blocks)
      case Err(e) => if e == IndexOutOfRange then Err(UnterminatedClass(pos)) else Err(e)
      case Ok((g, end)) => Ok((ClassText(CharClassOf(g.pos, g.neg)), end + 1))
    else if ch == '\\' then
      if pos + 1 >= |xml| then Ok(("\\", pos + 2))
      else
        var c := xml[pos + 1];
        if c in "iIcC" then EscapeClass(['\\', c], pos + 2, categories, blocks)
        else if c in "pP" then
          match CloseBrace(xml, pos + 1)
          case None => Err(TruncatedEscape(pos))
          case Some(b) => EscapeClass(xml[pos..b + 1], b + 1, categories, blocks)
        else Ok(("\\" + [c], pos + 2))
    else Ok(([ch], pos + 1))
  }

  /** The Python regex text for the XML regex from index pos on, closed by '$'. */
  function TranslateFrom(xml: string, pos: nat, categories: map<string, set<CodePoint>>,
                         blocks: map<string, set<CodePoint>>): (r: Result<string, RegexError>)
    requires KnownCategories(categories)
    ensures r.Ok? ==> |r.value| >= 1 && r.value[|r.value| - 1] == '$'
    decreases |xml| + 1 - pos
  {
    if pos >= |xml| then Ok("$")
    else
      match Step(xml, pos, categories, blocks)
      case Err(e) => Err(e)
      case Ok((text, next)) =>
        match TranslateFrom(xml, next, categories, blocks)
        case Err(e) => Err(e)
        case Ok(rest) => Ok(text + rest)
  }

  /** Text before a translation that has not failed. */
  function Prefixed(out: string, r: Result<string, RegexError>): Result<string, RegexError>
  {
    if r.Ok? then Ok(out + r.value) else r
  }

  /** get_python_regex: a Python regex anchored by '^' and '$'. */
  function PythonRegex(xml: string, categories: map<string, set<CodePoint>>,
                       blocks: map<string, set<CodePoint>>): (r: Result<string, RegexError>)
    requires KnownCategories(categories)
    ensures r.Ok? ==> |r.value| >= 2 && r.value[0] == '^' && r.value[|r.value| - 1] == '$'
  {
    Prefixed("^", TranslateFrom(xml, 0, categories, blocks))
  }

  /** A dot matches any character but the line ends. */
  lemma DotTranslated(xml: string, pos: nat, categories: map<string, set<CodePoint>>,
                      blocks: map<string, set<CodePoint>>)
    requires KnownCategories(categories) && pos < |xml| && xml[pos] == '.'
    ensures TranslateFrom(xml, pos, categories, blocks) == Prefixed("[^\r\n]", TranslateFrom(xml, pos + 1, categories, blocks))
  {
  }

  /** A character with no special meaning is copied. */
  predicate Ordinary(c: char)
  {
    c != '.' && c != '^' && c != '$' && c != '[' && c != '\\'
  }

  /** A regex of ordinary characters only is copied between the anchors. */
  lemma {:induction false} OrdinaryCopied(xml: string, pos: nat, categories: map<string, set<CodePoint>>,
                                          blocks: map<string, set<CodePoint>>)
    requires KnownCategories(categories) && pos <= |xml|
    requires forall k :: pos <= k < |xml| ==> Ordinary(xml[k])
    ensures TranslateFrom(xml, pos, categories, blocks) == Ok(xml[pos..] + "$")
    decreases |xml| - pos
  {
    if pos < |xml| {
      OrdinaryCopied(xml, pos + 1, categories, blocks);
      assert Step(xml, pos, categories, blocks) == Ok(([xml[pos]], pos + 1));
      assert xml[pos..] == [xml[pos]] + xml[pos + 1..];
      SeqAssoc([xml[pos]], xml[pos + 1..], "$");
      assert TranslateFrom(xml, pos, categories, blocks) == Ok([xml[pos]] + (xml[pos + 1..] + "$"));
    } else {
      assert xml[pos..] + "$" == "$";
    }
  }

  /** The search for the '}' that closes a \p{...} or \P{...} escape. */
  method FindBrace(xml: string, i: nat) returns (b: Option<nat>)
    ensures b == CloseBrace(xml, i)
  {
    var k := i;
    while k < |xml| && xml[k] != '}'
      invariant i <= k
      invariant CloseBrace(xml, i) == CloseBrace(xml, k)
    {
      k := k + 1;
    }
    b := if k < |xml| then Some(k) else None;
  }

  /** The group object cleared, filled from text and written as a class. */
  method EscapeStep(text: string, next: nat, group: CharGroup, categories: map<string, set<CodePoint>>,
                    blocks: map<string, set<CodePoint>>) returns (r: Result<(string, nat), RegexError>)
    requires KnownCategories(categories) && group.Valid()
    modifies group.positive, group.negative
    ensures r == EscapeClass(text, next, categories, blocks)
  {
    group.Clear();
    var err := group.Add(text, categories, blocks);
    if err.Some? {
      return Err(err.value);
    }
    r := Ok((group.GetCharClass(), next));
  }

  /** \i, \I, \c and \C are expanded through a group. */
  lemma StepShortcut(xml: string, pos: nat, categories: map<string, set<CodePoint>>,
                     blocks: map<string, set<CodePoint>>)
    requires KnownCategories(categories) && pos + 1 < |xml| && xml[pos] == '\\' && xml[pos + 1] in "iIcC"
    ensures Step(xml, pos, categories, blocks) == EscapeClass(['\\', xml[pos + 1]], pos + 2, categories, blocks)
  {
  }

  /** \p{...} and \P{...} are expanded through a group, up to the closing brace. */
  lemma StepReference(xml: string, pos: nat, categories: map<string, set<CodePoint>>,
                      blocks: map<string, set<CodePoint>>)
    requires KnownCategories(categories) && pos + 1 < |xml| && xml[pos] == '\\' && xml[pos + 1] in "pP"
    ensures CloseBrace(xml, pos + 1).None? ==> Step(xml, pos, categories, blocks) == Err(TruncatedEscape(pos))
    ensures CloseBrace(xml, pos + 1).Some? ==>
              var b := CloseBrace(xml, pos + 1).value;
              Step(xml, pos, categories, blocks) == EscapeClass(xml[pos..b + 1], b + 1, categories, blocks)
  {
  }

  /** A shortcut escape \i, \I, \c or \C at index pos, built in the group object. */
  method ShortcutStep(xml: string, pos: nat, group: CharGroup, categories: map<string, set<CodePoint>>,
                      blocks: map<string, set<CodePoint>>) returns (r: Result<(string, nat), RegexError>)
    requires KnownCategories(categories) && group.Valid()
    requires pos + 1 < |xml| && xml[pos] == '\\' && xml[pos + 1] in "iIcC"
    modifies group.positive, group.negative
    ensures r == Step(xml, pos, categories, blocks)
  {
    StepShortcut(xml, pos, categories, blocks);
    r := EscapeStep(['\\', xml[pos + 1]], pos + 2, group, categories, blocks);
  }

  /** A reference escape \p{...} or \P{...} at index pos, built in the group object. */
  method ReferenceStep(xml: string, pos: nat, group: CharGroup, categories: map<string, set<CodePoint>>,
                       blocks: map<string, set<CodePoint>>) returns (r: Result<(string, nat), RegexError>)
    requires KnownCategories(categories) && group.Valid()
    requires pos + 1 < |xml| && xml[pos] == '\\' && xml[pos + 1] in "pP"
    modifies group.positive, group.negative
    ensures r == Step(xml, pos, categories, blocks)
  {
    StepReference(xml, pos, categories, blocks);
    var b := FindBrace(xml, pos + 1);
    if b.None? {
      r := Err(TruncatedEscape(pos));
    } else {
      r := EscapeStep(xml[pos..b.value + 1], b.value + 1, group, categories, blocks);
    }
  }

  /** One turn of get_python_regex's loop. */
  method TranslateStep(xml: string, pos: nat, group: CharGroup, categories: map<string, set<CodePoint>>,
                       blocks: map<string, set<CodePoint>>) returns (r: Result<(string, nat), RegexError>)
    requires pos < |xml| && KnownCategories(categories) && group.Valid()
    modifies group.positive, group.negative
    ensures r == Step(xml, pos, categories, blocks)
  {
    if xml[pos] == '\\' && pos + 1 < |xml| && xml[pos + 1] in "iIcC" {
      r := ShortcutStep(xml, pos, group, categories, blocks);
    } else if xml[pos] == '\\' && pos + 1 < |xml| && xml[pos + 1] in "pP" {
      r := ReferenceStep(xml, pos, group, categories, blocks);
    } else {
      r := Step(xml, pos, categories, blocks);
    }
  }

  /** get_python_regex */
  method GetPythonRegex(xml: string, categories: map<string, set<CodePoint>>, blocks: map<string, set<CodePoint>>)
    returns (r: Result<string, RegexError>)
    requires KnownCategories(categories)
    ensures r == PythonRegex(xml, categories, blocks)
  {
    var out := "^";
    var pos := 0;
    var group := new CharGroup();
    while pos < |xml|
      invariant pos <= |xml| + 1 && group.Valid() && fresh(group.positive) && fresh(group.negative)
      invariant PythonRegex(xml, categories, blocks) == Prefixed(out, TranslateFrom(xml, pos, categories, blocks))
      decreases |xml| + 1 - pos
    {
      var step := TranslateStep(xml, pos, group, categories, blocks);
      if step.Err? {
        return Err(step.error);
      }
      var rest := TranslateFrom(xml, step.value.1, categories, blocks);
      if rest.Ok? {
        SeqAssoc(out, step.value.0, rest.value);
      }
      out, pos := out + step.value.0, step.value.1;
    }
    r := Ok(out + "$");
  }
}
