// The encoding side of a model group: the content to encode is put in the model's order,
// each name is matched through the model visitor, the character data parts go into the text
// of the element or the tails of the children before them, and the errors are indexed by the
// position of the name among the names of the content.
module GroupEncoding {
  import opened Wrappers
  import opened Strs
  import opened Particles
  import Wildcards
  import opened Elements
  import opened Models
  import opened Content
  import opened Groups
  import Validation

  // ---- the content to encode ----

  /**
   * The content of the element data: missing, a dictionary (given as its pairs of a name and
   * one value, the lists of the dictionary flattened in order), a list of pairs, or a value of
   * another type, which may or may not be an iterable of pairs.
   */
  datatype ElementContent =
    | NoContent
    | DictContent(pairs: seq<Item<string>>)
    | ListContent(pairs: seq<Item<string>>)
    | OtherContent(asPairs: Option<seq<Item<string>>>)

  /** The content put in the order it is encoded in, or why it could not be. */
  datatype Selection =
    | Selected(items: seq<Item<string>>, wrongType: bool)
    | SelectFailed(failure: VisitError)
    | NotIterable

  /**
   * The choice of the content to encode: nothing for a missing content; a dictionary, or any
   * content when unordered is set, reordered by the model; a value that is not a list is of the
   * wrong type and encodes nothing; a list is kept as it is when the converter is lossless and
   * is collapsed by the model otherwise.
   */
  method SelectContent(g: Particle, content: ElementContent, unordered: bool, losslessly: bool,
                       dns: string, globals: map<string, ElementDecl>) returns (r: Selection)
    requires g.Group?
    ensures content.NoContent? ==> r == Selected([], false)
    ensures content.OtherContent? && !unordered ==> r == Selected([], true)
    ensures content.OtherContent? && content.asPairs.None? && unordered ==> r == NotIterable
    ensures content.ListContent? && !unordered && losslessly ==> r == Selected(content.pairs, false)
    ensures r.Selected? && (content.DictContent? || content.ListContent?) && !(content.ListContent? && !unordered) ==>
              !r.wrongType
              && (forall n :: ValuesOf(r.items, n) == ValuesOf(content.pairs, n))
              && ByIndex(CDataOf(r.items)) && multiset(CDataOf(r.items)) == multiset(CDataOf(content.pairs))
    ensures r.Selected? && content.OtherContent? && unordered ==>
              !r.wrongType
              && (forall n :: ValuesOf(r.items, n) == ValuesOf(content.asPairs.value, n))
              && ByIndex(CDataOf(r.items)) && multiset(CDataOf(r.items)) == multiset(CDataOf(content.asPairs.value))
    ensures r.Selected? && content.ListContent? && !unordered && !losslessly ==>
              !r.wrongType && multiset(r.items) == multiset(content.pairs) && CDataOf(r.items) == CDataOf(content.pairs)
    ensures r.SelectFailed? ==> r.failure != Ended && r.failure != IndexError
    ensures r.NotIterable? ==> content.OtherContent? && content.asPairs.None? && unordered
  {
    if content.NoContent? {
      return Selected([], false);
    }
    var pairs: seq<Item<string>>;
    if content.DictContent? || unordered {
      if content.OtherContent? && content.asPairs.None? {
        return NotIterable;
      }
      pairs := if content.OtherContent? then content.asPairs.value else content.pairs;
      var out, err, _, _, _ := IterUnorderedContent(pairs, g, dns, globals);
      if err.Some? {
        return SelectFailed(err.value);
      }
      return Selected(out, false);
    }
    if content.OtherContent? {
      return Selected([], true);
    }
    if losslessly {
      return Selected(content.pairs, false);
    }
    var out, err := IterCollapsedContent(content.pairs, g, dns, globals);
    if err.Some? {
      return SelectFailed(err.value);
    }
    return Selected(out, false);
  }

  // ---- where the character data goes ----

  /** The padding of an element's content: a newline and indent times level spaces. */
  function Pad(indent: int, level: nat): string
  {
    Validation.Padding(indent, level)
  }

  /** Python's s[:-n] for an int n. */
  function DropLast(s: string, n: int): (r: string)
    ensures r <= s
  {
    if n == 0 then []
    else if n > 0 then s[..if n >= |s| then 0 else |s| - n]
    else s[..if -n >= |s| then |s| else -n]
  }

  /** padding[:-indent] or '\n': what the tail of the last child ends in. */
  function TailEnd(indent: int, level: nat): (r: string)
    ensures r != [] && r[0] == '\n'
  {
    var p := DropLast(Pad(indent, level), indent);
    if p == [] then "\n" else p
  }

  /**
   * The tail of the last child closes the content at the indentation of the element itself,
   * one level up; with no indentation it is a bare newline.
   */
  lemma TailEndDedents(indent: int, level: nat)
    requires level >= 1
    ensures indent > 0 ==> TailEnd(indent, level) == Pad(indent, level - 1)
    ensures indent <= 0 ==> TailEnd(indent, level) == "\n"
  {
    var p := Pad(indent, level);
    if indent > 0 {
      assert indent * level == indent * (level - 1) + indent;
      var q := Pad(indent, level - 1);
      var d := DropLast(p, indent);
      assert |d| == |q|;
      forall t | 0 <= t < |d| ensures d[t] == q[t] {
        if t > 0 { assert d[t] == p[t]; }
      }
      assert d == q;
    } else if indent < 0 {
      assert indent * level <= 0;
      assert |p| == 1;
    }
  }

  /** One character data value added where it goes: after the padding, or after what is there and before a padding. */
  function AddCData(t: Option<string>, v: string, pad: string): string
  {
    if t.None? then pad + v else t.value + v + pad
  }

  /** The text or tail that the values give, added one after the other to init. */
  function Joined(init: Option<string>, vals: seq<string>, pad: string): (r: Option<string>)
    ensures vals == [] ==> r == init
    ensures vals != [] ==> r.Some?
    decreases |vals|
  {
    if vals == [] then init else Some(AddCData(Joined(init, vals[..|vals| - 1], pad), vals[|vals| - 1], pad))
  }

  /** Adding values keeps what was already there at the front, and puts every value in. */
  lemma {:induction false} JoinedExtends(init: Option<string>, vals: seq<string>, pad: string)
    ensures init.Some? && vals != [] ==> init.value <= Joined(init, vals, pad).value
    ensures forall k :: 0 <= k < |vals| ==> IsInfix(vals[k], Joined(init, vals, pad).value)
    decreases |vals|
  {
    if vals != [] {
      var front := vals[..|vals| - 1];
      var last := vals[|vals| - 1];
      JoinedExtends(init, front, pad);
      var j := Joined(init, front, pad);
      var r := Joined(init, vals, pad).value;
      assert r == AddCData(j, last, pad);
      forall k | 0 <= k < |vals| ensures IsInfix(vals[k], r) {
        if k == |vals| - 1 {
          if j.None? {
            assert r == pad + last;
            InfixAt(last, r, |pad|);
          } else {
            assert r == j.value + last + pad;
            InfixAt(last, r, |j.value|);
          }
        } else {
          assert vals[k] == front[k];
          if j.None? {
            assert false;
          } else {
            InfixGrows(vals[k], j.value, r);
          }
        }
      }
      if init.Some? {
        if front == [] {
          assert j == init;
        }
        assert j.Some? && init.value <= j.value;
        assert j.value <= r;
      }
    }
  }

  /** s occurs somewhere in t. */
  predicate IsInfix(s: string, t: string)
  {
    exists a :: 0 <= a <= |t| - |s| && Window(t, a, |s|) == s
  }

  function Window(t: string, a: int, n: nat): string
    requires 0 <= a <= |t| - n
  {
    t[a..a + n]
  }

  lemma InfixAt(s: string, t: string, a: nat)
    requires a + |s| <= |t| && t[a..a + |s|] == s
    ensures IsInfix(s, t)
  {
    assert Window(t, a, |s|) == s;
  }

  lemma InfixGrows(s: string, t: string, u: string)
    requires IsInfix(s, t) && t <= u
    ensures IsInfix(s, u)
  {
    var a :| 0 <= a <= |t| - |s| && Window(t, a, |s|) == s;
    assert Window(u, a, |s|) == Window(t, a, |s|);
  }

  /** The character data values among items[lo..hi], in order. */
  function CDataValues(items: seq<Item<string>>, lo: nat, hi: nat): (r: seq<string>)
    decreases hi
  {
    if hi <= lo || hi > |items| then []
    else CDataValues(items, lo, hi - 1) + (if items[hi - 1].0.CData? then [items[hi - 1].1] else [])
  }

  /** The number of names among items[..i]: the position of the next name among the names. */
  function TagsBefore(items: seq<Item<string>>, i: nat): (r: nat)
    requires i <= |items|
    ensures r <= i
  {
    if i == 0 then 0 else TagsBefore(items, i - 1) + (if items[i - 1].0.Tag? then 1 else 0)
  }

  /** A child element encoded: its name, its tail, and the declaration that encodes it. */
  datatype EChild<D> = EChild(name: string, tail: Option<string>, encoder: D)

  /** The end, in items, of the stretch of character data that goes to the tail of child k. */
  function SegmentEnd(kept: seq<nat>, k: nat, i: nat): nat
  {
    if k + 1 < |kept| then kept[k + 1] else i
  }

  /** The last tail made to end in e, a tail that is there stripped first. */
  function FinalTail(t: Option<string>, e: string): string
  {
    if t.None? then e else Strip(t.value) + e
  }

  /** The text: the element's own text with the character data of items[..i] before the first child added. */
  function TextAt(items: seq<Item<string>>, kept: seq<nat>, i: nat, text0: Option<string>, pad: string): Option<string>
  {
    Joined(text0, CDataValues(items, 0, if kept == [] then i else kept[0]), pad)
  }

  /** The tail of child k: the character data between it and the next child, or the end of items[..i]. */
  function TailAt(items: seq<Item<string>>, kept: seq<nat>, k: nat, i: nat, pad: string): Option<string>
    requires k < |kept|
  {
    Joined(None, CDataValues(items, kept[k] + 1, SegmentEnd(kept, k, i)), pad)
  }

  /** Tails with the same start and end are the same. */
  lemma TailAtSame(items: seq<Item<string>>, ks: seq<nat>, kept: seq<nat>, k: nat, i': nat, i: nat, pad: string)
    requires k < |ks| && k < |kept| && ks[k] == kept[k] && SegmentEnd(ks, k, i') == SegmentEnd(kept, k, i)
    ensures TailAt(items, ks, k, i', pad) == TailAt(items, kept, k, i, pad)
  {
  }

  /** The children come from the names at the increasing positions kept of items[..i], which they carry. */
  predicate Shape<D>(items: seq<Item<string>>, i: nat, children: seq<EChild<D>>, kept: seq<nat>)
  {
    i <= |items| && |kept| == |children|
    && (forall k :: 0 <= k < |kept| ==> kept[k] < i && items[kept[k]].0 == Tag(children[k].name))
    && (forall k, k' :: 0 <= k < k' < |kept| ==> kept[k] < kept[k'])
  }

  lemma ShapeSegments<D>(items: seq<Item<string>>, i: nat, children: seq<EChild<D>>, kept: seq<nat>, k: nat)
    requires Shape(items, i, children, kept) && k < |kept|
    ensures kept[k] < SegmentEnd(kept, k, i) <= i
  {
  }

  /**
   * The layout of the character data while the items are encoded: the text is the element's
   * own text with the character data before the first child added; the tail of each child
   * holds the character data between it and the next child.
   */
  predicate Layout<D>(items: seq<Item<string>>, i: nat, text0: Option<string>, text: Option<string>,
                   children: seq<EChild<D>>, kept: seq<nat>, pad: string)
  {
    Shape(items, i, children, kept)
    && text == TextAt(items, kept, i, text0, pad)
    && forall k :: 0 <= k < |children| ==> children[k].tail == TailAt(items, kept, k, i, pad)
  }

  /** The layout once all the items are encoded, the tail of the last child made to end in e. */
  predicate FinalLayout<D>(items: seq<Item<string>>, text0: Option<string>, text: Option<string>,
                        children: seq<EChild<D>>, kept: seq<nat>, pad: string, e: string)
  {
    Shape(items, |items|, children, kept)
    && text == TextAt(items, kept, |items|, text0, pad)
    && (forall k :: 0 <= k < |children| - 1 ==> children[k].tail == TailAt(items, kept, k, |items|, pad))
    && (children != [] ==>
          children[|children| - 1].tail == Some(FinalTail(TailAt(items, kept, |children| - 1, |items|, pad), e)))
  }

  /** d encodes the name: a leaf of the model that matches it, or one of the open content wildcards that does. */
  ghost predicate EncodedBy(d: Decoder, name: string, g: Particle, dns: string, globals: map<string, ElementDecl>,
                      open: OpenContent)
    requires g.Group?
  {
    match d
    case ByModel(p) => p.Leaf? && LeafMatchesCounted(p, name, dns, globals, ContextOf(g))
    case ByOpenContent(w) =>
      (open.interleave == Some(w) || open.suffix == Some(w)) && OpenMatches(Some(w), name, dns, globals, g, None)
  }

  /** Nothing of the group and nothing of its open content matches the name. */
  predicate Unmatched(name: string, g: Particle, dns: string, globals: map<string, ElementDecl>, open: OpenContent)
    requires g.Group?
  {
    MatchElement(g, name, dns, globals).None? && !OpenMatches(open.interleave, name, dns, globals, g, None)
    && !OpenMatches(open.suffix, name, dns, globals, g, None)
  }

  /** Child k is encoded by what matches its name. */
  ghost predicate ChildEncoded(children: seq<EChild<Decoder>>, k: int, g: Particle, dns: string, globals: map<string, ElementDecl>,
                         open: OpenContent)
    requires g.Group?
  {
    0 <= k < |children| && EncodedBy(children[k].encoder, children[k].name, g, dns, globals, open)
  }

  /** Item j is character data, a kept name, or a name that matches nothing. */
  predicate ItemAccounted(items: seq<Item<string>>, j: int, kept: seq<nat>, g: Particle, dns: string,
                          globals: map<string, ElementDecl>, open: OpenContent)
    requires g.Group?
  {
    0 <= j < |items| && (items[j].0.Tag? && j !in kept ==> Unmatched(items[j].0.name, g, dns, globals, open))
  }

  /** Every child is encoded by what matches its name, and a name of items[..i] not kept matches nothing. */
  ghost predicate Matching(items: seq<Item<string>>, i: nat, children: seq<EChild<Decoder>>, kept: seq<nat>, g: Particle,
                     dns: string, globals: map<string, ElementDecl>, open: OpenContent)
    requires g.Group?
  {
    i <= |items|
    && (forall k :: 0 <= k < |children| ==> ChildEncoded(children, k, g, dns, globals, open))
    && forall j :: 0 <= j < i ==> ItemAccounted(items, j, kept, g, dns, globals, open)
  }

  /** The errors about children, in order, each at a position below `bound`. */
  predicate ErrorsBelow(errors: seq<GroupError>, bound: nat)
  {
    (forall k :: 0 <= k < |errors| ==> errors[k].ChildError? && 0 <= errors[k].index < bound)
    && forall k, k' :: 0 <= k < k' < |errors| ==> errors[k].index <= errors[k'].index
  }

  lemma LayoutStart<D>(items: seq<Item<string>>, text0: Option<string>, pad: string)
    ensures Layout<D>(items, 0, text0, text0, [], [], pad)
  {
  }

  /** One more item: the character data values from lo grow by the value when the item is character data. */
  lemma CDataValuesStep(items: seq<Item<string>>, lo: nat, i: nat)
    requires lo <= i < |items|
    ensures items[i].0.CData? ==> CDataValues(items, lo, i + 1) == CDataValues(items, lo, i) + [items[i].1]
    ensures items[i].0.Tag? ==> CDataValues(items, lo, i + 1) == CDataValues(items, lo, i)
  {
  }

  /** A value added to the values gives what the text or tail had with the value added to it. */
  lemma JoinedStep(init: Option<string>, vs: seq<string>, v: string, pad: string)
    ensures Joined(init, vs + [v], pad) == Some(AddCData(Joined(init, vs, pad), v, pad))
  {
    assert (vs + [v])[..|vs|] == vs;
  }

  /** A character data value before any child goes to the text. */
  lemma LayoutCDataText<D>(items: seq<Item<string>>, i: nat, text0: Option<string>, text: Option<string>,
                           kept: seq<nat>, pad: string)
    requires Layout<D>(items, i, text0, text, [], kept, pad) && i < |items| && items[i].0.CData?
    ensures Layout<D>(items, i + 1, text0, Some(AddCData(text, items[i].1, pad)), [], kept, pad)
  {
    CDataValuesStep(items, 0, i);
    JoinedStep(text0, CDataValues(items, 0, i), items[i].1, pad);
  }

  /** A character data value after a child goes to the tail of the last child. */
  lemma LayoutCDataTail<D>(items: seq<Item<string>>, i: nat, text0: Option<string>, text: Option<string>,
                           children: seq<EChild<D>>, kept: seq<nat>, pad: string, cs: seq<EChild<D>>)
    requires Layout(items, i, text0, text, children, kept, pad) && i < |items| && items[i].0.CData? && children != []
    requires cs == children[|children| - 1 := children[|children| - 1].(tail := Some(AddCData(children[|children| - 1].tail, items[i].1, pad)))]
    ensures Layout(items, i + 1, text0, text, cs, kept, pad)
  {
    var n := |children|;
    ShapeSegments(items, i, children, kept, n - 1);
    TailAtCData(items, kept, n - 1, i, pad);
    forall k | 0 <= k < n ensures cs[k].tail == TailAt(items, kept, k, i + 1, pad) {
      if k < n - 1 {
        TailAtSame(items, kept, kept, k, i + 1, i, pad);
        assert cs[k] == children[k];
      }
    }
    forall k | 0 <= k < n ensures kept[k] < i + 1 && items[kept[k]].0 == Tag(cs[k].name) {
      assert cs[k].name == children[k].name;
    }
    assert Shape(items, i + 1, cs, kept);
    assert TextAt(items, kept, i + 1, text0, pad) == TextAt(items, kept, i, text0, pad);
  }

  /** A name that is encoded becomes the last child, with no tail yet. */
  lemma LayoutKept<D>(items: seq<Item<string>>, i: nat, text0: Option<string>, text: Option<string>,
                   children: seq<EChild<D>>, kept: seq<nat>, pad: string, encoder: D)
    requires Layout(items, i, text0, text, children, kept, pad) && i < |items| && items[i].0.Tag?
    ensures Layout(items, i + 1, text0, text, children + [EChild(items[i].0.name, None, encoder)], kept + [i], pad)
  {
    var cs := children + [EChild(items[i].0.name, None, encoder)];
    var ks := kept + [i];
    assert Shape(items, i + 1, cs, ks);
    assert TailAt(items, ks, |children|, i + 1, pad) == None;
    forall k | 0 <= k < |children| ensures TailAt(items, ks, k, i + 1, pad) == TailAt(items, kept, k, i, pad) {
      TailAtSame(items, ks, kept, k, i + 1, i, pad);
    }
    assert TextAt(items, ks, i + 1, text0, pad) == TextAt(items, kept, i, text0, pad);
  }

  /** A name that matches nothing is dropped: the character data around it goes on where it went. */
  lemma LayoutDropped<D>(items: seq<Item<string>>, i: nat, text0: Option<string>, text: Option<string>,
                      children: seq<EChild<D>>, kept: seq<nat>, pad: string)
    requires Layout(items, i, text0, text, children, kept, pad) && i < |items| && items[i].0.Tag?
    ensures Layout(items, i + 1, text0, text, children, kept, pad)
  {
    TextAtDropped(items, kept, i, text0, pad);
    forall k | 0 <= k < |children| ensures TailAt(items, kept, k, i + 1, pad) == TailAt(items, kept, k, i, pad) {
      if k == |children| - 1 {
        TailAtDropped(items, kept, k, i, pad);
      } else {
        TailAtSame(items, kept, kept, k, i + 1, i, pad);
      }
    }
  }

  lemma TextAtDropped(items: seq<Item<string>>, kept: seq<nat>, i: nat, text0: Option<string>, pad: string)
    requires i < |items| && items[i].0.Tag?
    ensures TextAt(items, kept, i + 1, text0, pad) == TextAt(items, kept, i, text0, pad)
  {
    if kept == [] {
      CDataValuesStep(items, 0, i);
    }
  }

  lemma TailAtCData(items: seq<Item<string>>, kept: seq<nat>, k: nat, i: nat, pad: string)
    requires k == |kept| - 1 && kept[k] < i < |items| && items[i].0.CData?
    ensures TailAt(items, kept, k, i + 1, pad) == Some(AddCData(TailAt(items, kept, k, i, pad), items[i].1, pad))
  {
    var lo := kept[k] + 1;
    assert SegmentEnd(kept, k, i + 1) == i + 1 && SegmentEnd(kept, k, i) == i;
    assert TailAt(items, kept, k, i, pad) == Joined(None, CDataValues(items, lo, i), pad);
    assert TailAt(items, kept, k, i + 1, pad) == Joined(None, CDataValues(items, lo, i + 1), pad);
    CDataValuesStep(items, lo, i);
    JoinedStep(None, CDataValues(items, lo, i), items[i].1, pad);
  }

  lemma TailAtDropped(items: seq<Item<string>>, kept: seq<nat>, k: nat, i: nat, pad: string)
    requires k == |kept| - 1 && kept[k] < i < |items| && items[i].0.Tag?
    ensures TailAt(items, kept, k, i + 1, pad) == TailAt(items, kept, k, i, pad)
  {
    CDataValuesStep(items, kept[k] + 1, i);
  }

  /** The last tail made to end in e. */
  function Finish<D>(children: seq<EChild<D>>, e: string): (r: seq<EChild<D>>)
    ensures |r| == |children|
    ensures forall k :: 0 <= k < |r| - 1 ==> r[k] == children[k]
    ensures r != [] ==> r[|r| - 1] == children[|r| - 1].(tail := Some(FinalTail(children[|r| - 1].tail, e)))
  {
    if children == [] then []
    else
      var last := children[|children| - 1];
      children[|children| - 1 := last.(tail := Some(FinalTail(last.tail, e)))]
  }

  lemma LayoutFinish<D>(items: seq<Item<string>>, text0: Option<string>, text: Option<string>,
                     children: seq<EChild<D>>, kept: seq<nat>, pad: string, e: string)
    requires Layout(items, |items|, text0, text, children, kept, pad)
    ensures FinalLayout(items, text0, text, Finish(children, e), kept, pad, e)
  {
  }

  // ---- the names through the model ----

  /**
   * The matching of one name at position pos among the names: a match with the interleaved
   * wildcard comes first; then, while the model has a current element, a mismatch advances
   * the model and every violation is an error at pos, and a match advances it with a match;
   * when the model has no element left, the suffix wildcard, or else a model-less match after
   * an error at pos, takes the name.
   */
  method MatchName(model: ModelVisitor, g: Particle, name: string, pos: nat, errors0: seq<GroupError>,
                   dns: string, globals: map<string, ElementDecl>, open: OpenContent)
    returns (xsd: Option<Decoder>, errors: seq<GroupError>, failed: Option<VisitError>)
    requires model.Valid() && model.root == g
    modifies model
    ensures model.Valid()
    ensures failed.None? ==> ExtendsAt(errors, errors0, pos)
    ensures failed.None? && xsd.Some? ==> EncodedBy(xsd.value, name, g, dns, globals, open)
    ensures failed.None? && xsd.None? ==> Unmatched(name, g, dns, globals, open) && |errors| > |errors0|
    ensures OpenMatches(open.interleave, name, dns, globals, g, None) ==>
              failed.None? && xsd == Some(ByOpenContent(open.interleave.value)) && errors == errors0
    ensures failed != Some(Ended) && failed != Some(IndexError)
  {
    errors := errors0;
    assert errors[..|errors0|] == errors0;
    if OpenMatches(open.interleave, name, dns, globals, g, None) {
      return Some(ByOpenContent(open.interleave.value)), errors, None;
    }
    var leaf;
    leaf, errors, failed := ModelMatch(model, g, name, pos, errors0, dns, globals);
    if failed.Some? {
      return None, errors, failed;
    }
    if leaf.Some? {
      return Some(ByModel(leaf.value)), errors, None;
    }
    if OpenMatches(open.suffix, name, dns, globals, g, None) {
      return Some(ByOpenContent(open.suffix.value)), errors, None;
    }
    var more := [ChildError(pos, g, 0, Some([]))];
    assert (errors + more)[..|errors0|] == errors0;
    errors := errors + more;
    var m := MatchElement(g, name, dns, globals);
    if m.None? {
      return None, errors, None;
    }
    ghost var zero := (id: nat) => 0;
    LeafCountsRelax(m.value, name, dns, globals, ContextOf(g), zero);
    assert LeafMatches(m.value, name, dns, globals, ContextOf(g), Some(zero));
    return Some(ByModel(m.value)), errors, None;
  }

  /** Errors about the child `index` added after errors that extend errors0 with such errors. */
  lemma ExtendsMore(errors: seq<GroupError>, errors0: seq<GroupError>, index: int, vs: seq<Violation>)
    requires ExtendsAt(errors, errors0, index)
    ensures ExtendsAt(errors + Indexed(index, vs), errors0, index)
  {
    assert (errors + Indexed(index, vs))[..|errors0|] == errors0;
  }

  /**
   * The model's part of the match: while the model has a current element, an element that
   * matches the name is advanced over as matched, any other one as not matched.
   */
  method ModelMatch(model: ModelVisitor, g: Particle, name: string, pos: nat, errors0: seq<GroupError>,
                    dns: string, globals: map<string, ElementDecl>)
    returns (leaf: Option<Particle>, errors: seq<GroupError>, failed: Option<VisitError>)
    requires model.Valid() && model.root == g && ExtendsAt(errors0, errors0, pos)
    modifies model
    ensures model.Valid() && model.root == g
    ensures failed.None? ==> ExtendsAt(errors, errors0, pos)
    ensures failed.None? && leaf.Some? ==> LeafMatchesCounted(leaf.value, name, dns, globals, ContextOf(g))
    ensures failed != Some(Ended) && failed != Some(IndexError)
  {
    errors, leaf, failed := errors0, None, None;
    var fuel := STEP_LIMIT;
    while model.element.Some?
      invariant model.Valid() && model.root == g
      invariant ExtendsAt(errors, errors0, pos)
      decreases fuel
    {
      if fuel == 0 {
        return None, errors, Some(StepLimit);
      }
      fuel := fuel - 1;
      var e := model.element.value;
      ghost var counts := CountsOf(model.occurs);
      var matches := LeafMatches(e, name, dns, globals, ContextOf(g), Some(CountsOf(model.occurs)));
      var vs, err := model.AdvanceValid(matches);
      ExtendsMore(errors, errors0, pos, vs);
      errors := errors + Indexed(pos, vs);
      if err.Some? {
        return None, errors, err;
      }
      if matches {
        assert LeafMatches(e, name, dns, globals, ContextOf(g), Some(counts));
        return Some(e), errors, None;
      }
    }
  }

  lemma ExtendsBelow(errors: seq<GroupError>, errors0: seq<GroupError>, pos: nat)
    requires ErrorsBelow(errors0, pos) && ExtendsAt(errors, errors0, pos)
    ensures ErrorsBelow(errors, pos + 1)
  {
    forall k, k' | 0 <= k < k' < |errors| ensures errors[k].index <= errors[k'].index {
      if k' < |errors0| {
        assert errors[k] == errors0[k] && errors[k'] == errors0[k'];
      } else if k < |errors0| {
        assert errors[k] == errors0[k];
      }
    }
    forall k | 0 <= k < |errors| ensures errors[k].ChildError? && 0 <= errors[k].index < pos + 1 {
      if k < |errors0| {
        assert errors[k] == errors0[k];
      }
    }
  }

  // ---- the loop over the content ----

  /** The state of the loop over the content. */
  datatype Progress = Progress(text: Option<string>, children: seq<EChild<Decoder>>, errors: seq<GroupError>,
                               unknowns: seq<GroupError>, pos: nat)

  /**
   * b, taken as one fact: a predicate whose body is given through Whole is checked as a
   * whole where it is needed, instead of conjunct by conjunct.
   */
  predicate Whole(b: bool)
  {
    b
  }

  /** What holds of the loop once items[..i] are encoded. */
  ghost predicate ProgressOk(items: seq<Item<string>>, i: nat, text0: Option<string>, st: Progress, kept: seq<nat>,
                       pad: string, g: Particle, dns: string, globals: map<string, ElementDecl>, open: OpenContent)
    requires g.Group?
  {
    Counted(items, i, st, kept)
    && Layout(items, i, text0, st.text, st.children, kept, pad)
    && Matching(items, i, st.children, kept, g, dns, globals, open)
    && ErrorsBelow(st.errors, st.pos)
  }

  /** A character data value added to the text before any child, else to the tail of the last child. */
  function AddToLast(st: Progress, v: string, pad: string): Progress
  {
    if st.children == [] then st.(text := Some(AddCData(st.text, v, pad)))
    else
      var last := st.children[|st.children| - 1];
      st.(children := st.children[|st.children| - 1 := last.(tail := Some(AddCData(last.tail, v, pad)))])
  }

  /** Character data adds no name: what matched goes on matching, whatever the last tail becomes. */
  lemma MatchingCData(items: seq<Item<string>>, i: nat, cs: seq<EChild<Decoder>>, t: Option<string>, kept: seq<nat>, g: Particle,
                      dns: string, globals: map<string, ElementDecl>, open: OpenContent)
    requires g.Group? && Matching(items, i, cs, kept, g, dns, globals, open) && i < |items| && items[i].0.CData?
    ensures Matching(items, i + 1, cs, kept, g, dns, globals, open)
    ensures cs != [] ==> Matching(items, i + 1, cs[|cs| - 1 := cs[|cs| - 1].(tail := t)], kept, g, dns, globals, open)
  {
    forall j | 0 <= j < i + 1 ensures ItemAccounted(items, j, kept, g, dns, globals, open) {
      if j < i {
        assert ItemAccounted(items, j, kept, g, dns, globals, open);
      }
    }
    if cs != [] {
      var cs' := cs[|cs| - 1 := cs[|cs| - 1].(tail := t)];
      forall k | 0 <= k < |cs'| ensures ChildEncoded(cs', k, g, dns, globals, open) {
        assert ChildEncoded(cs, k, g, dns, globals, open);
        assert cs'[k].name == cs[k].name && cs'[k].encoder == cs[k].encoder;
      }
    }
  }

  /** A name that matches nothing is one more dropped name. */
  lemma MatchingDropped(items: seq<Item<string>>, i: nat, cs: seq<EChild<Decoder>>, kept: seq<nat>, g: Particle,
                        dns: string, globals: map<string, ElementDecl>, open: OpenContent)
    requires g.Group? && Matching(items, i, cs, kept, g, dns, globals, open) && i < |items| && items[i].0.Tag?
    requires Unmatched(items[i].0.name, g, dns, globals, open)
    ensures Matching(items, i + 1, cs, kept, g, dns, globals, open)
  {
    forall j | 0 <= j < i + 1 ensures ItemAccounted(items, j, kept, g, dns, globals, open) {
      if j < i {
        assert ItemAccounted(items, j, kept, g, dns, globals, open);
      }
    }
  }

  /** A name encoded by what matches it is one more child. */
  lemma MatchingKept(items: seq<Item<string>>, i: nat, cs: seq<EChild<Decoder>>, kept: seq<nat>, g: Particle,
                     dns: string, globals: map<string, ElementDecl>, open: OpenContent, encoder: Decoder)
    requires g.Group? && Matching(items, i, cs, kept, g, dns, globals, open) && i < |items| && items[i].0.Tag?
    requires EncodedBy(encoder, items[i].0.name, g, dns, globals, open)
    ensures Matching(items, i + 1, cs + [EChild(items[i].0.name, None, encoder)], kept + [i], g, dns, globals, open)
  {
    var cs' := cs + [EChild(items[i].0.name, None, encoder)];
    forall k | 0 <= k < |cs'| ensures ChildEncoded(cs', k, g, dns, globals, open) {
      if k < |cs| {
        assert cs'[k] == cs[k];
        assert ChildEncoded(cs, k, g, dns, globals, open);
      }
    }
    forall j | 0 <= j < i + 1 ensures ItemAccounted(items, j, kept + [i], g, dns, globals, open) {
      if j < i {
        assert ItemAccounted(items, j, kept, g, dns, globals, open);
        assert j in kept + [i] <==> j in kept;
      }
    }
  }

  /** The position among the names and the dropped names counted. */
  predicate Counted(items: seq<Item<string>>, i: nat, st: Progress, kept: seq<nat>)
  {
    i <= |items| && st.pos == TagsBefore(items, i)
    && |st.unknowns| + |kept| == st.pos
    && forall k :: 0 <= k < |st.unknowns| ==> st.unknowns[k].UnknownName?
  }

  /** Character data moves neither the position nor the dropped names. */
  lemma CountedCData(items: seq<Item<string>>, i: nat, st: Progress, st': Progress, kept: seq<nat>)
    requires Counted(items, i, st, kept) && i < |items| && items[i].0.CData?
    requires st'.pos == st.pos && st'.unknowns == st.unknowns
    ensures Counted(items, i + 1, st', kept)
  {
    assert TagsBefore(items, i + 1) == TagsBefore(items, i);
  }

  /** Character data before any child goes to the text. */
  lemma ProgressCDataText(items: seq<Item<string>>, i: nat, text0: Option<string>, st: Progress, kept: seq<nat>,
                          pad: string, g: Particle, dns: string, globals: map<string, ElementDecl>, open: OpenContent)
    requires g.Group? && ProgressOk(items, i, text0, st, kept, pad, g, dns, globals, open)
    requires i < |items| && items[i].0.CData? && st.children == []
    ensures ProgressOk(items, i + 1, text0, st.(text := Some(AddCData(st.text, items[i].1, pad))), kept, pad,
                       g, dns, globals, open)
  {
    LayoutCDataText<Decoder>(items, i, text0, st.text, kept, pad);
    MatchingCData(items, i, st.children, None, kept, g, dns, globals, open);
    CountedCData(items, i, st, st.(text := Some(AddCData(st.text, items[i].1, pad))), kept);
  }

  /** Character data after a child goes to the tail of the last child. */
  lemma ProgressCDataTail(items: seq<Item<string>>, i: nat, text0: Option<string>, st: Progress, kept: seq<nat>,
                          pad: string, g: Particle, dns: string, globals: map<string, ElementDecl>, open: OpenContent,
                          cs: seq<EChild<Decoder>>)
    requires g.Group? && ProgressOk(items, i, text0, st, kept, pad, g, dns, globals, open)
    requires i < |items| && items[i].0.CData? && st.children != []
    requires cs == st.children[|st.children| - 1 := st.children[|st.children| - 1].(tail :=
                     Some(AddCData(st.children[|st.children| - 1].tail, items[i].1, pad)))]
    ensures ProgressOk(items, i + 1, text0, st.(children := cs), kept, pad, g, dns, globals, open)
  {
    var n := |st.children|;
    var t := Some(AddCData(st.children[n - 1].tail, items[i].1, pad));
    LayoutCDataTail(items, i, text0, st.text, st.children, kept, pad, cs);
    MatchingCData(items, i, st.children, t, kept, g, dns, globals, open);
    CountedCData(items, i, st, st.(children := cs), kept);
  }

  lemma ProgressCData(items: seq<Item<string>>, i: nat, text0: Option<string>, st: Progress, kept: seq<nat>,
                      pad: string, g: Particle, dns: string, globals: map<string, ElementDecl>, open: OpenContent)
    requires g.Group? && ProgressOk(items, i, text0, st, kept, pad, g, dns, globals, open)
    requires i < |items| && items[i].0.CData?
    ensures ProgressOk(items, i + 1, text0, AddToLast(st, items[i].1, pad), kept, pad, g, dns, globals, open)
  {
    if st.children == [] {
      ProgressCDataText(items, i, text0, st, kept, pad, g, dns, globals, open);
    } else {
      var n := |st.children|;
      var cs := st.children[n - 1 := st.children[n - 1].(tail := Some(AddCData(st.children[n - 1].tail, items[i].1, pad)))];
      ProgressCDataTail(items, i, text0, st, kept, pad, g, dns, globals, open, cs);
      assert AddToLast(st, items[i].1, pad) == st.(children := cs);
    }
  }

  lemma ProgressDropped(items: seq<Item<string>>, i: nat, text0: Option<string>, st: Progress, kept: seq<nat>,
                        pad: string, g: Particle, dns: string, globals: map<string, ElementDecl>, open: OpenContent,
                        errors: seq<GroupError>)
    requires g.Group? && ProgressOk(items, i, text0, st, kept, pad, g, dns, globals, open)
    requires i < |items| && items[i].0.Tag? && Unmatched(items[i].0.name, g, dns, globals, open)
    requires ErrorsBelow(errors, st.pos + 1)
    ensures ProgressOk(items, i + 1, text0, Progress(st.text, st.children, errors, st.unknowns + [UnknownName(items[i].0.name)], st.pos + 1),
                       kept, pad, g, dns, globals, open)
  {
    LayoutDropped(items, i, text0, st.text, st.children, kept, pad);
    MatchingDropped(items, i, st.children, kept, g, dns, globals, open);
    assert Counted(items, i + 1, Progress(st.text, st.children, errors, st.unknowns + [UnknownName(items[i].0.name)], st.pos + 1), kept);
  }

  lemma ProgressKept(items: seq<Item<string>>, i: nat, text0: Option<string>, st: Progress, kept: seq<nat>,
                     pad: string, g: Particle, dns: string, globals: map<string, ElementDecl>, open: OpenContent,
                     errors: seq<GroupError>, encoder: Decoder)
    requires g.Group? && ProgressOk(items, i, text0, st, kept, pad, g, dns, globals, open)
    requires i < |items| && items[i].0.Tag? && EncodedBy(encoder, items[i].0.name, g, dns, globals, open)
    requires ErrorsBelow(errors, st.pos + 1)
    ensures ProgressOk(items, i + 1, text0,
                       Progress(st.text, st.children + [EChild(items[i].0.name, None, encoder)], errors, st.unknowns, st.pos + 1),
                       kept + [i], pad, g, dns, globals, open)
  {
    LayoutKept(items, i, text0, st.text, st.children, kept, pad, encoder);
    MatchingKept(items, i, st.children, kept, g, dns, globals, open, encoder);
    assert Counted(items, i + 1, Progress(st.text, st.children + [EChild(items[i].0.name, None, encoder)], errors, st.unknowns, st.pos + 1), kept + [i]);
  }

  /**
   * One item of the content: a character data value is added to the text or the last tail;
   * a name is matched, and becomes a child or, matched by nothing, gives an error naming it
   * (raised in strict mode).
   */
  method EncodeItem(model: ModelVisitor, g: Particle, items: seq<Item<string>>, i: nat, text0: Option<string>,
                    st0: Progress, ghost kept0: seq<nat>, pad: string, strict: bool,
                    dns: string, globals: map<string, ElementDecl>, open: OpenContent)
    returns (st: Progress, ghost kept: seq<nat>, failed: Option<VisitError>, raised: Option<GroupError>)
    requires model.Valid() && model.root == g && i < |items|
    requires ProgressOk(items, i, text0, st0, kept0, pad, g, dns, globals, open)
    modifies model
    ensures model.Valid()
    ensures failed.None? && raised.None? ==> ProgressOk(items, i + 1, text0, st, kept, pad, g, dns, globals, open)
    ensures raised.Some? ==> strict && raised.value.UnknownName?
    ensures failed != Some(Ended) && failed != Some(IndexError)
  {
    failed, raised := None, None;
    var item := items[i];
    if item.0.CData? {
      ProgressCData(items, i, text0, st0, kept0, pad, g, dns, globals, open);
      return AddToLast(st0, item.1, pad), kept0, None, None;
    }
    var name := item.0.name;
    var xsd, errors, err := MatchName(model, g, name, st0.pos, st0.errors, dns, globals, open);
    if err.Some? {
      return st0, kept0, err, None;
    }
    ExtendsBelow(errors, st0.errors, st0.pos);
    if xsd.None? {
      if strict {
        return st0, kept0, None, Some(UnknownName(name));
      }
      ProgressDropped(items, i, text0, st0, kept0, pad, g, dns, globals, open, errors);
      return Progress(st0.text, st0.children, errors, st0.unknowns + [UnknownName(name)], st0.pos + 1), kept0, None, None;
    }
    ProgressKept(items, i, text0, st0, kept0, pad, g, dns, globals, open, errors, xsd.value);
    kept := kept0 + [i];
    st := Progress(st0.text, st0.children + [EChild(name, None, xsd.value)], errors, st0.unknowns, st0.pos + 1);
  }

  /**
   * iter_encode's stop block as written: the errors of the model's end take the enumeration
   * index of the last item, less the character data parts, plus one; with no items the index
   * keeps its initial 0.
   */
  function StopIndexAsWritten(items: seq<Item<string>>): int
  {
    (if items == [] then 0 else |items| - 1) - (|items| - TagsBefore(items, |items|)) + 1
  }

  /** With no content at all, the end of the model is reported at position 1, past the no names there are. */
  lemma StopIndexEmptyContent()
    ensures StopIndexAsWritten([]) == 1 && TagsBefore([], 0) == 0
  {
  }

  /** With some content, the index as written is the number of names, as the decoding's len(elem) is. */
  lemma StopIndexAgrees(items: seq<Item<string>>)
    requires items != []
    ensures StopIndexAsWritten(items) == StopIndex(items)
  {
  }

  /** The position of the model's end: the number of names in the content. */
  function StopIndex(items: seq<Item<string>>): (r: nat)
    ensures r <= |items|
  {
    TagsBefore(items, |items|)
  }

  /** What holds once every item is encoded and the errors of the model's end are added. */
  ghost predicate ItemsDone(items: seq<Item<string>>, text0: Option<string>, st: Progress, kept: seq<nat>,
                      pad: string, tailEnd: string, g: Particle, dns: string, globals: map<string, ElementDecl>,
                      open: OpenContent)
    requires g.Group?
  {
    Whole(FinalLayout(items, text0, st.text, st.children, kept, pad, tailEnd)
          && Matching(items, |items|, st.children, kept, g, dns, globals, open)
          && ErrorsBelow(st.errors, StopIndex(items) + 1)
          && |st.unknowns| + |kept| == StopIndex(items)
          && (forall k :: 0 <= k < |st.unknowns| ==> st.unknowns[k].UnknownName?))
  }

  /** The last tail made to end in tailEnd keeps the layout; the children still match. */
  lemma FinishDone(items: seq<Item<string>>, text0: Option<string>, st: Progress, kept: seq<nat>,
                   pad: string, tailEnd: string, g: Particle, dns: string, globals: map<string, ElementDecl>,
                   open: OpenContent, errors: seq<GroupError>)
    requires g.Group? && ProgressOk(items, |items|, text0, st, kept, pad, g, dns, globals, open)
    requires ErrorsBelow(errors, st.pos + 1)
    ensures ItemsDone(items, text0, st.(errors := errors, children := Finish(st.children, tailEnd)), kept,
                      pad, tailEnd, g, dns, globals, open)
  {
    LayoutFinish(items, text0, st.text, st.children, kept, pad, tailEnd);
    MatchingFinish(items, st.children, kept, g, dns, globals, open, tailEnd);
    assert st.pos == StopIndex(items);
  }

  /** Changing the last tail changes no name and no encoder. */
  lemma MatchingFinish(items: seq<Item<string>>, children: seq<EChild<Decoder>>, kept: seq<nat>, g: Particle,
                       dns: string, globals: map<string, ElementDecl>, open: OpenContent, e: string)
    requires g.Group? && Matching(items, |items|, children, kept, g, dns, globals, open)
    ensures Matching(items, |items|, Finish(children, e), kept, g, dns, globals, open)
  {
    var cs := Finish(children, e);
    forall k | 0 <= k < |cs| ensures ChildEncoded(cs, k, g, dns, globals, open) {
      assert ChildEncoded(children, k, g, dns, globals, open);
      assert cs[k].name == children[k].name && cs[k].encoder == children[k].encoder;
    }
  }

  lemma ProgressStart(items: seq<Item<string>>, text0: Option<string>, pad: string, g: Particle, dns: string,
                      globals: map<string, ElementDecl>, open: OpenContent)
    requires g.Group?
    ensures ProgressOk(items, 0, text0, Progress(text0, [], [], [], 0), [], pad, g, dns, globals, open)
  {
    LayoutStart<Decoder>(items, text0, pad);
  }

  /** The loop over the content, the model started at the group. */
  method EncodeLoop(g: Particle, items: seq<Item<string>>, text0: Option<string>, pad: string,
                    strict: bool, dns: string, globals: map<string, ElementDecl>, open: OpenContent)
    returns (model: ModelVisitor, st: Progress, ghost kept: seq<nat>, failed: Option<VisitError>, raised: Option<GroupError>)
    requires g.Group?
    ensures fresh(model) && model.Valid() && model.root == g
    ensures failed.None? && raised.None? ==> Whole(ProgressOk(items, |items|, text0, st, kept, pad, g, dns, globals, open))
    ensures raised.Some? ==> strict && raised.value.UnknownName?
    ensures failed != Some(Ended) && failed != Some(IndexError)
  {
    model := new ModelVisitor(g);
    ProgressStart(items, text0, pad, g, dns, globals, open);
    st, kept, failed, raised := EncodeWith(model, g, items, text0, pad, strict, dns, globals, open);
  }

  /** The loop over the content, with the visitor of the group. */
  method EncodeWith(model: ModelVisitor, g: Particle, items: seq<Item<string>>, text0: Option<string>, pad: string,
                    strict: bool, dns: string, globals: map<string, ElementDecl>, open: OpenContent)
    returns (st: Progress, ghost kept: seq<nat>, failed: Option<VisitError>, raised: Option<GroupError>)
    requires g.Group? && model.Valid() && model.root == g
    requires ProgressOk(items, 0, text0, Progress(text0, [], [], [], 0), [], pad, g, dns, globals, open)
    modifies model
    ensures model.Valid()
    ensures failed.None? && raised.None? ==> Whole(ProgressOk(items, |items|, text0, st, kept, pad, g, dns, globals, open))
    ensures raised.Some? ==> strict && raised.value.UnknownName?
    ensures failed != Some(Ended) && failed != Some(IndexError)
  {
    st := Progress(text0, [], [], [], 0);
    kept := [];
    failed, raised := None, None;
    var i := 0;
    while i < |items|
      invariant 0 <= i <= |items| && model.Valid()
      invariant Whole(ProgressOk(items, i, text0, st, kept, pad, g, dns, globals, open))
      invariant failed.None? && raised.None?
      decreases |items| - i
    {
      st, kept, failed, raised := EncodeItem(model, g, items, i, text0, st, kept, pad, strict, dns, globals, open);
      if failed.Some? || raised.Some? {
        return;
      }
      i := i + 1;
    }
  }

  /** The end of the model: what it still expects is reported at the position past the last name. */
  method StopErrors(model: ModelVisitor, errors0: seq<GroupError>, pos: nat)
    returns (errors: seq<GroupError>, failed: Option<VisitError>)
    requires model.Valid() && ErrorsBelow(errors0, pos)
    modifies model
    ensures failed.None? ==> ErrorsBelow(errors, pos + 1) && ExtendsAt(errors, errors0, pos)
    ensures failed != Some(Ended) && failed != Some(IndexError)
  {
    errors, failed := errors0, None;
    if model.element.Some? {
      var vs, err := model.Stop();
      if err.Some? {
        return errors0, err;
      }
      errors := errors0 + Indexed(pos, vs);
      assert ExtendsAt(errors, errors0, pos);
      ExtendsBelow(errors, errors0, pos);
    } else {
      assert ErrorsBelow(errors, pos + 1);
    }
  }

  /** The loop over the content and the end of the model, then the last tail. */
  method EncodeItems(g: Particle, items: seq<Item<string>>, text0: Option<string>, pad: string, tailEnd: string,
                     strict: bool, dns: string, globals: map<string, ElementDecl>, open: OpenContent)
    returns (st: Progress, ghost kept: seq<nat>, failed: Option<VisitError>, raised: Option<GroupError>)
    requires g.Group?
    ensures failed.None? && raised.None? ==> ItemsDone(items, text0, st, kept, pad, tailEnd, g, dns, globals, open)
    ensures raised.Some? ==> strict && raised.value.UnknownName?
    ensures failed != Some(Ended) && failed != Some(IndexError)
  {
    var model;
    model, st, kept, failed, raised := EncodeLoop(g, items, text0, pad, strict, dns, globals, open);
    if failed.Some? || raised.Some? {
      return;
    }
    var errors;
    errors, failed := StopErrors(model, st.errors, st.pos);
    if failed.Some? {
      return;
    }
    FinishDone(items, text0, st, kept, pad, tailEnd, g, dns, globals, open, errors);
    st := st.(errors := errors, children := Finish(st.children, tailEnd));
  }

  // ---- the encoding of the content ----

  /** The result of encoding a content: the errors yielded, the text and the children, or an error raised, or a visitor failure. */
  datatype EncodeOutcome =
    | Encoded(errors: seq<GroupError>, text: Option<string>, children: seq<EChild<Decoder>>)
    | EncodeRaised(error: GroupError)
    | EncodeFailed(failure: VisitError)
    | ContentNotIterable

  /**
   * The encoder's test that the text holds character data where it is not allowed: a group
   * that is not mixed, has particles, and is not a single wildcard. Unlike the decoder's, an
   * empty group allows it.
   */
  predicate CDataNotAllowedEnc(g: Particle, text: Option<string>)
    requires g.Group?
  {
    !g.mixed && NotWhitespace(text) && g.items != [] && !SingleWildcard(g)
  }

  /**
   * The errors in the order they are yielded: those about names matching nothing during the
   * loop, then the wrong content type, then the character data, then those about children.
   */
  function Assemble(unknowns: seq<GroupError>, wrong: bool, cdata: bool, childErrors: seq<GroupError>): seq<GroupError>
  {
    unknowns + (if wrong then [WrongContentType] else []) + (if cdata then [CDataNotAllowed] else []) + childErrors
  }

  /**
   * The errors in the order they are yielded: u about names matching nothing, then the
   * wrong content type and the character data when they are errors, then those about
   * children, in order, at positions up to `bound`.
   */
  predicate ErrorsInOrder(errors: seq<GroupError>, u: nat, wrong: bool, cdata: bool, bound: nat)
  {
    var f := u + (if wrong then 1 else 0) + (if cdata then 1 else 0);
    f <= |errors|
    && (forall k :: 0 <= k < u ==> errors[k].UnknownName?)
    && (wrong ==> errors[u] == WrongContentType)
    && (cdata ==> errors[f - 1] == CDataNotAllowed)
    && ErrorsBelow(errors[f..], bound + 1)
  }

  lemma AssembleInOrder(unknowns: seq<GroupError>, wrong: bool, cdata: bool, childErrors: seq<GroupError>, bound: nat)
    requires forall k :: 0 <= k < |unknowns| ==> unknowns[k].UnknownName?
    requires ErrorsBelow(childErrors, bound + 1)
    ensures ErrorsInOrder(Assemble(unknowns, wrong, cdata, childErrors), |unknowns|, wrong, cdata, bound)
  {
    var errors := Assemble(unknowns, wrong, cdata, childErrors);
    var f := |unknowns| + (if wrong then 1 else 0) + (if cdata then 1 else 0);
    assert errors[f..] == childErrors;
    forall k | 0 <= k < |unknowns| ensures errors[k].UnknownName? {
      assert errors[k] == unknowns[k];
    }
  }

  /**
   * The text and children the content gives: the layout of its character data, the children
   * matched, and the errors in the order they are yielded.
   */
  ghost predicate EncodedOk(items: seq<Item<string>>, text0: Option<string>, errors: seq<GroupError>, text: Option<string>,
                      children: seq<EChild<Decoder>>, kept: seq<nat>, pad: string, tailEnd: string, wrong: bool,
                      g: Particle, dns: string, globals: map<string, ElementDecl>, open: OpenContent)
    requires g.Group?
  {
    Whole(FinalLayout(items, text0, text, children, kept, pad, tailEnd)
          && Matching(items, |items|, children, kept, g, dns, globals, open)
          && |kept| <= StopIndex(items)
          && ErrorsInOrder(errors, StopIndex(items) - |kept|, wrong, CDataNotAllowedEnc(g, text), StopIndex(items)))
  }

  lemma EncodedFrom(items: seq<Item<string>>, text0: Option<string>, st: Progress, kept: seq<nat>,
                    pad: string, tailEnd: string, wrong: bool, g: Particle, dns: string,
                    globals: map<string, ElementDecl>, open: OpenContent)
    requires g.Group? && ItemsDone(items, text0, st, kept, pad, tailEnd, g, dns, globals, open)
    ensures EncodedOk(items, text0, Assemble(st.unknowns, wrong, CDataNotAllowedEnc(g, st.text), st.errors),
                      st.text, st.children, kept, pad, tailEnd, wrong, g, dns, globals, open)
  {
    AssembleInOrder(st.unknowns, wrong, CDataNotAllowedEnc(g, st.text), st.errors, StopIndex(items));
  }

  /** The chosen content encoded: the items, the end of the model, the last tail, and the errors in order. */
  method EncodeSelected(g: Particle, text0: Option<string>, items: seq<Item<string>>, wrong: bool, strict: bool,
                        pad: string, tailEnd: string, dns: string, globals: map<string, ElementDecl>, open: OpenContent)
    returns (r: EncodeOutcome, ghost kept: seq<nat>)
    requires g.Group?
    ensures r.Encoded? ==> EncodedOk(items, text0, r.errors, r.text, r.children, kept, pad, tailEnd, wrong, g, dns, globals, open)
    ensures strict && r.Encoded? ==> r.errors == []
    ensures !strict ==> !r.EncodeRaised?
    ensures r.EncodeFailed? ==> r.failure != Ended && r.failure != IndexError
    ensures !r.ContentNotIterable?
  {
    var st, failed, raised;
    st, kept, failed, raised := EncodeItems(g, items, text0, pad, tailEnd, strict, dns, globals, open);
    if failed.Some? {
      return EncodeFailed(failed.value), kept;
    }
    if raised.Some? {
      return EncodeRaised(raised.value), kept;
    }
    var errors := Assemble(st.unknowns, wrong, CDataNotAllowedEnc(g, st.text), st.errors);
    if strict && errors != [] {
      return EncodeRaised(errors[0]), kept;
    }
    EncodedFrom(items, text0, st, kept, pad, tailEnd, wrong, g, dns, globals, open);
    r := Encoded(errors, st.text, st.children);
  }

  /**
   * iter_encode of a group: the content put in order; each item encoded, with the errors
   * indexed by the position of the name; the end of the model reported at the number of
   * names; the last tail made to end in padding[:-indent] or a newline; then the errors
   * yielded (the first one raised in strict mode) and the text and children.
   */
  method EncodeChildren(g: Particle, text0: Option<string>, content: ElementContent, validation: Validation.Mode,
                        unordered: bool, losslessly: bool, indent: int, level: nat,
                        dns: string, globals: map<string, ElementDecl>, open: OpenContent)
    returns (r: EncodeOutcome, items: seq<Item<string>>, ghost kept: seq<nat>)
    requires g.Group?
    ensures content.NoContent? ==> items == []
    ensures content.ListContent? && !unordered && losslessly ==> items == content.pairs
    ensures content.ListContent? && !unordered && !losslessly && !r.EncodeFailed? ==>
              multiset(items) == multiset(content.pairs) && CDataOf(items) == CDataOf(content.pairs)
    ensures (content.DictContent? || (content.ListContent? && unordered)) && !r.EncodeFailed? ==>
              (forall n :: ValuesOf(items, n) == ValuesOf(content.pairs, n))
              && ByIndex(CDataOf(items)) && multiset(CDataOf(items)) == multiset(CDataOf(content.pairs))
    ensures content.OtherContent? && !unordered ==> items == []
    ensures (content.OtherContent? && content.asPairs.None? && unordered) <==> r == ContentNotIterable
    ensures r.Encoded? ==>
              EncodedOk(items, text0, r.errors, r.text, r.children, kept, Pad(indent, level + 1), TailEnd(indent, level + 1),
                        content.OtherContent? && !unordered, g, dns, globals, open)
    ensures validation == Validation.Strict && r.Encoded? ==> r.errors == []
    ensures validation != Validation.Strict ==> !r.EncodeRaised?
    ensures r.EncodeFailed? ==> r.failure != Ended && r.failure != IndexError
  {
    var pad := Pad(indent, level + 1);
    var end := TailEnd(indent, level + 1);
    items, kept := [], [];
    var sel := SelectContent(g, content, unordered, losslessly, dns, globals);
    if sel.NotIterable? {
      return ContentNotIterable, items, kept;
    }
    if sel.SelectFailed? {
      return EncodeFailed(sel.failure), items, kept;
    }
    items := sel.items;
    r, kept := EncodeSelected(g, text0, items, sel.wrongType, validation == Validation.Strict, pad, end, dns, globals, open);
  }
}
