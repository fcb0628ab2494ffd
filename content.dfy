// Reordering of encoder content into the order of a content model: the
// unordered form (content whose child order is free) and the collapsed form
// (repeated tags gathered into lists by the data convention).
module Content {
  import opened Wrappers
  import opened Wildcards
  import opened Elements
  import opened Models
  import Particles

  /** The key of a content item: an integer for a character data part, else a child tag. */
  datatype CKey = CData(index: int) | Tag(name: string)

  type Item<V> = (CKey, V)

  /**
   * The element or wildcard of the model matched against a content name. An XSD 1.1 wildcard
   * is matched with the context of the model group: its precedences and its siblings, and the
   * occurrence counts of the model when the caller passes them.
   */
  predicate LeafMatches(p: Particle, name: string, defaultNamespace: string, globals: map<string, ElementDecl>,
                        ctx: GroupContext, occurs: Option<nat -> nat>)
  {
    match p
    case Group(_, _, _, _, _) => false
    case Leaf(ElementLeaf(e)) => Elements.IsMatching(e, Some(name), defaultNamespace)
    case Leaf(WildcardLeaf(_, _, w, precedences)) =>
      if w.xsd11 then Xsd11IsMatching(w, precedences, Some(name), defaultNamespace, globals, Some(ctx), occurs)
      else Wildcards.IsMatching(w, Some(name), defaultNamespace)
  }

  /** The leaf matches the name with the occurrence counts the model had at some step. */
  ghost predicate LeafMatchesCounted(p: Particle, name: string, defaultNamespace: string, globals: map<string, ElementDecl>,
                               ctx: GroupContext)
  {
    exists c: nat -> nat :: LeafMatches(p, name, defaultNamespace, globals, ctx, Some(c))
  }

  /**
   * Counts only lift precedences (an element over its maximum no longer takes the name), so a
   * match without counts is a match with any counts.
   */
  lemma LeafCountsRelax(p: Particle, name: string, defaultNamespace: string, globals: map<string, ElementDecl>,
                        ctx: GroupContext, c: nat -> nat)
    ensures LeafMatches(p, name, defaultNamespace, globals, ctx, None) ==>
              LeafMatches(p, name, defaultNamespace, globals, ctx, Some(c))
  {
  }

  /** occurs=model.occurs: the counts of the element particles, read from the visitor's counter. */
  function CountsOf(c: Counter): nat -> nat
  {
    (id: nat) => Get(c, Item(id))
  }

  /**
   * An all group 7 holding a (maxOccurs 1) and an XSD 1.1 wildcard that a takes precedence
   * over: the first a is not the wildcard's, and once a has occurred once the next a is.
   */
  lemma PrecedenceEndsAtMax()
    ensures var a := ElementDecl(1, "a", "a", true, "", "", true, false, false, true, false, None, 7, [], None, None,
                                 Particles.Occurs(0, Some(1)), []);
            var p := Leaf(WildcardLeaf(2, Particles.Occurs(0, None), Wildcard(true, true, [ANY], [], [], Lax, ""), map[7 := [a]]));
            var ctx := GroupContext(7, [a]);
            && !LeafMatches(p, "a", "", map[], ctx, Some(CountsOf(map[])))
            && !LeafMatches(p, "a", "", map[], ctx, None)
            && LeafMatches(p, "a", "", map[], ctx, Some(CountsOf(map[Item(1) := 1])))
  {
    var a := ElementDecl(1, "a", "a", true, "", "", true, false, false, true, false, None, 7, [], None, None,
                         Particles.Occurs(0, Some(1)), []);
    var w := Wildcard(true, true, [ANY], [], [], Lax, "");
    var ps := [a];
    assert Elements.IsMatching(ps[0], Some("a"), "");
    assert IsNamespaceAllowed(w, "");
    assert CountsOf(map[Item(1) := 1])(1) == 1;
    assert CountsOf(map[])(1) == 0;
  }

  /**
   * A matching element that takes precedence over an XSD 1.1 wildcard in the current group,
   * and that is not over its maximum, keeps the name from the wildcard, whatever the counts.
   */
  lemma PrecedenceBlocks(p: Particle, name: string, defaultNamespace: string, globals: map<string, ElementDecl>,
                         ctx: GroupContext, c: nat -> nat, k: nat)
    requires p.Leaf? && p.kind.WildcardLeaf? && p.kind.w.xsd11 && ctx.groupId in p.kind.precedences
    requires k < |p.kind.precedences[ctx.groupId]|
    requires var e := p.kind.precedences[ctx.groupId][k];
             Elements.IsMatching(e, Some(CompletedName(name, defaultNamespace)), "") && !Particles.IsOver(e.occurs, c(e.id))
    ensures !LeafMatches(p, name, defaultNamespace, globals, ctx, Some(c))
    ensures !LeafMatches(p, name, defaultNamespace, globals, ctx, None)
  {
  }

  /**
   * When every matching element that takes precedence over an XSD 1.1 wildcard is over its
   * maximum, the wildcard matches the name exactly as it would with no precedences at all.
   */
  lemma PrecedenceLifted(p: Particle, name: string, defaultNamespace: string, globals: map<string, ElementDecl>,
                         ctx: GroupContext, c: nat -> nat)
    requires p.Leaf? && p.kind.WildcardLeaf? && p.kind.w.xsd11
    requires ctx.groupId in p.kind.precedences ==>
               var ps := p.kind.precedences[ctx.groupId];
               forall k :: 0 <= k < |ps| && Elements.IsMatching(ps[k], Some(CompletedName(name, defaultNamespace)), "") ==>
                 Particles.IsOver(ps[k].occurs, c(ps[k].id))
    ensures LeafMatches(p, name, defaultNamespace, globals, ctx, Some(c))
            == Xsd11IsMatching(p.kind.w, map[], Some(name), defaultNamespace, globals, Some(ctx), Some(c))
  {
  }

  // ---- views of a content ----

  /** The values given to the tag n, in content order. */
  function ValuesOf<V>(xs: seq<Item<V>>, n: string): seq<V>
  {
    if xs == [] then []
    else ValuesOf(xs[..|xs| - 1], n) + (if xs[|xs| - 1].0 == Tag(n) then [xs[|xs| - 1].1] else [])
  }

  /** The character data parts of a content, in content order. */
  function CDataOf<V>(xs: seq<Item<V>>): (r: seq<Item<V>>)
    ensures AllCData(r)
  {
    if xs == [] then []
    else CDataOf(xs[..|xs| - 1]) + (if xs[|xs| - 1].0.CData? then [xs[|xs| - 1]] else [])
  }

  /** The child items of a content, in content order. */
  function TagsOf<V>(xs: seq<Item<V>>): (r: seq<Item<V>>)
    ensures forall k :: 0 <= k < |r| ==> r[k].0.Tag?
  {
    if xs == [] then []
    else TagsOf(xs[..|xs| - 1]) + (if xs[|xs| - 1].0.Tag? then [xs[|xs| - 1]] else [])
  }

  lemma AppendTag<V>(xs: seq<Item<V>>, x: Item<V>)
    ensures TagsOf(xs + [x]) == TagsOf(xs) + (if x.0.Tag? then [x] else [])
  {
    assert (xs + [x])[..|xs|] == xs;
  }

  /** The values of a tag are those among the child items. */
  lemma {:induction false} ValuesOfTags<V>(xs: seq<Item<V>>, n: string)
    ensures ValuesOf(TagsOf(xs), n) == ValuesOf(xs, n)
    decreases |xs|
  {
    if xs != [] {
      var init := xs[..|xs| - 1];
      var x := xs[|xs| - 1];
      assert xs == init + [x];
      ValuesOfTags(init, n);
      AppendTag(init, x);
      AppendItem(init, x);
      if x.0.Tag? {
        AppendItem(TagsOf(init), x);
      } else {
        assert TagsOf(xs) == TagsOf(init);
        assert ValuesOf(xs, n) == ValuesOf(init, n) + [];
      }
    }
  }

  /** The prefix one longer is the prefix with the next element appended. */
  lemma PrefixStep<T>(s: seq<T>, i: nat)
    requires i < |s|
    ensures s[..i + 1] == s[..i] + [s[i]]
  {
  }

  lemma AppendItem<V>(xs: seq<Item<V>>, x: Item<V>)
    ensures forall n :: ValuesOf(xs + [x], n) == ValuesOf(xs, n) + (if x.0 == Tag(n) then [x.1] else [])
    ensures CDataOf(xs + [x]) == CDataOf(xs) + (if x.0.CData? then [x] else [])
  {
    assert (xs + [x])[..|xs|] == xs;
  }

  // ---- sorting the character data parts ----

  /** The integer key of a character data part (0 for a child item, which is never sorted). */
  function Index<V>(x: Item<V>): int { if x.0.CData? then x.0.index else 0 }

  predicate ByIndex<V>(xs: seq<Item<V>>)
  {
    forall i, j :: 0 <= i < j < |xs| ==> Index(xs[i]) <= Index(xs[j])
  }

  predicate AllCData<V>(xs: seq<Item<V>>)
  {
    forall k :: 0 <= k < |xs| ==> xs[k].0.CData?
  }

  /** x placed before the first part of a sorted xs whose index is not smaller than its own. */
  function Insert<V>(x: Item<V>, xs: seq<Item<V>>): seq<Item<V>>
  {
    if xs == [] || Index(x) <= Index(xs[0]) then [x] + xs else [xs[0]] + Insert(x, xs[1..])
  }

  lemma InsertSorted<V>(x: Item<V>, xs: seq<Item<V>>)
    requires ByIndex(xs)
    ensures ByIndex(Insert(x, xs)) && multiset(Insert(x, xs)) == multiset(xs) + multiset{x}
    ensures Insert(x, xs)[0] == x || (xs != [] && Insert(x, xs)[0] == xs[0])
    ensures x.0.CData? && AllCData(xs) ==> AllCData(Insert(x, xs))
  {
    InsertByIndex(x, xs);
    InsertPerm(x, xs);
    InsertCData(x, xs);
  }

  lemma {:induction false} InsertByIndex<V>(x: Item<V>, xs: seq<Item<V>>)
    requires ByIndex(xs)
    ensures ByIndex(Insert(x, xs))
    ensures Insert(x, xs)[0] == x || (xs != [] && Insert(x, xs)[0] == xs[0])
  {
    if xs == [] || Index(x) <= Index(xs[0]) {
      if xs != [] { ConsSorted(x, xs); }
    } else {
      TailByIndex(xs);
      var rest := Insert(x, xs[1..]);
      InsertByIndex(x, xs[1..]);
      assert Insert(x, xs) == [xs[0]] + rest;
      if |xs| > 1 {
        assert Index(xs[0]) <= Index(xs[1]);
      }
      ConsSorted(xs[0], rest);
    }
  }

  lemma {:induction false} InsertPerm<V>(x: Item<V>, xs: seq<Item<V>>)
    ensures multiset(Insert(x, xs)) == multiset(xs) + multiset{x}
  {
    if xs != [] && Index(x) > Index(xs[0]) {
      var rest := Insert(x, xs[1..]);
      InsertPerm(x, xs[1..]);
      assert Insert(x, xs) == [xs[0]] + rest;
      assert xs == [xs[0]] + xs[1..];
      assert multiset([xs[0]] + rest) == multiset{xs[0]} + multiset(rest);
    }
  }

  lemma {:induction false} InsertCData<V>(x: Item<V>, xs: seq<Item<V>>)
    ensures x.0.CData? && AllCData(xs) ==> AllCData(Insert(x, xs))
  {
    if x.0.CData? && AllCData(xs) && xs != [] && Index(x) > Index(xs[0]) {
      var rest := Insert(x, xs[1..]);
      assert AllCData(xs[1..]) by {
        forall k | 0 <= k < |xs[1..]| ensures xs[1..][k].0.CData? { assert xs[1..][k] == xs[k + 1]; }
      }
      InsertCData(x, xs[1..]);
      assert Insert(x, xs) == [xs[0]] + rest;
      assert xs[0].0.CData?;
      forall k | 0 <= k < |rest| + 1 ensures ([xs[0]] + rest)[k].0.CData? {
        if k > 0 { assert ([xs[0]] + rest)[k] == rest[k - 1]; }
      }
    }
  }

  /** The parts after the first of a sorted sequence are sorted, and character data when all are. */
  lemma TailByIndex<V>(xs: seq<Item<V>>)
    requires ByIndex(xs) && xs != []
    ensures ByIndex(xs[1..])
    ensures AllCData(xs) ==> AllCData(xs[1..])
  {
    forall i, j | 0 <= i < j < |xs[1..]| ensures Index(xs[1..][i]) <= Index(xs[1..][j]) {
      assert xs[1..][i] == xs[i + 1] && xs[1..][j] == xs[j + 1];
    }
    if AllCData(xs) {
      forall k | 0 <= k < |xs[1..]| ensures xs[1..][k].0.CData? { assert xs[1..][k] == xs[k + 1]; }
    }
  }

  lemma ConsSorted<V>(x: Item<V>, xs: seq<Item<V>>)
    requires ByIndex(xs) && xs != [] && Index(x) <= Index(xs[0])
    ensures ByIndex([x] + xs)
  {
    var r := [x] + xs;
    forall i, j | 0 <= i < j < |r| ensures Index(r[i]) <= Index(r[j]) {
      if i == 0 {
        if j > 1 { assert Index(xs[0]) <= Index(xs[j - 1]); }
      } else {
        assert r[i] == xs[i - 1] && r[j] == xs[j - 1];
      }
    }
  }

  /**
   * sorted() of the character data parts, which the unordered iteration then pops smallest
   * first: the parts by ascending index.
   */
  function SortCData<V(==)>(xs: seq<Item<V>>): (r: seq<Item<V>>)
    requires AllCData(xs)
    ensures ByIndex(r) && multiset(r) == multiset(xs) && AllCData(r)
  {
    if xs == [] then []
    else
      assert xs == [xs[0]] + xs[1..];
      assert AllCData(xs[1..]) by {
        forall k | 0 <= k < |xs[1..]| ensures xs[1..][k].0.CData? { assert xs[1..][k] == xs[k + 1]; }
      }
      var rest := SortCData(xs[1..]);
      InsertSorted(xs[0], rest);
      Insert(xs[0], rest)
  }

  // ---- the dictionary of queues of values per tag ----

  predicate NoDup(s: seq<string>)
  {
    forall i, j :: 0 <= i < j < |s| ==> s[i] != s[j]
  }

  /**
   * A dictionary of deques: its keys in insertion order, and the queue of each. The unordered
   * iteration never keeps an empty queue; the collapsed one may, until a popleft() fails.
   */
  datatype Buffer<V> = Buffer(keys: seq<string>, vals: map<string, seq<V>>)

  predicate BufferOk<V>(b: Buffer<V>)
  {
    NoDup(b.keys) && (forall k :: k in b.vals ==> k in b.keys) && (forall k :: k in b.keys ==> k in b.vals)
  }

  predicate NoEmptyQueue<V>(b: Buffer<V>)
  {
    forall k :: k in b.vals ==> b.vals[k] != []
  }

  /** The queue of n, empty when n is not a key. */
  function Queue<V>(b: Buffer<V>, n: string): seq<V>
  {
    if n in b.vals then b.vals[n] else []
  }

  /** d[n].append(v) on a defaultdict(deque): a new key goes last. */
  function Append<V>(b: Buffer<V>, n: string, v: V): (r: Buffer<V>)
    requires BufferOk(b)
    ensures BufferOk(r)
    ensures forall m :: Queue(r, m) == Queue(b, m) + (if m == n then [v] else [])
    ensures r.keys == if n in b.keys then b.keys else b.keys + [n]
    ensures NoEmptyQueue(b) ==> NoEmptyQueue(r)
  {
    if n in b.vals then Buffer(b.keys, b.vals[n := b.vals[n] + [v]])
    else
      assert NoDup(b.keys + [n]) by {
        forall i, j | 0 <= i < j < |b.keys + [n]| ensures (b.keys + [n])[i] != (b.keys + [n])[j] {
          if j == |b.keys| { assert (b.keys + [n])[i] == b.keys[i]; }
        }
      }
      Buffer(b.keys + [n], b.vals[n := [v]])
  }

  /** The keys without n, in the same order. */
  function Without(s: seq<string>, n: string): (r: seq<string>)
    ensures forall x :: x in r <==> x in s && x != n
    ensures NoDup(s) ==> NoDup(r)
  {
    if s == [] then []
    else
      var rest := Without(s[1..], n);
      assert forall x :: x in s <==> x == s[0] || x in s[1..];
      if s[0] == n then rest
      else
        assert NoDup(s) ==> s[0] !in s[1..];
        assert NoDup(s) ==> NoDup(s[1..]) by {
          if NoDup(s) {
            forall i, j | 0 <= i < j < |s[1..]| ensures s[1..][i] != s[1..][j] {
              assert s[1..][i] == s[i + 1] && s[1..][j] == s[j + 1];
            }
          }
        }
        [s[0]] + rest
  }

  /** del d[n]. */
  function Delete<V>(b: Buffer<V>, n: string): (r: Buffer<V>)
    requires BufferOk(b)
    ensures BufferOk(r)
    ensures forall m :: Queue(r, m) == if m == n then [] else Queue(b, m)
    ensures NoEmptyQueue(b) ==> NoEmptyQueue(r)
  {
    Buffer(Without(b.keys, n), b.vals - {n})
  }

  /** d[n].popleft() on a non-empty queue, which stays in the dictionary. */
  function PopLeft<V>(b: Buffer<V>, n: string): (r: Buffer<V>)
    requires BufferOk(b) && Queue(b, n) != []
    ensures BufferOk(r) && r.keys == b.keys
    ensures forall m :: Queue(r, m) == if m == n then Queue(b, n)[1..] else Queue(b, m)
  {
    Buffer(b.keys, b.vals[n := b.vals[n][1..]])
  }

  /** popleft() followed by deleting the key once its queue is empty (the unordered iteration). */
  function Take<V>(b: Buffer<V>, n: string): (r: Buffer<V>)
    requires BufferOk(b) && Queue(b, n) != []
    ensures BufferOk(r)
    ensures forall m :: Queue(r, m) == if m == n then Queue(b, n)[1..] else Queue(b, m)
    ensures NoEmptyQueue(b) ==> NoEmptyQueue(r)
  {
    if |b.vals[n]| == 1 then Delete(b, n) else PopLeft(b, n)
  }

  // ---- iter_unordered_content ----

  /** The defaultdict(deque) of the child items of a content, by first appearance of their tag. */
  method ConsumableContent<V>(content: seq<Item<V>>) returns (b: Buffer<V>)
    ensures BufferOk(b) && NoEmptyQueue(b)
    ensures forall n :: Queue(b, n) == ValuesOf(content, n)
  {
    b := Buffer([], map[]);
    var i := 0;
    while i < |content|
      invariant 0 <= i <= |content|
      invariant BufferOk(b) && NoEmptyQueue(b)
      invariant forall n :: Queue(b, n) == ValuesOf(content[..i], n)
    {
      PrefixStep(content, i);
      AppendItem(content[..i], content[i]);
      if content[i].0.Tag? {
        b := Append(b, content[i].0.name, content[i].1);
      }
      i := i + 1;
    }
    assert content[..i] == content;
  }

  /** The for loop looking for the first key of the buffer the current element of the model matches. */
  method FirstMatching(keys: seq<string>, p: Particle, defaultNamespace: string, globals: map<string, ElementDecl>,
                       ctx: GroupContext) returns (r: Option<nat>)
    ensures r.Some? ==> r.value < |keys| && LeafMatches(p, keys[r.value], defaultNamespace, globals, ctx, None)
    ensures r.Some? ==> forall j :: 0 <= j < r.value ==> !LeafMatches(p, keys[j], defaultNamespace, globals, ctx, None)
    ensures r.None? ==> forall j :: 0 <= j < |keys| ==> !LeafMatches(p, keys[j], defaultNamespace, globals, ctx, None)
  {
    var j := 0;
    while j < |keys|
      invariant 0 <= j <= |keys|
      invariant forall i :: 0 <= i < j ==> !LeafMatches(p, keys[i], defaultNamespace, globals, ctx, None)
    {
      if LeafMatches(p, keys[j], defaultNamespace, globals, ctx, None) {
        return Some(j);
      }
      j := j + 1;
    }
    return None;
  }

  /** The group context of a model for the XSD 1.1 wildcards of its root group. */
  function ContextOf(root: Particle): GroupContext
  {
    GroupContext(IdOf(root), ElementsOf(IterElements(root)))
  }

  function ElementsOf(ps: seq<Particle>): seq<ElementDecl>
  {
    if ps == [] then []
    else (if ps[0].Leaf? && ps[0].kind.ElementLeaf? then [ps[0].kind.e] else []) + ElementsOf(ps[1..])
  }

  /** cdata_content.pop(), when there is one left, yielded after the items so far. */
  method PopCData<V>(out0: seq<Item<V>>, cdata0: seq<Item<V>>) returns (out: seq<Item<V>>, cdata: seq<Item<V>>)
    requires AllCData(cdata0)
    ensures AllCData(cdata)
    ensures CDataOf(out) + cdata == CDataOf(out0) + cdata0
    ensures forall n :: ValuesOf(out, n) == ValuesOf(out0, n)
    ensures TagsOf(out) == TagsOf(out0)
    ensures cdata0 != [] ==> |cdata| < |cdata0|
  {
    out, cdata := out0, cdata0;
    if cdata != [] {
      AppendItem(out, cdata[0]);
      AppendTag(out, cdata[0]);
      out, cdata := out + [cdata[0]], cdata[1..];
    }
  }

  /** yield name, consumable_content[name].popleft(), deleting the key once its queue is empty. */
  method TakeQueued<V>(out0: seq<Item<V>>, b0: Buffer<V>, name: string) returns (out: seq<Item<V>>, b: Buffer<V>)
    requires BufferOk(b0) && NoEmptyQueue(b0) && name in b0.keys
    ensures BufferOk(b) && NoEmptyQueue(b)
    ensures forall n :: ValuesOf(out, n) + Queue(b, n) == ValuesOf(out0, n) + Queue(b0, n)
    ensures CDataOf(out) == CDataOf(out0)
    ensures TagsOf(out) == TagsOf(out0) + [(Tag(name), Queue(b0, name)[0])]
  {
    var q := b0.vals[name];
    AppendItem(out0, (Tag(name), q[0]));
    AppendTag(out0, (Tag(name), q[0]));
    out := out0 + [(Tag(name), q[0])];
    b := Take(b0, name);
    forall n ensures ValuesOf(out, n) + Queue(b, n) == ValuesOf(out0, n) + Queue(b0, n) {
      if n == name {
        assert ValuesOf(out, n) == ValuesOf(out0, n) + [q[0]];
        assert Queue(b, n) == q[1..] && Queue(b0, n) == q;
        ConsTail(ValuesOf(out0, n), q);
      } else {
        assert ValuesOf(out, n) == ValuesOf(out0, n) && Queue(b, n) == Queue(b0, n);
      }
    }
  }

  /** Moving the head of a queue to the end of the values keeps their concatenation. */
  lemma ConsTail<T>(xs: seq<T>, q: seq<T>)
    requires q != []
    ensures xs + [q[0]] + q[1..] == xs + q
  {
    assert q == [q[0]] + q[1..];
  }

  /** for _err in model.advance(match): pass. The violations are dropped; an exception is returned. */
  method AdvanceDiscarding(model: ModelVisitor, isMatch: bool) returns (error: Option<VisitError>)
    requires model.Valid() && model.element.Some?
    modifies model
    ensures model.Valid()
    ensures error != Some(Ended) && error != Some(IndexError)
  {
    var _, err := model.AdvanceValid(isMatch);
    error := err;
  }

  /** A child item whose tag an element or wildcard of the model rooted at root matches. */
  ghost predicate PlacedItem<V>(x: Item<V>, root: Particle, defaultNamespace: string, globals: map<string, ElementDecl>,
                                ctx: GroupContext)
  {
    x.0.Tag? && exists p: Particle :: p in ModelLeaves(root) && LeafMatches(p, x.0.name, defaultNamespace, globals, ctx, None)
  }

  lemma PlacedMore<V>(placed: seq<Item<V>>, x: Item<V>, root: Particle, defaultNamespace: string,
                      globals: map<string, ElementDecl>, ctx: GroupContext)
    requires forall k :: 0 <= k < |placed| ==> PlacedItem(placed[k], root, defaultNamespace, globals, ctx)
    requires PlacedItem(x, root, defaultNamespace, globals, ctx)
    ensures forall k :: 0 <= k < |placed + [x]| ==> PlacedItem((placed + [x])[k], root, defaultNamespace, globals, ctx)
  {
  }

  /**
   * One turn of the main loop of iter_unordered_content where the current element matches
   * keys[j]: the next value of that key, the model advanced on a match and a character data part.
   */
  method PlaceKey<V>(model: ModelVisitor, j: nat, ghost out0: seq<Item<V>>, ghost b0: Buffer<V>, ghost cdata0: seq<Item<V>>,
                     outI: seq<Item<V>>, bI: Buffer<V>, cdataI: seq<Item<V>>, ghost placedI: seq<Item<V>>,
                     defaultNamespace: string, globals: map<string, ElementDecl>, ctx: GroupContext)
    returns (out: seq<Item<V>>, b: Buffer<V>, cdata: seq<Item<V>>, error: Option<VisitError>, ghost placed: seq<Item<V>>)
    requires model.Valid() && model.element.Some? && BufferOk(bI) && NoEmptyQueue(bI) && AllCData(cdataI)
    requires j < |bI.keys| && LeafMatches(model.element.value, bI.keys[j], defaultNamespace, globals, ctx, None)
    requires TagsOf(outI) == TagsOf(out0) + placedI
    requires forall k :: 0 <= k < |placedI| ==> PlacedItem(placedI[k], model.root, defaultNamespace, globals, ctx)
    requires forall n :: ValuesOf(outI, n) + Queue(bI, n) == ValuesOf(out0, n) + Queue(b0, n)
    requires CDataOf(outI) + cdataI == CDataOf(out0) + cdata0
    modifies model
    ensures model.Valid()
    ensures BufferOk(b) && NoEmptyQueue(b) && AllCData(cdata)
    ensures TagsOf(out) == TagsOf(out0) + placed
    ensures placed == placedI + [(Tag(bI.keys[j]), Queue(bI, bI.keys[j])[0])]
    ensures forall k :: 0 <= k < |placed| ==> PlacedItem(placed[k], model.root, defaultNamespace, globals, ctx)
    ensures forall n :: ValuesOf(out, n) + Queue(b, n) == ValuesOf(out0, n) + Queue(b0, n)
    ensures CDataOf(out) + cdata == CDataOf(out0) + cdata0
    ensures error != Some(Ended) && error != Some(IndexError)
  {
    var name := bI.keys[j];
    ghost var x := (Tag(name), Queue(bI, name)[0]);
    assert PlacedItem(x, model.root, defaultNamespace, globals, ctx) by {
      assert LeafMatches(model.element.value, name, defaultNamespace, globals, ctx, None);
    }
    out, b := TakeQueued(outI, bI, name);
    var err := AdvanceDiscarding(model, true);
    error := err;
    out, cdata := PopCData(out, cdataI);
    PlacedMore(placedI, x, model.root, defaultNamespace, globals, ctx);
    placed := placedI + [x];
  }

  /**
   * The main loop of iter_unordered_content: while the model has a current element and there
   * is content left, the first key the element matches gives its next value and the model
   * advances on a match, else the model advances without one.
   */
  method PlaceByModel<V>(model: ModelVisitor, out0: seq<Item<V>>, b0: Buffer<V>, cdata0: seq<Item<V>>,
                         defaultNamespace: string, globals: map<string, ElementDecl>, ctx: GroupContext)
    returns (out: seq<Item<V>>, b: Buffer<V>, cdata: seq<Item<V>>, error: Option<VisitError>, ghost placed: seq<Item<V>>)
    requires model.Valid() && BufferOk(b0) && NoEmptyQueue(b0) && AllCData(cdata0)
    modifies model
    ensures BufferOk(b) && NoEmptyQueue(b) && AllCData(cdata)
    ensures TagsOf(out) == TagsOf(out0) + placed
    ensures forall k :: 0 <= k < |placed| ==> PlacedItem(placed[k], model.root, defaultNamespace, globals, ctx)
    ensures forall n :: ValuesOf(out, n) + Queue(b, n) == ValuesOf(out0, n) + Queue(b0, n)
    ensures CDataOf(out) + cdata == CDataOf(out0) + cdata0
    ensures error != Some(Ended) && error != Some(IndexError)
    ensures error.None? ==> model.element.None? || b.keys == []
  {
    out, b, cdata := out0, b0, cdata0;
    placed := [];
    var steps := 0;
    while model.element.Some? && b.keys != [] && steps < STEP_LIMIT
      invariant model.Valid()
      invariant TagsOf(out) == TagsOf(out0) + placed
      invariant forall k :: 0 <= k < |placed| ==> PlacedItem(placed[k], model.root, defaultNamespace, globals, ctx)
      invariant BufferOk(b) && NoEmptyQueue(b) && AllCData(cdata)
      invariant forall n :: ValuesOf(out, n) + Queue(b, n) == ValuesOf(out0, n) + Queue(b0, n)
      invariant CDataOf(out) + cdata == CDataOf(out0) + cdata0
      decreases STEP_LIMIT - steps
    {
      var found := FirstMatching(b.keys, model.element.value, defaultNamespace, globals, ctx);
      var e;
      if found.Some? {
        out, b, cdata, e, placed := PlaceKey(model, found.value, out0, b0, cdata0, out, b, cdata, placed,
                                             defaultNamespace, globals, ctx);
      } else {
        var err := AdvanceDiscarding(model, false);
        e := err;
      }
      if e.Some? {
        error := e;
        return;
      }
      steps := steps + 1;
    }
    error := if model.element.Some? && b.keys != [] then Some(StepLimit) else None;
  }

  /** The queue of each key from position i on: the one of keys[i], then the others. */
  lemma {:induction false} KeySuffix(keys: seq<string>, i: nat)
    requires NoDup(keys) && i < |keys|
    ensures keys[i] !in keys[i + 1..]
    ensures forall m :: m in keys[i..] <==> m == keys[i] || m in keys[i + 1..]
  {
    assert keys[i..] == [keys[i]] + keys[i + 1..];
    assert forall k :: i + 1 <= k < |keys| ==> keys[k] != keys[i];
  }

  /** The queue of n when n is one of the keys from position i on. */
  function QueuedFrom<V>(b: Buffer<V>, i: nat, n: string): seq<V>
    requires i <= |b.keys|
  {
    if n in b.keys[i..] then Queue(b, n) else []
  }

  /** The items (Tag(n), v) of the values vs of n, in order. */
  function TagItems<V>(n: string, vs: seq<V>): (r: seq<Item<V>>)
    ensures |r| == |vs| && forall k :: 0 <= k < |r| ==> r[k] == (Tag(n), vs[k])
  {
    if vs == [] then [] else [(Tag(n), vs[0])] + TagItems(n, vs[1..])
  }

  lemma TagItemsSnoc<V>(n: string, vs: seq<V>, v: V)
    ensures TagItems(n, vs + [v]) == TagItems(n, vs) + [(Tag(n), v)]
  {
  }

  /** The items of the queues of keys[i..], key by key in the order of the keys. */
  function Unplaced<V>(b: Buffer<V>, i: nat): seq<Item<V>>
    requires i <= |b.keys|
    decreases |b.keys| - i
  {
    if i == |b.keys| then [] else TagItems(b.keys[i], Queue(b, b.keys[i])) + Unplaced(b, i + 1)
  }

  /** The queues of the keys from i on are the queue of keys[i], then those of the keys after it. */
  lemma PutStep<V>(b: Buffer<V>, i: nat, before: seq<Item<V>>, after: seq<Item<V>>, out0: seq<Item<V>>)
    requires BufferOk(b) && i < |b.keys|
    requires forall n :: ValuesOf(before, n) + QueuedFrom(b, i, n) == ValuesOf(out0, n) + Queue(b, n)
    requires forall n :: ValuesOf(after, n) == ValuesOf(before, n) + (if n == b.keys[i] then b.vals[b.keys[i]] else [])
    ensures forall n :: ValuesOf(after, n) + QueuedFrom(b, i + 1, n) == ValuesOf(out0, n) + Queue(b, n)
  {
    KeySuffix(b.keys, i);
    forall n ensures ValuesOf(after, n) + QueuedFrom(b, i + 1, n) == ValuesOf(out0, n) + Queue(b, n) {
      assert ValuesOf(before, n) + QueuedFrom(b, i, n) == ValuesOf(out0, n) + Queue(b, n);
      if n == b.keys[i] {
        assert QueuedFrom(b, i, n) == b.vals[n] && QueuedFrom(b, i + 1, n) == [];
      } else {
        assert QueuedFrom(b, i, n) == QueuedFrom(b, i + 1, n);
      }
    }
  }

  /** One key of the tail of iter_unordered_content: its queue, each value followed by a character data part. */
  method PutKey<V>(out0: seq<Item<V>>, b: Buffer<V>, i: nat, outI: seq<Item<V>>, cdataI: seq<Item<V>>)
    returns (out: seq<Item<V>>, cdata: seq<Item<V>>)
    requires BufferOk(b) && AllCData(cdataI) && i < |b.keys|
    requires forall n :: ValuesOf(outI, n) + QueuedFrom(b, i, n) == ValuesOf(out0, n) + Queue(b, n)
    ensures AllCData(cdata)
    ensures forall n :: ValuesOf(out, n) + QueuedFrom(b, i + 1, n) == ValuesOf(out0, n) + Queue(b, n)
    ensures CDataOf(out) + cdata == CDataOf(outI) + cdataI
    ensures TagsOf(out) + Unplaced(b, i + 1) == TagsOf(outI) + Unplaced(b, i)
  {
    var name := b.keys[i];
    out, cdata := PutQueue(outI, cdataI, name, b.vals[name]);
    PutStep(b, i, outI, out, out0);
    UnplacedStep(b, i, TagsOf(outI), TagsOf(out));
  }

  lemma UnplacedStep<V>(b: Buffer<V>, i: nat, before: seq<Item<V>>, after: seq<Item<V>>)
    requires BufferOk(b) && i < |b.keys| && after == before + TagItems(b.keys[i], b.vals[b.keys[i]])
    ensures after + Unplaced(b, i + 1) == before + Unplaced(b, i)
  {
    var n := b.keys[i];
    assert n in b.vals && Queue(b, n) == b.vals[n];
    var items := TagItems(n, b.vals[n]);
    var tail := Unplaced(b, i + 1);
    assert Unplaced(b, i) == items + tail;
    assert (before + items) + tail == before + (items + tail);
  }

  /** The tail of iter_unordered_content: the remaining queues, key by key, each value followed by a character data part. */
  method PutRemaining<V>(out0: seq<Item<V>>, b: Buffer<V>, cdata0: seq<Item<V>>)
    returns (out: seq<Item<V>>, cdata: seq<Item<V>>)
    requires BufferOk(b) && AllCData(cdata0)
    ensures AllCData(cdata)
    ensures forall n :: ValuesOf(out, n) == ValuesOf(out0, n) + Queue(b, n)
    ensures CDataOf(out) + cdata == CDataOf(out0) + cdata0
    ensures TagsOf(out) == TagsOf(out0) + Unplaced(b, 0)
  {
    out, cdata := out0, cdata0;
    assert b.keys[0..] == b.keys;
    var i := 0;
    while i < |b.keys|
      invariant 0 <= i <= |b.keys|
      invariant AllCData(cdata)
      invariant forall n :: ValuesOf(out, n) + QueuedFrom(b, i, n) == ValuesOf(out0, n) + Queue(b, n)
      invariant CDataOf(out) + cdata == CDataOf(out0) + cdata0
      invariant TagsOf(out) + Unplaced(b, i) == TagsOf(out0) + Unplaced(b, 0)
    {
      out, cdata := PutKey(out0, b, i, out, cdata);
      i := i + 1;
    }
    forall n ensures ValuesOf(out, n) == ValuesOf(out0, n) + Queue(b, n) {
      assert QueuedFrom(b, i, n) == [];
    }
  }

  /**
   * iter_unordered_content: the children of a content in the order the model visits them,
   * the ones it does not place at the end, with the character data parts at the start and
   * between children. Every value of a tag keeps its place among the values of that tag, and
   * the character data parts come by ascending index, none lost. An exception of the visitor
   * ends the iteration.
   */
  method IterUnorderedContent<V(==)>(content: seq<Item<V>>, root: Particle, defaultNamespace: string,
                                     globals: map<string, ElementDecl>)
    returns (out: seq<Item<V>>, error: Option<VisitError>, ghost placed: seq<Item<V>>, ghost rest: Buffer<V>,
             model: ModelVisitor)
    requires root.Group?
    ensures error != Some(Ended) && error != Some(IndexError)
    ensures model.root == root
    ensures error.None? ==> model.element.None? || (rest.keys == [] && TagsOf(out) == placed)
    ensures error.None? ==> TagsOf(out) == placed + Unplaced(rest, 0) && BufferOk(rest)
    ensures error.None? ==> forall k :: 0 <= k < |placed| ==> PlacedItem(placed[k], root, defaultNamespace, globals, ContextOf(root))
    ensures error.None? ==> forall n :: ValuesOf(placed, n) + Queue(rest, n) == ValuesOf(content, n)
    ensures error.None? ==> forall n :: ValuesOf(out, n) == ValuesOf(content, n)
    ensures error.None? ==> ByIndex(CDataOf(out)) && multiset(CDataOf(out)) == multiset(CDataOf(content))
  {
    var cdata := SortCData(CDataOf(content));
    ghost var sorted := cdata;
    var consumable := ConsumableContent(content);
    out := [];
    out, cdata := PopCData(out, cdata);
    model := new ModelVisitor(root);
    out, consumable, cdata, error, placed := PlaceByModel(model, out, consumable, cdata, defaultNamespace, globals, ContextOf(root));
    rest := consumable;
    if error.Some? {
      return;
    }
    assert TagsOf(out) == placed;
    forall n ensures ValuesOf(placed, n) + Queue(rest, n) == ValuesOf(content, n) {
      ValuesOfTags(out, n);
    }
    out, cdata := PutRemaining(out, consumable, cdata);
    out := PutAllCData(out, cdata);
  }

  /** The end of iter_unordered_content: the character data parts still pending, in order. */
  method PutAllCData<V>(out0: seq<Item<V>>, cdata0: seq<Item<V>>) returns (out: seq<Item<V>>)
    requires AllCData(cdata0)
    ensures CDataOf(out) == CDataOf(out0) + cdata0
    ensures forall n :: ValuesOf(out, n) == ValuesOf(out0, n)
    ensures TagsOf(out) == TagsOf(out0)
  {
    out := out0;
    var cdata := cdata0;
    while cdata != []
      invariant AllCData(cdata)
      invariant forall n :: ValuesOf(out, n) == ValuesOf(out0, n)
      invariant TagsOf(out) == TagsOf(out0)
      invariant CDataOf(out) + cdata == CDataOf(out0) + cdata0
      decreases |cdata|
    {
      out, cdata := PopCData(out, cdata);
    }
  }

  /** The innermost loop of the tail of iter_unordered_content: the values of one tag, each followed by a character data part. */
  method PutQueue<V>(out0: seq<Item<V>>, cdata0: seq<Item<V>>, name: string, vs: seq<V>)
    returns (out: seq<Item<V>>, cdata: seq<Item<V>>)
    requires AllCData(cdata0)
    ensures AllCData(cdata)
    ensures CDataOf(out) + cdata == CDataOf(out0) + cdata0
    ensures forall n :: ValuesOf(out, n) == ValuesOf(out0, n) + (if n == name then vs else [])
    ensures TagsOf(out) == TagsOf(out0) + TagItems(name, vs)
  {
    out, cdata := out0, cdata0;
    var j := 0;
    while j < |vs|
      invariant 0 <= j <= |vs|
      invariant AllCData(cdata)
      invariant TagsOf(out) == TagsOf(out0) + TagItems(name, vs[..j])
      invariant CDataOf(out) + cdata == CDataOf(out0) + cdata0
      invariant forall n :: ValuesOf(out, n) == ValuesOf(out0, n) + (if n == name then vs[..j] else [])
    {
      ghost var before := out;
      out, cdata := PutOne(out, cdata, name, vs[j]);
      assert vs[..j + 1] == vs[..j] + [vs[j]];
      TagItemsSnoc(name, vs[..j], vs[j]);
      forall n ensures ValuesOf(out, n) == ValuesOf(out0, n) + (if n == name then vs[..j + 1] else []) {
        assert ValuesOf(before, n) == ValuesOf(out0, n) + (if n == name then vs[..j] else []);
      }
      j := j + 1;
    }
    assert vs[..j] == vs;
  }

  /** yield name, v, then a character data part when there is one left. */
  method PutOne<V>(out0: seq<Item<V>>, cdata0: seq<Item<V>>, name: string, v: V)
    returns (out: seq<Item<V>>, cdata: seq<Item<V>>)
    requires AllCData(cdata0)
    ensures AllCData(cdata)
    ensures CDataOf(out) + cdata == CDataOf(out0) + cdata0
    ensures forall n :: ValuesOf(out, n) == ValuesOf(out0, n) + (if n == name then [v] else [])
    ensures TagsOf(out) == TagsOf(out0) + [(Tag(name), v)]
  {
    var mid := out0 + [(Tag(name), v)];
    AppendItem(out0, (Tag(name), v));
    AppendTag(out0, (Tag(name), v));
    assert CDataOf(mid) == CDataOf(out0);
    out, cdata := PopCData(mid, cdata0);
  }

  /** sort_content: the list of the items iter_unordered_content yields. */
  method SortContent<V(==)>(content: seq<Item<V>>, root: Particle, defaultNamespace: string,
                        globals: map<string, ElementDecl>) returns (r: Result<seq<Item<V>>, VisitError>)
    requires root.Group?
    ensures r.Ok? ==> forall n :: ValuesOf(r.value, n) == ValuesOf(content, n)
    ensures r.Ok? ==> ByIndex(CDataOf(r.value)) && multiset(CDataOf(r.value)) == multiset(CDataOf(content))
  {
    var out, error, _, _, _ := IterUnorderedContent(content, root, defaultNamespace, globals);
    if error.Some? {
      return Err(error.value);
    }
    return Ok(out);
  }

  // ---- iter_collapsed_content ----

  /** The items (Tag(n), v) a queue of n holds. */
  ghost function Tagged<V>(n: string, vs: seq<V>): multiset<Item<V>>
  {
    if vs == [] then multiset{} else multiset{(Tag(n), vs[0])} + Tagged(n, vs[1..])
  }

  function QueueIn<V>(vals: map<string, seq<V>>, n: string): seq<V>
  {
    if n in vals then vals[n] else []
  }

  /** The items the queues of the keys hold. */
  ghost function Held<V>(keys: seq<string>, vals: map<string, seq<V>>): multiset<Item<V>>
  {
    if keys == [] then multiset{} else Tagged(keys[0], QueueIn(vals, keys[0])) + Held(keys[1..], vals)
  }

  /** Every item a buffer holds. */
  ghost function Buffered<V>(b: Buffer<V>): multiset<Item<V>>
  {
    Held(b.keys, b.vals)
  }

  lemma {:induction false} TaggedAppend<V>(n: string, vs: seq<V>, v: V)
    ensures Tagged(n, vs + [v]) == Tagged(n, vs) + multiset{(Tag(n), v)}
  {
    if vs != [] {
      assert (vs + [v])[1..] == vs[1..] + [v];
      TaggedAppend(n, vs[1..], v);
    } else {
      assert [] + [v] == [v];
      assert [v][1..] == [];
    }
  }

  /** Keys whose queues agree hold the same items. */
  lemma {:induction false} HeldSame<V>(keys: seq<string>, v1: map<string, seq<V>>, v2: map<string, seq<V>>)
    requires forall k :: k in keys ==> QueueIn(v1, k) == QueueIn(v2, k)
    ensures Held(keys, v1) == Held(keys, v2)
  {
    if keys != [] {
      assert keys[0] in keys;
      assert forall k :: k in keys[1..] ==> k in keys;
      HeldSame(keys[1..], v1, v2);
    }
  }

  lemma NoDupTail(s: seq<string>)
    requires NoDup(s) && s != []
    ensures NoDup(s[1..]) && s[0] !in s[1..]
  {
    var tail := s[1..];
    forall i, j | 0 <= i < j < |tail| ensures tail[i] != tail[j] {
      assert tail[i] == s[i + 1] && tail[j] == s[j + 1];
    }
    assert forall i :: 0 <= i < |tail| ==> tail[i] == s[i + 1];
  }

  /** Replacing the queue of a key n the keys hold once. */
  lemma {:induction false} HeldUpdate<V>(keys: seq<string>, vals: map<string, seq<V>>, n: string, q: seq<V>)
    requires NoDup(keys) && n in keys
    ensures Held(keys, vals[n := q]) + Tagged(n, QueueIn(vals, n)) == Held(keys, vals) + Tagged(n, q)
  {
    NoDupTail(keys);
    if keys[0] == n {
      HeldUpdateFirst(keys, vals, q);
    } else {
      var tail := keys[1..];
      var vals' := vals[n := q];
      assert keys == [keys[0]] + tail;
      assert QueueIn(vals', keys[0]) == QueueIn(vals, keys[0]);
      HeldUpdate(tail, vals, n, q);
      MultisetShuffle(Tagged(keys[0], QueueIn(vals, keys[0])), Held(tail, vals'), Held(tail, vals),
                      Tagged(n, QueueIn(vals, n)), Tagged(n, q));
    }
  }

  lemma HeldUpdateFirst<V>(keys: seq<string>, vals: map<string, seq<V>>, q: seq<V>)
    requires keys != [] && keys[0] !in keys[1..]
    ensures Held(keys, vals[keys[0] := q]) + Tagged(keys[0], QueueIn(vals, keys[0]))
            == Held(keys, vals) + Tagged(keys[0], q)
  {
    HeldSame(keys[1..], vals[keys[0] := q], vals);
  }

  lemma MultisetShuffle<T>(a: multiset<T>, b: multiset<T>, c: multiset<T>, d: multiset<T>, e: multiset<T>)
    requires b + d == c + e
    ensures (a + b) + d == (a + c) + e
  {
    assert (a + b) + d == a + (b + d);
  }

  lemma {:induction false} HeldSnoc<V>(keys: seq<string>, vals: map<string, seq<V>>, n: string)
    ensures Held(keys + [n], vals) == Held(keys, vals) + Tagged(n, QueueIn(vals, n))
  {
    if keys == [] {
      assert [] + [n] == [n];
      assert [n][1..] == [];
    } else {
      assert (keys + [n])[1..] == keys[1..] + [n];
      HeldSnoc(keys[1..], vals, n);
    }
  }

  lemma {:induction false} HeldWithout<V>(keys: seq<string>, vals: map<string, seq<V>>, n: string)
    requires NoDup(keys)
    ensures Held(Without(keys, n), vals) + (if n in keys then Tagged(n, QueueIn(vals, n)) else multiset{})
            == Held(keys, vals)
  {
    if keys != [] {
      var tail := keys[1..];
      NoDupTail(keys);
      HeldWithout(tail, vals, n);
      assert forall k :: k in keys <==> k == keys[0] || k in tail by { assert keys == [keys[0]] + tail; }
      if keys[0] != n {
        assert ([keys[0]] + Without(tail, n))[1..] == Without(tail, n);
      }
    }
  }

  lemma BufferedAppend<V>(b: Buffer<V>, n: string, v: V)
    requires BufferOk(b)
    ensures Buffered(Append(b, n, v)) == Buffered(b) + multiset{(Tag(n), v)}
  {
    if n in b.vals {
      var q := b.vals[n];
      TaggedAppend(n, q, v);
      assert QueueIn(b.vals, n) == q;
      HeldUpdate(b.keys, b.vals, n, q + [v]);
      CancelRight(Buffered(Append(b, n, v)), Buffered(b) + multiset{(Tag(n), v)}, Tagged(n, q));
    } else {
      var vals := b.vals[n := [v]];
      HeldSnoc(b.keys, vals, n);
      HeldSame(b.keys, vals, b.vals);
      assert Tagged(n, [v]) == multiset{(Tag(n), v)} by { assert [v][1..] == []; }
    }
  }

  lemma CancelRight<T>(a: multiset<T>, b: multiset<T>, c: multiset<T>)
    requires a + c == b + c
    ensures a == b
  {
    assert forall x :: a[x] == (a + c)[x] - c[x];
  }

  lemma BufferedPopLeft<V>(b: Buffer<V>, n: string)
    requires BufferOk(b) && Queue(b, n) != []
    ensures Buffered(PopLeft(b, n)) + multiset{(Tag(n), Queue(b, n)[0])} == Buffered(b)
  {
    var q := b.vals[n];
    assert QueueIn(b.vals, n) == q;
    assert Tagged(n, q) == multiset{(Tag(n), q[0])} + Tagged(n, q[1..]);
    HeldUpdate(b.keys, b.vals, n, q[1..]);
    CancelRight(Buffered(PopLeft(b, n)) + multiset{(Tag(n), q[0])}, Buffered(b), Tagged(n, q[1..]));
  }

  lemma BufferedDelete<V>(b: Buffer<V>, n: string)
    requires BufferOk(b) && Queue(b, n) == []
    ensures Buffered(Delete(b, n)) == Buffered(b)
  {
    HeldWithout(b.keys, b.vals, n);
    HeldSame(Without(b.keys, n), b.vals - {n}, b.vals);
    if n in b.keys { assert Tagged(n, QueueIn(b.vals, n)) == multiset{}; }
  }

  /** yield name, value for an item the visitor does not hold back. */
  method Yield<V>(out0: seq<Item<V>>, x: Item<V>) returns (out: seq<Item<V>>)
    ensures out == out0 + [x]
    ensures multiset(out) == multiset(out0) + multiset{x}
    ensures CDataOf(out) == CDataOf(out0) + (if x.0.CData? then [x] else [])
  {
    AppendItem(out0, x);
    out := out0 + [x];
  }

  /**
   * The buffered key the current element matched: yield key, unordered_content[key].popleft(),
   * and advance on a match; an empty queue raises IndexError, which deletes the key instead.
   */
  method TakeBuffered<V>(model: ModelVisitor, out0: seq<Item<V>>, b0: Buffer<V>, key: string)
    returns (out: seq<Item<V>>, b: Buffer<V>, error: Option<VisitError>)
    requires model.Valid() && BufferOk(b0) && model.element.Some?
    modifies model
    ensures model.Valid() && BufferOk(b)
    ensures multiset(out) + Buffered(b) == multiset(out0) + Buffered(b0)
    ensures CDataOf(out) == CDataOf(out0)
    ensures error != Some(Ended) && error != Some(IndexError)
  {
    if Queue(b0, key) == [] {
      BufferedDelete(b0, key);
      return out0, Delete(b0, key), None;
    }
    BufferedPopLeft(b0, key);
    out := Yield(out0, (Tag(key), b0.vals[key][0]));
    b := PopLeft(b0, key);
    var err := AdvanceDiscarding(model, true);
    error := err;
  }

  /**
   * The inner while loop of iter_collapsed_content for a child item (name, value): it is
   * yielded when the current element matches it; else a buffered key the element matches is
   * yielded first; else a repetition of the previous tag is buffered; else the model advances
   * without a match. A visit that ends yields the item.
   */
  method PlaceCollapsed<V>(model: ModelVisitor, out0: seq<Item<V>>, b0: Buffer<V>, prev0: Option<string>,
                           name: string, value: V, defaultNamespace: string, globals: map<string, ElementDecl>,
                           ctx: GroupContext)
    returns (out: seq<Item<V>>, b: Buffer<V>, prev: Option<string>, error: Option<VisitError>)
    requires model.Valid() && BufferOk(b0)
    modifies model
    ensures model.Valid() && BufferOk(b)
    ensures error.None? ==> multiset(out) + Buffered(b) == multiset(out0) + Buffered(b0) + multiset{(Tag(name), value)}
    ensures CDataOf(out) == CDataOf(out0)
    ensures error != Some(Ended) && error != Some(IndexError)
    ensures error.None? ==> prev == Some(name)
    ensures error.None? && b0.keys == [] && prev0 != Some(name) ==> out == out0 + [(Tag(name), value)] && b == b0
  {
    out, b, prev := out0, b0, prev0;
    var steps := 0;
    while model.element.Some?
      invariant 0 <= steps <= STEP_LIMIT
      invariant model.Valid() && BufferOk(b)
      invariant multiset(out) + Buffered(b) == multiset(out0) + Buffered(b0)
      invariant CDataOf(out) == CDataOf(out0)
      invariant b0.keys == [] && prev0 != Some(name) ==> out == out0 && b == b0 && prev == prev0
      decreases STEP_LIMIT - steps
    {
      if steps == STEP_LIMIT {
        return out, b, prev, Some(StepLimit);
      }
      steps := steps + 1;
      var done;
      out, b, prev, done, error := CollapseTurn(model, out, b, prev, name, value, defaultNamespace, globals, ctx);
      if done {
        return;
      }
    }
    out := Yield(out, (Tag(name), value));
    prev := Some(name);
    error := None;
  }

  /**
   * One turn of the inner while loop of iter_collapsed_content: the item is yielded when the
   * current element matches it (done), a buffered key the element matches is yielded, a
   * repetition of the previous tag is buffered (done), or the model advances without a match.
   */
  method CollapseTurn<V>(model: ModelVisitor, out0: seq<Item<V>>, b0: Buffer<V>, prev0: Option<string>,
                         name: string, value: V, defaultNamespace: string, globals: map<string, ElementDecl>,
                         ctx: GroupContext)
    returns (out: seq<Item<V>>, b: Buffer<V>, prev: Option<string>, done: bool, error: Option<VisitError>)
    requires model.Valid() && BufferOk(b0) && model.element.Some?
    modifies model
    ensures model.Valid() && BufferOk(b)
    ensures error.Some? ==> done
    ensures done && error.None? ==>
              multiset(out) + Buffered(b) == multiset(out0) + Buffered(b0) + multiset{(Tag(name), value)} && prev == Some(name)
    ensures !done ==> multiset(out) + Buffered(b) == multiset(out0) + Buffered(b0) && prev == prev0
    ensures CDataOf(out) == CDataOf(out0)
    ensures error != Some(Ended) && error != Some(IndexError)
    ensures error.None? && b0.keys == [] && prev0 != Some(name) ==>
              b == b0 && out == (if done then out0 + [(Tag(name), value)] else out0)
  {
    out, b, prev := out0, b0, prev0;
    if LeafMatches(model.element.value, name, defaultNamespace, globals, ctx, None) {
      out := Yield(out, (Tag(name), value));
      prev := Some(name);
      error := AdvanceDiscarding(model, true);
      done := true;
    } else {
      out, b, done, error := ReleaseOrHold(model, out, b, prev, name, value, defaultNamespace, globals, ctx);
    }
  }

  /**
   * A turn where the current element does not match the item: a buffered key the element
   * matches is yielded, else a repetition of the previous tag is buffered (done), else the
   * model advances without a match.
   */
  method ReleaseOrHold<V>(model: ModelVisitor, out0: seq<Item<V>>, b0: Buffer<V>, prev: Option<string>,
                          name: string, value: V, defaultNamespace: string, globals: map<string, ElementDecl>,
                          ctx: GroupContext)
    returns (out: seq<Item<V>>, b: Buffer<V>, done: bool, error: Option<VisitError>)
    requires model.Valid() && BufferOk(b0) && model.element.Some?
    modifies model
    ensures model.Valid() && BufferOk(b)
    ensures error.Some? ==> done
    ensures done && error.None? ==>
              multiset(out) + Buffered(b) == multiset(out0) + Buffered(b0) + multiset{(Tag(name), value)} && prev == Some(name)
    ensures !done ==> multiset(out) + Buffered(b) == multiset(out0) + Buffered(b0)
    ensures CDataOf(out) == CDataOf(out0)
    ensures error != Some(Ended) && error != Some(IndexError)
    ensures error.None? && b0.keys == [] && prev != Some(name) ==> b == b0 && out == out0 && !done
  {
    out, b := out0, b0;
    var found := FirstMatching(b.keys, model.element.value, defaultNamespace, globals, ctx);
    if found.Some? {
      assert b0.keys != [];
      out, b, error := TakeBuffered(model, out, b, b.keys[found.value]);
      done := error.Some?;
    } else if prev == Some(name) {
      BufferedAppend(b, name, value);
      b := Append(b, name, value);
      done, error := true, None;
    } else {
      error := AdvanceDiscarding(model, false);
      done := error.Some?;
      assert out == out0 && b == b0;
    }
  }

  /** One item of the content: character data, and any item once the visit has ended, go straight out. */
  method CollapseItem<V>(model: ModelVisitor, out0: seq<Item<V>>, b0: Buffer<V>, prev0: Option<string>, x: Item<V>,
                         defaultNamespace: string, globals: map<string, ElementDecl>, ctx: GroupContext)
    returns (out: seq<Item<V>>, b: Buffer<V>, prev: Option<string>, error: Option<VisitError>)
    requires model.Valid() && BufferOk(b0)
    modifies model
    ensures model.Valid() && BufferOk(b)
    ensures error.None? ==> multiset(out) + Buffered(b) == multiset(out0) + Buffered(b0) + multiset{x}
    ensures CDataOf(out) == CDataOf(out0) + (if x.0.CData? then [x] else [])
    ensures error != Some(Ended) && error != Some(IndexError)
    ensures x.0.CData? || old(model.element).None? ==>
              out == out0 + [x] && b == b0 && prev == prev0 && model.element == old(model.element)
    ensures error.None? && x.0.Tag? && old(model.element).Some? ==> prev == Some(x.0.name)
    ensures error.None? && b0.keys == [] && (x.0.Tag? ==> prev0 != Some(x.0.name)) ==> out == out0 + [x] && b == b0
  {
    if x.0.CData? || model.element.None? {
      out := Yield(out0, x);
      return out, b0, prev0, None;
    }
    out, b, prev, error := PlaceCollapsed(model, out0, b0, prev0, x.0.name, x.1, defaultNamespace, globals, ctx);
  }

  /** The tail of iter_collapsed_content: every buffered value, key by key. */
  method Flush<V>(out0: seq<Item<V>>, b: Buffer<V>) returns (out: seq<Item<V>>)
    ensures multiset(out) == multiset(out0) + Buffered(b)
    ensures CDataOf(out) == CDataOf(out0)
    ensures b.keys == [] ==> out == out0
  {
    out := out0;
    var i := 0;
    while i < |b.keys|
      invariant 0 <= i <= |b.keys|
      invariant multiset(out) + Held(b.keys[i..], b.vals) == multiset(out0) + Buffered(b)
      invariant CDataOf(out) == CDataOf(out0)
      invariant b.keys == [] ==> out == out0
    {
      var name := b.keys[i];
      assert b.keys[i..][1..] == b.keys[i + 1..];
      out := FlushQueue(out, name, QueueIn(b.vals, name));
      i := i + 1;
    }
  }

  /** for v in values: yield name, v. */
  method FlushQueue<V>(out0: seq<Item<V>>, name: string, vs: seq<V>) returns (out: seq<Item<V>>)
    ensures multiset(out) == multiset(out0) + Tagged(name, vs)
    ensures CDataOf(out) == CDataOf(out0)
  {
    out := out0;
    var j := 0;
    while j < |vs|
      invariant 0 <= j <= |vs|
      invariant multiset(out) + Tagged(name, vs[j..]) == multiset(out0) + Tagged(name, vs)
      invariant CDataOf(out) == CDataOf(out0)
    {
      assert vs[j..][1..] == vs[j + 1..];
      out := Yield(out, (Tag(name), vs[j]));
      j := j + 1;
    }
  }

  /** The for loop of iter_collapsed_content over the items of the content. */
  method CollapseAll<V>(model: ModelVisitor, content: seq<Item<V>>, defaultNamespace: string,
                        globals: map<string, ElementDecl>, ctx: GroupContext)
    returns (out: seq<Item<V>>, b: Buffer<V>, error: Option<VisitError>)
    requires model.Valid()
    modifies model
    ensures BufferOk(b)
    ensures error != Some(Ended) && error != Some(IndexError)
    ensures error.None? ==> multiset(out) + Buffered(b) == multiset(content) && CDataOf(out) == CDataOf(content)
    ensures error.None? && NoRepeats(content) ==> out == content && b.keys == []
  {
    var prev: Option<string> := None;
    b := Buffer([], map[]);
    out := [];
    var i := 0;
    while i < |content|
      invariant 0 <= i <= |content|
      invariant model.Valid() && BufferOk(b)
      invariant CollapsedSoFar(out, b, content, i)
      invariant NoRepeats(content) ==>
                  out == content[..i] && b.keys == [] && (model.element.Some? ==> prev == LastTagName(content[..i]))
    {
      var e;
      out, b, prev, e := CollapseNext(model, content, i, out, b, prev, defaultNamespace, globals, ctx);
      if e.Some? {
        return out, b, e;
      }
      i := i + 1;
    }
    assert content[..i] == content;
    error := None;
  }

  /** The name of the last child item of xs, character data aside. */
  function LastTagName<V>(xs: seq<Item<V>>): (r: Option<string>)
    ensures r.Some? <==> exists k :: 0 <= k < |xs| && xs[k].0.Tag?
  {
    if xs == [] then None
    else if xs[|xs| - 1].0.Tag? then Some(xs[|xs| - 1].0.name)
    else LastTagName(xs[..|xs| - 1])
  }

  /** No child item repeats the name of the child item before it, character data aside. */
  ghost predicate NoRepeats<V>(xs: seq<Item<V>>)
  {
    forall i :: 0 <= i < |xs| && xs[i].0.Tag? ==> LastTagName(xs[..i]) != Some(xs[i].0.name)
  }

  /**
   * One more item of a content without repeated names: while the buffer stays empty, the
   * items come out as they came in, and the previous name is the last one seen.
   */
  lemma InOrderStep<V>(content: seq<Item<V>>, i: nat, out: seq<Item<V>>, b: Buffer<V>, prev: Option<string>,
                       out': seq<Item<V>>, b': Buffer<V>, prev': Option<string>, on: bool, on': bool)
    requires i < |content| && NoRepeats(content)
    requires out == content[..i] && b.keys == [] && (on ==> prev == LastTagName(content[..i]))
    requires content[i].0.CData? || !on ==> out' == out + [content[i]] && b' == b && prev' == prev && on' == on
    requires content[i].0.Tag? && on ==> prev' == Some(content[i].0.name)
    requires b.keys == [] && (content[i].0.Tag? ==> prev != Some(content[i].0.name)) ==> out' == out + [content[i]] && b' == b
    ensures out' == content[..i + 1] && b'.keys == [] && (on' ==> prev' == LastTagName(content[..i + 1]))
  {
    LastTagNameStep(content, i);
  }

  lemma LastTagNameStep<V>(xs: seq<Item<V>>, i: nat)
    requires i < |xs|
    ensures LastTagName(xs[..i + 1]) == if xs[i].0.Tag? then Some(xs[i].0.name) else LastTagName(xs[..i])
    ensures xs[..i + 1] == xs[..i] + [xs[i]]
  {
    assert xs[..i + 1][..i] == xs[..i];
  }

  /** One turn of the for loop of iter_collapsed_content: the item content[i]. */
  method CollapseNext<V>(model: ModelVisitor, content: seq<Item<V>>, i: nat, out0: seq<Item<V>>, b0: Buffer<V>,
                         prev0: Option<string>, defaultNamespace: string, globals: map<string, ElementDecl>,
                         ctx: GroupContext)
    returns (out: seq<Item<V>>, b: Buffer<V>, prev: Option<string>, error: Option<VisitError>)
    requires model.Valid() && BufferOk(b0) && i < |content| && CollapsedSoFar(out0, b0, content, i)
    requires NoRepeats(content) ==>
               out0 == content[..i] && b0.keys == [] && (model.element.Some? ==> prev0 == LastTagName(content[..i]))
    modifies model
    ensures model.Valid() && BufferOk(b)
    ensures error != Some(Ended) && error != Some(IndexError)
    ensures error.None? ==> CollapsedSoFar(out, b, content, i + 1)
    ensures error.None? && NoRepeats(content) ==>
              out == content[..i + 1] && b.keys == [] && (model.element.Some? ==> prev == LastTagName(content[..i + 1]))
  {
    ghost var on := model.element.Some?;
    out, b, prev, error := CollapseItem(model, out0, b0, prev0, content[i], defaultNamespace, globals, ctx);
    if error.None? {
      CollapsedStep(out0, b0, out, b, content, i);
      if NoRepeats(content) {
        InOrderStep(content, i, out0, b0, prev0, out, b, prev, on, model.element.Some?);
      }
    }
  }

  /** The items and the buffer hold the first i items of the content, character data in order. */
  ghost predicate CollapsedSoFar<V>(out: seq<Item<V>>, b: Buffer<V>, content: seq<Item<V>>, i: nat)
  {
    i <= |content| && multiset(out) + Buffered(b) == multiset(content[..i]) && CDataOf(out) == CDataOf(content[..i])
  }

  /** One more item collapsed: the items and the buffer hold one more item of the content. */
  lemma CollapsedStep<V>(out0: seq<Item<V>>, b0: Buffer<V>, out: seq<Item<V>>, b: Buffer<V>, content: seq<Item<V>>, i: nat)
    requires CollapsedSoFar(out0, b0, content, i) && i < |content|
    requires multiset(out) + Buffered(b) == multiset(out0) + Buffered(b0) + multiset{content[i]}
    requires CDataOf(out) == CDataOf(out0) + (if content[i].0.CData? then [content[i]] else [])
    ensures CollapsedSoFar(out, b, content, i + 1)
  {
    PrefixStep(content, i);
    AppendItem(content[..i], content[i]);
  }

  /**
   * iter_collapsed_content: the items of a content in their order, except that a repetition
   * of a tag the model does not expect is held back until the model reaches an element that
   * matches it, and what is still held back comes at the end. No item is lost or added, and
   * the character data parts keep their order. An exception of the visitor ends the iteration.
   */
  method IterCollapsedContent<V>(content: seq<Item<V>>, root: Particle, defaultNamespace: string,
                                 globals: map<string, ElementDecl>) returns (out: seq<Item<V>>, error: Option<VisitError>)
    requires root.Group?
    ensures error != Some(Ended) && error != Some(IndexError)
    ensures error.None? ==> multiset(out) == multiset(content) && CDataOf(out) == CDataOf(content)
    ensures error.None? && NoRepeats(content) ==> out == content
  {
    var model := new ModelVisitor(root);
    var b;
    out, b, error := CollapseAll(model, content, defaultNamespace, globals, ContextOf(root));
    if error.None? {
      out := Flush(out, b);
    }
  }
}
