// Content models: particle trees, the determinism checks (Unique Particle
// Attribution and Element Declarations Consistent, sections 3.8.6.4 and 3.8.6.3
// of XML Schema 1.1 Part 1), the ModelVisitor automaton and the functions that
// reorder encoder content into model order.
module Models {
  import opened Wrappers
  import opened Particles
  import opened Wildcards
  import opened Elements

  datatype ModelKind = Sequence | Choice | All

  /**
   * A particle of a content model: a leaf (element or wildcard) or a model group. `gid`
   * stands for the identity of the group object.
   */
  datatype Particle =
    | Leaf(kind: LeafKind)
    | Group(gid: nat, goccurs: Occurs, model: ModelKind, items: seq<Particle>, mixed: bool)

  function IdOf(p: Particle): nat
  {
    match p
    case Group(g, _, _, _, _) => g
    case Leaf(ElementLeaf(e)) => e.id
    case Leaf(WildcardLeaf(id, _, _, _)) => id
  }

  function OccursOf(p: Particle): Occurs
  {
    match p
    case Group(_, o, _, _, _) => o
    case Leaf(ElementLeaf(e)) => e.occurs
    case Leaf(WildcardLeaf(_, o, _, _)) => o
  }

  function Size(p: Particle): nat
  {
    match p
    case Leaf(_) => 1
    case Group(_, _, _, items, _) => 1 + SizeSeq(items)
  }

  function SizeSeq(ps: seq<Particle>): nat
    decreases ps
  {
    if ps == [] then 0 else Size(ps[0]) + SizeSeq(ps[1..])
  }

  lemma {:induction false} SizeSeqAppend(a: seq<Particle>, b: seq<Particle>)
    ensures SizeSeq(a + b) == SizeSeq(a) + SizeSeq(b)
    decreases |a|
  {
    if a != [] {
      assert (a + b)[1..] == a[1..] + b;
      SizeSeqAppend(a[1..], b);
    } else {
      assert a + b == b;
    }
  }

  /** The element particles of a group, depth first; none under maxOccurs 0. */
  function IterElements(g: Particle): (r: seq<Particle>)
    ensures forall k :: 0 <= k < |r| ==> r[k].Leaf?
    ensures SizeSeq(r) <= Size(g) - 1
  {
    match g
    case Leaf(_) => []
    case Group(_, o, _, items, _) => if o.max == Some(0) then [] else LeavesOf(items)
  }

  function LeavesOf(ps: seq<Particle>): (r: seq<Particle>)
    ensures forall k :: 0 <= k < |r| ==> r[k].Leaf?
    ensures SizeSeq(r) <= SizeSeq(ps)
    decreases ps
  {
    if ps == [] then []
    else
      var tail := LeavesOf(ps[1..]);
      assert SizeSeq([ps[0]]) == Size(ps[0]) by { assert [ps[0]][1..] == []; }
      match ps[0]
      case Leaf(_) =>
        SizeSeqAppend([ps[0]], tail);
        [ps[0]] + tail
      case Group(_, _, _, items, _) =>
        SizeSeqAppend(LeavesOf(items), tail);
        LeavesOf(items) + tail
  }

  // ---- the occurrence counter ----

  /** Counter keys: a particle, or the 1-tuple (particle,) that holds its maximum count. */
  datatype Key = Item(id: nat) | Tuple(id: nat)

  type Counter = map<Key, nat>

  /** A Counter read: missing keys count zero. */
  function Get(c: Counter, k: Key): nat
  {
    if k in c then c[k] else 0
  }

  function Occ(c: Counter, p: Particle): nat { Get(c, Item(IdOf(p))) }

  function MaxOcc(c: Counter, p: Particle): nat
  {
    var a := Get(c, Item(IdOf(p)));
    var b := Get(c, Tuple(IdOf(p)));
    if a >= b then a else b
  }

  // ---- iterators over group items ----

  /**
   * An iterator over `src` at position `pos`. A filtered iterator is the generator of an
   * 'all' group: it skips, when asked for its next item, every particle already at its
   * maximum count in the counter it reads.
   */
  datatype Cursor = Cursor(filtered: bool, src: seq<Particle>, pos: nat)

  predicate Skipped(c: Cursor, occ: Counter, p: Particle)
  {
    c.filtered && IsOver(OccursOf(p), Occ(occ, p))
  }

  /** What the iterator still yields, read against the counter `occ`. */
  function Remaining(c: Cursor, occ: Counter): (r: seq<Particle>)
    ensures forall k :: 0 <= k < |r| ==> r[k] in c.src
    decreases |c.src| - c.pos
  {
    if c.pos >= |c.src| then []
    else
      var p := c.src[c.pos];
      var rest := Remaining(c.(pos := c.pos + 1), occ);
      if Skipped(c, occ, p) then rest else [p] + rest
  }

  /** next(iterator, None). */
  function Next(c: Cursor, occ: Counter): (r: (Option<Particle>, Cursor))
    ensures r.1.src == c.src && r.1.filtered == c.filtered && (c.pos <= |c.src| ==> r.1.pos <= |c.src|)
    ensures Remaining(c, occ) == [] ==> r.0.None? && Remaining(r.1, occ) == []
    ensures r.0.Some? ==> r.0.value in c.src
    ensures Remaining(c, occ) != [] ==> r.0 == Some(Remaining(c, occ)[0]) && Remaining(r.1, occ) == Remaining(c, occ)[1..]
    decreases |c.src| - c.pos
  {
    if c.pos >= |c.src| then (None, c)
    else if Skipped(c, occ, c.src[c.pos]) then Next(c.(pos := c.pos + 1), occ)
    else (Some(c.src[c.pos]), c.(pos := c.pos + 1))
  }

  /** The items of a group an iterator runs over: none under maxOccurs 0, the elements for 'all'. */
  function Source(g: Particle): seq<Particle>
  {
    match g
    case Leaf(_) => []
    case Group(_, o, model, items, _) =>
      if o.max == Some(0) then [] else if model != All then items else IterElements(g)
  }

  /** ModelVisitor.iter_group. */
  function IterGroup(g: Particle): (c: Cursor)
    ensures c.src == Source(g) && c.pos == 0
  {
    match g
    case Leaf(_) => Cursor(false, [], 0)
    case Group(_, o, model, _, _) =>
      if o.max == Some(0) then Cursor(false, [], 0)
      else if model != All then Cursor(false, Source(g), 0)
      else Cursor(true, Source(g), 0)
  }

  /** The particles of ps not yet at their maximum count. */
  function NotOver(ps: seq<Particle>, occ: Counter): (r: seq<Particle>)
    ensures forall p :: p in r <==> p in ps && !IsOver(OccursOf(p), Occ(occ, p))
  {
    if ps == [] then []
    else (if IsOver(OccursOf(ps[0]), Occ(occ, ps[0])) then [] else [ps[0]]) + NotOver(ps[1..], occ)
  }

  lemma {:induction false} RemainingPlain(c: Cursor, occ: Counter)
    requires !c.filtered && c.pos <= |c.src|
    ensures Remaining(c, occ) == c.src[c.pos..]
    decreases |c.src| - c.pos
  {
    if c.pos < |c.src| {
      RemainingPlain(c.(pos := c.pos + 1), occ);
    }
  }

  lemma {:induction false} RemainingFiltered(c: Cursor, occ: Counter)
    requires c.filtered && c.pos <= |c.src|
    ensures Remaining(c, occ) == NotOver(c.src[c.pos..], occ)
    decreases |c.src| - c.pos
  {
    if c.pos < |c.src| {
      RemainingFiltered(c.(pos := c.pos + 1), occ);
      assert c.src[c.pos..][1..] == c.src[c.pos + 1..];
    }
  }

  /**
   * iter_group yields nothing for a group with maxOccurs 0, the items of a sequence or choice,
   * and for an 'all' group just its elements that are not over their maximum.
   */
  lemma IterGroupYields(g: Particle, occ: Counter)
    requires g.Group?
    ensures g.goccurs.max == Some(0) ==> Remaining(IterGroup(g), occ) == []
    ensures g.goccurs.max != Some(0) && g.model != All ==> Remaining(IterGroup(g), occ) == g.items
    ensures g.goccurs.max != Some(0) && g.model == All ==>
              Remaining(IterGroup(g), occ) == NotOver(IterElements(g), occ)
  {
    var c := IterGroup(g);
    if c.filtered { RemainingFiltered(c, occ); } else { RemainingPlain(c, occ); }
    assert c.src[0..] == c.src;
  }

  lemma {:induction false} RemainingSize(c: Cursor, occ: Counter)
    requires c.pos <= |c.src|
    ensures SizeSeq(Remaining(c, occ)) <= SizeSeq(c.src[c.pos..])
    decreases |c.src| - c.pos
  {
    if c.pos < |c.src| {
      var c' := c.(pos := c.pos + 1);
      RemainingSize(c', occ);
      assert c.src[c.pos..] == [c.src[c.pos]] + c.src[c.pos + 1..];
      SizeSeqAppend([c.src[c.pos]], c.src[c.pos + 1..]);
      SizeSeqAppend([c.src[c.pos]], Remaining(c', occ));
    }
  }

  lemma GroupYieldsLess(g: Particle, occ: Counter)
    requires g.Group?
    ensures SizeSeq(Remaining(IterGroup(g), occ)) < Size(g)
  {
    RemainingSize(IterGroup(g), occ);
    assert Source(g)[0..] == Source(g);
  }

  // ---- the first element of a model ----

  /**
   * The first leaf met when the particles ps are visited in order, descending into every
   * non-empty group through its iterator.
   */
  function FirstLeafOf(ps: seq<Particle>, occ: Counter): (r: Option<Particle>)
    ensures r.Some? ==> r.value.Leaf?
    decreases SizeSeq(ps)
  {
    if ps == [] then None
    else
      match ps[0]
      case Leaf(_) => Some(ps[0])
      case Group(_, _, _, items, _) =>
        assert ps == [ps[0]] + ps[1..];
        SizeSeqAppend([ps[0]], ps[1..]);
        assert SizeSeq([ps[0]]) == Size(ps[0]) by { assert [ps[0]][1..] == []; }
        if items == [] then FirstLeafOf(ps[1..], occ)
        else
          var inner := Remaining(IterGroup(ps[0]), occ);
          GroupYieldsLess(ps[0], occ);
          SizeSeqAppend(inner, ps[1..]);
          FirstLeafOf(inner + ps[1..], occ)
  }

  /** The first element of a model rooted at group g, with an empty counter. */
  function FirstLeaf(g: Particle): Option<Particle>
    requires g.Group?
  {
    FirstLeafOf(Remaining(IterGroup(g), map[]), map[])
  }

  /** Visiting a non-empty group first visits what its iterator yields, and that is smaller. */
  lemma FirstLeafOfGroup(g: Particle, rest: seq<Particle>, occ: Counter)
    requires g.Group? && g.items != []
    ensures FirstLeafOf([g] + rest, occ) == FirstLeafOf(Remaining(IterGroup(g), occ) + rest, occ)
    ensures SizeSeq(Remaining(IterGroup(g), occ) + rest) < SizeSeq([g] + rest)
  {
    assert ([g] + rest)[0] == g && ([g] + rest)[1..] == rest;
    SizeSeqAppend([g], rest);
    assert SizeSeq([g]) == Size(g) by { assert [g][1..] == []; }
    GroupYieldsLess(g, occ);
    SizeSeqAppend(Remaining(IterGroup(g), occ), rest);
  }

  /** A leaf met first is the first leaf. */
  lemma FirstLeafOfLeaf(p: Particle, rest: seq<Particle>, occ: Counter)
    requires p.Leaf?
    ensures FirstLeafOf([p] + rest, occ) == Some(p)
  {
    assert ([p] + rest)[0] == p;
  }

  /** An empty group is passed over. */
  lemma FirstLeafOfEmpty(g: Particle, rest: seq<Particle>, occ: Counter)
    requires g.Group? && g.items == []
    ensures FirstLeafOf([g] + rest, occ) == FirstLeafOf(rest, occ)
    ensures SizeSeq(rest) < SizeSeq([g] + rest)
  {
    assert ([g] + rest)[0] == g && ([g] + rest)[1..] == rest;
  }

  lemma PendingStackPush(stack: seq<Frame>, f: Frame, occ: Counter)
    ensures (stack + [f])[..|stack|] == stack
    ensures PendingStack(stack + [f], occ) == Remaining(f.items, occ) + PendingStack(stack, occ)
  {
    assert (stack + [f])[..|stack|] == stack;
  }

  // ---- the visitor ----

  /** Taking the next item of an iterator splits what it still yields ahead of ps into that item and the rest. */
  lemma NextPending(c: Cursor, occ: Counter, ps: seq<Particle>)
    requires c.pos <= |c.src|
    ensures Next(c, occ).0.None? ==> Remaining(c, occ) + ps == ps && Remaining(Next(c, occ).1, occ) + ps == ps
    ensures Next(c, occ).0.Some? ==>
              Remaining(c, occ) + ps == [Next(c, occ).0.value] + (Remaining(Next(c, occ).1, occ) + ps)
  {
    var rest := Remaining(c, occ);
    if rest != [] {
      assert rest == [rest[0]] + rest[1..];
    }
  }

  datatype Frame = Frame(group: Particle, items: Cursor, matched: bool)

  /** What the iterators of the current group and of the stacked groups still yield, innermost first. */
  function PendingStack(stack: seq<Frame>, occ: Counter): seq<Particle>
    decreases |stack|
  {
    if stack == [] then []
    else Remaining(stack[|stack| - 1].items, occ) + PendingStack(stack[..|stack| - 1], occ)
  }

  /** A particle is an item of a group's own iterator source. */
  predicate ChildOf(p: Particle, g: Particle)
  {
    g.Group? && p in Source(g)
  }

  /** An iterator over a group's own source, not past its end. */
  predicate CursorOk(g: Particle, c: Cursor)
  {
    g.Group? && c.src == Source(g) && c.pos <= |c.src|
  }

  /** The stacked frames lead from root down to the group top, each one a child of the one below. */
  predicate StackPath(root: Particle, stack: seq<Frame>, top: Particle)
    decreases |stack|
  {
    if stack == [] then top == root
    else
      var f := stack[|stack| - 1];
      CursorOk(f.group, f.items) && ChildOf(top, f.group) && StackPath(root, stack[..|stack| - 1], f.group)
  }

  /** The leaves of the model rooted at root, depth first. */
  function ModelLeaves(root: Particle): (r: seq<Particle>)
    ensures forall k :: 0 <= k < |r| ==> r[k].Leaf?
  {
    LeavesOf([root])
  }

  lemma LeavesOfHead(ps: seq<Particle>)
    requires ps != []
    ensures LeavesOf(ps) == LeavesOf([ps[0]]) + LeavesOf(ps[1..])
  {
    assert [ps[0]][1..] == [];
  }

  /** The leaves under a member of ps are leaves of ps. */
  lemma {:induction false} LeavesOfMember(ps: seq<Particle>, p: Particle)
    requires p in ps
    ensures forall x :: x in LeavesOf([p]) ==> x in LeavesOf(ps)
    decreases |ps|
  {
    LeavesOfHead(ps);
    if ps[0] != p {
      LeavesOfMember(ps[1..], p);
    }
  }

  /** What a group's iterator yields holds no leaf from outside the group. */
  lemma ChildLeaves(p: Particle, g: Particle)
    requires ChildOf(p, g)
    ensures forall x :: x in LeavesOf([p]) ==> x in LeavesOf([g])
  {
    LeavesOfHead([g]);
    assert LeavesOf([g]) == LeavesOf(g.items);
    if g.model == All {
      assert p in LeavesOf(g.items) && p.Leaf?;
      LeavesOfHead([p]);
    } else {
      LeavesOfMember(g.items, p);
    }
  }

  /** Every leaf under the group a stack path leads to is a leaf of the model. */
  lemma {:induction false} StackPathLeaves(root: Particle, stack: seq<Frame>, top: Particle)
    requires StackPath(root, stack, top)
    ensures forall x :: x in LeavesOf([top]) ==> x in ModelLeaves(root)
    decreases |stack|
  {
    if stack != [] {
      var f := stack[|stack| - 1];
      ChildLeaves(top, f.group);
      StackPathLeaves(root, stack[..|stack| - 1], f.group);
    }
  }

  /** An element the current group's iterator yields is a leaf of the model. */
  lemma YieldedLeaf(root: Particle, stack: seq<Frame>, group: Particle, p: Particle)
    requires StackPath(root, stack, group) && group.Group? && p in Source(group) && p.Leaf?
    ensures p in ModelLeaves(root)
  {
    ChildLeaves(p, group);
    LeavesOfHead([p]);
    StackPathLeaves(root, stack, group);
  }

  // ---- distinguishable paths ----

  /** The exceptions distinguishable_paths can raise on paths that do not follow the model. */
  datatype PathError = PathIndexError | PathValueError | PathAttributeError

  /** list.index: the first position of x in xs. */
  function IndexOf(xs: seq<Particle>, x: Particle): (r: Option<nat>)
    ensures r.Some? ==> r.value < |xs| && xs[r.value] == x && x !in xs[..r.value]
    ensures r.None? ==> x !in xs
  {
    if xs == [] then None
    else if xs[0] == x then Some(0)
    else match IndexOf(xs[1..], x)
      case None => None
      case Some(k) => assert xs[..k + 1] == [xs[0]] + xs[1..][..k]; Some(k + 1)
  }

  /** Python's xs[a:b] for non-negative bounds. */
  function PySlice(xs: seq<Particle>, a: nat, b: nat): (r: seq<Particle>)
    ensures forall x :: x in r ==> x in xs
  {
    if a >= b || a >= |xs| then [] else xs[a..if b <= |xs| then b else |xs|]
  }

  /** Some particle of xs is not emptiable. */
  predicate AnyRequired(xs: seq<Particle>)
  {
    exists k :: 0 <= k < |xs| && !IsEmptiable(OccursOf(xs[k]))
  }

  /** Some particle of xs other than x is emptiable. */
  predicate AnyOtherEmptiable(xs: seq<Particle>, x: Particle)
  {
    exists k :: 0 <= k < |xs| && xs[k] != x && IsEmptiable(OccursOf(xs[k]))
  }

  /** The first position of path1 holding a particle that is not in path2. */
  function FirstAbsent(path1: seq<Particle>, path2: seq<Particle>): (r: Option<nat>)
    ensures r.Some? ==> (r.value < |path1| && path1[r.value] !in path2
                         && forall j :: 0 <= j < r.value ==> path1[j] in path2)
    ensures r.None? ==> forall j :: 0 <= j < |path1| ==> path1[j] in path2
  {
    if path1 == [] then None
    else if path1[0] !in path2 then Some(0)
    else match FirstAbsent(path1[1..], path2)
      case None => None
      case Some(k) => Some(k + 1)
  }

  lemma {:induction false} FirstAbsentAt(path1: seq<Particle>, path2: seq<Particle>, k: nat)
    requires k < |path1| && path1[k] !in path2 && forall j :: 0 <= j < k ==> path1[j] in path2
    ensures FirstAbsent(path1, path2) == Some(k)
  {
    if k > 0 {
      FirstAbsentAt(path1[1..], path2, k - 1);
    }
  }

  /**
   * What a path tells below the depth where two paths part: whether every group on it
   * repeats a fixed number of times with no optional alternative (univocal), and whether a
   * sequence on it has a required particle before (before) or after (after) the way down.
   */
  datatype Flags = Flags(univocal: bool, before: bool, after: bool)

  /** One turn of the loops over the groups of a path below depth, at position k. */
  function PathStep(path: seq<Particle>, k: nat, f: Flags): (r: Result<Flags, PathError>)
    requires k + 1 < |path|
    ensures r.Ok? ==> (f.before ==> r.value.before) && (f.after ==> r.value.after)
  {
    var p := path[k];
    match p
    case Leaf(_) => Err(PathAttributeError)
    case Group(_, o, model, items, _) =>
      match IndexOf(items, path[k + 1])
      case None => Err(PathValueError)
      case Some(idx) =>
        var u := f.univocal && IsUnivocal(o);
        if model == Sequence then
          Ok(Flags(u, f.before || AnyRequired(items[..idx]), f.after || AnyRequired(items[idx + 1..])))
        else if AnyOtherEmptiable(items, items[idx]) then Ok(Flags(false, f.before, f.after))
        else Ok(Flags(u, f.before, f.after))
  }

  /** The flags of path from position k on, starting from f. */
  function PathFlags(path: seq<Particle>, k: nat, f: Flags): (r: Result<Flags, PathError>)
    ensures r.Ok? ==> (f.before ==> r.value.before) && (f.after ==> r.value.after)
    ensures k + 1 >= |path| ==> r == Ok(f)
    decreases |path| - k
  {
    if k + 1 >= |path| then Ok(f)
    else
      match PathStep(path, k, f)
      case Err(e) => Err(e)
      case Ok(f') => PathFlags(path, k + 1, f')
  }

  /** The flags the parting group at depth gives each path before the loops. */
  function DepthFlags(path1: seq<Particle>, path2: seq<Particle>, depth: nat): (r: Result<(Flags, Flags), PathError>)
    requires depth < |path1| && path1[depth].Group?
  {
    var d := path1[depth];
    if d.model != Sequence then Ok((Flags(true, false, false), Flags(true, false, false)))
    else if depth + 1 >= |path1| then Err(PathIndexError)
    else match IndexOf(d.items, path1[depth + 1])
      case None => Err(PathValueError)
      case Some(idx1) =>
        if depth >= |path2| then Err(PathIndexError)
        else if path2[depth].Leaf? then Err(PathAttributeError)
        else if depth + 1 >= |path2| then Err(PathIndexError)
        else match IndexOf(path2[depth].items, path2[depth + 1])
          case None => Err(PathValueError)
          case Some(idx2) =>
            var before1 := AnyRequired(d.items[..idx1]);
            var between := AnyRequired(PySlice(d.items, idx1 + 1, idx2));
            var after2 := AnyRequired(PySlice(d.items, idx2 + 1, |d.items|));
            Ok((Flags(true, before1, between), Flags(true, between, after2)))
  }

  /** The final decision of distinguishable_paths from the flags of both paths. */
  function Decide(path1: seq<Particle>, path2: seq<Particle>, depth: nat, f1: Flags, f2: Flags): (r: Result<bool, PathError>)
    requires depth < |path1| && path1[depth].Group? && path2 != []
  {
    var d := path1[depth];
    var last1 := IsUnivocal(OccursOf(path1[|path1| - 1]));
    var last2 := IsUnivocal(OccursOf(path2[|path2| - 1]));
    if d.model != Sequence then
      if f1.before && f2.before then Ok(true)
      else if f1.before then Ok((f1.univocal && last1) || f1.after || d.goccurs.max == Some(1))
      else if f2.before then
        if (f2.univocal && last2) || f2.after then Ok(true)
        else if depth >= |path2| then Err(PathIndexError)
        else Ok(OccursOf(path2[depth]).max == Some(1))
      else Ok(false)
    else if d.goccurs.max == Some(1) then
      Ok(f2.before || ((f1.before || f1.univocal) && (last1 || f1.after)))
    else
      Ok((f2.before || ((f1.before || f1.univocal) && (last1 || f1.after)))
         && (f1.before || ((f2.before || f2.univocal) && (last2 || f2.after))))
  }

  /**
   * distinguishable_paths: whether the leaves ending two paths of a model can always be told
   * apart without looking ahead. An empty first path is an IndexError; paths that part at
   * their first particle, or below a group that never occurs, are distinguishable.
   */
  function Distinguishable(path1: seq<Particle>, path2: seq<Particle>): (r: Result<bool, PathError>)
    ensures path1 == [] ==> r == Err(PathIndexError)
    ensures path1 != [] && path1[0] !in path2 ==> r == Ok(true)
    ensures var fa := FirstAbsent(path1, path2);
            fa.Some? && fa.value >= 1 && OccursOf(path1[fa.value - 1]).max == Some(0) ==> r == Ok(true)
  {
    var fa := FirstAbsent(path1, path2);
    if fa == Some(0) then Ok(true)
    else
      var depth := if fa.Some? then fa.value - 1 else 0;
      if depth >= |path1| then Err(PathIndexError)
      else if OccursOf(path1[depth]).max == Some(0) then Ok(true)
      else if path1[depth].Leaf? then Err(PathAttributeError)
      else
        match DepthFlags(path1, path2, depth)
        case Err(e) => Err(e)
        case Ok((i1, i2)) =>
          match PathFlags(path1, depth + 1, i1)
          case Err(e) => Err(e)
          case Ok(f1) =>
            match PathFlags(path2, depth + 1, i2)
            case Err(e) => Err(e)
            case Ok(f2) => Decide(path1, path2, depth, f1, f2)
  }

  /** distinguishable_paths, with its loops: the search for the parting depth and one pass per path. */
  method DistinguishablePaths(path1: seq<Particle>, path2: seq<Particle>) returns (r: Result<bool, PathError>)
    ensures r == Distinguishable(path1, path2)
  {
    var fa := FindAbsent(path1, path2);
    if fa == Some(0) {
      return Ok(true);
    }
    var depth := if fa.Some? then fa.value - 1 else 0;
    if depth >= |path1| {
      return Err(PathIndexError);
    }
    if OccursOf(path1[depth]).max == Some(0) {
      return Ok(true);
    }
    if path1[depth].Leaf? {
      return Err(PathAttributeError);
    }
    var init := DepthFlags(path1, path2, depth);
    if init.Err? {
      return Err(init.error);
    }
    var f1 := PassFlags(path1, depth + 1, init.value.0);
    if f1.Err? {
      return Err(f1.error);
    }
    var f2 := PassFlags(path2, depth + 1, init.value.1);
    if f2.Err? {
      return Err(f2.error);
    }
    r := Decide(path1, path2, depth, f1.value, f2.value);
  }

  /** The loop of distinguishable_paths looking for the first particle of path1 missing from path2. */
  method FindAbsent(path1: seq<Particle>, path2: seq<Particle>) returns (fa: Option<nat>)
    ensures fa == FirstAbsent(path1, path2)
  {
    var k := 0;
    while k < |path1|
      invariant 0 <= k <= |path1|
      invariant forall j :: 0 <= j < k ==> path1[j] in path2
    {
      if path1[k] !in path2 {
        FirstAbsentAt(path1, path2, k);
        return Some(k);
      }
      k := k + 1;
    }
    return None;
  }

  /** One of the two loops over the groups of a path below the parting depth. */
  method PassFlags(path: seq<Particle>, start: nat, init: Flags) returns (r: Result<Flags, PathError>)
    ensures r == PathFlags(path, start, init)
  {
    var f := init;
    var k := start;
    while k + 1 < |path|
      invariant start <= k
      invariant PathFlags(path, k, f) == PathFlags(path, start, init)
      decreases |path| - k
    {
      var step := PathStep(path, k, f);
      if step.Err? {
        return Err(step.error);
      }
      f := step.value;
      k := k + 1;
    }
    return Ok(f);
  }

  /** A path of a model: groups each holding the next particle, down to a leaf. */
  predicate WfPath(path: seq<Particle>)
  {
    path != [] && path[|path| - 1].Leaf?
    && forall k :: 0 <= k < |path| - 1 ==> path[k].Group? && path[k + 1] in path[k].items
  }

  /** Paths of equal length that part at their last position: the decision is taken from the parting group alone. */
  lemma DistinguishableAtLast(path1: seq<Particle>, path2: seq<Particle>, k: nat)
    requires k >= 1 && |path1| == k + 1 && |path2| == k + 1 && FirstAbsent(path1, path2) == Some(k)
    requires path1[k - 1].Group? && path1[k - 1].goccurs.max != Some(0)
    ensures DepthFlags(path1, path2, k - 1).Ok? ==>
              var fs := DepthFlags(path1, path2, k - 1).value;
              Distinguishable(path1, path2) == Decide(path1, path2, k - 1, fs.0, fs.1)
    ensures DepthFlags(path1, path2, k - 1).Err? ==> Distinguishable(path1, path2) == Err(DepthFlags(path1, path2, k - 1).error)
  {
    if DepthFlags(path1, path2, k - 1).Ok? {
      var fs := DepthFlags(path1, path2, k - 1).value;
      assert PathFlags(path1, k, fs.0) == Ok(fs.0);
      assert PathFlags(path2, k, fs.1) == Ok(fs.1);
    }
  }

  /** Paths of a model sharing all but their last particle part at their last position. */
  lemma PartAtLast(path1: seq<Particle>, path2: seq<Particle>, k: nat)
    requires WfPath(path1) && WfPath(path2) && k >= 1 && |path1| == k + 1 && |path2| == k + 1
    requires path1[..k] == path2[..k] && path1[k] != path2[k]
    ensures FirstAbsent(path1, path2) == Some(k) && path2[k - 1] == path1[k - 1]
  {
    forall j | 0 <= j < k ensures path1[j] in path2 {
      assert path1[j] == path1[..k][j] == path2[..k][j] == path2[j];
    }
    assert path1[k] !in path2 by {
      forall j | 0 <= j < k + 1 ensures path2[j] != path1[k] {
        if j < k {
          assert path2[j] == path2[..k][j] == path1[..k][j] == path1[j];
        }
      }
    }
    FirstAbsentAt(path1, path2, k);
    assert path2[k - 1] == path2[..k][k - 1];
  }

  /**
   * Two different leaves directly inside the same group of a model (reached through the same
   * path). In a choice or an all group they are not distinguishable; in a sequence that
   * occurs at most once, the earlier one is told apart from the later one exactly when a
   * required particle lies between them or the earlier one occurs a fixed number of times.
   */
  lemma SiblingLeaves(path1: seq<Particle>, path2: seq<Particle>, k: nat)
    requires WfPath(path1) && WfPath(path2) && k >= 1 && |path1| == k + 1 && |path2| == k + 1
    requires path1[..k] == path2[..k] && path1[k] != path2[k]
    requires path1[k - 1].goccurs.max != Some(0)
    ensures path1[k - 1].model != Sequence ==> Distinguishable(path1, path2) == Ok(false)
    ensures var d := path1[k - 1];
            var idx1 := IndexOf(d.items, path1[k]);
            var idx2 := IndexOf(d.items, path2[k]);
            d.model == Sequence && d.goccurs.max == Some(1) && idx1.Some? && idx2.Some? && idx1.value < idx2.value ==>
              Distinguishable(path1, path2)
                == Ok(AnyRequired(d.items[idx1.value + 1..idx2.value]) || IsUnivocal(OccursOf(path1[k])))
  {
    var d := path1[k - 1];
    if d.model == Sequence {
      SiblingsInSequence(path1, path2, k);
    } else {
      PartAtLast(path1, path2, k);
      DistinguishableAtLast(path1, path2, k);
      assert DepthFlags(path1, path2, k - 1) == Ok((Flags(true, false, false), Flags(true, false, false)));
    }
  }

  /** The sequence case of SiblingLeaves: the flags of the two positions around what lies between. */
  lemma SiblingsInSequence(path1: seq<Particle>, path2: seq<Particle>, k: nat)
    requires WfPath(path1) && WfPath(path2) && k >= 1 && |path1| == k + 1 && |path2| == k + 1
    requires path1[..k] == path2[..k] && path1[k] != path2[k]
    requires path1[k - 1].goccurs.max != Some(0) && path1[k - 1].model == Sequence
    ensures var d := path1[k - 1];
            var idx1 := IndexOf(d.items, path1[k]);
            var idx2 := IndexOf(d.items, path2[k]);
            d.goccurs.max == Some(1) && idx1.Some? && idx2.Some? && idx1.value < idx2.value ==>
              Distinguishable(path1, path2)
                == Ok(AnyRequired(d.items[idx1.value + 1..idx2.value]) || IsUnivocal(OccursOf(path1[k])))
  {
    PartAtLast(path1, path2, k);
    DistinguishableAtLast(path1, path2, k);
    var d := path1[k - 1];
    var idx1 := IndexOf(d.items, path1[k]);
    var idx2 := IndexOf(d.items, path2[k]);
    assert idx1.Some? && idx2.Some?;
    var between := AnyRequired(PySlice(d.items, idx1.value + 1, idx2.value));
    assert DepthFlags(path1, path2, k - 1)
      == Ok((Flags(true, AnyRequired(d.items[..idx1.value]), between),
             Flags(true, between, AnyRequired(PySlice(d.items, idx2.value + 1, |d.items|)))));
    if idx1.value < idx2.value {
      assert PySlice(d.items, idx1.value + 1, idx2.value) == d.items[idx1.value + 1..idx2.value];
    }
  }

  // ---- check_model ----

  /** How check_model fails: the model is nested too deep, or a constraint is violated. */
  datatype ModelError =
    | DepthError
    | EdcViolation(e: Particle, pe: Particle)
    | SameGroupOverlap(pe: Particle, e: Particle)
    | UpaViolation(pe: Particle, e: Particle)
    | PathFailure(reason: PathError)

  /** A precedence check_model gives an XSD 1.1 wildcard over an element, within a group. */
  datatype Precedence = Precedence(wildcard: nat, groupId: nat, other: ElementDecl)

  /** A value of check_model's paths dictionary: a leaf seen and the path of groups to it. */
  datatype PathEntry = PathEntry(name: Option<string>, particle: Particle, path: seq<Particle>)

  /** The dictionary key of a leaf: an element's name; every wildcard has the key None. */
  function LeafName(p: Particle): Option<string>
  {
    match p
    case Leaf(ElementLeaf(e)) => Some(e.name)
    case _ => None
  }

  predicate IsWildcardLeaf(p: Particle) { p.Leaf? && p.kind.WildcardLeaf? }

  predicate IsXsd11Wildcard(p: Particle) { IsWildcardLeaf(p) && p.kind.w.xsd11 }

  /** XsdAnyElement.is_consistent (always) and Xsd11AnyElement.is_consistent with a leaf. */
  predicate WildcardConsistent(w: Wildcard, other: Particle, globals: map<string, ElementDecl>)
  {
    match other
    case Leaf(ElementLeaf(x)) => !w.xsd11 || ElementWildcardConsistent11(x, w, globals)
    case _ => true
  }

  /** a.is_consistent(b) between two leaves (the Element Declarations Consistent check). */
  predicate LeafConsistent(a: Particle, b: Particle, globals: map<string, ElementDecl>)
  {
    match a
    case Leaf(ElementLeaf(x)) =>
      (match b
       case Leaf(ElementLeaf(y)) => if x.xsd11 then ElementsConsistent11Fixed(x, y, true) else ElementsConsistent10(x, y)
       case Leaf(WildcardLeaf(_, _, w, _)) => !x.xsd11 || ElementWildcardConsistent11(x, w, globals)
       case Group(_, _, _, _, _) => true)
    case Leaf(WildcardLeaf(_, _, w, _)) => WildcardConsistent(w, b, globals)
    case Group(_, _, _, _, _) => true
  }

  /** An ambiguity an XSD 1.1 wildcard may resolve by precedence; otherwise error err. */
  function PrecedenceOr(pe: Particle, e: Particle, groupId: nat, err: ModelError): (r: Result<seq<Precedence>, ModelError>)
    requires pe.Leaf? && e.Leaf?
    ensures r.Err? <==> !(IsXsd11Wildcard(pe) && !IsWildcardLeaf(e)) && !(IsXsd11Wildcard(e) && !IsWildcardLeaf(pe))
    ensures r.Err? ==> r.error == err
    ensures r.Ok? ==> (|r.value| == 1 && r.value[0].groupId == groupId
                       && ((IsXsd11Wildcard(pe) && r.value[0].wildcard == pe.kind.wid && e == Leaf(ElementLeaf(r.value[0].other)))
                           || (IsXsd11Wildcard(e) && r.value[0].wildcard == e.kind.wid && pe == Leaf(ElementLeaf(r.value[0].other)))))
  {
    if IsXsd11Wildcard(pe) && !IsWildcardLeaf(e) then Ok([Precedence(pe.kind.wid, groupId, e.kind.e)])
    else if IsXsd11Wildcard(e) && !IsWildcardLeaf(pe) then Ok([Precedence(e.kind.wid, groupId, pe.kind.e)])
    else Err(err)
  }

  /** One of two overlapping leaves is an XSD 1.1 wildcard and the other an element. */
  predicate PrecedenceApplies(pe: Particle, e: Particle)
  {
    (IsXsd11Wildcard(pe) && !IsWildcardLeaf(e)) || (IsXsd11Wildcard(e) && !IsWildcardLeaf(pe))
  }

  /** add_precedence: the precedence of that wildcard over that element, within the group. */
  function PrecedenceFor(pe: Particle, e: Particle, groupId: nat): Precedence
    requires pe.Leaf? && e.Leaf? && PrecedenceApplies(pe, e)
  {
    if IsXsd11Wildcard(pe) && !IsWildcardLeaf(e) then Precedence(pe.kind.wid, groupId, e.kind.e)
    else Precedence(e.kind.wid, groupId, pe.kind.e)
  }

  /**
   * The distinguishable_paths step of the Unique Particle Attribution check, after the
   * precedences acc already found for the pair: distinguishable paths pass, others add a
   * precedence when a wildcard may resolve them and are the UPA error otherwise.
   */
  function UpaCheck(e: Particle, ePath: seq<Particle>, pe: Particle, pePath: seq<Particle>, groupId: nat,
                    acc: seq<Precedence>): (r: Result<seq<Precedence>, ModelError>)
    requires e.Leaf? && pe.Leaf?
    ensures r.Ok? ==> r.value == acc
                      || (PrecedenceApplies(pe, e) && r.value == acc + [PrecedenceFor(pe, e, groupId)]
                          && Distinguishable(pePath + [pe], ePath + [e]) == Ok(false))
    ensures r.Err? ==> (r.error == UpaViolation(pe, e) && !PrecedenceApplies(pe, e)
                        && Distinguishable(pePath + [pe], ePath + [e]) == Ok(false))
                       || (r.error.PathFailure? && Distinguishable(pePath + [pe], ePath + [e]) == Err(r.error.reason))
  {
    match Distinguishable(pePath + [pe], ePath + [e])
    case Err(x) => Err(PathFailure(x))
    case Ok(true) => Ok(acc)
    case Ok(false) => Prefixed(acc, PrecedenceOr(pe, e, groupId, UpaViolation(pe, e)))
  }

  /**
   * The checks of check_model between the leaf e reached by ePath and the leaf pe seen earlier
   * by pePath: Element Declarations Consistent first (also against the open content wildcard),
   * then Unique Particle Attribution for overlapping distinct leaves. Siblings of a choice or
   * all group either give the wildcard its precedence, and then go on to the path test, or
   * are the same-group error.
   */
  function PairCheck(e: Particle, ePath: seq<Particle>, pe: Particle, pePath: seq<Particle>, groupId: nat,
                     anyElement: Option<Wildcard>, globals: map<string, ElementDecl>): (r: Result<seq<Precedence>, ModelError>)
    requires e.Leaf? && pe.Leaf? && ePath != [] && pePath != []
    ensures r == Err(EdcViolation(e, pe)) <==>
              !LeafConsistent(e, pe, globals) || (anyElement.Some? && !WildcardConsistent(anyElement.value, pe, globals))
    ensures pe == e || !LeafOverlap(pe.kind, e.kind, globals) ==> r.Err? ==> r.error.EdcViolation?
    ensures r.Ok? && r.value != [] ==>
              LeafOverlap(pe.kind, e.kind, globals) && pe != e && PrecedenceApplies(pe, e)
              && (r.value == [PrecedenceFor(pe, e, groupId)] || r.value == [PrecedenceFor(pe, e, groupId), PrecedenceFor(pe, e, groupId)])
    ensures r.Err? && r.error.SameGroupOverlap? ==>
              pePath[|pePath| - 1] == ePath[|ePath| - 1] && ePath[|ePath| - 1].Group? && ePath[|ePath| - 1].model != Sequence
    ensures r.Err? && r.error.UpaViolation? ==>
              LeafOverlap(pe.kind, e.kind, globals) && Distinguishable(pePath + [pe], ePath + [e]) == Ok(false)
    ensures r.Err? && r.error.PathFailure? ==> Distinguishable(pePath + [pe], ePath + [e]) == Err(r.error.reason)
    ensures r.Err? ==> !r.error.DepthError?
  {
    if !LeafConsistent(e, pe, globals) || (anyElement.Some? && !WildcardConsistent(anyElement.value, pe, globals)) then
      Err(EdcViolation(e, pe))
    else if pe == e || !LeafOverlap(pe.kind, e.kind, globals) then Ok([])
    else
      var parent := ePath[|ePath| - 1];
      var sameParent := pePath[|pePath| - 1] == parent;
      if sameParent && parent.Group? && parent.model != Sequence then
        match PrecedenceOr(pe, e, groupId, SameGroupOverlap(pe, e))
        case Err(x) => Err(x)
        case Ok(p) => UpaCheck(e, ePath, pe, pePath, groupId, p)
      else if sameParent && IsUnivocal(OccursOf(pe)) then Ok([])
      else UpaCheck(e, ePath, pe, pePath, groupId, [])
  }

  /**
   * The converse: consistent, distinct, overlapping leaves that no wildcard precedence can
   * resolve are the same-group error as siblings of a choice or all group, and otherwise,
   * unless they are siblings in a sequence and the earlier one is univocal, the Unique
   * Particle Attribution error exactly when their paths are not distinguishable.
   */
  lemma PairCheckReports(e: Particle, ePath: seq<Particle>, pe: Particle, pePath: seq<Particle>, groupId: nat,
                         anyElement: Option<Wildcard>, globals: map<string, ElementDecl>)
    requires e.Leaf? && pe.Leaf? && ePath != [] && pePath != []
    requires LeafConsistent(e, pe, globals) && !(anyElement.Some? && !WildcardConsistent(anyElement.value, pe, globals))
    requires pe != e && LeafOverlap(pe.kind, e.kind, globals) && !PrecedenceApplies(pe, e)
    ensures var parent := ePath[|ePath| - 1];
            var sameParent := pePath[|pePath| - 1] == parent;
            var r := PairCheck(e, ePath, pe, pePath, groupId, anyElement, globals);
            (sameParent && parent.Group? && parent.model != Sequence ==> r == Err(SameGroupOverlap(pe, e)))
            && (!(sameParent && parent.Group? && parent.model != Sequence) && !(sameParent && IsUnivocal(OccursOf(pe))) ==>
                  (r == Err(UpaViolation(pe, e)) <==> Distinguishable(pePath + [pe], ePath + [e]) == Ok(false))
                  && (r == Ok([]) <==> Distinguishable(pePath + [pe], ePath + [e]) == Ok(true)))
  {
  }

  /** A pair an XSD 1.1 wildcard resolves is never an error of the Unique Particle Attribution check. */
  lemma PrecedenceResolves(e: Particle, ePath: seq<Particle>, pe: Particle, pePath: seq<Particle>, groupId: nat,
                           anyElement: Option<Wildcard>, globals: map<string, ElementDecl>)
    requires e.Leaf? && pe.Leaf? && ePath != [] && pePath != []
    requires LeafConsistent(e, pe, globals) && !(anyElement.Some? && !WildcardConsistent(anyElement.value, pe, globals))
    requires PrecedenceApplies(pe, e)
    ensures var r := PairCheck(e, ePath, pe, pePath, groupId, anyElement, globals);
            r.Ok? || r.error.PathFailure?
  {
  }

  predicate EntriesOk(paths: seq<PathEntry>)
  {
    forall i :: 0 <= i < |paths| ==> paths[i].particle.Leaf? && paths[i].path != []
  }

  /**
   * The checks of the leaf e against the entries of paths from index k on, in order, stopping
   * at the first error and joining the precedences found.
   */
  function PairChecks(e: Particle, ePath: seq<Particle>, paths: seq<PathEntry>, k: nat, groupId: nat,
                      anyElement: Option<Wildcard>, globals: map<string, ElementDecl>): Result<seq<Precedence>, ModelError>
    requires e.Leaf? && ePath != [] && EntriesOk(paths) && k <= |paths|
    decreases |paths| - k
  {
    if k == |paths| then Ok([])
    else
      match PairCheck(e, ePath, paths[k].particle, paths[k].path, groupId, anyElement, globals)
      case Err(x) => Err(x)
      case Ok(p) => Prefixed(p, PairChecks(e, ePath, paths, k + 1, groupId, anyElement, globals))
  }

  /** The precedences acc put ahead of the ones of a successful result. */
  function Prefixed(acc: seq<Precedence>, r: Result<seq<Precedence>, ModelError>): Result<seq<Precedence>, ModelError>
  {
    match r
    case Err(x) => Err(x)
    case Ok(q) => Ok(acc + q)
  }

  lemma PrefixedEmpty(r: Result<seq<Precedence>, ModelError>)
    ensures Prefixed([], r) == r
  {
    if r.Ok? {
      assert [] + r.value == r.value;
    }
  }

  /** The checks from i after acc: the error of pair i, or acc and its precedences ahead of the checks from i + 1. */
  lemma PairChecksStep(e: Particle, ePath: seq<Particle>, paths: seq<PathEntry>, i: nat, groupId: nat,
                       anyElement: Option<Wildcard>, globals: map<string, ElementDecl>, acc: seq<Precedence>)
    requires e.Leaf? && ePath != [] && EntriesOk(paths) && i < |paths|
    ensures var c := PairCheck(e, ePath, paths[i].particle, paths[i].path, groupId, anyElement, globals);
            Prefixed(acc, PairChecks(e, ePath, paths, i, groupId, anyElement, globals))
            == if c.Err? then Err(c.error) else Prefixed(acc + c.value, PairChecks(e, ePath, paths, i + 1, groupId, anyElement, globals))
  {
    var c := PairCheck(e, ePath, paths[i].particle, paths[i].path, groupId, anyElement, globals);
    if c.Ok? {
      PrefixedTwice(acc, c.value, PairChecks(e, ePath, paths, i + 1, groupId, anyElement, globals));
    }
  }

  lemma PrefixedTwice(a: seq<Precedence>, b: seq<Precedence>, r: Result<seq<Precedence>, ModelError>)
    ensures Prefixed(a, Prefixed(b, r)) == Prefixed(a + b, r)
  {
    if r.Ok? {
      assert a + (b + r.value) == (a + b) + r.value;
    }
  }

  /**
   * The checks of a leaf pass exactly when every pair passes, and a failure is the error of
   * the first failing pair, every pair before it passing.
   */
  lemma PairChecksMeaning(e: Particle, ePath: seq<Particle>, paths: seq<PathEntry>, k: nat, groupId: nat,
                          anyElement: Option<Wildcard>, globals: map<string, ElementDecl>)
    requires e.Leaf? && ePath != [] && EntriesOk(paths) && k <= |paths|
    ensures var r := PairChecks(e, ePath, paths, k, groupId, anyElement, globals);
            (r.Ok? <==> forall i :: k <= i < |paths| ==>
                          PairCheck(e, ePath, paths[i].particle, paths[i].path, groupId, anyElement, globals).Ok?)
            && (r.Err? ==>
                  exists i :: k <= i < |paths|
                    && PairCheck(e, ePath, paths[i].particle, paths[i].path, groupId, anyElement, globals) == Err(r.error)
                    && (forall j :: k <= j < i ==>
                          PairCheck(e, ePath, paths[j].particle, paths[j].path, groupId, anyElement, globals).Ok?))
  {
    PairChecksOk(e, ePath, paths, k, groupId, anyElement, globals);
    PairChecksFirstError(e, ePath, paths, k, groupId, anyElement, globals);
  }

  /** The checks of a leaf pass exactly when every pair from k on passes. */
  lemma {:induction false} PairChecksOk(e: Particle, ePath: seq<Particle>, paths: seq<PathEntry>, k: nat, groupId: nat,
                                        anyElement: Option<Wildcard>, globals: map<string, ElementDecl>)
    requires e.Leaf? && ePath != [] && EntriesOk(paths) && k <= |paths|
    ensures PairChecks(e, ePath, paths, k, groupId, anyElement, globals).Ok? <==>
            forall i :: k <= i < |paths| ==>
              PairCheck(e, ePath, paths[i].particle, paths[i].path, groupId, anyElement, globals).Ok?
    decreases |paths| - k
  {
    if k < |paths| {
      PairChecksOk(e, ePath, paths, k + 1, groupId, anyElement, globals);
      var c0 := PairCheck(e, ePath, paths[k].particle, paths[k].path, groupId, anyElement, globals);
      if c0.Ok? {
        assert PairChecks(e, ePath, paths, k, groupId, anyElement, globals)
               == Prefixed(c0.value, PairChecks(e, ePath, paths, k + 1, groupId, anyElement, globals));
      }
    }
  }

  /** A failure of the checks of a leaf is the error of the first failing pair from k on. */
  lemma {:induction false} PairChecksFirstError(e: Particle, ePath: seq<Particle>, paths: seq<PathEntry>, k: nat, groupId: nat,
                                                anyElement: Option<Wildcard>, globals: map<string, ElementDecl>)
    requires e.Leaf? && ePath != [] && EntriesOk(paths) && k <= |paths|
    ensures var r := PairChecks(e, ePath, paths, k, groupId, anyElement, globals);
            r.Err? ==>
              exists i :: k <= i < |paths|
                && PairCheck(e, ePath, paths[i].particle, paths[i].path, groupId, anyElement, globals) == Err(r.error)
                && (forall j :: k <= j < i ==>
                      PairCheck(e, ePath, paths[j].particle, paths[j].path, groupId, anyElement, globals).Ok?)
    decreases |paths| - k
  {
    if k < |paths| {
      var c0 := PairCheck(e, ePath, paths[k].particle, paths[k].path, groupId, anyElement, globals);
      var r := PairChecks(e, ePath, paths, k, groupId, anyElement, globals);
      if c0.Ok? {
        var rt := PairChecks(e, ePath, paths, k + 1, groupId, anyElement, globals);
        assert r == Prefixed(c0.value, rt);
        if rt.Err? {
          PairChecksFirstError(e, ePath, paths, k + 1, groupId, anyElement, globals);
          var i :| k + 1 <= i < |paths|
                   && PairCheck(e, ePath, paths[i].particle, paths[i].path, groupId, anyElement, globals) == Err(rt.error)
                   && (forall j :: k + 1 <= j < i ==>
                         PairCheck(e, ePath, paths[j].particle, paths[j].path, groupId, anyElement, globals).Ok?);
          assert forall j :: k <= j < i ==>
                   PairCheck(e, ePath, paths[j].particle, paths[j].path, groupId, anyElement, globals).Ok?;
        }
      } else {
        assert r == c0;
      }
    }
  }

  /** The keys of the paths dictionary are unique. */
  predicate NamesUnique(paths: seq<PathEntry>)
  {
    forall i, j :: 0 <= i < j < |paths| ==> paths[i].name != paths[j].name
  }

  /** paths[name] = entry: replaces the value of an existing key in place, else appends. */
  function PutPath(paths: seq<PathEntry>, entry: PathEntry): (r: seq<PathEntry>)
    requires NamesUnique(paths)
    ensures NamesUnique(r)
    ensures EntriesOk(paths) && entry.particle.Leaf? && entry.path != [] ==> EntriesOk(r)
    ensures entry in r
    ensures forall x :: x in r ==> x == entry || (x in paths && x.name != entry.name)
    ensures forall x :: x in paths && x.name != entry.name ==> x in r
  {
    if paths == [] then [entry]
    else
      NamesAfterHead(paths);
      if paths[0].name == entry.name then
        EntriesCons(entry, paths[1..]);
        ConsUnique(entry, paths[1..]);
        [entry] + paths[1..]
      else
        var rest := PutPath(paths[1..], entry);
        EntriesCons(paths[0], rest);
        ConsUnique(paths[0], rest);
        [paths[0]] + rest
  }

  lemma NamesAfterHead(paths: seq<PathEntry>)
    requires NamesUnique(paths) && paths != []
    ensures NamesUnique(paths[1..]) && (EntriesOk(paths) ==> EntriesOk(paths[1..]))
    ensures forall x :: x in paths[1..] ==> x.name != paths[0].name
  {
    forall x | x in paths[1..] ensures x.name != paths[0].name {
      var j :| 0 <= j < |paths[1..]| && paths[1..][j] == x;
      assert paths[j + 1] == x;
    }
  }

  lemma ConsUnique(p: PathEntry, rest: seq<PathEntry>)
    requires NamesUnique(rest) && forall x :: x in rest ==> x.name != p.name
    ensures NamesUnique([p] + rest)
  {
    forall i, j | 0 <= i < j < |[p] + rest| ensures ([p] + rest)[i].name != ([p] + rest)[j].name {
      assert ([p] + rest)[j] == rest[j - 1];
      if i > 0 {
        assert ([p] + rest)[i] == rest[i - 1];
      } else {
        assert rest[j - 1] in rest;
      }
    }
  }

  lemma EntriesCons(p: PathEntry, rest: seq<PathEntry>)
    ensures p.particle.Leaf? && p.path != [] && EntriesOk(rest) ==> EntriesOk([p] + rest)
  {
    if p.particle.Leaf? && p.path != [] && EntriesOk(rest) {
      forall i | 0 <= i < |[p] + rest| ensures ([p] + rest)[i].particle.Leaf? && ([p] + rest)[i].path != [] {
        if i > 0 {
          assert ([p] + rest)[i] == rest[i - 1];
        }
      }
    }
  }

  /** The levels of groups nested below a particle (zero for a leaf). */
  function Depth(p: Particle): nat
    decreases p
  {
    match p
    case Leaf(_) => 0
    case Group(_, _, _, items, _) => ItemsDepth(items)
  }

  function ItemsDepth(ps: seq<Particle>): nat
    decreases ps
  {
    if ps == [] then 0
    else MaxNat(if ps[0].Group? then 1 + Depth(ps[0]) else 0, ItemsDepth(ps[1..]))
  }

  /** An iterator of safe_iter_path: a group and the position of its next item. */
  datatype Visit = Visit(group: Particle, pos: nat)

  predicate VisitOk(v: Visit) { v.group.Group? && v.pos <= |v.group.items| }

  function VisitRest(v: Visit): seq<Particle>
  {
    if VisitOk(v) then v.group.items[v.pos..] else []
  }

  /** The particles still to visit by a stack of iterators. */
  function VisitSize(fs: seq<Visit>): nat
  {
    if fs == [] then 0 else VisitSize(fs[..|fs| - 1]) + SizeSeq(VisitRest(fs[|fs| - 1]))
  }

  /** Every iterator of the stack runs over a group, not past its end. */
  predicate AllVisitsOk(fs: seq<Visit>)
  {
    forall i :: 0 <= i < |fs| ==> VisitOk(fs[i])
  }

  /** Every group still to visit lies within maxDepth levels, at the level of its iterator. */
  predicate LevelsOk(fs: seq<Visit>, maxDepth: nat)
  {
    forall i :: 0 <= i < |fs| ==> i + ItemsDepth(VisitRest(fs[i])) <= maxDepth
  }

  lemma LevelsAppend(fs: seq<Visit>, v: Visit, maxDepth: nat)
    ensures LevelsOk(fs + [v], maxDepth) <==> LevelsOk(fs, maxDepth) && |fs| + ItemsDepth(VisitRest(v)) <= maxDepth
  {
    var fv := fs + [v];
    assert fv[|fs|] == v;
    assert forall i :: 0 <= i < |fs| ==> fv[i] == fs[i];
  }

  lemma VisitSizeAppend(fs: seq<Visit>, v: Visit)
    ensures VisitSize(fs + [v]) == VisitSize(fs) + SizeSeq(VisitRest(v))
  {
    assert (fs + [v])[..|fs|] == fs;
  }

  lemma AllVisitsOkAppend(fs: seq<Visit>, v: Visit)
    ensures AllVisitsOk(fs + [v]) <==> AllVisitsOk(fs) && VisitOk(v)
  {
    var fv := fs + [v];
    assert fv[|fs|] == v;
    assert forall i :: 0 <= i < |fs| ==> fv[i] == fs[i];
  }

  /** Taking the next item of an iterator: how its depth and size split between the item and the rest. */
  lemma VisitNext(v: Visit)
    requires VisitOk(v) && v.pos < |v.group.items|
    ensures var item := v.group.items[v.pos];
            var rest := VisitRest(v.(pos := v.pos + 1));
            ItemsDepth(VisitRest(v)) == MaxNat(if item.Group? then 1 + Depth(item) else 0, ItemsDepth(rest))
            && SizeSeq(VisitRest(v)) == Size(item) + SizeSeq(rest)
            && (item.Group? ==> VisitRest(Visit(item, 0)) == item.items && ItemsDepth(item.items) == Depth(item))
  {
    var xs := v.group.items;
    assert xs[v.pos..][1..] == xs[v.pos + 1..];
    assert xs[v.pos..][0] == xs[v.pos];
    if xs[v.pos].Group? {
      assert xs[v.pos].items[0..] == xs[v.pos].items;
    }
  }

  /** The iterator on top of a stack of iterators. */
  function Top(its: seq<Visit>): Visit
    requires its != []
  {
    its[|its| - 1]
  }

  /** Whether the iterator on top of the stack has a next item. */
  predicate HasNext(its: seq<Visit>)
  {
    its != [] && VisitOk(Top(its)) && Top(its).pos < |Top(its).group.items|
  }

  /** The next item of the iterator on top of the stack. */
  function NextItem(its: seq<Visit>): Particle
    requires HasNext(its)
  {
    Top(its).group.items[Top(its).pos]
  }

  /** The stack after taking the next item of its top iterator. */
  function Advanced(its: seq<Visit>): seq<Visit>
    requires its != []
  {
    its[..|its| - 1] + [Top(its).(pos := Top(its).pos + 1)]
  }

  /** Entering the group g taken from the top iterator: a new iterator over g on top. */
  function Entered(its: seq<Visit>, g: Particle): seq<Visit>
    requires its != []
  {
    Advanced(its) + [Visit(g, 0)]
  }

  /** Entering the group met at the top iterator keeps the depth bound and shrinks what is left to visit. */
  lemma EnterGroup(its: seq<Visit>, maxDepth: nat)
    requires HasNext(its) && NextItem(its).Group? && AllVisitsOk(its)
    ensures var its' := Entered(its, NextItem(its));
            |its'| == |its| + 1 && AllVisitsOk(its')
            && (LevelsOk(its, maxDepth) <==> LevelsOk(its', maxDepth))
            && VisitSize(its') < VisitSize(its)
            && (|its| > maxDepth ==> !LevelsOk(its', maxDepth))
  {
    var below := its[..|its| - 1];
    var v := Top(its);
    var v' := v.(pos := v.pos + 1);
    var c := Visit(NextItem(its), 0);
    SplitLast(its);
    VisitNext(v);
    LevelsAppend(below, v, maxDepth);
    LevelsAppend(below, v', maxDepth);
    LevelsAppend(below + [v'], c, maxDepth);
    VisitSizeAppend(below, v);
    VisitSizeAppend(below, v');
    VisitSizeAppend(below + [v'], c);
    AllVisitsOkAppend(below, v);
    AllVisitsOkAppend(below, v');
    AllVisitsOkAppend(below + [v'], c);
  }

  /** Passing a leaf met at the top iterator keeps the depth bound and shrinks what is left to visit. */
  lemma PassLeaf(its: seq<Visit>, maxDepth: nat)
    requires HasNext(its) && NextItem(its).Leaf? && AllVisitsOk(its)
    ensures var its' := Advanced(its);
            |its'| == |its| && AllVisitsOk(its')
            && (LevelsOk(its, maxDepth) <==> LevelsOk(its', maxDepth))
            && VisitSize(its') < VisitSize(its)
  {
    var below := its[..|its| - 1];
    var v := Top(its);
    var v' := v.(pos := v.pos + 1);
    SplitLast(its);
    VisitNext(v);
    LevelsAppend(below, v, maxDepth);
    LevelsAppend(below, v', maxDepth);
    VisitSizeAppend(below, v);
    VisitSizeAppend(below, v');
    AllVisitsOkAppend(below, v);
    AllVisitsOkAppend(below, v');
  }

  lemma SplitLast(fs: seq<Visit>)
    requires fs != []
    ensures fs == fs[..|fs| - 1] + [fs[|fs| - 1]]
  {
  }

  /** Dropping an exhausted top iterator keeps the depth bound and what is left to visit. */
  lemma LeaveGroup(its: seq<Visit>, maxDepth: nat)
    requires its != [] && AllVisitsOk(its) && !HasNext(its) && |its| <= maxDepth + 1
    ensures var its' := its[..|its| - 1];
            AllVisitsOk(its')
            && (LevelsOk(its, maxDepth) <==> LevelsOk(its', maxDepth))
            && VisitSize(its) == VisitSize(its')
  {
    var below := its[..|its| - 1];
    var v := Top(its);
    SplitLast(its);
    AllVisitsOkAppend(below, v);
    assert VisitRest(v) == [];
    LevelsAppend(below, v, maxDepth);
    VisitSizeAppend(below, v);
  }

  /** A stack holding only an iterator at the start of the root group. */
  lemma WalkStart(root: Particle, maxDepth: nat)
    requires root.Group?
    ensures AllVisitsOk([Visit(root, 0)])
    ensures Depth(root) <= maxDepth <==> LevelsOk([Visit(root, 0)], maxDepth)
  {
    assert root.items[0..] == root.items;
    assert [] + [Visit(root, 0)] == [Visit(root, 0)];
    LevelsAppend([], Visit(root, 0), maxDepth);
  }

  /**
   * check_model: visits the leaves of the model rooted at root depth first, checking each
   * against the leaves seen before, and returns the precedences given to XSD 1.1 wildcards.
   * It fails with the depth error exactly when it has to enter a group nested deeper than
   * maxDepth, so a model within the limit never gets that error and a model that passes is
   * within the limit.
   */
  method CheckModel(root: Particle, anyElement: Option<Wildcard>, globals: map<string, ElementDecl>, maxDepth: nat)
    returns (r: Result<seq<Precedence>, ModelError>)
    requires root.Group?
    ensures r == Err(DepthError) ==> Depth(root) > maxDepth
    ensures r.Ok? ==> Depth(root) <= maxDepth
  {
    var paths: seq<PathEntry> := [];
    var currentPath := [root];
    // iterators + [particles] of check_model, the current iterator on top
    var its: seq<Visit> := [Visit(root, 0)];
    var precedences: seq<Precedence> := [];
    WalkStart(root, maxDepth);
    while true
      invariant its != [] && AllVisitsOk(its) && |its| <= maxDepth + 1
      invariant |currentPath| == |its| && EntriesOk(paths) && NamesUnique(paths)
      invariant Depth(root) <= maxDepth <==> LevelsOk(its, maxDepth)
      decreases VisitSize(its), |its|
    {
      if HasNext(its) {
        var item := NextItem(its);
        if item.Group? {
          EnterGroup(its, maxDepth);
          if |its| > maxDepth {
            return Err(DepthError);
          }
          currentPath := currentPath + [item];
          its := Entered(its, item);
        } else {
          PassLeaf(its, maxDepth);
          its := Advanced(its);
          var failed;
          failed, paths, precedences := VisitLeaf(item, currentPath, paths, precedences, root.gid, anyElement, globals);
          if failed.Some? {
            return Err(failed.value);
          }
        }
      } else {
        LeaveGroup(its, maxDepth);
        if |its| == 1 {
          assert LevelsOk([], maxDepth);
          return Ok(precedences);
        }
        currentPath := currentPath[..|currentPath| - 1];
        its := its[..|its| - 1];
      }
    }
  }

  /**
   * The visit of the leaf e of check_model: its checks against the paths seen so far, then
   * paths[name] = current path, keeping the precedences found.
   */
  method VisitLeaf(e: Particle, ePath: seq<Particle>, paths: seq<PathEntry>, precedences: seq<Precedence>, groupId: nat,
                   anyElement: Option<Wildcard>, globals: map<string, ElementDecl>)
    returns (failed: Option<ModelError>, paths': seq<PathEntry>, precedences': seq<Precedence>)
    requires e.Leaf? && ePath != [] && EntriesOk(paths) && NamesUnique(paths)
    ensures EntriesOk(paths') && NamesUnique(paths')
    ensures failed.Some? ==>
              !failed.value.DepthError? && PairChecks(e, ePath, paths, 0, groupId, anyElement, globals) == Err(failed.value)
    ensures failed.None? ==>
              |precedences| <= |precedences'| && precedences'[..|precedences|] == precedences
              && PairChecks(e, ePath, paths, 0, groupId, anyElement, globals) == Ok(precedences'[|precedences|..])
              && paths' == PutPath(paths, PathEntry(LeafName(e), e, ePath))
  {
    var checked := CheckLeaf(e, ePath, paths, groupId, anyElement, globals);
    if checked.Err? {
      return Some(checked.error), paths, precedences;
    }
    precedences' := precedences + checked.value;
    assert precedences'[|precedences|..] == checked.value;
    paths' := PutPath(paths, PathEntry(LeafName(e), e, ePath));
    failed := None;
  }

  /** One step of CheckLeaf: the pair check of entry i, an error that stops it or the precedences joined. */
  method CheckPairAt(e: Particle, ePath: seq<Particle>, paths: seq<PathEntry>, i: nat, groupId: nat,
                     anyElement: Option<Wildcard>, globals: map<string, ElementDecl>, acc0: seq<Precedence>)
    returns (stop: Option<ModelError>, acc: seq<Precedence>)
    requires e.Leaf? && ePath != [] && EntriesOk(paths) && i < |paths|
    ensures stop.Some? ==> Prefixed(acc0, PairChecks(e, ePath, paths, i, groupId, anyElement, globals)) == Err(stop.value)
                           && !stop.value.DepthError?
    ensures stop.None? ==> Prefixed(acc0, PairChecks(e, ePath, paths, i, groupId, anyElement, globals))
                           == Prefixed(acc, PairChecks(e, ePath, paths, i + 1, groupId, anyElement, globals))
  {
    var c := PairCheck(e, ePath, paths[i].particle, paths[i].path, groupId, anyElement, globals);
    PairChecksStep(e, ePath, paths, i, groupId, anyElement, globals, acc0);
    if c.Err? {
      return Some(c.error), acc0;
    }
    return None, acc0 + c.value;
  }

  /** The loop of check_model over the paths seen so far, for the leaf e. */
  method CheckLeaf(e: Particle, ePath: seq<Particle>, paths: seq<PathEntry>, groupId: nat,
                   anyElement: Option<Wildcard>, globals: map<string, ElementDecl>) returns (r: Result<seq<Precedence>, ModelError>)
    requires e.Leaf? && ePath != [] && EntriesOk(paths)
    ensures r == PairChecks(e, ePath, paths, 0, groupId, anyElement, globals)
    ensures r.Err? ==> !r.error.DepthError?
  {
    var acc: seq<Precedence> := [];
    var i := 0;
    PrefixedEmpty(PairChecks(e, ePath, paths, 0, groupId, anyElement, globals));
    while i < |paths|
      invariant 0 <= i <= |paths|
      invariant PairChecks(e, ePath, paths, 0, groupId, anyElement, globals)
                == Prefixed(acc, PairChecks(e, ePath, paths, i, groupId, anyElement, globals))
    {
      var stop;
      stop, acc := CheckPairAt(e, ePath, paths, i, groupId, anyElement, globals, acc);
      if stop.Some? {
        return Err(stop.value);
      }
      i := i + 1;
    }
    assert acc + [] == acc;
    return Ok(acc);
  }

  // ---- expected elements ----

  /** The particles of ps whose minimum is not met by the counter. */
  function Missing(ps: seq<Particle>, occ: Counter): (r: seq<Particle>)
    ensures forall p :: p in r <==> p in ps && Occ(occ, p) < OccursOf(p).min
  {
    if ps == [] then []
    else (if Occ(occ, ps[0]) < OccursOf(ps[0]).min then [ps[0]] else []) + Missing(ps[1..], occ)
  }

  /** The elements of a substitution group's direct members, as leaf particles. */
  function MemberLeaves(ms: seq<ElementDecl>): (r: seq<Particle>)
    ensures |r| == |ms| && forall k :: 0 <= k < |r| ==> r[k] == Leaf(ElementLeaf(ms[k]))
  {
    if ms == [] then [] else [Leaf(ElementLeaf(ms[0]))] + MemberLeaves(ms[1..])
  }

  /** What each candidate contributes: a group its elements, an element itself and its substitutes. */
  function ExpandExpected(ps: seq<Particle>): (r: seq<Particle>)
    ensures forall k :: 0 <= k < |r| ==> r[k].Leaf?
  {
    if ps == [] then []
    else
      var head := match ps[0]
        case Group(_, _, _, _, _) => IterElements(ps[0])
        case Leaf(ElementLeaf(e)) => [ps[0]] + MemberLeaves(e.members)
        case Leaf(WildcardLeaf(_, _, _, _)) => [ps[0]];
      head + ExpandExpected(ps[1..])
  }

  /** ModelVisitor.expected for the current group g and counter occ. */
  function ExpectedOf(g: Particle, occ: Counter): (r: seq<Particle>)
    ensures forall k :: 0 <= k < |r| ==> r[k].Leaf?
  {
    match g
    case Leaf(_) => []
    case Group(_, _, model, items, _) =>
      if model == Choice then ExpandExpected(items) else ExpandExpected(Missing(items, occ))
  }

  lemma {:induction false} ExpandExpectedHas(ps: seq<Particle>, p: Particle)
    requires p in ps && p.Leaf?
    ensures p in ExpandExpected(ps)
  {
    if ps[0] != p {
      ExpandExpectedHas(ps[1..], p);
    }
  }

  /**
   * In a choice every leaf item is expected; elsewhere a leaf item is expected exactly when its
   * minimum is not met, and nothing is expected when every item has met its minimum.
   */
  lemma ExpectedMeaning(g: Particle, occ: Counter, p: Particle)
    requires g.Group? && p in g.items && p.Leaf?
    ensures g.model == Choice ==> p in ExpectedOf(g, occ)
    ensures g.model != Choice && Occ(occ, p) < OccursOf(p).min ==> p in ExpectedOf(g, occ)
    ensures g.model != Choice && Missing(g.items, occ) == [] ==> ExpectedOf(g, occ) == []
  {
    if g.model == Choice {
      ExpandExpectedHas(g.items, p);
    } else {
      if Occ(occ, p) < OccursOf(p).min {
        ExpandExpectedHas(Missing(g.items, occ), p);
      }
    }
  }

  // ---- closing a sequence ----

  /** The index of the first particle of ps with a non-zero count. */
  function FirstOccurring(ps: seq<Particle>, occ: Counter): (r: Option<nat>)
    ensures r.Some? ==> (r.value < |ps| && Occ(occ, ps[r.value]) > 0
                         && forall j :: 0 <= j < r.value ==> Occ(occ, ps[j]) == 0)
    ensures r.None? ==> forall j :: 0 <= j < |ps| ==> Occ(occ, ps[j]) == 0
  {
    if ps == [] then None
    else if Occ(occ, ps[0]) > 0 then Some(0)
    else match FirstOccurring(ps[1..], occ)
      case None => None
      case Some(k) => Some(k + 1)
  }

  lemma {:induction false} FirstOccurringAt(ps: seq<Particle>, occ: Counter, k: nat)
    requires k < |ps| && Occ(occ, ps[k]) > 0 && forall j :: 0 <= j < k ==> Occ(occ, ps[j]) == 0
    ensures FirstOccurring(ps, occ) == Some(k)
  {
    if k > 0 {
      FirstOccurringAt(ps[1..], occ, k - 1);
    }
  }

  predicate AllEmptiable(ps: seq<Particle>)
  {
    forall k :: 0 <= k < |ps| ==> IsEmptiable(OccursOf(ps[k]))
  }

  function MaxNat(a: nat, b: nat): nat { if a >= b then a else b }

  /**
   * The fewest repetitions of a choice that hold io occurrences of an item allowed at most
   * max times per repetition.
   */
  function MinGroupOccurs(io: nat, max: nat): (r: nat)
    requires max > 0
    ensures r * max >= io && (r == 0 || (r - 1) * max < io)
  {
    var q := io / max;
    assert io == q * max + io % max;
    if io % max != 0 then 1 + q else q
  }

  /**
   * The most repetitions of a group that io occurrences of an item needing at least min per
   * repetition can fill, and never fewer than one.
   */
  function MaxGroupOccurs(io: nat, min: nat): (r: nat)
    ensures r >= 1
    ensures min > 0 && io >= min ==> r * min <= io < (r + 1) * min
    ensures min == 0 ==> r == MaxNat(1, io)
  {
    if min == 0 then MaxNat(1, io)
    else
      var q := io / min;
      DivBounds(io, min);
      assert io >= min ==> MaxNat(1, q) == q;
      MaxNat(1, q)
  }

  /** The quotient of a division is the most multiples of the divisor that fit. */
  lemma DivBounds(n: nat, d: nat)
    requires d > 0
    ensures (n / d) * d <= n < (n / d + 1) * d
    ensures n >= d ==> n / d >= 1
  {
    assert n == (n / d) * d + n % d;
  }


  /**
   * The counts of the sequence g once its last item stops, k being the first item that
   * occurred: one more occurrence of g, or a range of occurrences when that item could
   * account for several and everything after it may be omitted.
   */
  function SequenceCloseAt(occ: Counter, g: Particle, k: nat): (r: Counter)
    requires g.Group? && k < |g.items| && Occ(occ, g.items[k]) > 0
  {
    var item2 := g.items[k];
    var io := Occ(occ, item2);
    var imo := if Get(occ, Tuple(IdOf(item2))) != 0 then Get(occ, Tuple(IdOf(item2))) else io;
    var o := OccursOf(item2);
    if imo == 1 || !AllEmptiable(g.items[k + 1..]) then
      occ[Item(g.gid) := Get(occ, Item(g.gid)) + 1]
    else
      var minG := MaxNat(1, io / (if o.max.None? || o.max.value == 0 then io else o.max.value));
      var maxG := MaxGroupOccurs(imo, o.min);
      occ[Item(g.gid) := Get(occ, Item(g.gid)) + minG][Tuple(g.gid) := Get(occ, Tuple(g.gid)) + maxG]
  }

  /**
   * Closing a sequence in which some item occurred counts at least one more occurrence of it,
   * never lowers its maximum count, and touches no other counter key; with no item occurred
   * nothing changes.
   */
  function SequenceClosed(occ: Counter, g: Particle): (r: Counter)
    requires g.Group?
    ensures FirstOccurring(g.items, occ).None? ==> r == occ
    ensures FirstOccurring(g.items, occ).Some? ==>
              Get(r, Item(g.gid)) >= Get(occ, Item(g.gid)) + 1 && Get(r, Tuple(g.gid)) >= Get(occ, Tuple(g.gid))
    ensures forall key :: key != Item(g.gid) && key != Tuple(g.gid) ==> Get(r, key) == Get(occ, key)
  {
    match FirstOccurring(g.items, occ)
    case None => occ
    case Some(k) => SequenceCloseAt(occ, g, k)
  }

  /** The maximum count of item, its plain count when no maximum was recorded. */
  function ImoOf(occ: Counter, item: Particle): nat
  {
    if Get(occ, Tuple(IdOf(item))) != 0 then Get(occ, Tuple(IdOf(item))) else Occ(occ, item)
  }

  /**
   * The counts of the choice g once its item stops after io > 0 occurrences: g gains the
   * fewest repetitions that hold them on its counter and the most they can fill on its tuple
   * counter, the item starts again from zero and nothing else changes. An item that may never
   * occur divides by zero.
   */
  function ChoiceStopped(occ: Counter, g: Particle, item: Particle): (r: Result<Counter, VisitError>)
    requires g.Group? && Occ(occ, item) > 0
    ensures r.Err? <==> OccursOf(item).max == Some(0)
    ensures r.Err? ==> r.error == ZeroDivision
    ensures r.Ok? ==>
              var io := Occ(occ, item);
              var o := OccursOf(item);
              var added := Get(r.value, Item(g.gid)) - Get(occ, Item(g.gid));
              Get(r.value, Item(IdOf(item))) == 0
              && (IdOf(item) != g.gid ==>
                    added >= 1 && (o.max.None? ==> added == 1)
                    && (o.max.Some? ==> added * o.max.value >= io && (added - 1) * o.max.value < io)
                    && Get(r.value, Tuple(g.gid)) >= Get(occ, Tuple(g.gid)) + 1)
    ensures r.Ok? ==> forall key :: key != Item(g.gid) && key != Tuple(g.gid) && key != Item(IdOf(item)) ==>
                                      Get(r.value, key) == Get(occ, key)
  {
    var io := Occ(occ, item);
    var imo := ImoOf(occ, item);
    var o := OccursOf(item);
    if o.max == Some(0) then Err(ZeroDivision)
    else
      var minG := if o.max.None? then 1 else if io % o.max.value != 0 then 1 + io / o.max.value else io / o.max.value;
      assert o.max.Some? ==> minG == MinGroupOccurs(io, o.max.value);
      var c := occ[Item(g.gid) := Get(occ, Item(g.gid)) + minG];
      var c' := c[Tuple(g.gid) := Get(c, Tuple(g.gid)) + MaxGroupOccurs(imo, o.min)];
      Ok(c'[Item(IdOf(item)) := 0])
  }

  /** A violation reported by advance: the particle, its count and the expected elements. */
  datatype Violation = Violation(particle: Particle, count: nat, expected: seq<Particle>)

  /**
   * Why advance stops early: the visit had already ended (a ValueError), a pop from the empty
   * group stack or an index into an empty group (an IndexError, which ends the visit), a
   * division by a zero maxOccurs, or the step bound ran out.
   */
  datatype VisitError = Ended | IndexError | ZeroDivision | StepLimit

  /** How one turn of the main loop of advance ends. */
  datatype Step = Continue | Leave | Raise(error: VisitError)

  /** The fields of a visitor that stop_item reads and changes. */
  datatype VisitState = VisitState(stack: seq<Frame>, occurs: Counter, group: Particle, items: Cursor, matched: bool)

  /** The current group and every stacked group are model groups. */
  predicate GroupsOk(s: VisitState)
  {
    s.group.Group? && forall k :: 0 <= k < |s.stack| ==> s.stack[k].group.Group?
  }

  /** self.group, self.items, self.match = self._groups.pop() */
  function PopState(s: VisitState): (r: VisitState)
    requires GroupsOk(s) && s.stack != []
    ensures GroupsOk(r) && |r.stack| == |s.stack| - 1
  {
    var f := s.stack[|s.stack| - 1];
    VisitState(s.stack[..|s.stack| - 1], s.occurs, f.group, f.items, f.matched)
  }

  /** The state stop_item goes on from: the enclosing group popped when item is a group. */
  function Popped(s: VisitState, item: Particle): (r: VisitState)
    requires GroupsOk(s) && !(item.Group? && s.stack == [])
    ensures GroupsOk(r)
  {
    if item.Group? then PopState(s) else s
  }

  /**
   * stop_item(item) on the state s: its result and the state it leaves. A group item pops its
   * enclosing group first (an IndexError at the outermost group), then StopIn decides.
   */
  function StopItemSpec(s: VisitState, item: Particle): (r: (Result<bool, VisitError>, VisitState))
    requires GroupsOk(s)
    ensures GroupsOk(r.1)
    ensures r.0.Err? ==> r.0.error == IndexError || r.0.error == ZeroDivision
    ensures |r.1.stack| <= |s.stack|
    decreases if item.Group? then 2 * |s.stack| + 1 else 2 * |s.stack| + 2, 1
  {
    if item.Group? && s.stack == [] then (Err(IndexError), s)
    else StopIn(Popped(s, item), item)
  }

  /**
   * stop_item once the group of item is the current one. In a choice the occurrences of item
   * become repetitions of the choice; an all group stops nothing; in a sequence an item that
   * was not matched, never occurred and is not emptiable stops the enclosing group (or, at the
   * outermost group under its minimum, is a violation); otherwise the item is missing when
   * its count is under its minimum, and the last item of the sequence closes it.
   */
  function StopIn(t: VisitState, item: Particle): (r: (Result<bool, VisitError>, VisitState))
    requires GroupsOk(t)
    ensures GroupsOk(r.1)
    ensures r.0.Err? ==> r.0.error == IndexError || r.0.error == ZeroDivision
    ensures |r.1.stack| <= |t.stack|
    decreases 2 * |t.stack| + 2, 0
  {
    var g := t.group;
    if g.model == Choice then
      if Occ(t.occurs, item) == 0 then (Ok(false), t)
      else
        match ChoiceStopped(t.occurs, g, item)
        case Err(e) => (Err(e), t)
        case Ok(c) => (Ok(IsMissing(OccursOf(item), ImoOf(t.occurs, item))),
                       t.(occurs := c, items := IterGroup(g), matched := false))
    else if g.model == All then (Ok(false), t)
    else if !t.matched && Occ(t.occurs, item) == 0 then
      if IsEmptiable(OccursOf(item)) then (Ok(false), t)
      else if t.stack != [] || g.goccurs.min <= MaxOcc(t.occurs, g) then StopItemSpec(t, g)
      else (Ok(true), t)
    else
      var u := t.(matched := true);
      if g.items == [] then (Err(IndexError), u)
      else
        var c := if item == g.items[|g.items| - 1] then SequenceClosed(u.occurs, g) else u.occurs;
        (Ok(IsMissing(OccursOf(item), MaxOcc(c, item))), u.(occurs := c))
  }

  /**
   * stop_item of a group item: at the outermost group there is nothing to pop and it raises
   * IndexError with the state unchanged; otherwise the enclosing frame becomes the current group
   * and stop_item goes on there.
   */
  lemma StopItemPops(s: VisitState, item: Particle)
    requires GroupsOk(s) && item.Group?
    ensures s.stack == [] ==> StopItemSpec(s, item) == (Err(IndexError), s)
    ensures s.stack != [] ==>
              var f := s.stack[|s.stack| - 1];
              var t := VisitState(s.stack[..|s.stack| - 1], s.occurs, f.group, f.items, f.matched);
              StopItemSpec(s, item) == StopIn(t, item)
  {
  }

  /** stop_item(item) when the current group t.group is a choice or an all group, one clause per branch. */
  lemma StopInChoiceCases(t: VisitState, item: Particle)
    requires GroupsOk(t)
    // an all group stops nothing
    ensures t.group.model == All ==> StopIn(t, item) == (Ok(false), t)
    // a choice: an item that never occurred stops nothing and changes nothing
    ensures t.group.model == Choice && Occ(t.occurs, item) == 0 ==> StopIn(t, item) == (Ok(false), t)
    // a choice: an item that occurred is missing when its most occurrences are under its
    // minimum, an item that may not occur divides by zero, and the choice starts again
    ensures t.group.model == Choice && Occ(t.occurs, item) > 0 ==>
              var r := StopIn(t, item);
              (r.0.Err? <==> OccursOf(item).max == Some(0))
              && (r.0.Err? ==> r.0.error == ZeroDivision && r.1 == t)
              && (r.0.Ok? ==>
                    (r.0.value <==> ImoOf(t.occurs, item) < OccursOf(item).min)
                    && Occ(r.1.occurs, item) == 0 && !r.1.matched && r.1.items == IterGroup(t.group)
                    && r.1.stack == t.stack && r.1.group == t.group
                    && (IdOf(item) != t.group.gid ==> Occ(r.1.occurs, t.group) >= Occ(t.occurs, t.group) + 1))
  {
  }

  /** stop_item(item) when the current group t.group is a sequence, one clause per branch. */
  lemma StopInSequenceCases(t: VisitState, item: Particle)
    requires GroupsOk(t)
    // a sequence, item neither matched nor occurred: an emptiable item stops nothing
    ensures t.group.model == Sequence && !t.matched && Occ(t.occurs, item) == 0 && OccursOf(item).min == 0 ==>
              StopIn(t, item) == (Ok(false), t)
    // ... a required item in a nested group stops that group in its parent
    ensures t.group.model == Sequence && !t.matched && Occ(t.occurs, item) == 0 && OccursOf(item).min > 0
            && t.stack != [] ==>
              StopIn(t, item) == StopItemSpec(t, t.group) && |StopIn(t, item).1.stack| < |t.stack|
    // ... in the outermost group it is reported when the group is under its minimum, and
    // otherwise stopping the outermost group raises IndexError
    ensures t.group.model == Sequence && !t.matched && Occ(t.occurs, item) == 0 && OccursOf(item).min > 0
            && t.stack == [] ==>
              StopIn(t, item) == (if t.group.goccurs.min <= MaxOcc(t.occurs, t.group) then Err(IndexError) else Ok(true), t)
    // a sequence, item matched or occurred: the sequence counts as matched, the last item closes
    // it, and the item is missing when its count is under its minimum
    ensures t.group.model == Sequence && (t.matched || Occ(t.occurs, item) > 0) && t.group.items != [] ==>
              var r := StopIn(t, item);
              r.1.matched && r.1.stack == t.stack && r.1.group == t.group && r.1.items == t.items
              && r.1.occurs == (if item == t.group.items[|t.group.items| - 1] then SequenceClosed(t.occurs, t.group) else t.occurs)
              && r.0 == Ok(MaxOcc(r.1.occurs, item) < OccursOf(item).min)
    // ... an empty sequence has no last item to compare with: IndexError
    ensures t.group.model == Sequence && (t.matched || Occ(t.occurs, item) > 0) && t.group.items == [] ==>
              StopIn(t, item).0 == Err(IndexError)
  {
    var g := t.group;
    if g.model == Sequence && !t.matched && Occ(t.occurs, item) == 0 && OccursOf(item).min > 0 && t.stack != [] {
      assert StopIn(t, item) == StopItemSpec(t, g);
      assert |StopItemSpec(t, g).1.stack| <= |t.stack| - 1 by {
        assert StopItemSpec(t, g) == StopIn(PopState(t), g);
      }
    }
  }

  /** The state advance(match) stops the element e from: e counted once more when it matched. */
  function MatchedState(s: VisitState, e: Particle, isMatch: bool): (r: VisitState)
    requires GroupsOk(s)
    ensures GroupsOk(r)
  {
    if !isMatch then s
    else
      s.(occurs := s.occurs[Item(IdOf(e)) := Occ(s.occurs, e) + 1], matched := true,
         items := if s.group.model == All then Cursor(true, IterElements(s.group), 0) else s.items)
  }

  /** advance(match) returns at once: a match that leaves e under its maximum, or an ambiguous one in a choice. */
  predicate Paused(s: VisitState, e: Particle, isMatch: bool)
    requires GroupsOk(s)
  {
    isMatch && s.group.model != All
    && (!IsOver(OccursOf(e), Occ(s.occurs, e) + 1) || (s.group.model == Choice && IsAmbiguous(OccursOf(e))))
  }

  /**
   * What advance(match) from element e reports on the state s: nothing when the match pauses
   * the visit; otherwise the element's own violation comes first exactly when stop_item(e)
   * answers true on the state where the match is counted.
   */
  ghost predicate Reported(s: VisitState, e: Particle, isMatch: bool, violations: seq<Violation>, error: Option<VisitError>)
    requires GroupsOk(s)
  {
    (Paused(s, e, isMatch) ==> violations == [] && error.None?)
    && (!Paused(s, e, isMatch) ==>
          ((violations != [] && violations[0] == Violation(e, Occ(s.occurs, e) + (if isMatch then 1 else 0), [e]))
           <==> StopItemSpec(MatchedState(s, e, isMatch), e).0 == Ok(true)))
  }

  /** An exhausted all group whose elements all met their minimum counts one occurrence first. */
  function Settled(s: VisitState): (r: VisitState)
    requires GroupsOk(s)
    ensures GroupsOk(r)
  {
    if s.group.model == All && AllSatisfied(IterElements(s.group), s.occurs)
    then s.(occurs := s.occurs[Item(s.group.gid) := 1]) else s
  }

  /**
   * Whether the end of a visit reports the group g: when g is missing, a choice always, a
   * sequence only after an item was taken, an all group when one of its items is missing;
   * when g is not missing, exactly when its count passed its maximum.
   */
  predicate EndReported(g: Particle, occ: Counter, obj: Option<Particle>)
    requires g.Group?
  {
    if IsMissing(g.goccurs, MaxOcc(occ, g)) then
      g.model == Choice || (g.model == Sequence && obj.Some?) || (g.model == All && !AllSatisfied(g.items, occ))
    else g.goccurs.max.Some? && g.goccurs.max.value < Occ(occ, g)
  }

  /** Every element of ps has met its minimum. */
  predicate AllSatisfied(ps: seq<Particle>, occ: Counter)
  {
    forall k :: 0 <= k < |ps| ==> OccursOf(ps[k]).min <= Occ(occ, ps[k])
  }

  /** Some particle of ps is not over its maximum. */
  predicate AnyNotOver(ps: seq<Particle>, occ: Counter)
  {
    exists k :: 0 <= k < |ps| && !IsOver(OccursOf(ps[k]), Occ(occ, ps[k]))
  }

  /** A violation of a group: it lists what the group expected under the counter at the time. */
  ghost predicate GroupViolation(v: Violation)
  {
    v.particle.Group? && exists c: Counter :: v.expected == ExpectedOf(v.particle, c)
  }

  ghost predicate GroupViolations(vs: seq<Violation>)
  {
    forall k :: 0 <= k < |vs| ==> GroupViolation(vs[k])
  }

  lemma GroupViolationsAppend(vs: seq<Violation>, ws: seq<Violation>)
    requires GroupViolations(vs) && GroupViolations(ws)
    ensures GroupViolations(vs + ws)
  {
    forall k | 0 <= k < |vs + ws| ensures GroupViolation((vs + ws)[k]) {
      if k < |vs| { assert (vs + ws)[k] == vs[k]; } else { assert (vs + ws)[k] == ws[k - |vs|]; }
    }
  }

  /**
   * What one advance from element e yields: violations of groups, but first, possibly, the
   * violation of e itself, with its count n and e as the one expected element.
   */
  ghost predicate ViolationsFrom(vs: seq<Violation>, e: Particle, n: nat)
  {
    forall k :: 0 <= k < |vs| ==> GroupViolation(vs[k]) || (k == 0 && vs[k] == Violation(e, n, [e]))
  }

  /** A violation of an element expects the element itself; one of a group, what the group expected. */
  ghost predicate ViolationFits(v: Violation)
  {
    GroupViolation(v) || (v.particle.Leaf? && v.expected == [v.particle])
  }

  lemma ViolationsFromMore(vs: seq<Violation>, ws: seq<Violation>, e: Particle, n: nat)
    requires ViolationsFrom(vs, e, n) && GroupViolations(ws)
    ensures ViolationsFrom(vs + ws, e, n)
  {
    forall k | 0 <= k < |vs + ws| ensures GroupViolation((vs + ws)[k]) || (k == 0 && (vs + ws)[k] == Violation(e, n, [e])) {
      if k >= |vs| {
        assert (vs + ws)[k] == ws[k - |vs|];
      } else {
        assert (vs + ws)[k] == vs[k];
      }
    }
  }

  /** Group violations after the first ones leave the head alone: a leaf's violation stays first or absent. */
  lemma FirstKept(vs: seq<Violation>, ws: seq<Violation>, v: Violation)
    requires GroupViolations(ws) && v.particle.Leaf?
    ensures ((vs + ws) != [] && (vs + ws)[0] == v) <==> (vs != [] && vs[0] == v)
  {
    if vs == [] && ws != [] {
      assert (vs + ws)[0] == ws[0];
    }
  }

  lemma FitsMore(vs: seq<Violation>, ws: seq<Violation>, e: Particle, n: nat)
    requires (forall k :: 0 <= k < |vs| ==> ViolationFits(vs[k])) && ViolationsFrom(ws, e, n) && e.Leaf?
    ensures forall k :: 0 <= k < |vs + ws| ==> ViolationFits((vs + ws)[k])
  {
    forall k | 0 <= k < |vs + ws| ensures ViolationFits((vs + ws)[k]) {
      if k >= |vs| {
        assert (vs + ws)[k] == ws[k - |vs|];
      } else {
        assert (vs + ws)[k] == vs[k];
      }
    }
  }

  /** The bound on the number of steps one call of advance takes. */
  const STEP_LIMIT: nat := 1000000

  class ModelVisitor {
    const root: Particle
    var stack: seq<Frame>
    var occurs: Counter
    var element: Option<Particle>
    var group: Particle
    var items: Cursor
    var matched: bool

    /**
     * The stack is a path of groups from the root down to the current group, each iterator
     * runs over its own group's source, and the current element is a leaf.
     */
    ghost predicate Valid()
      reads this
    {
      root.Group? && CursorOk(group, items) && StackPath(root, stack, group)
      && (forall k :: 0 <= k < |stack| ==> stack[k].group.Group?)
      && (element.Some? ==> element.value.Leaf? && element.value in ModelLeaves(root))
    }

    /** The fields stop_item reads and changes. */
    function State(): VisitState
      reads this
    {
      VisitState(stack, occurs, group, items, matched)
    }

    function Pending(): seq<Particle>
      reads this
    {
      Remaining(items, occurs) + PendingStack(stack, occurs)
    }

    /** ModelVisitor(root): an empty counter and the first element of the model as current element. */
    constructor (root: Particle)
      requires root.Group?
      ensures Valid() && this.root == root
      ensures occurs == map[]
      ensures element == FirstLeaf(root)
    {
      this.root := root;
      stack := [];
      occurs := map[];
      element := None;
      group := root;
      items := IterGroup(root);
      matched := false;
      new;
      assert PendingStack([], map[]) == [];
      assert Pending() == Remaining(IterGroup(root), map[]);
      Start();
    }

    /** ModelVisitor.clear: no groups stacked, an empty counter, no current element. */
    method Clear()
      requires Valid()
      modifies this
      ensures Valid()
      ensures stack == [] && occurs == map[] && element.None? && group == root
      ensures items == IterGroup(root) && !matched
    {
      stack := [];
      occurs := map[];
      element := None;
      group := root;
      items := IterGroup(root);
      matched := false;
    }

    /** ModelVisitor.restart: clear, then start again at the first element of the model. */
    method Restart()
      requires Valid()
      modifies this
      ensures Valid()
      ensures occurs == map[]
      ensures element == FirstLeaf(root)
    {
      Clear();
      assert PendingStack([], map[]) == [];
      assert Pending() == Remaining(IterGroup(root), map[]);
      Start();
    }

    /** ModelVisitor._start: descends to the first element still pending. */
    method Start()
      requires Valid() && element.None?
      modifies this
      ensures Valid()
      ensures occurs == old(occurs)
      ensures element == FirstLeafOf(old(Pending()), occurs)
    {
      var done := false;
      while !done
        invariant Valid() && occurs == old(occurs)
        invariant !done ==> element.None? && FirstLeafOf(Pending(), occurs) == FirstLeafOf(old(Pending()), occurs)
        invariant done ==> element == FirstLeafOf(old(Pending()), occurs)
        decreases !done, SizeSeq(Pending()), |stack|
      {
        done := StartStep();
      }
    }

    /** self.group, self.items, self.match = self._groups.pop() */
    method Pop()
      requires Valid() && stack != []
      modifies this
      ensures Valid() && occurs == old(occurs) && element == old(element)
      ensures stack == old(stack[..|stack| - 1])
      ensures group == old(stack[|stack| - 1].group) && items == old(stack[|stack| - 1].items)
      ensures matched == old(stack[|stack| - 1].matched)
      ensures Pending() == old(PendingStack(stack, occurs))
    {
      var f := stack[|stack| - 1];
      group, items, matched, stack := f.group, f.items, f.matched, stack[..|stack| - 1];
    }

    /** Enters the inner group g, stacking the current group with its iterator. */
    method Push(g: Particle)
      requires Valid() && g.Group? && ChildOf(g, group)
      modifies this
      ensures Valid() && occurs == old(occurs) && element == old(element)
      ensures stack == old(stack) + [Frame(old(group), old(items), old(matched))]
      ensures group == g && items == IterGroup(g) && !matched
      ensures Pending() == Remaining(IterGroup(g), occurs) + old(Pending())
    {
      PendingStackPush(stack, Frame(group, items, matched), occurs);
      stack := stack + [Frame(group, items, matched)];
      group := g;
      items := IterGroup(g);
      matched := false;
    }

    /** One turn of the loop of _start: take the next item of the current iterator. */
    method StartStep() returns (done: bool)
      requires Valid() && element.None?
      modifies this
      ensures Valid() && occurs == old(occurs)
      ensures done ==> element == FirstLeafOf(old(Pending()), occurs)
      ensures !done ==> element.None? && FirstLeafOf(Pending(), occurs) == FirstLeafOf(old(Pending()), occurs)
      ensures !done ==> SizeSeq(Pending()) < old(SizeSeq(Pending()))
                        || (SizeSeq(Pending()) == old(SizeSeq(Pending())) && |stack| < old(|stack|))
    {
      ghost var ps := PendingStack(stack, occurs);
      var next := Next(items, occurs);
      NextPending(items, occurs, ps);
      var item := next.0;
      items := next.1;
      if item.None? {
        if stack == [] {
          return true;
        }
        Pop();
        return false;
      } else if item.value.Leaf? {
        FirstLeafOfLeaf(item.value, Pending(), occurs);
        YieldedLeaf(root, stack, group, item.value);
        element := item;
        return true;
      } else {
        var g := item.value;
        ghost var after := Pending();
        if g.items != [] {
          Push(g);
          FirstLeafOfGroup(g, after, occurs);
        } else {
          FirstLeafOfEmpty(g, after, occurs);
        }
        return false;
      }
    }

    /** ModelVisitor.expected: the elements the current group still expects. */
    function Expected(): (r: seq<Particle>)
      reads this
      ensures forall k :: 0 <= k < |r| ==> r[k].Leaf?
    {
      ExpectedOf(group, occurs)
    }

    /**
     * The closing loop of stop_item for the last item of a sequence: the first item of the
     * group that occurred decides how many occurrences of the group are counted.
     */
    method CloseSequence(g: Particle)
      requires g.Group?
      modifies this
      ensures stack == old(stack) && group == old(group) && items == old(items)
      ensures matched == old(matched) && element == old(element)
      ensures occurs == SequenceClosed(old(occurs), g)
    {
      var k := 0;
      while k < |g.items|
        invariant 0 <= k <= |g.items|
        invariant forall j :: 0 <= j < k ==> Occ(occurs, g.items[j]) == 0
      {
        if Occ(occurs, g.items[k]) != 0 {
          FirstOccurringAt(g.items, occurs, k);
          CountFirstOccurring(g, k);
          return;
        }
        k := k + 1;
      }
    }

    /** The counter update of the closing loop once item k of g is found to have occurred. */
    method CountFirstOccurring(g: Particle, k: nat)
      requires g.Group? && k < |g.items| && Occ(occurs, g.items[k]) > 0
      modifies this
      ensures stack == old(stack) && group == old(group) && items == old(items)
      ensures matched == old(matched) && element == old(element)
      ensures occurs == SequenceCloseAt(old(occurs), g, k)
    {
      var item2 := g.items[k];
      var io := Occ(occurs, item2);
      var imo := if Get(occurs, Tuple(IdOf(item2))) != 0 then Get(occurs, Tuple(IdOf(item2))) else io;
      var o := OccursOf(item2);
      if imo == 1 || !AllEmptiable(g.items[k + 1..]) {
        occurs := occurs[Item(g.gid) := Get(occurs, Item(g.gid)) + 1];
      } else {
        var minG := MaxNat(1, io / (if o.max.None? || o.max.value == 0 then io else o.max.value));
        var maxG := MaxGroupOccurs(imo, o.min);
        occurs := occurs[Item(g.gid) := Get(occurs, Item(g.gid)) + minG];
        occurs := occurs[Tuple(g.gid) := Get(occurs, Tuple(g.gid)) + maxG];
      }
    }

    /**
     * The branch of stop_item for an item of a choice group: the occurrences of item are
     * turned into repetitions of the choice, at least the fewest that hold them and at most
     * as many as they can fill, and the item counter starts again.
     */
    method StopInChoice(item: Particle) returns (r: Result<bool, VisitError>)
      requires Valid() && group.Group?
      modifies this
      ensures Valid() && element == old(element) && stack == old(stack) && group == old(group)
      ensures Occ(old(occurs), item) == 0 ==>
                r == Ok(false) && occurs == old(occurs) && items == old(items) && matched == old(matched)
      ensures Occ(old(occurs), item) > 0 ==>
                var c := ChoiceStopped(old(occurs), group, item);
                (c.Err? ==> r == Err(c.error) && occurs == old(occurs) && items == old(items) && matched == old(matched))
                && (c.Ok? ==> occurs == c.value && items == IterGroup(group) && !matched
                              && r == Ok(IsMissing(OccursOf(item), ImoOf(old(occurs), item))))
    {
      if Occ(occurs, item) == 0 {
        return Ok(false);
      }
      var imo := ImoOf(occurs, item);
      var c := ChoiceStopped(occurs, group, item);
      if c.Err? {
        return Err(c.error);
      }
      occurs := c.value;
      items := IterGroup(group);
      matched := false;
      return Ok(IsMissing(OccursOf(item), imo));
    }

    /**
     * stop_item: stops matching item (popping up to the enclosing group when item is a group)
     * and updates the counter of the current group; true when item, or the group, has not
     * reached its minimum.
     */
    method StopItem(item: Particle) returns (r: Result<bool, VisitError>)
      requires Valid()
      modifies this
      ensures Valid() && element == old(element)
      ensures (r, State()) == StopItemSpec(old(State()), item)
      ensures |stack| <= old(|stack|)
      ensures item.Group? && r.Ok? ==> |stack| < old(|stack|)
      ensures r.Err? ==> r.error == IndexError || r.error == ZeroDivision
      decreases if item.Group? then 2 * |stack| + 1 else 2 * |stack| + 2, 1
    {
      ghost var s0 := State();
      if item.Group? && stack == [] {
        r := Err(IndexError);
      } else {
        if item.Group? {
          Pop();
        }
        assert State() == Popped(s0, item);
        r := StopInGroup(item);
      }
    }

    /** The branches of stop_item once the group of item is the current group. */
    method StopInGroup(item: Particle) returns (r: Result<bool, VisitError>)
      requires Valid()
      modifies this
      ensures Valid() && element == old(element)
      ensures (r, State()) == StopIn(old(State()), item)
      ensures |stack| <= old(|stack|)
      decreases 2 * |stack| + 2, 0
    {
      var g := group;
      if g.model == Choice {
        r := StopInChoice(item);
      } else if g.model == All {
        r := Ok(false);
      } else if !matched && Occ(occurs, item) == 0 {
        if IsEmptiable(OccursOf(item)) {
          r := Ok(false);
        } else if stack != [] || g.goccurs.min <= MaxOcc(occurs, g) {
          r := StopItem(g);
        } else {
          r := Ok(true);
        }
      } else {
        r := StopInSequence(item);
      }
    }

    /** stop_item for an item of a sequence that was matched or occurred: the last item closes the sequence. */
    method StopInSequence(item: Particle) returns (r: Result<bool, VisitError>)
      requires Valid() && group.model != Choice && group.model != All && (matched || Occ(occurs, item) != 0)
      modifies this
      ensures Valid() && element == old(element)
      ensures (r, State()) == StopIn(old(State()), item)
      ensures stack == old(stack)
    {
      ghost var t := State();
      var g := group;
      matched := true;
      ghost var u := State();
      assert u == t.(matched := true);
      if g.items == [] {
        return Err(IndexError);
      }
      if item == g.items[|g.items| - 1] {
        CloseSequence(g);
        assert State() == u.(occurs := SequenceClosed(u.occurs, g));
      } else {
        assert State() == u.(occurs := u.occurs);
      }
      r := Ok(IsMissing(OccursOf(item), MaxOcc(occurs, item)));
    }

    /**
     * One turn of the main loop of advance: stop the groups that are over, then take the
     * next item of the current group. obj is the last item taken.
     */
    method AdvanceStep(obj0: Option<Particle>) returns (vs: seq<Violation>, st: Step, obj: Option<Particle>)
      requires Valid() && element.Some?
      modifies this
      ensures Valid()
      ensures st != Leave ==> element == old(element)
      ensures st == Leave ==> element.Some? && element.value in Source(group)
      ensures st.Raise? ==> st.error == IndexError || st.error == ZeroDivision
      ensures GroupViolations(vs)
    {
      obj := obj0;
      vs := [];
      var stopped := StopOver();
      if stopped.Some? {
        return vs, Raise(stopped.value), obj;
      }
      var next := Next(items, occurs);
      obj := next.0;
      items := next.1;
      if obj.Some? && obj.value.Group? {
        var g := obj.value;
        Push(g);
        occurs := occurs[Item(g.gid) := 0][Tuple(g.gid) := 0];
      } else if obj.Some? {
        YieldedLeaf(root, stack, group, obj.value);
        element := obj;
        if group.model == Sequence {
          occurs := occurs[Item(IdOf(obj.value)) := 0];
        }
        return vs, Leave, obj;
      } else {
        vs, st := GroupExhausted();
        return vs, st, obj;
      }
      st := Continue;
    }

    /** The inner loop of advance: stops the current group while it has reached its maximum. */
    method StopOver() returns (error: Option<VisitError>)
      requires Valid() && element.Some?
      modifies this
      ensures Valid() && element == old(element)
      ensures error.Some? ==> error.value == IndexError || error.value == ZeroDivision
      ensures error.None? ==> !IsOver(OccursOf(group), MaxOcc(occurs, group))
    {
      while IsOver(OccursOf(group), MaxOcc(occurs, group))
        invariant Valid() && element == old(element)
        decreases |stack|
      {
        var s := StopItem(group);
        if s.Err? {
          return Some(s.error);
        }
      }
      return None;
    }

    /** The branches of the main loop of advance taken when the current group has no item left. */
    method GroupExhausted() returns (vs: seq<Violation>, st: Step)
      requires Valid() && element.Some?
      modifies this
      ensures Valid() && element == old(element)
      ensures st.Raise? ==> st.error == IndexError || st.error == ZeroDivision
      ensures st != Leave
      ensures GroupViolations(vs)
      ensures !old(matched) ==>
                var s1 := Settled(old(State()));
                var r := StopItemSpec(s1, old(group));
                vs == (if r.0 == Ok(true) && ExpectedOf(old(group), s1.occurs) != []
                       then [Violation(old(group), Occ(r.1.occurs, old(group)), ExpectedOf(old(group), s1.occurs))]
                       else [])
      ensures old(matched) && old(group).model != All ==>
                vs == [] && st == Continue && !matched && items == IterGroup(group)
                && group == old(group) && occurs == old(occurs) && stack == old(stack)
      ensures old(matched) && old(group).model == All && !AllSatisfied(IterElements(old(group)), old(occurs)) ==>
                vs == (if old(group).goccurs.min == 0
                       then [Violation(old(group), Occ(old(occurs), old(group)), ExpectedOf(old(group), old(occurs)))]
                       else [])
                && (st == Raise(IndexError) <==> old(stack) == [])
                && (old(stack) != [] ==> group == old(stack[|stack| - 1].group) && occurs == old(occurs))
    {
      vs := [];
      if !matched {
        if group.model == All && AllSatisfied(IterElements(group), occurs) {
          occurs := occurs[Item(group.gid) := 1];
        }
        var g := group;
        ghost var c := occurs;
        assert State() == Settled(old(State()));
        var exp := Expected();
        var s := StopItem(g);
        if s.Err? {
          return vs, Raise(s.error);
        }
        if s.value && exp != [] {
          vs := [Violation(g, Occ(occurs, g), exp)];
          assert GroupViolation(vs[0]) by {
            assert exp == ExpectedOf(vs[0].particle, c);
          }
        }
      } else if group.model != All {
        items := IterGroup(group);
        matched := false;
      } else if !AllSatisfied(IterElements(group), occurs) {
        if group.goccurs.min == 0 {
          vs := [Violation(group, Occ(occurs, group), Expected())];
          assert vs[0].expected == ExpectedOf(vs[0].particle, occurs);
        }
        if stack == [] {
          return vs, Raise(IndexError);
        }
        Pop();
      } else if AnyNotOver(group.items, occurs) {
        items := IterGroup(group);
        matched := false;
      } else {
        occurs := occurs[Item(group.gid) := 1];
      }
      st := Continue;
    }

    /** advance for callers that only need the visitor kept valid while it has an element. */
    method AdvanceValid(isMatch: bool) returns (violations: seq<Violation>, error: Option<VisitError>)
      requires Valid() && element.Some?
      modifies this
      ensures Valid()
      ensures error != Some(Ended) && error != Some(IndexError)
    {
      violations, error := Advance(isMatch);
    }

    /**
     * ModelVisitor.advance: counts a match of the current element when isMatch, then moves to
     * the next element, returning the occurrence violations found on the way. The violations
     * yielded before an exception are kept next to it.
     */
    method Advance(isMatch: bool) returns (violations: seq<Violation>, error: Option<VisitError>)
      requires Valid()
      modifies this
      ensures Valid()
      ensures old(element).None? <==> error == Some(Ended)
      ensures old(element).None? ==>
                violations == [] && occurs == old(occurs) && stack == old(stack) && group == old(group)
                && items == old(items) && matched == old(matched) && element == old(element)
      ensures error != Some(IndexError)
      ensures old(element).Some? && isMatch && old(group).model != All
              && !IsOver(OccursOf(old(element).value), Occ(old(occurs), old(element).value) + 1) ==>
                violations == [] && error.None? && element == old(element) && matched
                && occurs == old(occurs)[Item(IdOf(old(element).value)) := Occ(old(occurs), old(element).value) + 1]
                && stack == old(stack) && group == old(group) && items == old(items)
      ensures error.None? && element.Some? && element != old(element) ==> element.value in Source(group)
      ensures old(element).Some? ==>
                ViolationsFrom(violations, old(element).value,
                               Occ(old(occurs), old(element).value) + (if isMatch then 1 else 0))
      ensures old(element).Some? ==> Reported(old(State()), old(element).value, isMatch, violations, error)
    {
      if element.None? {
        violations, error := [], Some(Ended);
      } else {
        var e := element.value;
        var paused := false;
        if isMatch {
          paused := CountMatch(e);
        }
        if paused {
          violations, error := [], None;
        } else {
          violations, error := AdvanceFrom(e);
        }
      }
    }

    /** The match counted by advance(true): whether it pauses the visit at the current element. */
    method CountMatch(e: Particle) returns (paused: bool)
      requires Valid() && element == Some(e)
      modifies this
      ensures Valid() && element == old(element)
      ensures State() == MatchedState(old(State()), e, true)
      ensures Occ(occurs, e) == Occ(old(occurs), e) + 1
      ensures paused == Paused(old(State()), e, true)
    {
      occurs := occurs[Item(IdOf(e)) := Occ(occurs, e) + 1];
      matched := true;
      if group.model == All {
        items := Cursor(true, IterElements(group), 0);
      }
      paused := group.model != All && (!IsOver(OccursOf(e), Occ(occurs, e)) || (group.model == Choice && IsAmbiguous(OccursOf(e))));
    }

    /**
     * The rest of advance, once the match of element e is counted: stop_item(e), then turns
     * until the visit leaves at a new element or raises.
     */
    method AdvanceFrom(e: Particle) returns (violations: seq<Violation>, error: Option<VisitError>)
      requires Valid() && element == Some(e)
      modifies this
      ensures Valid()
      ensures error != Some(IndexError) && error != Some(Ended)
      ensures error.None? && element.Some? && element != old(element) ==> element.value in Source(group)
      ensures ViolationsFrom(violations, e, Occ(old(occurs), e))
      ensures (violations != [] && violations[0] == Violation(e, Occ(old(occurs), e), [e]))
              <==> StopItemSpec(old(State()), e).0 == Ok(true)
    {
      violations := [];
      var elementOccurs := Occ(occurs, e);
      ghost var n := elementOccurs;
      var obj: Option<Particle> := None;
      var raised: VisitError;
      var s := StopItem(e);
      if s.Err? {
        raised := s.error;
      } else {
        if s.value {
          violations := [Violation(e, elementOccurs, [e])];
        }
        var st;
        violations, st, obj := AdvanceLoop(violations, e, n);
        if st == Leave {
          return violations, None;
        }
        raised := st.error;
      }
      if raised != IndexError {
        return violations, Some(raised);
      }
      var last := EndVisit(obj);
      ViolationsFromMore(violations, last, e, n);
      FirstKept(violations, last, Violation(e, n, [e]));
      violations := violations + last;
      error := None;
    }

    /** The main loop of advance: turns until one leaves at a new element or raises. */
    method AdvanceLoop(violations0: seq<Violation>, ghost e: Particle, ghost n: nat)
      returns (violations: seq<Violation>, st: Step, obj: Option<Particle>)
      requires Valid() && element.Some? && ViolationsFrom(violations0, e, n) && e.Leaf?
      modifies this
      ensures Valid() && ViolationsFrom(violations, e, n)
      ensures (violations != [] && violations[0] == Violation(e, n, [e]))
              <==> (violations0 != [] && violations0[0] == Violation(e, n, [e]))
      ensures st != Continue
      ensures st == Leave ==> element.Some? && element.value in Source(group)
      ensures st != Leave ==> element == old(element)
      ensures st.Raise? ==> st.error == IndexError || st.error == ZeroDivision || st.error == StepLimit
    {
      violations, obj := violations0, None;
      var fuel := STEP_LIMIT;
      while true
        invariant Valid() && element == old(element) && ViolationsFrom(violations, e, n)
        invariant (violations != [] && violations[0] == Violation(e, n, [e]))
                  <==> (violations0 != [] && violations0[0] == Violation(e, n, [e]))
        decreases fuel
      {
        if fuel == 0 {
          return violations, Raise(StepLimit), obj;
        }
        fuel := fuel - 1;
        var vs;
        vs, st, obj := AdvanceStep(obj);
        ViolationsFromMore(violations, vs, e, n);
        FirstKept(violations, vs, Violation(e, n, [e]));
        violations := violations + vs;
        if st != Continue {
          return;
        }
      }
    }

    /**
     * The end of the visit (the IndexError handler of advance): no current element, and a
     * violation of the current group when it is missing (unless it is a sequence left before
     * any item was taken, or an all group whose elements all met their minimum) or over its
     * maximum.
     */
    method EndVisit(obj: Option<Particle>) returns (vs: seq<Violation>)
      requires Valid()
      modifies this
      ensures Valid() && element.None? && GroupViolations(vs)
      ensures vs == if EndReported(old(group), old(occurs), obj)
                    then [Violation(old(group), Occ(old(occurs), old(group)), ExpectedOf(old(group), old(occurs)))]
                    else []
      ensures occurs == old(occurs) && stack == old(stack) && group == old(group) && items == old(items)
      ensures matched == old(matched)
    {
      element := None;
      var g := group;
      vs := [];
      var last := [Violation(g, Occ(occurs, g), Expected())];
      assert GroupViolations(last) by {
        assert last[0].expected == ExpectedOf(last[0].particle, occurs);
      }
      if IsMissing(g.goccurs, MaxOcc(occurs, g)) {
        if g.model == Choice || (g.model == Sequence && obj.Some?)
           || (g.model == All && !AllSatisfied(g.items, occurs)) {
          vs := last;
        }
      } else if g.goccurs.max.Some? && g.goccurs.max.value < Occ(occurs, g) {
        vs := last;
      }
    }

    /** ModelVisitor.stop: advances without matches until the visit ends. */
    method Stop() returns (violations: seq<Violation>, error: Option<VisitError>)
      requires Valid()
      modifies this
      ensures Valid()
      ensures error.None? ==> element.None?
      ensures error != Some(Ended) && error != Some(IndexError)
      ensures forall k :: 0 <= k < |violations| ==> ViolationFits(violations[k])
    {
      violations := [];
      var fuel := STEP_LIMIT;
      while element.Some?
        invariant Valid()
        invariant forall k :: 0 <= k < |violations| ==> ViolationFits(violations[k])
        decreases fuel
      {
        if fuel == 0 {
          return violations, Some(StepLimit);
        }
        fuel := fuel - 1;
        ghost var e := element.value;
        ghost var n := Occ(occurs, e);
        var vs, err := Advance(false);
        FitsMore(violations, vs, e, n);
        violations := violations + vs;
        if err.Some? {
          return violations, err;
        }
      }
      error := None;
    }
  }
}
