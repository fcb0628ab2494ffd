// Decoding by list and union simple types: a list decodes each whitespace-separated token of
// its normalized text with its item type; a union takes the first member type that decodes
// the whole value, or else decodes each token with the first member that accepts it.
module SimpleDecoding {
  import opened Wrappers
  import Strs
  import F = Facets
  import ST = SimpleTypes

  /** What a type's iter_decode yields, in lax mode: a validation error or a decoded value. */
  datatype Yield = Error(reason: string) | Value(v: F.Value)

  /** The validation errors among the results, in order. */
  function ErrorsOf(ys: seq<Yield>): (r: seq<string>)
    ensures |r| <= |ys|
  {
    if ys == [] then []
    else ErrorsOf(ys[..|ys| - 1]) + (if ys[|ys| - 1].Error? then [ys[|ys| - 1].reason] else [])
  }

  /** The decoded values among the results, in order. */
  function ValuesOf(ys: seq<Yield>): (r: seq<F.Value>)
    ensures |r| <= |ys|
  {
    if ys == [] then []
    else ValuesOf(ys[..|ys| - 1]) + (if ys[|ys| - 1].Value? then [ys[|ys| - 1].v] else [])
  }

  // ---- XsdList.iter_decode ----

  /** What decoding a list value yields: the item errors as they come, then the list of values. */
  datatype ListResult = ListResult(errors: seq<string>, items: seq<F.Value>)

  /** The list result of decoding the given tokens in order. */
  function ListOf(item: string -> seq<Yield>, chunks: seq<string>): ListResult
  {
    if chunks == [] then ListResult([], [])
    else
      var p := ListOf(item, chunks[..|chunks| - 1]);
      var ys := item(chunks[|chunks| - 1]);
      ListResult(p.errors + ErrorsOf(ys), p.items + ValuesOf(ys))
  }

  /**
   * XsdList.iter_decode: the value is normalized with the list's white_space (anything but a
   * string is a value error), split on whitespace, and each token decoded by the item type;
   * its errors are passed on and its values appended to the items.
   */
  method ListDecode(whiteSpace: Option<string>, item: string -> seq<Yield>, x: ST.Input) returns (r: Result<ListResult, ()>)
    ensures r.Err? <==> x.NotText?
    ensures x.Text? ==> r == Ok(ListOf(item, Strs.Words(ST.Normalize(whiteSpace, x).value)))
  {
    var text := ST.Normalize(whiteSpace, x);
    if text.Err? {
      return Err(());
    }
    var res := DecodeWords(item, Strs.Words(text.value));
    return Ok(res);
  }

  /** The loop of iter_decode over the tokens: each token's errors and values in turn. */
  method DecodeWords(item: string -> seq<Yield>, chunks: seq<string>) returns (res: ListResult)
    ensures res == ListOf(item, chunks)
  {
    res := ListResult([], []);
    var i := 0;
    while i < |chunks|
      invariant 0 <= i <= |chunks|
      invariant res == ListOf(item, chunks[..i])
    {
      var ys := item(chunks[i]);
      var errors, items := AddYields(res.errors, res.items, ys);
      assert chunks[..i + 1][..i] == chunks[..i];
      res := ListResult(errors, items);
      i := i + 1;
    }
    assert chunks[..i] == chunks;
  }

  /** The inner loop over what the item type yields for one token. */
  method AddYields(errors0: seq<string>, items0: seq<F.Value>, ys: seq<Yield>) returns (errors: seq<string>, items: seq<F.Value>)
    ensures errors == errors0 + ErrorsOf(ys) && items == items0 + ValuesOf(ys)
  {
    errors, items := errors0, items0;
    var j := 0;
    while j < |ys|
      invariant 0 <= j <= |ys|
      invariant errors == errors0 + ErrorsOf(ys[..j]) && items == items0 + ValuesOf(ys[..j])
    {
      assert ys[..j + 1][..j] == ys[..j];
      match ys[j] {
        case Error(m) =>
          errors := errors + [m];
        case Value(v) =>
          items := items + [v];
      }
      j := j + 1;
    }
    assert ys[..j] == ys;
  }

  /** Decoding the tokens of a + b is decoding those of a, then those of b. */
  lemma {:induction false} ListOfAppend(item: string -> seq<Yield>, a: seq<string>, b: seq<string>)
    ensures ListOf(item, a + b) == ListResult(ListOf(item, a).errors + ListOf(item, b).errors,
                                              ListOf(item, a).items + ListOf(item, b).items)
    decreases |b|
  {
    if b == [] {
      assert a + b == a;
    } else {
      var b' := b[..|b| - 1];
      var ys := item(b[|b| - 1]);
      var la, lb' := ListOf(item, a), ListOf(item, b');
      assert ListOf(item, a + b') == ListResult(la.errors + lb'.errors, la.items + lb'.items) by {
        ListOfAppend(item, a, b');
      }
      assert ListOf(item, a + b) == ListResult(ListOf(item, a + b').errors + ErrorsOf(ys), ListOf(item, a + b').items + ValuesOf(ys)) by {
        assert (a + b)[..|a + b| - 1] == a + b';
        assert (a + b)[|a + b| - 1] == b[|b| - 1];
      }
      assert ListOf(item, b) == ListResult(lb'.errors + ErrorsOf(ys), lb'.items + ValuesOf(ys));
      assert (la.errors + lb'.errors) + ErrorsOf(ys) == la.errors + (lb'.errors + ErrorsOf(ys));
      assert (la.items + lb'.items) + ValuesOf(ys) == la.items + (lb'.items + ValuesOf(ys));
    }
  }

  /**
   * With an item type that decodes every token to one value without error, the list holds
   * exactly one value per token, in the order of the tokens.
   */
  lemma {:induction false} ListItemsInOrder(item: string -> seq<Yield>, f: string -> F.Value, chunks: seq<string>)
    requires forall t :: item(t) == [Value(f(t))]
    ensures ListOf(item, chunks).errors == []
    ensures |ListOf(item, chunks).items| == |chunks|
    ensures forall k :: 0 <= k < |chunks| ==> ListOf(item, chunks).items[k] == f(chunks[k])
    decreases |chunks|
  {
    if chunks != [] {
      var c := chunks[..|chunks| - 1];
      ListItemsInOrder(item, f, c);
      var ys := item(chunks[|chunks| - 1]);
      assert ValuesOf(ys) == [f(chunks[|chunks| - 1])];
      assert ErrorsOf(ys) == [];
      forall k | 0 <= k < |chunks| ensures ListOf(item, chunks).items[k] == f(chunks[k]) {
        if k < |c| {
          assert chunks[k] == c[k];
        }
      }
    }
  }

  // ---- XsdUnion.iter_decode ----

  /** A member type of a union: its white_space facet and its own lax decoding. */
  datatype Member = Member(whiteSpace: Option<string>, decode: ST.Input -> seq<Yield>)

  /** The errors a union decoding yields. */
  datatype UnionError =
    | PatternError(reason: string)          // the union's patterns reject the normalized text
    | InvalidValue                          // no member decodes the value and it is no list
    | NotDecodable(chunks: seq<string>)     // the tokens no member decodes

  /** What the decoding finally yields, if anything. */
  datatype UnionValue =
    | Decoded(v: F.Value)                   // one value
    | ListValue(items: seq<F.Value>)        // the values of more than one token
    | NoneValue                             // the token stage found no value: None
    | NoResult                              // only an error was yielded

  datatype UnionOutcome = UnionOutcome(errors: seq<UnionError>, value: UnionValue)

  /** The member decodes the whole value: its first result is a value. */
  predicate DecodesWhole(m: Member, x: ST.Input)
  {
    var ys := m.decode(x);
    |ys| > 0 && ys[0].Value?
  }

  /** The first member, from index i on, that decodes the whole value. */
  function FirstMatch(members: seq<Member>, x: ST.Input, i: nat): (r: Option<nat>)
    ensures r.Some? ==> i <= r.value < |members| && DecodesWhole(members[r.value], x)
    ensures r.Some? ==> forall j :: i <= j < r.value ==> !DecodesWhole(members[j], x)
    ensures r.None? ==> forall j :: i <= j < |members| ==> !DecodesWhole(members[j], x)
    decreases |members| - i
  {
    if i >= |members| then None
    else if DecodesWhole(members[i], x) then Some(i)
    else FirstMatch(members, x, i + 1)
  }

  /** The index of the first error among the results, or their number if there is none. */
  function FirstError(ys: seq<Yield>): (r: nat)
    ensures r <= |ys|
    ensures forall l :: 0 <= l < r ==> ys[l].Value?
    ensures r < |ys| ==> ys[r].Error?
  {
    if ys == [] then 0
    else if ys[0].Error? then 0
    else 1 + FirstError(ys[1..])
  }

  /** The member decodes the token without any error. */
  predicate Accepts(m: Member, chunk: string)
  {
    FirstError(m.decode(ST.Text(chunk))) == |m.decode(ST.Text(chunk))|
  }

  /** The values one token contributes, and whether some member decoded it. */
  datatype ChunkStep = ChunkStep(values: seq<F.Value>, decoded: bool)

  /**
   * Decoding one token with the members from index i on: each member's values up to its first
   * error are kept, and the first member without an error ends the search.
   */
  function ChunkFrom(members: seq<Member>, chunk: string, i: nat): (r: ChunkStep)
    ensures r.decoded <==> exists j :: i <= j < |members| && Accepts(members[j], chunk)
    decreases |members| - i
  {
    if i >= |members| then ChunkStep([], false)
    else
      var ys := members[i].decode(ST.Text(chunk));
      var lead := ValuesOf(ys[..FirstError(ys)]);
      if FirstError(ys) == |ys| then ChunkStep(lead, true)
      else
        var rest := ChunkFrom(members, chunk, i + 1);
        ChunkStep(lead + rest.values, rest.decoded)
  }

  /** The items and the undecodable tokens collected over the tokens in order. */
  datatype ChunkState = ChunkState(items: seq<F.Value>, notDecodable: seq<string>)

  /** The token stage: in skip mode an undecodable token is kept as its text, else recorded. */
  function ChunksOf(members: seq<Member>, chunks: seq<string>, skip: bool): ChunkState
  {
    if chunks == [] then ChunkState([], [])
    else
      var p := ChunksOf(members, chunks[..|chunks| - 1], skip);
      var c := chunks[|chunks| - 1];
      var d := ChunkFrom(members, c, 0);
      ChunkState(p.items + d.values + (if !d.decoded && skip then [F.Str(c)] else []),
                 p.notDecodable + (if !d.decoded && !skip then [c] else []))
  }

  /** The pattern error, if the union has patterns and the text normalized by the member fails them. */
  function PatternErrors(m: Member, patterns: Option<string -> Option<string>>, x: ST.Input): seq<UnionError>
  {
    if patterns.Some? && x.Text? then
      match patterns.value(ST.Normalize(m.whiteSpace, x).value)
      case Some(reason) => [PatternError(reason)]
      case None => []
    else []
  }

  /** What decoding the collected items yields: a list of several, the one item, or None. */
  function Collect(items: seq<F.Value>): UnionValue
  {
    if |items| > 1 then ListValue(items) else if |items| == 1 then Decoded(items[0]) else NoneValue
  }

  /** The outcome of XsdUnion.iter_decode. */
  function UnionOf(members: seq<Member>, patterns: Option<string -> Option<string>>, skip: bool, x: ST.Input): UnionOutcome
  {
    match FirstMatch(members, x, 0)
    case Some(k) => UnionOutcome(PatternErrors(members[k], patterns, x), Decoded(members[k].decode(x)[0].v))
    case None =>
      if x.NotText? || ' ' !in Strs.Strip(x.s) then UnionOutcome([InvalidValue], NoResult)
      else
        var c := ChunksOf(members, Strs.Words(x.s), skip);
        UnionOutcome(if c.notDecodable == [] then [] else [NotDecodable(c.notDecodable)], Collect(c.items))
  }

  /** Decoding one token with the members in order, as the inner loops of iter_decode do. */
  method DecodeChunk(members: seq<Member>, chunk: string) returns (values: seq<F.Value>, decoded: bool)
    ensures ChunkStep(values, decoded) == ChunkFrom(members, chunk, 0)
  {
    values, decoded := [], false;
    var i := 0;
    assert values + ChunkFrom(members, chunk, 0).values == ChunkFrom(members, chunk, 0).values;
    while i < |members|
      invariant 0 <= i <= |members|
      invariant ChunkStep(values + ChunkFrom(members, chunk, i).values, ChunkFrom(members, chunk, i).decoded)
                == ChunkFrom(members, chunk, 0)
      decreases |members| - i
    {
      var ys := members[i].decode(ST.Text(chunk));
      ghost var values0 := values;
      var j := 0;
      while j < |ys| && ys[j].Value?
        invariant 0 <= j <= |ys|
        invariant forall l :: 0 <= l < j ==> ys[l].Value?
        invariant values == values0 + ValuesOf(ys[..j])
      {
        assert ys[..j + 1][..j] == ys[..j];
        values := values + [ys[j].v];
        j := j + 1;
      }
      assert j == FirstError(ys);
      ghost var here, lead := ChunkFrom(members, chunk, i), ValuesOf(ys[..j]);
      if j == |ys| {
        assert here == ChunkStep(lead, true);
        return values, true;
      }
      ghost var rest := ChunkFrom(members, chunk, i + 1);
      assert here == ChunkStep(lead + rest.values, rest.decoded);
      SeqAssoc(values0, lead, rest.values);
      i := i + 1;
    }
    assert ChunkFrom(members, chunk, i) == ChunkStep([], false);
    assert values + [] == values;
  }

  /**
   * XsdUnion.iter_decode: the first member that decodes the whole value decides it (after the
   * union's patterns are applied to the text that member normalizes); failing that, a value
   * with an inner space is decoded token by token, each with the first member that accepts it.
   */
  method UnionDecode(members: seq<Member>, patterns: Option<string -> Option<string>>, skip: bool, x: ST.Input)
    returns (r: UnionOutcome)
    ensures r == UnionOf(members, patterns, skip, x)
  {
    var k := 0;
    while k < |members|
      invariant 0 <= k <= |members|
      invariant FirstMatch(members, x, 0) == FirstMatch(members, x, k)
    {
      var ys := members[k].decode(x);
      if |ys| > 0 && ys[0].Value? {
        var errors: seq<UnionError> := [];
        if patterns.Some? && x.Text? {
          var text := ST.Normalize(members[k].whiteSpace, x);
          match patterns.value(text.value) {
            case Some(reason) => errors := [PatternError(reason)];
            case None =>
          }
        }
        return UnionOutcome(errors, Decoded(ys[0].v));
      }
      k := k + 1;
    }
    if x.NotText? || ' ' !in Strs.Strip(x.s) {
      return UnionOutcome([InvalidValue], NoResult);
    }
    var c := DecodeChunks(members, Strs.Words(x.s), skip);
    var errors: seq<UnionError> := if c.notDecodable == [] then [] else [NotDecodable(c.notDecodable)];
    return UnionOutcome(errors, Collect(c.items));
  }

  /** The token stage of XsdUnion.iter_decode, over the tokens in order. */
  method DecodeChunks(members: seq<Member>, chunks: seq<string>, skip: bool) returns (r: ChunkState)
    ensures r == ChunksOf(members, chunks, skip)
  {
    var items: seq<F.Value> := [];
    var notDecodable: seq<string> := [];
    var i := 0;
    while i < |chunks|
      invariant 0 <= i <= |chunks|
      invariant ChunkState(items, notDecodable) == ChunksOf(members, chunks[..i], skip)
    {
      var values, decoded := DecodeChunk(members, chunks[i]);
      items := items + values;
      if !decoded {
        if skip {
          items := items + [F.Str(chunks[i])];
        } else {
          notDecodable := notDecodable + [chunks[i]];
        }
      }
      assert chunks[..i + 1][..i] == chunks[..i];
      i := i + 1;
    }
    assert chunks[..i] == chunks;
    return ChunkState(items, notDecodable);
  }

  /**
   * The first member, in order, that decodes the whole value decides the union's value; the
   * only error then possible is one pattern error.
   */
  lemma FirstMemberDecides(members: seq<Member>, patterns: Option<string -> Option<string>>, skip: bool, x: ST.Input, k: nat)
    requires k < |members| && DecodesWhole(members[k], x)
    requires forall j :: 0 <= j < k ==> !DecodesWhole(members[j], x)
    ensures UnionOf(members, patterns, skip, x).value == Decoded(members[k].decode(x)[0].v)
    ensures |UnionOf(members, patterns, skip, x).errors| <= 1
    ensures forall e :: e in UnionOf(members, patterns, skip, x).errors ==> e.PatternError?
  {
    var m := FirstMatch(members, x, 0);
    assert m == Some(k);
  }

  /**
   * The union yields only the invalid-value error exactly when no member decodes the whole
   * value and the value is not a text with a space inside its stripped form.
   */
  lemma InvalidValueCase(members: seq<Member>, patterns: Option<string -> Option<string>>, skip: bool, x: ST.Input)
    ensures UnionOf(members, patterns, skip, x).value == NoResult <==>
              (forall j :: 0 <= j < |members| ==> !DecodesWhole(members[j], x)) &&
              (x.NotText? || ' ' !in Strs.Strip(x.s))
    ensures UnionOf(members, patterns, skip, x).value == NoResult ==>
              UnionOf(members, patterns, skip, x).errors == [InvalidValue]
  {
    var m := FirstMatch(members, x, 0);
    if m.Some? {
      assert DecodesWhole(members[m.value], x);
    } else if x.Text? && ' ' in Strs.Strip(x.s) {
      var c := ChunksOf(members, Strs.Words(x.s), skip);
      assert Collect(c.items) != NoResult;
    }
  }

  /**
   * The token stage records exactly the tokens no member decodes without error, and in skip
   * mode records none.
   */
  lemma {:induction false} NotDecodableExact(members: seq<Member>, chunks: seq<string>, skip: bool)
    ensures skip ==> ChunksOf(members, chunks, skip).notDecodable == []
    ensures !skip ==> forall c :: c in ChunksOf(members, chunks, skip).notDecodable <==>
                        c in chunks && forall j :: 0 <= j < |members| ==> !Accepts(members[j], c)
    decreases |chunks|
  {
    if chunks != [] {
      var init := chunks[..|chunks| - 1];
      var last := chunks[|chunks| - 1];
      NotDecodableExact(members, init, skip);
      assert chunks == init + [last];
      var d := ChunkFrom(members, last, 0);
      assert d.decoded <==> exists j :: 0 <= j < |members| && Accepts(members[j], last);
    }
  }

  /** With members that each yield exactly one result per token, a token adds at most one value. */
  lemma {:induction false} ChunkOneValue(members: seq<Member>, chunk: string, i: nat)
    requires forall j :: 0 <= j < |members| ==> |members[j].decode(ST.Text(chunk))| == 1
    ensures |ChunkFrom(members, chunk, i).values| == if ChunkFrom(members, chunk, i).decoded then 1 else 0
    decreases |members| - i
  {
    if i < |members| {
      var ys := members[i].decode(ST.Text(chunk));
      if FirstError(ys) == |ys| {
        assert ys[..1] == ys && ValuesOf(ys[..0]) == [];
      } else {
        assert FirstError(ys) == 0 && ys[..0] == [];
        ChunkOneValue(members, chunk, i + 1);
      }
    }
  }

  /**
   * With members that each yield exactly one result per token, skip mode yields one item per
   * token and the default mode one item per decoded token plus one record per other token.
   */
  lemma {:induction false} OneItemPerChunk(members: seq<Member>, chunks: seq<string>, skip: bool)
    requires forall j, t :: 0 <= j < |members| ==> |members[j].decode(ST.Text(t))| == 1
    ensures skip ==> |ChunksOf(members, chunks, skip).items| == |chunks|
    ensures |ChunksOf(members, chunks, skip).items| + |ChunksOf(members, chunks, skip).notDecodable| == |chunks|
    decreases |chunks|
  {
    if chunks != [] {
      OneItemPerChunk(members, chunks[..|chunks| - 1], skip);
      ChunkOneValue(members, chunks[|chunks| - 1], 0);
    }
  }
}
