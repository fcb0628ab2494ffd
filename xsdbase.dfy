// The common base of the XSD validators: validity and build status, the parse-error policy
// and the parsing helpers shared by every XSD component.
module XsdBase {
  import opened Wrappers
  import opened Strs
  import opened Validation

  // ---- validity and build status ----

  /** The validity of a validator, as section 3.3.5.1 of XML Schema 1.1 Part 1 names it. */
  datatype Validity = Valid | Invalid | NotKnown

  /** How much of a validator was checked: full, partial or none. */
  datatype Attempted = Full | Partial | NoneAttempted

  /**
   * XsdValidator.validity: skip mode knows nothing; errors of the validator or of any of
   * its components make it invalid; otherwise a built validator is valid.
   */
  function ValidityOf(validation: Mode, ownErrors: nat, componentErrors: seq<nat>, built: bool): (r: Validity)
    ensures validation == Skip ==> r == NotKnown
    ensures validation != Skip ==>
              (r == Invalid <==> ownErrors > 0 || exists i :: 0 <= i < |componentErrors| && componentErrors[i] > 0)
    ensures r == Valid <==>
              validation != Skip && built && ownErrors == 0 && forall i :: 0 <= i < |componentErrors| ==> componentErrors[i] == 0
  {
    if validation == Skip then NotKnown
    else if ownErrors > 0 || exists i :: 0 <= i < |componentErrors| && componentErrors[i] > 0 then Invalid
    else if built then Valid
    else NotKnown
  }

  /** The errors raised by check_validator. */
  datatype CheckError = ModeError(kind: ArgError) | NotBuilt

  /**
   * XsdValidator.check_validator. With no mode given the validator checks itself, and one
   * that attempted nothing and knows nothing passes; a given mode is checked first.
   */
  function CheckValidator(validation: Option<PyArg>, own: Mode, attempted: Attempted, validity: Validity): (r: Result<(), CheckError>)
    ensures validation.Some? && CheckValidationMode(validation.value).Err? ==>
              r == Err(ModeError(CheckValidationMode(validation.value).error))
    ensures validation.None? && attempted == NoneAttempted && validity == NotKnown ==> r == Ok(())
    ensures r.Err? && r.error == NotBuilt ==>
              var m := if validation.None? then own else CheckValidationMode(validation.value).value;
              (attempted == NoneAttempted && m != Skip) || (m == Strict && (attempted != Full || validity != Valid))
  {
    var mode := if validation.None? then Ok(own) else CheckValidationMode(validation.value);
    if mode.Err? then Err(ModeError(mode.error))
    else
    var m := mode.value;
    if validation.None? && attempted == NoneAttempted && validity == NotKnown then Ok(())
    else if attempted == NoneAttempted && m != Skip then Err(NotBuilt)
    else if m == Strict && (attempted != Full || validity != Valid) then Err(NotBuilt)
    else Ok(())
  }

  /** A strict check passes only on a fully built, valid validator. */
  lemma StrictCheckNeedsFullAndValid(attempted: Attempted, validity: Validity)
    ensures CheckValidator(Some(PyStr("strict")), Lax, attempted, validity).Ok? <==> attempted == Full && validity == Valid
  {
  }

  /** A skip check always passes; a lax check fails only on a validator that attempted nothing. */
  lemma SkipAndLaxChecks(own: Mode, attempted: Attempted, validity: Validity)
    ensures CheckValidator(Some(PyStr("skip")), own, attempted, validity) == Ok(())
    ensures CheckValidator(Some(PyStr("lax")), own, attempted, validity).Err? <==> attempted == NoneAttempted
  {
  }

  // ---- parse errors ----

  /** A parse error: its message and the element it is about. */
  datatype ParseErr = ParseErr(message: string, elem: Option<nat>)

  /** What parse_error is given: a parse error, another exception by its str(), a string, or something else. */
  datatype ErrorIn = GivenParseError(err: ParseErr) | OtherException(text: string) | Message(text: string) | NotAnError

  /** The element argument of parse_error: an element, or an object that is not one. */
  datatype ElemArg = Element(id: nat) | NotAnElement

  /** How parse_error ends. */
  datatype ParseOutcome = Dropped | Collected(error: ParseErr) | Thrown(error: ParseErr)
                        | BadArgument(kind: ArgError)

  predicate IsQuote(c: char) { c == '\'' || c == '"' }

  /** str.lstrip('\'"'). */
  function LStripQuotes(s: string): (r: string)
    ensures |r| <= |s| && r == s[|s| - |r|..]
    ensures r == [] || !IsQuote(r[0])
    ensures forall i :: 0 <= i < |s| - |r| ==> IsQuote(s[i])
  {
    if s == [] || !IsQuote(s[0]) then s else LStripQuotes(s[1..])
  }

  /** str.rstrip('\'"'). */
  function RStripQuotes(s: string): (r: string)
    ensures |r| <= |s| && r == s[..|r|]
    ensures r == [] || !IsQuote(r[|r| - 1])
    ensures forall i :: |r| <= i < |s| ==> IsQuote(s[i])
  {
    if s == [] || !IsQuote(s[|s| - 1]) then s else RStripQuotes(s[..|s| - 1])
  }

  /** str.strip('\'"'): drops the quote characters at both ends. */
  function StripQuotes(s: string): (r: string)
    ensures |r| <= |s|
    ensures r == [] || (!IsQuote(r[0]) && !IsQuote(r[|r| - 1]))
  {
    RStripQuotes(LStripQuotes(s))
  }

  /**
   * The message parse_error takes from an exception, as written: stripped, then unquoted
   * when its first and last characters are the same quote. An empty or blank message
   * indexes past its end.
   */
  function UnquoteAsWritten(text: string): (r: Result<string, ()>)
    ensures r.Err? <==> Strip(text) == []
    ensures r.Ok? ==> |r.value| <= |text|
  {
    var m := Strip(text);
    if m == [] then Err(())
    else if IsQuote(m[0]) && m[0] == m[|m| - 1] then Ok(StripQuotes(m))
    else Ok(m)
  }

  /** The exception of an empty ValueError() makes parse_error fail instead of recording it. */
  lemma UnquoteEmptyFails()
    ensures UnquoteAsWritten("").Err? && UnquoteAsWritten("  ").Err?
  {
    assert Strip("  ") == [] by {
      assert IsSpace(' ');
      assert "  "[1..] == " " && " "[1..] == "";
      assert LStrip("  ") == LStrip(" ") == LStrip("") == "";
    }
  }

  /** The message taken from an exception: a blank message stays empty. */
  function Unquote(text: string): (r: string)
    ensures UnquoteAsWritten(text).Ok? ==> r == UnquoteAsWritten(text).value
    ensures |r| <= |text|
  {
    match UnquoteAsWritten(text)
    case Ok(m) => m
    case Err(_) => []
  }

  /** A message wrapped in one pair of quotes is the text inside them. */
  lemma UnquoteWrapped(inner: string, q: char)
    requires IsQuote(q) && inner != [] && !IsQuote(inner[0]) && !IsQuote(inner[|inner| - 1])
    requires !IsSpace(inner[0]) && !IsSpace(inner[|inner| - 1])
    ensures Unquote([q] + inner + [q]) == inner
  {
    var s := [q] + inner + [q];
    assert LStrip(s) == s;
    assert RStrip(s) == s;
    assert s[1..] == inner + [q];
    assert (inner + [q])[..|inner|] == inner;
    assert LStripQuotes(s) == inner + [q];
    assert RStripQuotes(inner + [q]) == RStripQuotes(inner) == inner;
  }

  /**
   * The outcome of parse_error(error, elem, validation) on a validator whose own mode is `own`
   * and whose element is `ownElem`. A given mode is checked first; skip mode then drops the
   * error before any other argument is looked at.
   */
  function ParseOutcomeOf(own: Mode, ownElem: Option<nat>, error: ErrorIn, elem: Option<ElemArg>, validation: Option<PyArg>): (r: ParseOutcome)
    ensures validation.Some? && CheckValidationMode(validation.value).Err? ==>
              r == BadArgument(CheckValidationMode(validation.value).error)
    ensures validation.None? && own == Skip ==> r == Dropped
    ensures r.Collected? ==> (validation.None? && own == Lax) || validation == Some(PyStr("lax"))
    ensures r.Thrown? ==> (validation.None? && own == Strict) || validation == Some(PyStr("strict"))
    ensures r.Collected? || r.Thrown? ==>
              r.error.elem == (if error.GivenParseError? && error.err.elem.Some? then error.err.elem
                               else if elem.Some? && elem.value.Element? then Some(elem.value.id) else ownElem)
    ensures r == BadArgument(TypeError) && validation.None? ==> error.NotAnError? || elem == Some(NotAnElement)
  {
    var m := if validation.None? then Ok(own) else CheckValidationMode(validation.value);
    if m.Err? then BadArgument(m.error)
    else if m.value == Skip then Dropped
    else if elem == Some(NotAnElement) then BadArgument(TypeError)
    else
      var e := if elem.None? then ownElem else Some(elem.value.id);
      var err := match error
        case GivenParseError(p) => Some(if p.elem.None? then p.(elem := e) else p)
        case OtherException(text) => Some(ParseErr(Unquote(text), e))
        case Message(text) => Some(ParseErr(text, e))
        case NotAnError => None;
      if err.None? then BadArgument(TypeError)
      else if m.value == Lax then Collected(err.value)
      else
        assert m.value == Strict && ModeName(Strict) == "strict";
        Thrown(err.value)
  }

  /** A validator: its validation mode, the parse errors it collected and its element. */
  class XsdValidator {
    var validation: Mode
    var errors: seq<ParseErr>
    var elem: Option<nat>

    constructor (validation: Mode, elem: Option<nat>)
      ensures this.validation == validation && errors == [] && this.elem == elem
    {
      this.validation := validation;
      errors := [];
      this.elem := elem;
    }

    /**
     * XsdValidator.parse_error: lax mode appends the error, strict mode raises it, skip mode
     * does nothing.
     */
    method ParseError(error: ErrorIn, elem: Option<ElemArg>, validation: Option<PyArg>) returns (r: ParseOutcome)
      modifies this
      ensures r == old(ParseOutcomeOf(this.validation, this.elem, error, elem, validation))
      ensures errors == old(errors) + (if r.Collected? then [r.error] else [])
      ensures this.validation == old(this.validation) && this.elem == old(this.elem)
    {
      r := ParseOutcomeOf(this.validation, this.elem, error, elem, validation);
      if r.Collected? {
        errors := errors + [r.error];
      }
    }

    /**
     * XsdValidator._parse_xpath_default_namespace on the attribute value (None when the
     * attribute is missing); a wrong value is reported and read as ''.
     */
    method ParseXPathDefaultNamespace(value: Option<string>, parent: nat, defaultNamespace: Option<string>, targetNamespace: Option<string>)
      returns (r: string, outcome: Option<ParseOutcome>)
      modifies this
      ensures var x := XPathDefaultNamespace(value, defaultNamespace, targetNamespace);
              r == (if x.Ok? then x.value else "")
              && (outcome.Some? <==> x.Err?)
              && (x.Err? ==> outcome == Some(old(ParseOutcomeOf(validation, this.elem, Message(x.error), Some(Element(parent)), None))))
      ensures errors == old(errors) + (if outcome.Some? && outcome.value.Collected? then [outcome.value.error] else [])
      ensures validation == old(validation) && this.elem == old(this.elem)
    {
      var x := XPathDefaultNamespace(value, defaultNamespace, targetNamespace);
      if x.Ok? {
        return x.value, None;
      }
      var o := ParseError(Message(x.error), Some(Element(parent)), None);
      return "", Some(o);
    }

    /**
     * XsdComponent._parse_child_component over the children of element `parent`: the first
     * child that is not an annotation (nor a comment or processing instruction). In strict
     * mode a second such child is reported, at its position.
     */
    method ParseChildComponent(parent: nat, children: seq<XChild>, strict: bool) returns (child: Option<nat>, outcome: Option<ParseOutcome>)
      modifies this
      ensures child == FirstComponent(children, 0)
      ensures child.Some? ==> child.value < |children| && !children[child.value].annotation
      ensures outcome.Some? <==> strict && child.Some? && FirstComponent(children, child.value + 1).Some?
      ensures outcome.Some? ==>
                var second := FirstComponent(children, child.value + 1).value;
                outcome == Some(old(ParseOutcomeOf(validation, this.elem,
                                   Message(TooManyComponents(children[child.value].tag, second)), Some(Element(parent)), None)))
      ensures errors == old(errors) + (if outcome.Some? && outcome.value.Collected? then [outcome.value.error] else [])
      ensures validation == old(validation) && this.elem == old(this.elem)
    {
      child, outcome := None, None;
      var i := 0;
      while i < |children|
        invariant 0 <= i <= |children|
        invariant child.None? ==> FirstComponent(children, 0) == FirstComponent(children, i)
        invariant child.Some? ==> child == FirstComponent(children, 0) && child.value < i
        invariant child.Some? ==> strict && FirstComponent(children, child.value + 1) == FirstComponent(children, i)
        invariant outcome.None? && errors == old(errors) && validation == old(validation) && this.elem == old(this.elem)
        decreases |children| - i
      {
        if children[i].annotation {
          i := i + 1;
        } else if !strict {
          return Some(i), None;
        } else if child.Some? {
          var o := ParseError(Message(TooManyComponents(children[child.value].tag, i)), Some(Element(parent)), None);
          return child, Some(o);
        } else {
          child := Some(i);
          i := i + 1;
        }
      }
    }
  }

  /**
   * The namespace an xpathDefaultNamespace value stands for: '##local' is no namespace, the
   * two other keywords the validator's default and target namespaces (read as '' when they
   * are not strings), and a value of one token itself; anything else is an error message.
   */
  function XPathDefaultNamespace(value: Option<string>, defaultNamespace: Option<string>, targetNamespace: Option<string>): (r: Result<string, string>)
    ensures value.None? ==> r == Ok("")
    ensures value.Some? && Strip(value.value) == "##local" ==> r == Ok("")
    ensures value.Some? && Strip(value.value) == "##defaultNamespace" ==> r == Ok(defaultNamespace.GetOr(""))
    ensures value.Some? && Strip(value.value) == "##targetNamespace" ==> r == Ok(targetNamespace.GetOr(""))
    ensures value.Some? && Strip(value.value) !in {"##local", "##defaultNamespace", "##targetNamespace"} ==>
              (r.Ok? <==> |Words(Strip(value.value))| == 1) && (r.Ok? ==> r.value == Strip(value.value))
  {
    if value.None? then Ok("")
    else
      var v := Strip(value.value);
      if v == "##local" then Ok("")
      else if v == "##defaultNamespace" then Ok(defaultNamespace.GetOr(""))
      else if v == "##targetNamespace" then Ok(targetNamespace.GetOr(""))
      else if |Words(v)| == 1 then Ok(v)
      else Err("wrong value '" + v + "' for 'xpathDefaultNamespace' attribute, can be (anyURI | ##defaultNamespace | ##targetNamespace | ##local).")
  }

  /** A URI of one token, surrounding blanks aside, is taken as it is; a blank value is an error. */
  lemma XPathDefaultNamespaceOfUri(uri: string, dns: Option<string>, tns: Option<string>)
    requires uri != [] && NoSpace(uri) && uri !in {"##local", "##defaultNamespace", "##targetNamespace"}
    ensures XPathDefaultNamespace(Some(uri), dns, tns) == Ok(uri)
  {
    assert LStrip(uri) == uri;
    assert RStrip(uri) == uri;
    WordsOfToken(uri);
  }

  /** A blank value names no namespace and is an error. */
  lemma XPathDefaultNamespaceOfBlank(dns: Option<string>, tns: Option<string>)
    ensures XPathDefaultNamespace(Some(" "), dns, tns).Err?
  {
    assert LStrip(" ") == LStrip("");
    WordsOfToken("");
  }

  /** A child of an element, by its tag, and whether it is an annotation, comment or processing instruction. */
  datatype XChild = XChild(tag: string, annotation: bool)

  /** The index of the first child from i on that is a component. */
  function FirstComponent(children: seq<XChild>, i: nat): (r: Option<nat>)
    requires i <= |children|
    ensures r.Some? ==> i <= r.value < |children| && !children[r.value].annotation
    ensures r.Some? ==> forall j :: i <= j < r.value ==> children[j].annotation
    ensures r.None? ==> forall j :: i <= j < |children| ==> children[j].annotation
    decreases |children| - i
  {
    if i == |children| then None
    else if !children[i].annotation then Some(i)
    else FirstComponent(children, i + 1)
  }

  /** The decimal digits of n. */
  function NatStr(n: nat): (r: string)
    ensures r != [] && forall i :: 0 <= i < |r| ==> '0' <= r[i] <= '9'
  {
    var d := ['0', '1', '2', '3', '4', '5', '6', '7', '8', '9'][n % 10];
    if n < 10 then [d] else NatStr(n / 10) + [d]
  }

  /** The message of a second component: it names the first one and the second one's position. */
  function TooManyComponents(firstTag: string, position: nat): string
  {
    "too many XSD components, unexpected '" + firstTag + "' found at position " + NatStr(position)
  }

  // ---- names and the component tree ----

  /**
   * XsdComponent.is_matching: the component's name is the name given, or the name is a local
   * one (not starting with '{') that the non-empty default namespace completes to it. A
   * missing name matches a component without a name.
   */
  function ComponentIsMatching(selfName: Option<string>, name: Option<string>, defaultNamespace: Option<string>): (r: bool)
  {
    selfName == name
    || (defaultNamespace.Some? && defaultNamespace.value != "" && name.Some? && name.value != ""
        && name.value[0] != '{' && selfName == Some("{" + defaultNamespace.value + "}" + name.value))
  }

  /** A qualified name matches only itself; a local name matches itself or its completion. */
  lemma ComponentIsMatchingCases(selfName: Option<string>, name: string, ns: string)
    ensures name != [] && name[0] == '{' ==> (ComponentIsMatching(selfName, Some(name), Some(ns)) <==> selfName == Some(name))
    ensures ns != [] && name != [] && name[0] != '{' ==>
              (ComponentIsMatching(selfName, Some(name), Some(ns)) <==> selfName == Some(name) || selfName == Some("{" + ns + "}" + name))
    ensures ComponentIsMatching(selfName, Some(name), None) <==> selfName == Some(name)
  {
  }

  /** XsdComponent.match: the component itself when it is matching, else nothing. */
  function ComponentMatch<C>(c: C, selfName: Option<string>, name: Option<string>, defaultNamespace: Option<string>): (r: Option<C>)
    ensures r.Some? <==> ComponentIsMatching(selfName, name, defaultNamespace)
    ensures r.Some? ==> r.value == c
  {
    if ComponentIsMatching(selfName, name, defaultNamespace) then Some(c) else None
  }

  /** The k-th parent of component c, when the chain is that long. */
  function Ancestor(parent: map<nat, nat>, c: nat, k: nat): (r: Option<nat>)
    decreases k
  {
    if k == 0 then Some(c) else if c in parent then Ancestor(parent, parent[c], k - 1) else None
  }

  lemma {:induction false} AncestorStep(parent: map<nat, nat>, c: nat, k: nat)
    requires Ancestor(parent, c, k).Some? && Ancestor(parent, c, k).value in parent
    ensures Ancestor(parent, c, k + 1) == Some(parent[Ancestor(parent, c, k).value])
    decreases k
  {
    if k > 0 {
      AncestorStep(parent, parent[c], k - 1);
    }
  }

  lemma {:induction false} AncestorPastRoot(parent: map<nat, nat>, c: nat, k: nat, j: nat)
    requires Ancestor(parent, c, k).Some? && Ancestor(parent, c, k).value !in parent && j > k
    ensures Ancestor(parent, c, j).None?
    decreases k
  {
    if k > 0 {
      AncestorPastRoot(parent, parent[c], k - 1, j - 1);
    }
  }

  /** A chain of parents has at most one top: the component get_global returns is the topmost one. */
  lemma {:induction false} TopIsUnique(parent: map<nat, nat>, c: nat, k1: nat, k2: nat)
    requires Ancestor(parent, c, k1).Some? && Ancestor(parent, c, k1).value !in parent
    requires Ancestor(parent, c, k2).Some? && Ancestor(parent, c, k2).value !in parent
    ensures k1 == k2 && Ancestor(parent, c, k1) == Ancestor(parent, c, k2)
  {
    if k1 < k2 {
      AncestorPastRoot(parent, c, k1, k2);
    } else if k2 < k1 {
      AncestorPastRoot(parent, c, k2, k1);
    }
  }

  /** The parents of c's k-th parent are c's later parents. */
  lemma {:induction false} AncestorAdd(parent: map<nat, nat>, c: nat, a: nat, b: nat)
    requires Ancestor(parent, c, a).Some?
    ensures Ancestor(parent, c, a + b) == Ancestor(parent, Ancestor(parent, c, a).value, b)
    decreases a
  {
    if a > 0 {
      AncestorAdd(parent, parent[c], a - 1, b);
    }
  }

  /** A chain that comes back to c after n steps, all with parents, never reaches a top. */
  lemma {:induction false} CycleHasNoTop(parent: map<nat, nat>, c: nat, n: nat, k: nat)
    requires n > 0 && Ancestor(parent, c, n) == Some(c)
    requires forall j :: 0 <= j < n ==> Ancestor(parent, c, j).Some? && Ancestor(parent, c, j).value in parent
    ensures Ancestor(parent, c, k).Some? && Ancestor(parent, c, k).value in parent
    decreases k
  {
    if k >= n {
      AncestorAdd(parent, c, n, k - n);
      assert n + (k - n) == k;
      CycleHasNoTop(parent, c, n, k - n);
    }
  }

  /** Why get_global fails: the chain returns to the component, or it cycles elsewhere and the source never ends. */
  datatype GlobalError = Circularity | Diverges

  /**
   * XsdComponent.get_global over the parent links: a component without a parent is its own
   * global component; otherwise the parents are followed up to one without a parent, which
   * is the only top of the chain (TopIsUnique). Meeting the component again is a
   * circularity error. More steps than there are parent links without reaching a top mean a
   * cycle away from the component, on which the source loops forever.
   */
  method GetGlobal(parent: map<nat, nat>, self: nat) returns (r: Result<nat, GlobalError>)
    ensures r.Ok? ==> r.value !in parent && exists k :: Ancestor(parent, self, k) == Some(r.value)
    ensures self !in parent ==> r == Ok(self)
    ensures r == Err(Circularity) ==> exists k :: k > 0 && Ancestor(parent, self, k) == Some(self)
    ensures r == Err(Diverges) ==> forall k :: 0 < k <= |parent| ==> Ancestor(parent, self, k) != Some(self)
    ensures r.Err? ==> forall k :: 0 <= k <= |parent| ==> Ancestor(parent, self, k).Some? && Ancestor(parent, self, k).value in parent
  {
    if self !in parent {
      assert Ancestor(parent, self, 0) == Some(self);
      return Ok(self);
    }
    var component := parent[self];
    var steps := 1;
    assert Ancestor(parent, self, 1) == Ancestor(parent, component, 0);
    while component != self
      invariant 1 <= steps <= |parent|
      invariant Ancestor(parent, self, steps) == Some(component)
      invariant forall j :: 0 <= j < steps ==> Ancestor(parent, self, j).Some? && Ancestor(parent, self, j).value in parent
      invariant forall j :: 0 < j < steps ==> Ancestor(parent, self, j) != Some(self)
      decreases |parent| - steps
    {
      if component !in parent {
        return Ok(component);
      }
      if steps == |parent| {
        return Err(Diverges);
      }
      AncestorStep(parent, self, steps);
      component := parent[component];
      steps := steps + 1;
    }
    forall k | 0 <= k <= |parent|
      ensures Ancestor(parent, self, k).Some? && Ancestor(parent, self, k).value in parent
    {
      CycleHasNoTop(parent, self, steps, k);
    }
    return Err(Circularity);
  }
}
