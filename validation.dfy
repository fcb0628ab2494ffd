// Validation modes and the context of a validated decoding or encoding: how an
// error is raised, collected or dropped, and the status a context keeps.
module Validation {
  import opened Wrappers
  import opened Strs

  /** The three XML Schema validation modes. */
  datatype Mode = Strict | Lax | Skip

  function ModeName(m: Mode): string
  {
    match m
    case Strict => "strict"
    case Lax => "lax"
    case Skip => "skip"
  }

  /** A Python argument given where a mode is expected: a string, or any other object. */
  datatype PyArg = PyStr(s: string) | PyNonStr

  /** The Python exceptions raised by the argument checks of the validators. */
  datatype ArgError = TypeError | ValueError

  /** check_validation_mode: a type error for a non-string, a value error outside the three names. */
  function CheckValidationMode(v: PyArg): (r: Result<Mode, ArgError>)
    ensures v.PyNonStr? ==> r == Err(TypeError)
    ensures v.PyStr? ==> (r.Ok? <==> v.s in {"strict", "lax", "skip"})
    ensures v.PyStr? && r.Err? ==> r.error == ValueError
    ensures r.Ok? ==> v == PyStr(ModeName(r.value))
  {
    match v
    case PyNonStr => Err(TypeError)
    case PyStr(s) =>
      if s == "strict" then Ok(Strict)
      else if s == "lax" then Ok(Lax)
      else if s == "skip" then Ok(Skip)
      else Err(ValueError)
  }

  /** Every mode is accepted under its own name. */
  lemma ModeNameAccepted(m: Mode)
    ensures CheckValidationMode(PyStr(ModeName(m))) == Ok(m)
  {
  }

  /**
   * A validation error: its reason, the encoded form of the object it is about (None when
   * there is none), the element it is about, and for a children error the child index.
   */
  datatype VError = VError(reason: Option<string>, obj: Option<string>, elem: Option<nat>, index: Option<nat>)

  /** raw_encode_value(obj) written with !r: the repr of the encoded object. */
  function ObjRepr(obj: Option<string>): string
  {
    if obj.None? then "None" else "'" + obj.value + "'"
  }

  /**
   * The reason of an error raised while an attribute is decoded: prefixed by the attribute
   * and its value, unless it already starts with 'attribute '.
   */
  function AttributeReason(reason: Option<string>, attribute: Option<string>, obj: Option<string>): (r: Option<string>)
    ensures r.None? <==> reason.None?
    ensures attribute.None? || reason.None? || StartsWith(reason.value, "attribute ") ==> r == reason
    ensures r.Some? && r != reason ==> StartsWith(r.value, "attribute ")
  {
    if attribute.Some? && reason.Some? && !StartsWith(reason.value, "attribute ") then
      var p := "attribute " + attribute.value + "=" + ObjRepr(obj) + ": " + reason.value;
      assert p[..10] == "attribute ";
      Some(p)
    else reason
  }

  /** The prefix is added once: preparing a prepared reason again changes nothing. */
  lemma AttributeReasonOnce(reason: Option<string>, attribute: Option<string>, obj: Option<string>)
    ensures AttributeReason(AttributeReason(reason, attribute, obj), attribute, obj) == AttributeReason(reason, attribute, obj)
  {
  }

  /** How raise_or_collect and its callers end: the error raised, or returned to the caller. */
  datatype Outcome = Raised(error: VError) | Returned(error: VError)

  /** An error built from a reason (validation_error with a string) or given ready-made. */
  datatype ErrorArg = Reason(text: string) | Ready(error: VError)

  /**
   * The status of a validated decoding or encoding. The id map and the identity counters are
   * kept as counts, an element as its identity, and the attribute being decoded in the
   * prefixed form the error messages show.
   */
  class ValidationContext {
    var validation: Mode
    var errors: seq<VError>
    var idMap: map<string, nat>
    var identities: map<nat, nat>
    var inherited: map<string, string>
    var level: int
    var elem: Option<nat>
    var attribute: Option<string>
    var idList: Option<seq<string>>
    var patterns: Option<nat>

    /** ValidationContext(validation, level, elem, errors) once the mode has passed its check. */
    constructor (validation: Mode, level: int, elem: Option<nat>, errors: seq<VError>)
      ensures this.validation == validation && this.level == level && this.elem == elem
      ensures this.errors == errors && idMap == map[] && identities == map[] && inherited == map[]
      ensures attribute.None? && idList.None? && patterns.None?
    {
      this.validation := validation;
      this.errors := errors;
      idMap := map[];
      identities := map[];
      inherited := map[];
      this.level := level;
      this.elem := elem;
      attribute := None;
      idList := None;
      patterns := None;
    }

    /** The error as raise_or_collect completes it: the context element, the attribute prefix. */
    function Prepared(error: VError): (r: VError)
      reads this
      ensures r.obj == error.obj && r.index == error.index
      ensures r.elem == (if error.elem.None? then elem else error.elem)
      ensures r.reason == AttributeReason(error.reason, attribute, error.obj)
    {
      var e := if error.elem.None? && elem.Some? then error.(elem := elem) else error;
      e.(reason := AttributeReason(error.reason, attribute, error.obj))
    }

    /**
     * ValidationContext.raise_or_collect: the completed error is raised in strict mode,
     * appended to the errors in lax mode and only returned in skip mode.
     */
    method RaiseOrCollect(validation: Mode, error: VError) returns (r: Outcome)
      modifies this
      ensures r == (if validation == Strict then Raised(old(Prepared(error))) else Returned(old(Prepared(error))))
      ensures errors == old(errors) + (if validation == Lax then [old(Prepared(error))] else [])
      ensures this.validation == old(this.validation) && idMap == old(idMap) && identities == old(identities)
      ensures inherited == old(inherited) && level == old(level) && elem == old(elem)
      ensures attribute == old(attribute) && idList == old(idList) && patterns == old(patterns)
    {
      var e := Prepared(error);
      if validation == Strict {
        return Raised(e);
      }
      if validation == Lax {
        errors := errors + [e];
      }
      return Returned(e);
    }

    /**
     * ValidationContext.validation_error: a reason becomes a new error about obj; a ready
     * error gets obj only when it has none. Then raise_or_collect.
     */
    method ValidationError(validation: Mode, error: ErrorArg, obj: Option<string>) returns (r: Outcome)
      modifies this
      ensures r.error == old(Prepared(WithObj(error, obj)))
      ensures r.Raised? <==> validation == Strict
      ensures errors == old(errors) + (if validation == Lax then [r.error] else [])
      ensures this.validation == old(this.validation) && idMap == old(idMap) && identities == old(identities)
      ensures inherited == old(inherited) && level == old(level) && elem == old(elem)
      ensures attribute == old(attribute) && idList == old(idList) && patterns == old(patterns)
    {
      r := RaiseOrCollect(validation, WithObj(error, obj));
    }

    /** ValidationContext.clear: every status field back to its initial value. */
    method Clear()
      modifies this
      ensures errors == [] && idMap == map[] && identities == map[] && inherited == map[]
      ensures level == 0 && elem.None? && attribute.None? && idList.None? && patterns.None?
      ensures validation == old(validation)
    {
      errors := [];
      idMap := map[];
      identities := map[];
      inherited := map[];
      level := 0;
      elem := None;
      attribute := None;
      idList := None;
      patterns := None;
    }

    /** ValidationContext.__copy__: a new context with the same status in containers of its own. */
    method Copy() returns (c: ValidationContext)
      ensures fresh(c) && c != this
      ensures c.validation == validation && c.errors == errors && c.idMap == idMap
      ensures c.identities == identities && c.inherited == inherited && c.level == level
      ensures c.elem == elem && c.attribute == attribute && c.idList == idList && c.patterns == patterns
    {
      c := new ValidationContext(validation, level, elem, errors);
      c.idMap, c.identities, c.inherited := idMap, identities, inherited;
      c.attribute, c.idList, c.patterns := attribute, idList, patterns;
    }
  }

  /** The error validation_error hands to raise_or_collect. */
  function WithObj(error: ErrorArg, obj: Option<string>): (r: VError)
    ensures error.Reason? ==> r.reason == Some(error.text) && r.obj == obj && r.elem.None? && r.index.None?
    ensures error.Ready? && (error.error.obj.Some? || obj.None?) ==> r == error.error
    ensures error.Ready? && error.error.obj.None? && obj.Some? ==> r == error.error.(obj := obj)
  {
    match error
    case Reason(text) => VError(Some(text), obj, None, None)
    case Ready(e) => if e.obj.None? && obj.Some? then e.(obj := obj) else e
  }

  /**
   * ValidationContext.children_validation_error: the error about child `index` of element
   * `elem` is raised or collected like any other. The reason built from the particle, the
   * occurrences and the expected elements is given.
   */
  method ChildrenValidationError(ctx: ValidationContext, validation: Mode, elem: nat, index: nat, reason: string)
    returns (r: Outcome)
    modifies ctx
    ensures r.error.elem == Some(elem) && r.error.index == Some(index) && r.error.obj.None?
    ensures r.error.reason == AttributeReason(Some(reason), old(ctx.attribute), None)
    ensures r.Raised? <==> validation == Strict
    ensures ctx.errors == old(ctx.errors) + (if validation == Lax then [r.error] else [])
  {
    r := ctx.RaiseOrCollect(validation, VError(Some(reason), None, Some(elem), Some(index)));
  }

  /** A context used as a copy source is not changed by what is done to the copy. */
  method CopyIsIndependent(ctx: ValidationContext, e: VError) returns (c: ValidationContext)
    modifies ctx
    ensures c.errors == old(ctx.errors) + [old(ctx.Prepared(e))]
    ensures ctx.errors == old(ctx.errors)
  {
    c := ctx.Copy();
    var _ := c.RaiseOrCollect(Lax, e);
  }

  // ---- the encoding context ----

  /** n spaces. */
  function Spaces(n: int): (r: string)
    ensures |r| == (if n > 0 then n else 0)
    ensures forall i :: 0 <= i < |r| ==> r[i] == ' '
    decreases n
  {
    if n <= 0 then "" else Spaces(n - 1) + " "
  }

  /** EncodeContext.padding: a newline, then indent times level spaces. */
  function Padding(indent: int, level: int): (r: string)
    ensures |r| >= 1 && r[0] == '\n'
    ensures |r| == 1 + (if indent * level > 0 then indent * level else 0)
    ensures forall i :: 1 <= i < |r| ==> r[i] == ' '
  {
    "\n" + Spaces(indent * level)
  }

  /** An element of the encoded tree: its text, the children it holds and its tail. */
  class XElement {
    var tag: string
    var text: Option<string>
    var tail: Option<string>
    var children: seq<XElement>

    constructor (tag: string)
      ensures this.tag == tag && text.None? && tail.None? && children == []
    {
      this.tag := tag;
      text := None;
      tail := None;
      children := [];
    }
  }

  /**
   * EncodeContext.set_element_content: with children, the tail of the last child (stripped
   * first when it has one) ends in the padding, an empty or missing text becomes the padding,
   * and the children are appended; without children only the text is set.
   */
  method SetElementContent(elem: XElement, text: Option<string>, children: seq<XElement>, padding: string)
    requires elem !in children
    modifies elem, if children == [] then {} else {children[|children| - 1]}
    ensures children == [] ==> elem.text == text && elem.children == old(elem.children)
    ensures children != [] ==>
              elem.text == (if text.None? || text.value == "" then Some(padding) else text)
              && elem.children == old(elem.children) + children
              && children[|children| - 1].tail
                 == Some(if old(children[|children| - 1].tail).None? then padding
                         else Strip(old(children[|children| - 1].tail).value) + padding)
    ensures elem.tag == old(elem.tag) && elem.tail == old(elem.tail)
    ensures children != [] ==>
              var last := children[|children| - 1];
              last.tag == old(last.tag) && last.text == old(last.text) && last.children == old(last.children)
  {
    if children != [] {
      var last := children[|children| - 1];
      if last.tail.None? {
        last.tail := Some(padding);
      } else {
        last.tail := Some(Strip(last.tail.value) + padding);
      }
      elem.text := if text.None? || text.value == "" then Some(padding) else text;
      elem.children := elem.children + children;
    } else {
      elem.text := text;
    }
  }

  /** With children the last tail ends in the padding, whatever it was. */
  lemma LastTailEndsInPadding(tail: Option<string>, padding: string)
    ensures var t := if tail.None? then padding else Strip(tail.value) + padding;
      |t| >= |padding| && t[|t| - |padding|..] == padding
  {
  }
}
