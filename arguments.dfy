// Validated, set-once arguments and options of the resource and schema classes: a descriptor
// validates a value the first time it is set and refuses to change or delete it.
module Arguments {
  import opened Wrappers

  /** The Python values the validators distinguish. bool is a subclass of int. */
  datatype PyVal = PNone | PBool(b: bool) | PInt(i: int) | PStr(s: string) | PCallable | POther

  /** The types validate_type checks against. */
  datatype PyType = TBool | TInt | TStr

  /** The errors the descriptors raise. */
  datatype ArgError = AttributeError(message: string) | TypeError | ValueError

  /** isinstance(value, t): a bool is also an int. */
  predicate IsInstance(v: PyVal, t: PyType)
  {
    match t
    case TBool => v.PBool?
    case TInt => v.PInt? || v.PBool?
    case TStr => v.PStr?
  }

  /** The integer value of an int or a bool. */
  function IntOf(v: PyVal): int
    requires v.PInt? || v.PBool?
  {
    if v.PInt? then v.i else if v.b then 1 else 0
  }

  /** Python's == on these values: True == 1 and False == 0. */
  predicate PyEq(a: PyVal, b: PyVal)
  {
    if (a.PInt? || a.PBool?) && (b.PInt? || b.PBool?) then IntOf(a) == IntOf(b) else a == b
  }

  /**
   * validate_type(value, types, none, call): None when allowed, an instance of one of the
   * types, or a callable when allowed, passes; with no types and neither flag anything passes;
   * everything else is a type error.
   */
  function ValidateType(value: PyVal, types: Option<seq<PyType>>, none: bool, call: bool): (r: Result<(), ArgError>)
    ensures r.Err? ==> r.error == TypeError
    ensures r.Ok? <==>
              (none && value.PNone?)
              || (types.Some? && exists k :: 0 <= k < |types.value| && IsInstance(value, types.value[k]))
              || (call && value.PCallable?)
              || (types.None? && !none && !call)
  {
    if (none && value.PNone?) || (types.Some? && exists k :: 0 <= k < |types.value| && IsInstance(value, types.value[k]))
       || (call && value.PCallable?) then Ok(())
    else if types.None? && !none && !call then Ok(())
    else Err(TypeError)
  }

  /** validate_choice: a value error iff the value equals none of the choices. */
  function ValidateChoice(value: PyVal, choices: seq<PyVal>): (r: Result<(), ArgError>)
    ensures r.Ok? <==> exists k :: 0 <= k < |choices| && PyEq(value, choices[k])
    ensures r.Err? ==> r.error == ValueError
  {
    if exists k :: 0 <= k < |choices| && PyEq(value, choices[k]) then Ok(()) else Err(ValueError)
  }

  /**
   * validate_minimum: a value error iff the value is below the minimum. Comparing a value that
   * is not a number with an int is a type error.
   */
  function ValidateMinimum(value: PyVal, min: int): (r: Result<(), ArgError>)
    ensures (value.PInt? || value.PBool?) ==> (r.Ok? <==> IntOf(value) >= min) && (r.Err? ==> r.error == ValueError)
    ensures !(value.PInt? || value.PBool?) ==> r == Err(TypeError)
  {
    if !(value.PInt? || value.PBool?) then Err(TypeError)
    else if IntOf(value) < min then Err(ValueError)
    else Ok(())
  }

  /** One of the validators an argument runs, with its bound parameters. */
  datatype Validator = TypeCheck(types: Option<seq<PyType>>, none: bool, call: bool)
                     | ChoiceCheck(choices: seq<PyVal>)
                     | MinimumCheck(min: int)

  function Run(v: Validator, value: PyVal): Result<(), ArgError>
  {
    match v
    case TypeCheck(types, none, call) => ValidateType(value, types, none, call)
    case ChoiceCheck(choices) => ValidateChoice(value, choices)
    case MinimumCheck(min) => ValidateMinimum(value, min)
  }

  /** The outcome of the validators from i on: the first error, or success. */
  function RunFrom(vs: seq<Validator>, i: nat, value: PyVal): (r: Result<(), ArgError>)
    requires i <= |vs|
    ensures r.Ok? <==> forall k :: i <= k < |vs| ==> Run(vs[k], value).Ok?
    ensures r.Err? ==> exists k :: i <= k < |vs| && Run(vs[k], value) == r
    decreases |vs| - i
  {
    if i == |vs| then Ok(())
    else if Run(vs[i], value).Err? then Run(vs[i], value)
    else RunFrom(vs, i + 1, value)
  }

  /**
   * An argument descriptor: the attribute name it is bound to, its default when it is an
   * Option, and the validators of its class.
   */
  datatype Argument = Argument(name: string, default: Option<PyVal>, validators: seq<Validator>)

  /** The private attribute __set_name__ gives the value. */
  function Slot(a: Argument): string { "_" + a.name }

  /** str(argument): an Option is an optional argument. */
  function Describe(a: Argument): string
  {
    (if a.default.Some? then "optional argument '" else "argument '") + a.name + "'"
  }

  /** Argument.validated_value: the validators in order, the first error raised. */
  method ValidatedValue(a: Argument, value: PyVal) returns (r: Result<PyVal, ArgError>)
    ensures r.Ok? <==> forall k :: 0 <= k < |a.validators| ==> Run(a.validators[k], value).Ok?
    ensures r.Ok? ==> r.value == value
    ensures r.Err? ==> r.error == RunFrom(a.validators, 0, value).error
  {
    var i := 0;
    while i < |a.validators|
      invariant 0 <= i <= |a.validators|
      invariant RunFrom(a.validators, 0, value) == RunFrom(a.validators, i, value)
      decreases |a.validators| - i
    {
      var e := Run(a.validators[i], value);
      if e.Err? {
        return Err(e.error);
      }
      i := i + 1;
    }
    return Ok(value);
  }

  /** TimeOutOption: a timeout is an int of at least one. */
  function TimeoutOption(default: PyVal): Argument
  {
    Argument("timeout", Some(default), [MinimumCheck(1)])
  }

  /** LazyOption: lazy is a bool or an int, and not negative. */
  function LazyOption(default: PyVal): Argument
  {
    Argument("lazy", Some(default), [TypeCheck(Some([TBool, TInt]), false, false), MinimumCheck(0)])
  }

  /** A timeout is accepted iff it is a number of at least one; a non-number is a type error. */
  lemma TimeoutAccepts(d: PyVal, v: PyVal)
    ensures RunFrom(TimeoutOption(d).validators, 0, v).Ok? <==> (v.PInt? || v.PBool?) && IntOf(v) >= 1
    ensures !(v.PInt? || v.PBool?) ==> RunFrom(TimeoutOption(d).validators, 0, v) == Err(TypeError)
  {
    var vs := TimeoutOption(d).validators;
    assert RunFrom(vs, 1, v) == Ok(());
  }

  /** lazy is accepted iff it is a bool or a non-negative int; anything else is a type error. */
  lemma LazyAccepts(d: PyVal, v: PyVal)
    ensures RunFrom(LazyOption(d).validators, 0, v).Ok? <==> (v.PInt? || v.PBool?) && IntOf(v) >= 0
    ensures !(v.PInt? || v.PBool?) ==> RunFrom(LazyOption(d).validators, 0, v) == Err(TypeError)
  {
    var vs := LazyOption(d).validators;
    assert RunFrom(vs, 2, v) == Ok(());
    assert !(v.PInt? || v.PBool?) ==> !IsInstance(v, TBool) && !IsInstance(v, TInt);
    assert (v.PInt? || v.PBool?) ==> IsInstance(v, vs[0].types.value[1]);
  }

  /** An object whose attributes the descriptors of its class store their values in. */
  class Instance {
    var attrs: map<string, PyVal>

    constructor ()
      ensures attrs == map[]
    {
      attrs := map[];
    }

    /**
     * Argument.__get__ on an instance: the value once set, else the default of an Option,
     * else an error saying the argument has not been set.
     */
    function Get(a: Argument): (r: Result<PyVal, ArgError>)
      reads this
      ensures Slot(a) in attrs ==> r == Ok(attrs[Slot(a)])
      ensures Slot(a) !in attrs && a.default.Some? ==> r == Ok(a.default.value)
      ensures Slot(a) !in attrs && a.default.None? ==> r.Err? && r.error.AttributeError?
    {
      if Slot(a) in attrs then Ok(attrs[Slot(a)])
      else if a.default.Some? then Ok(a.default.value)
      else Err(AttributeError(Describe(a) + " of object has not been set"))
    }

    /**
     * Argument.__set__: an argument already set cannot change; otherwise the value is
     * validated and stored.
     */
    method Set(a: Argument, value: PyVal) returns (r: Result<(), ArgError>)
      modifies this
      ensures old(Slot(a) in attrs) ==> r == Err(AttributeError("can't change " + Describe(a))) && attrs == old(attrs)
      ensures !old(Slot(a) in attrs) ==>
                (r.Ok? <==> RunFrom(a.validators, 0, value).Ok?)
                && (r.Err? ==> r == RunFrom(a.validators, 0, value) && attrs == old(attrs))
                && (r.Ok? ==> attrs == old(attrs)[Slot(a) := value])
    {
      if Slot(a) in attrs {
        return Err(AttributeError("can't change " + Describe(a)));
      }
      var v := ValidatedValue(a, value);
      if v.Err? {
        return Err(v.error);
      }
      attrs := attrs[Slot(a) := v.value];
      return Ok(());
    }

    /** Argument.__delete__: an argument can never be deleted. */
    method Delete(a: Argument) returns (r: Result<(), ArgError>)
      ensures r == Err(AttributeError("can't delete " + Describe(a)))
    {
      return Err(AttributeError("can't delete " + Describe(a)));
    }
  }

  /** Argument.__get__ on the class: the default of an Option, else an error. */
  function ClassGet(a: Argument): (r: Result<PyVal, ArgError>)
    ensures r.Ok? <==> a.default.Some?
    ensures r.Ok? ==> r.value == a.default.value
  {
    if a.default.Some? then Ok(a.default.value)
    else Err(AttributeError(Describe(a) + " can't be accessed from the class"))
  }

  /** Set-once: after a first successful set, the value reads back and a second set fails. */
  method SetTwice(inst: Instance, a: Argument, first: PyVal, second: PyVal) returns (r1: Result<(), ArgError>, r2: Result<(), ArgError>)
    requires Slot(a) !in inst.attrs
    modifies inst
    ensures r1.Ok? ==> r2.Err? && inst.Get(a) == Ok(first)
  {
    r1 := inst.Set(a, first);
    r2 := inst.Set(a, second);
  }
}
