/**
 * `get_filled_type` and its input step `_process_inputs_of_get_filled_type`:
 * the value a TypeVar of a defining supertype takes for a queried class,
 * alias or instance, found by walking the trace from the supertype back down
 * to the queried class and re-basing one position at each step.
 */
module Resolver {
  import opened ClassTable
  import opened Declarations
  import opened Traces

  /** A Python value handed to `get_filled_type`: a type expression or an instance. */
  datatype Operand =
    | TypeOperand(te: TypeExpr)
    | Instance(origClass: Option<TypeExpr>, cls: ClassId)  // `__orig_class__` if set, and `type(obj)`

  /** `type_var_or_position`: a TypeVar or an int (which may be negative). */
  datatype Position = ByTypeVar(tv: TypeVarId) | ByIndex(index: int)

  /** The normalised inputs: queried type, defining supertype, position. */
  datatype Inputs = Inputs(filled: TypeExpr, sup: TypeExpr, index: int)

  /** Where the walk stands: a value found, an error, or still a position. */
  datatype Outcome = Resolved(arg: Arg) | Failed(error: ErrorKind) | Pending(index: int)

  predicate KnownOperand(t: Table, v: Operand) {
    match v
    case TypeOperand(te) => Known(t, te)
    case Instance(oc, c) => c in t && (oc.Some? ==> Known(t, oc.value))
  }

  /** An instance stands for its `__orig_class__` if set, else for its runtime class. */
  function Normalize(v: Operand): TypeExpr {
    match v
    case TypeOperand(te) => te
    case Instance(Some(oc), _) => oc
    case Instance(None, c) => Class(c)
  }

  /**
   * `_process_inputs_of_get_filled_type` without the `from_init` branch:
   * the supertype must be a type expression, and a TypeVar becomes the
   * position of its first occurrence among the supertype's TypeVars.
   */
  function ProcessInputs(t: Table, value: Operand, sup: Operand, pos: Position): (r: Result<Inputs>)
    requires KnownOperand(t, sup)
    ensures r.Err? <==> sup.Instance? || (pos.ByTypeVar? && pos.tv !in TypeVars(t, sup.te))
    ensures r.Err? ==> r.error == if sup.Instance? then NotAType else TypeVarNotDefined
    ensures r.Ok? ==> r.value.filled == Normalize(value) && sup == TypeOperand(r.value.sup)
    ensures r.Ok? && pos.ByIndex? ==> r.value.index == pos.index
    ensures r.Ok? && pos.ByTypeVar? ==>
      var tvs := TypeVars(t, r.value.sup);
      && 0 <= r.value.index < |tvs| && tvs[r.value.index] == pos.tv
      && forall j :: 0 <= j < r.value.index ==> tvs[j] != pos.tv
  {
    var filled := Normalize(value);
    if sup.Instance? then Err(NotAType)
    else match pos
      case ByIndex(i) => Ok(Inputs(filled, sup.te, i))
      case ByTypeVar(v) =>
        match IndexOf(TypeVars(t, sup.te), v)
        case None => Err(TypeVarNotDefined)
        case Some(i) => Ok(Inputs(filled, sup.te, i))
  }

  /** The position of the first orig base whose origin is `next`. */
  function FirstBaseFor(obs: seq<OrigBase>, next: ClassId): (r: Option<nat>)
    ensures r.Some? ==> && r.value < |obs| && GetOrigin(obs[r.value]) == Some(next)
                        && forall j :: 0 <= j < r.value ==> GetOrigin(obs[j]) != Some(next)
    ensures r.None? ==> forall j :: 0 <= j < |obs| ==> GetOrigin(obs[j]) != Some(next)
  {
    if obs == [] then None
    else if GetOrigin(obs[0]) == Some(next) then Some(0)
    else match FirstBaseFor(obs[1..], next)
      case None => None
      case Some(k) => Some(k + 1)
  }

  /**
   * Continue with the position of TypeVar `v` in `tvs` (`tvs.index(v)`),
   * which raises when `v` is absent.
   */
  function Rebase(tvs: seq<TypeVarId>, v: TypeVarId): (r: Outcome)
    ensures !r.Resolved?
    ensures r.Failed? <==> v !in tvs
    ensures r.Failed? ==> r.error == TokenAbsent
    ensures r.Pending? ==> && 0 <= r.index < |tvs| && tvs[r.index] == v
                           && forall j :: 0 <= j < r.index ==> tvs[j] != v
  {
    match IndexOf(tvs, v)
    case None => Failed(TokenAbsent)
    case Some(j) => Pending(j)
  }

  /**
   * One pass of the walk at class `c`, whose successor toward the supertype
   * is `next`. A class with pydantic metadata is handled through its record
   * alone; any other class must pass the "is generic" check, and the orig
   * base whose origin is `next` (if any) supplies the argument at `index`.
   */
  function Step(t: Table, c: ClassId, next: ClassId, index: int): Outcome
    requires c in t
  {
    match t[c].metadata
    case Some(md) =>
      if |md.args| > 0 then
        match PyGet(md.args, index)
        case None => Failed(IndexOutOfRange)
        case Some(a) => if a.Concrete? then Resolved(a) else Rebase(md.parameters, a.tv)
      else Pending(index)
    case None =>
      if !IsGenericClass(t, c) then Failed(NotGeneric)
      else
        var obs := t[c].origBases.value;
        match FirstBaseFor(obs, next)
        case None => Pending(index)
        case Some(k) =>
          var args := GetArgs(obs[k]);
          if |args| < index then Failed(NotEnoughArgs)
          else match PyGet(args, index)
            case None => Failed(IndexOutOfRange)
            case Some(a) => if a.Concrete? then Resolved(a) else Rebase(TypeVars(t, Class(c)), a.tv)
  }

  /**
   * The walk over `trace[n - 1]`, ..., `trace[0]`, from the supertype end
   * back toward the queried class, stopping at the first value or error.
   */
  function Walk(t: Table, trace: seq<ClassId>, n: nat, index: int): Outcome
    requires n < |trace| && forall x :: x in trace ==> x in t
    decreases n
  {
    if n == 0 then Pending(index)
    else match Step(t, trace[n - 1], trace[n], index)
      case Pending(j) => Walk(t, trace, n - 1, j)
      case done => done
  }

  /** After the walk: an unparameterized type leaves the TypeVar undefined. */
  function AfterWalk(filled: TypeExpr, index: int): (r: Result<Arg>)
    ensures r == Err(Undefined) <==> filled.Class?
    ensures r.Err? ==> r.error in {Undefined, NotEnoughArgs, IndexOutOfRange}
    ensures r.Ok? ==> filled.Alias? && r.value in filled.args
    ensures filled.Alias? && 0 <= index < |filled.args| ==> r == Ok(filled.args[index])
  {
    match filled
    case Class(_) => Err(Undefined)
    case Alias(_, args) =>
      if |args| < index then Err(NotEnoughArgs)
      else match PyGet(args, index)
        case None => Err(IndexOutOfRange)
        case Some(a) => Ok(a)
  }

  function Conclude(o: Outcome, filled: TypeExpr): Result<Arg> {
    match o
    case Resolved(a) => Ok(a)
    case Failed(e) => Err(e)
    case Pending(j) => AfterWalk(filled, j)
  }

  /** `get_filled_type` (without `from_init`). */
  function FilledType(t: Table, value: Operand, sup: Operand, pos: Position): Result<Arg>
    requires ValidTable(t) && KnownOperand(t, value) && KnownOperand(t, sup)
  {
    match ProcessInputs(t, value, sup, pos)
    case Err(e) => Err(e)
    case Ok(Inputs(filled, s, index)) =>
      match Trace(t, OriginOf(filled), s)
      case None => Err(NotASubtype)
      case Some(trace) => Conclude(Walk(t, trace, |trace| - 1, index), filled)
  }

  /**
   * `get_filled_type` as the source runs it: normalise the inputs, find the
   * trace, walk it, then fall back to the queried alias's own arguments.
   */
  method GetFilledType(t: Table, value: Operand, sup: Operand, pos: Position) returns (r: Result<Arg>)
    requires ValidTable(t) && KnownOperand(t, value) && KnownOperand(t, sup)
    ensures r == FilledType(t, value, sup, pos)
  {
    var inputs := ProcessInputs(t, value, sup, pos);
    if inputs.Err? {
      return Err(inputs.error);
    }
    var filled := inputs.value.filled;
    var found := Trace(t, OriginOf(filled), inputs.value.sup);
    if found.None? {
      return Err(NotASubtype);
    }
    var outcome := WalkTrace(t, found.value, inputs.value.index);
    assert FilledType(t, value, sup, pos) == Conclude(outcome, filled);
    if outcome.Resolved? {
      return Ok(outcome.arg);
    }
    if outcome.Failed? {
      return Err(outcome.error);
    }
    var index := outcome.index;
    if filled.Class? {
      return Err(Undefined);
    }
    var args := filled.args;
    if |args| < index {
      return Err(NotEnoughArgs);
    }
    var a := PyGet(args, index);
    if a.None? {
      return Err(IndexOutOfRange);
    }
    return Ok(a.value);
  }

  /**
   * The loop of `get_filled_type` over the reversed trace (all but its last
   * element): it threads the position through, returns at the first concrete
   * argument or error, `continue`s past pydantic classes and `break`s out of
   * the search over the orig bases once the matching one was used.
   */
  method WalkTrace(t: Table, trace: seq<ClassId>, index0: int) returns (o: Outcome)
    requires |trace| > 0 && forall x :: x in trace ==> x in t
    ensures o == Walk(t, trace, |trace| - 1, index0)
  {
    var index := index0;
    var k := |trace| - 1;
    while k > 0
      invariant 0 <= k < |trace|
      invariant Walk(t, trace, k, index) == Walk(t, trace, |trace| - 1, index0)
    {
      k := k - 1;
      var c := trace[k];
      var md := t[c].metadata;
      if md.Some? {
        if |md.value.args| > 0 {
          var replacement := PyGet(md.value.args, index);
          if replacement.None? {
            return Failed(IndexOutOfRange);
          }
          if replacement.value.Concrete? {
            return Resolved(replacement.value);
          }
          var j := IndexOf(md.value.parameters, replacement.value.tv);
          if j.None? {
            return Failed(TokenAbsent);
          }
          index := j.value;
        }
        continue;
      }
      if !IsGenericClass(t, c) {
        return Failed(NotGeneric);
      }
      var obs := t[c].origBases.value;
      var m := 0;
      while m < |obs|
        invariant 0 <= m <= |obs|
        invariant forall j :: 0 <= j < m ==> GetOrigin(obs[j]) != Some(trace[k + 1])
      {
        if GetOrigin(obs[m]) == Some(trace[k + 1]) {
          assert FirstBaseFor(obs, trace[k + 1]) == Some(m);
          var args := GetArgs(obs[m]);
          if |args| < index {
            return Failed(NotEnoughArgs);
          }
          var replacement := PyGet(args, index);
          if replacement.None? {
            return Failed(IndexOutOfRange);
          }
          if replacement.value.Concrete? {
            return Resolved(replacement.value);
          }
          var tvs := GetTypeVars(t, Class(c));
          var j := IndexOf(tvs, replacement.value.tv);
          if j.None? {
            return Failed(TokenAbsent);
          }
          index := j.value;
          break;
        }
        m := m + 1;
      }
    }
    o := Pending(index);
  }

  /** A class supplies argument `a` through its pydantic metadata or one of its orig bases. */
  ghost predicate Supplies(t: Table, c: ClassId, a: Arg)
    requires c in t
  {
    || (t[c].metadata.Some? && a in t[c].metadata.value.args)
    || (t[c].origBases.Some? && exists ob :: ob in t[c].origBases.value && a in GetArgs(ob))
  }

  /**
   * What one step does with the position: a pydantic class with empty `args`
   * and a generic class without an orig base for the successor leave it
   * unchanged; otherwise the new position names, in the visited class's own
   * parameters, the very TypeVar found at the old position.
   */
  lemma StepRebasesToSameToken(t: Table, c: ClassId, next: ClassId, index: int)
    requires c in t
    requires Step(t, c, next, index).Pending?
    ensures var j := Step(t, c, next, index).index;
      && (t[c].metadata.Some? && t[c].metadata.value.args == [] ==> j == index)
      && (t[c].metadata.Some? && t[c].metadata.value.args != [] ==>
            var md := t[c].metadata.value;
            0 <= j < |md.parameters| && PyGet(md.args, index) == Some(Var(md.parameters[j])))
  {
  }

  /** The same for a class without pydantic metadata. */
  lemma StepRebasesThroughOrigBase(t: Table, c: ClassId, next: ClassId, index: int)
    requires c in t && t[c].metadata.None?
    requires Step(t, c, next, index).Pending?
    ensures IsGenericClass(t, c)
    ensures var j := Step(t, c, next, index).index;
      var found := FirstBaseFor(t[c].origBases.value, next);
      && (found.None? ==> j == index)
      && (found.Some? ==>
            var tvs := TypeVars(t, Class(c));
            0 <= j < |tvs| && PyGet(GetArgs(t[c].origBases.value[found.value]), index) == Some(Var(tvs[j])))
  {
    var obs := t[c].origBases.value;
    var found := FirstBaseFor(obs, next);
    if found.Some? {
      var a := PyGet(GetArgs(obs[found.value]), index);
      assert a.Some? && a.value.Var?;
      assert Step(t, c, next, index) == Rebase(TypeVars(t, Class(c)), a.value.tv);
    }
  }

  /**
   * A step at a class with pydantic metadata never consults its bases or
   * orig bases, and skips the class when the metadata has no `args`.
   */
  lemma MetadataStepIgnoresOrigBases(t: Table, c: ClassId, next: ClassId, index: int,
                                     bases: seq<ClassId>, obs: Option<seq<OrigBase>>)
    requires c in t && t[c].metadata.Some?
    ensures Step(t[c := t[c].(bases := bases, origBases := obs)], c, next, index) == Step(t, c, next, index)
    ensures t[c].metadata.value.args == [] ==> Step(t, c, next, index) == Pending(index)
  {
  }

  /**
   * The length guard of the walk rejects only `len(args) < index`: at
   * `len(args) == index` the subscript itself fails instead.
   */
  lemma StepGuardAdmitsEqualLength(t: Table, c: ClassId, next: ClassId, index: int, k: nat)
    requires c in t && t[c].metadata.None? && IsGenericClass(t, c)
    requires k < |t[c].origBases.value| && GetOrigin(t[c].origBases.value[k]) == Some(next)
    requires forall j :: 0 <= j < k ==> GetOrigin(t[c].origBases.value[j]) != Some(next)
    ensures var n := |GetArgs(t[c].origBases.value[k])|;
      && (n < index ==> Step(t, c, next, index) == Failed(NotEnoughArgs))
      && (n == index ==> Step(t, c, next, index) == Failed(IndexOutOfRange))
  {
    assert FirstBaseFor(t[c].origBases.value, next) == Some(k);
  }

  /**
   * What one step returns: with non-empty metadata `args`, the concrete
   * argument at `index`, an out-of-range failure, or a re-based TypeVar;
   * otherwise "not generic", or the argument at `index` of the first orig
   * base whose origin is `next`, behind the `len(args) < index` guard.
   */
  lemma StepOutcomes(t: Table, c: ClassId, next: ClassId, index: int)
    requires c in t
    ensures var s := Step(t, c, next, index);
      t[c].metadata.Some? && |t[c].metadata.value.args| > 0 ==>
        var md := t[c].metadata.value;
        var a := PyGet(md.args, index);
        && (s.Resolved? <==> a.Some? && a.value.Concrete?)
        && (s.Resolved? ==> s.arg == a.value)
        && (a.None? ==> s == Failed(IndexOutOfRange))
        && (a.Some? && a.value.Var? ==> s == Rebase(md.parameters, a.value.tv))
    ensures t[c].metadata.None? && !IsGenericClass(t, c) ==> Step(t, c, next, index) == Failed(NotGeneric)
    ensures var s := Step(t, c, next, index);
      t[c].metadata.None? && IsGenericClass(t, c) ==>
        var obs := t[c].origBases.value;
        var found := FirstBaseFor(obs, next);
        && (found.None? ==> s == Pending(index))
        && (found.Some? ==>
              var args := GetArgs(obs[found.value]);
              var a := PyGet(args, index);
              && (|args| < index ==> s == Failed(NotEnoughArgs))
              && (index <= |args| ==>
                    && (s.Resolved? <==> a.Some? && a.value.Concrete?)
                    && (s.Resolved? ==> s.arg == a.value)
                    && (a.None? ==> s == Failed(IndexOutOfRange))
                    && (a.Some? && a.value.Var? ==> s == Rebase(TypeVars(t, Class(c)), a.value.tv))))
  {
  }

  /** A step that resolves yields a concrete argument the visited class supplies. */
  lemma StepResolvedProvenance(t: Table, c: ClassId, next: ClassId, index: int)
    requires c in t && Step(t, c, next, index).Resolved?
    ensures Step(t, c, next, index).arg.Concrete?
    ensures Supplies(t, c, Step(t, c, next, index).arg)
  {
    if t[c].metadata.None? {
      var obs := t[c].origBases.value;
      var k := FirstBaseFor(obs, next).value;
      assert obs[k] in obs;
    }
  }

  /**
   * Errors the walk itself can raise, and positions it hands on: after at
   * least one step the position is either the one the walk started with
   * (no orig base matched) or a non-negative index.
   */
  lemma {:induction false} WalkFailures(t: Table, trace: seq<ClassId>, n: nat, index: int)
    requires n < |trace| && forall x :: x in trace ==> x in t
    ensures var o := Walk(t, trace, n, index);
      && (o.Failed? ==> o.error in {NotGeneric, NotEnoughArgs, IndexOutOfRange, TokenAbsent})
      && (o.Pending? && n > 0 ==> o.index >= 0 || o.index == index)
    decreases n
  {
    if n > 0 {
      var o := Step(t, trace[n - 1], trace[n], index);
      if o.Pending? {
        WalkFailures(t, trace, n - 1, o.index);
      }
    }
  }

  /** A walk that resolves returns a concrete argument some visited class supplies. */
  lemma {:induction false} WalkResolvedProvenance(t: Table, trace: seq<ClassId>, n: nat, index: int)
    requires n < |trace| && forall x :: x in trace ==> x in t
    requires Walk(t, trace, n, index).Resolved?
    ensures var a := Walk(t, trace, n, index).arg;
      a.Concrete? && exists k :: 0 <= k < n && Supplies(t, trace[k], a)
    decreases n
  {
    var o := Step(t, trace[n - 1], trace[n], index);
    if o.Pending? {
      WalkResolvedProvenance(t, trace, n - 1, o.index);
    } else {
      StepResolvedProvenance(t, trace[n - 1], trace[n], index);
    }
  }

  /**
   * Walking a trace that starts one class lower: first the walk of the
   * base's trace, then, if the position is still pending, one step at the
   * new class.
   */
  lemma {:induction false} WalkExtend(t: Table, c: ClassId, trace: seq<ClassId>, n: nat, index: int)
    requires c in t && n < |trace| && forall x :: x in trace ==> x in t
    ensures Walk(t, [c] + trace, n + 1, index) ==
      match Walk(t, trace, n, index)
      case Pending(j) => Step(t, c, trace[0], j)
      case done => done
    decreases n
  {
    var tr := [c] + trace;
    assert forall x :: x in tr ==> x in t;
    assert tr[n] == (if n == 0 then c else trace[n - 1]) && tr[n + 1] == trace[n];
    if n > 0 {
      var o := Step(t, trace[n - 1], trace[n], index);
      assert Walk(t, tr, n + 1, index) == if o.Pending? then Walk(t, tr, n, o.index) else o;
      assert Walk(t, trace, n, index) == if o.Pending? then Walk(t, trace, n - 1, o.index) else o;
      if o.Pending? {
        WalkExtend(t, c, trace, n - 1, o.index);
      }
    }
  }

  /** An instance resolves like its `__orig_class__`, or else like its runtime class. */
  lemma InstanceResolvesLikeItsType(t: Table, origClass: Option<TypeExpr>, c: ClassId, sup: Operand, pos: Position)
    requires ValidTable(t) && KnownOperand(t, Instance(origClass, c)) && KnownOperand(t, sup)
    ensures var te := if origClass.Some? then origClass.value else Class(c);
      FilledType(t, Instance(origClass, c), sup, pos) == FilledType(t, TypeOperand(te), sup, pos)
  {
  }

  /** An instance as defining supertype is not a type. */
  lemma InstanceSupertypeIsNotAType(t: Table, value: Operand, sup: Operand, pos: Position)
    requires ValidTable(t) && KnownOperand(t, value) && KnownOperand(t, sup)
    requires sup.Instance?
    ensures FilledType(t, value, sup, pos) == Err(NotAType)
  {
  }

  /** A TypeVar is reported as not defined exactly when the supertype does not declare it. */
  lemma UndeclaredTypeVar(t: Table, value: Operand, sup: TypeExpr, v: TypeVarId)
    requires ValidTable(t) && KnownOperand(t, value) && Known(t, sup)
    ensures FilledType(t, value, TypeOperand(sup), ByTypeVar(v)) == Err(TypeVarNotDefined) <==>
      v !in TypeVars(t, sup)
  {
    var inputs := ProcessInputs(t, value, TypeOperand(sup), ByTypeVar(v));
    if inputs.Ok? {
      var found := Trace(t, OriginOf(inputs.value.filled), sup);
      if found.Some? {
        ConcludeErrors(t, found.value, inputs.value.index, inputs.value.filled);
      }
    }
  }

  /**
   * "Not a subtype" is raised exactly when the inputs are accepted and no
   * chain of direct bases leads from the queried class to the supertype.
   */
  lemma NotASubtypeIffNoPath(t: Table, value: Operand, sup: Operand, pos: Position)
    requires ValidTable(t) && KnownOperand(t, value) && KnownOperand(t, sup)
    ensures FilledType(t, value, sup, pos) == Err(NotASubtype) <==>
      && ProcessInputs(t, value, sup, pos).Ok?
      && forall p :: !IsPath(t, p, OriginOf(Normalize(value)), sup.te)
  {
    var inputs := ProcessInputs(t, value, sup, pos);
    if inputs.Ok? {
      var c := OriginOf(inputs.value.filled);
      TraceNoneIffNoPath(t, c, sup.te);
      var found := Trace(t, c, sup.te);
      if found.Some? {
        ConcludeErrors(t, found.value, inputs.value.index, inputs.value.filled);
      }
    }
  }

  /** An alias as defining supertype is never reached by the trace search. */
  lemma AliasSupertypeNeverResolves(t: Table, value: Operand, sup: TypeExpr, pos: Position)
    requires ValidTable(t) && KnownOperand(t, value) && Known(t, sup) && sup.Alias?
    ensures FilledType(t, value, TypeOperand(sup), pos) in {Err(TypeVarNotDefined), Err(NotASubtype)}
  {
    AliasTargetHasNoTrace(t, OriginOf(Normalize(value)), sup);
  }

  /**
   * The errors a walk followed by the fallback to the queried value can
   * produce; "undefined" exactly for a plain class the walk leaves pending.
   */
  lemma ConcludeErrors(t: Table, trace: seq<ClassId>, index: int, filled: TypeExpr)
    requires |trace| > 0 && forall x :: x in trace ==> x in t
    ensures var r := Conclude(Walk(t, trace, |trace| - 1, index), filled);
      && (r.Err? ==> r.error in {NotGeneric, NotEnoughArgs, IndexOutOfRange, TokenAbsent, Undefined})
      && (r == Err(Undefined) <==> filled.Class? && Walk(t, trace, |trace| - 1, index).Pending?)
  {
    WalkFailures(t, trace, |trace| - 1, index);
  }

  /**
   * "Undefined" is raised exactly when the queried type is an
   * unparameterized class and the walk reaches it still holding a position.
   */
  lemma UndefinedOnlyForPlainClasses(t: Table, value: Operand, sup: Operand, pos: Position)
    requires ValidTable(t) && KnownOperand(t, value) && KnownOperand(t, sup)
    ensures FilledType(t, value, sup, pos) == Err(Undefined) <==>
      Normalize(value).Class? && WalkLeavesPosition(t, value, sup, pos)
  {
    match ProcessInputs(t, value, sup, pos)
    case Err(_) =>
    case Ok(Inputs(filled, s, index)) =>
      match Trace(t, OriginOf(filled), s)
      case None =>
      case Some(trace) => ConcludeErrors(t, trace, index, filled);
  }

  /** The inputs are accepted, a trace exists, and the walk ends still holding a position. */
  ghost predicate WalkLeavesPosition(t: Table, value: Operand, sup: Operand, pos: Position)
    requires ValidTable(t) && KnownOperand(t, value) && KnownOperand(t, sup)
  {
    match ProcessInputs(t, value, sup, pos)
    case Err(_) => false
    case Ok(Inputs(filled, s, index)) =>
      match Trace(t, OriginOf(filled), s)
      case None => false
      case Some(trace) => Walk(t, trace, |trace| - 1, index).Pending?
  }

  /**
   * When the walk ends still holding a position `j`, the result comes from
   * the queried value itself: "undefined" for a plain class, and for an
   * alias its own argument at `j`, behind the same `len(args) < j` guard.
   */
  lemma AfterWalkFallback(t: Table, value: Operand, sup: Operand, pos: Position)
    requires ValidTable(t) && KnownOperand(t, value) && KnownOperand(t, sup)
    requires ProcessInputs(t, value, sup, pos).Ok?
    requires var inputs := ProcessInputs(t, value, sup, pos).value;
      && Trace(t, OriginOf(inputs.filled), inputs.sup).Some?
      && var trace := Trace(t, OriginOf(inputs.filled), inputs.sup).value;
         Walk(t, trace, |trace| - 1, inputs.index).Pending?
    ensures var inputs := ProcessInputs(t, value, sup, pos).value;
      var trace := Trace(t, OriginOf(inputs.filled), inputs.sup).value;
      var j := Walk(t, trace, |trace| - 1, inputs.index).index;
      var filled := Normalize(value);
      var r := FilledType(t, value, sup, pos);
      && (filled.Class? ==> r == Err(Undefined))
      && (filled.Alias? && |filled.args| < j ==> r == Err(NotEnoughArgs))
      && (filled.Alias? && j <= |filled.args| && PyGet(filled.args, j).None? ==> r == Err(IndexOutOfRange))
      && (filled.Alias? && j <= |filled.args| && PyGet(filled.args, j).Some? ==> r == Ok(PyGet(filled.args, j).value))
  {
  }

  /**
   * Where a result comes from: a TypeVar result only from the queried
   * alias's own arguments; a concrete one from those or from the metadata
   * or orig bases of a class the walk visited.
   */
  lemma ResultProvenance(t: Table, value: Operand, sup: Operand, pos: Position)
    requires ValidTable(t) && KnownOperand(t, value) && KnownOperand(t, sup)
    requires FilledType(t, value, sup, pos).Ok?
    ensures sup.TypeOperand? && Trace(t, OriginOf(Normalize(value)), sup.te).Some?
    ensures var a := FilledType(t, value, sup, pos).value;
      var q := Normalize(value);
      var tr := Trace(t, OriginOf(q), sup.te).value;
      && (a.Var? ==> q.Alias? && a in q.args)
      && ((q.Alias? && a in q.args) || exists k :: 0 <= k < |tr| - 1 && Supplies(t, tr[k], a))
  {
    var q := Normalize(value);
    var inputs := ProcessInputs(t, value, sup, pos);
    var tr := Trace(t, OriginOf(q), sup.te).value;
    var o := Walk(t, tr, |tr| - 1, inputs.value.index);
    assert Conclude(o, q) == FilledType(t, value, sup, pos);
    if o.Resolved? {
      WalkResolvedProvenance(t, tr, |tr| - 1, inputs.value.index);
    } else {
      assert o.Pending? && q.Alias?;
      var r := PyGet(q.args, o.index);
      assert r.value in q.args;
    }
  }

  /**
   * Inheritance: a class agrees with the base its trace goes through on
   * every outcome the base reaches, unless the base leaves the TypeVar
   * undefined (then the class's own orig bases decide).
   */
  lemma SubclassAgreesWithBase(t: Table, c: ClassId, sup: TypeExpr, pos: Position)
    requires ValidTable(t) && c in t && Known(t, sup)
    requires Class(c) != sup && Trace(t, c, sup).Some?
    ensures var b := Trace(t, c, sup).value[1];
      && b in t[c].bases
      && (FilledType(t, TypeOperand(Class(b)), TypeOperand(sup), pos) != Err(Undefined) ==>
            FilledType(t, TypeOperand(Class(c)), TypeOperand(sup), pos) ==
            FilledType(t, TypeOperand(Class(b)), TypeOperand(sup), pos))
  {
    var p := Trace(t, c, sup).value;
    TraceChoosesFirstBase(t, c, sup);
    var k :| && 0 <= k < |t[c].bases| && p[1] == t[c].bases[k]
             && Trace(t, t[c].bases[k], sup) == Some(p[1..])
             && forall j :: 0 <= j < k ==> Trace(t, t[c].bases[j], sup).None?;
    var b := p[1];
    assert b in t[c].bases;
    var q := p[1..];
    assert p == [c] + q;
    var inputs := ProcessInputs(t, TypeOperand(Class(b)), TypeOperand(sup), pos);
    if inputs.Ok? {
      var i := inputs.value.index;
      assert ProcessInputs(t, TypeOperand(Class(c)), TypeOperand(sup), pos) == Ok(Inputs(Class(c), sup, i));
      WalkExtend(t, c, q, |q| - 1, i);
      WalkFailures(t, q, |q| - 1, i);
      assert FilledType(t, TypeOperand(Class(c)), TypeOperand(sup), pos) == Conclude(Walk(t, p, |p| - 1, i), Class(c));
      assert FilledType(t, TypeOperand(Class(b)), TypeOperand(sup), pos) == Conclude(Walk(t, q, |q| - 1, i), Class(b));
    }
  }

  /**
   * An alias queried against its own origin is read directly (Python
   * indexing, negative positions included); `len(args) == index` slips past
   * the length guard and fails as an out-of-range subscript.
   */
  lemma AliasAgainstItsOrigin(t: Table, o: ClassId, args: seq<Arg>, i: int)
    requires ValidTable(t) && o in t
    ensures var r := FilledType(t, TypeOperand(Alias(o, args)), TypeOperand(Class(o)), ByIndex(i));
      && (0 <= i < |args| ==> r == Ok(args[i]))
      && (-|args| <= i < 0 ==> r == Ok(args[|args| + i]))
      && (i == |args| ==> r == Err(IndexOutOfRange))
      && (i > |args| ==> r == Err(NotEnoughArgs))
      && (i < -|args| ==> r == Err(IndexOutOfRange))
  {
  }
}
