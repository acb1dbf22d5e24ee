/**
 * The data the resolver reads: an explicit table of classes standing in for
 * Python's live class objects, together with the argument and alias values
 * that appear in `__orig_bases__`, in `__orig_class__` and in pydantic's
 * generic metadata, and the Python list operations the resolver relies on
 * (indexing with negative positions, `.index`, filtering TypeVars).
 */
module ClassTable {

  datatype Option<+T> = None | Some(value: T)

  /** The distinguishable ways `get_filled_type` fails. */
  datatype ErrorKind =
    | NotAType          // defining supertype is neither a class nor an alias
    | TypeVarNotDefined // TypeVar missing from the supertype's parameters
    | NotASubtype       // no trace from the queried class to the supertype
    | NotGeneric        // a class on the trace did not re-declare its parameters
    | NotEnoughArgs     // an argument list is shorter than the position
    | Undefined         // the TypeVar was never bound
    | IndexOutOfRange   // an unguarded subscript failed (Python IndexError)
    | TokenAbsent       // an unguarded `.index` failed (Python ValueError)

  datatype Result<+T> = Ok(value: T) | Err(error: ErrorKind)

  /** Classes are numbered in creation order; a class's bases exist before it. */
  type ClassId = nat
  /** TypeVar tokens, compared by identity. */
  type TypeVarId = nat

  const Object: ClassId := 0
  const GenericClass: ClassId := 1

  /** A type argument: a TypeVar token, or any other argument, held opaquely by its id. */
  datatype Arg = Concrete(ty: ClassId) | Var(tv: TypeVarId)

  /** A type expression: a class, or a parameterized alias `origin[args]`. */
  datatype TypeExpr = Class(id: ClassId) | Alias(origin: ClassId, args: seq<Arg>)

  /** One entry of `__orig_bases__`. */
  datatype OrigBase =
    | PlainBase(cls: ClassId)                       // `class X(Y)`
    | AliasBase(origin: ClassId, args: seq<Arg>)    // `class X(Y[int, T])`
    | GenericMarker(params: seq<TypeVarId>)         // `class X(Generic[T, U])`

  /** pydantic's `__pydantic_generic_metadata__`: its `parameters` and `args`. */
  datatype Metadata = Metadata(parameters: seq<TypeVarId>, args: seq<Arg>)

  /**
   * What the class exposes: `__bases__`, the value attribute lookup yields for
   * `__orig_bases__` (None when absent) and for the pydantic metadata.
   */
  datatype ClassInfo = ClassInfo(bases: seq<ClassId>, origBases: Option<seq<OrigBase>>, metadata: Option<Metadata>)

  type Table = map<ClassId, ClassInfo>

  /**
   * A class table as Python can build it: `object` is present and has no
   * bases, every base is a known class created earlier than its subclass, and
   * `Generic` occurs in `__orig_bases__` only as the marker `Generic[...]`.
   */
  ghost predicate ValidTable(t: Table) {
    && Object in t
    && t[Object].bases == []
    && (forall c, b :: c in t && b in t[c].bases ==> b in t && b < c)
    && (forall c, ob :: c in t && t[c].origBases.Some? && ob in t[c].origBases.value ==>
          ob != PlainBase(GenericClass) && !(ob.AliasBase? && ob.origin == GenericClass))
  }

  /** The class a type expression stands for (`get_origin` for aliases). */
  function OriginOf(te: TypeExpr): ClassId {
    match te
    case Class(c) => c
    case Alias(o, _) => o
  }

  predicate Known(t: Table, te: TypeExpr) {
    OriginOf(te) in t
  }

  /** `get_origin` of an orig base: None for a plain class. */
  function GetOrigin(ob: OrigBase): Option<ClassId> {
    match ob
    case PlainBase(_) => None
    case AliasBase(o, _) => Some(o)
    case GenericMarker(_) => Some(GenericClass)
  }

  /** `get_args` of an orig base: empty for a plain class. */
  function GetArgs(ob: OrigBase): (r: seq<Arg>)
    ensures ob.GenericMarker? ==> |r| == |ob.params| && forall i :: 0 <= i < |r| ==> r[i] == Var(ob.params[i])
  {
    match ob
    case PlainBase(_) => []
    case AliasBase(_, args) => args
    case GenericMarker(ps) => seq(|ps|, i requires 0 <= i < |ps| => Var(ps[i]))
  }

  /** Whether the orig base is a typing alias (`isinstance(_, _GenericAlias)`). */
  predicate IsAlias(ob: OrigBase) {
    !ob.PlainBase?
  }

  /** Python's `s[i]`: negative positions count from the end; None is IndexError. */
  function PyGet<T>(s: seq<T>, i: int): (r: Option<T>)
    ensures r.Some? <==> -|s| <= i < |s|
    ensures 0 <= i < |s| ==> r == Some(s[i])
    ensures -|s| <= i < 0 ==> r == Some(s[|s| + i])
  {
    if 0 <= i < |s| then Some(s[i])
    else if -|s| <= i < 0 then Some(s[|s| + i])
    else None
  }

  /** Python's `s.index(x)`: the first position holding `x`; None is ValueError. */
  function IndexOf<T(==)>(s: seq<T>, x: T): (r: Option<nat>)
    ensures r.None? <==> x !in s
    ensures r.Some? ==> r.value < |s| && s[r.value] == x && forall j :: 0 <= j < r.value ==> s[j] != x
  {
    if s == [] then None
    else if s[0] == x then Some(0)
    else match IndexOf(s[1..], x)
      case None => None
      case Some(k) => Some(k + 1)
  }

  /** `filter(lambda a: isinstance(a, TypeVar), args)`: the tokens of `args`, in order. */
  function VarsOf(args: seq<Arg>): (r: seq<TypeVarId>)
    ensures |r| <= |args|
    ensures forall v :: v in r <==> Var(v) in args
  {
    if args == [] then []
    else
      var last := args[|args| - 1];
      assert args == args[..|args| - 1] + [last];
      VarsOf(args[..|args| - 1]) + (if last.Var? then [last.tv] else [])
  }

  /** Filtering keeps a single TypeVar argument and drops a single other argument. */
  lemma VarsOfSingle(a: Arg)
    ensures VarsOf([a]) == if a.Var? then [a.tv] else []
  {
    assert [a][..0] == [];
  }

  /**
   * Filtering distributes over concatenation: together with VarsOfSingle it
   * keeps the TypeVar arguments in their order, repeats included.
   */
  lemma {:induction false} VarsOfAppend(a: seq<Arg>, b: seq<Arg>)
    ensures VarsOf(a + b) == VarsOf(a) + VarsOf(b)
    decreases |b|
  {
    if b == [] {
      assert a + b == a;
    } else {
      var n := |b| - 1;
      assert (a + b)[..|a + b| - 1] == a + b[..n];
      assert (a + b)[|a + b| - 1] == b[n];
      VarsOfAppend(a, b[..n]);
    }
  }
}
