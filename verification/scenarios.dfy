/**
 * Class tables built the way Python builds them for the hierarchies of the
 * repository's unit tests, and the results those tests expect, proved of
 * the model.
 */
module Scenarios {
  import opened ClassTable
  import opened Declarations
  import opened Traces
  import opened Resolver

  // Builtin classes used by the tables below.
  const List: ClassId := 2
  const Int: ClassId := 3
  const Str: ClassId := 4

  // TypeVar tokens.
  const T: TypeVarId := 0
  const U: TypeVarId := 1
  const Z: TypeVarId := 2
  const V: TypeVarId := 3

  /** What `ValidTable` demands of one entry. */
  ghost predicate EntryOk(t: Table, c: ClassId)
    requires c in t
  {
    && (forall b :: b in t[c].bases ==> b in t && b < c)
    && (t[c].origBases.Some? ==> forall ob :: ob in t[c].origBases.value ==>
          ob != PlainBase(GenericClass) && !(ob.AliasBase? && ob.origin == GenericClass))
  }

  lemma EntriesMakeValid(t: Table)
    requires Object in t && t[Object].bases == []
    requires forall c :: c in t ==> EntryOk(t, c)
    ensures ValidTable(t)
  {
    forall c, b | c in t && b in t[c].bases
      ensures b in t && b < c
    {
      assert EntryOk(t, c);
    }
    forall c, ob | c in t && t[c].origBases.Some? && ob in t[c].origBases.value
      ensures ob != PlainBase(GenericClass) && !(ob.AliasBase? && ob.origin == GenericClass)
    {
      assert EntryOk(t, c);
    }
  }

  /** Orig bases listed in the order of `__bases__` pass the "is generic" check. */
  lemma AlignedIsGeneric(t: Table, c: ClassId)
    requires c in t && t[c].origBases.Some?
    requires |t[c].origBases.value| == |t[c].bases|
    requires forall i :: 0 <= i < |t[c].bases| ==> BaseEntry(t[c].origBases.value[i]) == t[c].bases[i]
    ensures IsGenericClass(t, c)
  {
    var obs := t[c].origBases.value;
    forall ob | ob in obs
      ensures BaseEntry(ob) in t[c].bases
    {
      var i :| 0 <= i < |obs| && obs[i] == ob;
      assert BaseEntry(ob) == t[c].bases[i];
    }
    forall b | b in t[c].bases
      ensures exists ob :: ob in obs && BaseEntry(ob) == b
    {
      var i :| 0 <= i < |t[c].bases| && t[c].bases[i] == b;
      assert obs[i] in obs && BaseEntry(obs[i]) == b;
    }
    GenericCheckMeaning(t, c);
  }

  /**
   * A class whose only orig base is the alias `o[args]`, and the alias's one
   * TypeVar is `v`, re-declares exactly `v`.
   */
  lemma SingleAliasBase(o: ClassId, args: seq<Arg>, v: TypeVarId)
    requires VarsOf(args) == [v]
    ensures FirstMarker([AliasBase(o, args)]) == None
    ensures Dedup(AliasTokens([AliasBase(o, args)])) == [v]
  {
    var obs := [AliasBase(o, args)];
    assert obs[..0] == [];
    assert AliasTokens(obs) == [v];
    assert [v][..0] == [];
  }

  /**
   * `get_type_vars(A[U, int, T, U])` filters the alias's arguments: the
   * TypeVars stay in written order and a repeated one is kept twice.
   */
  lemma AliasTypeVarsKeepOrderAndRepeats(t: Table, a: ClassId)
    requires a in t
    ensures TypeVars(t, Alias(a, [Var(U), Concrete(Int), Var(T), Var(U)])) == [U, T, U]
  {
    var p1 := [Var(U)];
    var p2 := p1 + [Concrete(Int)];
    var p3 := p2 + [Var(T)];
    var args := p3 + [Var(U)];
    VarsOfSingle(Var(U));
    VarsOfSingle(Concrete(Int));
    VarsOfSingle(Var(T));
    VarsOfAppend(p1, [Concrete(Int)]);
    assert VarsOf(p2) == [U];
    VarsOfAppend(p2, [Var(T)]);
    assert VarsOf(p3) == [U, T];
    VarsOfAppend(p3, [Var(U)]);
    assert VarsOf(args) == [U, T, U];
    assert args == [Var(U), Concrete(Int), Var(T), Var(U)];
    TypeVarsFastPaths(t, Alias(a, args));
  }

  // `class A(Generic[T, U])`, `class B(Generic[T, V])`, `class C(A[T, U], B[T, V])`.
  const IndirectA: ClassId := 5
  const IndirectB: ClassId := 6
  const IndirectC: ClassId := 7

  function IndirectTable(): Table {
    map[
      Object := ClassInfo([], None, None),
      GenericClass := ClassInfo([Object], None, None),
      IndirectA := ClassInfo([GenericClass], Some([GenericMarker([T, U])]), None),
      IndirectB := ClassInfo([GenericClass], Some([GenericMarker([T, V])]), None),
      IndirectC := ClassInfo([IndirectA, IndirectB],
                             Some([AliasBase(IndirectA, [Var(T), Var(U)]), AliasBase(IndirectB, [Var(T), Var(V)])]),
                             None)]
  }

  lemma IndirectTableValid()
    ensures ValidTable(IndirectTable())
  {
    var t := IndirectTable();
    forall c | c in t
      ensures EntryOk(t, c)
    {
      assert c in {Object, GenericClass, IndirectA, IndirectB, IndirectC};
      if c == IndirectC {
        var obs := t[c].origBases.value;
        forall ob | ob in obs
          ensures ob != PlainBase(GenericClass) && !(ob.AliasBase? && ob.origin == GenericClass)
        {
          assert ob == obs[0] || ob == obs[1];
        }
      }
    }
    EntriesMakeValid(t);
  }

  /**
   * `get_type_vars(C)` for `class C(A[T, U], B[T, V])`: C passes the "is
   * generic" check, has no marker, and declares T, U, V, the repeated T kept
   * once at its first position.
   */
  lemma IndirectTokensInOrder()
    ensures ValidTable(IndirectTable())
    ensures IsGenericClass(IndirectTable(), IndirectC)
    ensures TypeVars(IndirectTable(), Class(IndirectC)) == [T, U, V]
  {
    IndirectTableValid();
    AlignedIsGeneric(IndirectTable(), IndirectC);
    IndirectTokens(IndirectA, IndirectB);
  }

  /** The orig bases `A[T, U], B[T, V]` carry no marker and collect to T, U, V. */
  lemma IndirectTokens(a: ClassId, b: ClassId)
    ensures var obs := [AliasBase(a, [Var(T), Var(U)]), AliasBase(b, [Var(T), Var(V)])];
      FirstMarker(obs) == None && Dedup(AliasTokens(obs)) == [T, U, V]
  {
    var obs := [AliasBase(a, [Var(T), Var(U)]), AliasBase(b, [Var(T), Var(V)])];
    TwoVars(T, U);
    TwoVars(T, V);
    assert obs[..1][..0] == [] && obs[..1] == [obs[0]];
    assert AliasTokens(obs[..1]) == [T, U];
    assert AliasTokens(obs) == [T, U, T, V];
    DedupTUTV();
  }

  lemma TwoVars(x: TypeVarId, y: TypeVarId)
    ensures VarsOf([Var(x), Var(y)]) == [x, y]
  {
    assert [Var(x), Var(y)][..1] == [Var(x)] && [Var(x)][..0] == [];
  }

  lemma DedupTUTV()
    ensures Dedup([T, U, T, V]) == [T, U, V]
  {
    var s := [T, U, T, V];
    assert s[..3] == [T, U, T] && s[..3][..2] == [T, U] && [T, U][..1] == [T] && [T][..0] == [];
    assert Dedup([T]) == [T];
    assert Dedup([T, U]) == [T, U];
    assert Dedup([T, U, T]) == [T, U];
  }

  /** A TypeVar that the supertype declares becomes its first position. */
  lemma InputsByTypeVar(t: Table, value: Operand, sup: TypeExpr, v: TypeVarId, i: nat)
    requires KnownOperand(t, value) && Known(t, sup)
    requires IndexOf(TypeVars(t, sup), v) == Some(i)
    ensures ProcessInputs(t, value, TypeOperand(sup), ByTypeVar(v)) == Ok(Inputs(Normalize(value), sup, i))
  {
  }

  /*
   * `class A(Generic[T])`, `class B(A[T])`, `class C(Generic[U])`,
   * `class D(B[Z], C[int], List[U], Generic[U, Z])`.
   */
  const DeepA: ClassId := 5
  const DeepB: ClassId := 6
  const DeepC: ClassId := 7
  const DeepD: ClassId := 8

  function DeepTable(): Table {
    map[
      Object := ClassInfo([], None, None),
      GenericClass := ClassInfo([Object], None, None),
      List := ClassInfo([Object], None, None),
      Int := ClassInfo([Object], None, None),
      Str := ClassInfo([Object], None, None),
      DeepA := ClassInfo([GenericClass], Some([GenericMarker([T])]), None),
      DeepB := ClassInfo([DeepA], Some([AliasBase(DeepA, [Var(T)])]), None),
      DeepC := ClassInfo([GenericClass], Some([GenericMarker([U])]), None),
      DeepD := ClassInfo([DeepB, DeepC, List, GenericClass],
                         Some([AliasBase(DeepB, [Var(Z)]), AliasBase(DeepC, [Concrete(Int)]),
                               AliasBase(List, [Var(U)]), GenericMarker([U, Z])]), None)]
  }

  lemma DeepTableValid()
    ensures ValidTable(DeepTable())
  {
    var t := DeepTable();
    forall c | c in t
      ensures EntryOk(t, c)
    {
      assert c in {Object, GenericClass, List, Int, Str, DeepA, DeepB, DeepC, DeepD};
      if c == DeepD {
        var obs := t[c].origBases.value;
        forall ob | ob in obs
          ensures ob != PlainBase(GenericClass) && !(ob.AliasBase? && ob.origin == GenericClass)
        {
          assert ob == obs[0] || ob == obs[1] || ob == obs[2] || ob == obs[3];
        }
      }
    }
    EntriesMakeValid(t);
  }

  /**
   * A declares [T], B re-declares [T] through its base `A[T]`, and D declares
   * exactly U, Z in the order of its `Generic[U, Z]` marker.
   */
  lemma DeepTypeVars()
    ensures TypeVars(DeepTable(), Class(DeepA)) == [T]
    ensures TypeVars(DeepTable(), Class(DeepB)) == [T]
    ensures TypeVars(DeepTable(), Class(DeepD)) == [U, Z]
  {
    DeepTypeVarsA();
    DeepTypeVarsB();
    DeepTypeVarsD();
  }

  lemma DeepTypeVarsA()
    ensures TypeVars(DeepTable(), Class(DeepA)) == [T]
  {
    AlignedIsGeneric(DeepTable(), DeepA);
    ExplicitMarkerWins(DeepTable(), DeepA, 0);
  }

  lemma DeepTypeVarsB()
    ensures TypeVars(DeepTable(), Class(DeepB)) == [T]
  {
    var t := DeepTable();
    AlignedIsGeneric(t, DeepB);
    assert [Var(T)][..0] == [];
    SingleAliasBase(DeepA, [Var(T)], T);
  }

  lemma DeepTypeVarsD()
    ensures TypeVars(DeepTable(), Class(DeepD)) == [U, Z]
  {
    AlignedIsGeneric(DeepTable(), DeepD);
    ExplicitMarkerWins(DeepTable(), DeepD, 3);
  }

  /** The trace from D to A runs through B, D's first base. */
  lemma DeepTrace()
    ensures ValidTable(DeepTable())
    ensures Trace(DeepTable(), DeepD, Class(DeepA)) == Some([DeepD, DeepB, DeepA])
  {
    DeepTableValid();
    var t := DeepTable();
    assert Trace(t, DeepA, Class(DeepA)) == Some([DeepA]);
    assert TraceVia(t, DeepB, [DeepA], Class(DeepA)) == Some([DeepB] + [DeepA]);
    assert [DeepB] + [DeepA] == [DeepB, DeepA];
    assert Trace(t, DeepB, Class(DeepA)) == Some([DeepB, DeepA]);
    var bs := t[DeepD].bases;
    assert bs == [DeepB, DeepC, List, GenericClass];
    assert TraceVia(t, DeepD, bs, Class(DeepA)) == Some([DeepD] + [DeepB, DeepA]);
    assert [DeepD] + [DeepB, DeepA] == [DeepD, DeepB, DeepA];
  }

  /** B maps A's position 0 to its own T (position 0); D maps B's T to Z (position 1). */
  lemma DeepWalk()
    ensures Walk(DeepTable(), [DeepD, DeepB, DeepA], 2, 0) == Pending(1)
  {
    DeepStepB();
    DeepStepD();
  }

  lemma DeepStepB()
    ensures Step(DeepTable(), DeepB, DeepA, 0) == Pending(0)
  {
    var t := DeepTable();
    DeepTypeVarsB();
    AlignedIsGeneric(t, DeepB);
    var obs := t[DeepB].origBases.value;
    assert obs == [AliasBase(DeepA, [Var(T)])];
    assert FirstBaseFor(obs, DeepA) == Some(0);
    assert IndexOf([T], T) == Some(0);
  }

  lemma DeepStepD()
    ensures Step(DeepTable(), DeepD, DeepB, 0) == Pending(1)
  {
    DeepTypeVarsD();
    AlignedIsGeneric(DeepTable(), DeepD);
    assert IndexOf([U, Z], Z) == Some(1);
  }

  /** `get_filled_type(D[int, str], A, T) is str`. */
  lemma DeepResolvesThroughThreeHops()
    ensures ValidTable(DeepTable())
    ensures FilledType(DeepTable(), TypeOperand(Alias(DeepD, [Concrete(Int), Concrete(Str)])),
                 TypeOperand(Class(DeepA)), ByTypeVar(T)) == Ok(Concrete(Str))
  {
    DeepTrace();
    DeepWalk();
    DeepTypeVarsA();
    assert IndexOf([T], T) == Some(0);
    InputsByTypeVar(DeepTable(), TypeOperand(Alias(DeepD, [Concrete(Int), Concrete(Str)])), Class(DeepA), T, 0);
  }

  /*
   * `class A(Generic[T, U])`, `class B(A[int, U])`: U is still open in B.
   */
  const OpenA: ClassId := 5
  const OpenB: ClassId := 6

  function OpenTable(): Table {
    map[
      Object := ClassInfo([], None, None),
      GenericClass := ClassInfo([Object], None, None),
      OpenA := ClassInfo([GenericClass], Some([GenericMarker([T, U])]), None),
      OpenB := ClassInfo([OpenA], Some([AliasBase(OpenA, [Concrete(Int), Var(U)])]), None)]
  }

  lemma OpenTableValid()
    ensures ValidTable(OpenTable())
  {
    var t := OpenTable();
    forall c | c in t
      ensures EntryOk(t, c)
    {
      assert c in {Object, GenericClass, OpenA, OpenB};
    }
    EntriesMakeValid(t);
  }

  /** A declares [T, U]; B re-declares only U, through its base `A[int, U]`. */
  lemma OpenTypeVars()
    ensures TypeVars(OpenTable(), Class(OpenA)) == [T, U]
    ensures TypeVars(OpenTable(), Class(OpenB)) == [U]
  {
    var t := OpenTable();
    AlignedIsGeneric(t, OpenA);
    ExplicitMarkerWins(t, OpenA, 0);
    AlignedIsGeneric(t, OpenB);
    var obs := t[OpenB].origBases.value;
    assert obs == [AliasBase(OpenA, [Concrete(Int), Var(U)])];
    SingleAliasBase(OpenA, [Concrete(Int), Var(U)], U);
  }

  /**
   * `get_filled_type(B, A, T) is int`, while `get_filled_type(B, A, U)`
   * fails because the value of U is undefined.
   */
  lemma OpenTypeVarIsUndefined()
    ensures ValidTable(OpenTable())
    ensures FilledType(OpenTable(), TypeOperand(Class(OpenB)), TypeOperand(Class(OpenA)), ByTypeVar(T))
            == Ok(Concrete(Int))
    ensures FilledType(OpenTable(), TypeOperand(Class(OpenB)), TypeOperand(Class(OpenA)), ByTypeVar(U))
            == Err(Undefined)
  {
    OpenResolveT();
    OpenResolveU();
  }

  lemma OpenResolveT()
    ensures ValidTable(OpenTable())
    ensures FilledType(OpenTable(), TypeOperand(Class(OpenB)), TypeOperand(Class(OpenA)), ByTypeVar(T))
            == Ok(Concrete(Int))
  {
    OpenTrace();
    OpenTypeVars();
    OpenSteps();
    var t := OpenTable();
    assert IndexOf([T, U], T) == Some(0);
    InputsByTypeVar(t, TypeOperand(Class(OpenB)), Class(OpenA), T, 0);
  }

  lemma OpenResolveU()
    ensures ValidTable(OpenTable())
    ensures FilledType(OpenTable(), TypeOperand(Class(OpenB)), TypeOperand(Class(OpenA)), ByTypeVar(U))
            == Err(Undefined)
  {
    OpenTrace();
    OpenInputsU();
    OpenWalkU();
  }

  lemma OpenInputsU()
    ensures ProcessInputs(OpenTable(), TypeOperand(Class(OpenB)), TypeOperand(Class(OpenA)), ByTypeVar(U))
            == Ok(Inputs(Class(OpenB), Class(OpenA), 1))
  {
    OpenTypeVars();
    assert IndexOf([T, U], U) == Some(1);
    InputsByTypeVar(OpenTable(), TypeOperand(Class(OpenB)), Class(OpenA), U, 1);
  }

  lemma OpenWalkU()
    ensures Walk(OpenTable(), [OpenB, OpenA], 1, 1) == Pending(0)
  {
    OpenSteps();
  }

  lemma OpenTrace()
    ensures ValidTable(OpenTable())
    ensures Trace(OpenTable(), OpenB, Class(OpenA)) == Some([OpenB, OpenA])
  {
    OpenTableValid();
    var t := OpenTable();
    assert t[OpenB].bases == [OpenA];
    assert Trace(t, OpenA, Class(OpenA)) == Some([OpenA]);
    assert TraceVia(t, OpenB, [OpenA], Class(OpenA)) == Some([OpenB] + [OpenA]);
    assert [OpenB] + [OpenA] == [OpenB, OpenA];
  }

  lemma OpenSteps()
    ensures Step(OpenTable(), OpenB, OpenA, 0) == Resolved(Concrete(Int))
    ensures Step(OpenTable(), OpenB, OpenA, 1) == Pending(0)
  {
    OpenTypeVars();
    var t := OpenTable();
    AlignedIsGeneric(t, OpenB);
  }

  /** `class A(list[str])`: `get_filled_type(A, list, 0) is str`. */
  const ListSub: ClassId := 5

  function ListTable(): Table {
    map[
      Object := ClassInfo([], None, None),
      GenericClass := ClassInfo([Object], None, None),
      List := ClassInfo([Object], None, None),
      Str := ClassInfo([Object], None, None),
      ListSub := ClassInfo([List], Some([AliasBase(List, [Concrete(Str)])]), None)]
  }

  lemma BuiltinListAsSupertype()
    ensures ValidTable(ListTable())
    ensures FilledType(ListTable(), TypeOperand(Class(ListSub)), TypeOperand(Class(List)), ByIndex(0))
            == Ok(Concrete(Str))
  {
    var t := ListTable();
    forall c | c in t
      ensures EntryOk(t, c)
    {
      assert c in {Object, GenericClass, List, Str, ListSub};
    }
    EntriesMakeValid(t);
    AlignedIsGeneric(t, ListSub);
    assert t[ListSub].bases == [List];
    assert Trace(t, List, Class(List)) == Some([List]);
    assert TraceVia(t, ListSub, [List], Class(List)) == Some([ListSub] + [List]);
    assert [ListSub] + [List] == [ListSub, List];
    assert Trace(t, ListSub, Class(List)) == Some([ListSub, List]);
    assert Step(t, ListSub, List, 0) == Resolved(Concrete(Str));
  }

  /*
   * pydantic: `class A(BaseModel, Generic[T, U])`, the parametrisation
   * `A[int, U]` (a class of its own carrying its arguments), and
   * `class B(A[int, U])`. The parametrised class and B inherit A's
   * `__orig_bases__` through attribute lookup.
   */
  const BaseModel: ClassId := 5
  const ModelA: ClassId := 6
  const ModelAIntU: ClassId := 7
  const ModelB: ClassId := 8
  const ModelAStrInt: ClassId := 9

  function ModelTable(): Table {
    var obs := Some([PlainBase(BaseModel), GenericMarker([T, U])]);
    map[
      Object := ClassInfo([], None, None),
      GenericClass := ClassInfo([Object], None, None),
      BaseModel := ClassInfo([Object], None, None),
      ModelA := ClassInfo([BaseModel, GenericClass], obs, Some(Metadata([T, U], []))),
      ModelAIntU := ClassInfo([ModelA], obs, Some(Metadata([U], [Concrete(Int), Var(U)]))),
      ModelB := ClassInfo([ModelAIntU], obs, Some(Metadata([U], []))),
      ModelAStrInt := ClassInfo([ModelA], obs, Some(Metadata([], [Concrete(Str), Concrete(Int)])))]
  }

  lemma ModelTableValid()
    ensures ValidTable(ModelTable())
  {
    var t := ModelTable();
    forall c | c in t
      ensures EntryOk(t, c)
    {
      assert c in {Object, GenericClass, BaseModel, ModelA, ModelAIntU, ModelB, ModelAStrInt};
      if c in {ModelA, ModelAIntU, ModelB, ModelAStrInt} {
        var obs := t[c].origBases.value;
        forall ob | ob in obs
          ensures ob != PlainBase(GenericClass) && !(ob.AliasBase? && ob.origin == GenericClass)
        {
          assert ob == obs[0] || ob == obs[1];
        }
      }
    }
    EntriesMakeValid(t);
  }

  /** The trace from B to A runs through the parametrised class `A[int, U]`. */
  lemma ModelTrace()
    ensures ValidTable(ModelTable())
    ensures Trace(ModelTable(), ModelB, Class(ModelA)) == Some([ModelB, ModelAIntU, ModelA])
  {
    ModelTableValid();
    var t := ModelTable();
    assert Trace(t, ModelA, Class(ModelA)) == Some([ModelA]);
    assert TraceVia(t, ModelAIntU, [ModelA], Class(ModelA)) == Some([ModelAIntU] + [ModelA]);
    assert [ModelAIntU] + [ModelA] == [ModelAIntU, ModelA];
    assert Trace(t, ModelAIntU, Class(ModelA)) == Some([ModelAIntU, ModelA]);
    assert TraceVia(t, ModelB, [ModelAIntU], Class(ModelA)) == Some([ModelB] + [ModelAIntU, ModelA]);
    assert [ModelB] + [ModelAIntU, ModelA] == [ModelB, ModelAIntU, ModelA];
  }

  /**
   * `get_filled_type(A[str, int], A, U) is int` and
   * `get_filled_type(B, A, T) is int`, each read from the metadata of a
   * parametrised class; `get_filled_type(B, A, U)` fails because U is still
   * open in B, whose own metadata has no arguments.
   */
  lemma PydanticModel()
    ensures ValidTable(ModelTable())
    ensures FilledType(ModelTable(), TypeOperand(Class(ModelAStrInt)), TypeOperand(Class(ModelA)), ByTypeVar(U))
            == Ok(Concrete(Int))
    ensures FilledType(ModelTable(), TypeOperand(Class(ModelB)), TypeOperand(Class(ModelA)), ByTypeVar(T))
            == Ok(Concrete(Int))
    ensures FilledType(ModelTable(), TypeOperand(Class(ModelB)), TypeOperand(Class(ModelA)), ByTypeVar(U))
            == Err(Undefined)
  {
    ModelResolveParametrised();
    ModelResolveT();
    ModelResolveU();
  }

  lemma ModelResolveParametrised()
    ensures ValidTable(ModelTable())
    ensures FilledType(ModelTable(), TypeOperand(Class(ModelAStrInt)), TypeOperand(Class(ModelA)), ByTypeVar(U))
            == Ok(Concrete(Int))
  {
    ModelTraceParametrised();
    ModelInputsParametrised();
    ModelWalkParametrised();
  }

  lemma ModelInputsParametrised()
    ensures ProcessInputs(ModelTable(), TypeOperand(Class(ModelAStrInt)), TypeOperand(Class(ModelA)), ByTypeVar(U))
            == Ok(Inputs(Class(ModelAStrInt), Class(ModelA), 1))
  {
    var t := ModelTable();
    assert TypeVars(t, Class(ModelA)) == [T, U];
    assert IndexOf([T, U], U) == Some(1);
    InputsByTypeVar(t, TypeOperand(Class(ModelAStrInt)), Class(ModelA), U, 1);
  }

  lemma ModelWalkParametrised()
    ensures Walk(ModelTable(), [ModelAStrInt, ModelA], 1, 1) == Resolved(Concrete(Int))
  {
    assert Step(ModelTable(), ModelAStrInt, ModelA, 1) == Resolved(Concrete(Int));
  }

  /** The parametrised class `A[str, int]` has A as its only base. */
  lemma ModelTraceParametrised()
    ensures ValidTable(ModelTable())
    ensures Trace(ModelTable(), ModelAStrInt, Class(ModelA)) == Some([ModelAStrInt, ModelA])
  {
    ModelTableValid();
    var t := ModelTable();
    assert Trace(t, ModelA, Class(ModelA)) == Some([ModelA]);
    assert TraceVia(t, ModelAStrInt, [ModelA], Class(ModelA)) == Some([ModelAStrInt] + [ModelA]);
    assert [ModelAStrInt] + [ModelA] == [ModelAStrInt, ModelA];
  }

  lemma ModelResolveT()
    ensures ValidTable(ModelTable())
    ensures FilledType(ModelTable(), TypeOperand(Class(ModelB)), TypeOperand(Class(ModelA)), ByTypeVar(T))
            == Ok(Concrete(Int))
  {
    ModelTrace();
    ModelInputs();
    ModelWalkT();
  }

  /** The pydantic `B(A[int, U])` leaves U undefined: B's own metadata has no arguments. */
  lemma ModelResolveU()
    ensures ValidTable(ModelTable())
    ensures FilledType(ModelTable(), TypeOperand(Class(ModelB)), TypeOperand(Class(ModelA)), ByTypeVar(U))
            == Err(Undefined)
  {
    ModelTrace();
    ModelInputs();
    ModelWalkU();
  }

  /** A, having metadata, declares its `parameters` [T, U]. */
  lemma ModelInputs()
    ensures ProcessInputs(ModelTable(), TypeOperand(Class(ModelB)), TypeOperand(Class(ModelA)), ByTypeVar(T))
            == Ok(Inputs(Class(ModelB), Class(ModelA), 0))
    ensures ProcessInputs(ModelTable(), TypeOperand(Class(ModelB)), TypeOperand(Class(ModelA)), ByTypeVar(U))
            == Ok(Inputs(Class(ModelB), Class(ModelA), 1))
  {
    var t := ModelTable();
    assert TypeVars(t, Class(ModelA)) == [T, U];
    assert IndexOf([T, U], T) == Some(0);
    assert IndexOf([T, U], U) == Some(1);
    InputsByTypeVar(t, TypeOperand(Class(ModelB)), Class(ModelA), T, 0);
    InputsByTypeVar(t, TypeOperand(Class(ModelB)), Class(ModelA), U, 1);
  }

  lemma ModelWalkT()
    ensures Walk(ModelTable(), [ModelB, ModelAIntU, ModelA], 2, 0) == Resolved(Concrete(Int))
  {
    assert Step(ModelTable(), ModelAIntU, ModelA, 0) == Resolved(Concrete(Int));
  }

  lemma ModelWalkU()
    ensures Walk(ModelTable(), [ModelB, ModelAIntU, ModelA], 2, 1) == Pending(0)
  {
    var t := ModelTable();
    var trace := [ModelB, ModelAIntU, ModelA];
    assert Step(t, ModelAIntU, ModelA, 1) == Pending(0);
    assert Step(t, ModelB, ModelAIntU, 0) == Pending(0);
    assert Walk(t, trace, 0, 0) == Pending(0);
  }
}
