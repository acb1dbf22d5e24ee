/**
 * `get_type_vars` and the "is generic" check it relies on
 * (`_generic_metaclass_executed_on_type`): which TypeVars a class or an
 * alias declares, and in which order.
 */
module Declarations {
  import opened ClassTable

  /** The entry an orig base contributes to the set compared against `__bases__`. */
  function BaseEntry(ob: OrigBase): ClassId {
    match ob
    case PlainBase(c) => c
    case AliasBase(o, _) => o
    case GenericMarker(_) => GenericClass
  }

  /**
   * `_generic_metaclass_executed_on_type`: the class has `__orig_bases__` and
   * their origins (plain classes kept as they are) form exactly the set of
   * its `__bases__`. An `__orig_bases__` inherited from an ancestor that the
   * class did not re-specialise fails this test.
   */
  predicate IsGenericClass(t: Table, c: ClassId)
    requires c in t
  {
    match t[c].origBases
    case None => false
    case Some(obs) => (set ob | ob in obs :: BaseEntry(ob)) == (set b | b in t[c].bases)
  }

  /** The parameters of the first `Generic[...]` orig base, if there is one. */
  function FirstMarker(obs: seq<OrigBase>): (r: Option<seq<TypeVarId>>)
    ensures r.None? <==> forall k :: 0 <= k < |obs| ==> !obs[k].GenericMarker?
  {
    if obs == [] then None
    else if obs[0].GenericMarker? then Some(obs[0].params)
    else FirstMarker(obs[1..])
  }

  /** The TypeVars one orig base contributes to an indirect declaration. */
  function BaseTokens(ob: OrigBase): seq<TypeVarId> {
    if IsAlias(ob) then VarsOf(GetArgs(ob)) else []
  }

  /** All TypeVar arguments of the alias orig bases, left to right, repeats kept. */
  function AliasTokens(obs: seq<OrigBase>): (r: seq<TypeVarId>)
    ensures forall v :: v in r <==> exists ob :: ob in obs && IsAlias(ob) && Var(v) in GetArgs(ob)
  {
    if obs == [] then []
    else
      var n := |obs| - 1;
      assert obs == obs[..n] + [obs[n]];
      AliasTokens(obs[..n]) + BaseTokens(obs[n])
  }

  ghost predicate Distinct<T>(s: seq<T>) {
    forall i, j :: 0 <= i < j < |s| ==> s[i] != s[j]
  }

  /**
   * Appending each element unless already collected: the elements of `s`,
   * each once, in the order of their first occurrence.
   */
  function Dedup(s: seq<TypeVarId>): (r: seq<TypeVarId>)
    ensures forall x :: x in r <==> x in s
    ensures Distinct(r)
  {
    if s == [] then []
    else
      var n := |s| - 1;
      assert s == s[..n] + [s[n]];
      var d := Dedup(s[..n]);
      if s[n] in d then d else d + [s[n]]
  }

  /**
   * `get_type_vars`: the metadata parameters if the class has pydantic
   * metadata; the TypeVar arguments of an alias; nothing for a class that is
   * not generic; the parameters of the first `Generic[...]` orig base; else
   * the TypeVars of the alias orig bases, deduplicated.
   */
  function TypeVars(t: Table, te: TypeExpr): seq<TypeVarId>
    requires Known(t, te)
  {
    match te
    case Alias(_, args) => VarsOf(args)
    case Class(c) =>
      if t[c].metadata.Some? then t[c].metadata.value.parameters
      else if !IsGenericClass(t, c) then []
      else
        var obs := t[c].origBases.value;
        match FirstMarker(obs)
        case Some(ps) => ps
        case None => Dedup(AliasTokens(obs))
  }

  /**
   * `get_type_vars` as the source computes it: the marker search and the
   * accumulation of TypeVars with a membership test are loops.
   */
  method GetTypeVars(t: Table, te: TypeExpr) returns (typeVars: seq<TypeVarId>)
    requires Known(t, te)
    ensures typeVars == TypeVars(t, te)
  {
    if te.Class? && t[te.id].metadata.Some? {
      return t[te.id].metadata.value.parameters;
    }
    if te.Alias? {
      return VarsOf(te.args);
    }
    var c := te.id;
    if !IsGenericClass(t, c) {
      return [];
    }
    var obs := t[c].origBases.value;
    var i := 0;
    while i < |obs|
      invariant 0 <= i <= |obs|
      invariant FirstMarker(obs[i..]) == FirstMarker(obs)
    {
      if obs[i].GenericMarker? {
        return obs[i].params;
      }
      assert obs[i..][1..] == obs[i + 1..];
      i := i + 1;
    }
    assert FirstMarker(obs) == None by {
      assert obs[|obs|..] == [];
    }
    typeVars := CollectTypeVars(obs);
  }

  /**
   * The indirect declaration: walk the alias orig bases and their arguments,
   * appending each TypeVar not yet collected.
   */
  method CollectTypeVars(obs: seq<OrigBase>) returns (typeVars: seq<TypeVarId>)
    ensures typeVars == Dedup(AliasTokens(obs))
  {
    typeVars := [];
    var i := 0;
    while i < |obs|
      invariant 0 <= i <= |obs|
      invariant typeVars == Dedup(AliasTokens(obs[..i]))
    {
      var ob := obs[i];
      ghost var before := typeVars;
      if IsAlias(ob) {
        typeVars := AppendTypeVars(typeVars, GetArgs(ob), AliasTokens(obs[..i]));
      }
      CollectStep(obs, i, before, typeVars);
      i := i + 1;
    }
    assert obs[..|obs|] == obs;
  }

  /** The inner loop: append the TypeVar arguments of one alias orig base not yet collected. */
  method AppendTypeVars(typeVars0: seq<TypeVarId>, args: seq<Arg>, ghost collected: seq<TypeVarId>)
    returns (typeVars: seq<TypeVarId>)
    requires typeVars0 == Dedup(collected)
    ensures typeVars == Dedup(collected + VarsOf(args))
  {
    typeVars := typeVars0;
    var j := 0;
    assert collected + VarsOf(args[..0]) == collected;
    while j < |args|
      invariant 0 <= j <= |args|
      invariant typeVars == Dedup(collected + VarsOf(args[..j]))
    {
      var a := args[j];
      if a.Var? && a.tv !in typeVars {
        typeVars := typeVars + [a.tv];
      }
      AppendStep(collected, args, j);
      j := j + 1;
    }
    assert args[..|args|] == args;
  }

  lemma AliasTokensStep(obs: seq<OrigBase>, i: nat)
    requires i < |obs|
    ensures AliasTokens(obs[..i + 1]) == AliasTokens(obs[..i]) + BaseTokens(obs[i])
  {
    assert obs[..i + 1][..i] == obs[..i];
  }

  /** One pass of the outer loop: a plain or marker orig base contributes nothing. */
  lemma CollectStep(obs: seq<OrigBase>, i: nat, before: seq<TypeVarId>, after: seq<TypeVarId>)
    requires i < |obs| && before == Dedup(AliasTokens(obs[..i]))
    requires after == if IsAlias(obs[i]) then Dedup(AliasTokens(obs[..i]) + VarsOf(GetArgs(obs[i]))) else before
    ensures after == Dedup(AliasTokens(obs[..i + 1]))
  {
    AliasTokensStep(obs, i);
    if !IsAlias(obs[i]) {
      assert AliasTokens(obs[..i]) + BaseTokens(obs[i]) == AliasTokens(obs[..i]);
    }
  }

  /** One pass of the inner loop, in terms of Dedup. */
  lemma AppendStep(collected: seq<TypeVarId>, args: seq<Arg>, j: nat)
    requires j < |args|
    ensures Dedup(collected + VarsOf(args[..j + 1])) ==
      var d := Dedup(collected + VarsOf(args[..j]));
      if args[j].Var? && args[j].tv !in d then d + [args[j].tv] else d
  {
    var a := args[j];
    assert args[..j + 1][..j] == args[..j];
    assert collected + VarsOf(args[..j + 1]) ==
      (collected + VarsOf(args[..j])) + (if a.Var? then [a.tv] else []);
    DedupSnoc(collected + VarsOf(args[..j]), a);
  }

  /** One step of the accumulation loop, in terms of Dedup. */
  lemma DedupSnoc(s: seq<TypeVarId>, a: Arg)
    ensures Dedup(s + (if a.Var? then [a.tv] else [])) ==
      if a.Var? && a.tv !in Dedup(s) then Dedup(s) + [a.tv] else Dedup(s)
  {
    if a.Var? {
      assert (s + [a.tv])[..|s|] == s;
    } else {
      assert s + [] == s;
    }
  }

  /** `s.index` on an extended list keeps the first occurrences it already had. */
  lemma IndexOfSnoc(s: seq<TypeVarId>, x: TypeVarId, y: TypeVarId)
    ensures IndexOf(s + [x], y) == if y in s then IndexOf(s, y) else if y == x then Some(|s|) else None
  {
    var r := IndexOf(s + [x], y);
    if y in s {
      var k := IndexOf(s, y).value;
      assert (s + [x])[k] == y;
    } else if y == x {
      assert (s + [x])[|s|] == y;
    }
  }

  /**
   * Dedup keeps the order of first occurrences: of two collected tokens, the
   * one collected earlier occurs first in the input.
   */
  lemma {:induction false} DedupFirstOccurrenceOrder(s: seq<TypeVarId>)
    ensures forall i, j :: 0 <= i < j < |Dedup(s)| ==>
      IndexOf(s, Dedup(s)[i]).value < IndexOf(s, Dedup(s)[j]).value
  {
    if s != [] {
      var n := |s| - 1;
      var p, x := s[..n], s[n];
      assert s == p + [x];
      DedupFirstOccurrenceOrder(p);
      var d := Dedup(p);
      forall y | y in p
        ensures IndexOf(s, y) == IndexOf(p, y) && IndexOf(p, y).value < |p|
      {
        IndexOfSnoc(p, x, y);
      }
      if x !in d {
        IndexOfSnoc(p, x, x);
        assert Dedup(s) == d + [x];
        forall i, j | 0 <= i < j < |Dedup(s)|
          ensures IndexOf(s, Dedup(s)[i]).value < IndexOf(s, Dedup(s)[j]).value
        {
          if j < |d| {
            assert Dedup(s)[i] == d[i] && Dedup(s)[j] == d[j];
          } else {
            assert Dedup(s)[i] == d[i] && d[i] in p;
          }
        }
      }
    }
  }

  /**
   * The "is generic" check, pointwise: every orig base's origin is a direct
   * base, and every direct base is the origin of some orig base.
   */
  lemma GenericCheckMeaning(t: Table, c: ClassId)
    requires c in t
    ensures IsGenericClass(t, c) <==>
      && t[c].origBases.Some?
      && (forall ob :: ob in t[c].origBases.value ==> BaseEntry(ob) in t[c].bases)
      && (forall b :: b in t[c].bases ==> exists ob :: ob in t[c].origBases.value && BaseEntry(ob) == b)
  {
    if t[c].origBases.Some? {
      var obs := t[c].origBases.value;
      var lhs := set ob | ob in obs :: BaseEntry(ob);
      var rhs := set b | b in t[c].bases;
      if (forall ob :: ob in obs ==> BaseEntry(ob) in t[c].bases)
        && (forall b :: b in t[c].bases ==> exists ob :: ob in obs && BaseEntry(ob) == b)
      {
        assert lhs == rhs;
      }
      if lhs == rhs {
        forall ob | ob in obs
          ensures BaseEntry(ob) in t[c].bases
        {
          assert BaseEntry(ob) in lhs;
        }
        forall b | b in t[c].bases
          ensures exists ob :: ob in obs && BaseEntry(ob) == b
        {
          assert b in rhs;
          assert b in lhs;
        }
      }
    }
  }

  /**
   * A class that inherits generic parents without re-specialising them (one
   * of its direct bases is the origin of no orig base) declares no TypeVars,
   * unless pydantic metadata says otherwise.
   */
  lemma NotRedeclaredMeansNoTypeVars(t: Table, c: ClassId, b: ClassId)
    requires c in t && t[c].metadata.None?
    requires b in t[c].bases
    requires t[c].origBases.Some? ==> forall ob :: ob in t[c].origBases.value ==> BaseEntry(ob) != b
    ensures !IsGenericClass(t, c)
    ensures TypeVars(t, Class(c)) == []
  {
    GenericCheckMeaning(t, c);
  }

  /**
   * Precedence of the fast paths: metadata parameters verbatim; for an alias
   * exactly its TypeVar arguments in order; for a class without
   * `__orig_bases__` nothing.
   */
  lemma TypeVarsFastPaths(t: Table, te: TypeExpr)
    requires Known(t, te)
    ensures te.Class? && t[te.id].metadata.Some? ==> TypeVars(t, te) == t[te.id].metadata.value.parameters
    ensures te.Alias? ==> TypeVars(t, te) == VarsOf(te.args)
    ensures te.Alias? ==> forall v :: v in TypeVars(t, te) <==> Var(v) in te.args
    ensures te.Class? && t[te.id].metadata.None? && t[te.id].origBases.None? ==> TypeVars(t, te) == []
  {
  }

  lemma {:induction false} FirstMarkerAt(obs: seq<OrigBase>, k: nat)
    requires k < |obs| && obs[k].GenericMarker?
    requires forall j :: 0 <= j < k ==> !obs[j].GenericMarker?
    ensures FirstMarker(obs) == Some(obs[k].params)
  {
    if k > 0 {
      FirstMarkerAt(obs[1..], k - 1);
    }
  }

  /**
   * Explicit declaration: a generic class without metadata whose first
   * `Generic[...]` orig base is at position k declares exactly that marker's
   * TypeVars, in written order, whatever its other orig bases say.
   */
  lemma ExplicitMarkerWins(t: Table, c: ClassId, k: nat)
    requires c in t && t[c].metadata.None? && IsGenericClass(t, c)
    requires k < |t[c].origBases.value| && t[c].origBases.value[k].GenericMarker?
    requires forall j :: 0 <= j < k ==> !t[c].origBases.value[j].GenericMarker?
    ensures TypeVars(t, Class(c)) == t[c].origBases.value[k].params
  {
    FirstMarkerAt(t[c].origBases.value, k);
  }

  /**
   * Indirect declaration: without a marker, the declared TypeVars are exactly
   * the TypeVar arguments of the alias orig bases, each once, ordered by
   * their first occurrence left to right.
   */
  lemma IndirectDeclaration(t: Table, c: ClassId)
    requires c in t && t[c].metadata.None? && IsGenericClass(t, c)
    requires forall ob :: ob in t[c].origBases.value ==> !ob.GenericMarker?
    ensures var obs := t[c].origBases.value; var r := TypeVars(t, Class(c));
      && Distinct(r)
      && (forall v :: v in r <==> exists ob :: ob in obs && IsAlias(ob) && Var(v) in GetArgs(ob))
      && (forall i, j :: 0 <= i < j < |r| ==>
            IndexOf(AliasTokens(obs), r[i]).value < IndexOf(AliasTokens(obs), r[j]).value)
  {
    var obs := t[c].origBases.value;
    assert FirstMarker(obs) == None;
    DedupFirstOccurrenceOrder(AliasTokens(obs));
  }
}
