/**
 * `_find_super_type_trace`: a depth-first search over `__bases__` for the
 * first chain of direct-base links from a class up to a given ancestor.
 */
module Traces {
  import opened ClassTable

  /**
   * `p` leads from `start` up to `target` along direct-base links: it starts
   * at `start`, each element is a direct base of its predecessor, and its
   * last element is the class `target` stands for.
   */
  ghost predicate IsPath(t: Table, p: seq<ClassId>, start: ClassId, target: TypeExpr) {
    && |p| >= 1
    && p[0] == start
    && Class(p[|p| - 1]) == target
    && (forall i :: 0 <= i < |p| ==> p[i] in t)
    && (forall i :: 0 <= i < |p| - 1 ==> p[i + 1] in t[p[i]].bases)
  }

  /**
   * The trace from `c` to `target`: `[c]` when they are equal, None at
   * `object`, else `c` followed by the trace of the first direct base that
   * has one. A class never equals an alias, so an alias target has no trace.
   */
  function Trace(t: Table, c: ClassId, target: TypeExpr): (r: Option<seq<ClassId>>)
    requires ValidTable(t) && c in t
    ensures r.Some? ==> IsPath(t, r.value, c, target)
    decreases c, 1, 0
  {
    if Class(c) == target then Some([c])
    else if c == Object then None
    else TraceVia(t, c, t[c].bases, target)
  }

  /** The loop over `__bases__`: the first base in `bs` whose trace exists wins. */
  function TraceVia(t: Table, c: ClassId, bs: seq<ClassId>, target: TypeExpr): (r: Option<seq<ClassId>>)
    requires ValidTable(t) && c in t
    requires forall b :: b in bs ==> b in t[c].bases
    ensures r.Some? ==> && |r.value| >= 2 && r.value[1] in bs
                        && IsPath(t, r.value, c, target)
    decreases c, 0, |bs|
  {
    if bs == [] then None
    else
      assert bs[0] in t[c].bases;
      match Trace(t, bs[0], target)
      case Some(p) => Some([c] + p)
      case None => TraceVia(t, c, bs[1..], target)
  }

  /**
   * The trace the loop returns goes through the FIRST base, in declared
   * order, from which the target can be reached; the rest of the trace is
   * that base's own trace.
   */
  lemma {:induction false} TraceViaPicksFirst(t: Table, c: ClassId, bs: seq<ClassId>, target: TypeExpr)
    requires ValidTable(t) && c in t
    requires forall b :: b in bs ==> b in t[c].bases
    requires TraceVia(t, c, bs, target).Some?
    ensures var p := TraceVia(t, c, bs, target).value;
      exists k :: && 0 <= k < |bs| && p[1] == bs[k]
                  && Trace(t, bs[k], target) == Some(p[1..])
                  && forall j :: 0 <= j < k ==> Trace(t, bs[j], target).None?
    decreases |bs|
  {
    var p := TraceVia(t, c, bs, target).value;
    assert bs[0] in t[c].bases;
    match Trace(t, bs[0], target)
    case Some(q) =>
      assert p == [c] + q;
      assert p[1..] == q;
    case None =>
      TraceViaPicksFirst(t, c, bs[1..], target);
      var k :| && 0 <= k < |bs[1..]| && p[1] == bs[1..][k]
               && Trace(t, bs[1..][k], target) == Some(p[1..])
               && forall j :: 0 <= j < k ==> Trace(t, bs[1..][j], target).None?;
      forall j | 0 <= j < k + 1
        ensures Trace(t, bs[j], target).None?
      {
        if j > 0 {
          assert bs[j] == bs[1..][j - 1];
        }
      }
  }

  /**
   * The trace search, from the queried class's side: equal classes give a
   * single-element trace; otherwise a trace goes through the first direct
   * base, in declared order, that reaches the target.
   */
  lemma TraceChoosesFirstBase(t: Table, c: ClassId, target: TypeExpr)
    requires ValidTable(t) && c in t
    requires Trace(t, c, target).Some?
    ensures var p := Trace(t, c, target).value;
      && (Class(c) == target ==> p == [c])
      && (Class(c) != target ==>
            exists k :: && 0 <= k < |t[c].bases| && p[1] == t[c].bases[k]
                        && Trace(t, t[c].bases[k], target) == Some(p[1..])
                        && forall j :: 0 <= j < k ==> Trace(t, t[c].bases[j], target).None?)
  {
    if Class(c) != target {
      TraceViaPicksFirst(t, c, t[c].bases, target);
    }
  }

  lemma {:induction false} TraceViaFindsAny(t: Table, c: ClassId, bs: seq<ClassId>, target: TypeExpr, k: nat)
    requires ValidTable(t) && c in t
    requires forall b :: b in bs ==> b in t[c].bases
    requires k < |bs| && Trace(t, bs[k], target).Some?
    ensures TraceVia(t, c, bs, target).Some?
    decreases k
  {
    assert bs[0] in t[c].bases;
    if Trace(t, bs[0], target).None? {
      TraceViaFindsAny(t, c, bs[1..], target, k - 1);
    }
  }

  /** Any chain of direct-base links to the target makes the search succeed. */
  lemma {:induction false} PathMeansTrace(t: Table, c: ClassId, target: TypeExpr, p: seq<ClassId>)
    requires ValidTable(t) && c in t
    requires IsPath(t, p, c, target)
    ensures Trace(t, c, target).Some?
    decreases c
  {
    if Class(c) != target {
      var bs := t[c].bases;
      assert |p| >= 2;
      assert p[1] in bs;
      var k :| 0 <= k < |bs| && bs[k] == p[1];
      assert IsPath(t, p[1..], p[1], target) by {
        forall i | 0 <= i < |p[1..]| - 1
          ensures p[1..][i + 1] in t[p[1..][i]].bases
        {
          assert p[1..][i] == p[i + 1];
        }
      }
      PathMeansTrace(t, p[1], target, p[1..]);
      TraceViaFindsAny(t, c, bs, target, k);
    }
  }

  /**
   * Completeness: the search returns None exactly when no chain of
   * direct-base links leads from `c` to the target.
   */
  lemma TraceNoneIffNoPath(t: Table, c: ClassId, target: TypeExpr)
    requires ValidTable(t) && c in t
    ensures Trace(t, c, target).None? <==> forall p :: !IsPath(t, p, c, target)
  {
    if exists p :: IsPath(t, p, c, target) {
      var p :| IsPath(t, p, c, target);
      PathMeansTrace(t, c, target, p);
    }
  }

  /** A class never equals an alias, so an alias as target is never reached. */
  lemma AliasTargetHasNoTrace(t: Table, c: ClassId, target: TypeExpr)
    requires ValidTable(t) && c in t && target.Alias?
    ensures Trace(t, c, target).None?
  {
  }
}
