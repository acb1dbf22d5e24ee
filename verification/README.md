# python-generics: resolving the value of a TypeVar, modelled in Dafny

The `generics` package answers two questions about Python generic classes:

- which TypeVars a class declares (`get_type_vars`);
- which concrete type a subclass, a parameterized alias or an instance
  supplies for a TypeVar (or a position) declared by one of its ancestors
  (`get_filled_type`).

This project models that logic over an explicit class table instead of
Python's live class objects. The table maps a class id to three things:

- its `__bases__`;
- the value that attribute lookup yields for `__orig_bases__`;
- the value it yields for pydantic's `__pydantic_generic_metadata__`
  (`parameters` and `args`).

An orig base is one of three forms: a plain class, a parameterized alias
`Origin[args]`, or the `Generic[...]` marker. An argument is either a
TypeVar token or anything else. Anything else covers classes, nested
aliases, `Any` and literals. It is held opaquely by an id and returned as
is.

Modules:

- `ClassTable` (`class_table.dfy`) holds the table, the argument and alias
  values, and the error kinds. It also holds the Python list operations the
  code relies on: subscripts with negative positions, `.index` (first
  occurrence, failing when absent) and TypeVar filtering. `ValidTable`
  states what Python guarantees of a class graph:
  - `object` has no bases;
  - every base was created before its subclass, so it has a smaller id;
  - `Generic` appears among the orig bases only as `Generic[...]`.

  The trace search terminates by the id order.
- `Declarations` (`declarations.dfy`) models `get_type_vars` and the
  "is generic" check.
  - `TypeVars` is the specification.
  - `GetTypeVars`, `CollectTypeVars` and `AppendTypeVars` are the loops of
    the source, proved equal to it.
- `Traces` (`traces.dfy`) models `_find_super_type_trace` as a recursive
  function, with soundness, first-base choice and completeness.
- `Resolver` (`resolver.dfy`) models `_process_inputs_of_get_filled_type`
  and `get_filled_type`.
  - `FilledType` is the specification, built from `Step` (one visited
    class) and `Walk` (the reversed trace).
  - `GetFilledType` and `WalkTrace` are the source's loop, with its
    `continue`, `break` and early returns, proved equal to it.
- `Scenarios` (`scenarios.dfy`) builds the class tables of several unit
  tests and proves the results those tests expect.

The model follows the code's length guards. `get_filled_type` rejects an
argument list only when `len(args) < index`. With `len(args) == index` the
guard lets the subscript through, and the subscript then fails
(`IndexOutOfRange`, Python's `IndexError`) instead of raising the "not
enough type arguments" error. `StepGuardAdmitsEqualLength` and
`AliasAgainstItsOrigin` state this behaviour exactly.

## Model

| member | source | states |
|---|---|---|
| ClassTable.PyGet | src/generics/__init__.py:294 | a subscript succeeds exactly for `-len <= i < len`; a non-negative position reads from the front and a negative one from the end |
| ClassTable.IndexOf | src/generics/__init__.py:221 | `.index` fails exactly when the token is absent; otherwise it returns the position of the first occurrence |
| ClassTable.VarsOf | src/generics/__init__.py:61 | filtering TypeVars keeps exactly the tokens that occur as TypeVar arguments, and never lengthens the list |
| ClassTable.VarsOfSingle | src/generics/__init__.py:61 | a single TypeVar argument is kept as its token; a single other argument is dropped |
| ClassTable.VarsOfAppend | src/generics/__init__.py:61 | filtering distributes over concatenation, so TypeVars keep their written order and repeats |
| ClassTable.GetArgs | src/generics/__init__.py:66-68 | the arguments of `Generic[...]` are its tokens, in written order |
| Declarations.FirstMarker | src/generics/__init__.py:66-68 | no marker is found exactly when no orig base is a `Generic[...]` marker |
| Declarations.FirstMarkerAt | src/generics/__init__.py:66-68 | the search returns the tokens of the first marker, in declared order |
| Declarations.AliasTokens | src/generics/__init__.py:72-77 | a token is collected exactly when it is a TypeVar argument of some parameterized orig base |
| Declarations.Dedup | src/generics/__init__.py:76-77 | the deduplicated list has the same members as its input, and each of them once |
| Declarations.DedupFirstOccurrenceOrder | src/generics/__init__.py:72-79 | deduplication keeps first-occurrence order: earlier elements of the result first occur earlier in the input |
| Declarations.IsGenericClass | src/generics/__init__.py:123-136 | defines the "is generic" check (orig bases present, and their origins equal the direct bases as sets); its meaning is stated by `GenericCheckMeaning` |
| Declarations.GenericCheckMeaning | src/generics/__init__.py:123-136 | a class passes the "is generic" check iff it has orig bases, every orig base's origin (or the plain class) is a direct base, and every direct base is such an origin |
| Declarations.NotRedeclaredMeansNoTypeVars | src/generics/__init__.py:63-64 | a class with a direct base that none of its orig bases re-specialises fails the check, and `get_type_vars` returns the empty tuple for it |
| Declarations.TypeVars | src/generics/__init__.py:28-79 | defines `get_type_vars` on values; what it promises is stated by `TypeVarsFastPaths`, `NotRedeclaredMeansNoTypeVars`, `ExplicitMarkerWins` and `IndirectDeclaration`, and `GetTypeVars` is proved equal to it |
| Declarations.TypeVarsFastPaths | src/generics/__init__.py:57-61 | metadata parameters are returned verbatim; an alias yields the filtered list of its arguments (order and repeats kept), so a token is in it iff it is a TypeVar argument; a class without orig bases or metadata yields nothing |
| Declarations.ExplicitMarkerWins | src/generics/__init__.py:66-68 | for a generic class, the tokens of the first `Generic[...]` orig base are the result, in written order |
| Declarations.IndirectDeclaration | src/generics/__init__.py:72-79 | without a marker the result has no duplicates, contains exactly the TypeVar arguments of the parameterized orig bases, and keeps their first-occurrence order |
| Declarations.GetTypeVars | src/generics/__init__.py:28-79 | the method, with its marker loop and collection loops, computes `TypeVars` |
| Declarations.CollectTypeVars | src/generics/__init__.py:72-79 | the outer collection loop yields the deduplicated tokens of all orig bases |
| Declarations.AppendTypeVars | src/generics/__init__.py:75-77 | the inner loop appends each TypeVar argument not yet collected, preserving deduplication |
| Traces.Trace | src/generics/__init__.py:143-157 | a returned trace starts at the class, ends at the target, and links each element to one of its predecessor's direct bases |
| Traces.TraceVia | src/generics/__init__.py:153-157 | a trace found through the base loop has at least two elements, and its second element is one of the bases searched |
| Traces.TraceViaPicksFirst | src/generics/__init__.py:153-156 | the loop takes the first base, in declared order, that has a trace; the rest of the result is that base's trace |
| Traces.TraceChoosesFirstBase | src/generics/__init__.py:149-156 | equal classes give `[c]`; otherwise the trace goes through the first direct base that reaches the target |
| Traces.TraceViaFindsAny | src/generics/__init__.py:153-157 | if any searched base has a trace, the loop returns one |
| Traces.PathMeansTrace | src/generics/__init__.py:143-157 | any chain of direct-base links to the target makes the search succeed |
| Traces.TraceNoneIffNoPath | src/generics/__init__.py:143-157 | the search returns None exactly when no chain of direct-base links reaches the target |
| Traces.AliasTargetHasNoTrace | src/generics/__init__.py:149 | a class never equals a parameterized alias, so an alias target is never found |
| Resolver.Normalize | src/generics/__init__.py:204-216 | defines the queried value an operand stands for; `InstanceResolvesLikeItsType` states that an instance resolves as its `__orig_class__` if set, else as its runtime class |
| Resolver.ProcessInputs | src/generics/__init__.py:204-229 | fails exactly for an instance as supertype (not a type) or a TypeVar missing from the supertype's TypeVars (not defined); otherwise it yields the normalised value, an int position unchanged, or the first position of the TypeVar |
| Resolver.InstanceResolvesLikeItsType | src/generics/__init__.py:204-216 | an instance resolves exactly as its `__orig_class__` if present, else as its runtime class |
| Resolver.InstanceSupertypeIsNotAType | src/generics/__init__.py:217-218 | a non-type defining supertype is rejected |
| Resolver.UndeclaredTypeVar | src/generics/__init__.py:219-225 | the result is "TypeVar not defined" iff the TypeVar is not among the supertype's TypeVars |
| Resolver.NotASubtypeIffNoPath | src/generics/__init__.py:265-267 | the result is "not a subtype" iff the inputs are accepted and no chain of direct-base links leads from the value's origin to the supertype |
| Resolver.AliasSupertypeNeverResolves | src/generics/__init__.py:262-267 | a parameterized alias as defining supertype yields only "not defined" or "not a subtype" |
| Resolver.FirstBaseFor | src/generics/__init__.py:286-287 | the position of the first orig base whose origin is the next trace element, or None when there is none |
| Resolver.Rebase | src/generics/__init__.py:297 | `.index` on the class's TypeVars (and on the metadata `parameters` at line 275): fails (token absent) exactly when the TypeVar is missing, otherwise continues at its first occurrence; it never resolves |
| Resolver.Step | src/generics/__init__.py:270-298 | defines one pass of the walk at a trace element; its outcomes are stated by `StepOutcomes`, `StepRebasesToSameToken`, `StepRebasesThroughOrigBase`, `MetadataStepIgnoresOrigBases`, `StepGuardAdmitsEqualLength` and `StepResolvedProvenance` |
| Resolver.Walk | src/generics/__init__.py:269-298 | defines the walk over the reversed trace without its last element; stated by `WalkFailures`, `WalkResolvedProvenance` and `WalkExtend`, and `WalkTrace` is proved equal to it |
| Resolver.AfterWalk | src/generics/__init__.py:300-310 | the fallback to the queried value: "undefined" exactly for a plain class; otherwise only not enough arguments or out of range as errors, and a result is one of the alias's own arguments, `args[j]` for an in-range `j` |
| Resolver.FilledType | src/generics/__init__.py:233-310 | defines `get_filled_type` on values; its errors and results are stated by `NotASubtypeIffNoPath`, `UndeclaredTypeVar`, `UndefinedOnlyForPlainClasses`, `AfterWalkFallback`, `ResultProvenance` and `SubclassAgreesWithBase`, and `GetFilledType` is proved equal to it |
| Resolver.StepRebasesToSameToken | src/generics/__init__.py:270-283 | at a pydantic class, empty `args` leave the position unchanged; otherwise the new position names in `parameters` the very TypeVar found in `args` at the old one |
| Resolver.StepRebasesThroughOrigBase | src/generics/__init__.py:284-298 | at any other class the check passed; with no matching orig base the position is unchanged; otherwise the new position names in the class's TypeVars the TypeVar found at the old one |
| Resolver.MetadataStepIgnoresOrigBases | src/generics/__init__.py:270-283 | a pydantic class's step does not depend on its bases or orig bases, and empty `args` skip it |
| Resolver.StepGuardAdmitsEqualLength | src/generics/__init__.py:289-294 | fewer arguments than the position give "not enough type arguments"; exactly as many fail the subscript instead |
| Resolver.StepOutcomes | src/generics/__init__.py:270-298 | with non-empty metadata `args`, a step resolves exactly to a concrete `args[index]`, fails out of range when the subscript fails, and re-bases a TypeVar by `parameters`; without metadata, a class failing the check is "not generic"; with no matching orig base the position passes on; with one, `len(args) < index` is "not enough arguments", and otherwise the step resolves exactly to a concrete `args[index]`, fails out of range, or re-bases a TypeVar by the class's TypeVars |
| Resolver.StepResolvedProvenance | src/generics/__init__.py:272-274 | a value returned by a step is concrete and is an argument the visited class supplies (metadata or an orig base) |
| Resolver.WalkFailures | src/generics/__init__.py:269-298 | the walk can fail only as not generic, not enough arguments, out of range, or token absent |
| Resolver.WalkResolvedProvenance | src/generics/__init__.py:269-298 | a value returned by the walk is concrete and is supplied by a visited trace element other than the supertype |
| Resolver.WalkExtend | src/generics/__init__.py:269-298 | prepending a class to the trace adds exactly one step, taken last and only if the walk so far is still pending |
| Resolver.WalkTrace | src/generics/__init__.py:269-298 | the loop with its `continue`, `break` and early returns computes `Walk` over the reversed trace without its last element |
| Resolver.GetFilledType | src/generics/__init__.py:233-310 | the method computes `FilledType`: inputs, trace, walk, then the queried alias's own arguments |
| Resolver.ConcludeErrors | src/generics/__init__.py:269-310 | after the trace is found, the only errors are not generic, not enough arguments, out of range, token absent and undefined, the last exactly when the value is a plain class and the walk ends holding a position |
| Resolver.UndefinedOnlyForPlainClasses | src/generics/__init__.py:300-302 | "the value of the TypeVar is undefined" arises exactly when the value is not a parameterized alias, the inputs are accepted, a trace exists and the walk ends still holding a position |
| Resolver.AfterWalkFallback | src/generics/__init__.py:300-310 | once the walk ends holding position `j`: a plain class gives "undefined"; an alias gives "not enough arguments" when `len(args) < j`, and otherwise its own `args[j]` or an out-of-range failure |
| Resolver.ResultProvenance | src/generics/__init__.py:233-310 | a successful result requires a trace; a TypeVar result is one of the queried alias's own arguments; any result comes from that alias or from a class on the trace |
| Resolver.SubclassAgreesWithBase | src/generics/__init__.py:149-156 | a subclass resolves as the first base on its trace does whenever that base does not leave the TypeVar undefined |
| Resolver.AliasAgainstItsOrigin | src/generics/__init__.py:304-310 | `Origin[args]` against `Origin` returns `args[i]` for in-range positions, both signs; `len(args) < i` gives not enough arguments; `i == len(args)` and `i < -len(args)` fail the subscript |
| Scenarios.AliasTypeVarsKeepOrderAndRepeats | src/generics/__init__.py:60-61 | `get_type_vars(A[U, int, T, U])` is `(U, T, U)` |
| Scenarios.IndirectTokensInOrder | unittests/test_get_type_vars.py:73-92 | on the test's class table, `class C(A[T, U], B[T, V])` passes the "is generic" check and `get_type_vars(C)` is `(T, U, V)` |
| Scenarios.DeepTypeVars | unittests/test_get_filled_type.py:62-72 | `A(Generic[T])` declares `(T,)`, `B(A[T])` declares `(T,)`, and `D(B[Z], C[int], List[U], Generic[U, Z])` declares `(U, Z)` |
| Scenarios.DeepTrace | unittests/test_get_filled_type.py:54-74 | the trace from D to A is `[D, B, A]` |
| Scenarios.DeepResolvesThroughThreeHops | unittests/test_get_filled_type.py:54-74 | `get_filled_type(D[int, str], A, T)` is `str` |
| Scenarios.OpenTypeVarIsUndefined | unittests/test_get_filled_type.py:192-208 | for `B(A[int, U])`, T resolves to `int` and U is undefined |
| Scenarios.BuiltinListAsSupertype | unittests/test_get_filled_type.py:263-271 | `get_filled_type(A, list, 0)` is `str` for `class A(list[str])` |
| Scenarios.PydanticModel | unittests/test_get_filled_type.py:158-172 | for pydantic models, `get_filled_type(A[str, int], A, U)` is `int` (position 1 of the parametrised class's metadata), and for `B(A[int, U])` T resolves to `int` the same way; it also restates the undefined U of `ModelResolveU` |
| Scenarios.ModelResolveU | unittests/test_get_filled_type.py:210-226 | for the pydantic `B(A[int, U])`, `get_filled_type(B, A, U)` raises "the value of the TypeVar is undefined" |

## Left out

- The `from_init` branch (src/generics/__init__.py:207-212), `_get_orig_class_from_inside_constructor` and `_FrameInfoOnDemand` (src/generics/__init__.py:96-120, 160-189) are left out. They inspect the live call stack and modules. An instance is modelled as its optional `__orig_class__` plus its runtime class.
- `cached_property` (src/generics/__init__.py:82-93) is left out: it memoises attributes and plays no part in resolution.
- The `GenericType` protocol (src/generics/__init__.py:19-25) is left out: it exists only for the type checker.
- Python's typing machinery and pydantic's internals are given as table data. This covers `get_origin`, `get_args`, the `isinstance` checks against the alias classes, `__mro_entries__`, pydantic's synthesised subclasses, and attribute lookup of `__orig_bases__` and the metadata through the MRO.
- `get_origin` of a plain orig base is taken to be None, so a plain orig base never matches in the walk.
- `is` and `==` comparisons between classes and TypeVars are comparisons of ids and tokens.
- PEP 695 class syntax is not part of this model. It changes only how the table is built.
- Exception classes and message texts are reduced to the `ErrorKind` values. An `IndexError` from an unguarded subscript is `IndexOutOfRange`. A `ValueError` from an unguarded `.index` is `TokenAbsent`.
- Class graphs Python cannot build are excluded by `ValidTable`: cycles, and `Generic` used bare among the orig bases.
