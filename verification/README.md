# piecewise-funcs in Dafny

A model of the core of `piecewise-funcs`, a small Python library of
piecewise functions of one real variable. A piecewise function is a list of
branch domains (unions of real intervals) and a list of branch callbacks.
Applying it to a number calls the callback of the first branch whose domain
holds the number. A number outside every domain gives `None`. The model
covers these parts:

- **Assembly** (`PiecewiseGeneric.__init__`). There must be at least one
  callback. There is one callback per domain, or one more callback for an
  implicit "otherwise" branch. The "otherwise" domain is the complement of
  the union of the given domains.
- **Construction** (`PiecewiseFunc.__init__`). It rejects domains that share
  a real.
- **Evaluation** (`__call__`, `__apply`). A scalar input is promoted to a
  one-element batch. Each input is dispatched to its first containing
  branch.
- **`min` and `max`**. They return the position and value of the leftmost
  smallest or largest output. `None` ranks above every number for `min`
  and below every number for `max`.
- **The `from_funcdef` factory**. It reads the `if`/`elif`/`else` chain of a
  function body. Guards become domains (`boolop_to_interval`). Returned
  expressions become callbacks (`node_to_func`).

Modules, in dependency order:

| module | file | contents |
|---|---|---|
| `Outcomes` | outcomes.dfy | error kinds, `Option`, `Result`, `MapAll` (a list comprehension that stops at the first failure) |
| `Syntax` | syntax.dfy | the part of Python's syntax tree the compiler reads; `_to_float` |
| `Intervals` | intervals.dfy | unions of real intervals as symbolic terms, with membership and a decidable emptiness test |
| `Guards` | guards.dfy | `boolop_to_interval` |
| `GuardSemantics` | guard_semantics.dfy | what a guard means in Python, and where the compiled domain agrees with it |
| `Returns` | returns.dfy | `node_to_func` and the evaluator of return expressions |
| `Generic` | generic.dfy | `PiecewiseGeneric.__init__` |
| `PiecewiseFunction` | piecewise.dfy | `PiecewiseFunc`: overlap check, evaluation, `min`, `max` |
| `FunctionDef` | funcdef.dfy | the walk of `from_funcdef` and the whole factory |

The library represents domains with the `portion` package. Here a domain is
an `Intervals.Interval` term: an atom with finite or infinite bounds, open
or closed, and unions, intersections and complements of atoms. Membership
(`Contains`) is defined on terms. Emptiness and overlap are decided by
testing finitely many sample points (`IsEmptyIff`, `OverlapsIff`). This
matches how the library tests a domain for truth (`a & b`).

Each Python exception becomes an `Outcomes.Error` value, one constructor per
kind of failure. For example, `MalformedCompare` stands for every raise of
the comparison-shape error in `boolop_to_interval`. `BoundNotNumber` and
`EmptyBatch` stand for failures that Python reports from inside `portion`
or the built-in `min`/`max`. For one-operator comparisons, `BoundNotNumber`
is stricter than Python, which may report nothing (see "## Left out"). Each callback is a function `real -> Result<real>`.

## Model

| member | source | states |
|---|---|---|
| Outcomes.MapAll | piecewise_funcs/piecewise_function.py:205-206 | A list comprehension succeeds exactly when every element maps without error. It then gives every image in order. Otherwise it raises the error of the first failing element. |
| Syntax.LiteralValue | piecewise_funcs/utils/utils.py:30-43 | A constant is its value. Unary minus negates a constant and unary plus keeps it. Another unary operator is an error, and so is a unary operator on a non-constant. |
| Syntax.LiteralRoundTrip | piecewise_funcs/utils/utils.py:30-43 | Every real, written as the parser writes it (a non-negative literal, or minus a literal), reads back as itself. |
| Intervals.UnionAll | piecewise_funcs/piecewise_generic.py:54 | The union of a list of domains holds a real iff some domain of the list holds it. The union of no domain is empty. |
| Intervals.IsEmptyIff | piecewise_funcs/piecewise_function.py:167 | The executable emptiness test holds exactly when no real is in the domain. |
| Intervals.OverlapsIff | piecewise_funcs/piecewise_function.py:167 | `a & b` is truthy exactly when some real is in both domains. |
| Guards.FoldTokenKeepsMeaning | piecewise_funcs/utils/utils.py:58-60 | Folding keeps a literal's meaning: a literal written for `c`, signed or not, becomes the number `c`. A name, or any other node that is not a literal, stays a node. `Guards.FoldToken` also states that a rejected literal keeps `_to_float`'s error. The comparison's operands are folded in order by `Outcomes.MapAll`, so the first rejected literal aborts. |
| Guards.CompileSingle | piecewise_funcs/utils/utils.py:85-122 | For `x < c`, `c < x`, `x > c`, `c > x`, the `<=`/`>=` forms, `x == c` and `c == x`, the domain holds exactly the reals that make the comparison true. `c != x` is every real but `c`. `x != c` fails because of the misspelt `signleton`. `is`/`in` operators are malformed. |
| Guards.CompileChain | piecewise_funcs/utils/utils.py:62-83 | The middle of a chain must be a name, and both operators must point the same way. Otherwise the comparison is malformed. The domain is open, closed at the left bound when the first operator is inclusive, and otherwise closed at the right bound when the second one is. |
| Guards.CompileCompare | piecewise_funcs/utils/utils.py:53-62 | A comparison is split by the number of `zip`ped pairs. One pair is the single case and two pairs the chained case. Any other count is malformed. A failing literal fails the comparison. |
| Guards.CompareOrFallback | piecewise_funcs/utils/utils.py:127 | `ival or interval()` for a comparison: the comparison's domain is kept iff it is not empty. An empty one, such as that of `2 < x < 1`, fails with `NoFallbackInterval`, because `interval` names the `portion` module and calling it raises. A failing comparison keeps its own error. |
| Guards.CompareKeptIffInhabited | piecewise_funcs/utils/utils.py:127 | A comparison that compiles keeps its domain past `ival or interval()` iff some real is in it. When it does not, the only error is `NoFallbackInterval`. |
| Guards.CompileNode | piecewise_funcs/utils/utils.py:46-127 | A node that is neither a boolean operation nor a comparison reaches `ival or interval()` with no domain and fails with `NoFallbackInterval`. A boolean operation without operands fails, because `reduce` has no initial value. A boolean operation returns its reduction directly, so it never takes the fallback. |
| Guards.CompileOperands | piecewise_funcs/utils/utils.py:51 | The generator handed to `reduce` compiles the operands in order. It succeeds iff every operand compiles, and then gives each operand's domain in order. Otherwise it gives the error of the first operand that fails. |
| Guards.ReduceMeaning | piecewise_funcs/utils/utils.py:51 | Folding non-empty domains with `and_` gives the reals in every domain. Folding them with `or_` gives the reals in some domain. |
| Guards.BoolOpOutcome | piecewise_funcs/utils/utils.py:50-51 | A boolean operation compiles iff it has an operand and every operand compiles. When it fails with operands, its error is that of the first failing operand. |
| Guards.BoolOpMeaning | piecewise_funcs/utils/utils.py:50-51 | `and` denotes the intersection of its operands' domains and `or` their union. The reduction is returned even when it is empty. |
| Guards.CompileGuard | piecewise_funcs/utils/utils.py:129-133 | A root that is neither a boolean operation nor a comparison is rejected. What the rest compiles to is stated by `GuardSemantics.GuardMeansItsTruth`. |
| GuardSemantics.FaithfulCompareMeansItsTruth | piecewise_funcs/utils/utils.py:53-127 | A comparison of one name with numbers compiles to a domain that is not empty, so the fallback is not taken. The domain holds exactly the reals that satisfy the comparison. This needs no `x != c`, no chain inclusive at both ends, and room between a chain's bounds. |
| GuardSemantics.GuardMeansItsTruth | piecewise_funcs/utils/utils.py:46-133 | Take a guard built from `and`, `or` and comparisons of one name with numbers. It must have no `x != c` and no chain inclusive at both ends. Every chain must have room between its bounds: `a < b` for `a < x < b`, and `b < a` for `a > x > b`. Such a guard compiles, and its domain holds exactly the reals at which Python finds the guard true. |
| GuardSemantics.ChainNeverClosedAtBothEnds | piecewise_funcs/utils/utils.py:69-81 | Because of the `elif`, a compiled chain never holds both of its bounds. |
| GuardSemantics.InclusiveChainDropsUpperEnd | piecewise_funcs/utils/utils.py:65-72 | For `a <= x <= b` with `a < b`, Python's test is true at `b`, but the compiled domain leaves `b` out. |
| GuardSemantics.EmptyChainFails | piecewise_funcs/utils/utils.py:65-127 | A chain with no room between its bounds, `a < x < b` with `b <= a`, compiles to an empty interval and fails with `NoFallbackInterval`. |
| GuardSemantics.PlainOperandFails | piecewise_funcs/utils/utils.py:50-127 | An operand of `and`/`or` that is neither a comparison nor a boolean operation, such as the `y` of `x > 0 and y`, makes the whole guard fail. |
| GuardSemantics.NotEqualNeedsConstantFirst | piecewise_funcs/utils/utils.py:115-120 | `x != c` fails to compile, while `c != x` compiles to every real but `c`. |
| GuardSemantics.SingleIgnoresRightWhenLeftIsNumber | piecewise_funcs/utils/utils.py:86-119 | With a number on the left, a one-operator comparison never reads its right operand. |
| GuardSemantics.SingleIgnoresWhichName | piecewise_funcs/utils/utils.py:87-117 | The name in a one-operator comparison is not checked: any name stands for the argument. |
| Returns.Arith | piecewise_funcs/utils/utils.py:11-18 | The four arithmetic operators of `op_map`. Only division by zero fails. A quotient times the divisor gives back the dividend. |
| Returns.CompileReturn | piecewise_funcs/utils/utils.py:136-161 | Exactly `return` statements compile, and any other statement is rejected. The callback evaluates the returned expression at its argument on each call, so an unsupported expression fails only when the callback is called. |
| Returns.Eval | piecewise_funcs/utils/utils.py:138-155 | Evaluation fails only with one of four errors, each on its own inputs. A unary operator on something that is neither a name nor a number gives `OperandNotConstant`, as in `-(x+1)`. A unary operator other than `-`/`+` on a number gives `UnsupportedUnaryOp`, as in `~3`. An operator outside `op_map`, a boolean operation, a comparison or another node kind gives `NotPolynomial`. A divisor that evaluates to zero gives `DivisionByZero`. The left operand is evaluated first, and its failure is the result. The values are stated by `Returns.EvalFollowsLine`, `Returns.UnaryOnNameNegates` and `Returns.SquareEvaluates`. |
| Returns.ReciprocalFailsAtZero | piecewise_funcs/utils/utils.py:147-153 | Evaluating `1 / x` at 0 fails with `DivisionByZero`, so a callback for `return 1 / x` fails when called at 0. |
| Returns.ArithFollowsLines | piecewise_funcs/utils/utils.py:147-153 | An arithmetic step on the values of two lines never fails when their combination is still a line, and it gives that line's value. |
| Returns.EvalFollowsLine | piecewise_funcs/utils/utils.py:138-155 | Whenever a return expression reads as a first-degree polynomial `s*x + c`, the callback never fails and returns `s*x + c` at every `x`. |
| Returns.UnaryOnNameNegates | piecewise_funcs/utils/utils.py:141-143 | Any unary operator applied to a name gives `-x`, even `+x`. |
| Returns.SquareEvaluates | piecewise_funcs/utils/utils.py:147-153 | The degree is not checked: `x * x` evaluates to the square. |
| Returns.UnsupportedFailsOnlyWhenCalled | piecewise_funcs/utils/utils.py:147-161 | A `return` of an unsupported expression compiles, and every call of the callback fails. Unsupported means a boolean operation, a comparison, any other expression kind, or a binary operator outside `op_map` such as `x ** 2`. |
| Returns.BareReturnFailsWhenCalled | piecewise_funcs/utils/utils.py:154-161 | A bare `return` compiles, and every call of its callback fails. |
| Generic.Otherwise | piecewise_funcs/piecewise_generic.py:53-59 | The "otherwise" domain holds a real iff no given domain holds it. |
| Generic.Assemble | piecewise_funcs/piecewise_generic.py:42-62 | Callbacks must be non-empty, and their count must equal the domain count or exceed it by one. The stored domains are the given ones, followed by the "otherwise" domain when there is an extra callback. The callbacks are stored unchanged. |
| Generic.OtherwiseComplementsGiven | piecewise_funcs/piecewise_generic.py:53-59 | The "otherwise" domain shares no real with any given domain. Together with them it covers the real line. |
| Generic.OtherwiseAloneIsWhole | piecewise_funcs/tests/test_eval.py:40-44 | No domains and one callback give one branch over the whole line. |
| PiecewiseFunction.HasOverlapIff | piecewise_funcs/piecewise_function.py:165-168 | The overlap check over all pairs finds an overlap iff the list is not pairwise disjoint. |
| PiecewiseFunction.StoredDisjointIffGiven | piecewise_funcs/piecewise_function.py:131-132 | The overlap check runs on the stored list, which may end in the "otherwise" domain. It accepts exactly when the given domains are pairwise disjoint. |
| PiecewiseFunction.Construct | piecewise_funcs/piecewise_function.py:127-132 | Construction succeeds iff there is a callback, the counts match, and the given domains are pairwise disjoint. Each failure has its own error. The result is a valid piecewise function: every real is in at most one domain. |
| PiecewiseFunction.SelectFrom | piecewise_funcs/piecewise_function.py:149-150 | `next(compress(...))` gives the first domain from the given position on that holds the value. It gives none iff no domain there holds it. |
| PiecewiseFunction.Select | piecewise_funcs/piecewise_function.py:147-152 | Only as many branches as the shorter of the two lists are tried. The branch selected is the first whose domain holds the value. Nothing is selected iff no tried domain holds it. |
| PiecewiseFunction.EvalAt | piecewise_funcs/piecewise_function.py:144-157 | A value outside every domain gives `None`. Otherwise the result is the first containing branch's callback at the value, including its failure. An input that is not a real is rejected while a branch remains to test. |
| PiecewiseFunction.Apply | piecewise_funcs/piecewise_function.py:143-163 | A scalar is promoted to one input. The output has one entry per input, in order, each the value at that input. The first failing input's error stops the whole computation. |
| PiecewiseFunction.ValidSelectsOnlyBranch | piecewise_funcs/piecewise_function.py:165-168 | In a constructed function, the domain holding a value is the only such domain, so it is the branch selected. |
| PiecewiseFunction.LeftmostExtremeUnique | piecewise_funcs/piecewise_function.py:137-141 | At most one position is the leftmost extreme, so `min` and `max` have a single answer. |
| PiecewiseFunction.AllNoneGivesFirst | piecewise_funcs/tests/test_minmax_argminmax.py:21-37 | When every output is `None`, both extremes are at position 0. |
| PiecewiseFunction.ArgExtreme | piecewise_funcs/piecewise_function.py:123-125 | The scan with the key of `__bound_key_func` returns a position that no output ranks before. It ranks strictly before every output to its left. |
| PiecewiseFunction.Extreme | piecewise_funcs/piecewise_function.py:137-141 | `min`/`max` succeed iff the application succeeds and the input is non-empty. The application's error propagates, and an empty input is an error. They return the leftmost extreme position and the output there, which is `(0, None)` when every output is `None`. |
| PiecewiseFunction.Min | piecewise_funcs/piecewise_function.py:137-138 | The leftmost smallest output and its position, with `None` ranked above every number. The application's error propagates unchanged, and an empty input fails with `EmptyBatch`. |
| PiecewiseFunction.Max | piecewise_funcs/piecewise_function.py:140-141 | The leftmost largest output and its position, with `None` ranked below every number. The application's error propagates unchanged, and an empty input fails with `EmptyBatch`. |
| FunctionDef.Walk | piecewise_funcs/piecewise_function.py:185-200 | The walk collects at most one more callback than guards. An `if` contributes its guard and its first body statement first. A `return` ends the walk with one callback. Any other statement ends it with nothing. An `if` with an empty body fails. |
| FunctionDef.Collect | piecewise_funcs/piecewise_function.py:183-203 | An empty body is an error, and so is a first statement that is neither `if` nor `return`. Otherwise the walk collects at least one callback and as many guards as callbacks or one fewer. |
| FunctionDef.FromFuncDef | piecewise_funcs/piecewise_function.py:183-208 | The errors come in the code's order. A body the walk rejects fails with the walk's error, which is `MalformedFunction` when the walk collects nothing. Next, the first guard that does not compile gives its error. Next, a collected statement that is not a `return` gives `CallbackNotReturn`. When the collected guards and returns compile, the factory fails only on overlapping domains, and exactly then. The result is valid, with one branch per collected callback. Domain `k` is the compiled guard `k`. Callback `k` evaluates the expression of the `k`-th collected `return`. With a return beyond the last guard, the last domain holds exactly the reals in no compiled guard. |
| FunctionDef.WalkChain | piecewise_funcs/piecewise_function.py:185-200 | An `if`/`elif` chain yields its guards and returns in order. With an `else` the walk ends there, whatever follows. Without one it goes on after the chain. |
| FunctionDef.ElifThenTopLevelReturn | piecewise_funcs/tests/test_from_funcdef.py:176-192 | `if`/`elif` followed by a top-level `return` collects the two guards and all three returns, the last for the "otherwise" branch. |
| FunctionDef.StatementAfterElseUnreachable | piecewise_funcs/tests/test_from_funcdef.py:199-217 | A statement after a complete `if`/`elif`/`else` chain is never read. |
| FunctionDef.SingleReturnCoversLine | piecewise_funcs/tests/test_from_funcdef.py:10-21 | A body that is a single `return` gives one branch whose domain is the whole line. |

## Left out

- Obtaining the syntax tree is left out: the `callable` check, `getsource`, `ast.parse` and the `FunctionDef` check (piecewise_function.py:174-181). The model starts from the statements of the function body.
- The `isinstance` checks on the argument lists, and the assertions that elements are intervals and callables (piecewise_generic.py:34-46), are left out. The types enforce them.
- Appending the "otherwise" domain to the caller's own list (piecewise_generic.py:56-59) is left out. The model has no aliasing; the stored list is what it returns.
- The `portion` package is replaced by symbolic interval terms with the same membership. Its canonical form, and the equality of intervals used by the tests, are left out.
- Floating point is replaced by exact reals, so rounding, infinities and NaN are not modelled. `float(scalar)` is reduced to "a real, or something that cannot be cast" (`Input.NotReal`). Non-numeric constants (strings, booleans) in guards or returns are left out.
- Generators are modelled as sequences. The outputs a consumer would see before the first failure, when it reads `__call__` lazily, are not modelled.
- A callback can raise any exception. Here it returns an error value.
- Guards.CompileSingle: a one-operator comparison whose used bound is a syntax node rather than a number (`x < y`, `f(x) < 3`) is rejected at compile time with `BoundNotNumber`. The code passes the node to `portion`, which may fail later or accept a meaningless bound.
- Guards.CompileNode: a boolean operation with no operands fails with `EmptyBoolOp`, following the code, where `reduce` without an initial value raises. Python's parser never produces such a node.
- FunctionDef.Collect: the empty body (`EmptyFunctionBody`) stands for the `pop` from an empty list. Python's parser never produces such a body.
- PiecewiseFunction.Extreme: an empty input gives `EmptyBatch`, where Python's `min`/`max` raise `ValueError`.
- The timing test (tests/test_time_complexity.py), the constant piecewise function (piecewise_funcs/constant) and demo.py are not part of this model.
