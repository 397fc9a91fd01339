# curry-py in Dafny

A model of `curry` from curry.py, a Python helper for automatic partial
application by trial and error. `curry(func, *args, **kwargs)` first only
captures its arguments. It returns `functools.partial(curry, func, *args,
_first=False, **kwargs)`. Every later call of that partial object does
three things:

- it appends the new positional arguments to the captured ones;
- it merges the new keyword arguments over the captured ones (the newest wins);
- it calls `func` on the merged arguments.

The call then ends in one of three ways. If `func` returns, its value is
the result. If `func` raises a `TypeError` whose message contains
"expected at least" or "required positional argument", the error is
swallowed and a fresh partial holding the merged arguments comes back.
Any other exception propagates unchanged.

Files:

- `substring.dfy` (module `Substring`): Python's `needle in hay` on
  strings. `Contains` is a left-to-right scan proved equal to the existence
  of an occurrence.
- `curry.dfy` (module `Currying`): the model itself.
  - The target is an opaque function from an argument set to an `Outcome`.
  - `IsIncomplete` is the message classifier.
  - `Merge` is the `functools.partial` merge.
  - `Curry` is `curry` with its `_first` flag.
  - `Call` is one call of the partial object.
  - `Run` is a chain of such calls.
  - The lemmas state the per-call behaviour and what chains of calls
    accumulate and return.
- `doctests.dfy` (module `Doctests`): the documented examples, with two
  concrete targets.
  - `foo = lambda a, b, m: (a+b) * m` binds its arguments much as CPython
    does: keywords first, then too many positionals, then missing
    parameters. The differences are listed under "Left out".
  - `lambda: 42` takes no arguments.

The decorator form `@curry def bar(a, b, m)` is `curry(bar)` with no
arguments captured. It behaves like `curry(foo)`: only the function name
at the head of the messages differs ("bar()" instead of "<lambda>()"),
and neither name carries a marker. The lemmas about `CurriedFoo` cover
both forms.

## Model

| member | source | states |
|---|---|---|
| `Substring.Contains` | curry.py:55-56 | Python's `needle in hay`: true exactly when `needle` occurs at some index of `hay` |
| `Substring.OccursShift` | curry.py:55-56 | an occurrence in a non-empty string is at index 0 or is an occurrence in its tail, shifted by one |
| `Substring.ContainsInMiddle` | curry.py:55-56 | a string built as `before + needle + after` contains `needle` |
| `Substring.ContainsWithin` | curry.py:55-56 | whatever a piece of a string contains, the whole string contains |
| `Substring.MissingCharNotContained` | curry.py:55-56 | a string lacking one of the needle's characters does not contain the needle |
| `Currying.IsIncomplete` | curry.py:55-56 | a TypeError message is classified incomplete exactly when "expected at least" or "required positional argument" occurs at some index of it |
| `Currying.Curry` | curry.py:49-60 | `curry` with its `_first` flag; its behaviour is stated by `ConstructionNeverEvaluates` (the first call never tries the target) and, through `Call`, by `CallClassification` (a later call returns the value, defers on a marker TypeError, or re-raises) |
| `Currying.Call` | curry.py:60 | a call of the partial object re-enters `curry` with the merged arguments and `_first=False`; `SuccessReturnsValue`, `IncompleteDefers`, `OtherFailurePropagates` and `CallClassification` state what it gives |
| `Currying.Run` | curry.py:18-23 | a chain of calls on a wrapper, as in the documented examples; `RunAccumulates`, `RunIsTransparent` and `GroupingInsensitive` state what it ends with |
| `Currying.Merge` | curry.py:60 | the partial merge: the new positionals follow the old ones in order; the keyword set is the union of both; a new keyword's value wins; an old keyword not given again keeps its value |
| `Currying.ConstructionNeverEvaluates` | curry.py:49-60 | with `_first` set, the reply is a wrapper holding exactly the supplied arguments, whatever the target would do on them |
| `Currying.SuccessReturnsValue` | curry.py:51-52 | a later call whose merged arguments satisfy the target returns the target's value itself, not a wrapper |
| `Currying.IncompleteDefers` | curry.py:53-60 | a TypeError recognised as missing arguments is swallowed; the reply is a wrapper holding exactly the merged arguments just tried |
| `Currying.OtherFailurePropagates` | curry.py:51-57 | a TypeError without either marker, and any exception that is not a TypeError, reaches the caller unchanged |
| `Currying.CallClassification` | curry.py:49-60 | a later call returns a value exactly when the target returns, and a wrapper exactly when the target's TypeError is classified incomplete; otherwise it raises the target's own exception |
| `Currying.EmptyCallKeepsArguments` | curry.py:18 | an empty call on a wrapper still short of arguments gives a wrapper with the same arguments |
| `Currying.AccumulateGrows` | curry.py:60 | along a chain, the accumulated positionals are the initial ones followed by every call's positionals in order; no keyword is ever lost |
| `Currying.AccumulateKeywordPresent` | curry.py:60 | a keyword is in the accumulated set exactly when the initial set or some call of the chain gave it |
| `Currying.AccumulateKeywordLast` | curry.py:60 | a keyword's accumulated value is the one from the last call that gave it |
| `Currying.AccumulateKeywordInitial` | curry.py:60 | a keyword that no call gave keeps its initial value |
| `Currying.AccumulateSnoc` | curry.py:60 | one more call at the end of a chain merges its arguments into what the chain had accumulated |
| `Currying.AccumulatePrefix` | curry.py:60 | the first `i` calls of a chain accumulate what the first call and the next `i - 1` calls do |
| `Currying.RunAccumulates` | curry.py:53-60 | a chain that ends on a wrapper ends on one holding the same target and exactly the accumulated arguments |
| `Currying.RunIsTransparent` | curry.py:49-60 | if every call but the last leaves the target short, the chain ends as one trial call of the target on all accumulated arguments would: its value, its unswallowed exception, or a wrapper |
| `Currying.GroupingInsensitive` | curry.py:17-24 | two chains that accumulate the same arguments, each short until its last call, end with the same reply |
| `Currying.MatchingBodyErrorNeverSurfaces` | curry.py:53-57 | a target that always raises a TypeError whose message carries a marker never finishes, and its error is never seen |
| `Doctests.UnboundFrom` | curry.py:17 | a name is listed exactly when it is a parameter of `foo` from index `j` on that the keywords do not bind |
| `Doctests.MissingMessageIsIncomplete` | curry.py:55-56 | every message `foo` raises for missing arguments is classified incomplete |
| `Doctests.NotIncompleteByLetters` | curry.py:55-56 | a message lacking a letter of each marker is not classified incomplete |
| `Doctests.UnexpectedKeywordIsTerminal` | curry.py:55-57 | the unexpected-keyword TypeError, without the key's name, is re-raised, not swallowed |
| `Doctests.UnexpectedMarkerKeyIsSwallowed` | curry.py:55-56 | an unexpected-keyword message that names a key holding a marker is classified incomplete, so `curry` swallows it |
| `Doctests.MultipleValuesIsTerminal` | curry.py:55-57 | the multiple-values TypeError is re-raised, not swallowed |
| `Doctests.TooManyPositionalIsTerminal` | curry.py:55-57 | the too-many-positionals TypeError is re-raised, not swallowed |
| `Doctests.KeywordOnlyMissingIsTerminal` | curry.py:55-57 | a missing keyword-only argument carries neither marker, so its TypeError is re-raised |
| `Doctests.FooDefersWhileShort` | curry.py:17-23 | a call of `foo` that is well formed but leaves a parameter unbound raises a TypeError that `curry` swallows |
| `Doctests.FooDefersOnlyWhileShort` | curry.py:17-23 | conversely, `curry` swallows the model's `Foo`'s TypeError only for a well-formed call that leaves a parameter unbound |
| `Doctests.Foo` | curry.py:17 | `foo = lambda a, b, m: (a+b) * m` with CPython's argument checks; `FooDefersWhileShort` and `FooDefersOnlyWhileShort` state when it leaves `curry` waiting, and the `...IsTerminal` lemmas which of its errors are re-raised |
| `Doctests.Answer` | curry.py:28 | `lambda: 42` with CPython's argument checks; `ZeroArity` states that `curry` evaluates it on the first call after construction |
| `Doctests.CurriedFoo` | curry.py:36-38 | `curry(foo)` (and `@curry` on `bar`) is a wrapper holding `foo` and no arguments yet |
| `Doctests.OneAtATimeAccumulates` | curry.py:18 | the calls `(2)()(3)(10)` accumulate `[2]`, `[2]`, `[2, 3]` and then `[2, 3, 10]` |
| `Doctests.OneAtATimeDefers` | curry.py:18 | every call of `(2)()(3)(10)` but the last leaves `foo` short |
| `Doctests.CallOneAtATime` | curry.py:18-19 | `curry(foo)(2)()(3)(10)` and `bar(2)()(3)(10)` give 50 |
| `Doctests.CallThenPair` | curry.py:20-21 | `curry(foo)(2)(3, 10)` and `bar(2)(3, 10)` give 50 |
| `Doctests.CallWithKeyword` | curry.py:22-23 | `curry(foo)(2, m=10)(3)` and `bar(2, m=10)(3)` give 50 |
| `Doctests.ConstructWithAllThenEmptyCall` | curry.py:24-25 | `curry(foo, 2, 3, 10)` does not evaluate; the empty call that follows gives 50 |
| `Doctests.DecoratedCallWithAll` | curry.py:45-46 | `bar(2, 3, 10)` on the decorated name gives 50 at once |
| `Doctests.ZeroArity` | curry.py:28 | `curry(lambda: 42)` does not evaluate; the first real call, with no arguments, returns 42 |
| `Doctests.TooManyPropagates` | curry.py:55-57 | `curry(foo)(2)(3, 10, 11)` raises foo's too-many-positionals TypeError instead of deferring |

## Left out

- The targets' argument binding is the Python interpreter's. It decides whether a call raises a TypeError and with which message. The model takes the target as an opaque function from arguments to an outcome. `Foo` and `Answer` bind the way CPython binds a plain three-parameter or zero-parameter lambda.
- The messages of `Foo` and `Answer` drop parameter names and argument counts ("but more were given" instead of "but 4 were given").
- FooDefersOnlyWhileShort: holds for the model's `Foo`, whose unexpected-keyword message leaves out the key. With CPython's message, an unknown key holding a marker also defers, although the call is not well formed; `UnexpectedMarkerKeyIsSwallowed` states that case.
- UnexpectedKeywordIsTerminal: holds only for the message without the key's name. CPython names the first unknown key in call order, and Dafny maps have no order. A key that itself holds a marker makes `curry` swallow the error; `UnexpectedMarkerKeyIsSwallowed` states that case.
- Foo: when a call has both an unknown keyword and a keyword naming a parameter already bound by position, `Foo` always reports the unknown one. CPython reports whichever comes first in call order.
- Keyword insertion order is not modelled. `functools.partial` keeps the old keys first, and a target taking `**kwargs` can observe that order. The model's keyword set is a map.
- The target is a mathematical function of its arguments: the same arguments always give the same outcome. `GroupingInsensitive`, `EmptyCallKeepsArguments` and `RunIsTransparent` rely on this. A target whose outcome depends on state, time or randomness is not covered.
- `curry(print, "baz")(42)` (curry.py:26-27) and the printing in `curry(lambda: print(42))()` (curry.py:28-29): output is a side effect outside the model. `ZeroArity` uses `lambda: 42` instead.
- A caller passing `_first` again through the partial's keyword merge is not modelled. Neither is passing a keyword named `func`, which makes Python raise "got multiple values" from `curry` itself.
- A TypeError whose first argument is not a string is not modelled (curry.py:55). With no arguments, `error.args[0]` raises IndexError. With a list, tuple or dict, the `in` test checks membership, so `TypeError(["expected at least"])` is swallowed. With a non-container, `in` raises a new TypeError. The model gives every TypeError a string message.
- `Run` stops at the first reply that is not a wrapper. Calling a returned value again is whatever that value does, and values are opaque here.
- How many times a side-effecting target's body runs is not modelled. The target is tried on every later call (curry.py:52). Its body runs only when Python's binding succeeds, and that is interpreter behaviour.
- Type annotations (curry.py:6-13) and the `doctest` entry point (curry.py:63-65) are test and typing glue.
