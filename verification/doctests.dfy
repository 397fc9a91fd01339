/**
 * The documented examples of `curry` (curry.py:17-46), reproduced with
 * concrete targets: `foo = lambda a, b, m: (a+b) * m` and a zero-argument
 * lambda. Each target binds its arguments much as the Python interpreter
 * binds them for that signature and raises the kind of TypeError the
 * interpreter would raise. The messages leave out the names and counts
 * CPython puts in them; for a key-naming message such as the unexpected
 * keyword one, that name could itself carry a marker, which
 * `UnexpectedMarkerKeyIsSwallowed` covers apart.
 */
module Doctests {
  import opened Substring
  import opened Currying

  /** The exceptions these targets raise besides TypeError: none, so any string serves. */
  type Err = string

  /** The parameter names of `foo`, in order. */
  const FooParams: seq<string> := ["a", "b", "m"]

  /** Python's message for a call of `foo` that leaves `n` (1 to 3) parameters unbound. */
  function MissingMessage(n: nat): string
    requires 1 <= n <= 3
  {
    "<lambda>() missing " + [('0' as int + n) as char] + " " + RequiredPositional
      + (if n == 1 then "" else "s")
  }

  // Python's other TypeError messages for these calls, built from short
  // pieces because the prover decides `c !in msg` for short literals only.
  const UnexpectedKeywordMessage: string :=
    "<lambda>() " + "got an " + "unexpected " + "keyword argument"
  const MultipleValuesMessage: string :=
    "<lambda>() " + "got multiple " + "values for " + "argument"
  const TooManyPositionalMessage: string :=
    "<lambda>() " + "takes 3 " + "positional " + "arguments but " + "more were given"
  const NoPositionalMessage: string :=
    "<lambda>() " + "takes 0 " + "positional " + "arguments but " + "more were given"
  /** What Python says of `def f(*, k)` called as `f()`. */
  const KeywordOnlyMessage: string :=
    "f() missing " + "1 required " + "keyword-only " + "argument: 'k'"

  /** The parameters of `foo` from index `j` on that `kw` does not bind. */
  function UnboundFrom(kw: map<string, int>, j: nat): (names: seq<string>)
    requires j <= 3
    ensures |names| <= 3 - j
    ensures forall x :: x in names <==> exists i :: j <= i < 3 && FooParams[i] == x && x !in kw
    decreases 3 - j
  {
    if j == 3 then []
    else (if FooParams[j] in kw then [] else [FooParams[j]]) + UnboundFrom(kw, j + 1)
  }

  /** The value bound to parameter `j` of `foo`, once every parameter is bound. */
  function Bound(pos: seq<int>, kw: map<string, int>, j: nat): int
    requires j < 3
    requires j >= |pos| ==> FooParams[j] in kw
  {
    if j < |pos| then pos[j] else kw[FooParams[j]]
  }

  /**
   * `foo = lambda a, b, m: (a+b) * m`, called with `pos` and `kw`, checked
   * in the order CPython checks a call: keywords first, then too many
   * positionals, then missing parameters, and only then the body. Among
   * the keywords an unknown name is reported before a name already bound
   * by position; CPython reports whichever comes first in call order,
   * which a map does not keep.
   */
  function Foo(pos: seq<int>, kw: map<string, int>): Outcome<int, Err> {
    if exists k :: k in kw && k !in FooParams then
      Raise(TypeError(UnexpectedKeywordMessage))
    else if exists j :: 0 <= j < |pos| && j < 3 && FooParams[j] in kw then
      Raise(TypeError(MultipleValuesMessage))
    else if |pos| > 3 then
      Raise(TypeError(TooManyPositionalMessage))
    else if UnboundFrom(kw, |pos|) != [] then
      Raise(TypeError(MissingMessage(|UnboundFrom(kw, |pos|)|)))
    else
      Return((Bound(pos, kw, 0) + Bound(pos, kw, 1)) * Bound(pos, kw, 2))
  }

  /** `lambda: 42`, called with `pos` and `kw`. */
  function Answer(pos: seq<int>, kw: map<string, int>): Outcome<int, Err> {
    if kw != map[] then Raise(TypeError(UnexpectedKeywordMessage))
    else if pos != [] then Raise(TypeError(NoPositionalMessage))
    else Return(42)
  }

  /** Every missing-argument message of `foo` is one the classifier swallows. */
  lemma MissingMessageIsIncomplete(n: nat)
    requires 1 <= n <= 3
    ensures IsIncomplete(MissingMessage(n))
  {
    var before := "<lambda>() missing " + [('0' as int + n) as char] + " ";
    var after := if n == 1 then "" else "s";
    assert MissingMessage(n) == before + RequiredPositional + after;
    ContainsInMiddle(before, RequiredPositional, after);
  }

  /** A message lacking a letter of each marker is not taken for missing arguments. */
  lemma NotIncompleteByLetters(msg: string, c1: char, c2: char)
    requires c1 in ExpectedAtLeast && c1 !in msg
    requires c2 in RequiredPositional && c2 !in msg
    ensures !IsIncomplete(msg)
  {
  }

  /** An unknown keyword is a terminal TypeError, not a missing argument. */
  lemma UnexpectedKeywordIsTerminal()
    ensures !IsIncomplete(UnexpectedKeywordMessage)
  {
    assert 's' !in UnexpectedKeywordMessage && 'q' !in UnexpectedKeywordMessage;
    NotIncompleteByLetters(UnexpectedKeywordMessage, 's', 'q');
  }

  /** CPython's unexpected-keyword message, which names the offending key. */
  function UnexpectedKeywordNamed(key: string): string {
    UnexpectedKeywordMessage + " '" + key + "'"
  }

  /**
   * The classifier also reads the key CPython names: a call with an
   * unknown key that itself holds a marker, such as
   * `curry(foo)(**{"expected at least": 1})`, is swallowed instead of
   * raised, another way in which an error is taken for missing arguments.
   */
  lemma UnexpectedMarkerKeyIsSwallowed(key: string)
    requires Contains(key, ExpectedAtLeast) || Contains(key, RequiredPositional)
    ensures IsIncomplete(UnexpectedKeywordNamed(key))
  {
    assert UnexpectedKeywordNamed(key) == (UnexpectedKeywordMessage + " '") + key + "'";
    if Contains(key, ExpectedAtLeast) {
      ContainsWithin(UnexpectedKeywordMessage + " '", key, "'", ExpectedAtLeast);
    } else {
      ContainsWithin(UnexpectedKeywordMessage + " '", key, "'", RequiredPositional);
    }
  }

  /** A parameter bound twice is a terminal TypeError, not a missing argument. */
  lemma MultipleValuesIsTerminal()
    ensures !IsIncomplete(MultipleValuesMessage)
  {
    assert 'x' !in MultipleValuesMessage && 'q' !in MultipleValuesMessage;
    NotIncompleteByLetters(MultipleValuesMessage, 'x', 'q');
  }

  /** Too many positional arguments is a terminal TypeError, not a missing argument. */
  lemma TooManyPositionalIsTerminal()
    ensures !IsIncomplete(TooManyPositionalMessage)
  {
    assert 'x' !in TooManyPositionalMessage && 'q' !in TooManyPositionalMessage;
    NotIncompleteByLetters(TooManyPositionalMessage, 'x', 'q');
  }

  /**
   * The message for a missing keyword-only argument mentions neither
   * marker, so `curry` lets it through rather than waiting for more.
   */
  lemma KeywordOnlyMissingIsTerminal()
    ensures !IsIncomplete(KeywordOnlyMessage)
  {
    assert 'x' !in KeywordOnlyMessage && 'p' !in KeywordOnlyMessage;
    NotIncompleteByLetters(KeywordOnlyMessage, 'x', 'p');
  }

  /** A call of `foo` that names only its parameters, binds none twice, and gives at most three positionals. */
  predicate WellFormedFooCall(pos: seq<int>, kw: map<string, int>) {
    && kw.Keys <= {"a", "b", "m"}
    && (forall j :: 0 <= j < |pos| && j < 3 ==> FooParams[j] !in kw)
    && |pos| <= 3
  }

  /** Some parameter of `foo` is bound neither by position nor by keyword. */
  predicate LeavesUnbound(pos: seq<int>, kw: map<string, int>) {
    exists i :: |pos| <= i < 3 && FooParams[i] !in kw
  }

  /** A well-formed call of `foo` that leaves a parameter unbound raises a TypeError the curry wrapper swallows. */
  lemma FooDefersWhileShort(pos: seq<int>, kw: map<string, int>)
    requires WellFormedFooCall(pos, kw)
    requires LeavesUnbound(pos, kw)
    ensures TriesIncomplete(Foo, Args(pos, kw))
  {
    var i :| |pos| <= i < 3 && FooParams[i] !in kw;
    assert FooParams[i] in UnboundFrom(kw, |pos|);
    MissingMessageIsIncomplete(|UnboundFrom(kw, |pos|)|);
  }

  /**
   * The converse, for the model's `Foo`, whose unexpected-keyword message
   * leaves out the key: it makes the curry wrapper defer only on a
   * well-formed call that leaves a parameter unbound.
   */
  lemma FooDefersOnlyWhileShort(pos: seq<int>, kw: map<string, int>)
    requires TriesIncomplete(Foo, Args(pos, kw))
    ensures WellFormedFooCall(pos, kw)
    ensures LeavesUnbound(pos, kw)
  {
    UnexpectedKeywordIsTerminal();
    MultipleValuesIsTerminal();
    TooManyPositionalIsTerminal();
    var x := UnboundFrom(kw, |pos|)[0];
    assert x in UnboundFrom(kw, |pos|);
  }

  /**
   * The wrapper `curry(foo)`. What `@curry` makes of `def bar(a, b, m)`
   * behaves the same: only the name in the messages differs, and neither
   * name carries a marker.
   */
  function CurriedFoo(): (w: Wrapper<int, Err>)
    ensures w.target == Foo
    ensures w.acc == Args([], map[])
  {
    Curry(Foo, Args([], map[]), true).wrapper
  }

  /** The arguments of a call that passes only positionals. */
  function Positional(pos: seq<int>): Args<int> { Args(pos, map[]) }

  /** The calls of `curry(foo)(2)()(3)(10)`. */
  const OneAtATime: seq<Args<int>> := [Positional([2]), Positional([]), Positional([3]), Positional([10])]

  /** What the calls of `curry(foo)(2)()(3)(10)` accumulate, call by call. */
  lemma OneAtATimeAccumulates()
    ensures Accumulate(Args([], map[]), OneAtATime[..1]) == Positional([2])
    ensures Accumulate(Args([], map[]), OneAtATime[..2]) == Positional([2])
    ensures Accumulate(Args([], map[]), OneAtATime[..3]) == Positional([2, 3])
    ensures Accumulate(Args([], map[]), OneAtATime) == Positional([2, 3, 10])
  {
    var calls, none := OneAtATime, Args([], map[]);
    assert calls[..1] == [Positional([2])];
    assert calls[..2] == calls[..1] + [Positional([])];
    AccumulateSnoc(none, calls[..1], Positional([]));
    assert calls[..3] == calls[..2] + [Positional([3])];
    AccumulateSnoc(none, calls[..2], Positional([3]));
    assert calls == calls[..3] + [Positional([10])];
    AccumulateSnoc(none, calls[..3], Positional([10]));
  }

  /** Every call of `curry(foo)(2)()(3)(10)` but the last leaves `foo` short. */
  lemma OneAtATimeDefers()
    ensures IncompleteBeforeLast(Foo, Args([], map[]), OneAtATime)
  {
    OneAtATimeAccumulates();
    forall i | 1 <= i < |OneAtATime|
      ensures TriesIncomplete(Foo, Accumulate(Args([], map[]), OneAtATime[..i]))
    {
      if i < 3 {
        assert FooParams[2] !in Positional([]).kw;
        FooDefersWhileShort([2], map[]);
      } else {
        assert FooParams[2] !in Positional([]).kw;
        FooDefersWhileShort([2, 3], map[]);
      }
    }
  }

  /** `curry(foo)(2)()(3)(10)` and `bar(2)()(3)(10)` give 50. */
  lemma CallOneAtATime()
    ensures Run(CurriedFoo(), OneAtATime) == Value(50)
  {
    OneAtATimeAccumulates();
    OneAtATimeDefers();
    assert Curry(Foo, Positional([2, 3, 10]), false) == Value(50);
    RunIsTransparent(CurriedFoo(), OneAtATime);
  }

  /** `curry(foo)(2)(3, 10)` and `bar(2)(3, 10)` give 50. */
  lemma CallThenPair()
    ensures Run(CurriedFoo(), [Positional([2]), Positional([3, 10])]) == Value(50)
  {
    var calls := [Positional([2]), Positional([3, 10])];
    assert Accumulate(Args([], map[]), calls[..1]) == Positional([2]);
    assert Accumulate(Args([], map[]), calls) == Positional([2, 3, 10]);
    assert FooParams[2] !in Positional([]).kw;
    FooDefersWhileShort([2], map[]);
    RunIsTransparent(CurriedFoo(), calls);
  }

  /** `curry(foo)(2, m=10)(3)` and `bar(2, m=10)(3)` give 50. */
  lemma CallWithKeyword()
    ensures Run(CurriedFoo(), [Args([2], map["m" := 10]), Positional([3])]) == Value(50)
  {
    var calls := [Args([2], map["m" := 10]), Positional([3])];
    assert Accumulate(Args([], map[]), calls[..1]) == Args([2], map["m" := 10]);
    assert Accumulate(Args([], map[]), calls) == Args([2, 3], map["m" := 10]);
    assert FooParams[1] !in map["m" := 10];
    FooDefersWhileShort([2], map["m" := 10]);
    RunIsTransparent(CurriedFoo(), calls);
  }

  /** `curry(foo, 2, 3, 10)()` gives 50: construction waits, the empty call evaluates. */
  lemma ConstructWithAllThenEmptyCall()
    ensures Curry(Foo, Positional([2, 3, 10]), true).Curried?
    ensures Run(Curry(Foo, Positional([2, 3, 10]), true).wrapper, [Positional([])]) == Value(50)
  {
  }

  /** `bar(2, 3, 10)` gives 50 at once: the decorated name's first call already evaluates. */
  lemma DecoratedCallWithAll()
    ensures Run(CurriedFoo(), [Positional([2, 3, 10])]) == Value(50)
  {
  }

  /** `curry(lambda: 42)()` gives 42 from the first real call, not from construction. */
  lemma ZeroArity()
    ensures Curry(Answer, Positional([]), true).Curried?
    ensures Run(Curry(Answer, Positional([]), true).wrapper, [Positional([])]) == Value(42)
  {
  }

  /** Too many arguments in the end: the chain raises foo's own TypeError rather than deferring. */
  lemma TooManyPropagates()
    ensures Run(CurriedFoo(), [Positional([2]), Positional([3, 10, 11])]) == Raised(TypeError(TooManyPositionalMessage))
  {
    var calls := [Positional([2]), Positional([3, 10, 11])];
    assert Accumulate(Args([], map[]), calls[..1]) == Positional([2]);
    assert Accumulate(Args([], map[]), calls) == Positional([2, 3, 10, 11]);
    assert FooParams[2] !in Positional([]).kw;
    FooDefersWhileShort([2], map[]);
    TooManyPositionalIsTerminal();
    RunIsTransparent(CurriedFoo(), calls);
  }
}
