/**
 * A model of `curry` (curry.py): automatic partial application by trial
 * and error. The first call only captures arguments; every later call
 * merges the new arguments into the captured ones, tries the target, and
 * either returns its value, defers with a fresh wrapper when the target
 * complained about missing arguments, or lets the failure through.
 */
module Currying {
  import opened Substring

  /** An exception the target can raise: Python's TypeError (with its message) or any other. */
  datatype Exception<E> = TypeError(msg: string) | OtherError(err: E)

  /** What one call of the target does: return a value or raise. */
  datatype Outcome<V, E> = Return(value: V) | Raise(exc: Exception<E>)

  /** The target callable, seen only through what it does on an argument set. */
  type Target<!V, E> = (seq<V>, map<string, V>) -> Outcome<V, E>

  /** An argument set: positional arguments in order and keyword arguments by name. */
  datatype Args<V> = Args(pos: seq<V>, kw: map<string, V>)

  /**
   * The `functools.partial(curry, func, *args, _first=False, **kwargs)`
   * object: the target together with the arguments accumulated so far.
   */
  datatype Wrapper<!V, E> = Wrapper(target: Target<V, E>, acc: Args<V>)

  /** What a call of `curry` gives its caller. */
  datatype Reply<!V, E> =
    | Value(value: V)                  // the target's own return value
    | Raised(exc: Exception<E>)        // an exception propagated to the caller
    | Curried(wrapper: Wrapper<V, E>)  // a new wrapper waiting for more arguments

  const ExpectedAtLeast: string := "expected at least"
  const RequiredPositional: string := "required positional argument"

  /**
   * The classifier: a TypeError message that says the call lacked
   * arguments, recognised by either of two fixed substrings.
   */
  predicate IsIncomplete(msg: string)
    ensures IsIncomplete(msg) <==>
              (exists i :: OccursAt(msg, ExpectedAtLeast, i)) || (exists i :: OccursAt(msg, RequiredPositional, i))
  {
    Contains(msg, ExpectedAtLeast) || Contains(msg, RequiredPositional)
  }

  /**
   * How `functools.partial` combines its stored arguments with those of a
   * call: positionals are appended, keywords merged with the newer winning.
   */
  function Merge<V>(held: Args<V>, given: Args<V>): (r: Args<V>)
    ensures |r.pos| == |held.pos| + |given.pos|
    ensures r.pos[..|held.pos|] == held.pos && r.pos[|held.pos|..] == given.pos
    ensures r.kw.Keys == held.kw.Keys + given.kw.Keys
    ensures forall k :: k in given.kw ==> r.kw[k] == given.kw[k]
    ensures forall k :: k in held.kw && k !in given.kw ==> r.kw[k] == held.kw[k]
  {
    Args(held.pos + given.pos, held.kw + given.kw)
  }

  /**
   * `curry(func, *args, _first=first, **kwargs)`. With `first` set (the
   * default) it only captures the arguments; otherwise it tries the target
   * on them and classifies what happens.
   */
  function Curry<V, E>(target: Target<V, E>, args: Args<V>, first: bool): Reply<V, E> {
    if !first then
      match target(args.pos, args.kw)
      case Return(v) => Value(v)
      case Raise(TypeError(msg)) =>
        if !IsIncomplete(msg) then Raised(TypeError(msg)) else Curried(Wrapper(target, args))
      case Raise(OtherError(e)) => Raised(OtherError(e))
    else
      Curried(Wrapper(target, args))
  }

  /** Calling a wrapper: the partial object re-enters `curry` with the merged arguments and `_first=False`. */
  function Call<V, E>(w: Wrapper<V, E>, args: Args<V>): Reply<V, E> {
    Curry(w.target, Merge(w.acc, args), false)
  }

  /**
   * A chain of calls on a wrapper, one argument set per call, stopping at
   * the first reply that is not a wrapper.
   */
  function Run<V, E>(w: Wrapper<V, E>, calls: seq<Args<V>>): Reply<V, E>
    decreases |calls|
  {
    if calls == [] then
      Curried(w)
    else
      var r := Call(w, calls[0]);
      if r.Curried? then Run(r.wrapper, calls[1..]) else r
  }

  /** The argument set a chain of calls accumulates, starting from `acc`. */
  function Accumulate<V>(acc: Args<V>, calls: seq<Args<V>>): Args<V>
    decreases |calls|
  {
    if calls == [] then acc else Accumulate(Merge(acc, calls[0]), calls[1..])
  }

  /** All positional arguments of a chain of calls, in call order. */
  function AllPositional<V>(calls: seq<Args<V>>): seq<V>
    decreases |calls|
  {
    if calls == [] then [] else calls[0].pos + AllPositional(calls[1..])
  }

  /** The target, tried on `args`, raises a TypeError that the classifier treats as missing arguments. */
  predicate TriesIncomplete<V, E>(target: Target<V, E>, args: Args<V>) {
    var o := target(args.pos, args.kw);
    o.Raise? && o.exc.TypeError? && IsIncomplete(o.exc.msg)
  }

  /** Every call of the chain but the last leaves the target short of arguments. */
  predicate IncompleteBeforeLast<V, E>(target: Target<V, E>, acc: Args<V>, calls: seq<Args<V>>) {
    forall i :: 1 <= i < |calls| ==> TriesIncomplete(target, Accumulate(acc, calls[..i]))
  }

  // ---------------------------------------------------------------------
  // One call
  // ---------------------------------------------------------------------

  /**
   * The construction call never tries the target: whatever the target
   * would do on these arguments, the reply is a wrapper holding exactly them.
   */
  lemma ConstructionNeverEvaluates<V, E>(target: Target<V, E>, args: Args<V>)
    ensures Curry(target, args, true) == Curried(Wrapper(target, args))
  {
  }

  /** A later call whose merged arguments satisfy the target returns the target's value itself. */
  lemma SuccessReturnsValue<V, E>(w: Wrapper<V, E>, args: Args<V>, v: V)
    requires var m := Merge(w.acc, args); w.target(m.pos, m.kw) == Return(v)
    ensures Call(w, args) == Value(v)
  {
  }

  /** A missing-argument TypeError is swallowed: the new wrapper holds exactly the arguments just tried. */
  lemma IncompleteDefers<V, E>(w: Wrapper<V, E>, args: Args<V>)
    requires TriesIncomplete(w.target, Merge(w.acc, args))
    ensures Call(w, args) == Curried(Wrapper(w.target, Merge(w.acc, args)))
  {
  }

  /** Any other TypeError, and every exception that is not a TypeError, reaches the caller unchanged. */
  lemma OtherFailurePropagates<V, E>(w: Wrapper<V, E>, args: Args<V>, exc: Exception<E>)
    requires var m := Merge(w.acc, args); w.target(m.pos, m.kw) == Raise(exc)
    requires exc.TypeError? ==> !IsIncomplete(exc.msg)
    ensures Call(w, args) == Raised(exc)
  {
  }

  /** The three outcomes of a later call, classified: each reply arises in exactly one situation. */
  lemma CallClassification<V, E>(w: Wrapper<V, E>, args: Args<V>)
    ensures var m := Merge(w.acc, args);
            var o := w.target(m.pos, m.kw);
            && (Call(w, args).Value? <==> o.Return?)
            && (Call(w, args).Curried? <==> TriesIncomplete(w.target, m))
            && (Call(w, args).Raised? <==> o.Raise? && !TriesIncomplete(w.target, m))
            && (Call(w, args).Raised? ==> Call(w, args).exc == o.exc)
            && (Call(w, args).Curried? ==> Call(w, args).wrapper == Wrapper(w.target, m))
  {
  }

  /** An empty call on a wrapper that is still short of arguments gives a wrapper with the same arguments. */
  lemma EmptyCallKeepsArguments<V, E>(w: Wrapper<V, E>)
    requires TriesIncomplete(w.target, w.acc)
    ensures Call(w, Args([], map[])) == Curried(w)
  {
    assert Merge(w.acc, Args([], map[])) == w.acc;
  }

  // ---------------------------------------------------------------------
  // Chains of calls
  // ---------------------------------------------------------------------

  /** Accumulation appends the positionals of every call in order and never loses a keyword. */
  lemma {:induction false} AccumulateGrows<V>(acc: Args<V>, calls: seq<Args<V>>)
    ensures Accumulate(acc, calls).pos == acc.pos + AllPositional(calls)
    ensures acc.kw.Keys <= Accumulate(acc, calls).kw.Keys
    ensures forall i :: 0 <= i < |calls| ==> calls[i].kw.Keys <= Accumulate(acc, calls).kw.Keys
    decreases |calls|
  {
    if calls != [] {
      var next := Merge(acc, calls[0]);
      AccumulateGrows(next, calls[1..]);
      assert acc.pos + (calls[0].pos + AllPositional(calls[1..]))
          == (acc.pos + calls[0].pos) + AllPositional(calls[1..]);
      forall i | 0 <= i < |calls|
        ensures calls[i].kw.Keys <= Accumulate(acc, calls).kw.Keys
      {
        if i > 0 {
          assert calls[i] == calls[1..][i - 1];
        }
      }
    }
  }

  /** No call of the chain from index `i` on gives keyword `k`. */
  predicate NotGivenFrom<V>(calls: seq<Args<V>>, k: string, i: int) {
    forall j :: 0 <= j < |calls| && i <= j ==> k !in calls[j].kw
  }

  /** A keyword is in the accumulated set exactly when the initial set or some call gave it. */
  lemma {:induction false} AccumulateKeywordPresent<V>(acc: Args<V>, calls: seq<Args<V>>, k: string)
    ensures k in Accumulate(acc, calls).kw <==> k in acc.kw || !NotGivenFrom(calls, k, 0)
    decreases |calls|
  {
    if calls != [] {
      AccumulateKeywordPresent(Merge(acc, calls[0]), calls[1..], k);
      if !NotGivenFrom(calls, k, 0) {
        var j :| 0 <= j < |calls| && k in calls[j].kw;
        if j > 0 {
          assert calls[1..][j - 1] == calls[j];
        }
      }
      if !NotGivenFrom(calls[1..], k, 0) {
        var j :| 0 <= j < |calls[1..]| && k in calls[1..][j].kw;
        assert calls[1..][j] == calls[j + 1];
      }
    }
  }

  /** A keyword's accumulated value is the one from the last call that gave it. */
  lemma {:induction false} AccumulateKeywordLast<V>(acc: Args<V>, calls: seq<Args<V>>, k: string, i: nat)
    requires i < |calls| && k in calls[i].kw && NotGivenFrom(calls, k, i + 1)
    ensures k in Accumulate(acc, calls).kw && Accumulate(acc, calls).kw[k] == calls[i].kw[k]
    decreases |calls|
  {
    var rest := calls[1..];
    if i > 0 {
      assert rest[i - 1] == calls[i];
      assert NotGivenFrom(rest, k, i) by {
        forall j | i <= j < |rest| ensures k !in rest[j].kw {
          assert rest[j] == calls[j + 1];
        }
      }
      AccumulateKeywordLast(Merge(acc, calls[0]), rest, k, i - 1);
    } else {
      assert NotGivenFrom(rest, k, 0) by {
        forall j | 0 <= j < |rest| ensures k !in rest[j].kw {
          assert rest[j] == calls[j + 1];
        }
      }
      AccumulateKeywordInitial(Merge(acc, calls[0]), rest, k);
    }
  }

  /** A keyword no call gave keeps its initial value. */
  lemma {:induction false} AccumulateKeywordInitial<V>(acc: Args<V>, calls: seq<Args<V>>, k: string)
    requires k in acc.kw && NotGivenFrom(calls, k, 0)
    ensures k in Accumulate(acc, calls).kw && Accumulate(acc, calls).kw[k] == acc.kw[k]
    decreases |calls|
  {
    if calls != [] {
      var rest := calls[1..];
      assert NotGivenFrom(rest, k, 0) by {
        forall j | 0 <= j < |rest| ensures k !in rest[j].kw {
          assert rest[j] == calls[j + 1];
        }
      }
      AccumulateKeywordInitial(Merge(acc, calls[0]), rest, k);
    }
  }

  /** Adding one call at the end of a chain merges its arguments into what the chain accumulated. */
  lemma {:induction false} AccumulateSnoc<V>(acc: Args<V>, calls: seq<Args<V>>, last: Args<V>)
    ensures Accumulate(acc, calls + [last]) == Merge(Accumulate(acc, calls), last)
    decreases |calls|
  {
    if calls == [] {
      assert [last][1..] == [];
    } else {
      assert (calls + [last])[1..] == calls[1..] + [last];
      AccumulateSnoc(Merge(acc, calls[0]), calls[1..], last);
    }
  }

  /** Splitting a chain: the first `i` calls accumulate, the rest continue from there. */
  lemma {:induction false} AccumulatePrefix<V>(acc: Args<V>, calls: seq<Args<V>>, i: nat)
    requires 1 <= i <= |calls|
    ensures Accumulate(acc, calls[..i]) == Accumulate(Merge(acc, calls[0]), calls[1..][..i - 1])
  {
    assert calls[..i][0] == calls[0];
    assert calls[..i][1..] == calls[1..][..i - 1];
  }

  /**
   * While the chain keeps deferring, the wrapper it ends with holds the
   * target and exactly the accumulated arguments.
   */
  lemma {:induction false} RunAccumulates<V, E>(w: Wrapper<V, E>, calls: seq<Args<V>>)
    requires Run(w, calls).Curried?
    ensures Run(w, calls).wrapper == Wrapper(w.target, Accumulate(w.acc, calls))
    decreases |calls|
  {
    if calls != [] {
      var r := Call(w, calls[0]);
      RunAccumulates(r.wrapper, calls[1..]);
    }
  }

  /**
   * Transparency: when every call but the last leaves the target short of
   * arguments, the chain ends exactly as one call of the target on all the
   * accumulated arguments would: its value, its (non-swallowed) exception,
   * or a wrapper holding them all.
   */
  lemma {:induction false} RunIsTransparent<V, E>(w: Wrapper<V, E>, calls: seq<Args<V>>)
    requires |calls| >= 1
    requires IncompleteBeforeLast(w.target, w.acc, calls)
    ensures var all := Accumulate(w.acc, calls);
            Run(w, calls) == Curry(w.target, all, false)
    decreases |calls|
  {
    var next := Merge(w.acc, calls[0]);
    if |calls| > 1 {
      AccumulatePrefix(w.acc, calls, 1);
      assert calls[..1][1..] == [];
      assert TriesIncomplete(w.target, next);
      assert Call(w, calls[0]) == Curried(Wrapper(w.target, next));
      forall i | 1 <= i < |calls[1..]|
        ensures TriesIncomplete(w.target, Accumulate(next, calls[1..][..i]))
      {
        AccumulatePrefix(w.acc, calls, i + 1);
        assert calls[1..][..i] == calls[1..][..i + 1 - 1];
      }
      RunIsTransparent(Wrapper(w.target, next), calls[1..]);
    } else {
      assert calls[1..] == [];
    }
  }

  /**
   * Grouping does not matter: two chains that accumulate the same
   * arguments, each leaving the target short until its last call, end
   * with the same reply.
   */
  lemma GroupingInsensitive<V, E>(w: Wrapper<V, E>, calls1: seq<Args<V>>, calls2: seq<Args<V>>)
    requires |calls1| >= 1 && |calls2| >= 1
    requires Accumulate(w.acc, calls1) == Accumulate(w.acc, calls2)
    requires IncompleteBeforeLast(w.target, w.acc, calls1)
    requires IncompleteBeforeLast(w.target, w.acc, calls2)
    ensures Run(w, calls1) == Run(w, calls2)
  {
    RunIsTransparent(w, calls1);
    RunIsTransparent(w, calls2);
  }

  /**
   * The classifier cannot tell a genuine shortage of arguments from a
   * TypeError the target's own body raises with a matching message: a
   * target that always raises such an error never finishes, whatever
   * arguments the chain supplies, and its error is never seen.
   */
  lemma {:induction false} MatchingBodyErrorNeverSurfaces<V, E>(w: Wrapper<V, E>, calls: seq<Args<V>>, msg: string)
    requires IsIncomplete(msg)
    requires forall pos, kw :: w.target(pos, kw) == Raise(TypeError(msg))
    ensures Run(w, calls) == Curried(Wrapper(w.target, Accumulate(w.acc, calls)))
    decreases |calls|
  {
    if calls != [] {
      var next := Merge(w.acc, calls[0]);
      assert w.target(next.pos, next.kw) == Raise(TypeError(msg));
      MatchingBodyErrorNeverSurfaces(Wrapper(w.target, next), calls[1..], msg);
    }
  }
}
