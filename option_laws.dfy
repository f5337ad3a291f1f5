/** Properties that relate the members of `Navp.Option` and `OptionCells`
    to one another: agreement between the accessor families, the laws of the
    combinators, and the quirks of `==`, `|` and `is_none_or`. */
module OptionLaws {
  import opened Navp
  import opened OptionCells

  /** The presence queries: `is_some` and `is_none` are complements and
      `operator bool` is `is_some`. */
  lemma PresenceQueries<T>(o: Option<T>)
    ensures o.IsSome() != o.IsNone()
    ensures o.ToBool() == o.IsSome()
    ensures o.Index() == (if o.IsSome() then 0 else 1)
  {
  }

  /** A value put in comes back out of `unwrap()`, and the option is present. */
  lemma ValueRoundTrip<T>(v: T)
    ensures Some(v).Unwrap() == Ok(v)
    ensures Some(v).IsSome() && !(Some(v).IsNone())
  {
  }

  /** Absence identity: an absent option is `None`, compares equal to `None`,
      and unwrapping it fails with the fixed message. */
  lemma AbsenceIdentity<T>()
    ensures Option<T>.None.IsNone()
    ensures EqualsNone(Option<T>.None)
    ensures Option<T>.None.Unwrap() == Err(OptionError(UnwrapMessage))
  {
  }

  /** `expected(msg)` is `unwrap()` with a caller-chosen message: both succeed
      on the same options with the same value, and the fixed message makes
      them identical. */
  lemma ExpectedGeneralisesUnwrap<T>(o: Option<T>, msg: string)
    ensures o.Expected(UnwrapMessage) == o.Unwrap()
    ensures o.Expected(msg).Ok? == o.Unwrap().Ok?
    ensures o.Unwrap().Ok? ==> o.Expected(msg).value == o.Unwrap().value
  {
  }

  /** `unwrap_unchecked()` agrees with `unwrap()` on present options and also
      fails on absent ones, with `std::get`'s exception. */
  lemma UncheckedAgreesWithUnwrap<T>(o: Option<T>)
    ensures o.UnwrapUnchecked().Ok? == o.Unwrap().Ok?
    ensures o.IsSome() ==> o.UnwrapUnchecked() == o.Unwrap()
    ensures o.IsNone() ==> o.UnwrapUnchecked().error != o.Unwrap().error
  {
  }

  /** The fallback family: each returns what `unwrap()` returns when that
      succeeds, and its fallback otherwise; the three agree for one fallback. */
  lemma FallbacksAgree<T>(o: Option<T>, x: T)
    ensures o.UnwrapOr(x) == (if o.Unwrap().Ok? then o.Unwrap().value else x)
    ensures o.UnwrapOrDefault(x) == o.UnwrapOr(x)
    ensures o.UnwrapOrElse(() => x) == o.UnwrapOr(x)
  {
  }

  /** An absent option never consults the callbacks it is given: swapping
      them for any others changes no result. */
  lemma AbsentIgnoresCallbacks<T, R, U, E>(f: T -> Option<R>, g: T -> Option<R>,
                                           h: T -> U, k: T -> U, d: U, p: () -> U,
                                           q: T -> bool, s: T -> bool,
                                           e: T -> E, effects: seq<E>)
    ensures Option<T>.None.Map(f) == Option<T>.None.Map(g) == None
    ensures Option<T>.None.MapOr(h, d) == Option<T>.None.MapOr(k, d) == d
    ensures Option<T>.None.MapOrElse(p, h) == Option<T>.None.MapOrElse(p, k) == p()
    ensures Option<T>.None.IsSomeAnd(q) == Option<T>.None.IsSomeAnd(s) == false
    ensures Option<T>.None.IsNoneOr(q) == Option<T>.None.IsNoneOr(s) == true
    ensures Option<T>.None.Inspect(e, effects) == (None, effects)
  {
  }

  /** `map_or` is the converting construction followed by `unwrap_or`, and
      `map_or_else` with a constant producer is `map_or`. */
  lemma MapOrViaConvert<T, U>(o: Option<T>, f: T -> U, d: U)
    ensures o.MapOr(f, d) == o.Convert(f).UnwrapOr(d)
    ensures o.MapOrElse(() => d, f) == o.MapOr(f, d)
  {
  }

  /** `is_some_and(f)` is `map_or(f, false)`, and the intended `is_none_or`
      is its De Morgan dual. */
  lemma PredicateQueriesAreDual<T>(o: Option<T>, f: T -> bool)
    ensures o.IsSomeAnd(f) == o.MapOr(f, false)
    ensures o.IsNoneOr(f) == !o.IsSomeAnd(x => !f(x))
  {
  }

  /** `map` is a monadic bind: `Some` is its unit on both sides, it is
      associative, and the converting construction is `map` of `Some . f`. */
  lemma MapIsBind<T, R, S>(o: Option<T>, v: T, f: T -> Option<R>, g: R -> Option<S>, c: T -> R)
    ensures Some(v).Map(f) == f(v)
    ensures o.Map(x => Some(x)) == o
    ensures o.Map(f).Map(g) == o.Map(x => f(x).Map(g))
    ensures o.Convert(c) == o.Map(x => Some(c(x)))
  {
  }

  /** Converting there and back with a left-inverse restores the option. */
  lemma ConvertRoundTrip<T, U>(o: Option<T>, to: T -> U, back: U -> T)
    requires forall t :: back(to(t)) == t
    ensures o.Convert(to).Convert(back) == o
  {
  }

  /** `inspect` can be chained: the option passes through and each present
      inspection appends its effect, in call order. */
  lemma InspectChains<T, E>(o: Option<T>, f: T -> E, g: T -> E, effects: seq<E>)
    ensures o.Inspect(f, effects).0.Inspect(g, o.Inspect(f, effects).1).0 == o
    ensures o.Some? ==> o.Inspect(g, o.Inspect(f, effects).1).1 == effects + [f(o.value), g(o.value)]
    ensures o.None? ==> o.Inspect(g, o.Inspect(f, effects).1).1 == effects
  {
  }

  /** `operator|` keeps only the right operand, and only when the left one is
      present: it is present exactly when both are, it is associative, and
      the left operand's value never matters. */
  lemma PipeIsAnd<T, U, V>(a: Option<T>, b: Option<U>, c: Option<V>, x: T, y: T)
    ensures a.Pipe(b).IsSome() <==> a.IsSome() && b.IsSome()
    ensures a.Pipe(b).Pipe(c) == a.Pipe(b.Pipe(c))
    ensures Some(x).Pipe(b) == Some(y).Pipe(b)
    ensures Option<T>.None.Pipe(b) == None
  {
  }

  /** Comparing with the absence tag is `is_none()`; comparing with an absent
      option instead answers true for every left-hand side. */
  lemma EqualsAgainstAbsent<T>(o: Option<T>)
    ensures EqualsNone(o) == o.IsNone()
    ensures Equals(o, None)
    ensures Equals(None, o) == o.IsNone()
  {
  }

  /** The written `==` agrees with the intended one except for a present
      left-hand side against an absent right-hand side. */
  lemma EqualsDeviatesOnlyForPresentVsAbsent<T>(a: Option<T>, b: Option<T>)
    ensures Equals(a, b) != EqualsIntended(a, b) <==> a.Some? && b.None?
  {
  }

  /** The written `==` is not symmetric. */
  lemma EqualsAsWrittenIsNotSymmetric()
    ensures exists a: Option<int>, b: Option<int> :: Equals(a, b) && !Equals(b, a)
  {
    assert Equals(Some(1), None) && !Equals(None, Some(1));
  }

  /** The intended equality case by case, and that it is an equivalence. */
  lemma EqualsIntendedCases<T>(a: Option<T>, b: Option<T>, c: Option<T>, x: T)
    ensures EqualsIntended(Option<T>.None, Option<T>.None)
    ensures !EqualsIntended(Some(x), None) && !EqualsIntended(None, Some(x))
    ensures a.Some? && b.Some? ==> (EqualsIntended(a, b) <==> a.value == b.value)
    ensures EqualsIntended(a, a)
    ensures EqualsIntended(a, b) == EqualsIntended(b, a)
    ensures EqualsIntended(a, b) && EqualsIntended(b, c) ==> EqualsIntended(a, c)
  {
  }

  /** The written `is_none_or` agrees with the intended one only where the
      cast happens to give the predicate's verdict. */
  lemma IsNoneOrDeviation<T>(o: Option<T>, f: T -> bool, castTruth: bool)
    ensures o.IsNoneOrAsWritten(f, castTruth) == o.IsNoneOr(f) <==> o.None? || castTruth == f(o.value)
  {
  }

  /** The predicate `d > 0` of the `is_none_or` test case. */
  function Positive(d: int): bool
  {
    d > 0
  }

  /** A present option whose value fails the predicate still passes the
      written `is_none_or` when the cast reads as true. */
  lemma IsNoneOrAsWrittenIgnoresPredicate()
    ensures exists o: Option<int> :: o.IsNoneOrAsWritten(Positive, true) && !o.IsNoneOr(Positive)
  {
    var o: Option<int> := Some(-1);
    assert o.IsNoneOrAsWritten(Positive, true) && !o.IsNoneOr(Positive);
  }

  /** `get_or_insert` is idempotent: once the option is present, a second call
      leaves it as it is, whatever it is given. */
  lemma GetOrInsertIdempotent<T>(o: Option<T>, v: T, w: T)
    ensures GetOrInserted(GetOrInserted(o, v), w) == GetOrInserted(o, v)
    ensures GetOrInserted(o, v).IsSome()
  {
  }
}
