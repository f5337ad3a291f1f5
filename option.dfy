/** The value side of `navp::Option<T>`: a closed two-state sum type (present or
    absent) with its queries, unwrapping accessors and combinators. Every accessor
    of the source is a single conditional on the variant index; here it is a
    single conditional on the datatype's constructor. */
module Navp {

  /** Message carried by the failure of `unwrap()` on an absent option. */
  const UnwrapMessage: string := "unwrap a none option!"

  /** The failures an accessor can raise. `OptionError` is the library's own
      exception type; `BadVariantAccess` is what `std::get` throws when the
      unchecked accessor reads the wrong arm of the variant. */
  datatype Error = OptionError(message: string) | BadVariantAccess

  /** Either the accessed value or the failure that was thrown instead. */
  datatype Result<T> = Ok(value: T) | Err(error: Error)

  /** `Some(value)` is the present arm (variant index 0), `None` the absent
      arm (variant index 1). */
  datatype Option<T> = Some(value: T) | None {

    /** The index of the active arm of the underlying variant. */
    function Index(): (i: nat)
      ensures i < 2
      ensures i == 0 <==> Some?
    {
      if Some? then 0 else 1
    }

    /** `is_some()`: the active arm is the present one. */
    function IsSome(): (b: bool)
      ensures b <==> Some?
    {
      Index() == 0
    }

    /** `is_none()`: the active arm is the absent one. */
    function IsNone(): (b: bool)
      ensures b <==> None?
      ensures b == !IsSome()
    {
      Index() == 1
    }

    /** `operator bool`: an option converts to true exactly when present. */
    function ToBool(): (b: bool)
      ensures b <==> Some?
    {
      IsSome()
    }

    /** `is_some_and(f)`: false when absent, without consulting `f`. */
    function IsSomeAnd(f: T -> bool): (b: bool)
      ensures b ==> Some?
      ensures Some? ==> b == f(value)
    {
      if IsSome() then f(value) else false
    }

    /** `is_none_or(f)` as the library evidently means it: true when absent,
        otherwise the predicate's verdict on the value. The source's present
        branch is modelled separately by `IsNoneOrAsWritten`. */
    function IsNoneOr(f: T -> bool): (b: bool)
      ensures None? ==> b
      ensures Some? ==> b == f(value)
    {
      if IsSome() then f(value) else true
    }

    /** `is_none_or(f)` as the source writes it: the present branch evaluates
        the cast `F(value)` instead of calling `f`, so its truth value is not
        the predicate's. That truth value is supplied as `castTruth`. */
    function IsNoneOrAsWritten(f: T -> bool, castTruth: bool): (b: bool)
      ensures None? ==> b
      ensures Some? ==> b == castTruth
    {
      if IsSome() then castTruth else true
    }

    /** `inspect(f)`: the callback runs (its effect appended to `effects`)
        only when present; the option itself comes back unchanged. */
    function Inspect<E>(f: T -> E, effects: seq<E>): (r: (Option<T>, seq<E>))
      ensures r.0 == this
      ensures Some? ==> r.1 == effects + [f(value)]
      ensures None? ==> r.1 == effects
    {
      if IsSome() then (this, effects + [f(value)]) else (this, effects)
    }

    /** `unwrap()`: the contained value, or `option_error` with the fixed
        message when absent. */
    function Unwrap(): (r: Result<T>)
      ensures r.Ok? <==> Some?
      ensures Some? ==> r.value == value
      ensures None? ==> r.error == OptionError(UnwrapMessage)
    {
      if IsSome() then Ok(value) else Err(OptionError(UnwrapMessage))
    }

    /** `expected(msg)`: like `unwrap()`, but the failure carries `msg`. */
    function Expected(msg: string): (r: Result<T>)
      ensures r.Ok? <==> Some?
      ensures Some? ==> r.value == value
      ensures None? ==> r.error == OptionError(msg)
    {
      if IsSome() then Ok(value) else Err(OptionError(msg))
    }

    /** `unwrap_unchecked()`: reads the present arm with `std::get`, which
        throws `bad_variant_access` on an absent option. */
    function UnwrapUnchecked(): (r: Result<T>)
      ensures r.Ok? <==> Some?
      ensures Some? ==> r.value == value
      ensures None? ==> r.error == BadVariantAccess
    {
      if Some? then Ok(value) else Err(BadVariantAccess)
    }

    /** `unwrap_or(fallback)`. */
    function UnwrapOr(fallback: T): (r: T)
      ensures Some? ==> r == value
      ensures None? ==> r == fallback
    {
      if IsSome() then value else fallback
    }

    /** `unwrap_or_default()`; `zero` stands for the value-initialised `T()`. */
    function UnwrapOrDefault(zero: T): (r: T)
      ensures Some? ==> r == value
      ensures None? ==> r == zero
    {
      if IsSome() then value else zero
    }

    /** `unwrap_or_else(produce)`: the producer is only consulted when absent. */
    function UnwrapOrElse(produce: () -> T): (r: T)
      ensures Some? ==> r == value
      ensures None? ==> r == produce()
    {
      if IsSome() then value else produce()
    }

    /** `map(f)`: `f(value)` when present, `None` when absent. The result of
        `f` is returned as is, so `f` itself yields an option: this is a
        monadic bind, not a lift. */
    function Map<R>(f: T -> Option<R>): (r: Option<R>)
      ensures Some? ==> r == f(value)
      ensures None? ==> r == None
    {
      if IsSome() then f(value) else None
    }

    /** `map_or(f, fallback)`. */
    function MapOr<U>(f: T -> U, fallback: U): (r: U)
      ensures Some? ==> r == f(value)
      ensures None? ==> r == fallback
    {
      if IsSome() then f(value) else fallback
    }

    /** `map_or_else(produce, f)`: note the producer comes first. */
    function MapOrElse<U>(produce: () -> U, f: T -> U): (r: U)
      ensures Some? ==> r == f(value)
      ensures None? ==> r == produce()
    {
      if IsSome() then f(value) else produce()
    }

    /** The converting constructor from `Option<U>`, read as a value: absent
        stays absent and a present value is passed through `convert`. */
    function Convert<U>(convert: T -> U): (r: Option<U>)
      ensures r.Some? <==> Some?
      ensures Some? ==> r.value == convert(value)
    {
      if IsNone() then None else Some(convert(value))
    }

    /** `operator|`: the right operand when this option is present, `None`
        otherwise (Rust's `and`, not `or`). */
    function Pipe<U>(rhs: Option<U>): (r: Option<U>)
      ensures Some? ==> r == rhs
      ensures None? ==> r == None
    {
      if IsSome() then rhs else None
    }
  }

  /** `operator==(const Option<U>&)` as the source writes it: the contained
      values are compared when both sides are present, and otherwise the
      answer is whether the right-hand side is absent. */
  function Equals<T(==)>(lhs: Option<T>, rhs: Option<T>): (b: bool)
    ensures lhs.Some? && rhs.Some? ==> (b <==> rhs.value == lhs.value)
    ensures !(lhs.Some? && rhs.Some?) ==> b == rhs.IsNone()
  {
    if lhs.IsSome() && rhs.IsSome() then rhs.value == lhs.value else rhs.IsNone()
  }

  /** Equality as the library evidently intends it: present options with
      equal values, or both absent. */
  function EqualsIntended<T(==)>(lhs: Option<T>, rhs: Option<T>): (b: bool)
    ensures b <==> lhs == rhs
  {
    if lhs.IsSome() && rhs.IsSome() then rhs.value == lhs.value
    else lhs.IsNone() && rhs.IsNone()
  }

  /** `operator==(NoneType)`: comparing with the absence tag asks whether the
      option is absent. */
  function EqualsNone<T>(lhs: Option<T>): (b: bool)
    ensures b <==> lhs.None?
  {
    lhs.IsNone()
  }
}
