# navp::Option in Dafny

A model of `navp::Option<T>` (option.hpp), a Rust-style optional value built
on `std::variant<T, NoneType>`. Variant index 0 is the present arm, index 1
the absent arm. The model has three modules.

- `Navp` (option.dfy) is the value side. `datatype Option<T> = Some(value: T) | None`
  carries every query, accessor and combinator as a member function. Each one
  is the same single conditional on the active arm as in the source. The `Some(...)`
  helpers of option.hpp:406-430 are the datatype constructor `Some`. A thrown
  exception becomes `Result<T>.Err`. The error is `OptionError(message)` for
  `option_error`, or `BadVariantAccess` for the exception `std::get` throws.
- `OptionCells` (option_cell.dfy) is the object side. `class OptionCell<T>`
  holds the active arm in a field `state`. Its constructors and methods model
  construction, assignment from `None`, `insert`, `get_or_insert` and `replace`.
  These change the arm in place.
- `OptionLaws` (option_laws.dfy) relates the members to one another. It covers
  the three fallback accessors against `unwrap`, `expected` against `unwrap`,
  `map_or` against conversion, the bind laws of `map`, idempotence of
  `get_or_insert`, and the quirks of `==`, `|` and `is_none_or`.

Behaviour kept as the source writes it:

- `a | b` yields `b` when `a` is present and `None` otherwise. This is Rust's
  `and`, not the `or` its name suggests (`Pipe`, `PipeIsAnd`).
- `map(f)` returns `f(value)` itself, so `f` must yield an option. It is a
  monadic bind (`Map`, `MapIsBind`).
- `insert` returns the object, not the value (`OptionCell.Insert` returns `this`).
- `unwrap_unchecked()` on an absent option is not undefined here. It reads the
  arm with `std::get`, which throws `bad_variant_access`, and test.cpp:277
  expects a throw (`UnwrapUnchecked`).

## Model

| member | source | states |
|---|---|---|
| `Navp.Option.Index` | option.hpp:161-164 | the discriminant is 0 or 1, and 0 exactly for the present arm |
| `Navp.Option.IsSome` | option.hpp:161 | `is_some()` holds exactly for the present arm |
| `Navp.Option.IsNone` | option.hpp:164 | `is_none()` holds exactly for the absent arm and is the negation of `is_some()` |
| `Navp.Option.ToBool` | option.hpp:53 | `operator bool` is true exactly when present |
| `Navp.Option.IsSomeAnd` | option.hpp:167-184 | true only when present, and then it is the predicate's verdict on the value |
| `Navp.Option.IsNoneOr` | option.hpp:187-202 | intended `is_none_or`: true when absent, otherwise the predicate's verdict |
| `Navp.Option.IsNoneOrAsWritten` | option.hpp:187-202 | as written: true when absent; when present, the truth of the cast `F(value)`, whatever `f` answers |
| `Navp.Option.Inspect` | option.hpp:239-254 | returns the option unchanged; the callback's effect is recorded once when present and not at all when absent |
| `Navp.Option.Unwrap` | option.hpp:272-303 | succeeds exactly when present, with the contained value; when absent, fails with `option_error("unwrap a none option!")` |
| `Navp.Option.Expected` | option.hpp:336-342 | succeeds exactly when present, with the value; when absent, fails with `option_error(msg)` |
| `Navp.Option.UnwrapUnchecked` | option.hpp:332-333 | the value when present; `bad_variant_access` from `std::get` when absent |
| `Navp.Option.UnwrapOr` | option.hpp:306-315 | the value when present, the fallback when absent |
| `Navp.Option.UnwrapOrDefault` | option.hpp:318-322 | the value when present, `T()` when absent |
| `Navp.Option.UnwrapOrElse` | option.hpp:325-329 | the value when present, the producer's result when absent |
| `Navp.Option.Map` | option.hpp:345-354 | `f(value)` (itself an option) when present, `None` when absent |
| `Navp.Option.MapOr` | option.hpp:357-366 | `f(value)` when present, the default when absent |
| `Navp.Option.MapOrElse` | option.hpp:369-380 | `f(value)` when present, the producer's result when absent |
| `Navp.Option.Convert` | option.hpp:98-140 | conversion from `Option<U>` keeps presence and converts a present value |
| `Navp.Option.Pipe` | option.hpp:67-74 | the bar operator applied to `a` and `b` yields `b` when `a` is present and `None` when `a` is absent |
| `Navp.Equals` | option.hpp:56-63 | as written: compares the values when both are present; otherwise the answer is exactly `rhs.is_none()` |
| `Navp.EqualsIntended` | option.hpp:56-63 | intended equality: true exactly when the two options are equal values |
| `Navp.EqualsNone` | option.hpp:64 | `o == None` holds exactly when `o` is absent |
| `OptionCells.GetOrInserted` | option.hpp:220-236 | after `get_or_insert(v)` the option is present; a present option is unchanged and an absent one holds `v` |
| `OptionCells.OptionCell.constructor` | option.hpp:76 | default construction gives an absent option |
| `OptionCells.OptionCell.FromNone` | option.hpp:154 | construction from `None` gives an absent option |
| `OptionCells.OptionCell.FromValue` | option.hpp:83-95 | construction from a value gives a present option whose `unwrap()` returns the converted value |
| `OptionCells.OptionCell.FromOption` | option.hpp:98-140 | construction from `Option<U>` maps absent to absent and present to present with the converted value |
| `OptionCells.OptionCell.AssignNone` | option.hpp:155-158 | after assigning `None` the option is absent, whatever it held; the object is returned |
| `OptionCells.OptionCell.Insert` | option.hpp:205-217 | after `insert(v)` the option holds `v`, whatever it held; the object itself is returned |
| `OptionCells.OptionCell.GetOrInsert` | option.hpp:220-236 | the new state is `GetOrInserted(old state, v)`, and the returned value is the one now held |
| `OptionCells.OptionCell.Replace` | option.hpp:257-269 | after `replace(v)` the option holds `v`, whatever it held, and `v` is returned |
| `OptionLaws.PresenceQueries` | option.hpp:161-164 | `is_some` and `is_none` are complements, `operator bool` is `is_some`, and the index matches |
| `OptionLaws.ValueRoundTrip` | option.hpp:407-416 | `Some(v).unwrap()` returns `v`, and `Some(v)` is present |
| `OptionLaws.AbsenceIdentity` | option.hpp:76 | an absent option is `is_none()`, equals `None`, and fails to unwrap with the fixed message |
| `OptionLaws.ExpectedGeneralisesUnwrap` | option.hpp:336-342 | `expected(msg)` succeeds on the same options as `unwrap()` with the same value; with the fixed message the two are identical |
| `OptionLaws.UncheckedAgreesWithUnwrap` | option.hpp:332-333 | `unwrap_unchecked()` agrees with `unwrap()` when present and also fails when absent, with a different exception |
| `OptionLaws.FallbacksAgree` | option.hpp:306-329 | `unwrap_or`, `unwrap_or_default` and `unwrap_or_else` return `unwrap()`'s value when it succeeds and the fallback otherwise |
| `OptionLaws.AbsentIgnoresCallbacks` | option.hpp:345-380 | on an absent option, `map`, `map_or`, `map_or_else`, `is_some_and`, `is_none_or` and `inspect` give the same result for any callback |
| `OptionLaws.MapOrViaConvert` | option.hpp:357-366 | `map_or(f, d)` is conversion by `f` followed by `unwrap_or(d)`, and `map_or_else` with a constant producer is `map_or` |
| `OptionLaws.PredicateQueriesAreDual` | option.hpp:167-202 | `is_some_and(f)` is `map_or(f, false)`, and the intended `is_none_or(f)` is `!is_some_and(!f)` |
| `OptionLaws.MapIsBind` | option.hpp:345-354 | `map` satisfies the left-unit, right-unit and associativity laws of a bind, and conversion is `map` of `Some` after the conversion |
| `OptionLaws.ConvertRoundTrip` | option.hpp:98-140 | converting by a function and back by its left inverse restores the option |
| `OptionLaws.InspectChains` | option.hpp:239-254 | two chained `inspect` calls return the original option; when present they append `f`'s effect then `g`'s, in that order; when absent the effect log is unchanged |
| `OptionLaws.PipeIsAnd` | option.hpp:67-74 | the bar operator's result is present exactly when both operands are; it is associative; the left value never matters; an absent left operand gives `None` |
| `OptionLaws.EqualsAgainstAbsent` | option.hpp:56-64 | `o == None` is `is_none()`, but `o == Option()` is true for every `o`, and `Option() == o` is `o.is_none()` |
| `OptionLaws.EqualsDeviatesOnlyForPresentVsAbsent` | option.hpp:58-63 | the written `==` differs from the intended one exactly for a present lhs against an absent rhs |
| `OptionLaws.EqualsAsWrittenIsNotSymmetric` | option.hpp:58-63 | there are options `a`, `b` with `a == b` but not `b == a` |
| `OptionLaws.EqualsIntendedCases` | option.hpp:58-63 | intended equality case by case: both absent are equal, present against absent is unequal in either order, both present compare their values; and it is reflexive, symmetric and transitive |
| `OptionLaws.IsNoneOrDeviation` | option.hpp:190-191 | the written `is_none_or` agrees with the intended one exactly when absent or when the cast gives the predicate's verdict |
| `OptionLaws.IsNoneOrAsWrittenIgnoresPredicate` | option.hpp:190-191 | a present value that fails the predicate can still pass the written `is_none_or` |
| `OptionLaws.GetOrInsertIdempotent` | option.hpp:220-227 | a second `get_or_insert` leaves the option as the first one left it, whatever value it is given |

## Left out

- The stack-trace printing before each throw (option.hpp:276, 284, 292, 300, 340). It is diagnostic output with no effect on the result.
- The compile-time constraint machinery, `noexcept` specifications and the implicit/explicit split of the constructors (option.hpp:21-47, 83-151). A conversion from `U` to `T` is passed as a function instead.
- Value-category overload sets, and the `in_place` and `initializer_list` overloads. Each accessor is one function and each mutator is one method that takes the already-built value.
- The defaulted copy and move constructors and assignments (option.hpp:77-80). An `Option` is a Dafny value, so copying it is plain assignment.
- The `Some(...)` helpers' deduction of a reference element type for a non-const lvalue argument (option.hpp:407-410). This is C++ template deduction.
- `as_ref` (option.hpp:383-390). It returns a `std::reference_wrapper` aliasing the contained value, and Dafny values cannot alias.
- The triviality, size and deletion properties of the type. These are C++ layout and type-trait facts.
- `OptionCells.OptionCell.Insert`: the case where building the new value throws is not modelled. The value is built before the call here, so the failure propagates before the mutator runs. The same holds for `Replace`. The variant's valueless state after such a throw is library-internal.
- `OptionCells.OptionCell.GetOrInsert`: the source builds its `T` only when the option is absent (option.hpp:223-225), so on a present option a throwing or side-effecting constructor never runs. The model always takes an already-built `v`, so it does not capture that the construction is skipped; only the state (`GetOrInserted`) reflects that `v` is unused when present.
- `Navp.Option.Unwrap`, `Navp.Option.Expected`, `Navp.Option.UnwrapOr`, `Navp.Option.Inspect`, `OptionCells.OptionCell.GetOrInsert` and `OptionCells.OptionCell.Replace`: in the source these return a reference into the option's own storage (`T&` at option.hpp:272, 336, 306, 221 and 258; `Option&` at option.hpp:241), so writing through the result changes the held value. The model returns a copy of the value (or of the option), so that aliasing is not captured. `OptionCells.OptionCell.Insert` keeps it by returning the object itself.
- `Navp.Equals`: compares options of the same element type only. The source also accepts `Option<U>` with `U` convertible to `T`.
- `Navp.Option.IsNoneOrAsWritten`: the present branch's truth value is a parameter. The cast `F(value)` depends on what callable type `F` is deduced as. For a captureless lambda passed as an lvalue, as in test.cpp:253, the cast reinterprets the value as the closure, which converts to `true`.
- `Navp.Option.UnwrapOrDefault`: `T()` is passed in as `zero`, because Dafny has no value-initialisation of an arbitrary type parameter.

## Findings

| source | as written | input that shows it | evidently intended | confidence | as-written member | corrected member |
|---|---|---|---|---|---|---|
| option.hpp:58-63 | when the two sides are not both present, `==` returns `rhs.is_none()` | `Some(1) == Option<int>()` is true, while `Option<int>() == Some(1)` is false | present against absent is unequal, so `==` is symmetric | medium, not executed | `OptionLaws.EqualsAsWrittenIsNotSymmetric` | `OptionLaws.EqualsIntendedCases` |
| option.hpp:190-191 | the present branch of `is_none_or` evaluates the cast `F(value)` instead of the call `f(value)` | `Some(-1.0).is_none_or(f1)` with `f1 = [](const double& d) { return d > 0.0; }` passed as an lvalue gives true | the predicate's verdict, false here | medium, not executed | `OptionLaws.IsNoneOrAsWrittenIgnoresPredicate` | `OptionLaws.PredicateQueriesAreDual` |
