/** The object side of `navp::Option<T>`: construction and the mutators that
    switch the variant's active arm in place (`emplace<0>` or `*this = None`). */
module OptionCells {
  import opened Navp

  /** The option after `get_or_insert(v)`: an absent option takes `v`, a
      present one is left as it is. */
  function GetOrInserted<T>(o: Option<T>, v: T): (r: Option<T>)
    ensures r.Some?
    ensures o.Some? ==> r == o
    ensures o.None? ==> r.value == v
  {
    if o.IsNone() then Some(v) else o
  }

  /** One `Option<T>` object; `state` is the active arm and its value. */
  class OptionCell<T> {
    var state: Option<T>

    /** Default construction: absent. */
    constructor ()
      ensures state == None
    {
      state := None;
    }

    /** Construction from the absence tag `None`: absent. */
    constructor FromNone()
      ensures state == None
    {
      state := None;
    }

    /** Construction from a value `U`, converted to `T` by `convert` (the
        implicit and the explicit form differ only in how C++ selects them). */
    constructor FromValue<U>(v: U, convert: U -> T)
      ensures state == Some(convert(v))
      ensures state.Unwrap() == Ok(convert(v))
    {
      state := Some(convert(v));
    }

    /** Converting construction from `Option<U>`: an absent source assigns
        `None`, a present one emplaces the converted value. */
    constructor FromOption<U>(other: Option<U>, convert: U -> T)
      ensures other.None? ==> state == None
      ensures other.Some? ==> state == Some(convert(other.value))
      ensures state == other.Convert(convert)
    {
      if other.IsNone() {
        state := None;
      } else {
        state := Some(convert(other.value));
      }
    }

    /** `operator=(None)`: the option becomes absent, whatever it held;
        the object itself is returned. */
    method AssignNone() returns (self: OptionCell<T>)
      modifies this
      ensures state == None
      ensures self == this
    {
      state := None;
      self := this;
    }

    /** `insert(v)`: the option is present with `v`, whatever it held; the
        object itself is returned, not the value. */
    method Insert(v: T) returns (self: OptionCell<T>)
      modifies this
      ensures state == Some(v)
      ensures self == this
    {
      state := Some(v);
      self := this;
    }

    /** `get_or_insert(v)`: an absent option becomes present with `v`, a
        present one keeps its value; either way the held value is returned. */
    method GetOrInsert(v: T) returns (held: T)
      modifies this
      ensures state == GetOrInserted(old(state), v)
      ensures state == Some(held)
    {
      if state.IsNone() {
        state := Some(v);
      }
      held := state.value;
    }

    /** `replace(v)`: the option is present with `v`, whatever it held; the
        new value is returned. */
    method Replace(v: T) returns (held: T)
      modifies this
      ensures state == Some(v)
      ensures held == v
    {
      state := Some(v);
      held := state.value;
    }
  }
}
