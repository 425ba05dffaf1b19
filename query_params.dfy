/**
  * The browser's `URLSearchParams` as the search components use it: an ordered
  * list of name/value pairs copied from the current URL, changed with `set`
  * and `delete`, then written back to the address bar with `replace`.
  * `set` and `delete` follow section 6.2 of the WHATWG URL Standard (the
  * `URLSearchParams` class): `set` overwrites the first pair of that name and
  * drops the later ones, or appends a pair when there is none; `delete`
  * drops every pair of that name.
  */
module QueryParams {
  import opened Wrappers

  type Param = (string, string)

  /** `delete(name)`. */
  function WithoutParam(ps: seq<Param>, name: string): seq<Param> {
    if ps == [] then []
    else if ps[0].0 == name then WithoutParam(ps[1..], name)
    else [ps[0]] + WithoutParam(ps[1..], name)
  }

  /** `set(name, value)`. */
  function WithParam(ps: seq<Param>, name: string, value: string): seq<Param> {
    if ps == [] then [(name, value)]
    else if ps[0].0 == name then [(name, value)] + WithoutParam(ps[1..], name)
    else [ps[0]] + WithParam(ps[1..], name, value)
  }

  /** `get(name)`: the value of the first pair of that name, or `null`. */
  function ParamValue(ps: seq<Param>, name: string): Option<string> {
    if ps == [] then None
    else if ps[0].0 == name then Some(ps[0].1)
    else ParamValue(ps[1..], name)
  }

  /** The number of pairs with that name. */
  function Count(ps: seq<Param>, name: string): nat {
    if ps == [] then 0 else (if ps[0].0 == name then 1 else 0) + Count(ps[1..], name)
  }

  /** After `delete`, no pair has the name and every other pair is kept (in order, by `WithoutParamAppend`). */
  lemma {:induction false} WithoutParamRemoves(ps: seq<Param>, name: string)
    ensures Count(WithoutParam(ps, name), name) == 0
    ensures ParamValue(WithoutParam(ps, name), name) == None
    ensures forall p :: p in ps && p.0 != name ==> p in WithoutParam(ps, name)
    ensures forall p :: p in WithoutParam(ps, name) ==> p in ps && p.0 != name
  {
    if ps != [] {
      WithoutParamRemoves(ps[1..], name);
    }
  }

  /**
    * `delete` works pair by pair, in order: it distributes over concatenation,
    * and on one pair it drops it exactly when it has the name. So every other
    * pair is kept, with its multiplicity and its place relative to the others.
    */
  lemma {:induction false} WithoutParamAppend(a: seq<Param>, b: seq<Param>, name: string)
    ensures WithoutParam(a + b, name) == WithoutParam(a, name) + WithoutParam(b, name)
    ensures forall p: Param :: WithoutParam([p], name) == if p.0 == name then [] else [p]
  {
    if a != [] {
      assert (a + b)[0] == a[0] && (a + b)[1..] == a[1..] + b;
      WithoutParamAppend(a[1..], b, name);
    } else {
      assert a + b == b;
    }
    forall p: Param ensures WithoutParam([p], name) == if p.0 == name then [] else [p] {
      assert [p][1..] == [];
    }
  }

  /** `delete` does not change what any other name reads. */
  lemma {:induction false} WithoutParamOtherValue(ps: seq<Param>, name: string, other: string)
    requires other != name
    ensures ParamValue(WithoutParam(ps, name), other) == ParamValue(ps, other)
  {
    if ps != [] {
      WithoutParamOtherValue(ps[1..], name, other);
    }
  }

  /** After `set`, exactly one pair has the name, and it reads as the value set. */
  lemma {:induction false} WithParamValue(ps: seq<Param>, name: string, value: string)
    ensures ParamValue(WithParam(ps, name, value), name) == Some(value)
    ensures Count(WithParam(ps, name, value), name) == 1
  {
    if ps != [] {
      if ps[0].0 == name {
        WithoutParamRemoves(ps[1..], name);
      } else {
        WithParamValue(ps[1..], name, value);
      }
    }
  }

  /** `set` does not change what any other name reads. */
  lemma {:induction false} WithParamOtherValue(ps: seq<Param>, name: string, value: string, other: string)
    requires other != name
    ensures ParamValue(WithParam(ps, name, value), other) == ParamValue(ps, other)
  {
    if ps != [] {
      if ps[0].0 == name {
        WithoutParamOtherValue(ps[1..], name, other);
      } else {
        WithParamOtherValue(ps[1..], name, value, other);
      }
    }
  }

  /** Deleting twice is deleting once. */
  lemma {:induction false} WithoutParamIdempotent(ps: seq<Param>, name: string)
    ensures WithoutParam(WithoutParam(ps, name), name) == WithoutParam(ps, name)
  {
    if ps != [] {
      WithoutParamIdempotent(ps[1..], name);
    }
  }

  /** Deletes of two names commute. */
  lemma {:induction false} WithoutParamCommutes(ps: seq<Param>, a: string, b: string)
    ensures WithoutParam(WithoutParam(ps, a), b) == WithoutParam(WithoutParam(ps, b), a)
  {
    if ps != [] {
      WithoutParamCommutes(ps[1..], a, b);
    }
  }

  /** Every pair other than the named one, with their order, is the same after `set` as before. */
  lemma {:induction false} WithParamKeepsOthers(ps: seq<Param>, name: string, value: string)
    ensures WithoutParam(WithParam(ps, name, value), name) == WithoutParam(ps, name)
  {
    if ps != [] {
      if ps[0].0 == name {
        WithoutParamIdempotent(ps[1..], name);
      } else {
        WithParamKeepsOthers(ps[1..], name, value);
      }
    }
  }

  /** A `set` of one name and a `delete` of another commute. */
  lemma {:induction false} WithoutParamOfWithParam(ps: seq<Param>, name: string, value: string, other: string)
    requires other != name
    ensures WithoutParam(WithParam(ps, name, value), other) == WithParam(WithoutParam(ps, other), name, value)
  {
    if ps != [] {
      if ps[0].0 == name {
        WithoutParamCommutes(ps[1..], name, other);
      } else {
        WithoutParamOfWithParam(ps[1..], name, value, other);
      }
    }
  }

  /** A freshly copied `URLSearchParams` object. */
  class SearchParams {
    var entries: seq<Param>

    /** `new URLSearchParams(searchParams)`: a copy of the current pairs. */
    constructor(init: seq<Param>)
      ensures entries == init
    {
      entries := init;
    }

    method Set(name: string, value: string)
      modifies this
      ensures entries == WithParam(old(entries), name, value)
    {
      entries := WithParam(entries, name, value);
    }

    method Delete(name: string)
      modifies this
      ensures entries == WithoutParam(old(entries), name)
    {
      entries := WithoutParam(entries, name);
    }
  }
}
