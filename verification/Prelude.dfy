/** Shared vocabulary: optional values, and the results of calls that may raise. */
module Prelude {

  datatype Option<+T> = None | Some(value: T)

  /** A call either returns a value or raises. */
  datatype Result<+T, +E> = Ok(value: T) | Err(error: E)

  /** The elements of `s` that satisfy `keep`, in order. */
  function Filter<T(!new)>(keep: T -> bool, s: seq<T>): (r: seq<T>)
    ensures forall x :: x in r <==> x in s && keep(x)
  {
    if s == [] then []
    else (if keep(s[0]) then [s[0]] else []) + Filter(keep, s[1..])
  }

  lemma {:induction false} FilterConcat<T(!new)>(keep: T -> bool, a: seq<T>, b: seq<T>)
    ensures Filter(keep, a + b) == Filter(keep, a) + Filter(keep, b)
  {
    if a == [] {
      assert a + b == b;
    } else {
      assert (a + b)[1..] == a[1..] + b;
      FilterConcat(keep, a[1..], b);
    }
  }

  lemma {:induction false} FilterAll<T(!new)>(keep: T -> bool, s: seq<T>)
    requires forall x :: x in s ==> keep(x)
    ensures Filter(keep, s) == s
  {
    if s != [] {
      FilterAll(keep, s[1..]);
    }
  }

  lemma {:induction false} FilterNone<T(!new)>(keep: T -> bool, s: seq<T>)
    requires forall x :: x in s ==> !keep(x)
    ensures Filter(keep, s) == []
  {
    if s != [] {
      FilterNone(keep, s[1..]);
    }
  }

  /** Filtering twice, when on the elements of the list the outer test implies the inner one. */
  lemma {:induction false} FilterWithin<T(!new)>(p: T -> bool, q: T -> bool, s: seq<T>)
    requires forall x :: x in s && p(x) ==> q(x)
    ensures Filter(p, Filter(q, s)) == Filter(p, s)
  {
    if s != [] {
      FilterWithin(p, q, s[1..]);
      FilterConcat(p, if q(s[0]) then [s[0]] else [], Filter(q, s[1..]));
      FilterConcat(p, [s[0]], s[1..]);
      assert [s[0]] + s[1..] == s;
    }
  }

  lemma {:induction false} FilterSwap<T(!new)>(p: T -> bool, q: T -> bool, s: seq<T>)
    ensures Filter(p, Filter(q, s)) == Filter(q, Filter(p, s))
  {
    if s != [] {
      FilterSwap(p, q, s[1..]);
      FilterConcat(p, if q(s[0]) then [s[0]] else [], Filter(q, s[1..]));
      FilterConcat(q, if p(s[0]) then [s[0]] else [], Filter(p, s[1..]));
    }
  }

  lemma {:induction false} FilterSame<T(!new)>(p: T -> bool, q: T -> bool, s: seq<T>)
    requires forall x :: x in s ==> p(x) == q(x)
    ensures Filter(p, s) == Filter(q, s)
  {
    if s != [] {
      FilterSame(p, q, s[1..]);
    }
  }

  lemma ConcatAssociates<T>(a: seq<T>, b: seq<T>, c: seq<T>)
    ensures a + (b + c) == a + b + c
  {
  }

  /** An element may be counted on either side of a split. */
  lemma FilterAround<T(!new)>(keep: T -> bool, done: seq<T>, x: T, rest: seq<T>)
    ensures Filter(keep, done) + Filter(keep, [x] + rest) == Filter(keep, done + [x]) + Filter(keep, rest)
  {
    FilterConcat(keep, done, [x]);
    FilterConcat(keep, [x], rest);
    ConcatAssociates(Filter(keep, done), Filter(keep, [x]), Filter(keep, rest));
  }

  /** One step of a loop that filters a list from the left. */
  lemma FilterStep<T(!new)>(keep: T -> bool, done: seq<T>, todo: seq<T>)
    requires todo != []
    ensures done + Filter(keep, todo) == (if keep(todo[0]) then done + [todo[0]] else done) + Filter(keep, todo[1..])
  {
    var rest := Filter(keep, todo[1..]);
    if keep(todo[0]) {
      ConcatAssociates(done, [todo[0]], rest);
    } else {
      assert [] + rest == rest;
    }
  }

  lemma FilterKeeps<T(!new)>(keep: T -> bool, done: seq<T>, x: T, rest: seq<T>)
    requires keep(x)
    ensures Filter(keep, done + [x]) == Filter(keep, done) + [x]
    ensures Filter(keep, [x] + rest) == [x] + Filter(keep, rest)
  {
    FilterConcat(keep, done, [x]);
    FilterConcat(keep, [x], rest);
    FilterAll(keep, [x]);
  }

  lemma FilterDrops<T(!new)>(keep: T -> bool, done: seq<T>, x: T, rest: seq<T>)
    requires !keep(x)
    ensures Filter(keep, done + [x]) == Filter(keep, done)
    ensures Filter(keep, [x] + rest) == Filter(keep, rest)
  {
    FilterConcat(keep, done, [x]);
    FilterConcat(keep, [x], rest);
    FilterNone(keep, [x]);
  }
}
