/** Optional values and results with an error, standing in for Go's `(value, ok)`
    and `(value, err)` return pairs. */
module Wrappers {

  datatype Option<+T> = None | Some(value: T)

  datatype Result<+R, +E> = Success(value: R) | Failure(error: E)

  /** The value of an optional attribute, or Go's zero string when it is absent. */
  function OrEmpty(o: Option<string>): string
  {
    if o.Some? then o.value else ""
  }

  /** Applies `f` to every element, keeping the order. */
  function Map<A, B>(f: A -> B, xs: seq<A>): (ys: seq<B>)
    ensures |ys| == |xs|
    ensures forall i :: 0 <= i < |xs| ==> ys[i] == f(xs[i])
  {
    seq(|xs|, i requires 0 <= i < |xs| => f(xs[i]))
  }

  lemma MapSplit<A, B>(f: A -> B, xs: seq<A>, i: nat)
    requires i <= |xs|
    ensures Map(f, xs[..i]) == Map(f, xs)[..i]
    ensures Map(f, xs[i..]) == Map(f, xs)[i..]
  {
  }

  lemma MapAppend<A, B>(f: A -> B, xs: seq<A>, ys: seq<A>)
    ensures Map(f, xs + ys) == Map(f, xs) + Map(f, ys)
  {
  }

  /** The values of the successes, in order. */
  function Successes<R, E>(rs: seq<Result<R, E>>): seq<R>
  {
    if rs == [] then []
    else
      var last := rs[|rs| - 1];
      Successes(rs[..|rs| - 1]) + (if last.Success? then [last.value] else [])
  }

  /** The errors of the failures, in order. */
  function Failures<R, E>(rs: seq<Result<R, E>>): seq<E>
  {
    if rs == [] then []
    else
      var last := rs[|rs| - 1];
      Failures(rs[..|rs| - 1]) + (if last.Failure? then [last.error] else [])
  }

  lemma {:induction false} SuccessesAppend<R, E>(a: seq<Result<R, E>>, b: seq<Result<R, E>>)
    ensures Successes(a + b) == Successes(a) + Successes(b)
    ensures Failures(a + b) == Failures(a) + Failures(b)
    decreases |b|
  {
    if b == [] {
      assert a + b == a;
    } else {
      var b' := b[..|b| - 1];
      assert (a + b)[..|a + b| - 1] == a + b';
      SuccessesAppend(a, b');
    }
  }

  lemma {:induction false} SuccessesOrFailures<R, E>(rs: seq<Result<R, E>>)
    ensures |Successes(rs)| + |Failures(rs)| == |rs|
  {
    if rs != [] {
      SuccessesOrFailures(rs[..|rs| - 1]);
    }
  }

  lemma {:induction false} AllSuccesses<R, E>(rs: seq<Result<R, E>>)
    requires forall i :: 0 <= i < |rs| ==> rs[i].Success?
    ensures |Successes(rs)| == |rs| && Failures(rs) == []
    ensures forall i :: 0 <= i < |rs| ==> Successes(rs)[i] == rs[i].value
  {
    if rs != [] {
      AllSuccesses(rs[..|rs| - 1]);
    }
  }

  /** A single result is one success or one failure. */
  lemma SingleResult<R, E>(x: Result<R, E>)
    ensures Successes([x]) == if x.Success? then [x.value] else []
    ensures Failures([x]) == if x.Failure? then [x.error] else []
  {
    assert [x][..0] == [];
  }

  /** Removing one failure from a list of results keeps the successes around it and drops exactly its error. */
  lemma SkipFailure<R, E>(rs: seq<Result<R, E>>, k: nat)
    requires k < |rs| && rs[k].Failure?
    ensures Successes(rs) == Successes(rs[..k]) + Successes(rs[k + 1..])
    ensures Failures(rs) == Failures(rs[..k]) + [rs[k].error] + Failures(rs[k + 1..])
  {
    var left, mid, right := rs[..k], [rs[k]], rs[k + 1..];
    var upTo := left + mid;
    assert Successes(upTo) == Successes(left) && Failures(upTo) == Failures(left) + [rs[k].error] by {
      SuccessesAppend(left, mid);
      SingleResult(rs[k]);
    }
    assert Successes(rs) == Successes(upTo) + Successes(right) && Failures(rs) == Failures(upTo) + Failures(right) by {
      assert rs == upTo + right;
      SuccessesAppend(upTo, right);
    }
  }

  /** The lists of `xss` one after the other. */
  function Concat<T>(xss: seq<seq<T>>): seq<T>
  {
    if xss == [] then [] else Concat(xss[..|xss| - 1]) + xss[|xss| - 1]
  }

  /** Concatenating fewer lists gives a prefix of concatenating them all. */
  lemma {:induction false} ConcatPrefix<T>(xss: seq<seq<T>>, j: nat)
    requires j <= |xss|
    ensures |Concat(xss[..j])| <= |Concat(xss)|
    ensures Concat(xss)[..|Concat(xss[..j])|] == Concat(xss[..j])
  {
    if j < |xss| {
      var init := xss[..|xss| - 1];
      ConcatPrefix(init, j);
      assert init[..j] == xss[..j];
    } else {
      assert xss[..j] == xss;
    }
  }

  /** Concatenating one more list appends it. */
  lemma ConcatSnoc<T>(xss: seq<seq<T>>, i: nat)
    requires i < |xss|
    ensures Concat(xss[..i + 1]) == Concat(xss[..i]) + xss[i]
  {
    assert xss[..i + 1][..i] == xss[..i];
  }

  /** Element k of list i sits in the concatenation right after the elements of the lists before it. */
  lemma ConcatIndex<T>(xss: seq<seq<T>>, i: nat, k: nat)
    requires i < |xss| && k < |xss[i]|
    ensures |Concat(xss[..i])| + k < |Concat(xss)|
    ensures Concat(xss)[|Concat(xss[..i])| + k] == xss[i][k]
  {
    ConcatSnoc(xss, i);
    ConcatPrefix(xss, i + 1);
  }
}
