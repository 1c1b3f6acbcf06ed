/** Types shared by every part of the model. */
module Common {

  /** An octet.  Bytes are integers here; bitwise operations on them live in `Bits`. */
  type Byte = b: int | 0 <= b < 256

  datatype Option<+T> = None | Some(value: T)

  datatype Result<+T, +E> = Ok(value: T) | Err(error: E)

  function Min(a: int, b: int): (m: int)
    ensures m <= a && m <= b && (m == a || m == b)
  {
    if a <= b then a else b
  }

  function Max(a: int, b: int): (m: int)
    ensures m >= a && m >= b && (m == a || m == b)
  {
    if a <= b then b else a
  }

  /** Position of the first element satisfying `f`, or the length. */
  function Position<T>(xs: seq<T>, f: T -> bool): (i: nat)
    ensures i <= |xs|
    ensures i < |xs| ==> f(xs[i])
    ensures forall j :: 0 <= j < i ==> !f(xs[j])
  {
    if xs == [] || f(xs[0]) then 0 else 1 + Position(xs[1..], f)
  }

  function RemoveAt<T>(xs: seq<T>, i: nat): seq<T>
    requires i < |xs|
  {
    xs[..i] + xs[i + 1..]
  }

  /** The elements that satisfy `f`, in order. */
  function Keep<T>(xs: seq<T>, f: T -> bool): seq<T> {
    if xs == [] then [] else (if f(xs[0]) then [xs[0]] else []) + Keep(xs[1..], f)
  }

  lemma {:induction false} KeepConcat<T>(a: seq<T>, b: seq<T>, f: T -> bool)
    ensures Keep(a + b, f) == Keep(a, f) + Keep(b, f)
  {
    if a == [] {
      assert a + b == b;
    } else {
      assert (a + b)[1..] == a[1..] + b;
      KeepConcat(a[1..], b, f);
      Associate(if f(a[0]) then [a[0]] else [], Keep(a[1..], f), Keep(b, f));
    }
  }

  lemma Associate<T>(a: seq<T>, b: seq<T>, c: seq<T>)
    ensures (a + b) + c == a + (b + c)
  {}

  lemma KeepSkips<T>(x: T, b: seq<T>, f: T -> bool)
    requires !f(x)
    ensures Keep([x] + b, f) == Keep(b, f)
  {
    assert ([x] + b)[1..] == b && [] + Keep(b, f) == Keep(b, f);
  }

  lemma SplitAt<T>(xs: seq<T>, i: nat)
    requires i < |xs|
    ensures xs == xs[..i] + ([xs[i]] + xs[i + 1..])
  {}

  lemma KeepRemove<T>(xs: seq<T>, i: nat, f: T -> bool)
    requires i < |xs| && !f(xs[i])
    ensures Keep(RemoveAt(xs, i), f) == Keep(xs, f)
  {
    hide Keep;
    SplitAt(xs, i);
    KeepSkips(xs[i], xs[i + 1..], f);
    KeepConcat(xs[..i], [xs[i]] + xs[i + 1..], f);
    KeepConcat(xs[..i], xs[i + 1..], f);
  }

  lemma {:induction false} KeepAll<T>(xs: seq<T>, f: T -> bool)
    requires forall i :: 0 <= i < |xs| ==> f(xs[i])
    ensures Keep(xs, f) == xs
  {
    if xs != [] { KeepAll(xs[1..], f); }
  }

  lemma {:induction false} KeepNone<T>(xs: seq<T>, f: T -> bool)
    requires forall i :: 0 <= i < |xs| ==> !f(xs[i])
    ensures Keep(xs, f) == []
  {
    if xs != [] { KeepNone(xs[1..], f); }
  }

  lemma {:induction false} KeptIs<T>(xs: seq<T>, f: T -> bool, x: T)
    requires x in Keep(xs, f)
    ensures x in xs && f(x)
  {
    if x !in (if f(xs[0]) then [xs[0]] else []) { KeptIs(xs[1..], f, x); }
  }

  lemma {:induction false} KeepSame<T>(xs: seq<T>, f: T -> bool, g: T -> bool)
    requires forall i :: 0 <= i < |xs| ==> f(xs[i]) == g(xs[i])
    ensures Keep(xs, f) == Keep(xs, g)
  {
    if xs != [] { KeepSame(xs[1..], f, g); }
  }

  lemma {:induction false} KeepBag<T>(xs: seq<T>, f: T -> bool, x: T)
    ensures multiset(Keep(xs, f))[x] == if f(x) then multiset(xs)[x] else 0
  {
    if xs != [] {
      assert xs == [xs[0]] + xs[1..];
      KeepBag(xs[1..], f, x);
    }
  }

  lemma KeepFirst<T>(xs: seq<T>, f: T -> bool)
    requires xs != []
    ensures Keep(xs, f) == Keep(xs[..1], f) + Keep(xs[1..], f)
  {
    assert xs == xs[..1] + xs[1..];
    KeepConcat(xs[..1], xs[1..], f);
  }

  lemma MiddleKept<T>(a: seq<T>, x: T, b: seq<T>, f: T -> bool)
    requires f(x) && forall i :: 0 <= i < |a| ==> !f(a[i])
    ensures Keep(a + ([x] + b), f) == [x] + Keep(a + b, f)
  {
    hide Keep;
    KeepConcat(a, [x] + b, f);
    KeepConcat([x], b, f);
    KeepConcat(a, b, f);
    KeepNone(a, f);
    KeepAll([x], f);
    assert [] + Keep(b, f) == Keep(b, f) && [] + ([x] + Keep(b, f)) == [x] + Keep(b, f);
  }

  lemma FirstKept<T>(xs: seq<T>, f: T -> bool)
    ensures var i := Position(xs, f);
      if i == |xs| then Keep(xs, f) == [] else Keep(xs, f) == [xs[i]] + Keep(RemoveAt(xs, i), f)
  {
    hide Keep;
    var i := Position(xs, f);
    if i == |xs| {
      KeepNone(xs, f);
    } else {
      SplitAt(xs, i);
      MiddleKept(xs[..i], xs[i], xs[i + 1..], f);
    }
  }
}
