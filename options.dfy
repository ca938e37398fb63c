/** The optional value used wherever the Python code returns `None` or a value. */
module Options {

  datatype Option<+T> = None | Some(value: T) {

    /** The value, or `default` for `None`: the `dict.get(key, default)` idiom. */
    function GetOr(default: T): (r: T)
      ensures Some? ==> r == value
      ensures None? ==> r == default
    {
      match this
      case Some(v) => v
      case None => default
    }
  }

  /** The values of the `Some` entries, in order: what a loop appends when it skips the `None`s. */
  function Present<T>(s: seq<Option<T>>): (r: seq<T>)
    ensures |r| <= |s|
  {
    if s == [] then [] else Present(s[..|s| - 1]) + (if s[|s| - 1].Some? then [s[|s| - 1].value] else [])
  }

  /** Every value `Present` keeps comes from an entry of its input. */
  lemma {:induction false} PresentFrom<T>(s: seq<Option<T>>)
    ensures forall i :: 0 <= i < |Present(s)| ==> Some(Present(s)[i]) in s
  {
    if s != [] {
      var init := s[..|s| - 1];
      PresentFrom(init);
      forall i | 0 <= i < |Present(s)| ensures Some(Present(s)[i]) in s {
        if i < |Present(init)| {
          assert Present(s)[i] == Present(init)[i];
          assert Some(Present(init)[i]) in init;
        }
      }
    }
  }

  /** One more entry of the input adds its value, if any, at the end. */
  lemma PresentPrefix<T>(s: seq<Option<T>>, j: nat)
    requires j < |s|
    ensures Present(s[..j + 1]) == Present(s[..j]) + (if s[j].Some? then [s[j].value] else [])
  {
    assert s[..j + 1][..j] == s[..j];
  }

  /** `f` applied to `acc` and each element of `xs` in turn. */
  function FoldLeft<A, B>(acc: A, xs: seq<B>, f: (A, B) -> A): A {
    if xs == [] then acc else f(FoldLeft(acc, xs[..|xs| - 1], f), xs[|xs| - 1])
  }

  /** Folding `ys` after `xs` is folding `xs + ys`. */
  lemma {:induction false} FoldLeftAppend<A, B>(acc: A, xs: seq<B>, ys: seq<B>, f: (A, B) -> A)
    ensures FoldLeft(FoldLeft(acc, xs, f), ys, f) == FoldLeft(acc, xs + ys, f)
  {
    if ys != [] {
      var init := ys[..|ys| - 1];
      var zs := xs + ys;
      FoldLeftAppend(acc, xs, init, f);
      assert zs[..|zs| - 1] == xs + init;
      assert zs[|zs| - 1] == ys[|ys| - 1];
    } else {
      assert xs + ys == xs;
    }
  }

  /** The values `f` gives for `xs`, in order, skipping the `None`s: a loop that appends what it finds. */
  function Picked<A, B>(xs: seq<A>, f: A -> Option<B>): (r: seq<B>)
    ensures |r| <= |xs|
  {
    if xs == [] then []
    else
      var last := f(xs[|xs| - 1]);
      Picked(xs[..|xs| - 1], f) + (if last.Some? then [last.value] else [])
  }

  /** One more input adds what `f` gives for it, if anything, at the end. */
  lemma PickedStep<A, B>(xs: seq<A>, f: A -> Option<B>, i: nat)
    requires i < |xs|
    ensures Picked(xs[..i + 1], f) == Picked(xs[..i], f) + (if f(xs[i]).Some? then [f(xs[i]).value] else [])
  {
    assert xs[..i + 1][..i] == xs[..i];
  }

  /** Picking from two inputs one after the other is picking from their concatenation. */
  lemma {:induction false} PickedAppend<A, B>(a: seq<A>, b: seq<A>, f: A -> Option<B>)
    ensures Picked(a + b, f) == Picked(a, f) + Picked(b, f)
  {
    if b == [] {
      assert a + b == a;
    } else {
      var b0 := b[..|b| - 1];
      var last := f(b[|b| - 1]);
      PickedAppend(a, b0, f);
      assert (a + b)[..|a + b| - 1] == a + b0;
      assert (a + b)[|a + b| - 1] == b[|b| - 1];
      if last.Some? {
        AppendAssociates(Picked(a, f), Picked(b0, f), [last.value]);
      }
    }
  }

  /** Every value picked is what `f` gives for some input. */
  lemma {:induction false} PickedFrom<A, B>(xs: seq<A>, f: A -> Option<B>, y: B)
    requires y in Picked(xs, f)
    ensures exists k :: 0 <= k < |xs| && f(xs[k]) == Some(y)
  {
    var n := |xs| - 1;
    var init := xs[..n];
    if f(xs[n]) != Some(y) {
      PickedFrom(init, f, y);
      var k :| 0 <= k < |init| && f(init[k]) == Some(y);
      assert init[k] == xs[k];
    }
  }

  lemma AppendAssociates<T>(a: seq<T>, b: seq<T>, c: seq<T>)
    ensures a + (b + c) == (a + b) + c
  {
  }

  lemma AppendRegroups<T>(h: seq<T>, a: seq<T>, b: seq<T>, c: seq<T>, d: seq<T>)
    ensures h + a + b + c + d == h + (a + b + c + d)
  {
    AppendAssociates(h, a, b);
    AppendAssociates(h, a + b, c);
    AppendAssociates(h, a + b + c, d);
  }
}
