/** Failure-carrying wrappers and small sequence helpers shared by both pipelines. */
module Common {

  datatype Option<T> = None | Some(value: T)

  datatype Result<T, E> = Ok(value: T) | Err(error: E)

  function Min(a: int, b: int): int
  {
    if a <= b then a else b
  }

  /** Flattening of a list of lists, in order (JavaScript's `push(...xs)` repeated). */
  function Concat<T>(xss: seq<seq<T>>): seq<T>
  {
    if xss == [] then [] else xss[0] + Concat(xss[1..])
  }

  lemma {:induction false} ConcatAppend<T>(a: seq<seq<T>>, b: seq<seq<T>>)
    ensures Concat(a + b) == Concat(a) + Concat(b)
  {
    if a == [] {
      assert a + b == b;
    } else {
      assert (a + b)[1..] == a[1..] + b;
      ConcatAppend(a[1..], b);
    }
  }

  lemma ConcatSnoc<T>(a: seq<seq<T>>, x: seq<T>)
    ensures Concat(a + [x]) == Concat(a) + x
  {
    ConcatAppend(a, [x]);
    assert Concat([x]) == x + Concat([x][1..]);
  }

  /** A list of one-element lists flattens to their elements, in order. */
  lemma {:induction false} ConcatSingletons<T>(xss: seq<seq<T>>)
    requires forall i :: 0 <= i < |xss| ==> |xss[i]| == 1
    ensures |Concat(xss)| == |xss|
    ensures forall k :: 0 <= k < |xss| ==> Concat(xss)[k] == xss[k][0]
  {
    if xss != [] {
      var rest := xss[1..];
      assert forall i :: 0 <= i < |rest| ==> rest[i] == xss[i + 1];
      ConcatSingletons(rest);
    }
  }

  lemma AppendAssoc<T>(a: seq<T>, b: seq<T>, c: seq<T>)
    ensures (a + b) + c == a + (b + c)
  {
  }

  /** `xs.map(f)`. */
  function MapSeq<A, B>(xs: seq<A>, f: A -> B): (ys: seq<B>)
    ensures |ys| == |xs|
    ensures forall k :: 0 <= k < |xs| ==> ys[k] == f(xs[k])
  {
    seq(|xs|, k requires 0 <= k < |xs| => f(xs[k]))
  }

  /** A loop that appends `f(x)` for each `x` in turn has, after `k + 1` steps, the output of `k` steps and then `f(xs[k])`. */
  lemma MapSeqStep<A, B>(xs: seq<A>, f: A -> B, k: nat)
    requires k < |xs|
    ensures MapSeq(xs[..k + 1], f) == MapSeq(xs[..k], f) + [f(xs[k])]
  {
    assert xs[..k + 1][k] == xs[k];
    assert forall j :: 0 <= j < k ==> xs[..k + 1][j] == xs[..k][j];
  }

  /** The same for a loop that appends a whole list `f(x)` for each `x`. */
  lemma ConcatMapStep<A, B>(xs: seq<A>, f: A -> seq<B>, k: nat)
    requires k < |xs|
    ensures Concat(MapSeq(xs[..k + 1], f)) == Concat(MapSeq(xs[..k], f)) + f(xs[k])
  {
    var g := MapSeq(xs[..k + 1], f);
    var h := MapSeq(xs[..k], f);
    forall j | 0 <= j < k + 1 ensures g[j] == (h + [f(xs[k])])[j] {
      assert xs[..k + 1][j] == xs[j];
      if j < k {
        assert xs[..k][j] == xs[j];
      }
    }
    assert g == h + [f(xs[k])];
    ConcatSnoc(h, f(xs[k]));
  }

  /**
   * Two steps run one after the other, each producing a list: the first
   * failure wins, otherwise the lists are joined in order.
   */
  function AndThen<T, E>(a: Result<seq<T>, E>, b: Result<seq<T>, E>): Result<seq<T>, E>
  {
    if a.Err? then a else if b.Err? then b else Ok(a.value + b.value)
  }

  /** A `for` loop whose body either appends a list to the output or throws, as a left fold of `AndThen`. */
  function Sequence<T, E>(rs: seq<Result<seq<T>, E>>): Result<seq<T>, E>
  {
    if rs == [] then Ok([]) else AndThen(Sequence(rs[..|rs| - 1]), rs[|rs| - 1])
  }

  function Values<T, E>(rs: seq<Result<seq<T>, E>>): seq<seq<T>>
    requires forall i :: 0 <= i < |rs| ==> rs[i].Ok?
  {
    seq(|rs|, i requires 0 <= i < |rs| => rs[i].value)
  }

  /**
   * The loop completes exactly when every step succeeds, and its output is
   * then the steps' lists concatenated in order; otherwise it fails with the
   * error of the first step that failed.
   */
  lemma {:induction false} SequenceSpec<T, E>(rs: seq<Result<seq<T>, E>>)
    ensures Sequence(rs).Ok? <==> forall i :: 0 <= i < |rs| ==> rs[i].Ok?
    ensures Sequence(rs).Ok? ==> Sequence(rs).value == Concat(Values(rs))
    ensures forall i :: 0 <= i < |rs| && rs[i].Err? && (forall j :: 0 <= j < i ==> rs[j].Ok?)
              ==> Sequence(rs) == rs[i]
  {
    if rs != [] {
      var n := |rs| - 1;
      var init := rs[..n];
      SequenceSpec(init);
      assert forall i :: 0 <= i < n ==> init[i] == rs[i];
      if Sequence(rs).Ok? {
        assert Values(rs) == Values(init) + [rs[n].value];
        ConcatSnoc(Values(init), rs[n].value);
      }
    }
  }

  /** A failure in the first `k` steps is the failure of the whole loop. */
  lemma {:induction false} SequencePrefixErr<T, E>(rs: seq<Result<seq<T>, E>>, k: nat)
    requires k <= |rs| && Sequence(rs[..k]).Err?
    ensures Sequence(rs) == Sequence(rs[..k])
    decreases |rs| - k
  {
    if k < |rs| {
      assert rs[..k + 1][..k] == rs[..k];
      SequencePrefixErr(rs, k + 1);
    } else {
      assert rs[..k] == rs;
    }
  }
}
