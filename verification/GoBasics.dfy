/** The few notions of the Go language that several modules share. */
module GoBasics {

  datatype Option<+T> = None | Some(value: T)

  /** A goroutine. */
  type Tid = nat

  /** The value of an `int32` after the two's complement wrap-around. */
  function Int32(x: int): (r: int)
    ensures -0x8000_0000 <= r < 0x8000_0000
    ensures (r - x) % 0x1_0000_0000 == 0
    ensures -0x8000_0000 <= x < 0x8000_0000 ==> r == x
  {
    (x + 0x8000_0000) % 0x1_0000_0000 - 0x8000_0000
  }

  // ---------------------------------------------------------------- filtering

  /** The positions of the elements that satisfy `p`. */
  function Where<T>(xs: seq<T>, p: T -> bool): (r: seq<nat>)
    ensures forall k :: 0 <= k < |r| ==> r[k] < |xs|
  {
    if xs == [] then [] else Where(xs[..|xs| - 1], p) + if p(xs[|xs| - 1]) then [|xs| - 1] else []
  }

  /** They come in order, none twice, none left out. */
  lemma {:induction false} WhereIsExact<T>(xs: seq<T>, p: T -> bool)
    ensures var r := Where(xs, p);
            && (forall k, l :: 0 <= k < l < |r| ==> r[k] < r[l])
            && (forall i :: 0 <= i < |xs| ==> (i in r <==> p(xs[i])))
  {
    if xs != [] {
      var n := |xs| - 1;
      var before := Where(xs[..n], p);
      WhereIsExact(xs[..n], p);
      forall i | 0 <= i < |xs| ensures i in Where(xs, p) <==> p(xs[i]) {
        if i < n {
          assert xs[..n][i] == xs[i];
          assert i in Where(xs, p) <==> i in before;
        }
      }
    }
  }

  /** The elements that satisfy `p`, in order. */
  function Select<T>(xs: seq<T>, p: T -> bool): seq<T> {
    var at := Where(xs, p);
    seq(|at|, k requires 0 <= k < |at| => xs[at[k]])
  }

  lemma SelectExtends<T>(xs: seq<T>, x: T, p: T -> bool)
    ensures Select(xs + [x], p) == Select(xs, p) + if p(x) then [x] else []
  {
    assert (xs + [x])[..|xs|] == xs;
  }
}
