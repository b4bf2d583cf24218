/** Bounded sequences: the `deque(maxlen=n)` and `xs[-n:]` idiom the server
    uses for its response-time windows, its pattern bank and its history. */
module Seqs {

  function Min(a: int, b: int): int {
    if a <= b then a else b
  }

  /** `xs[-n:]` for `n > 0`, equally what a `deque(maxlen=n)` holds. */
  function KeepLast<T>(xs: seq<T>, n: nat): (r: seq<T>)
    ensures |r| == Min(|xs|, n)
    ensures r == xs[|xs| - |r|..]
  {
    if |xs| <= n then xs else xs[|xs| - n..]
  }

  /** Trimming after every append is the same as trimming once at the end:
      a bounded buffer holds exactly the last `n` values ever appended. */
  lemma {:induction false} KeepLastAppend<T>(xs: seq<T>, x: T, n: nat)
    ensures KeepLast(KeepLast(xs, n) + [x], n) == KeepLast(xs + [x], n)
  {
    var k := KeepLast(xs, n);
    var a := KeepLast(k + [x], n);
    var b := KeepLast(xs + [x], n);
    assert |a| == |b|;
    forall i | 0 <= i < |a| ensures a[i] == b[i] {
      if i == |a| - 1 {
        assert a[i] == x && b[i] == x;
      } else {
        assert a[i] == (k + [x])[|k| + 1 - |a| + i] == k[|k| + 1 - |a| + i];
        assert b[i] == (xs + [x])[|xs| + 1 - |b| + i] == xs[|xs| + 1 - |b| + i];
      }
    }
  }

  /** Pushing values one at a time through a bounded buffer. */
  function PushAll<T>(buf: seq<T>, values: seq<T>, n: nat): seq<T>
    decreases |values|
  {
    if |values| == 0 then buf else PushAll(KeepLast(buf + [values[0]], n), values[1..], n)
  }

  /** Starting from a buffer that is itself the tail of a history, the result
      is the last `n` values of the whole history. */
  lemma {:induction false} PushAllKeepsLast<T>(history: seq<T>, values: seq<T>, n: nat)
    ensures PushAll(KeepLast(history, n), values, n) == KeepLast(history + values, n)
    decreases |values|
  {
    if |values| > 0 {
      var h := history + [values[0]];
      KeepLastAppend(history, values[0], n);
      assert PushAll(KeepLast(history, n), values, n) == PushAll(KeepLast(h, n), values[1..], n);
      PushAllKeepsLast(h, values[1..], n);
      assert h + values[1..] == history + values;
    }
  }
}
