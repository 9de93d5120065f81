/** The shape shared by both line scanners of the repository: a loop over the
    input lines that appends at most one output per line. */
module Lists {
  import opened Wrappers

  /** The outputs of `f` over `xs`, in order, skipping the lines it maps to None. */
  function FilterMap<T, U>(xs: seq<T>, f: T -> Option<U>): (ys: seq<U>)
    ensures |ys| <= |xs|
  {
    if xs == [] then []
    else
      var last := f(xs[|xs| - 1]);
      FilterMap(xs[..|xs| - 1], f) + (if last.Some? then [last.value] else [])
  }

  /** One more line appends its output, if any. */
  lemma FilterMapSnoc<T, U>(xs: seq<T>, x: T, f: T -> Option<U>)
    ensures FilterMap(xs + [x], f) == FilterMap(xs, f) + (if f(x).Some? then [f(x).value] else [])
  {
    assert (xs + [x])[..|xs|] == xs;
  }

  /** The outputs of a concatenation are the outputs of each part, in order. */
  lemma {:induction false} FilterMapAppend<T, U>(a: seq<T>, b: seq<T>, f: T -> Option<U>)
    ensures FilterMap(a + b, f) == FilterMap(a, f) + FilterMap(b, f)
    decreases |b|
  {
    if b == [] {
      assert a + b == a;
    } else {
      var c := a + b;
      assert c[..|c| - 1] == a + b[..|b| - 1];
      assert c[|c| - 1] == b[|b| - 1];
      FilterMapAppend(a, b[..|b| - 1], f);
    }
  }

  /** `idx` lists, in increasing order, the lines of `xs` that have an output
      under `f`, every such line, and `ys[k]` is the output of line `idx[k]`. */
  ghost predicate Sources<T, U>(xs: seq<T>, f: T -> Option<U>, ys: seq<U>, idx: seq<nat>) {
    && |idx| == |ys|
    && (forall k :: 0 <= k < |idx| ==> idx[k] < |xs| && f(xs[idx[k]]) == Some(ys[k]))
    && (forall k, l :: 0 <= k < l < |idx| ==> idx[k] < idx[l])
    && (forall i :: 0 <= i < |xs| && f(xs[i]).Some? ==> i in idx)
  }

  /** A further line without output leaves the sources as they are. */
  lemma SourcesSkip<T, U>(xs: seq<T>, x: T, f: T -> Option<U>, ys: seq<U>, idx: seq<nat>)
    requires Sources(xs, f, ys, idx) && f(x).None?
    ensures Sources(xs + [x], f, ys, idx)
  {
    var xs' := xs + [x];
    assert forall i :: 0 <= i < |xs| ==> xs'[i] == xs[i];
  }

  /** A further line with an output adds that line and its output. */
  lemma SourcesKeep<T, U>(xs: seq<T>, x: T, f: T -> Option<U>, ys: seq<U>, idx: seq<nat>)
    requires Sources(xs, f, ys, idx) && f(x).Some?
    ensures Sources(xs + [x], f, ys + [f(x).value], idx + [|xs|])
  {
    var xs', ys', idx' := xs + [x], ys + [f(x).value], idx + [|xs|];
    assert forall i :: 0 <= i < |xs| ==> xs'[i] == xs[i];
    assert forall k :: 0 <= k < |idx| ==> idx'[k] == idx[k] && ys'[k] == ys[k];
    forall i | 0 <= i < |xs'| && f(xs'[i]).Some? ensures i in idx' {
      if i < |xs| {
        assert i in idx;
      }
    }
  }

  /** Each output comes from its own line, in increasing line order, and every
      line with an output is among them. */
  lemma {:induction false} FilterMapProvenance<T, U>(xs: seq<T>, f: T -> Option<U>) returns (idx: seq<nat>)
    ensures Sources(xs, f, FilterMap(xs, f), idx)
  {
    if xs == [] {
      idx := [];
    } else {
      var n := |xs| - 1;
      var init := xs[..n];
      var prev := FilterMapProvenance(init, f);
      assert xs == init + [xs[n]];
      if f(xs[n]).Some? {
        SourcesKeep(init, xs[n], f, FilterMap(init, f), prev);
        idx := prev + [n];
      } else {
        SourcesSkip(init, xs[n], f, FilterMap(init, f), prev);
        idx := prev;
      }
    }
  }

  /** The number of lines with an output is the number of outputs. */
  function CountSome<T, U>(xs: seq<T>, f: T -> Option<U>): nat {
    if xs == [] then 0
    else CountSome(xs[..|xs| - 1], f) + (if f(xs[|xs| - 1]).Some? then 1 else 0)
  }

  lemma {:induction false} FilterMapCount<T, U>(xs: seq<T>, f: T -> Option<U>)
    ensures |FilterMap(xs, f)| == CountSome(xs, f)
  {
    if xs != [] {
      FilterMapCount(xs[..|xs| - 1], f);
    }
  }

  /** A dict built from its items in order, keys and values first converted;
      when two items give the same key, the later one wins. */
  function ItemsToMap<A, B, K, V>(items: seq<(A, B)>, key: A -> K, val: B -> V): map<K, V> {
    if items == [] then map[]
    else
      var n := |items| - 1;
      ItemsToMap(items[..n], key, val)[key(items[n].0) := val(items[n].1)]
  }

  /** The keys are exactly the converted keys of the items. */
  lemma {:induction false} ItemsToMapKeys<A, B, K, V>(items: seq<(A, B)>, key: A -> K, val: B -> V)
    ensures forall i :: 0 <= i < |items| ==> key(items[i].0) in ItemsToMap(items, key, val)
    ensures forall k :: k in ItemsToMap(items, key, val) ==> exists i :: 0 <= i < |items| && key(items[i].0) == k
    decreases |items|
  {
    if items != [] {
      var n := |items| - 1;
      ItemsToMapKeys(items[..n], key, val);
      assert forall i :: 0 <= i < n ==> items[..n][i] == items[i];
    }
  }

  /** The value kept for a key is that of the last item giving that key. */
  lemma {:induction false} ItemsToMapLast<A, B, K, V>(items: seq<(A, B)>, key: A -> K, val: B -> V, i: nat)
    requires i < |items|
    requires forall j :: i < j < |items| ==> key(items[j].0) != key(items[i].0)
    ensures key(items[i].0) in ItemsToMap(items, key, val)
    ensures ItemsToMap(items, key, val)[key(items[i].0)] == val(items[i].1)
    decreases |items|
  {
    var n := |items| - 1;
    if i < n {
      var init := items[..n];
      assert init[i] == items[i];
      assert forall j :: i < j < n ==> init[j] == items[j];
      ItemsToMapLast(init, key, val, i);
    }
  }
}
