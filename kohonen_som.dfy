/** The trainer itself, on the buffers it works with: the node map `W` and the
    dataset `X` are `num_out x num_features` and `num_samples x num_features`
    matrices, the distance buffer `D` holds one value per node. Each routine
    is proved against the specification in module SomSpec. */
module KohonenSom {
  import opened SomSpec

  /** Row `i` of a matrix, as a vector. */
  function Row(m: array2<real>, i: nat): (r: seq<real>)
    reads m
    requires i < m.Length0
    ensures |r| == m.Length1
  {
    seq(m.Length1, k requires 0 <= k < m.Length1 reads m => m[i, k])
  }

  /** All rows of a matrix. */
  function Rows(m: array2<real>): (rs: seq<seq<real>>)
    reads m
    ensures |rs| == m.Length0 && Shaped(rs, m.Length1)
  {
    seq(m.Length0, i requires 0 <= i < m.Length0 reads m => Row(m, i))
  }

  /** Minimum of the first `N` values of `X` and the first index holding it.
      The scan replaces its candidate only on a strictly smaller value, so
      ties go to the earliest index. */
  method GetMin1d(X: array<real>, N: int) returns (val: real, idx: int)
    requires 1 <= N <= X.Length
    ensures IsFirstMin(X[..N], idx) && val == X[idx]
    ensures idx == ArgMin(X[..N])
  {
    // The first comparison against the +infinity sentinel always succeeds,
    // so the candidate after looking at X[0] is X[0] itself.
    val, idx := X[0], 0;
    var i := 1;
    while i < N
      invariant 1 <= i <= N
      invariant 0 <= idx < i && val == X[idx]
      invariant forall j :: 0 <= j < i ==> val <= X[j]
      invariant forall j :: 0 <= j < idx ==> val < X[j]
    {
      if X[i] < val {
        idx := i;
        val := X[i];
      }
      i := i + 1;
    }
    ArgMinIsFirstMin(X[..N]);
    FirstMinUnique(X[..N], idx, ArgMin(X[..N]));
  }

  /** One training step for the sample `x`: fills `D` with every node's
      squared distance to `x`, finds the best-matching node and pulls the rows
      of `W` in the clamped window around it toward `x` by `alpha`. */
  method UpdateWeights(x: seq<real>, W: array2<real>, D: array<real>, alpha: real, R: int)
    requires W.Length0 >= 1 && D.Length == W.Length0 && |x| == W.Length1
    modifies W, D
    ensures D[..] == Distances(old(Rows(W)), x)
    ensures Rows(W) == Step(old(Rows(W)), x, alpha, R)
  {
    var numOut := W.Length0;

    // step 1: the squared distance of every node to the sample
    FillDistances(x, W, D);

    // step 2: the best-matching node
    var dMin, dMinIdx := GetMin1d(D, numOut);
    assert D[..numOut] == D[..];

    // step 3: the neighbourhood window, clamped to the map
    var fromNode := if 0 > dMinIdx - R then 0 else dMinIdx - R;
    var toNode := if numOut < dMinIdx + R + 1 then numOut else dMinIdx + R + 1;
    assert Window(fromNode, toNode) == Neighbourhood(dMinIdx, R, numOut);

    // step 4: pull every row in the window toward the sample
    PullRows(x, W, alpha, fromNode, toNode);
  }

  /** Step 1 of an update: `D[j]` becomes the squared distance from row `j`
      of `W` to `x`, summed feature by feature. */
  method FillDistances(x: seq<real>, W: array2<real>, D: array<real>)
    requires D.Length == W.Length0 && |x| == W.Length1
    modifies D
    ensures D[..] == Distances(Rows(W), x)
  {
    ghost var ws := Rows(W);
    var j := 0;
    while j < W.Length0
      invariant 0 <= j <= W.Length0
      invariant forall i :: 0 <= i < j ==> D[i] == SqDist(ws[i], x)
    {
      D[j] := 0.0;
      var k := 0;
      while k < W.Length1
        invariant 0 <= k <= W.Length1
        invariant D[j] == PartialSqDist(ws[j], x, k)
        invariant forall i :: 0 <= i < j ==> D[i] == SqDist(ws[i], x)
      {
        assert W[j, k] == ws[j][k];
        D[j] := D[j] + (W[j, k] - x[k]) * (W[j, k] - x[k]);
        k := k + 1;
      }
      j := j + 1;
    }
  }

  /** Step 4 of an update: every row of `W` with index in `[fromNode, toNode)`
      moves a fraction `alpha` of the way toward `x`; the other rows keep
      their values. */
  method PullRows(x: seq<real>, W: array2<real>, alpha: real, fromNode: int, toNode: int)
    requires 0 <= fromNode && toNode <= W.Length0 && |x| == W.Length1
    modifies W
    ensures Rows(W) == PullRange(old(Rows(W)), x, alpha, Window(fromNode, toNode))
  {
    ghost var ws := Rows(W);
    var j := fromNode;
    while j < toNode
      invariant fromNode <= j <= if fromNode <= toNode then toNode else fromNode
      invariant forall i, k :: 0 <= i < W.Length0 && 0 <= k < W.Length1 ==>
                  W[i, k] == if fromNode <= i < j then ws[i][k] + alpha * (x[k] - ws[i][k]) else ws[i][k]
    {
      var k := 0;
      while k < W.Length1
        invariant 0 <= k <= W.Length1
        invariant forall i, l :: 0 <= i < W.Length0 && 0 <= l < W.Length1 ==>
                    W[i, l] == if fromNode <= i < j || (i == j && l < k) then ws[i][l] + alpha * (x[l] - ws[i][l]) else ws[i][l]
      {
        W[j, k] := W[j, k] + alpha * (x[k] - W[j, k]);
        k := k + 1;
      }
      j := j + 1;
    }
    ghost var r := PullRange(ws, x, alpha, Window(fromNode, toNode));
    forall i, k | 0 <= i < W.Length0 && 0 <= k < W.Length1
      ensures W[i, k] == r[i][k]
    {
      PullRangeEntry(ws, x, alpha, Window(fromNode, toNode), i, k);
    }
    RowsOfEntries(W, r);
  }

  /** A matrix whose every entry agrees with `rs` has the rows `rs`. */
  lemma RowsOfEntries(m: array2<real>, rs: seq<seq<real>>)
    requires |rs| == m.Length0 && Shaped(rs, m.Length1)
    requires forall i, k :: 0 <= i < m.Length0 && 0 <= k < m.Length1 ==> m[i, k] == rs[i][k]
    ensures Rows(m) == rs
  {
    forall i | 0 <= i < m.Length0
      ensures Rows(m)[i] == rs[i]
    {
      assert forall k :: 0 <= k < m.Length1 ==> Row(m, i)[k] == rs[i][k];
    }
  }

  /** Trains the node map `W` on the dataset `X`: one pass over the samples
      per epoch, in dataset order, with learning rate 1, 0.99, 0.98, ...
      while it is above `alphaMin`, and with a radius that starts at
      `num_out >> 2` and shrinks by one after epoch 0 and after every tenth
      epoch from there (`iter % 10 == 0`) while above 1. */
  method KohonenSomTracer(X: array2<real>, W: array2<real>, alphaMin: real)
    requires X != W
    requires W.Length0 >= 1 && X.Length1 == W.Length1
    modifies W
    ensures unchanged(X)
    ensures Rows(W) == Trained(old(Rows(W)), Rows(X), W.Length1, EpochCount(alphaMin), InitialRadius(W.Length0))
  {
    ghost var ws := Rows(W);
    ghost var xs := Rows(X);
    var numOut := W.Length0;
    var R := numOut / 4;
    var iter := 0;
    var alpha := 1.0;
    var D := new real[numOut];
    ghost var trained := ws;

    while alpha > alphaMin
      invariant 0 <= iter <= EpochCount(alphaMin)
      invariant alpha == Alpha(iter)
      invariant R == RadiusAt(InitialRadius(numOut), iter)
      invariant trained == Trained(ws, xs, W.Length1, iter, InitialRadius(numOut))
      invariant Rows(W) == trained
      invariant D.Length == numOut
      invariant Rows(X) == xs
      decreases EpochCount(alphaMin) - iter
    {
      EpochCountIsExact(alphaMin, iter);
      RunEpoch(X, xs, W, D, alpha, R);
      trained := Epoch(trained, xs, W.Length1, alpha, R);
      RadiusNext(InitialRadius(numOut), iter);

      if iter % 10 == 0 && R > 1 {
        R := R - 1;
      }
      alpha := alpha - 0.01;
      iter := iter + 1;
    }
    EpochCountIsExact(alphaMin, iter);
  }

  /** One epoch of the trainer: the update step for every sample of `X`, in
      dataset order, each seeing the rows the previous one left. `D` is
      scratch space: what it holds afterwards is left unspecified. */
  method RunEpoch(X: array2<real>, ghost xs: seq<seq<real>>, W: array2<real>, D: array<real>, alpha: real, R: int)
    requires X != W && Rows(X) == xs
    requires W.Length0 >= 1 && D.Length == W.Length0 && X.Length1 == W.Length1
    modifies W, D
    ensures Rows(W) == Epoch(old(Rows(W)), xs, W.Length1, alpha, R)
  {
    ghost var start := Rows(W);
    var sample := 0;
    while sample < X.Length0
      invariant 0 <= sample <= X.Length0
      invariant Rows(X) == xs
      invariant Rows(W) == Epoch(start, xs[..sample], W.Length1, alpha, R)
    {
      var x := Row(X, sample);
      assert xs[..sample + 1][..sample] == xs[..sample];
      UpdateWeights(x, W, D, alpha, R);
      sample := sample + 1;
    }
    assert xs[..X.Length0] == xs;
  }
}
