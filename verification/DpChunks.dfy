/** How many tokens each rank processes in each chunk when data-parallel ranks run in lockstep
    (vllm/forward_context.py).  */
module DpChunks {

  function Min(a: int, b: int): int { if a < b then a else b }

  function Sum(s: seq<nat>): nat {
    if s == [] then 0 else Sum(s[..|s| - 1]) + s[|s| - 1]
  }

  /** The share of a sequence-parallel rank. */
  function CeilDiv(n: nat, k: nat): nat
    requires k > 0
  {
    (n + k - 1) / k
  }

  /** The least number of pieces of size k that hold n. */
  lemma {:induction false} CeilDivIsLeast(n: nat, k: nat, q: nat)
    requires k > 0
    ensures n <= k * CeilDiv(n, k) <= n + k - 1
    ensures n <= k * q <==> CeilDiv(n, k) <= q
  {
    var c := CeilDiv(n, k);
    assert n + k - 1 == k * c + (n + k - 1) % k;
    if c <= q {
      Scale(k, c, q);
    } else {
      Scale(k, q + 1, c);
    }
  }

  lemma {:induction false} Scale(k: nat, a: nat, b: nat)
    requires a <= b
    ensures k * a <= k * b && k * (a + 1) == k * a + k
  {
  }

  function Repeated(x: nat, k: nat): (r: seq<nat>)
    ensures |r| == k && forall i :: 0 <= i < k ==> r[i] == x
  {
    seq(k, _ => x)
  }

  /** The shares of all ranks: each data-parallel rank's tokens, spread evenly over its `sp` ranks. */
  function Shares(tokens: seq<nat>, sp: nat): seq<nat>
    requires sp > 0
  {
    if tokens == [] then []
    else Shares(tokens[..|tokens| - 1], sp) + Repeated(CeilDiv(tokens[|tokens| - 1], sp), sp)
  }

  lemma {:induction false} ShareOf(tokens: seq<nat>, sp: nat, r: nat, k: nat)
    requires sp > 0 && r < |tokens| && k < sp
    ensures |Shares(tokens, sp)| == |tokens| * sp && r * sp + k < |tokens| * sp
    ensures Shares(tokens, sp)[r * sp + k] == CeilDiv(tokens[r], sp)
  {
    var n := |tokens| - 1;
    ShareCount(tokens, sp);
    ShareCount(tokens[..n], sp);
    Scale(sp, r, n);
    assert (n + 1) * sp == n * sp + sp;
    if r < n {
      Scale(sp, r + 1, n);
      ShareOf(tokens[..n], sp, r, k);
    }
  }

  lemma {:induction false} ShareCount(tokens: seq<nat>, sp: nat)
    requires sp > 0
    ensures |Shares(tokens, sp)| == |tokens| * sp
  {
    if tokens != [] {
      var n := |tokens| - 1;
      ShareCount(tokens[..n], sp);
      assert (n + 1) * sp == n * sp + sp;
    }
  }

  lemma {:induction false} SumAppend(a: seq<nat>, b: seq<nat>)
    ensures Sum(a + b) == Sum(a) + Sum(b)
  {
    if b == [] {
      assert a + b == a;
    } else {
      SumAppend(a, b[..|b| - 1]);
      assert (a + b)[..|a + b| - 1] == a + b[..|b| - 1];
    }
  }

  lemma {:induction false} SumRepeated(x: nat, k: nat)
    ensures Sum(Repeated(x, k)) == k * x
  {
    if k > 0 {
      SumRepeated(x, k - 1);
      assert Repeated(x, k)[..k - 1] == Repeated(x, k - 1);
      assert k * x == (k - 1) * x + x;
    }
  }

  /** The shares hold all tokens, and waste less than one per rank. */
  lemma {:induction false} SharesHoldAllTokens(tokens: seq<nat>, sp: nat)
    requires sp > 0
    ensures Sum(tokens) <= Sum(Shares(tokens, sp)) <= Sum(tokens) + |tokens| * (sp - 1)
  {
    if tokens != [] {
      var n := |tokens| - 1;
      SharesHoldAllTokens(tokens[..n], sp);
      var share := CeilDiv(tokens[n], sp);
      SumAppend(Shares(tokens[..n], sp), Repeated(share, sp));
      SumRepeated(share, sp);
      CeilDivIsLeast(tokens[n], sp, 0);
      assert (n + 1) * (sp - 1) == n * (sp - 1) + (sp - 1);
    }
  }

  /** Running totals, as torch.cumsum gives them. */
  function CumulativeSum(s: seq<nat>): (r: seq<nat>)
    ensures |r| == |s|
  {
    if s == [] then []
    else
      var r := CumulativeSum(s[..|s| - 1]);
      r + [(if r == [] then 0 else r[|r| - 1]) + s[|s| - 1]]
  }

  function CuTokensAcrossSp(tokens: seq<nat>, sp: nat): seq<nat>
    requires sp > 0
  {
    CumulativeSum(Shares(tokens, sp))
  }

  /** The share of one sequence-parallel rank, for every data-parallel rank. */
  function Ceilings(tokens: seq<nat>, sp: nat): seq<nat>
    requires sp > 0
  {
    seq(|tokens|, r requires 0 <= r < |tokens| => CeilDiv(tokens[r], sp))
  }

  lemma {:induction false} SumOfShares(tokens: seq<nat>, sp: nat)
    requires sp > 0
    ensures Sum(Shares(tokens, sp)) == sp * Sum(Ceilings(tokens, sp))
  {
    if tokens != [] {
      var n := |tokens| - 1;
      var share, rest := CeilDiv(tokens[n], sp), Sum(Ceilings(tokens[..n], sp));
      SumOfShares(tokens[..n], sp);
      SumAppend(Shares(tokens[..n], sp), Repeated(share, sp));
      SumRepeated(share, sp);
      assert Ceilings(tokens, sp)[..n] == Ceilings(tokens[..n], sp);
      Distribute(sp, rest, share);
    }
  }

  lemma {:induction false} Distribute(k: nat, a: nat, b: nat)
    ensures k * (a + b) == k * a + k * b
  {
  }

  /** The shares up to rank `k` of data-parallel rank `r`. */
  lemma {:induction false} SharesUpTo(tokens: seq<nat>, sp: nat, r: nat, k: nat)
    requires sp > 0 && r < |tokens| && k < sp
    ensures r * sp + k < |Shares(tokens, sp)|
    ensures Shares(tokens, sp)[..r * sp + k + 1] == Shares(tokens[..r], sp) + Repeated(CeilDiv(tokens[r], sp), k + 1)
  {
    var n := |tokens| - 1;
    ShareOf(tokens, sp, r, k);
    ShareCount(tokens, sp);
    ShareCount(tokens[..n], sp);
    if r < n {
      ShareOf(tokens[..n], sp, r, k);
      SharesUpTo(tokens[..n], sp, r, k);
      assert tokens[..n][..r] == tokens[..r];
    }
  }

  /** Where each rank's tokens end: after those of all ranks of earlier groups and of ranks 0 .. k of its own. */
  lemma {:induction false} CuTokensAt(tokens: seq<nat>, sp: nat, r: nat, k: nat)
    requires sp > 0 && r < |tokens| && k < sp
    ensures |CuTokensAcrossSp(tokens, sp)| == |tokens| * sp && r * sp + k < |tokens| * sp
    ensures CuTokensAcrossSp(tokens, sp)[r * sp + k] ==
            sp * Sum(Ceilings(tokens[..r], sp)) + (k + 1) * CeilDiv(tokens[r], sp)
  {
    ShareOf(tokens, sp, r, k);
    CumulativeSumAt(Shares(tokens, sp), r * sp + k);
    SharesUpTo(tokens, sp, r, k);
    SumAppend(Shares(tokens[..r], sp), Repeated(CeilDiv(tokens[r], sp), k + 1));
    SumOfShares(tokens[..r], sp);
    SumRepeated(CeilDiv(tokens[r], sp), k + 1);
  }

  /** Entry i is the number of tokens of ranks 0 .. i, so each rank's tokens follow those of the ranks before it. */
  lemma {:induction false} CumulativeSumAt(s: seq<nat>, i: nat)
    requires i < |s|
    ensures CumulativeSum(s)[i] == Sum(s[..i + 1])
  {
    var n := |s| - 1;
    if i < n {
      CumulativeSumAt(s[..n], i);
      assert s[..n][..i + 1] == s[..i + 1];
    } else {
      assert s[..i + 1] == s;
      if n > 0 {
        CumulativeSumAt(s[..n], n - 1);
        assert s[..n][..n] == s[..n];
      }
    }
  }

  lemma {:induction false} CuTokensTotal(tokens: seq<nat>, sp: nat)
    requires sp > 0 && tokens != []
    ensures var cu := CuTokensAcrossSp(tokens, sp);
            cu != [] && Sum(tokens) <= cu[|cu| - 1] <= Sum(tokens) + |tokens| * (sp - 1)
  {
    var s := Shares(tokens, sp);
    ShareOf(tokens, sp, 0, 0);
    CumulativeSumAt(s, |s| - 1);
    assert s[..|s|] == s;
    SharesHoldAllTokens(tokens, sp);
  }

  // ----- Chunks -----

  /** How many of a rank's `share` tokens lie in chunk `c`, that is at limit * c and after, before limit * (c + 1). */
  function InChunk(share: nat, limit: nat, c: nat): int {
    Min(share, limit * (c + 1)) - Min(share, limit * c)
  }

  /** What a rank processes in chunk `c`: its tokens there, or one dummy token when it has none left. */
  function LocalSize(share: nat, limit: nat, c: nat): int {
    if InChunk(share, limit, c) > 0 then InChunk(share, limit, c) else 1
  }

  /** What a rank processes in the first `chunks` chunks. */
  function Processed(share: nat, limit: nat, chunks: nat): int {
    if chunks == 0 then 0 else Processed(share, limit, chunks - 1) + LocalSize(share, limit, chunks - 1)
  }

  /** Each of its tokens once, and then one dummy token per chunk. */
  lemma {:induction false} EveryTokenOnce(share: nat, limit: nat, chunks: nat)
    requires limit > 0
    ensures var needed := CeilDiv(share, limit);
            Processed(share, limit, chunks) ==
            if chunks <= needed then Min(share, limit * chunks) else share + (chunks - needed)
  {
    if chunks > 0 {
      var c := chunks - 1;
      EveryTokenOnce(share, limit, c);
      CeilDivIsLeast(share, limit, c);
      CeilDivIsLeast(share, limit, chunks);
      Scale(limit, c, chunks);
    }
  }

  /** The sizes of chunk `c` on every rank: never zero, so that all ranks stay in lockstep, and never above the
      limit. */
  method ChunkedLocalSizes(tokens: seq<nat>, sp: nat, limit: nat, c: nat) returns (sizes: seq<int>)
    requires sp > 0 && limit > 0
    ensures |sizes| == |tokens| * sp
    ensures forall i :: 0 <= i < |sizes| ==> 1 <= sizes[i] <= limit
    ensures forall i :: 0 <= i < |sizes| ==>
              i < |Shares(tokens, sp)| && sizes[i] == LocalSize(Shares(tokens, sp)[i], limit, c)
  {
    var shares := Shares(tokens, sp);
    ShareCount(tokens, sp);
    var local := new int[|shares|](_ => -1);
    Scale(limit, c, c);
    for i := 0 to |shares|
      invariant forall j :: 0 <= j < i ==> 1 <= local[j] <= limit && local[j] == LocalSize(shares[j], limit, c)
    {
      local[i] := Min(limit, shares[i] - limit * c);
      if local[i] <= 0 {
        local[i] := 1;
      }
    }
    sizes := local[..];
  }
}
