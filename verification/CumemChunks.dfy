/** Sizes in the chunked allocator: rounding to the granularity and cutting into chunks, with the
    64-bit wrap-around of size_t written out (csrc/cumem_allocator.cpp).  */
module CumemChunks {

  const TWO_64: nat := 0x1_0000_0000_0000_0000
  const MB: nat := 1024 * 1024
  const DEFAULT_CHUNK: nat := 256 * 1024 * 1024

  function Wrap(x: nat): nat { x % TWO_64 }

  /** The environment variable as strtoull reads it: a number of megabytes, if there is one. */
  datatype ChunkSetting = Unset | Unparsable | Megabytes(n: nat)

  function ConfiguredChunk(setting: ChunkSetting): (bytes: nat)
    ensures 0 < bytes < TWO_64 && bytes % MB == 0
    ensures bytes == if setting.Megabytes? && 0 < setting.n * MB < TWO_64 then setting.n * MB else DEFAULT_CHUNK
  {
    match setting
    case Megabytes(n) => if n == 0 || n > (TWO_64 - 1) / MB then DEFAULT_CHUNK else n * MB
    case _ => DEFAULT_CHUNK
  }

  /** ((x + g - 1) / g) * g in size_t. */
  function AlignUp(x: nat, g: nat): nat
    requires g > 0
  {
    var q := Wrap(x + g - 1) / g;
    MulIsNat(q, g);
    Wrap(q * g)
  }

  lemma {:induction false} MulIsNat(a: nat, b: nat)
    ensures a * b >= 0
  {
  }

  lemma {:induction false} MulAtLeast(a: nat, b: nat)
    requires b >= 1
    ensures a * b >= a
  {
  }

  lemma {:induction false} DivBounds(x: nat, g: nat)
    requires g > 0
    ensures x / g * g <= x < x / g * g + g
    ensures x / g * g % g == 0
  {
    assert x == g * (x / g) + x % g;
    MultipleOf(x / g, g);
  }

  lemma {:induction false} MultipleOf(k: nat, g: nat)
    requires g > 0
    ensures k * g % g == 0
  {
    if k > 0 {
      MultipleOf(k - 1, g);
      assert k * g == (k - 1) * g + g;
      AddMultiple((k - 1) * g, g);
    }
  }

  lemma {:induction false} AddMultiple(x: nat, g: nat)
    requires g > 0
    ensures (x + g) % g == x % g
  {
    var q, r := x / g, x % g;
    assert x + g == g * (q + 1) + r;
    DivUnique(x + g, g, q + 1, r);
  }

  lemma {:induction false} DivUnique(x: nat, g: nat, q: nat, r: nat)
    requires g > 0 && x == g * q + r && r < g
    ensures x / g == q && x % g == r
  {
    var q', r' := x / g, x % g;
    assert x == g * q' + r';
    assert g * (q - q') == r' - r;
    assert q <= q' by {
      if q > q' { MulAtLeast(g, q - q'); }
    }
    assert q' <= q by {
      if q < q' { MulAtLeast(g, q' - q); }
    }
  }

  lemma {:induction false} WrapOfSmall(x: nat)
    requires x < TWO_64
    ensures Wrap(x) == x
  {
  }

  lemma {:induction false} AlignUpRounds(x: nat, g: nat)
    requires 0 < g < TWO_64 && x + g - 1 < TWO_64
    ensures AlignUp(x, g) == (x + g - 1) / g * g
  {
    WrapOfSmall(x + g - 1);
    DivBounds(x + g - 1, g);
    MulIsNat((x + g - 1) / g, g);
    WrapOfSmall((x + g - 1) / g * g);
  }

  lemma {:induction false} AlignUpWraps(x: nat, g: nat)
    requires 0 < g < TWO_64 && x < TWO_64 && x + g - 1 >= TWO_64
    ensures AlignUp(x, g) == 0
  {
    var w := x + g - 1 - TWO_64;
    DivUnique(x + g - 1, TWO_64, 1, w);
    DivUnique(w, g, 0, w);
  }

  /** Rounding up gives the next multiple, unless the sum wraps: then it gives zero. */
  lemma {:induction false} AlignUpIsExact(x: nat, g: nat)
    requires 0 < g < TWO_64 && x < TWO_64
    ensures x + g - 1 < TWO_64 ==> x <= AlignUp(x, g) < x + g && AlignUp(x, g) % g == 0
    ensures x + g - 1 >= TWO_64 ==> AlignUp(x, g) == 0
  {
    if x + g - 1 < TWO_64 {
      AlignUpRounds(x, g);
      DivBounds(x + g - 1, g);
    } else {
      AlignUpWraps(x, g);
    }
  }

  /** A configured chunk size that passes the overflow guard can still round to zero, and the number
      of chunks is then a division by zero: 2^44 - 1 megabytes at a granularity of 2 MB. */
  lemma {:induction false} ChunkCanRoundToZero()
    ensures ConfiguredChunk(Megabytes(0xFFF_FFFF_FFFF)) == 0xFFF_FFFF_FFFF * MB
    ensures AlignUp(ConfiguredChunk(Megabytes(0xFFF_FFFF_FFFF)), 2 * MB) == 0
  {
    AlignUpIsExact(0xFFF_FFFF_FFFF * MB, 2 * MB);
  }

  // ----- Cutting a size into chunks -----

  function Sum(s: seq<nat>): nat {
    if s == [] then 0 else Sum(s[..|s| - 1]) + s[|s| - 1]
  }

  function NumChunks(total: nat, chunk: nat): nat
    requires chunk > 0
  {
    Wrap(total + chunk - 1) / chunk
  }

  /** Chunk `i` starts inside the total, so its size is positive and never wraps. */
  lemma {:induction false} ChunkStarts(total: nat, chunk: nat, i: nat)
    requires chunk > 0 && i < NumChunks(total, chunk)
    ensures 0 <= i * chunk < total
  {
    var n, w := NumChunks(total, chunk), Wrap(total + chunk - 1);
    DivBounds(w, chunk);
    DivBounds(total + chunk - 1, TWO_64);
    assert w <= total + chunk - 1;
    assert (i + 1) * chunk <= n * chunk by { MulMonotone(i + 1, n, chunk); }
    assert (i + 1) * chunk == i * chunk + chunk;
  }

  lemma {:induction false} MulMonotone(a: nat, b: nat, c: nat)
    requires a <= b
    ensures a * c <= b * c
  {
  }

  function ChunkAt(total: nat, chunk: nat, i: nat): nat
    requires chunk > 0 && i < NumChunks(total, chunk)
  {
    ChunkStarts(total, chunk, i);
    if total - i * chunk < chunk then total - i * chunk else chunk
  }

  function Chunks(total: nat, chunk: nat): seq<nat>
    requires chunk > 0
  {
    seq(NumChunks(total, chunk), i requires 0 <= i < NumChunks(total, chunk) => ChunkAt(total, chunk, i))
  }

  /** All chunks before the last are full, so chunk `i` starts at `i * chunk`. */
  lemma {:induction false} ChunkOffset(total: nat, chunk: nat, i: nat)
    requires chunk > 0 && i < NumChunks(total, chunk)
    ensures Sum(Chunks(total, chunk)[..i]) == i * chunk
  {
    if i > 0 {
      ChunkStarts(total, chunk, i);
      assert i * chunk == (i - 1) * chunk + chunk;
      ChunkOffset(total, chunk, i - 1);
      assert Chunks(total, chunk)[..i][..i - 1] == Chunks(total, chunk)[..i - 1];
    }
  }

  lemma {:induction false} WrappedCountIsZero(total: nat, chunk: nat)
    requires 0 < chunk < TWO_64 && total < TWO_64 && total + chunk - 1 >= TWO_64
    ensures NumChunks(total, chunk) == 0
  {
    var w := total + chunk - 1 - TWO_64;
    DivUnique(total + chunk - 1, TWO_64, 1, w);
    DivUnique(w, chunk, 0, w);
  }

  lemma {:induction false} CountCovers(total: nat, chunk: nat)
    requires 0 < chunk < TWO_64 && total + chunk - 1 < TWO_64
    ensures total <= NumChunks(total, chunk) * chunk
  {
    assert Wrap(total + chunk - 1) == total + chunk - 1;
    DivBounds(total + chunk - 1, chunk);
  }

  lemma {:induction false} LastChunkCompletes(total: nat, chunk: nat)
    requires chunk > 0 && NumChunks(total, chunk) > 0 && total <= NumChunks(total, chunk) * chunk
    ensures Sum(Chunks(total, chunk)) == total
  {
    var n := NumChunks(total, chunk);
    ChunkOffset(total, chunk, n - 1);
    ChunkStarts(total, chunk, n - 1);
    assert n * chunk == (n - 1) * chunk + chunk;
  }

  /** The chunks add up to the total exactly when the rounding in the chunk count does not wrap. */
  lemma {:induction false} ChunksSum(total: nat, chunk: nat)
    requires 0 < chunk < TWO_64 && total < TWO_64
    ensures Sum(Chunks(total, chunk)) == total <==> total == 0 || total + chunk - 1 < TWO_64
  {
    if total + chunk - 1 >= TWO_64 {
      WrappedCountIsZero(total, chunk);
      assert Chunks(total, chunk) == [];
    } else {
      CountCovers(total, chunk);
      if NumChunks(total, chunk) == 0 {
        assert Chunks(total, chunk) == [];
      } else {
        LastChunkCompletes(total, chunk);
      }
    }
  }

  /** The chunks never exceed the total, and fall short of it only when there are none because their count
      wraps. */
  lemma {:induction false} ChunksFit(total: nat, chunk: nat)
    requires 0 < chunk < TWO_64 && 0 < total < TWO_64
    ensures Sum(Chunks(total, chunk)) <= total
    ensures Chunks(total, chunk) != [] <==> Sum(Chunks(total, chunk)) == total
    ensures Chunks(total, chunk) != [] <==> total + chunk - 1 < TWO_64
  {
    ChunksSum(total, chunk);
    if total + chunk - 1 >= TWO_64 {
      WrappedCountIsZero(total, chunk);
      assert Chunks(total, chunk) == [];
    }
  }

  /** Every chunk is a positive multiple of the granularity and no larger than the chunk size. */
  lemma {:induction false} ChunksAreAligned(total: nat, chunk: nat, g: nat, i: nat)
    requires chunk > 0 && g > 0 && total % g == 0 && chunk % g == 0
    requires i < NumChunks(total, chunk)
    ensures 0 < Chunks(total, chunk)[i] <= chunk
    ensures Chunks(total, chunk)[i] % g == 0
  {
    ChunkStarts(total, chunk, i);
    DifferenceOfMultiples(total, chunk, g, i);
  }

  lemma {:induction false} DifferenceOfMultiples(total: nat, chunk: nat, g: nat, i: nat)
    requires g > 0 && total % g == 0 && chunk % g == 0 && total - i * chunk >= 0
    ensures (total - i * chunk) % g == 0
  {
    var t, c := total / g, chunk / g;
    assert total == t * g && chunk == c * g;
    assert i * chunk == i * c * g by { MulAssociates(i, c, g); }
    assert (t - i * c) * g == total - i * chunk by { MulDistributes(t, i * c, g); }
    NonNegativeFactor(t - i * c, g);
    MultipleOf(t - i * c, g);
  }

  lemma {:induction false} MulAssociates(a: int, b: int, c: int)
    ensures a * (b * c) == a * b * c
  {
  }

  lemma {:induction false} MulDistributes(a: int, b: int, c: int)
    ensures (a - b) * c == a * c - b * c
  {
  }

  lemma {:induction false} NonNegativeFactor(a: int, b: nat)
    requires b > 0 && a * b >= 0
    ensures a >= 0
  {
  }

  /** The loop that fills the chunk sizes. */
  method FillChunks(total: nat, chunk: nat) returns (sizes: array<nat>)
    requires chunk > 0
    ensures fresh(sizes) && sizes[..] == Chunks(total, chunk)
  {
    var n := NumChunks(total, chunk);
    sizes := new nat[n];
    for i := 0 to n
      invariant forall j :: 0 <= j < i ==> sizes[j] == ChunkAt(total, chunk, j)
    {
      ChunkStarts(total, chunk, i);
      var left := total - i * chunk;
      sizes[i] := if left < chunk then left else chunk;
    }
  }
}
