/** The integer part of `calculate_entropy` (src/pdf_analysis.rs:267-282): the
    256-bin byte histogram. The floating-point formula built on it is not
    modelled; the scorer receives its outcome as an input. */
module Entropy {
  import opened Ascii

  /** How many times byte value `v` occurs in `data`. */
  function Occurrences(data: seq<Byte>, v: nat): (n: nat)
    ensures n <= |data|
  {
    if data == [] then 0
    else Occurrences(data[..|data| - 1], v) + (if data[|data| - 1] as nat == v then 1 else 0)
  }

  /** Sum of the first `n` bins of a histogram. */
  function SumBins(freq: seq<nat>, n: nat): nat
    requires n <= |freq|
  {
    if n == 0 then 0 else SumBins(freq, n - 1) + freq[n - 1]
  }

  /** The histogram of `data`: bin `v` holds the number of bytes equal to `v`. */
  predicate IsHistogramOf(freq: seq<nat>, data: seq<Byte>) {
    |freq| == 256 && forall v: nat :: v < 256 ==> freq[v] == Occurrences(data, v)
  }

  lemma {:induction false} SumBinsZero(freq: seq<nat>, n: nat)
    requires n <= |freq|
    requires forall v :: 0 <= v < |freq| ==> freq[v] == 0
    ensures SumBins(freq, n) == 0
  {
    if n > 0 {
      SumBinsZero(freq, n - 1);
    }
  }

  /** Adding one to bin `x` adds one to the total of the bins `0 .. n` exactly
      when `x` is one of them. */
  lemma {:induction false} SumBinsBump(before: seq<nat>, after: seq<nat>, x: nat, n: nat)
    requires |after| == |before| && n <= |before|
    requires forall v :: 0 <= v < |before| ==> after[v] == before[v] + (if v == x then 1 else 0)
    ensures SumBins(after, n) == SumBins(before, n) + (if x < n then 1 else 0)
  {
    if n > 0 {
      SumBinsBump(before, after, x, n - 1);
    }
  }

  /** Counting one more byte `b` keeps the bins a histogram of the longer
      prefix and adds one to their total. */
  lemma HistogramStep(prefix: seq<Byte>, b: Byte, before: seq<nat>, after: seq<nat>)
    requires IsHistogramOf(before, prefix)
    requires after == before[b as nat := before[b as nat] + 1]
    ensures IsHistogramOf(after, prefix + [b])
    ensures SumBins(after, 256) == SumBins(before, 256) + 1
  {
    assert (prefix + [b])[..|prefix|] == prefix;
    SumBinsBump(before, after, b as nat, 256);
  }

  /** `calculate_entropy` lines 269-272: one pass over the buffer, adding one
      to the bin of each byte. The bins add up to the buffer length. */
  method Histogram(data: seq<Byte>) returns (freq: seq<nat>)
    ensures IsHistogramOf(freq, data)
    ensures SumBins(freq, 256) == |data|
  {
    var bins := new nat[256](_ => 0);
    SumBinsZero(bins[..], 256);
    for k := 0 to |data|
      invariant IsHistogramOf(bins[..], data[..k])
      invariant SumBins(bins[..], 256) == k
    {
      ghost var before := bins[..];
      var b := data[k];
      bins[b as nat] := bins[b as nat] + 1;
      assert data[..k + 1] == data[..k] + [b];
      HistogramStep(data[..k], b, before, bins[..]);
    }
    assert data[..|data|] == data;
    freq := bins[..];
  }

  /** A buffer of one repeated byte value has a single non-empty bin, holding
      the whole buffer (which is why its entropy is 0). */
  lemma {:induction false} SingleValueHistogram(data: seq<Byte>, b: Byte, v: nat)
    requires forall i :: 0 <= i < |data| ==> data[i] == b
    ensures Occurrences(data, v) == if v == b as nat then |data| else 0
  {
    if data != [] {
      SingleValueHistogram(data[..|data| - 1], b, v);
    }
  }
}
