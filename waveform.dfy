/**
 * The waveform envelope of a cue file: decode the PCM samples, keep one
 * sample out of every `channels * stride`, map samples to amplitudes by
 * sample width, and reduce the amplitudes to at most about 400 block maxima
 * for drawing. `ScaleFor` is the normalisation applied when the result
 * arrives.
 */
module Waveform {
  import opened Wrappers
  import opened Numbers

  const RawSampleTarget: nat := 3000
  const EnvelopeSize: nat := 400
  const ScaleEpsilon: real := 0.001

  /**
   * What the WAV reader reports for a file: channel count, frame count,
   * frame rate, sample width in bytes, and the sample values unpacked from
   * the frames it could read (interleaved by channel).
   */
  datatype WavFile = WavFile(channels: nat, frames: nat, frameRate: nat, sampleWidth: nat, data: seq<real>)

  /** The analysis result: the envelope and the duration in seconds. */
  datatype Analysis = Analysis(envelope: seq<real>, duration: real)

  function Abs(x: real): real
  {
    if x < 0.0 then -x else x
  }

  /** Python's `max` of a non-empty list. */
  function Max(s: seq<real>): real
    requires |s| > 0
  {
    if |s| == 1 then s[0]
    else
      var t := Max(s[1..]);
      if s[0] >= t then s[0] else t
  }

  /** The maximum is one of the elements and no element exceeds it. */
  lemma {:induction false} MaxSpec(s: seq<real>)
    requires |s| > 0
    ensures Max(s) in s
    ensures forall i :: 0 <= i < |s| ==> s[i] <= Max(s)
  {
    if |s| > 1 {
      MaxSpec(s[1..]);
      forall i | 1 <= i < |s| ensures s[i] <= Max(s) {
        assert s[i] == s[1..][i - 1];
      }
    }
  }

  lemma MaxUnique(s: seq<real>, m: real)
    requires m in s && forall i :: 0 <= i < |s| ==> s[i] <= m
    ensures Max(s) == m
  {
    MaxSpec(s);
  }

  lemma MaxConcat(a: seq<real>, b: seq<real>)
    requires |a| > 0 && |b| > 0
    ensures Max(a + b) == if Max(a) >= Max(b) then Max(a) else Max(b)
  {
    MaxSpec(a);
    MaxSpec(b);
    var m := if Max(a) >= Max(b) then Max(a) else Max(b);
    assert m in a + b;
    forall i | 0 <= i < |a + b| ensures (a + b)[i] <= m {
      if i >= |a| {
        assert (a + b)[i] == b[i - |a|];
      }
    }
    MaxUnique(a + b, m);
  }

  // ---- decoding ----

  /** `max(1, frames // 3000)`: keeps the raw sample volume near 3000 frames. */
  function Stride(frames: nat): (k: nat)
    ensures k >= 1
    ensures frames < (k + 1) * RawSampleTarget
    ensures k == 1 || k * RawSampleTarget <= frames
  {
    if frames / RawSampleTarget >= 1 then frames / RawSampleTarget else 1
  }

  /** The slice step: `channels * stride` for multi-channel files, `stride` otherwise. */
  function SliceStep(channels: nat, frames: nat): (k: nat)
    ensures k >= 1
  {
    if channels > 1 then channels * Stride(frames) else Stride(frames)
  }

  /** Python's `xs[::k]`. */
  function EveryKth(xs: seq<real>, k: nat): seq<real>
    requires k >= 1
    decreases |xs|
  {
    if |xs| == 0 then [] else [xs[0]] + EveryKth(xs[Min(k, |xs|)..], k)
  }

  /** `xs[::k]` has `ceil(|xs| / k)` elements. */
  lemma {:induction false} EveryKthLength(xs: seq<real>, k: nat)
    requires k >= 1
    ensures |xs| <= |EveryKth(xs, k)| * k < |xs| + k
    decreases |xs|
  {
    if |xs| > 0 {
      var m := Min(k, |xs|);
      EveryKthLength(xs[m..], k);
      var rest := EveryKth(xs[m..], k);
      MulSucc(|rest|, k);
      if k > |xs| {
        assert |rest| == 0;
      }
    }
  }

  /** Element `j` of `xs[::k]` is `xs[j * k]`. */
  lemma {:induction false} EveryKthAt(xs: seq<real>, k: nat, j: nat)
    requires k >= 1 && j < |EveryKth(xs, k)|
    ensures j * k < |xs| && EveryKth(xs, k)[j] == xs[j * k]
    decreases j
  {
    var m := Min(k, |xs|);
    if j > 0 {
      var rest := EveryKth(xs[m..], k);
      assert EveryKth(xs, k)[j] == rest[j - 1];
      EveryKthAt(xs[m..], k, j - 1);
      assert |xs[m..]| > 0;
      MulSucc(j - 1, k);
    }
  }

  /** `xs[::k]` holds exactly the elements at the multiples of `k`. */
  lemma EveryKthSpec(xs: seq<real>, k: nat)
    requires k >= 1
    ensures var r := EveryKth(xs, k);
      && |xs| <= |r| * k < |xs| + k
      && forall j :: 0 <= j < |r| ==> j * k < |xs| && r[j] == xs[j * k]
  {
    EveryKthLength(xs, k);
    forall j | 0 <= j < |EveryKth(xs, k)| ensures j * k < |xs| && EveryKth(xs, k)[j] == xs[j * k] {
      EveryKthAt(xs, k, j);
    }
  }

  lemma MulSucc(a: int, k: int)
    ensures (a + 1) * k == a * k + k
  {
  }

  lemma MulMonotone(a: int, b: int, k: int)
    requires a <= b && k >= 0
    ensures a * k <= b * k
  {
  }

  predicate SupportedWidth(width: nat)
  {
    width == 1 || width == 2 || width == 4
  }

  /** The range of a sample of each supported width: unsigned 8-bit, signed 16-bit, float in [-1, 1]. */
  predicate SampleInRange(width: nat, s: real)
  {
    if width == 1 then 0.0 <= s <= 255.0
    else if width == 2 then -32768.0 <= s <= 32767.0
    else -1.0 <= s <= 1.0
  }

  /**
   * A sample's amplitude: 8-bit samples are unsigned around 128, 16-bit
   * samples are signed over 32768, 32-bit samples are floats taken as they are.
   */
  function Amplitude(width: nat, s: real): (a: real)
    requires SupportedWidth(width)
    ensures a >= 0.0
    ensures SampleInRange(width, s) ==> a <= 1.0
    ensures width == 1 ==> (a == 0.0 <==> s == 128.0)
    ensures width == 1 && SampleInRange(width, s) ==> (a == 1.0 <==> s == 0.0)
    ensures width != 1 ==> (a == 0.0 <==> s == 0.0)
    ensures width == 2 && SampleInRange(width, s) ==> (a == 1.0 <==> s == -32768.0)
  {
    if width == 1 then Abs(s - 128.0) / 128.0
    else if width == 2 then Abs(s) / 32768.0
    else Abs(s) / 1.0
  }

  function Amplitudes(width: nat, xs: seq<real>): (r: seq<real>)
    requires SupportedWidth(width)
  {
    seq(|xs|, i requires 0 <= i < |xs| => Amplitude(width, xs[i]))
  }

  /**
   * The samples kept and mapped to amplitudes, or `None` where the analysis
   * gives up: a zero frame rate (the duration division raises), an
   * unsupported sample width, or fewer samples than the header announces
   * (the unpacking raises).
   */
  function Decode(f: WavFile): Option<seq<real>>
  {
    if f.frameRate == 0 then None
    else if !SupportedWidth(f.sampleWidth) then None
    else if |f.data| != f.frames * f.channels then None
    else Some(Amplitudes(f.sampleWidth, EveryKth(f.data, SliceStep(f.channels, f.frames))))
  }

  /**
   * A successful decode keeps the samples at the multiples of the slice step
   * (the first channel of every stride-th frame), `ceil(total / step)` of
   * them, each mapped to its amplitude.
   */
  lemma DecodeSpec(f: WavFile)
    requires Decode(f).Some?
    ensures var d := Decode(f).value; var k := SliceStep(f.channels, f.frames);
      && |f.data| <= |d| * k < |f.data| + k
      && forall j :: 0 <= j < |d| ==> j * k < |f.data| && d[j] == Amplitude(f.sampleWidth, f.data[j * k])
  {
    EveryKthSpec(f.data, SliceStep(f.channels, f.frames));
  }

  // ---- reduction ----

  /** `max(1, n // count)`. */
  function BlockSize(n: nat, count: nat): (b: nat)
    requires count > 0
    ensures b >= 1
  {
    if n / count >= 1 then n / count else 1
  }

  /** Consecutive blocks of `b` samples; the last one may be shorter. */
  function Blocks(s: seq<real>, b: nat): seq<seq<real>>
    requires b >= 1
    decreases |s|
  {
    if |s| == 0 then [] else var m := Min(b, |s|); [s[..m]] + Blocks(s[m..], b)
  }

  function Concat(bs: seq<seq<real>>): seq<real>
  {
    if |bs| == 0 then [] else bs[0] + Concat(bs[1..])
  }

  /**
   * The blocks partition the input: concatenated they give it back, every
   * block is non-empty and at most `b` long, all but the last exactly `b`,
   * and there are `ceil(|s| / b)` of them.
   */
  lemma {:induction false} BlocksPartition(s: seq<real>, b: nat)
    requires b >= 1
    ensures var bs := Blocks(s, b);
      && Concat(bs) == s
      && (forall j :: 0 <= j < |bs| ==> 1 <= |bs[j]| <= b)
      && (forall j :: 0 <= j < |bs| - 1 ==> |bs[j]| == b)
      && |s| <= |bs| * b < |s| + b
    decreases |s|
  {
    if |s| > 0 {
      var m := Min(b, |s|);
      BlocksPartition(s[m..], b);
      var bs := Blocks(s, b);
      var rest := Blocks(s[m..], b);
      assert bs == [s[..m]] + rest;
      assert bs[1..] == rest;
      assert s[..m] + s[m..] == s;
      MulSucc(|rest|, b);
      if m < b {
        assert |rest| == 0;
      }
    }
  }

  /** The maximum of each block, left to right. */
  function BlockMaxes(s: seq<real>, b: nat): seq<real>
    requires b >= 1
    decreases |s|
  {
    if |s| == 0 then [] else var m := Min(b, |s|); [Max(s[..m])] + BlockMaxes(s[m..], b)
  }

  lemma {:induction false} BlockMaxesAt(s: seq<real>, b: nat)
    requires b >= 1
    ensures |BlockMaxes(s, b)| == |Blocks(s, b)|
    ensures forall j :: 0 <= j < |Blocks(s, b)| ==> |Blocks(s, b)[j]| > 0 && BlockMaxes(s, b)[j] == Max(Blocks(s, b)[j])
    decreases |s|
  {
    if |s| > 0 {
      var m := Min(b, |s|);
      BlockMaxesAt(s[m..], b);
      var bs, ms := Blocks(s, b), BlockMaxes(s, b);
      var bs', ms' := Blocks(s[m..], b), BlockMaxes(s[m..], b);
      assert bs == [s[..m]] + bs';
      assert ms == [Max(s[..m])] + ms';
      forall j | 0 <= j < |bs|
        ensures |bs[j]| > 0 && ms[j] == Max(bs[j])
      {
        if j > 0 {
          assert bs[j] == bs'[j - 1] && ms[j] == ms'[j - 1];
        }
      }
    }
  }

  /** Unrolling the block maxima at an offset `i`: the block starting there, then the rest. */
  lemma BlockMaxesFrom(s: seq<real>, i: nat, b: nat)
    requires b >= 1 && i < |s|
    ensures BlockMaxes(s[i..], b) == [Max(s[i..Min(i + b, |s|)])] + BlockMaxes(s[Min(i + b, |s|)..], b)
  {
    var rest := s[i..];
    assert rest[..Min(b, |rest|)] == s[i..Min(i + b, |s|)];
    assert rest[Min(b, |rest|)..] == s[Min(i + b, |s|)..];
  }

  /** The block maxima read off by index: the block starting at `i`, then those after it. */
  function MaxesFrom(s: seq<real>, b: nat, i: nat): seq<real>
    requires b >= 1
    decreases |s| - i
  {
    if i >= |s| then [] else [Max(s[i..Min(i + b, |s|)])] + MaxesFrom(s, b, i + b)
  }

  /** Reading the blocks by index agrees with cutting the input into blocks. */
  lemma {:induction false} MaxesFromBlockMaxes(s: seq<real>, b: nat, i: nat)
    requires b >= 1 && i <= |s|
    ensures MaxesFrom(s, b, i) == BlockMaxes(s[i..], b)
    decreases |s| - i
  {
    if i < |s| {
      var j := Min(i + b, |s|);
      BlockMaxesFrom(s, i, b);
      if i + b <= |s| {
        MaxesFromBlockMaxes(s, b, i + b);
      } else {
        assert s[j..] == [];
      }
      assert MaxesFrom(s, b, i + b) == BlockMaxes(s[j..], b);
    } else {
      assert s[i..] == [];
    }
  }

  /**
   * One pass of the reduction loop keeps "done so far, then the rest" equal
   * to the whole: `done` before the pass, `after` once the block starting
   * at `i` is handled (its maximum appended unless the block is empty,
   * which it never is).
   */
  lemma ReduceStep(s: seq<real>, b: nat, i: nat, done: seq<real>, after: seq<real>)
    requires b >= 1 && i < |s|
    requires done + MaxesFrom(s, b, i) == MaxesFrom(s, b, 0)
    requires |s[i..Min(i + b, |s|)]| > 0 ==> after == done + [Max(s[i..Min(i + b, |s|)])]
    requires |s[i..Min(i + b, |s|)]| == 0 ==> after == done
    ensures after + MaxesFrom(s, b, i + b) == MaxesFrom(s, b, 0)
  {
    AppendAssoc(done, [Max(s[i..Min(i + b, |s|)])], MaxesFrom(s, b, i + b));
  }

  lemma AppendAssoc(a: seq<real>, b: seq<real>, c: seq<real>)
    ensures (a + b) + c == a + (b + c)
  {
  }

  /** `_reduce_samples(samples, count)` as a function: empty stays empty. */
  function Reduced(s: seq<real>, count: nat): seq<real>
    requires count > 0
  {
    if |s| == 0 then [] else BlockMaxes(s, BlockSize(|s|, count))
  }

  /** The overall maximum survives the reduction to block maxima. */
  lemma {:induction false} BlockMaxesKeepMax(s: seq<real>, b: nat)
    requires b >= 1 && |s| > 0
    ensures |BlockMaxes(s, b)| > 0 && Max(BlockMaxes(s, b)) == Max(s)
    decreases |s|
  {
    var m := Min(b, |s|);
    var r := BlockMaxes(s, b);
    assert s[..m] + s[m..] == s;
    if m == |s| {
      assert s[..m] == s;
      assert r == [Max(s)];
      assert Max(r) == Max(s) by { MaxUnique(r, Max(s)); }
    } else {
      BlockMaxesKeepMax(s[m..], b);
      var rest := BlockMaxes(s[m..], b);
      MaxConcat([Max(s[..m])], rest);
      MaxUnique([Max(s[..m])], Max(s[..m]));
      MaxConcat(s[..m], s[m..]);
      assert r == [Max(s[..m])] + rest;
    }
  }

  /** Every block maximum is an input value. */
  lemma {:induction false} BlockMaxesFromInput(s: seq<real>, b: nat)
    requires b >= 1
    ensures forall v :: v in BlockMaxes(s, b) ==> v in s
    decreases |s|
  {
    if |s| > 0 {
      var m := Min(b, |s|);
      var r := BlockMaxes(s, b);
      assert s[..m] + s[m..] == s;
      BlockMaxesFromInput(s[m..], b);
      var rest := BlockMaxes(s[m..], b);
      assert r == [Max(s[..m])] + rest;
      MaxSpec(s[..m]);
      forall v | v in r ensures v in s {
        if v in rest {
          assert v in s[m..];
        } else {
          assert v in s[..m];
        }
      }
    }
  }

  /**
   * The reduced sequence has `ceil(n / b)` values for the block size `b`,
   * keeps the maximum of the input, and holds only input values. When the
   * input has at least `count` values the output has between `count` and
   * `2 * count - 1` values: it can exceed `count`.
   */
  lemma ReducedSpec(s: seq<real>, count: nat)
    requires count > 0 && |s| > 0
    ensures var r := Reduced(s, count); var b := BlockSize(|s|, count);
      && |s| <= |r| * b < |s| + b
      && |r| <= 2 * count - 1
      && (|s| >= count ==> |r| >= count)
      && |r| > 0 && Max(r) == Max(s)
      && forall v :: v in r ==> v in s
  {
    var b := BlockSize(|s|, count);
    var r := Reduced(s, count);
    BlocksPartition(s, b);
    BlockMaxesAt(s, b);
    BlockMaxesKeepMax(s, b);
    BlockMaxesFromInput(s, b);
    BlockCountBounds(|s|, count, b, |r|);
  }

  /**
   * Arithmetic behind `ReducedSpec`: `k = ceil(n / b)` blocks of size
   * `b = max(1, n // count)` number at most `2 * count - 1`, and at least
   * `count` once `n >= count`.
   */
  lemma BlockCountBounds(n: nat, count: nat, b: nat, k: nat)
    requires count > 0 && n > 0 && b == BlockSize(n, count)
    requires n <= k * b < n + b
    ensures k <= 2 * count - 1
    ensures n >= count ==> k >= count
  {
    MulSucc(k - 1, b);
    if n >= count {
      DivBounds(n, count);
      CountUpper(n, count, b, k);
      CountLower(n, count, b, k);
    } else {
      assert b == 1;
    }
  }

  lemma CountUpper(n: nat, count: nat, b: nat, k: nat)
    requires count > 0 && b >= 1
    requires n < b * count + count
    requires (k - 1) * b < n
    ensures k <= 2 * count - 1
  {
    if k > 2 * count - 1 {
      MulMonotone(2 * count - 1, k - 1, b);
      TwoCountMinusOne(count, b);
    }
  }

  lemma CountLower(n: nat, count: nat, b: nat, k: nat)
    requires count > 0 && b >= 1
    requires b * count <= n <= k * b
    ensures k >= count
  {
    if k < count {
      MulMonotone(k, count - 1, b);
      MulSucc(count - 1, b);
    }
  }

  lemma DivBounds(n: nat, count: nat)
    requires count > 0
    ensures (n / count) * count <= n < (n / count) * count + count
  {
  }

  lemma TwoCountMinusOne(count: nat, b: nat)
    requires count > 0 && b >= 1
    ensures (2 * count - 1) * b >= b * count + count - 1
  {
    assert (2 * count - 1) * b == b * count + (count - 1) * b;
    MulMonotone(1, b, count - 1);
  }

  /** Below twice `count` values the block size is 1 and the reduction hands the input back unchanged. */
  lemma ReducedIdentity(s: seq<real>, count: nat)
    requires count > 0 && |s| < 2 * count
    ensures Reduced(s, count) == s
  {
    if |s| > 0 {
      DivBounds(|s|, count);
      if |s| / count >= 2 {
        MulMonotone(2, |s| / count, count);
      }
      assert BlockSize(|s|, count) == 1;
      BlockMaxesSingletons(s);
    }
  }

  lemma {:induction false} BlockMaxesSingletons(s: seq<real>)
    ensures BlockMaxes(s, 1) == s
    decreases |s|
  {
    if |s| > 0 {
      BlockMaxesSingletons(s[1..]);
      assert s[..1] == [s[0]];
      assert [s[0]] + s[1..] == s;
    }
  }

  /** An input of 799 values (any reduction to 400) comes back with all 799 values. */
  lemma ReducedCanExceedCount(s: seq<real>)
    requires |s| == 2 * EnvelopeSize - 1
    ensures |Reduced(s, EnvelopeSize)| == 2 * EnvelopeSize - 1
  {
    ReducedIdentity(s, EnvelopeSize);
  }

  /** `_reduce_samples`: empty stays empty; otherwise block maxima at block size `max(1, n // count)`. */
  method ReduceSamples(samples: seq<real>, count: nat) returns (reduced: seq<real>)
    requires count > 0
    ensures reduced == Reduced(samples, count)
  {
    if |samples| == 0 {
      return [];
    }
    var block := |samples| / count;
    if block < 1 {
      block := 1;
    }
    reduced := CollectBlockMaxes(samples, block);
  }

  /** The loop of `_reduce_samples`: walks the input in steps of `block` and appends each chunk's maximum. */
  method CollectBlockMaxes(samples: seq<real>, block: nat) returns (reduced: seq<real>)
    requires block >= 1
    ensures reduced == BlockMaxes(samples, block)
  {
    reduced := [];
    var i := 0;
    while i < |samples|
      invariant 0 <= i
      invariant reduced + MaxesFrom(samples, block, i) == MaxesFrom(samples, block, 0)
      decreases |samples| - i
    {
      var chunk := samples[i..Min(i + block, |samples|)];
      ghost var before := reduced;
      if |chunk| > 0 {
        reduced := reduced + [Max(chunk)];
      }
      ReduceStep(samples, block, i, before, reduced);
      i := i + block;
    }
    MaxesFromBlockMaxes(samples, block, 0);
    assert samples[0..] == samples;
  }

  // ---- the whole analysis ----

  /**
   * `_perform_wav_analysis` as a function: `None` is a file the WAV reader
   * cannot open; every failure gives an empty envelope and duration 0.
   */
  function Analyze(file: Option<WavFile>): (a: Analysis)
    ensures a.duration >= 0.0
    ensures file.None? || Decode(file.value).None? ==> a == Analysis([], 0.0)
  {
    match file
    case None => Analysis([], 0.0)
    case Some(f) =>
      match Decode(f)
      case None => Analysis([], 0.0)
      case Some(samples) => Analysis(Reduced(samples, EnvelopeSize), f.frames as real / f.frameRate as real)
  }

  /** A successful analysis reports `frames / rate` seconds. */
  lemma AnalyzeDuration(f: WavFile)
    requires Decode(f).Some?
    ensures Analyze(Some(f)).duration * f.frameRate as real == f.frames as real
  {
    var r := f.frameRate as real;
    assert Analyze(Some(f)).duration == f.frames as real / r;
  }

  /**
   * A successful analysis yields an envelope of at most `2 * 400 - 1`
   * values whose maximum is the loudest kept sample.
   */
  lemma AnalyzeSpec(f: WavFile)
    requires Decode(f).Some?
    ensures var a := Analyze(Some(f)); var d := Decode(f).value;
      && a.envelope == Reduced(d, EnvelopeSize)
      && |a.envelope| <= 2 * EnvelopeSize - 1
      && (|d| > 0 ==> |a.envelope| > 0 && Max(a.envelope) == Max(d))
  {
    var d := Decode(f).value;
    var r := Reduced(d, EnvelopeSize);
    assert Analyze(Some(f)).envelope == r;
    if |d| > 0 {
      assert |r| <= 2 * EnvelopeSize - 1 && |r| > 0 && Max(r) == Max(d) by {
        ReducedSpec(d, EnvelopeSize);
      }
    }
  }

  /** With every sample in the range of its width, every envelope value lies in [0, 1]. */
  lemma AnalyzeBounded(f: WavFile)
    requires Decode(f).Some?
    requires forall i :: 0 <= i < |f.data| ==> SampleInRange(f.sampleWidth, f.data[i])
    ensures forall v :: v in Analyze(Some(f)).envelope ==> 0.0 <= v <= 1.0
  {
    var d := Decode(f).value;
    DecodeSpec(f);
    var k := SliceStep(f.channels, f.frames);
    forall j | 0 <= j < |d| ensures 0.0 <= d[j] <= 1.0 {
      assert SampleInRange(f.sampleWidth, f.data[j * k]);
    }
    if |d| > 0 {
      ReducedSpec(d, EnvelopeSize);
    }
  }

  /** `_perform_wav_analysis`, with the file reading replaced by its outcome. */
  method PerformWavAnalysis(file: Option<WavFile>) returns (reduced: seq<real>, duration: real)
    ensures Analysis(reduced, duration) == Analyze(file)
  {
    if file.None? {
      return [], 0.0;
    }
    var f := file.value;
    if f.frameRate == 0 {
      return [], 0.0;
    }
    duration := f.frames as real / f.frameRate as real;
    var step := Stride(f.frames);
    if !SupportedWidth(f.sampleWidth) {
      return [], 0.0;
    }
    if |f.data| != f.frames * f.channels {
      return [], 0.0;
    }
    var simple := if f.channels > 1 then EveryKth(f.data, f.channels * step) else EveryKth(f.data, step);
    var samples := Amplitudes(f.sampleWidth, simple);
    reduced := ReduceSamples(samples, EnvelopeSize);
  }

  // ---- normalisation when the result arrives ----

  /**
   * The drawing scale: the largest envelope value when it exceeds 0.001,
   * otherwise 1.0.
   */
  function ScaleFor(reduced: seq<real>): (scale: real)
    ensures scale > 0.0
    ensures (exists i :: 0 <= i < |reduced| && reduced[i] > ScaleEpsilon) ==>
      scale in reduced && forall i :: 0 <= i < |reduced| ==> reduced[i] <= scale
    ensures (forall i :: 0 <= i < |reduced| ==> reduced[i] <= ScaleEpsilon) ==> scale == 1.0
  {
    if |reduced| == 0 then 1.0
    else
      MaxSpec(reduced);
      if Max(reduced) > ScaleEpsilon then Max(reduced) else 1.0
  }

  /** Divided by the scale, no envelope value exceeds 1. */
  lemma ScaleNormalizes(reduced: seq<real>)
    ensures forall i :: 0 <= i < |reduced| ==> reduced[i] / ScaleFor(reduced) <= 1.0
  {
    var scale := ScaleFor(reduced);
    forall i | 0 <= i < |reduced| ensures reduced[i] / scale <= 1.0 {
      MaxSpec(reduced);
      if Max(reduced) > ScaleEpsilon {
        assert reduced[i] <= scale;
      } else {
        assert reduced[i] <= ScaleEpsilon;
      }
      DivAtMostOne(reduced[i], scale);
    }
  }

  lemma DivAtMostOne(x: real, y: real)
    requires y > 0.0 && x <= y
    ensures x / y <= 1.0
  {
  }
}
