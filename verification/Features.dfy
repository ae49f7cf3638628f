/**
 The audio front end: overlapping windows cut out of the captured stream, and the
 spectrogram of the last 49 of them.
 */
module Features {
  import opened Prelude
  import opened Buffers

  const STRIDE_MS := 20
  const MAX_AUDIO_SAMPLES := 512
  const HISTORY := 160
  const NEW_SAMPLES := 320
  const SLICE := 40
  const SLICES := 49

  type int16 = x: int | -0x8000 <= x < 0x8000
  type Slice = s: seq<int8> | |s| == 40 witness seq(40, _ => 0)

  // ---------- the overlap ----------

  function Zeros(n: nat): (z: seq<int16>)
    ensures |z| == n && forall i :: 0 <= i < n ==> z[i] == 0
  {
    seq(n, _ => 0)
  }

  // The global buffers behind GetAudioSamples.  `stream` is everything the ring
  // buffer will hand out, `taken` how much of it it has.
  class AudioProvider {
    const output: array<int16>
    const history: array<int16>
    const stream: seq<int16>
    var taken: nat

    ghost predicate Valid()
      reads this
    {
      output.Length == MAX_AUDIO_SAMPLES && history.Length == HISTORY && output != history && taken <= |stream|
    }

    constructor (stream: seq<int16>)
      ensures Valid() && fresh(output) && fresh(history) && this.stream == stream && taken == 0
      ensures output[..] == Zeros(MAX_AUDIO_SAMPLES) && history[..] == Zeros(HISTORY)
    {
      output := new int16[MAX_AUDIO_SAMPLES](_ => 0);
      history := new int16[HISTORY](_ => 0);
      this.stream := stream;
      taken := 0;
    }

    // What a read of 320 samples gets, which may be less.
    function Incoming(): (s: seq<int16>)
      requires taken <= |stream|
      reads this
      ensures |s| <= NEW_SAMPLES
    {
      stream[taken..if taken + NEW_SAMPLES <= |stream| then taken + NEW_SAMPLES else |stream|]
    }

    method GetAudioSamples()
      requires Valid()
      modifies this, output, history
      ensures Valid() && taken == old(taken) + |old(Incoming())|
      ensures output[..] == old(history[..]) + old(Incoming()) + old(output[HISTORY + |Incoming()|..])
      ensures history[..] == output[NEW_SAMPLES..NEW_SAMPLES + HISTORY]
    {
      forall i | 0 <= i < HISTORY {
        output[i] := history[i];
      }
      var got := Incoming();
      forall i | 0 <= i < |got| {
        output[HISTORY + i] := got[i];
      }
      taken := taken + |got|;
      forall i | 0 <= i < HISTORY {
        history[i] := output[NEW_SAMPLES + i];
      }
    }
  }

  // ---------- the plain sliding window ----------

  function Sample(stream: seq<int16>, i: int): int16 {
    if 0 <= i < |stream| then stream[i] else 0
  }

  // Samples [from, from + n), zero before the start.
  function Window(stream: seq<int16>, from: int, n: nat): (w: seq<int16>)
    ensures |w| == n
    ensures forall j :: 0 <= j < n ==> w[j] == Sample(stream, from + j)
  {
    if n == 0 then [] else Window(stream, from, n - 1) + [Sample(stream, from + n - 1)]
  }

  // What the generator is given for slice k: stride 320, overlap 160, and the rest
  // of the buffer zero.
  function SliceAudio(stream: seq<int16>, k: nat): seq<int16> {
    Window(stream, 320 * k - 160, 480) + Zeros(32)
  }

  // With k full reads behind it, one more read leaves slice k in the output buffer.
  lemma NextSliceAudio(stream: seq<int16>, k: nat, history: seq<int16>, output: seq<int16>)
    requires 320 * k + 320 <= |stream|
    requires history == Window(stream, 320 * k - 160, 160)
    requires |output| == MAX_AUDIO_SAMPLES && output[480..] == Zeros(32)
    ensures var out := history + stream[320 * k..320 * k + 320] + output[480..];
            out == SliceAudio(stream, k) && out[320..480] == Window(stream, 320 * (k + 1) - 160, 160)
  {
    var w := Window(stream, 320 * k - 160, 480);
    assert history + stream[320 * k..320 * k + 320] == w;
    assert w[320..480] == Window(stream, 320 * (k + 1) - 160, 160);
  }

  // ---------- the spectrogram ----------

  // The generator is not modelled: `slice` is what it made of the samples, one call
  // after the other.
  datatype Generated = Made(slice: Slice) | Failed

  datatype Call = Call(samples: seq<int16>, slice: Slice)

  function Flat(calls: seq<Call>): (f: seq<int8>)
    ensures |f| == SLICE * |calls|
  {
    if calls == [] then [] else Flat(calls[..|calls| - 1]) + calls[|calls| - 1].slice
  }

  // Slice src once more in place of slice dest.
  function SliceCopied(s: seq<int8>, dest: nat, src: nat): (r: seq<int8>)
    requires |s| == 40 * SLICES && dest < SLICES && src < SLICES
    ensures |r| == |s|
  {
    s[..40 * dest] + s[40 * src..40 * src + 40] + s[40 * dest + 40..]
  }

  lemma InThree(s: seq<int8>, to: nat)
    requires to + 40 <= |s|
    ensures s == s[..to] + s[to..to + 40] + s[to + 40..]
  {
  }

  // d slices moved up by `drop` places.
  function Shifted(was: seq<int8>, drop: nat, d: nat): (r: seq<int8>)
    requires |was| == 40 * SLICES && d + drop <= SLICES
    ensures |r| == |was|
  {
    was[40 * drop..40 * drop + 40 * d] + was[40 * d..]
  }

  lemma NotShifted(was: seq<int8>, drop: nat)
    requires |was| == 40 * SLICES && drop <= SLICES
    ensures Shifted(was, drop, 0) == was
  {
  }

  lemma ShiftNext(was: seq<int8>, drop: nat, d: nat)
    requires |was| == 40 * SLICES && d + drop < SLICES
    ensures SliceCopied(Shifted(was, drop, d), d, d + drop) == Shifted(was, drop, d + 1)
  {
    var s := Shifted(was, drop, d);
    assert s[..40 * d] == was[40 * drop..40 * drop + 40 * d];
    assert s[40 * (d + drop)..40 * (d + drop) + 40] == was[40 * (d + drop)..40 * (d + drop) + 40];
    assert s[40 * d + 40..] == was[40 * d + 40..];
  }

  predicate AllMade(results: seq<Generated>, n: nat)
    requires n <= |results|
  {
    forall k :: 0 <= k < n ==> results[k].Made?
  }

  lemma StillMade(results: seq<Generated>, n: nat)
    requires n <= |results| && AllMade(results, |results|)
    ensures AllMade(results, n)
  {
  }

  // The spectrogram shifted up by n slices, with some of them filled in.
  function Placed(was: seq<int8>, n: nat, made: seq<Call>): (r: seq<int8>)
    requires |was| == 40 * SLICES && |made| <= n <= SLICES
    ensures |r| == |was|
  {
    was[40 * n..] + Flat(made) + was[40 * (SLICES - n + |made|)..]
  }

  lemma PlacedNone(was: seq<int8>, n: nat)
    requires |was| == 40 * SLICES && n <= SLICES
    ensures Placed(was, n, []) == Shifted(was, n, SLICES - n)
  {
    assert 40 * n + 40 * (SLICES - n) == |was|;
  }

  lemma PlacedAll(was: seq<int8>, n: nat, made: seq<Call>)
    requires |was| == 40 * SLICES && |made| == n <= SLICES
    ensures Placed(was, n, made) == was[40 * n..] + Flat(made)
  {
  }

  lemma PlacedNext(was: seq<int8>, n: nat, made: seq<Call>, call: Call)
    requires |was| == 40 * SLICES && |made| < n <= SLICES
    ensures var p, at := Placed(was, n, made), 40 * (SLICES - n + |made|);
            p[..at] + call.slice + p[at + 40..] == Placed(was, n, made + [call])
  {
    var p, at := Placed(was, n, made), 40 * (SLICES - n + |made|);
    assert (made + [call])[..|made|] == made;
    assert p[..at] == was[40 * n..] + Flat(made);
    assert p[at + 40..] == was[at + 40..];
  }

  ghost predicate LatestSlices(calls: seq<Call>, data: seq<int8>) {
    |calls| >= SLICES && data == Flat(calls[|calls| - SLICES..])
  }

  lemma FlatNone()
    ensures Flat([]) == []
  {
  }

  lemma FlatPush(a: seq<Call>, call: Call)
    ensures Flat(a + [call]) == Flat(a) + call.slice
  {
    assert (a + [call])[..|a|] == a;
  }

  lemma {:induction false} FlatJoin(a: seq<Call>, b: seq<Call>)
    ensures Flat(a + b) == Flat(a) + Flat(b)
    decreases |b|
  {
    hide Flat;
    if b == [] {
      assert a + b == a;
      FlatNone();
    } else {
      var n := |b| - 1;
      FlatJoin(a, b[..n]);
      FlatPush(a + b[..n], b[n]);
      FlatPush(b[..n], b[n]);
      assert a + b == (a + b[..n]) + [b[n]] && b == b[..n] + [b[n]];
    }
  }

  // Shifting up by as many slices as are added keeps the latest.
  lemma HoldsLatest(before: seq<Call>, after: seq<Call>, was: seq<int8>, n: nat, first: bool)
    requires |was| == 40 * SLICES && n <= SLICES && |after| == |before| + n && after[..|before|] == before
    requires if first then n == SLICES else LatestSlices(before, was)
    ensures LatestSlices(after, was[40 * n..] + Flat(after[|before|..]))
  {
    var made := after[|before|..];
    if first {
      assert after[|after| - SLICES..] == made && was[40 * n..] == [];
    } else {
      var old49 := before[|before| - SLICES..];
      FlatJoin(old49[..n], old49[n..]);
      FlatJoin(old49[n..], made);
      hide Flat;
      assert old49[..n] + old49[n..] == old49;
      assert was[40 * n..] == Flat(old49[n..]);
      assert after[|after| - SLICES..] == old49[n..] + made;
    }
  }

  ghost predicate InStep(stream: seq<int16>, taken: nat, history: seq<int16>, output: seq<int16>, calls: seq<Call>) {
    && taken == 320 * |calls|
    && history == Window(stream, taken - 160, 160)
    && |output| == MAX_AUDIO_SAMPLES && output[480..] == Zeros(32)
    && forall k :: 0 <= k < |calls| ==> calls[k].samples == SliceAudio(stream, k)
  }

  lemma TakenInStep(stream: seq<int16>, taken: nat, history: seq<int16>, output: seq<int16>, calls: seq<Call>)
    requires InStep(stream, taken, history, output, calls)
    ensures taken == 320 * |calls|
  {
  }

  lemma ListensOn(stream: seq<int16>, taken: nat, history: seq<int16>, output: seq<int16>, calls: seq<Call>,
                  slice: Slice)
    requires InStep(stream, taken, history, output, calls) && taken + 320 <= |stream|
    ensures var out := history + stream[taken..taken + 320] + output[480..];
            |out| == MAX_AUDIO_SAMPLES && InStep(stream, taken + 320, out[320..480], out, calls + [Call(out, slice)])
  {
    NextSliceAudio(stream, |calls|, history, output);
    var out := history + stream[taken..taken + 320] + output[480..];
    assert out[480..] == output[480..];
  }

  // The steps of 20 ms between one round and the next.
  function Gap(times: seq<nat>, i: nat): nat
    requires 0 < i < |times| && times[i - 1] <= times[i]
  {
    times[i] / 20 - times[i - 1] / 20
  }

  // The steps of 20 ms passed since the first of the times, at most 49 a round.
  function Passed(times: seq<nat>): nat
    requires forall i, j :: 0 <= i < j < |times| ==> times[i] <= times[j]
  {
    var n := |times|;
    if n < 2 then 0
    else Passed(times[..n - 1]) + Min(49, Gap(times, n - 1))
  }

  lemma PassedNext(times: seq<nat>, i: nat)
    requires i < |times| && forall i, j :: 0 <= i < j < |times| ==> times[i] <= times[j]
    ensures Passed(times[..i + 1])
         == if i == 0 then 0 else Passed(times[..i]) + Min(49, Gap(times, i))
  {
    assert times[..i + 1][..i] == times[..i];
  }

  lemma GapIs(times: seq<nat>, i: nat)
    requires 0 < i < |times| && times[i - 1] <= times[i]
    ensures Gap(times, i) == times[i] / 20 - times[i - 1] / 20
  {
  }

  // No round comes 50 steps or more behind the one before.
  predicate Brisk(times: seq<nat>)
    requires forall i, j :: 0 <= i < j < |times| ==> times[i] <= times[j]
  {
    forall i :: 0 < i < |times| ==> Gap(times, i) < 50
  }

  lemma BriskNext(times: seq<nat>)
    requires |times| > 1 && forall i, j :: 0 <= i < j < |times| ==> times[i] <= times[j]
    ensures Brisk(times) <==> Brisk(times[..|times| - 1]) && Gap(times, |times| - 1) < 50
  {
    var n := |times|;
    var before := times[..n - 1];
    assert forall i :: 0 < i < n - 1 ==> Gap(before, i) == Gap(times, i);
    hide Gap;
    if Brisk(times) {
      forall i | 0 < i < n - 1
        ensures Gap(before, i) < 50
      {
        assert Gap(times, i) < 50;
      }
    }
    if Brisk(before) && Gap(times, n - 1) < 50 {
      forall i | 0 < i < n
        ensures Gap(times, i) < 50
      {
        assert i < n - 1 ==> Gap(before, i) < 50;
      }
    }
  }

  lemma OneIsBrisk(times: seq<nat>)
    requires |times| == 1
    ensures Brisk(times)
  {
  }

  // The newest slice stands for the current step if and only if the rounds are brisk;
  // otherwise for an earlier one.
  lemma {:induction false} NewestIsCurrent(times: seq<nat>)
    requires times != [] && forall i, j :: 0 <= i < j < |times| ==> times[i] <= times[j]
    ensures var steps := times[|times| - 1] / 20 - times[0] / 20;
            Passed(times) <= steps && (Passed(times) == steps <==> Brisk(times))
    decreases |times|
  {
    hide Passed, Gap, Brisk;
    var n := |times|;
    PassedNext(times, n - 1);
    assert times[..n] == times;
    if n == 1 {
      OneIsBrisk(times);
    } else {
      var before := times[..n - 1];
      assert before[n - 2] == times[n - 2] && before[0] == times[0];
      NewestIsCurrent(before);
      BriskNext(times);
      GapIs(times, n - 1);
    }
  }

  class FeatureProvider {
    const data: array<int8>
    const audio: AudioProvider
    var isFirstRun: bool
    // The generator's calls so far.
    ghost var calls: seq<Call>

    ghost predicate Valid()
      reads this, audio
    {
      data.Length == SLICE * SLICES && audio.Valid()
    }

    constructor (audio: AudioProvider)
      requires audio.Valid() && audio.taken == 0
      requires audio.output[..] == Zeros(MAX_AUDIO_SAMPLES) && audio.history[..] == Zeros(HISTORY)
      ensures Valid() && fresh(data) && this.audio == audio && isFirstRun && Listening() && Holding()
    {
      data := new int8[SLICE * SLICES](_ => 0);
      this.audio := audio;
      isFirstRun, calls := true, [];
      new;
      assert Window(audio.stream, -160, 160) == Zeros(160);
    }

    // The inner loop: one slice moves to an earlier place.
    method CopySlice(dest: nat, src: nat)
      requires Valid() && dest <= src < SLICES
      modifies data
      ensures data[..] == SliceCopied(old(data[..]), dest, src)
    {
      ghost var was := data[..];
      var to, from := 40 * dest, 40 * src;
      forall i | 0 <= i < 40 {
        data[to + i] := data[from + i];
      }
      ghost var now := data[..];
      assert now[..to] == was[..to];
      assert now[to..to + 40] == was[from..from + 40];
      assert now[to + 40..] == was[to + 40..];
      InThree(now, to);
    }

    method ShiftUp(keep: nat)
      requires Valid() && keep <= SLICES
      modifies data
      ensures data[..] == Shifted(old(data[..]), SLICES - keep, keep)
    {
      hide Shifted, SliceCopied;
      var drop := SLICES - keep;
      var d := 0;
      ghost var was := data[..];
      NotShifted(was, drop);
      while d < keep
        invariant d <= keep && data[..] == Shifted(was, drop, d)
      {
        CopySlice(d, d + drop);
        ShiftNext(was, drop, d);
        d := d + 1;
      }
    }

    method StoreSlice(at: nat, slice: Slice)
      requires Valid() && at < SLICES
      modifies data
      ensures data[..] == old(data[..40 * at]) + slice + old(data[40 * at + 40..])
    {
      forall i | 0 <= i < SLICE {
        data[40 * at + i] := slice[i];
      }
    }

    // One round of the last loop: the next window of audio, and its slice stored
    // when the generator makes one.
    method AddSlice(at: nat, result: Generated)
      requires Valid() && at < SLICES
      modifies data, `calls, audio, audio.output, audio.history
      ensures Valid()
      ensures result.Failed? ==> data[..] == old(data[..]) && calls == old(calls)
      ensures result.Made? ==>
                && data[..] == old(data[..40 * at]) + result.slice + old(data[40 * at + 40..])
                && calls == old(calls) + [Call(audio.output[..], result.slice)]
      ensures old(Listening()) && old(audio.taken) + NEW_SAMPLES <= |audio.stream| && result.Made? ==>
                Listening() && audio.taken == old(audio.taken) + NEW_SAMPLES
    {
      ghost var history, output := audio.history[..], audio.output[..];
      audio.GetAudioSamples();
      if result.Made? {
        if old(Listening()) && old(audio.taken) + NEW_SAMPLES <= |audio.stream| {
          ListensOn(audio.stream, old(audio.taken), history, output, calls, result.slice);
        }
        StoreSlice(at, result.slice);
        calls := calls + [Call(audio.output[..], result.slice)];
      }
    }

    // The last loop.
    method FillSlices(n: nat, results: seq<Generated>, ghost was: seq<int8>) returns (ok: bool)
      requires Valid() && n <= SLICES == |results| && |was| == 40 * SLICES
      requires data[..] == Placed(was, n, [])
      modifies data, `calls, audio, audio.output, audio.history
      ensures Valid() && (ok <==> AllMade(results, n))
      ensures ok ==>
                && |calls| == |old(calls)| + n && calls[..|old(calls)|] == old(calls)
                && data[..] == Placed(was, n, calls[|old(calls)|..])
      ensures ok && old(Listening()) && old(audio.taken) + 320 * n <= |audio.stream| ==>
                Listening() && audio.taken == old(audio.taken) + 320 * n
    {
      ghost var c0, made: seq<Call> := calls, [];
      var k := 0;
      while k < n
        invariant k <= n && Valid() && |made| == k && calls == c0 + made
        invariant data[..] == Placed(was, n, made) && AllMade(results, k)
        invariant old(Listening()) && old(audio.taken) + 320 * n <= |audio.stream| ==>
                    Listening() && audio.taken == old(audio.taken) + 320 * k
      {
        hide Placed, InStep;
        var result := results[k];
        AddSlice(SLICES - n + k, result);
        if result.Failed? {
          return false;
        }
        ghost var call := calls[|c0| + k];
        PlacedNext(was, n, made, call);
        made := made + [call];
        k := k + 1;
      }
      ok := true;
    }

    // PopulateFeatureData; `initOk` is the result of the generator's own set-up.
    method PopulateFeatureData(last: nat, now: nat, initOk: bool, results: seq<Generated>)
      returns (ok: bool, newSlices: nat)
      requires Valid() && last <= now && |results| == SLICES
      modifies data, this, audio, audio.output, audio.history
      ensures Valid()
      ensures var n := if old(isFirstRun) then 49 else Min(49, now / 20 - last / 20);
              (ok <==> (old(isFirstRun) ==> initOk) && AllMade(results, n)) && (ok ==> newSlices == n)
      ensures isFirstRun <==> old(isFirstRun) && !initOk
      ensures ok ==>
                && |calls| == |old(calls)| + newSlices && calls[..|old(calls)|] == old(calls)
                && data[..] == old(data[40 * newSlices..]) + Flat(calls[|old(calls)|..])
      ensures ok && old(Listening()) && old(audio.taken) + 320 * newSlices <= |audio.stream| ==>
                Listening() && audio.taken == old(audio.taken) + 320 * newSlices
      ensures ok && old(Holding()) ==> Holding()
    {
      hide InStep, LatestSlices;
      newSlices := 0;
      var n := now / STRIDE_MS - last / STRIDE_MS;
      if isFirstRun {
        if !initOk {
          return false, 0;
        }
        isFirstRun := false;
        n := SLICES;
      }
      if n > SLICES {
        n := SLICES;
      }
      newSlices := n;
      ghost var was := data[..];
      ShiftUp(SLICES - n);
      PlacedNone(was, n);
      ok := FillSlices(n, results, was);
      if ok {
        PlacedAll(was, n, calls[|old(calls)|..]);
        if old(Holding()) {
          HoldsLatest(old(calls), calls, was, n, old(isFirstRun));
        }
      }
    }

    // The firmware's main loop, once for each of the times: as long as times do not
    // decrease, the ring delivers and the generator does not fail, the spectrogram is
    // always the last 49 slices, and every slice ever made comes from its window.  There
    // are 49 for the first round and one for each step passed since, up to 49 a round.
    method Loops(times: seq<nat>, results: seq<seq<Generated>>)
      requires Valid() && Holding() && Listening() && |results| == |times|
      requires forall i :: 0 <= i < |results| ==> |results[i]| == SLICES && AllMade(results[i], SLICES)
      requires forall i, j :: 0 <= i < j < |times| ==> times[i] <= times[j]
      requires audio.taken + 15680 * |times| <= |audio.stream|
      modifies data, this, audio, audio.output, audio.history
      ensures Valid() && Holding() && Listening() && (times != [] ==> !isFirstRun)
      ensures old(isFirstRun) && times != [] ==> |calls| == 49 + Passed(times) && audio.taken == 320 * |calls|
    {
      hide InStep, LatestSlices, AllMade, Flat, Passed, Gap;
      var previous, i := 0, 0;
      while i < |times|
        invariant i <= |times| && Valid() && Holding() && Listening() && (i > 0 ==> !isFirstRun)
        invariant previous == if i == 0 then 0 else times[i - 1]
        invariant audio.taken + 15680 * (|times| - i) <= |audio.stream|
        invariant i > 0 && old(isFirstRun) ==> |calls| == 49 + Passed(times[..i])
        invariant i == 0 ==> isFirstRun == old(isFirstRun) && calls == old(calls)
      {
        StillMade(results[i], if isFirstRun then 49 else Min(49, times[i] / 20 - previous / 20));
        PassedNext(times, i);
        if i > 0 {
          GapIs(times, i);
        }
        var ok, newSlices := PopulateFeatureData(previous, times[i], true, results[i]);
        if ok {
          previous := times[i];
        }
        i := i + 1;
      }
      assert times[..i] == times;
      TakenInStep(audio.stream, audio.taken, audio.history[..], audio.output[..], calls);
    }

    // After the first run the spectrogram is the last 49 slices made, oldest first.
    ghost predicate Holding()
      requires Valid()
      reads this, data, audio
    {
      if isFirstRun then calls == [] else LatestSlices(calls, data[..])
    }

    // The audio behind every call so far is the sliding window's, and so will be
    // that behind the next.
    ghost predicate Listening()
      requires Valid()
      reads this, audio, audio.history, audio.output
    {
      InStep(audio.stream, audio.taken, audio.history[..], audio.output[..], calls)
    }
  }
}
