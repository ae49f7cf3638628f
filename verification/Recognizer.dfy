/**
 The command recognizer: a circular queue of the latest inference results, averages
 over a time window, and triggers that are suppressed for a while.
 */
module Recognizer {
  import opened Prelude

  const MAX_RESULTS := 50
  const CATEGORIES := 4
  const INT32_MAX := 0x7FFF_FFFF
  const INT32_MIN := -0x8000_0000

  type int32 = x: int | -0x8000_0000 <= x < 0x8000_0000

  type Scores = s: seq<int8> | |s| == 4 witness [0, 0, 0, 0]

  datatype Result = Result(time: int32, scores: Scores)

  // ---------- the queue ----------

  // What lies in a circular array from `front` on.
  function View(a: seq<Result>, front: nat, size: nat): (r: seq<Result>)
    requires front < |a| && size <= |a|
    ensures |r| == size
  {
    if front + size <= |a| then a[front..front + size] else a[front..] + a[..front + size - |a|]
  }

  function Wrap(i: nat, n: nat): nat {
    if i >= n then i - n else i
  }

  lemma ViewAt(a: seq<Result>, front: nat, size: nat, k: nat)
    requires front < |a| && k < size <= |a|
    ensures View(a, front, size)[k] == a[Wrap(front + k, |a|)]
  {
  }

  lemma ViewPush(a: seq<Result>, front: nat, size: nat, e: Result)
    requires front < |a| && size < |a|
    ensures View(a[Wrap(front + size, |a|) := e], front, size + 1) == View(a, front, size) + [e]
  {
  }

  lemma ViewPop(a: seq<Result>, front: nat, size: nat)
    requires front < |a| && 0 < size <= |a|
    ensures View(a, Wrap(front + 1, |a|), size - 1) == View(a, front, size)[1..]
  {
  }

  class PreviousResultsQueue {
    const results: array<Result>
    var frontIndex: nat
    var size: nat

    ghost predicate Valid()
      reads this
    {
      results.Length == MAX_RESULTS && frontIndex < MAX_RESULTS && size <= MAX_RESULTS
    }

    ghost function Contents(): (r: seq<Result>)
      requires Valid()
      reads this, results
      ensures |r| == size
    {
      View(results[..], frontIndex, size)
    }

    constructor ()
      ensures Valid() && fresh(results) && Contents() == []
    {
      results := new Result[MAX_RESULTS](_ => Result(0, [0, 0, 0, 0]));
      frontIndex, size := 0, 0;
    }

    method PushBack(entry: Result)
      requires Valid()
      modifies `size, results
      ensures Valid()
      ensures Contents() == if |old(Contents())| >= 50 then old(Contents()) else old(Contents()) + [entry]
    {
      if size >= MAX_RESULTS {
        return;
      }
      ViewPush(results[..], frontIndex, size, entry);
      size := size + 1;
      var backIndex := frontIndex + (size - 1);
      if backIndex >= MAX_RESULTS {
        backIndex := backIndex - MAX_RESULTS;
      }
      results[backIndex] := entry;
    }

    // pop_front; the callers look at the front first.
    method PopFront()
      requires Valid()
      modifies this
      ensures Valid()
      ensures Contents() == if old(Contents()) == [] then [] else old(Contents())[1..]
    {
      if size <= 0 {
        return;
      }
      ViewPop(results[..], frontIndex, size);
      frontIndex := frontIndex + 1;
      if frontIndex >= MAX_RESULTS {
        frontIndex := 0;
      }
      size := size - 1;
    }

    // from_front; an offset outside the queue is taken for the last one.
    method FromFront(offset: int) returns (r: Result)
      requires Valid() && size > 0
      ensures r == Contents()[if 0 <= offset < size then offset else size - 1]
    {
      var o := if offset < 0 || offset >= size then size - 1 else offset;
      ViewAt(results[..], frontIndex, size, o);
      var index := frontIndex + o;
      if index >= MAX_RESULTS {
        index := index - MAX_RESULTS;
      }
      r := results[index];
    }
  }

  // ---------- what one call computes ----------

  datatype Config = Config(window: nat, threshold: nat, suppression: int, minimum: nat)

  // Labels are category numbers; before the first trigger the label is the word
  // "silence", which may or may not be the same pointer as category 0.
  datatype State = State(results: seq<Result>, top: int, time: int32)

  datatype Output = Output(found: int, score: nat, isNew: bool)

  // The time check of a call failed, or it reports.
  datatype Status = Rejected | Done(output: Output)

  function Prune(rs: seq<Result>, limit: int): (r: seq<Result>)
    ensures |r| <= |rs|
  {
    if rs != [] && rs[0].time < limit then Prune(rs[1..], limit) else rs
  }

  function Total(rs: seq<Result>, i: nat): nat
    requires i < CATEGORIES
  {
    if rs == [] then 0 else Total(rs[..|rs| - 1], i) + (rs[|rs| - 1].scores[i] as int + 128)
  }

  function Totals(rs: seq<Result>): (r: seq<nat>)
    ensures |r| == CATEGORIES
  {
    [Total(rs, 0), Total(rs, 1), Total(rs, 2), Total(rs, 3)]
  }

  function Divided(sums: seq<nat>, n: nat): (r: seq<nat>)
    requires |sums| == CATEGORIES && n > 0
    ensures |r| == CATEGORIES
  {
    [sums[0] / n, sums[1] / n, sums[2] / n, sums[3] / n]
  }

  function Averages(rs: seq<Result>): (r: seq<nat>)
    requires rs != []
    ensures |r| == CATEGORIES
  {
    Divided(Totals(rs), |rs|)
  }

  // The first of the highest among the first n; the first of all when they are zero.
  function Top(averages: seq<nat>, n: nat): (i: nat)
    requires n <= |averages| && averages != []
    ensures i < |averages| && (n > 0 ==> i < n)
    ensures forall j :: 0 <= j < n ==> averages[j] <= averages[i]
    ensures forall j :: 0 <= j < n && averages[j] == averages[i] ==> i <= j
  {
    if n <= 1 then 0
    else
      var i := Top(averages, n - 1);
      if averages[n - 1] > averages[i] then n - 1 else i
  }

  function Pushed(rs: seq<Result>, e: Result): seq<Result> {
    if |rs| >= MAX_RESULTS then rs else rs + [e]
  }

  function SinceTop(s: State, now: int32): int {
    if s.top == 0 || s.time == INT32_MIN then INT32_MAX else now - s.time
  }

  predicate Triggers(c: Config, s: State, now: int32, found: int, score: nat) {
    score > c.threshold && (found != s.top || SinceTop(s, now) > c.suppression)
  }

  function Decide(c: Config, s: State, now: int32): (State, Status)
    requires c.minimum > 0
  {
    var rs := s.results;
    if |rs| < c.minimum || now - rs[0].time < c.window / 4 then (s, Done(Output(s.top, 0, false)))
    else
      var found := Top(Averages(rs), CATEGORIES);
      var score := Averages(rs)[found];
      if Triggers(c, s, now, found, score) then (State(rs, found, now), Done(Output(found, score, true)))
      else (s, Done(Output(found, score, false)))
  }

  // ProcessLatestResults on a tensor of the right shape.
  function Process(c: Config, s: State, now: int32, scores: Scores): (State, Status)
    requires c.minimum > 0
  {
    if s.results != [] && now < s.results[0].time then (s, Rejected)
    else Decide(c, s.(results := Prune(Pushed(s.results, Result(now, scores)), now - c.window)), now)
  }

  // ---------- the recognizer ----------

  datatype Tensor = Tensor(dims: seq<int>, isInt8: bool, data: seq<int8>)

  lemma TotalsNext(rs: seq<Result>, k: nat)
    requires k < |rs|
    ensures var t, r := Totals(rs[..k]), rs[k].scores;
            |t| == CATEGORIES && Totals(rs[..k + 1]) == [t[0] + (r[0] as int + 128), t[1] + (r[1] as int + 128),
                                                         t[2] + (r[2] as int + 128), t[3] + (r[3] as int + 128)]
  {
    assert rs[..k + 1][..k] == rs[..k];
  }

  lemma NoTotals()
    ensures Totals([]) == [0, 0, 0, 0]
  {
  }

  class RecognizeCommands {
    const config: Config
    const queue: PreviousResultsQueue
    var previousTop: int
    var previousTime: int32

    ghost predicate Valid()
      reads this, queue
    {
      queue.Valid() && config.minimum > 0
    }

    ghost function Current(): State
      requires Valid()
      reads this, queue, queue.results
    {
      State(queue.Contents(), previousTop, previousTime)
    }

    // `sameWord` says whether the two words "silence" are one.
    constructor (config: Config, sameWord: bool)
      requires config.minimum > 0
      ensures Valid() && fresh(queue) && fresh(queue.results) && this.config == config
      ensures Current() == State([], if sameWord then 0 else -1, INT32_MIN)
    {
      this.config := config;
      queue := new PreviousResultsQueue();
      previousTop := if sameWord then 0 else -1;
      previousTime := INT32_MIN;
    }

    method PruneQueue(limit: int)
      requires Valid()
      modifies queue
      ensures Valid() && queue.Contents() == Prune(old(queue.Contents()), limit)
    {
      while queue.size > 0
        invariant Valid() && Prune(queue.Contents(), limit) == Prune(old(queue.Contents()), limit)
        decreases queue.size
      {
        var first := queue.FromFront(0);
        if first.time >= limit {
          break;
        }
        queue.PopFront();
      }
    }

    method AverageScores() returns (averages: seq<nat>)
      requires Valid() && queue.size > 0
      ensures averages == Averages(queue.Contents())
    {
      ghost var rs := queue.Contents();
      hide View, Total, Divided;
      var sums: seq<nat> := [0, 0, 0, 0];
      var offset := 0;
      NoTotals();
      while offset < queue.size
        invariant offset <= queue.size && sums == Totals(rs[..offset])
      {
        hide Totals;
        var r := queue.FromFront(offset);
        TotalsNext(rs, offset);
        sums := [sums[0] + (r.scores[0] as int + 128), sums[1] + (r.scores[1] as int + 128),
                 sums[2] + (r.scores[2] as int + 128), sums[3] + (r.scores[3] as int + 128)];
        offset := offset + 1;
      }
      assert rs[..offset] == rs;
      averages := Divided(sums, queue.size);
    }

    method FindTop(averages: seq<nat>) returns (index: nat, score: nat)
      requires |averages| == CATEGORIES
      ensures index == Top(averages, CATEGORIES) && score == averages[index]
    {
      index, score := 0, 0;
      var i := 0;
      while i < CATEGORIES
        invariant i <= CATEGORIES && index == Top(averages, i)
        invariant score == if i == 0 then 0 else averages[index]
      {
        if averages[i] > score {
          index, score := i, averages[i];
        }
        i := i + 1;
      }
    }

    // The part of ProcessLatestResults behind the pruning.
    method Report(now: int32) returns (output: Output)
      requires Valid()
      modifies `previousTop, `previousTime
      ensures Valid() && queue.Contents() == old(queue.Contents())
      ensures (Current(), Done(output)) == Decide(config, old(Current()), now)
    {
      hide View, Averages, Top;
      var first;
      if queue.size > 0 {
        first := queue.FromFront(0);
      }
      if queue.size < config.minimum || now - first.time < config.window / 4 {
        return Output(previousTop, 0, false);
      }
      var averages := AverageScores();
      var found, score := FindTop(averages);
      var since := if previousTop == 0 || previousTime == INT32_MIN then INT32_MAX else now - previousTime;
      var isNew := score > config.threshold && (found != previousTop || since > config.suppression);
      if isNew {
        previousTop, previousTime := found, now;
      }
      output := Output(found, score, isNew);
    }

    // ProcessLatestResults.
    method ProcessLatestResults(tensor: Tensor, now: int32) returns (status: Status)
      requires Valid() && (tensor.dims == [1, 4] ==> |tensor.data| == 4)
      modifies this, queue, queue.results
      ensures Valid()
      ensures (Current(), status) == if tensor.dims == [1, 4] && tensor.isInt8
                                     then Process(config, old(Current()), now, tensor.data)
                                     else (old(Current()), Rejected)
    {
      hide View, Decide;
      if |tensor.dims| != 2 || tensor.dims[0] != 1 || tensor.dims[1] != CATEGORIES || !tensor.isInt8 {
        return Rejected;
      }
      if queue.size > 0 {
        var first := queue.FromFront(0);
        if now < first.time {
          return Rejected;
        }
      }
      queue.PushBack(Result(now, tensor.data));
      PruneQueue(now - config.window);
      var output := Report(now);
      status := Done(output);
    }
  }
}
