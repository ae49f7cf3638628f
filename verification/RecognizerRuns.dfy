/**
 The recognizer over whole runs: what its queue holds, what it reports, and how far
 apart its triggers are.
 */
module RecognizerRuns {
  import opened Recognizer

  datatype Feed = Feed(time: int32, scores: Scores)

  function Last(feeds: seq<Feed>): Feed
    requires feeds != []
  {
    feeds[|feeds| - 1]
  }

  function Before(feeds: seq<Feed>): seq<Feed>
    requires feeds != []
  {
    feeds[..|feeds| - 1]
  }

  // The state after all the feeds, and what the last of them is told.
  function Run(c: Config, s: State, feeds: seq<Feed>): State
    requires c.minimum > 0
    decreases |feeds|, 1
  {
    if feeds == [] then s else Latest(c, s, feeds).0
  }

  function Latest(c: Config, s: State, feeds: seq<Feed>): (State, Status)
    requires c.minimum > 0 && feeds != []
    decreases |feeds|, 0
  {
    Process(c, Run(c, s, Before(feeds)), Last(feeds).time, Last(feeds).scores)
  }

  // ---------- the window ----------

  ghost predicate Ordered(feeds: seq<Feed>) {
    forall i, j :: 0 <= i < j < |feeds| ==> feeds[i].time <= feeds[j].time
  }

  // The results of the feeds not older than the limit.
  function Recent(feeds: seq<Feed>, limit: int): (rs: seq<Result>)
    ensures |rs| <= |feeds|
  {
    if feeds == [] then []
    else (if feeds[0].time >= limit then [Result(feeds[0].time, feeds[0].scores)] else []) + Recent(feeds[1..], limit)
  }

  function Window(c: Config, feeds: seq<Feed>): seq<Result> {
    if feeds == [] then [] else Recent(feeds, Last(feeds).time - c.window)
  }

  // Whenever a result comes in, fewer than 50 earlier ones are in the window.
  predicate Fits(c: Config, feeds: seq<Feed>) {
    feeds == [] || (Fits(c, Before(feeds)) && |Window(c, Before(feeds))| < 50)
  }

  lemma {:induction false} RecentNext(feeds: seq<Feed>, f: Feed, limit: int)
    ensures Recent(feeds + [f], limit)
         == Recent(feeds, limit) + if f.time >= limit then [Result(f.time, f.scores)] else []
    decreases |feeds|
  {
    if feeds == [] {
      assert (feeds + [f])[1..] == [];
    } else {
      RecentNext(feeds[1..], f, limit);
      var all := feeds + [f];
      assert all[0] == feeds[0] && all[1..] == feeds[1..] + [f];
      var first := if feeds[0].time >= limit then [Result(feeds[0].time, feeds[0].scores)] else [];
      assert Recent(feeds, limit) == first + Recent(feeds[1..], limit);
      assert Recent(all, limit) == first + Recent(all[1..], limit);
    }
  }

  lemma {:induction false} RecentTimes(feeds: seq<Feed>, limit: int, now: int)
    requires forall i :: 0 <= i < |feeds| ==> feeds[i].time <= now
    ensures forall i :: 0 <= i < |Recent(feeds, limit)| ==> limit <= Recent(feeds, limit)[i].time <= now
    decreases |feeds|
  {
    if feeds != [] {
      RecentTimes(feeds[1..], limit, now);
    }
  }

  lemma {:induction false} AllRecent(feeds: seq<Feed>, l1: int, l2: int)
    requires l1 <= l2 && (forall i :: 0 <= i < |feeds| ==> feeds[i].time >= l2)
    ensures Recent(feeds, l1) == Recent(feeds, l2)
    decreases |feeds|
  {
    if feeds != [] {
      AllRecent(feeds[1..], l1, l2);
    }
  }

  lemma PruneFirst(feeds: seq<Feed>, l1: int, l2: int, e: Result)
    requires feeds != [] && feeds[0].time < l2 && l1 <= l2
    ensures Prune(Recent(feeds, l1) + [e], l2) == Prune(Recent(feeds[1..], l1) + [e], l2)
    ensures Recent(feeds, l2) == Recent(feeds[1..], l2)
  {
    var rest := Recent(feeds[1..], l1);
    if feeds[0].time >= l1 {
      var r := Result(feeds[0].time, feeds[0].scores);
      assert Recent(feeds, l1) == [r] + rest;
      assert ([r] + rest + [e])[1..] == rest + [e];
      assert ([r] + rest + [e])[0] == r;
    } else {
      assert Recent(feeds, l1) == [] + rest == rest;
    }
    assert Recent(feeds, l2) == [] + Recent(feeds[1..], l2);
  }

  // Taking old results off the front leaves the recent ones.
  lemma {:induction false} PruneRecent(feeds: seq<Feed>, l1: int, l2: int, e: Result)
    requires Ordered(feeds) && l1 <= l2 <= e.time
    ensures Prune(Recent(feeds, l1) + [e], l2) == Recent(feeds, l2) + [e]
    decreases |feeds|
  {
    if feeds != [] {
      if feeds[0].time < l2 {
        PruneRecent(feeds[1..], l1, l2, e);
        PruneFirst(feeds, l1, l2, e);
      } else {
        AllRecent(feeds, l1, l2);
        assert Recent(feeds, l2)[0].time >= l2;
      }
    }
  }

  lemma OneIsKept(e: Result, limit: int)
    requires e.time >= limit
    ensures Prune([e], limit) == [e] && Recent([], limit) == []
  {
  }

  // The window after one more feed.
  lemma WindowNext(c: Config, earlier: seq<Feed>, f: Feed)
    requires Ordered(earlier + [f])
    ensures Prune(Window(c, earlier) + [Result(f.time, f.scores)], f.time - c.window) == Window(c, earlier + [f])
    ensures Window(c, earlier) != [] ==> Window(c, earlier)[0].time <= f.time
  {
    var feeds, limit := earlier + [f], f.time - c.window;
    assert forall i :: 0 <= i < |earlier| ==> feeds[i] == earlier[i];
    assert feeds[|earlier|] == f && Last(feeds) == f;
    RecentNext(earlier, f, limit);
    hide Recent, Prune;
    var e := Result(f.time, f.scores);
    if earlier == [] {
      assert Recent([], limit) == [] && Prune([e], limit) == [e] by { OneIsKept(e, limit); }
      assert Window(c, earlier) == [] && [] + [e] == [e];
    } else {
      var was := Last(earlier).time - c.window;
      RecentTimes(earlier, was, f.time);
      PruneRecent(earlier, was, limit, e);
    }
  }

  lemma StepOfQueue(c: Config, s: State, f: Feed)
    requires c.minimum > 0 && |s.results| < MAX_RESULTS && (s.results == [] || s.results[0].time <= f.time)
    ensures Process(c, s, f.time, f.scores).1.Done?
    ensures Process(c, s, f.time, f.scores).0.results
         == Prune(s.results + [Result(f.time, f.scores)], f.time - c.window)
  {
  }

  // Fed in time order and never too fast, the queue holds exactly the results that
  // are not older than the window, and no feed is refused.
  lemma {:induction false} QueueIsWindow(c: Config, s: State, feeds: seq<Feed>)
    requires c.minimum > 0 && s.results == [] && Ordered(feeds) && Fits(c, feeds)
    ensures Run(c, s, feeds).results == Window(c, feeds)
    ensures feeds != [] ==> Latest(c, s, feeds).1.Done?
    decreases |feeds|
  {
    if feeds != [] {
      var earlier, f := Before(feeds), Last(feeds);
      assert feeds == earlier + [f];
      QueueIsWindow(c, s, earlier);
      WindowNext(c, earlier, f);
      hide Window, Prune, Process;
      StepOfQueue(c, Run(c, s, earlier), f);
    }
  }

  lemma LatestState(c: Config, s: State, feeds: seq<Feed>)
    requires c.minimum > 0 && feeds != []
    ensures Run(c, s, feeds) == Latest(c, s, feeds).0
  {
  }

  lemma {:induction false} PruneKeepsLast(rs: seq<Result>, e: Result, limit: int)
    requires e.time >= limit
    ensures Prune(rs + [e], limit) == Prune(rs, limit) + [e]
    decreases |rs|
  {
    if rs != [] {
      assert (rs + [e])[1..] == rs[1..] + [e];
      PruneKeepsLast(rs[1..], e, limit);
    }
  }

  lemma StepWhenFull(c: Config, s: State, f: Feed)
    requires c.minimum > 0 && |s.results| >= MAX_RESULTS && s.results[0].time <= f.time
    ensures Process(c, s, f.time, f.scores).0.results == Prune(s.results, f.time - c.window)
  {
  }

  lemma TooFast(c: Config, s: State, earlier: seq<Feed>, f: Feed)
    requires c.minimum > 0 && Ordered(earlier + [f])
    requires s.results == Window(c, earlier) && |Window(c, earlier)| >= MAX_RESULTS
    ensures Process(c, s, f.time, f.scores).0.results != Window(c, earlier + [f])
  {
    WindowNext(c, earlier, f);
    PruneKeepsLast(Window(c, earlier), Result(f.time, f.scores), f.time - c.window);
    hide Window, Prune, Process;
    StepWhenFull(c, s, f);
  }

  // And it stops doing so with the first result that comes in too fast.
  lemma QueueIsWindowExactly(c: Config, s: State, feeds: seq<Feed>)
    requires c.minimum > 0 && s.results == [] && feeds != [] && Ordered(feeds) && Fits(c, Before(feeds))
    ensures Run(c, s, feeds).results == Window(c, feeds) <==> Fits(c, feeds)
  {
    hide Window, Process;
    if Fits(c, feeds) {
      QueueIsWindow(c, s, feeds);
    } else {
      QueueIsWindow(c, s, Before(feeds));
      TooFast(c, Run(c, s, Before(feeds)), Before(feeds), Last(feeds));
      assert feeds == Before(feeds) + [Last(feeds)];
    }
  }

  lemma InWindow(feeds: seq<Feed>, window: nat)
    requires feeds != [] && Ordered(feeds)
    ensures var rs := Recent(feeds, Last(feeds).time - window);
            rs != [] && rs[0].time >= Last(feeds).time - window
  {
    var limit := Last(feeds).time - window;
    assert feeds == Before(feeds) + [Last(feeds)];
    RecentNext(Before(feeds), Last(feeds), limit);
    RecentTimes(feeds, limit, Last(feeds).time);
  }

  lemma NothingPruned(rs: seq<Result>, limit: int)
    requires rs != [] && rs[0].time >= limit
    ensures Prune(rs, limit) == rs
  {
  }

  // A result is refused exactly when it is older than the oldest one in the window;
  // when it is only older than the newest one it is taken, and stands behind it.
  lemma LateResult(c: Config, s: State, feeds: seq<Feed>, f: Feed)
    requires c.minimum > 0 && s.results == [] && feeds != [] && Ordered(feeds) && Fits(c, feeds)
    requires |Window(c, feeds)| < 50
    ensures var window, (after, status) := Window(c, feeds), Latest(c, s, feeds + [f]);
            && window != []
            && (status.Rejected? <==> f.time < window[0].time)
            && (status.Rejected? ==> after == Run(c, s, feeds))
            && (!status.Rejected? && f.time < Last(feeds).time ==>
                  after.results == window + [Result(f.time, f.scores)])
  {
    hide Recent, Decide, Prune, Fits;
    var window := Window(c, feeds);
    QueueIsWindow(c, s, feeds);
    InWindow(feeds, c.window);
    assert Before(feeds + [f]) == feeds && Last(feeds + [f]) == f;
    if window[0].time <= f.time {
      StepOfQueue(c, Run(c, s, feeds), f);
      if f.time < Last(feeds).time {
        NothingPruned(window + [Result(f.time, f.scores)], f.time - c.window);
      }
    }
  }

  // ---------- the averages ----------

  // A total is the sum over the results of their scores, each counted from -128.
  lemma {:induction false} TotalJoins(a: seq<Result>, b: seq<Result>, i: nat)
    requires i < CATEGORIES
    ensures Total(a + b, i) == Total(a, i) + Total(b, i)
    ensures |b| == 1 ==> Total(b, i) == b[0].scores[i] as int + 128
    decreases |b|
  {
    if b == [] {
      assert a + b == a;
    } else {
      var n := |b| - 1;
      TotalJoins(a, b[..n], i);
      assert (a + b)[..|a + b| - 1] == a + b[..n];
    }
  }

  lemma {:induction false} TotalBound(rs: seq<Result>, i: nat)
    requires i < CATEGORIES
    ensures Total(rs, i) <= 255 * |rs|
    decreases |rs|
  {
    if rs != [] {
      TotalBound(rs[..|rs| - 1], i);
    }
  }

  lemma Quotient(t: nat, n: nat)
    requires 0 < n && t <= 255 * n
    ensures n * (t / n) <= t < n * (t / n + 1) && t / n <= 255
  {
    var q := t / n;
    assert n * q <= t < n * q + n;
    assert n * q <= n * 255;
  }

  // The sum's exact quotient, rounded down.
  lemma AverageIsFloor(rs: seq<Result>, i: nat)
    requires rs != [] && i < CATEGORIES
    ensures var a := Averages(rs)[i];
            |rs| * a <= Total(rs, i) < |rs| * (a + 1) && a <= 255
  {
    TotalBound(rs, i);
    Quotient(Total(rs, i), |rs|);
    hide Total;
    assert Averages(rs)[i] == Total(rs, i) / |rs|;
  }

  lemma DecidesOn(c: Config, s: State, f: Feed)
    requires c.minimum > 0 && Process(c, s, f.time, f.scores).1.Done?
    ensures var (s', status) := Process(c, s, f.time, f.scores);
            (s', status) == Decide(c, s.(results := s'.results), f.time)
  {
  }

  lemma WindowNotEmpty(c: Config, feeds: seq<Feed>)
    requires feeds != []
    ensures Window(c, feeds) != []
  {
    var f := Last(feeds);
    assert feeds == Before(feeds) + [f];
    RecentNext(Before(feeds), f, f.time - c.window);
  }

  // What a feed is told: nothing new while the window holds too little; otherwise
  // the first category of the highest average over the window.
  lemma ReportIsTop(c: Config, s: State, feeds: seq<Feed>)
    requires c.minimum > 0 && s.results == [] && Ordered(feeds) && Fits(c, feeds) && feeds != []
    ensures Latest(c, s, feeds).1.Done? && Window(c, feeds) != []
    ensures var o, rs := Latest(c, s, feeds).1.output, Window(c, feeds);
            if |rs| < c.minimum || Last(feeds).time - rs[0].time < c.window / 4 then
              o == Output(Run(c, s, Before(feeds)).top, 0, false)
            else
              && 0 <= o.found < CATEGORIES && o.score <= 255
              && |rs| * o.score <= Total(rs, o.found) < |rs| * (o.score + 1)
              && (forall j :: 0 <= j < CATEGORIES ==> Averages(rs)[j] <= o.score)
              && (forall j :: 0 <= j < o.found ==> Averages(rs)[j] < o.score)
  {
    QueueIsWindow(c, s, feeds);
    LatestState(c, s, feeds);
    WindowNotEmpty(c, feeds);
    var before, f, rs := Run(c, s, Before(feeds)), Last(feeds), Window(c, feeds);
    DecidesOn(c, before, f);
    hide Run, Process, Latest, Averages, Total;
    if |rs| >= c.minimum && f.time - rs[0].time >= c.window / 4 {
      AverageIsFloor(rs, Top(Averages(rs), CATEGORIES));
    }
  }

  // ---------- triggers ----------

  datatype Trigger = Trigger(found: int, time: int32)

  function Triggers(c: Config, s: State, feeds: seq<Feed>): (ts: seq<Trigger>)
    requires c.minimum > 0
    decreases |feeds|
  {
    if feeds == [] then []
    else
      var status := Latest(c, s, feeds).1;
      Triggers(c, s, Before(feeds))
      + if status.Done? && status.output.isNew then [Trigger(status.output.found, Last(feeds).time)] else []
  }

  // The recognizer remembers its last trigger.
  lemma {:induction false} RemembersLast(c: Config, s: State, feeds: seq<Feed>)
    requires c.minimum > 0
    ensures var ts, s' := Triggers(c, s, feeds), Run(c, s, feeds);
            if ts == [] then s'.top == s.top && s'.time == s.time
            else Trigger(s'.top, s'.time) == ts[|ts| - 1]
    decreases |feeds|
  {
    if feeds != [] {
      RemembersLast(c, s, Before(feeds));
    }
  }

  lemma {:induction false} TriggerTimes(c: Config, s: State, feeds: seq<Feed>)
    requires c.minimum > 0 && (forall i :: 0 <= i < |feeds| ==> feeds[i].time > INT32_MIN)
    ensures forall k :: 0 <= k < |Triggers(c, s, feeds)| ==> Triggers(c, s, feeds)[k].time > INT32_MIN
    decreases |feeds|
  {
    if feeds != [] {
      TriggerTimes(c, s, Before(feeds));
    }
  }

  lemma NewOnlyWhen(c: Config, s: State, f: Feed)
    requires c.minimum > 0
    ensures var status := Process(c, s, f.time, f.scores).1;
            status.Done? && status.output.isNew ==>
              Recognizer.Triggers(c, s, f.time, status.output.found, status.output.score)
  {
  }

  // In any run at all, between two triggers in a row for the same category, other
  // than silence, there is more than the suppression time.
  lemma {:induction false} Suppression(c: Config, s: State, feeds: seq<Feed>, k: nat)
    requires c.minimum > 0 && (forall i :: 0 <= i < |feeds| ==> feeds[i].time > INT32_MIN)
    requires k + 1 < |Triggers(c, s, feeds)|
    ensures var ts := Triggers(c, s, feeds);
            ts[k].found == ts[k + 1].found != 0 ==> ts[k + 1].time - ts[k].time > c.suppression
    decreases |feeds|
  {
    var ts, earlier := Triggers(c, s, feeds), Triggers(c, s, Before(feeds));
    if k + 1 < |earlier| {
      Suppression(c, s, Before(feeds), k);
    } else {
      RemembersLast(c, s, Before(feeds));
      TriggerTimes(c, s, Before(feeds));
      NewOnlyWhen(c, Run(c, s, Before(feeds)), Last(feeds));
    }
  }

  // The last trigger, or what stands for it at the start: a label with the lowest time.
  function LastTrigger(c: Config, s: State, feeds: seq<Feed>): Trigger
    requires c.minimum > 0
  {
    var ts := Triggers(c, s, feeds);
    if ts == [] then Trigger(s.top, s.time) else ts[|ts| - 1]
  }

  lemma LastIsRemembered(c: Config, s: State, feeds: seq<Feed>)
    requires c.minimum > 0
    ensures var s' := Run(c, s, feeds); LastTrigger(c, s, feeds) == Trigger(s'.top, s'.time)
  {
    hide Run, Triggers;
    RemembersLast(c, s, feeds);
  }

  lemma DecideExactly(c: Config, s: State, now: int32)
    requires c.minimum > 0
    ensures var status, rs := Decide(c, s, now).1, s.results;
            && status.Done?
            && var o := status.output;
               if |rs| < c.minimum || now - rs[0].time < c.window / 4 then o == Output(s.top, 0, false)
               else
                 var back := if s.top == 0 || s.time == -0x8000_0000 then 0x7FFF_FFFF else now - s.time;
                 o.isNew <==> o.score > c.threshold && (o.found != s.top || back > c.suppression)
  {
    hide Averages, Top;
  }

  // In any run at all: with enough results a command is new if and only if its score is
  // above the threshold and it is not the category of the last trigger, or that lies
  // further back than the suppression time; silence, and the label at the start, always
  // lie far back.  With too few results nothing is new.
  lemma NewExactly(c: Config, s: State, feeds: seq<Feed>)
    requires c.minimum > 0 && feeds != [] && Latest(c, s, feeds).1.Done?
    ensures var o, rs := Latest(c, s, feeds).1.output, Run(c, s, feeds).results;
            var now, last := Last(feeds).time, LastTrigger(c, s, Before(feeds));
            if |rs| < c.minimum || now - rs[0].time < c.window / 4 then o == Output(last.found, 0, false)
            else
              var back := if last.found == 0 || last.time == -0x8000_0000 then 0x7FFF_FFFF else now - last.time;
              o.isNew <==> o.score > c.threshold && (o.found != last.found || back > c.suppression)
  {
    hide Run, Process, LastTrigger, Decide;
    var before, f := Run(c, s, Before(feeds)), Last(feeds);
    LatestState(c, s, feeds);
    LastIsRemembered(c, s, Before(feeds));
    DecidesOn(c, before, f);
    DecideExactly(c, before.(results := Run(c, s, feeds).results), f.time);
  }
}
