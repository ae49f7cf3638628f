/**
 Incoming messages routed to the OTA agent: three topic filters tried in turn,
 and a pool of event buffers.
 */
module OtaDispatch {
  import opened TopicFilter
  import opened TopicTheorems

  const TOPIC_PREFIX := "$aws/things/+/"
  const JOB_NOTIFY := TOPIC_PREFIX + "jobs/notify-next"
  const JOB_ACCEPTED := TOPIC_PREFIX + "jobs/$next/get/accepted"
  const DATA_STREAM := TOPIC_PREFIX + "streams/#"

  const NOTIFY_LEVELS := ["$aws", "things", "+", "jobs", "notify-next"]
  const ACCEPTED_LEVELS := ["$aws", "things", "+", "jobs", "$next", "get", "accepted"]
  const STREAM_LEVELS := ["$aws", "things", "+", "streams", "#"]

  // ---------- the levels of the filters ----------

  predicate NoSeparator(s: string) {
    forall i :: 0 <= i < |s| ==> s[i] != '/'
  }

  lemma {:induction false} DropWord(w: string, rest: string)
    requires NoSeparator(w) && (rest == "" || rest[0] == '/')
    ensures DropLevel(w + rest) == rest
    decreases |w|
  {
    if w == "" {
      assert w + rest == rest;
    } else {
      assert (w + rest)[1..] == w[1..] + rest;
      DropWord(w[1..], rest);
    }
  }

  lemma LevelsOfWord(w: string, rest: string)
    requires NoSeparator(w) && (rest == "" || rest[0] == '/')
    ensures Levels(w + rest) == [w] + if rest == "" then [] else Levels(rest[1..])
  {
    DropWord(w, rest);
    LevelsOfPrefix(w + rest);
    assert (w + rest)[..|w|] == w;
  }

  // The common prefix is three levels.
  lemma PrefixLevels(rest: string)
    ensures Levels(TOPIC_PREFIX + rest) == ["$aws", "things", "+"] + Levels(rest)
  {
    var plus := "+" + ("/" + rest);
    var things := "things" + ("/" + plus);
    assert TOPIC_PREFIX == "$aws" + "/" + "things" + "/" + "+" + "/";
    assert TOPIC_PREFIX + rest == "$aws" + ("/" + things);
    LevelsOfWord("$aws", "/" + things);
    LevelsOfWord("things", "/" + plus);
    LevelsOfWord("+", "/" + rest);
    assert ("/" + things)[1..] == things && ("/" + plus)[1..] == plus && ("/" + rest)[1..] == rest;
    hide Levels;
    assert ["$aws"] + (["things"] + (["+"] + Levels(rest))) == ["$aws", "things", "+"] + Levels(rest);
  }

  lemma LastWord(w: string)
    requires NoSeparator(w)
    ensures Levels(w) == [w]
  {
    LevelsOfWord(w, "");
    assert w + "" == w;
  }

  lemma NextWord(w: string, rest: string)
    requires NoSeparator(w)
    ensures Levels(w + "/" + rest) == [w] + Levels(rest)
  {
    LevelsOfWord(w, "/" + rest);
    assert w + ("/" + rest) == w + "/" + rest && ("/" + rest)[1..] == rest;
  }

  lemma NotifyLevels()
    ensures Levels(JOB_NOTIFY) == NOTIFY_LEVELS
  {
    hide Levels;
    PrefixLevels("jobs/notify-next");
    LastWord("notify-next");
    NextWord("jobs", "notify-next");
    assert "jobs" + "/" + "notify-next" == "jobs/notify-next";
  }

  lemma GetAccepted()
    ensures Levels("get/accepted") == ["get", "accepted"]
  {
    hide Levels;
    LastWord("accepted");
    NextWord("get", "accepted");
    assert "get" + "/" + "accepted" == "get/accepted";
  }

  lemma AcceptedTail()
    ensures Levels("jobs/$next/get/accepted") == ["jobs", "$next", "get", "accepted"]
  {
    hide Levels;
    GetAccepted();
    NextWord("$next", "get/accepted");
    assert "$next" + "/" + "get/accepted" == "$next/get/accepted";
    NextWord("jobs", "$next/get/accepted");
    assert "jobs" + "/" + "$next/get/accepted" == "jobs/$next/get/accepted";
  }

  lemma AcceptedLevels()
    ensures Levels(JOB_ACCEPTED) == ACCEPTED_LEVELS
  {
    hide Levels;
    AcceptedTail();
    PrefixLevels("jobs/$next/get/accepted");
  }

  lemma StreamLevels()
    ensures Levels(DATA_STREAM) == STREAM_LEVELS
  {
    hide Levels;
    PrefixLevels("streams/#");
    LastWord("#");
    NextWord("streams", "#");
    assert "streams" + "/" + "#" == "streams/#";
  }

  lemma LiteralWords()
    ensures WellFormed(NOTIFY_LEVELS) && WellFormed(ACCEPTED_LEVELS) && WellFormed(STREAM_LEVELS)
  {
  }

  // ---------- which filter a topic belongs to ----------

  // What a level-wise match with a filter says about the name's levels.
  lemma {:induction false} SpelledOut(ns: seq<string>, fs: seq<string>)
    requires LevelMatch(ns, fs)
    ensures forall i :: 0 <= i < |fs| && fs[i] != "+" && fs[i] != "#" ==> i < |ns| && ns[i] == fs[i]
    ensures (forall i :: 0 <= i < |fs| ==> fs[i] != "#") ==> |ns| == |fs|
    ensures |ns| >= |fs| - 1
    decreases |fs|
  {
    if fs == ["#"] {
      assert fs[0] == "#";
    } else if fs != [] {
      SpelledOut(ns[1..], fs[1..]);
      assert forall i :: 0 <= i < |fs| - 1 ==> fs[1..][i] == fs[i + 1];
      forall i | 0 <= i < |fs| && fs[i] != "+" && fs[i] != "#"
        ensures i < |ns| && ns[i] == fs[i]
      {
        if i > 0 {
          assert fs[1..][i - 1] == fs[i];
        }
      }
    }
  }

  lemma NotifyName(ns: seq<string>)
    requires LevelMatch(ns, NOTIFY_LEVELS)
    ensures |ns| == 5 && ns[3] == "jobs" && !Missed(ns, NOTIFY_LEVELS)
  {
    hide LevelMatch;
    SpelledOut(ns, NOTIFY_LEVELS);
    assert NOTIFY_LEVELS[3] == "jobs" && NOTIFY_LEVELS[3] != "+";
  }

  lemma AcceptedName(ns: seq<string>)
    requires LevelMatch(ns, ACCEPTED_LEVELS)
    ensures |ns| == 7 && ns[3] == "jobs" && !Missed(ns, ACCEPTED_LEVELS)
  {
    hide LevelMatch;
    SpelledOut(ns, ACCEPTED_LEVELS);
  }

  lemma StreamName(ns: seq<string>)
    requires LevelMatch(ns, STREAM_LEVELS)
    ensures |ns| >= 4 && ns[3] == "streams" && !Missed(ns, STREAM_LEVELS)
  {
    hide LevelMatch;
    SpelledOut(ns, STREAM_LEVELS);
  }

  datatype Kind = JobDocument | FileBlock | NotForUs

  // Section 4.7.1 applied to the three filters: what kind of event a topic name
  // stands for.
  function KindOf(ns: seq<string>): (k: Kind)
  {
    if LevelMatch(ns, NOTIFY_LEVELS) || LevelMatch(ns, ACCEPTED_LEVELS) then JobDocument
    else if LevelMatch(ns, STREAM_LEVELS) then FileBlock
    else NotForUs
  }

  predicate UnderThings(ns: seq<string>) {
    |ns| > 3 && ns[0] == "$aws" && ns[1] == "things"
  }

  lemma NotWild(w: string)
    requires |w| > 1
    ensures w != "+" && w != "#"
  {
  }

  lemma NotifyIs(ns: seq<string>)
    ensures LevelMatch(ns, NOTIFY_LEVELS) <==> UnderThings(ns) && ns[3..] == ["jobs", "notify-next"]
  {
    hide LevelMatch, WellFormed;
    var fs := NOTIFY_LEVELS;
    LiteralWords();
    LevelMatchByIndex(ns, fs);
    NotWild("$aws");
    NotWild("things");
    NotWild("jobs");
    NotWild("notify-next");
    assert |ns| == 5 ==> ns[3..] == [ns[3], ns[4]];
    assert (forall i :: 0 <= i < 5 ==> Fits(ns, fs, i))
      <==> Fits(ns, fs, 0) && Fits(ns, fs, 1) && Fits(ns, fs, 2) && Fits(ns, fs, 3) && Fits(ns, fs, 4);
  }

  lemma AcceptedIs(ns: seq<string>)
    ensures LevelMatch(ns, ACCEPTED_LEVELS) <==>
            UnderThings(ns) && ns[3..] == ["jobs", "$next", "get", "accepted"]
  {
    hide LevelMatch, WellFormed;
    var fs := ACCEPTED_LEVELS;
    LiteralWords();
    LevelMatchByIndex(ns, fs);
    NotWild("$aws");
    NotWild("things");
    NotWild("jobs");
    NotWild("$next");
    NotWild("get");
    NotWild("accepted");
    assert |ns| == 7 ==> ns[3..] == [ns[3], ns[4], ns[5], ns[6]];
    assert (forall i :: 0 <= i < 7 ==> Fits(ns, fs, i))
      <==> && Fits(ns, fs, 0) && Fits(ns, fs, 1) && Fits(ns, fs, 2) && Fits(ns, fs, 3) && Fits(ns, fs, 4)
           && Fits(ns, fs, 5) && Fits(ns, fs, 6);
  }

  lemma StreamIs(ns: seq<string>)
    ensures LevelMatch(ns, STREAM_LEVELS) <==> UnderThings(ns) && ns[3] == "streams"
  {
    hide LevelMatch, WellFormed;
    var fs := STREAM_LEVELS;
    LiteralWords();
    LevelMatchByIndex(ns, fs);
    NotWild("$aws");
    NotWild("things");
    NotWild("streams");
    assert (forall i :: 0 <= i < 4 ==> Fits(ns, fs, i))
      <==> Fits(ns, fs, 0) && Fits(ns, fs, 1) && Fits(ns, fs, 2) && Fits(ns, fs, 3);
  }

  lemma AtMostOneFilter(ns: seq<string>)
    ensures !(LevelMatch(ns, NOTIFY_LEVELS) && LevelMatch(ns, ACCEPTED_LEVELS))
    ensures !(LevelMatch(ns, NOTIFY_LEVELS) && LevelMatch(ns, STREAM_LEVELS))
    ensures !(LevelMatch(ns, ACCEPTED_LEVELS) && LevelMatch(ns, STREAM_LEVELS))
  {
    hide LevelMatch, Missed;
    if LevelMatch(ns, NOTIFY_LEVELS) { NotifyName(ns); }
    if LevelMatch(ns, ACCEPTED_LEVELS) { AcceptedName(ns); }
    if LevelMatch(ns, STREAM_LEVELS) { StreamName(ns); }
  }

  // In plain words: a job document comes under "jobs", in one of two topics; a file
  // block comes under "streams", in any topic.
  lemma KindIs(ns: seq<string>)
    ensures KindOf(ns) == JobDocument <==>
            UnderThings(ns) && (ns[3..] == ["jobs", "notify-next"] || ns[3..] == ["jobs", "$next", "get", "accepted"])
    ensures KindOf(ns) == FileBlock <==> UnderThings(ns) && ns[3] == "streams"
  {
    hide LevelMatch;
    NotifyIs(ns);
    AcceptedIs(ns);
    StreamIs(ns);
    AtMostOneFilter(ns);
  }

  // For these filters the matcher is exact on every topic name, empty levels
  // included, and no name matches two of them.
  lemma FiltersAreExact(name: string)
    requires TopicName(name)
    ensures Scan(name, JOB_NOTIFY, true) <==> LevelMatch(Levels(name), NOTIFY_LEVELS)
    ensures Scan(name, JOB_ACCEPTED, true) <==> LevelMatch(Levels(name), ACCEPTED_LEVELS)
    ensures Scan(name, DATA_STREAM, true) <==> LevelMatch(Levels(name), STREAM_LEVELS)
  {
    hide LevelMatch, Levels, Scan, Missed, WellFormed, TopicName;
    LiteralWords();
    var ns := Levels(name);
    NotifyLevels();
    AcceptedLevels();
    StreamLevels();
    MatcherIsExact(name, JOB_NOTIFY);
    MatcherIsExact(name, JOB_ACCEPTED);
    MatcherIsExact(name, DATA_STREAM);
    if LevelMatch(ns, NOTIFY_LEVELS) { NotifyName(ns); }
    if LevelMatch(ns, ACCEPTED_LEVELS) { AcceptedName(ns); }
    if LevelMatch(ns, STREAM_LEVELS) { StreamName(ns); }
  }
}
