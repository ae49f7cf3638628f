/**
 Exactly when the one-pass matcher agrees with the level-by-level definition, and
 what follows for the dispatch of incoming messages to the OTA agent.
 */
module TopicTheorems {
  import opened TopicFilter

  // ---------- levels ----------

  lemma LevelsOfSeparator(s: string)
    requires s != "" && s[0] == '/'
    ensures Levels(s) == [""] + Levels(s[1..])
  {
  }

  lemma LevelsOfLetter(s: string)
    requires s != "" && s[0] != '/'
    ensures Levels(s) == [[s[0]] + Levels(s[1..])[0]] + Levels(s[1..])[1..]
  {
  }

  lemma OneLetter(c: char)
    requires c != '/'
    ensures Levels([c]) == [[c]]
  {
    LevelsOfLetter([c]);
    assert [c][1..] == "" && [c] + "" == [c];
  }

  lemma FirstLevelEmpty(s: string)
    ensures Levels(s)[0] == "" <==> s == "" || s[0] == '/'
  {
  }

  function Join(ls: seq<string>): string
    requires ls != []
  {
    if |ls| == 1 then ls[0] else ls[0] + "/" + Join(ls[1..])
  }

  // Splitting loses nothing, and the levels are the pieces between the separators.
  lemma {:induction false} JoinLevels(s: string)
    ensures Join(Levels(s)) == s
    ensures forall i :: 0 <= i < |Levels(s)| ==> '/' !in Levels(s)[i]
    decreases |s|
  {
    if s != "" {
      JoinLevels(s[1..]);
      var rest, ls := Levels(s[1..]), Levels(s);
      if s[0] == '/' {
        assert ls == [""] + rest && ls[1..] == rest;
        assert forall i :: 0 < i < |ls| ==> ls[i] == rest[i - 1];
      } else {
        assert ls == [[s[0]] + rest[0]] + rest[1..] && ls[1..] == rest[1..];
        assert forall i :: 0 < i < |ls| ==> ls[i] == rest[i];
      }
    }
  }

  lemma NoLetters()
    ensures Levels("") == [""]
  {
  }

  lemma Longer(c: char, first: string, others: seq<string>, ls: seq<string>)
    requires ls == [first] + others
    ensures [[c] + ls[0]] + ls[1..] == [[c] + first] + others
  {
  }

  lemma LetterBefore(s: string, n: nat)
    requires 0 < n <= |s|
    ensures [s[0]] + s[1..][..n - 1] == s[..n]
  {
  }

  // Up to its first separator a string is one level.
  lemma {:induction false} LevelsOfPrefix(s: string)
    ensures var rest := DropLevel(s);
            Levels(s) == [s[..|s| - |rest|]] + if rest == "" then [] else Levels(rest[1..])
    decreases |s|
  {
    hide Levels;
    if s == "" {
      NoLetters();
    } else if s[0] == '/' {
      LevelsOfSeparator(s);
    } else {
      var m, rest := s[1..], DropLevel(s);
      LevelsOfPrefix(m);
      LevelsOfLetter(s);
      Longer(s[0], m[..|m| - |rest|], if rest == "" then [] else Levels(rest[1..]), Levels(m));
      LetterBefore(s, |s| - |rest|);
    }
  }

  // The level at i is the same, or any.
  predicate Fits(ns: seq<string>, fs: seq<string>, i: nat)
    requires i < |fs|
  {
    fs[i] == "+" || (i < |ns| && fs[i] == ns[i])
  }

  lemma NotHash(fs: seq<string>)
    requires WellFormed(fs) && |fs| > 0 && fs != ["#"]
    ensures fs[0] != "#" && WellFormed(fs[1..])
    ensures |fs| > 1 ==> fs[1..][|fs| - 2] == fs[|fs| - 1]
  {
    assert "#"[0] == '#';
  }

  // All levels fit when the first does and the others do.
  lemma AllBut(ns: seq<string>, fs: seq<string>, n: nat)
    requires ns != [] && 0 < n <= |fs|
    ensures (forall i :: 0 <= i < n ==> Fits(ns, fs, i))
       <==> Fits(ns, fs, 0) && forall i :: 0 <= i < n - 1 ==> Fits(ns[1..], fs[1..], i)
  {
    if forall i :: 0 <= i < n ==> Fits(ns, fs, i) {
      forall i | 0 <= i < n - 1
        ensures Fits(ns[1..], fs[1..], i)
      {
        assert Fits(ns, fs, i + 1);
      }
    }
    if Fits(ns, fs, 0) && forall i :: 0 <= i < n - 1 ==> Fits(ns[1..], fs[1..], i) {
      forall i | 0 <= i < n
        ensures Fits(ns, fs, i)
      {
        assert i > 0 ==> Fits(ns[1..], fs[1..], i - 1);
      }
    }
  }

  // Read by index: as many levels as the filter has, each equal or behind a '+'; or,
  // when it ends in '#', at least as many as come before that.
  lemma {:induction false} LevelMatchByIndex(ns: seq<string>, fs: seq<string>)
    requires WellFormed(fs)
    ensures LevelMatch(ns, fs) <==>
            if fs != [] && fs[|fs| - 1] == "#"
            then |ns| >= |fs| - 1 && forall i :: 0 <= i < |fs| - 1 ==> Fits(ns, fs, i)
            else |ns| == |fs| && forall i :: 0 <= i < |fs| ==> Fits(ns, fs, i)
    decreases |fs|
  {
    if fs == [] {
    } else if fs == ["#"] {
    } else {
      NotHash(fs);
      if ns != [] {
        LevelMatchByIndex(ns[1..], fs[1..]);
        forall i | 0 < i < |fs|
          ensures Fits(ns, fs, i) <==> Fits(ns[1..], fs[1..], i - 1)
        {
        }
        AllBut(ns, fs, |fs|);
        if |fs| > 1 {
          AllBut(ns, fs, |fs| - 1);
        }
      }
    }
  }

  // ---------- where the pass misses a match ----------

  // The level-wise matches the pass does not report.  After '+' has consumed the
  // last level of the name, the special cases for the end of the name are never
  // tried: either a final '#' that stands for no level is left over, or the name
  // ends in an empty level that is then compared with nothing.
  predicate Missed(ns: seq<string>, fs: seq<string>) {
    var m := |ns|;
    || (m >= 1 && |fs| == m + 1 && fs[m - 1] == "+")
    || (m >= 2 && m <= |fs| && ns[m - 1] == "" && fs[m - 2] == "+" && fs[m - 1..] != [""])
  }

  // Level-wise matching of what is left in the middle of a level, or at its start.
  predicate Matches(n: string, f: string, start: bool) {
    var ns, fs := Levels(n), Levels(f);
    if start then LevelMatch(ns, fs) else ns[0] == fs[0] && LevelMatch(ns[1..], fs[1..])
  }

  // What is left of a well-formed filter.
  predicate Formed(f: string, start: bool) {
    WellFormed(Levels(f)) && (start || Literal(Levels(f)[0]))
  }

  predicate Agrees(n: string, f: string, start: bool) {
    Scan(n, f, start) <==> Matches(n, f, start) && !Missed(Levels(n), Levels(f))
  }

  // ---------- what is missed, level by level ----------

  // Dropping a first level on both sides changes nothing, unless '+' stood
  // before an empty last level.
  lemma ShiftMissed(a: string, ns: seq<string>, b: string, fs: seq<string>)
    requires ns != [] && fs != []
    requires b == "+" ==> ns != [""]
    ensures Missed([a] + ns, [b] + fs) == Missed(ns, fs)
  {
    var m, names, levels := |ns|, [a] + ns, [b] + fs;
    assert names[m] == ns[m - 1];
    if m <= |fs| {
      assert levels[m..] == fs[m - 1..] && levels[m] == fs[m - 1];
      assert levels[m - 1] == if m == 1 then b else fs[m - 2];
      assert m == 1 && ns[0] == "" ==> ns == [""];
    }
  }

  // Neither does the text of a first level that is not '+'.
  lemma FirstMissed(a: string, b: string, c: string, d: string, ns: seq<string>, fs: seq<string>)
    requires b != "+" && d != "+"
    ensures Missed([a] + ns, [b] + fs) == Missed([c] + ns, [d] + fs)
  {
    if ns != [] && fs != [] {
      hide Missed;
      ShiftMissed(a, ns, b, fs);
      ShiftMissed(c, ns, d, fs);
    }
  }

  // ---------- one step of the pass ----------

  lemma SeparatorStep(n: string, f: string, start: bool)
    requires |n| > 1 && f != "" && n[0] == '/' && f[0] == '/' && Agrees(n[1..], f[1..], true)
    ensures Agrees(n, f, start)
  {
    LevelsOfSeparator(n);
    LevelsOfSeparator(f);
    var ns, fs := Levels(n[1..]), Levels(f[1..]);
    ShiftMissed("", ns, "", fs);
    assert Levels(n)[1..] == ns && Levels(f)[1..] == fs;
  }

  lemma LetterStep(n: string, f: string, start: bool)
    requires |n| > 1 && f != "" && n[0] == f[0] && n[0] != '/' && n[0] != '+' && n[0] != '#'
    requires Formed(f, start)
    ensures Formed(f[1..], false)
    ensures Agrees(n[1..], f[1..], false) ==> Agrees(n, f, start)
  {
    LevelsOfLetter(n);
    LevelsOfLetter(f);
    hide Levels;
    var ns, fs := Levels(n[1..]), Levels(f[1..]);
    var a, b := [n[0]] + ns[0], [f[0]] + fs[0];
    assert b[0] == f[0] && b[1..] == fs[0] && a[1..] == ns[0];
    assert Literal(fs[0]) by {
      assert Literal(b);
    }
    assert fs[0] != "+" by {
      assert "+"[0] == '+';
    }
    assert [fs[0]] + fs[1..] == fs && [ns[0]] + ns[1..] == ns;
    FirstMissed(a, b, ns[0], fs[0], ns[1..], fs[1..]);
    assert ([b] + fs[1..])[1..] == fs[1..] && ([a] + ns[1..])[1..] == ns[1..];
  }

  // ---------- the end of the name ----------

  // The few filters that can match what is left of a name at its end.
  lemma ShortFilters(s: string)
    ensures Levels(s) == [""] <==> s == ""
    ensures Levels(s) == ["#"] <==> s == "#"
    ensures Levels(s) == ["+"] <==> s == "+"
    ensures Levels(s) == ["", "#"] <==> s == "/#"
  {
    JoinLevels(s);
    assert ["", "#"][1..] == ["#"] && "" + "/" + "#" == "/#";
    assert Join(["", "#"]) == "/#";
    OneLetter('#');
    OneLetter('+');
    LevelsOfSeparator("/#");
    assert "/#"[1..] == "#";
  }

  lemma SeparatorEnd(f: string, start: bool)
    requires f != "" && f[0] == '/'
    ensures Agrees("/", f, start)
  {
    LevelsOfSeparator(f);
    assert Levels("/") == ["", ""];
    var g := Levels(f[1..]);
    JoinLevels(f[1..]);
    ShortFilters(f[1..]);
    assert Levels(f)[1..] == g;
    assert LevelMatch([""], g) <==> (g == ["#"] || ((g[0] == "+" || g[0] == "") && (g[1..] == [] || g[1..] == ["#"])));
    assert Missed(["", ""], [""] + g) <==> |g| == 2 && g[0] == "+";
    assert g[1..] == [] ==> g == [g[0]];
    assert g[1..] == ["#"] ==> g == [g[0], "#"];
  }

  lemma LetterEnd(c: char, f: string, start: bool)
    requires f != "" && f[0] == c && c != '/' && c != '+' && c != '#' && Formed(f, start)
    ensures Agrees([c], f, start)
  {
    LevelsOfLetter(f);
    OneLetter(c);
    var g := Levels(f[1..]);
    ShortFilters(f[1..]);
    hide Levels;
    var b := [c] + g[0];
    assert Levels(f)[1..] == g[1..] && b[0] == c && "+"[0] == '+' && "#"[0] == '#';
    assert [[c]][1..] == [] && [c][1..] == "";
    assert |f| == 3 && f[1] == '/' && f[2] == '#' <==> f[1..] == "/#";
    assert b != "+" && b != "#" && Levels(f)[0] == b;
    assert LevelMatch([], g[1..]) <==> g[1..] == [] || g[1..] == ["#"];
    assert LevelMatch([[c]], Levels(f)) <==> b == [c] && LevelMatch([], g[1..]);
    assert Scan([c], f, start) <==> EndSpecial(f) || f[1..] == "";
    assert b == [c] <==> g[0] == "";
    assert g[0] == "" && g[1..] == [] <==> g == [""];
    assert g[0] == "" && g[1..] == ["#"] <==> g == ["", "#"];
  }

  // ---------- '+' ----------

  lemma PlusLevels(f: string)
    requires f != "" && f[0] == '+' && Formed(f, true)
    ensures f == "+" || (f[1] == '/' && Levels(f) == ["+"] + Levels(f[2..]) && Formed(f[2..], true))
    ensures f == "+" ==> Levels(f) == ["+"]
  {
    LevelsOfLetter(f);
    FirstLevelEmpty(f[1..]);
    assert Levels(f)[0][0] == '+' && Levels(f)[0] == "+" by {
      assert !Literal(Levels(f)[0]) by { assert Levels(f)[0][0] == '+'; }
    }
    assert Levels(f)[0][1..] == Levels(f[1..])[0];
    if |f| > 1 {
      LevelsOfSeparator(f[1..]);
      assert f[1..][1..] == f[2..];
      assert Levels(f)[1..] == Levels(f[2..]);
    }
  }

  // '+' takes one level, whatever it is.
  lemma PlusLevel(x: string, ns: seq<string>, fs: seq<string>)
    ensures LevelMatch([x] + ns, ["+"] + fs) == LevelMatch(ns, fs)
  {
    assert ([x] + ns)[1..] == ns && (["+"] + fs)[1..] == fs;
    assert (["+"] + fs)[0][0] == '+' && ["#"][0][0] == '#';
  }

  lemma PlusLast(n: string, f: string)
    requires n != "" && n[0] != '+' && f != "" && f[0] == '+' && Formed(f, true) && DropLevel(n) == ""
    ensures Agrees(n, f, true)
  {
    PlusLevels(f);
    LevelsOfPrefix(n);
    assert n[..|n| - 0] == n;
    var fs := Levels(f);
    ShortFilters(f);
    hide Levels;
    PlusLevel(n, [], fs[1..]);
    assert [n] + [] == [n] && ["+"] + fs[1..] == fs;
    assert fs[1..] == [] <==> fs == ["+"];
    assert LevelMatch([], fs[1..]) <==> fs[1..] == [] || fs[1..] == ["#"];
  }

  // An empty last level behind '+' is only seen when the filter's is empty too.
  lemma EmptyLast(x: string, fs: seq<string>)
    requires fs != []
    ensures LevelMatch([""], fs) && !Missed([x, ""], ["+"] + fs) <==> fs == [""]
  {
    assert (["+"] + fs)[1..] == fs;
    assert [""][1..] == [];
  }

  lemma PlusMiddle(n: string, rest: string, f: string)
    requires n != "" && n[0] != '+' && f != "" && f[0] == '+' && Formed(f, true) && rest == DropLevel(n) != ""
    requires |rest| == 1 || f == "+" || (|f| > 1 && Agrees(rest[1..], f[2..], true))
    ensures Agrees(n, f, true)
  {
    PlusLevels(f);
    LevelsOfPrefix(n);
    ShortFilters(rest[1..]);
    var x, ns, fs := n[..|n| - |rest|], Levels(rest[1..]), Levels(f)[1..];
    if f != "+" {
      ShortFilters(f[2..]);
    }
    hide Levels, DropLevel, WellFormed;
    PlusLevel(x, ns, fs);
    assert Levels(n) == [x] + ns && Levels(f) == ["+"] + fs;
    if f != "+" {
      assert fs == Levels(f[2..]);
      if |rest| > 1 {
        ShiftMissed(x, ns, "+", fs);
      } else {
        assert rest[1..] == "" && [x] + [""] == [x, ""];
        EmptyLast(x, fs);
        assert Scan(n, f, true) == Scan("", f[2..], true);
      }
    }
  }

  // ---------- everything else ----------

  // The first level begins with the first character, or is empty before a separator.
  lemma FirstLevel(s: string)
    requires s != ""
    ensures if s[0] == '/' then Levels(s)[0] == "" else Levels(s)[0] != "" && Levels(s)[0][0] == s[0]
  {
    hide Levels;
    if s[0] == '/' {
      LevelsOfSeparator(s);
    } else {
      LevelsOfLetter(s);
    }
  }

  lemma FirstDiffers(n: string, f: string)
    requires n != "" && f != "" && n[0] != f[0]
    ensures Levels(n)[0] != Levels(f)[0]
    ensures Levels(f)[0] == "+" ==> f[0] == '+'
  {
    hide Levels;
    FirstLevel(n);
    FirstLevel(f);
    assert "+"[0] == '+';
  }

  lemma OneLevel(f: string)
    ensures Levels(f) == ["#"] ==> f == "#"
  {
    hide Levels;
    JoinLevels(f);
  }

  lemma NoLevelMatch(ns: seq<string>, fs: seq<string>)
    requires ns != [] && fs != [] && fs[0] != "+" && fs != ["#"] && fs[0] != ns[0]
    ensures !LevelMatch(ns, fs)
  {
  }

  lemma Mismatch(n: string, f: string, start: bool)
    requires n != "" && f != "" && n[0] != f[0] && Formed(f, start)
    requires !(f[0] == '+' && start) && !(f == "#" && start)
    ensures Agrees(n, f, start)
  {
    hide Levels, Missed, DropLevel, EndSpecial;
    FirstDiffers(n, f);
    OneLevel(f);
    if start {
      NoLevelMatch(Levels(n), Levels(f));
    }
  }

  lemma HashAll(n: string)
    requires n != "" && n[0] != '#'
    ensures Agrees(n, "#", true)
  {
    OneLetter('#');
    hide Levels;
  }

  lemma EmptyFilter(n: string, start: bool)
    requires n != ""
    ensures Agrees(n, "", start)
  {
    ShortFilters(n);
    var ns := Levels(n);
    assert ns == [ns[0]] + ns[1..];
    assert Levels("") == [""];
    hide Levels;
    assert [""][1..] == [];
  }

  lemma FormedAfterSeparator(f: string, start: bool)
    requires f != "" && f[0] == '/' && Formed(f, start)
    ensures Formed(f[1..], true)
  {
    LevelsOfSeparator(f);
    assert Levels(f)[1..] == Levels(f[1..]);
  }

  // From any point of the pass on.
  lemma {:induction false} PassIsExact(n: string, f: string, start: bool)
    requires n != "" && Literal(n) && Formed(f, start)
    ensures Agrees(n, f, start)
    decreases |n|
  {
    hide Levels, Scan, Matches, Missed, Formed, Agrees;
    if f == "" {
      EmptyFilter(n, start);
    } else if n[0] == f[0] {
      if n[0] == '/' {
        if |n| > 1 {
          FormedAfterSeparator(f, start);
          PassIsExact(n[1..], f[1..], true);
          SeparatorStep(n, f, start);
        } else {
          assert n == "/";
          SeparatorEnd(f, start);
        }
      } else if |n| > 1 {
        LetterStep(n, f, start);
        PassIsExact(n[1..], f[1..], false);
      } else {
        assert n == [n[0]];
        LetterEnd(n[0], f, start);
      }
    } else if f[0] == '+' && start {
      var rest := DropLevel(n);
      if rest == "" {
        PlusLast(n, f);
      } else {
        PlusLevels(f);
        if |rest| > 1 && f != "+" {
          PassIsExact(rest[1..], f[2..], true);
        }
        PlusMiddle(n, rest, f);
      }
    } else if f == "#" && start {
      HashAll(n);
    } else {
      Mismatch(n, f, start);
    }
  }

  // The matcher reports a match if and only if the levels match and it is not
  // one of the matches missed at the end of the name.
  lemma MatcherIsExact(name: string, filter: string)
    requires TopicName(name) && WellFormed(Levels(filter))
    ensures Scan(name, filter, true)
       <==> LevelMatch(Levels(name), Levels(filter)) && !Missed(Levels(name), Levels(filter))
  {
    PassIsExact(name, filter, true);
  }

  lemma {:induction false} LongerEndsInHash(ns: seq<string>, fs: seq<string>)
    requires LevelMatch(ns, fs) && |fs| == |ns| + 1
    ensures fs[|fs| - 1] == "#"
    decreases |fs|
  {
    if fs != ["#"] {
      LongerEndsInHash(ns[1..], fs[1..]);
    }
  }

  // With no empty level in the name and no filter ending in "+/#" nothing is missed.
  lemma NothingMissed(ns: seq<string>, fs: seq<string>)
    requires ns != [] && LevelMatch(ns, fs) && "" !in ns
    requires |fs| < 2 || fs[|fs| - 2] != "+" || fs[|fs| - 1] != "#"
    ensures !Missed(ns, fs)
  {
    if |fs| == |ns| + 1 {
      LongerEndsInHash(ns, fs);
    }
  }

  lemma TwoLevels(a: char, s: string)
    requires a != '/'
    ensures Levels([a, '/'] + s) == [[a]] + Levels(s)
  {
    hide Levels;
    var t := [a, '/'] + s;
    LevelsOfLetter(t);
    assert t[1..] == ['/'] + s && t[1..][1..] == s;
    LevelsOfSeparator(t[1..]);
    Longer(a, "", Levels(s), Levels(t[1..]));
    assert [a] + "" == [a];
  }

  lemma ScanAtEnd(f: string)
    requires f != ""
    ensures !Scan("", f, true)
  {
  }

  // With its last level taken by '+', the name is at its end and the filter is not.
  lemma NotReported(n: string, f: string)
    requires (n == ['x'] || n == ['x', '/']) && |f| == 3 && f[0] == '+' && f[1] == '/'
    ensures !Scan(n, f, true)
  {
    hide LevelMatch, Levels, EndSpecial;
    if n == ['x'] {
      assert n[1..] == [];
    } else {
      assert n[1..] == ['/'] && n[1..][1..] == [];
      ScanAtEnd(f[2..]);
    }
  }

  // Both kinds of miss do occur: name "x" with filter "+/#", and name "x/" with
  // filter "+/+".
  lemma MissedParent(n: string, f: string)
    requires n == ['x'] && f == ['+', '/', '#']
    ensures LevelMatch(Levels(n), Levels(f)) && !Scan(n, f, true)
  {
    NotReported(n, f);
    hide Levels, Scan;
    OneLetter('x');
    OneLetter('#');
    TwoLevels('+', ['#']);
    assert f == ['+', '/'] + ['#'];
    PlusLevel(n, [], [['#']]);
    assert [n] + [] == [n] && [['+']] + [['#']] == [['+'], ['#']];
  }

  lemma EmptyByPlus(x: string)
    ensures LevelMatch([x, []], [['+'], ['+']])
  {
    var e: string := [];
    PlusLevel(x, [e], [['+']]);
    PlusLevel(e, [], []);
    assert [x] + [e] == [x, e] && [['+']] + [['+']] == [['+'], ['+']];
    assert [e] + [] == [e] && [['+']] + [] == [['+']];
  }

  lemma MissedEmptyLevel(n: string, f: string)
    requires n == ['x', '/'] && f == ['+', '/', '+']
    ensures LevelMatch(Levels(n), Levels(f)) && !Scan(n, f, true)
  {
    NotReported(n, f);
    hide Levels, Scan, LevelMatch;
    OneLetter('+');
    NoLetters();
    TwoLevels('+', ['+']);
    TwoLevels('x', []);
    assert f == ['+', '/'] + ['+'] && n == ['x', '/'] + [];
    assert [['+']] + [['+']] == [['+'], ['+']] && [['x']] + [[]] == [['x'], []];
    EmptyByPlus(['x']);
  }
}
