/**
 The topic-filter matcher of the OTA task: one pass over name and filter with two
 indexes, against the level-by-level definition in section 4.7.1 of MQTT 3.1.1.
 */
module TopicFilter {

  // ---------- section 4.7.1 ----------

  // Topic levels are separated by '/'; there is always at least one.
  function Levels(s: string): (ls: seq<string>)
    ensures ls != []
  {
    if s == "" then [""]
    else
      var rest := Levels(s[1..]);
      if s[0] == '/' then [""] + rest else [[s[0]] + rest[0]] + rest[1..]
  }

  // 4.7.1.2 and 4.7.1.3: '+' stands for one level, a last '#' for any number of
  // levels, none included.
  predicate LevelMatch(ns: seq<string>, fs: seq<string>)
    decreases |fs|
  {
    if fs == [] then ns == []
    else if fs == ["#"] then true
    else ns != [] && (fs[0] == "+" || fs[0] == ns[0]) && LevelMatch(ns[1..], fs[1..])
  }

  predicate Literal(level: string) {
    forall i :: 0 <= i < |level| ==> level[i] != '+' && level[i] != '#'
  }

  // A wildcard occupies a whole level, and '#' only the last one.
  predicate WellFormed(fs: seq<string>) {
    fs == []
    || ((fs[0] == "+" || Literal(fs[0]) || fs == ["#"]) && WellFormed(fs[1..]))
  }

  // Topic names contain no wildcard characters.
  predicate TopicName(s: string) {
    s != "" && Literal(s)
  }

  // ---------- the pass ----------

  // matchEndWildcardsSpecialCases, on the part of the filter not yet consumed.
  predicate EndSpecial(f: string) {
    || (|f| == 3 && f[1] == '/' && f[2] == '#')
    || (|f| == 2 && f[0] == '/' && (f[1] == '+' || f[1] == '#'))
  }

  // The name from its next level separator on.
  function DropLevel(n: string): (r: string)
    ensures |r| <= |n| && r == n[|n| - |r|..]
    ensures r == "" || r[0] == '/'
    ensures forall i :: 0 <= i < |n| - |r| ==> n[i] != '/'
  {
    if n == "" || n[0] == '/' then n else DropLevel(n[1..])
  }

  // The loop of matchTopicFilter on what is left of name and filter; `start`
  // says that the filter stands at the start of a level.
  predicate Scan(n: string, f: string, start: bool)
    decreases |n|
  {
    if n == "" || f == "" then n == "" && f == ""
    else if n[0] == f[0] then (|n| == 1 && EndSpecial(f)) || Scan(n[1..], f[1..], f[0] == '/')
    else if f[0] == '+' && start then
      var rest := DropLevel(n);
      if rest == "" then f == "+"
      else |f| > 1 && f[1] == '/' && Scan(rest[1..], f[2..], true)
    else f == "#" && start
  }

  predicate SpecialAt(filter: string, fi: nat)
    requires fi <= |filter|
  {
    EndSpecial(filter[fi..])
  }

  // The same at two indexes.
  predicate StartsLevel(filter: string, fi: nat)
    requires fi <= |filter|
  {
    fi == 0 || filter[fi - 1] == '/'
  }

  predicate ScanAt(name: string, filter: string, ni: nat, fi: nat)
    requires ni <= |name| && fi <= |filter|
  {
    Scan(name[ni..], filter[fi..], StartsLevel(filter, fi))
  }

  lemma ScanAtStart(name: string, filter: string)
    ensures ScanAt(name, filter, 0, 0) == Scan(name, filter, true)
  {
    assert name[0..] == name && filter[0..] == filter;
  }

  lemma ScanAtEnd(name: string, filter: string, ni: nat, fi: nat)
    requires ni <= |name| && fi <= |filter| && (ni == |name| || fi == |filter|)
    ensures ScanAt(name, filter, ni, fi) == (ni == |name| && fi == |filter|)
  {
  }

  lemma ScanAtEqual(name: string, filter: string, ni: nat, fi: nat)
    requires ni < |name| && fi < |filter| && name[ni] == filter[fi]
    ensures ScanAt(name, filter, ni, fi)
         == ((ni == |name| - 1 && SpecialAt(filter, fi)) || ScanAt(name, filter, ni + 1, fi + 1))
  {
    assert name[ni..][1..] == name[ni + 1..] && filter[fi..][1..] == filter[fi + 1..];
  }

  lemma ScanAtPlus(name: string, filter: string, ni: nat, fi: nat, e: nat)
    requires ni < |name| && fi < |filter| && name[ni] != filter[fi] && filter[fi] == '+' && StartsLevel(filter, fi)
    requires ni <= e <= |name| && DropLevel(name[ni..]) == name[e..]
    ensures ScanAt(name, filter, ni, fi)
         == if e == |name| then fi == |filter| - 1
            else fi + 1 < |filter| && filter[fi + 1] == '/' && ScanAt(name, filter, e + 1, fi + 2)
  {
    if e < |name| {
      assert name[e..][1..] == name[e + 1..];
      if fi + 1 < |filter| {
        assert filter[fi..][2..] == filter[fi + 2..];
      }
    }
  }

  lemma ScanAtOther(name: string, filter: string, ni: nat, fi: nat)
    requires ni < |name| && fi < |filter| && name[ni] != filter[fi] && !(filter[fi] == '+' && StartsLevel(filter, fi))
    ensures ScanAt(name, filter, ni, fi) == (filter[fi] == '#' && fi == |filter| - 1 && StartsLevel(filter, fi))
  {
  }

  // matchEndWildcardsSpecialCases.
  method MatchEndWildcards(filter: string, filterIndex: nat) returns (found: bool)
    requires filterIndex < |filter|
    ensures found == SpecialAt(filter, filterIndex)
  {
    found := |filter| >= 3 && filterIndex == |filter| - 3
             && filter[filterIndex + 1] == '/' && filter[filterIndex + 2] == '#';
    if filterIndex == |filter| - 2 && filter[filterIndex] == '/' {
      found := filter[filterIndex + 1] == '+' || filter[filterIndex + 1] == '#';
    }
  }

  // The loop that moves the name index to the end of its level.
  method EndOfLevel(name: string, from: nat) returns (e: nat)
    requires from < |name|
    ensures from <= e <= |name| && DropLevel(name[from..]) == name[e..]
  {
    e := from;
    while e < |name|
      invariant from <= e <= |name| && DropLevel(name[e..]) == DropLevel(name[from..])
    {
      if name[e] == '/' {
        break;
      }
      assert name[e..][1..] == name[e + 1..];
      e := e + 1;
    }
  }

  // matchWildcards, with the two indexes it moves.
  method MatchWildcards(name: string, filter: string, nameIndex: nat, filterIndex: nat)
    returns (stop: bool, found: bool, nameIndex': nat, filterIndex': nat)
    requires nameIndex < |name| && filterIndex < |filter| && name[nameIndex] != filter[filterIndex]
    ensures nameIndex' < |name| && filterIndex' < |filter|
    ensures nameIndex <= nameIndex'
    ensures ScanAt(name, filter, nameIndex, filterIndex)
         == if stop then found else ScanAt(name, filter, nameIndex' + 1, filterIndex' + 1)
    ensures !stop ==> !found
  {
    hide Scan, ScanAt, EndSpecial, DropLevel;
    nameIndex', filterIndex' := nameIndex, filterIndex;
    stop, found := false, false;
    var validLocation := filterIndex == 0 || filter[filterIndex - 1] == '/';
    if filter[filterIndex] == '+' && validLocation {
      var e := EndOfLevel(name, nameIndex);
      ScanAtPlus(name, filter, nameIndex, filterIndex, e);
      var nextInName := e < |name|;
      var nextInFilter := filterIndex + 1 < |filter| && filter[filterIndex + 1] == '/';
      nameIndex' := e;
      if nextInName && !nextInFilter {
        stop := true;
      } else if nextInName {
        filterIndex' := filterIndex + 1;
      } else {
        nameIndex' := nameIndex' - 1;
        ScanAtEnd(name, filter, |name|, filterIndex + 1);
      }
    } else {
      ScanAtOther(name, filter, nameIndex, filterIndex);
      stop := true;
      found := filter[filterIndex] == '#' && filterIndex == |filter| - 1 && validLocation;
    }
  }

  // The body of the loop in matchTopicFilter, up to the increments.
  method MatchOne(name: string, filter: string, nameIndex: nat, filterIndex: nat)
    returns (done: bool, found: bool, nameIndex': nat, filterIndex': nat)
    requires nameIndex < |name| && filterIndex < |filter|
    ensures nameIndex <= nameIndex' < |name| && filterIndex' < |filter|
    ensures ScanAt(name, filter, nameIndex, filterIndex)
         == if done then found else ScanAt(name, filter, nameIndex' + 1, filterIndex' + 1)
    ensures !done ==> !found
  {
    hide Scan, ScanAt, SpecialAt, StartsLevel;
    nameIndex', filterIndex', found := nameIndex, filterIndex, false;
    var stop := false;
    if name[nameIndex] == filter[filterIndex] {
      ScanAtEqual(name, filter, nameIndex, filterIndex);
      if nameIndex == |name| - 1 {
        found := MatchEndWildcards(filter, filterIndex);
      }
    } else {
      stop, found, nameIndex', filterIndex' := MatchWildcards(name, filter, nameIndex, filterIndex);
    }
    done := found || stop;
  }

  // matchTopicFilter.
  method MatchTopicFilter(name: string, filter: string) returns (found: bool)
    requires name != "" && filter != ""
    ensures found == Scan(name, filter, true)
  {
    var nameIndex: nat, filterIndex: nat := 0, 0;
    found := false;
    ScanAtStart(name, filter);
    hide Scan, ScanAt, StartsLevel;
    while nameIndex < |name| && filterIndex < |filter|
      invariant nameIndex <= |name| && filterIndex <= |filter| && !found
      invariant ScanAt(name, filter, nameIndex, filterIndex) == Scan(name, filter, true)
      decreases |name| - nameIndex
    {
      var done;
      done, found, nameIndex, filterIndex := MatchOne(name, filter, nameIndex, filterIndex);
      if done {
        // With the indexes inside, the test behind the loop fails.
        return found;
      }
      nameIndex, filterIndex := nameIndex + 1, filterIndex + 1;
    }
    ScanAtEnd(name, filter, nameIndex, filterIndex);
    found := nameIndex == |name| && filterIndex == |filter|;
  }
}
