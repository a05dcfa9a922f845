/** MQTT topic names and topic filters, as section 4.7 of OASIS MQTT Version 3.1.1
    defines them: levels separated by '/', the single-level wildcard `+` and the
    multi-level wildcard `#`. */
module Topics {

  /** The topic level separator (section 4.7.1.1). */
  const Separator: char := '/'
  /** The multi-level wildcard (section 4.7.1.2). */
  const MultiLevel: string := "#"
  /** The single-level wildcard (section 4.7.1.3). */
  const SingleLevel: string := "+"

  /** Splits a topic name or filter into its levels. Every separator ends a level, so
      "a//b" has an empty middle level, "/a" starts with an empty level and "" is one
      empty level. */
  function Split(s: string): (levels: seq<string>)
    ensures |levels| >= 1
    ensures forall i :: 0 <= i < |levels| ==> Separator !in levels[i]
  {
    if |s| == 0 then [""]
    else
      var rest := Split(s[1..]);
      if s[0] == Separator then [""] + rest
      else [[s[0]] + rest[0]] + rest[1..]
  }

  /** Puts levels back together with a separator between each two. */
  function Join(levels: seq<string>): string
    requires |levels| >= 1
  {
    if |levels| == 1 then levels[0]
    else levels[0] + [Separator] + Join(levels[1..])
  }

  lemma JoinConsChar(c: char, levels: seq<string>)
    requires |levels| >= 1
    ensures Join([[c] + levels[0]] + levels[1..]) == [c] + Join(levels)
  {
  }

  /** Joining the levels of a string gives the string back. */
  lemma {:induction false} JoinSplit(s: string)
    ensures Join(Split(s)) == s
  {
    if |s| > 0 {
      var rest := Split(s[1..]);
      JoinSplit(s[1..]);
      if s[0] == Separator {
        assert ([""] + rest)[1..] == rest;
        assert s == [s[0]] + s[1..];
      } else {
        JoinConsChar(s[0], rest);
        assert s == [s[0]] + s[1..];
      }
    }
  }

  /** Two strings with the same levels are the same string. */
  lemma SplitInjective(a: string, b: string)
    requires Split(a) == Split(b)
    ensures a == b
  {
    JoinSplit(a);
    JoinSplit(b);
  }

  /** Splitting at a separator splits the two sides independently. */
  lemma {:induction false} SplitAppend(a: string, b: string)
    ensures Split(a + [Separator] + b) == Split(a) + Split(b)
  {
    if |a| == 0 {
      assert a + [Separator] + b == [Separator] + b;
      assert ([Separator] + b)[1..] == b;
    } else {
      var s := a + [Separator] + b;
      assert s[1..] == a[1..] + [Separator] + b;
      SplitAppend(a[1..], b);
    }
  }

  /** A string without a separator is a single level. */
  lemma {:induction false} SplitSingle(a: string)
    requires Separator !in a
    ensures Split(a) == [a]
  {
    if |a| > 0 {
      SplitSingle(a[1..]);
      assert a == [a[0]] + a[1..];
    }
  }

  /** Levels that contain no separator survive a join followed by a split. */
  lemma {:induction false} SplitJoin(levels: seq<string>)
    requires |levels| >= 1
    requires forall i :: 0 <= i < |levels| ==> Separator !in levels[i]
    ensures Split(Join(levels)) == levels
  {
    SplitSingle(levels[0]);
    if |levels| > 1 {
      SplitJoin(levels[1..]);
      SplitAppend(levels[0], Join(levels[1..]));
      assert levels == [levels[0]] + levels[1..];
    }
  }

  predicate IsWildcard(level: string) {
    level == SingleLevel || level == MultiLevel
  }

  /** A topic name: at least one character, no wildcard characters (section 4.7.3
      and 4.7.1.1). */
  predicate IsTopicName(topic: string) {
    |topic| >= 1 && '+' !in topic && '#' !in topic
  }

  /** Level-by-level matching of filter levels against topic levels: `+` consumes
      exactly one level, `#` ends the filter and consumes whatever is left, including
      nothing, and every other level must equal the topic level it meets. */
  predicate MatchLevels(filter: seq<string>, topic: seq<string>)
  {
    if |filter| == 0 then |topic| == 0
    else if filter[0] == MultiLevel then |filter| == 1
    else
      && |topic| > 0
      && (filter[0] == SingleLevel || filter[0] == topic[0])
      && MatchLevels(filter[1..], topic[1..])
  }

  /** Whether one filter level accepts one topic level on its own. */
  predicate LevelAccepts(f: string, t: string) {
    f == SingleLevel || f == t
  }

  /** Positional reference definition of a match: either the filter ends in `#` and
      its other levels accept a prefix of the topic, or it has no `#` and accepts the
      topic level for level. */
  ghost predicate MatchesByPosition(filter: seq<string>, topic: seq<string>)
  {
    if |filter| > 0 && filter[|filter| - 1] == MultiLevel then
      && MultiLevel !in filter[..|filter| - 1]
      && |filter| - 1 <= |topic|
      && forall i :: 0 <= i < |filter| - 1 ==> LevelAccepts(filter[i], topic[i])
    else
      && MultiLevel !in filter
      && |filter| == |topic|
      && forall i :: 0 <= i < |filter| ==> LevelAccepts(filter[i], topic[i])
  }

  /** The recursive matcher agrees with the positional definition on all inputs. */
  lemma {:induction false} MatchLevelsByPosition(filter: seq<string>, topic: seq<string>)
    ensures MatchLevels(filter, topic) <==> MatchesByPosition(filter, topic)
  {
    if |filter| == 0 {
    } else if filter[0] == MultiLevel {
      if |filter| > 1 {
        assert filter[..|filter| - 1][0] == MultiLevel;
        assert filter[0] in filter;
      }
    } else if |topic| == 0 {
      assert filter[0] in filter;
      if |filter| > 0 && filter[|filter| - 1] == MultiLevel {
        assert filter[..|filter| - 1][0] == filter[0];
      }
    } else {
      var f', t' := filter[1..], topic[1..];
      MatchLevelsByPosition(f', t');
      assert filter == [filter[0]] + f';
      if filter[|filter| - 1] == MultiLevel {
        assert |f'| > 0 && f'[|f'| - 1] == MultiLevel;
        assert filter[..|filter| - 1] == [filter[0]] + f'[..|f'| - 1];
        if MatchLevels(filter, topic) {
          forall i | 0 <= i < |filter| - 1
            ensures LevelAccepts(filter[i], topic[i])
          {
            if i > 0 { assert LevelAccepts(f'[i - 1], t'[i - 1]); }
          }
        }
        if MatchesByPosition(filter, topic) {
          assert LevelAccepts(filter[0], topic[0]);
          forall i | 0 <= i < |f'| - 1
            ensures LevelAccepts(f'[i], t'[i])
          {
            assert LevelAccepts(filter[i + 1], topic[i + 1]);
          }
        }
      } else {
        if MatchLevels(filter, topic) {
          forall i | 0 <= i < |filter|
            ensures LevelAccepts(filter[i], topic[i])
          {
            if i > 0 { assert LevelAccepts(f'[i - 1], t'[i - 1]); }
          }
        }
        if MatchesByPosition(filter, topic) {
          assert LevelAccepts(filter[0], topic[0]);
          forall i | 0 <= i < |f'|
            ensures LevelAccepts(f'[i], t'[i])
          {
            assert LevelAccepts(filter[i + 1], topic[i + 1]);
          }
        }
      }
    }
  }

  /** Whether a topic filter matches a topic name. A filter whose first level is a
      wildcard never matches a topic name that starts with '$' (section 4.7.2). */
  function Matches(filter: string, topic: string): (b: bool)
    ensures b <==>
              && !(IsWildcard(Split(filter)[0]) && |topic| > 0 && topic[0] == '$')
              && MatchesByPosition(Split(filter), Split(topic))
  {
    var f := Split(filter);
    MatchLevelsByPosition(f, Split(topic));
    && !(IsWildcard(f[0]) && |topic| > 0 && topic[0] == '$')
    && MatchLevels(f, Split(topic))
  }

  /** A filter level list without wildcards matches exactly the topic levels equal to it. */
  lemma {:induction false} LiteralLevels(filter: seq<string>, topic: seq<string>)
    requires forall i :: 0 <= i < |filter| ==> !IsWildcard(filter[i])
    ensures MatchLevels(filter, topic) <==> filter == topic
  {
    if |filter| > 0 && |topic| > 0 {
      LiteralLevels(filter[1..], topic[1..]);
      assert !IsWildcard(filter[0]);
      assert filter == [filter[0]] + filter[1..];
      assert topic == [topic[0]] + topic[1..];
    }
  }

  /** A filter without wildcard levels matches one topic: itself. */
  lemma LiteralFilterMatchesOnlyItself(filter: string, topic: string)
    requires forall i :: 0 <= i < |Split(filter)| ==> !IsWildcard(Split(filter)[i])
    ensures Matches(filter, topic) <==> filter == topic
  {
    LiteralLevels(Split(filter), Split(topic));
    if Split(filter) == Split(topic) {
      SplitInjective(filter, topic);
    }
  }

  lemma TopicNameLevels(topic: string)
    requires IsTopicName(topic)
    ensures forall i :: 0 <= i < |Split(topic)| ==> !IsWildcard(Split(topic)[i])
  {
    JoinSplit(topic);
    forall i | 0 <= i < |Split(topic)|
      ensures !IsWildcard(Split(topic)[i])
    {
      LevelInJoin(Split(topic), i);
    }
  }

  lemma {:induction false} LevelInJoin(levels: seq<string>, i: nat)
    requires |levels| >= 1 && i < |levels|
    ensures forall c :: c in levels[i] ==> c in Join(levels)
  {
    if |levels| > 1 {
      if i > 0 {
        LevelInJoin(levels[1..], i - 1);
      }
    }
  }

  /** `#` after a topic matches the topic itself (the parent level) and every topic
      below it (section 4.7.1.2). */
  lemma MultiLevelMatchesParentAndChildren(topic: string, below: string)
    requires IsTopicName(topic)
    ensures Matches(topic + "/#", topic)
    ensures Matches(topic + "/#", topic + "/" + below)
  {
    var t := Split(topic);
    TopicNameLevels(topic);
    SplitAppend(topic, MultiLevel);
    SplitSingle(MultiLevel);
    assert topic + "/#" == topic + [Separator] + MultiLevel;
    assert topic + "/" + below == topic + [Separator] + below;
    SplitAppend(topic, below);
    var f := Split(topic + "/#");
    assert f == t + [MultiLevel];
    assert f[0] == t[0];
    assert f[..|f| - 1] == t;
    MatchLevelsByPosition(f, t);
    MatchLevelsByPosition(f, t + Split(below));
  }

  /** `+` after a topic matches every topic exactly one level below it, and not the
      topic itself (section 4.7.1.3). */
  lemma SingleLevelMatchesExactlyOneLevel(topic: string, level: string)
    requires IsTopicName(topic)
    requires Separator !in level
    ensures Matches(topic + "/+", topic + "/" + level)
    ensures !Matches(topic + "/+", topic)
  {
    var t := Split(topic);
    TopicNameLevels(topic);
    assert topic + "/+" == topic + [Separator] + SingleLevel;
    assert topic + "/" + level == topic + [Separator] + level;
    SplitAppend(topic, SingleLevel);
    SplitAppend(topic, level);
    SplitSingle(SingleLevel);
    SplitSingle(level);
    var f := Split(topic + "/+");
    assert f == t + [SingleLevel];
    assert f[0] == t[0];
    MatchLevelsByPosition(f, t + [level]);
    MatchLevelsByPosition(f, t);
  }

  /** The filter `#` on its own matches every topic except those starting with '$'
      (sections 4.7.1.2 and 4.7.2). */
  lemma MultiLevelAlone(topic: string)
    ensures Matches("#", topic) <==> !(|topic| > 0 && topic[0] == '$')
  {
  }

  /** The levels of a string written out as the join of separator-free levels. */
  lemma LevelsOf(s: string, levels: seq<string>)
    requires |levels| >= 1
    requires forall i :: 0 <= i < |levels| ==> Separator !in levels[i]
    requires s == Join(levels)
    ensures Split(s) == levels
  {
    SplitJoin(levels);
  }

  /** Examples of section 4.7.1.2, on levels. */
  lemma MultiLevelExamples()
    ensures MatchLevels(["sport", "tennis", "player1", "#"], ["sport", "tennis", "player1"])
    ensures MatchLevels(["sport", "tennis", "player1", "#"], ["sport", "tennis", "player1", "ranking"])
    ensures MatchLevels(["sport", "tennis", "player1", "#"],
                        ["sport", "tennis", "player1", "score", "wimbledon"])
    ensures MatchLevels(["sport", "#"], ["sport"])
  {
  }

  /** Examples of section 4.7.1.3, on levels; "/finance" has the levels "" and "finance". */
  lemma SingleLevelExamples()
    ensures MatchLevels(["sport", "tennis", "+"], ["sport", "tennis", "player1"])
    ensures !MatchLevels(["sport", "tennis", "+"], ["sport", "tennis", "player1", "ranking"])
    ensures !MatchLevels(["sport", "+"], ["sport"])
    ensures MatchLevels(["sport", "+"], ["sport", ""])
    ensures MatchLevels(["+", "+"], ["", "finance"])
    ensures MatchLevels(["", "+"], ["", "finance"])
    ensures !MatchLevels(["+"], ["", "finance"])
  {
    MatchLevelsByPosition(["sport", "tennis", "+"], ["sport", "tennis", "player1"]);
    MatchLevelsByPosition(["sport", "tennis", "+"], ["sport", "tennis", "player1", "ranking"]);
  }

  /** Examples of section 4.7.2: a filter starting with a wildcard does not reach a
      '$' topic. */
  lemma DollarHiddenFromWildcards(all: string, anyMonitor: string, topic: string)
    requires all == "#" && anyMonitor == "+/monitor/Clients"
    requires topic == "$SYS/monitor/Clients"
    ensures !Matches(all, topic) && !Matches(anyMonitor, topic)
  {
    LevelsOf(all, ["#"]);
    LevelsOf(anyMonitor, ["+", "monitor", "Clients"]);
  }

  /** Example of section 4.7.2: a filter that spells out the '$' level does reach it. */
  lemma DollarSpelledOut(sys: string, topic: string)
    requires sys == "$SYS/#"
    requires topic == "$SYS/monitor/Clients"
    ensures Matches(sys, topic)
  {
    LevelsOf(sys, ["$SYS", "#"]);
    LevelsOf(topic, ["$SYS", "monitor", "Clients"]);
    assert !IsWildcard("$SYS");
    assert MatchLevels(["#"], ["monitor", "Clients"]);
  }
}
