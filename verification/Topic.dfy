/** Topics and topic filters: lib/util_topic.c and mosquitto_sub_topic_tokenise of lib/mosquitto.c, against the
    level-by-level description of section 4.7 of MQTT 5.0. */
module Topic {
  import opened MosqTypes

  /** A C string without its terminator. */
  type CString = s: string | '\0' !in s

  /** str[i], which may also be the terminator */
  function CharAt(s: CString, i: nat): char
    requires i <= |s|
  {
    if i < |s| then s[i] else '\0'
  }

  // ---------------------------------------------------------------------------------------------
  // Levels
  // ---------------------------------------------------------------------------------------------

  /** The levels between the '/' separators; there is always at least one. */
  function Levels(s: string): (r: seq<string>)
    ensures r != []
  {
    if s == "" then [""]
    else
      var rest := Levels(s[1..]);
      if s[0] == '/' then [""] + rest else [[s[0]] + rest[0]] + rest[1..]
  }

  function Join(levels: seq<string>): string {
    if levels == [] then ""
    else if |levels| == 1 then levels[0]
    else levels[0] + "/" + Join(levels[1..])
  }

  predicate IsWild(c: char) {
    c == '+' || c == '#'
  }

  predicate HasWild(s: string) {
    exists i :: 0 <= i < |s| && IsWild(s[i])
  }

  /** Wildcards fill a whole level, and '#' is the last one (section 4.7.1). */
  predicate FilterLevelsOk(f: seq<string>) {
    forall k :: 0 <= k < |f| && HasWild(f[k]) ==> f[k] == "+" || (f[k] == "#" && k == |f| - 1)
  }

  predicate ValidFilter(sub: string) {
    FilterLevelsOk(Levels(sub))
  }

  predicate ValidTopic(topic: string) {
    !HasWild(topic)
  }

  /** Level by level: '+' matches any one level, '#' any rest including none, so also the parent level. */
  predicate LevelsMatch(f: seq<string>, t: seq<string>) {
    if f == [] then t == []
    else if f[0] == "#" then true
    else t != [] && (f[0] == "+" || f[0] == t[0]) && LevelsMatch(f[1..], t[1..])
  }

  /** A filter that starts with a wildcard does not match a topic that starts with '$' (section 4.7.2). */
  predicate Matches(sub: string, topic: string)
    requires sub != "" && topic != ""
  {
    LevelsMatch(Levels(sub), Levels(topic)) && !(topic[0] == '$' && IsWild(sub[0]))
  }

  lemma JoinAfterSlash(rest: seq<string>)
    requires rest != []
    ensures Join([""] + rest) == "/" + Join(rest)
  {
    assert ([""] + rest)[1..] == rest;
    assert "" + "/" == "/";
  }

  lemma JoinAfterChar(c: char, rest: seq<string>)
    requires rest != []
    ensures Join([[c] + rest[0]] + rest[1..]) == [c] + Join(rest)
  {
    var all := [[c] + rest[0]] + rest[1..];
    if |rest| == 1 {
      assert all == [[c] + rest[0]];
    } else {
      assert all[1..] == rest[1..];
      assert [c] + rest[0] + "/" + Join(rest[1..]) == [c] + (rest[0] + "/" + Join(rest[1..]));
    }
  }

  lemma {:induction false} JoinLevels(s: string)
    ensures Join(Levels(s)) == s
  {
    hide Join;
    if s == "" {
      JoinOne("");
    } else {
      JoinLevels(s[1..]);
      if s[0] == '/' {
        JoinAfterSlash(Levels(s[1..]));
      } else {
        JoinAfterChar(s[0], Levels(s[1..]));
      }
    }
  }

  lemma JoinOne(s: string)
    ensures Join([s]) == s
  {
  }

  /** Joining is undone by taking levels, for any list of levels that contain no separator. */
  lemma {:induction false} LevelsJoin(levels: seq<string>)
    requires levels != [] && forall k :: 0 <= k < |levels| ==> '/' !in levels[k]
    ensures Levels(Join(levels)) == levels
    decreases |levels|
  {
    if |levels| == 1 {
      LevelsAppend(levels[0], "");
      assert levels[0] + "" == levels[0];
    } else {
      LevelsJoin(levels[1..]);
      LevelsAppend(levels[0], "/" + Join(levels[1..]));
      assert ("/" + Join(levels[1..]))[1..] == Join(levels[1..]);
      assert levels[0] + "/" + Join(levels[1..]) == levels[0] + ("/" + Join(levels[1..]));
    }
  }

  lemma {:induction false} LevelsAppend(a: string, b: string)
    requires '/' !in a
    requires b == "" || b[0] == '/'
    ensures Levels(a + b) == [a] + if b == "" then [] else Levels(b[1..])
  {
    if a == "" {
      assert a + b == b;
    } else {
      assert (a + b)[1..] == a[1..] + b;
      LevelsAppend(a[1..], b);
      assert a == [a[0]] + a[1..];
    }
  }

  // ---------------------------------------------------------------------------------------------
  // The checks
  // ---------------------------------------------------------------------------------------------

  /** What the checks look at: each wildcard with its neighbours. */
  predicate WildOkAt(s: string, i: nat)
    requires i < |s|
  {
    && (s[i] == '+' ==> (i == 0 || s[i - 1] == '/') && (i + 1 == |s| || s[i + 1] == '/'))
    && (s[i] == '#' ==> (i == 0 || s[i - 1] == '/') && i + 1 == |s|)
  }

  predicate WildsOk(s: string) {
    forall i :: 0 <= i < |s| ==> WildOkAt(s, i)
  }

  /** The same for a string that does not start at the beginning of a level. */
  predicate WildsOkMidLevel(s: string) {
    (s != "" ==> !IsWild(s[0])) && (forall i :: 1 <= i < |s| ==> WildOkAt(s, i))
  }

  lemma {:induction false} WildsByLevel(s: string)
    ensures WildsOk(s) <==> FilterLevelsOk(Levels(s))
    ensures WildsOkMidLevel(s) <==> FilterLevelsOk(Levels(s)) && !HasWild(Levels(s)[0])
  {
    if s != "" {
      var rest, f := s[1..], Levels(s);
      var g := Levels(rest);
      WildsByLevel(rest);
      assert forall i :: 0 <= i < |rest| ==> rest[i] == s[i + 1];
      if s[0] == '/' {
        SlashThenLevels(s);
      } else if !IsWild(s[0]) {
        PlainThenLevels(s);
      } else {
        WildThenLevels(s);
      }
    } else {
      assert !HasWild("");
    }
  }

  lemma SlashThenLevels(s: string)
    requires s != "" && s[0] == '/'
    ensures WildsOk(s) <==> WildsOk(s[1..])
    ensures WildsOkMidLevel(s) <==> WildsOk(s[1..])
    ensures FilterLevelsOk(Levels(s)) <==> FilterLevelsOk(Levels(s[1..]))
    ensures !HasWild(Levels(s)[0])
  {
    var rest, f, g := s[1..], Levels(s), Levels(s[1..]);
    assert forall i :: 0 <= i < |rest| ==> (WildOkAt(rest, i) <==> WildOkAt(s, i + 1));
    if WildsOk(rest) {
      forall i | 0 <= i < |s|
        ensures WildOkAt(s, i)
      {
        if i > 0 {
          assert WildOkAt(rest, i - 1);
        }
      }
    }
    assert forall k :: 0 <= k < |g| ==> f[k + 1] == g[k];
    if FilterLevelsOk(g) {
      forall k | 0 <= k < |f| && HasWild(f[k])
        ensures f[k] == "+" || (f[k] == "#" && k == |f| - 1)
      {
        if k > 0 {
          assert f[k] == g[k - 1];
        }
      }
    }
  }

  lemma PlainThenChars(s: string)
    requires s != "" && s[0] != '/' && !IsWild(s[0])
    ensures WildsOk(s) <==> WildsOkMidLevel(s[1..])
    ensures WildsOkMidLevel(s) <==> WildsOkMidLevel(s[1..])
  {
    var rest := s[1..];
    assert forall i :: 1 <= i < |rest| ==> (WildOkAt(rest, i) <==> WildOkAt(s, i + 1));
    if WildsOkMidLevel(rest) {
      forall i | 0 <= i < |s|
        ensures WildOkAt(s, i)
      {
        if i > 1 {
          assert WildOkAt(rest, i - 1);
        }
      }
    }
    if WildsOkMidLevel(s) && rest != "" {
      assert WildOkAt(s, 1);
    }
  }

  lemma PrependPlain(c: char, level: string)
    requires !IsWild(c)
    ensures HasWild([c] + level) <==> HasWild(level)
    ensures [c] + level != "+" && [c] + level != "#"
  {
    var l := [c] + level;
    assert l[0] == c;
    assert forall i :: 0 <= i < |level| ==> l[i + 1] == level[i];
    if HasWild(l) {
      var i :| 0 <= i < |l| && IsWild(l[i]);
      assert i > 0 && l[(i - 1) + 1] == level[i - 1];
    }
  }

  lemma PlainThenLevels(s: string)
    requires s != "" && s[0] != '/' && !IsWild(s[0])
    ensures WildsOk(s) <==> WildsOkMidLevel(s[1..])
    ensures WildsOkMidLevel(s) <==> WildsOkMidLevel(s[1..])
    ensures FilterLevelsOk(Levels(s)) <==> FilterLevelsOk(Levels(s[1..])) && !HasWild(Levels(s[1..])[0])
    ensures HasWild(Levels(s)[0]) <==> HasWild(Levels(s[1..])[0])
  {
    hide WildsOk, WildsOkMidLevel, HasWild;
    PlainThenChars(s);
    var f, g := Levels(s), Levels(s[1..]);
    PrependPlain(s[0], g[0]);
    assert f[0] == [s[0]] + g[0];
    assert forall k :: 1 <= k < |g| ==> f[k] == g[k];
    if FilterLevelsOk(f) {
      assert !HasWild(f[0]);
    }
  }

  lemma WildThenLevels(s: string)
    requires s != "" && IsWild(s[0])
    ensures var rest := s[1..];
      && (WildsOk(s) <==> if s[0] == '#' then rest == "" else (rest == "" || rest[0] == '/') && WildsOkMidLevel(rest))
      && !WildsOkMidLevel(s)
      && HasWild(Levels(s)[0])
      && (FilterLevelsOk(Levels(s)) <==>
            if s[0] == '#' then rest == ""
            else (rest == "" || rest[0] == '/') && FilterLevelsOk(Levels(rest)) && !HasWild(Levels(rest)[0]))
  {
    var rest, f, g := s[1..], Levels(s), Levels(s[1..]);
    assert forall i :: 1 <= i < |rest| ==> (WildOkAt(rest, i) <==> WildOkAt(s, i + 1));
    if rest != "" && rest[0] == '/' && WildsOkMidLevel(rest) && s[0] == '+' {
      forall i | 0 <= i < |s|
        ensures WildOkAt(s, i)
      {
        if i > 1 {
          assert WildOkAt(rest, i - 1);
        }
      }
    }
    if WildsOk(s) {
      assert WildOkAt(s, 0);
    }
    assert f[0] == [s[0]] + g[0] && IsWild(f[0][0]);
    assert forall k :: 1 <= k < |g| ==> f[k] == g[k];
    assert g[0] == "" <==> rest == "" || rest[0] == '/';
    if g[0] != "" {
      assert |f[0]| > 1;
    }
  }

  /** mosquitto_pub_topic_check */
  method PubTopicCheck(str: CString) returns (rc: Rc)
    ensures rc == if ValidTopic(str) && |str| <= 65535 then Success else Inval
  {
    var len := 0;
    while CharAt(str, len) != '\0'
      decreases |str| - len
      invariant 0 <= len <= |str|
      invariant forall i :: 0 <= i < len ==> !IsWild(str[i])
    {
      if str[len] == '+' || str[len] == '#' {
        return Inval;
      }
      len := len + 1;
    }
    if len > 65535 {
      return Inval;
    }
    return Success;
  }

  /** mosquitto_pub_topic_check2 */
  method PubTopicCheck2(str: string) returns (rc: Rc)
    ensures rc == if ValidTopic(str) && |str| <= 65535 then Success else Inval
  {
    if |str| > 65535 {
      return Inval;
    }
    var i := 0;
    while i < |str|
      invariant 0 <= i <= |str|
      invariant forall k :: 0 <= k < i ==> !IsWild(str[k])
    {
      if str[i] == '+' || str[i] == '#' {
        return Inval;
      }
      i := i + 1;
    }
    return Success;
  }

  /** mosquitto_sub_topic_check */
  method SubTopicCheck(str: CString) returns (rc: Rc)
    ensures rc == if ValidFilter(str) && |str| <= 65535 then Success else Inval
  {
    WildsByLevel(str);
    var c := '\0';
    var len := 0;
    while CharAt(str, len) != '\0'
      decreases |str| - len
      invariant 0 <= len <= |str|
      invariant c == if len == 0 then '\0' else str[len - 1]
      invariant forall i :: 0 <= i < len ==> WildOkAt(str, i)
    {
      if str[len] == '+' {
        if (c != '\0' && c != '/') || (CharAt(str, len + 1) != '\0' && CharAt(str, len + 1) != '/') {
          assert !WildOkAt(str, len);
          return Inval;
        }
      } else if str[len] == '#' {
        if (c != '\0' && c != '/') || CharAt(str, len + 1) != '\0' {
          assert !WildOkAt(str, len);
          return Inval;
        }
      }
      c := str[len];
      len := len + 1;
    }
    if len > 65535 {
      return Inval;
    }
    return Success;
  }

  /** A string that is given with its length may have a NUL inside. Before a wildcard it is taken for the beginning of the
      string, as if it were a separator; behind one it is a character like any other. */
  function NulAsSlash(s: string): (r: string)
    ensures |r| == |s|
    ensures '\0' !in s ==> r == s
  {
    seq(|s|, i requires 0 <= i < |s| =>
      if s[i] == '\0' && i + 1 < |s| && IsWild(s[i + 1]) && (i == 0 || s[i - 1] != '+') then '/' else s[i])
  }

  /** mosquitto_sub_topic_check2 */
  method SubTopicCheck2(str: string) returns (rc: Rc)
    ensures rc == if ValidFilter(NulAsSlash(str)) && |str| <= 65535 then Success else Inval
  {
    ghost var read := NulAsSlash(str);
    WildsByLevel(read);
    if |str| > 65535 {
      return Inval;
    }
    var c := '\0';
    var i := 0;
    while i < |str|
      invariant 0 <= i <= |str|
      invariant c == if i == 0 then '\0' else str[i - 1]
      invariant forall k :: 0 <= k < i ==> WildOkAt(read, k)
    {
      assert i > 1 ==> WildOkAt(read, i - 2);
      if str[i] == '+' {
        if (c != '\0' && c != '/') || (i < |str| - 1 && str[i + 1] != '/') {
          assert !WildOkAt(read, i);
          return Inval;
        }
      } else if str[i] == '#' {
        if (c != '\0' && c != '/') || i < |str| - 1 {
          assert !WildOkAt(read, i);
          return Inval;
        }
      }
      c := str[i];
      i := i + 1;
    }
    return Success;
  }

  // ---------------------------------------------------------------------------------------------
  // The matcher
  // ---------------------------------------------------------------------------------------------

  /** What is left of both strings matches exactly if the whole strings match. */
  ghost predicate SameQuestion(sub: string, i: nat, topic: string, j: nat) {
    && i <= |sub| && j <= |topic|
    && LevelsMatch(Levels(sub), Levels(topic)) == LevelsMatch(Levels(sub[i..]), Levels(topic[j..]))
  }

  lemma StartQuestion(sub: string, topic: string)
    ensures SameQuestion(sub, 0, topic, 0)
  {
    assert sub[0..] == sub && topic[0..] == topic;
  }

  /** The level that goes on at index i, and the levels after it. */
  function Here(s: string, i: nat): string
    requires i <= |s|
  {
    Levels(s[i..])[0]
  }

  function Beyond(s: string, i: nat): seq<string>
    requires i <= |s|
  {
    Levels(s[i..])[1..]
  }

  lemma LevelsAt(s: string, i: nat)
    requires i <= |s|
    ensures Levels(s[i..]) == [Here(s, i)] + Beyond(s, i)
    ensures i == |s| ==> Here(s, i) == "" && Beyond(s, i) == []
    ensures i < |s| && s[i] == '/' ==> Here(s, i) == "" && Beyond(s, i) == Levels(s[i + 1..])
    ensures i < |s| && s[i] != '/' ==> Here(s, i) == [s[i]] + Here(s, i + 1) && Beyond(s, i) == Beyond(s, i + 1)
  {
    if i < |s| {
      assert s[i..][1..] == s[i + 1..];
    } else {
      assert s[i..] == "";
    }
  }

  /** Level matching, one level at a time. */
  lemma MatchAt(sub: string, i: nat, topic: string, j: nat)
    requires i <= |sub| && j <= |topic|
    ensures LevelsMatch(Levels(sub[i..]), Levels(topic[j..])) <==>
      || Here(sub, i) == "#"
      || ((Here(sub, i) == "+" || Here(sub, i) == Here(topic, j)) && LevelsMatch(Beyond(sub, i), Beyond(topic, j)))
  {
  }

  /** The first level of what follows a literal character is not a wildcard. */
  lemma NoWildAfterLiteral(sub: string, i: nat)
    requires WildsOk(sub) && i < |sub| && !IsWild(sub[i]) && sub[i] != '/'
    ensures Here(sub, i + 1) != "+" && Here(sub, i + 1) != "#"
  {
    hide Here, Beyond, Levels;
    LevelsAt(sub, i + 1);
    if i + 1 < |sub| && sub[i + 1] != '/' {
      assert WildOkAt(sub, i + 1);
      assert Here(sub, i + 1)[0] == sub[i + 1];
    }
  }

  lemma EqualChars(sub: string, i: nat, topic: string, j: nat)
    requires WildsOk(sub) && SameQuestion(sub, i, topic, j)
    requires i < |sub| && j < |topic| && sub[i] == topic[j] && !IsWild(sub[i])
    ensures SameQuestion(sub, i + 1, topic, j + 1)
  {
    hide Here, Beyond, Levels, LevelsMatch;
    LevelsAt(sub, i);
    LevelsAt(topic, j);
    MatchAt(sub, i, topic, j);
    MatchAt(sub, i + 1, topic, j + 1);
    if sub[i] != '/' {
      NoWildAfterLiteral(sub, i);
      assert Here(sub, i)[1..] == Here(sub, i + 1) && Here(topic, j)[1..] == Here(topic, j + 1);
      assert Here(sub, i)[0] == sub[i];
    }
  }

  lemma AfterPlus(sub: string, i: nat, topic: string, j: nat, j': nat)
    requires WildsOk(sub) && SameQuestion(sub, i, topic, j) && i < |sub| && sub[i] == '+'
    requires j <= j' <= |topic| && (j' == |topic| || topic[j'] == '/')
    requires Beyond(topic, j) == Beyond(topic, j')
    ensures SameQuestion(sub, i + 1, topic, j')
  {
    hide Here, Beyond, Levels, LevelsMatch;
    assert WildOkAt(sub, i);
    LevelsAt(sub, i);
    LevelsAt(sub, i + 1);
    LevelsAt(topic, j');
    MatchAt(sub, i, topic, j);
    MatchAt(sub, i + 1, topic, j');
    assert ['+'] + Here(sub, i + 1) == "+";
  }

  lemma HashMatches(sub: string, i: nat, topic: string, j: nat)
    requires WildsOk(sub) && SameQuestion(sub, i, topic, j) && i < |sub| && sub[i] == '#'
    ensures i + 1 == |sub| && LevelsMatch(Levels(sub), Levels(topic))
  {
    hide Here, Beyond, Levels, LevelsMatch;
    assert WildOkAt(sub, i);
    LevelsAt(sub, i);
    LevelsAt(sub, i + 1);
    MatchAt(sub, i, topic, j);
    assert ['#'] + Here(sub, i + 1) == "#";
  }

  lemma RestIsHash(f: seq<string>, t: seq<string>)
    requires f != [] && f[0] == "#"
    ensures LevelsMatch(f, t)
  {
  }

  /** "/#" matches the parent level. */
  lemma ParentMatches(sub: string, i: nat, topic: string)
    requires WildsOk(sub) && SameQuestion(sub, i, topic, |topic|)
    requires i + 1 < |sub| && sub[i] == '/' && sub[i + 1] == '#'
    ensures LevelsMatch(Levels(sub), Levels(topic))
  {
    hide Here, Beyond, Levels, LevelsMatch;
    assert WildOkAt(sub, i + 1);
    LevelsAt(sub, i);
    LevelsAt(sub, i + 1);
    LevelsAt(sub, i + 2);
    LevelsAt(topic, |topic|);
    assert ['#'] + Here(sub, i + 2) == "#";
    RestIsHash(Beyond(sub, i), []);
    MatchAt(sub, i, topic, |topic|);
  }

  lemma NothingMatches()
    ensures LevelsMatch([], [])
  {
  }

  lemma BothEnded(sub: string, topic: string)
    requires SameQuestion(sub, |sub|, topic, |topic|)
    ensures LevelsMatch(Levels(sub), Levels(topic))
  {
    hide Here, Beyond, Levels, LevelsMatch;
    LevelsAt(sub, |sub|);
    LevelsAt(topic, |topic|);
    MatchAt(sub, |sub|, topic, |topic|);
    NothingMatches();
  }

  lemma PlusAtEnd(sub: string, i: nat, topic: string)
    requires SameQuestion(sub, i, topic, |topic|) && i + 1 == |sub| && sub[i] == '+'
    ensures LevelsMatch(Levels(sub), Levels(topic))
  {
    hide Here, Beyond, Levels, LevelsMatch;
    LevelsAt(sub, i);
    LevelsAt(sub, i + 1);
    LevelsAt(topic, |topic|);
    MatchAt(sub, i, topic, |topic|);
    assert ['+'] + Here(sub, i + 1) == "+";
    NothingMatches();
  }

  lemma NoneMatchesSome(t: seq<string>)
    requires t != []
    ensures !LevelsMatch([], t)
  {
  }

  /** The filter has ended and the topic has not. */
  lemma TopicLeft(sub: string, topic: string, j: nat)
    requires SameQuestion(sub, |sub|, topic, j) && j < |topic|
    ensures !LevelsMatch(Levels(sub), Levels(topic))
  {
    hide Here, Beyond, Levels, LevelsMatch;
    LevelsAt(sub, |sub|);
    LevelsAt(topic, j);
    MatchAt(sub, |sub|, topic, j);
    if topic[j] == '/' {
      NoneMatchesSome(Beyond(topic, j));
    } else {
      assert Here(topic, j)[0] == topic[j];
    }
  }

  lemma SomeMatchesNone(f: seq<string>)
    requires f != [] && f[0] != "#"
    ensures !LevelsMatch(f, [])
  {
  }

  /** A literal character that the topic does not have at this place, and not the "/#" of a parent level */
  lemma NoMatchHere(sub: string, i: nat, topic: string, j: nat)
    requires WildsOk(sub) && SameQuestion(sub, i, topic, j)
    requires i < |sub| && !IsWild(sub[i]) && (j == |topic| || sub[i] != topic[j])
    requires !(j == |topic| && sub[i] == '/' && i + 1 < |sub| && sub[i + 1] == '#')
    ensures !LevelsMatch(Levels(sub), Levels(topic))
  {
    hide Here, Beyond, Levels, LevelsMatch;
    LevelsAt(sub, i);
    LevelsAt(topic, j);
    MatchAt(sub, i, topic, j);
    if sub[i] != '/' {
      assert Here(sub, i)[0] == sub[i];
      if j < |topic| && topic[j] != '/' {
        assert Here(topic, j)[0] == topic[j];
      }
    } else if j < |topic| {
      assert Here(topic, j)[0] == topic[j];
    } else {
      LevelsAt(sub, i + 1);
      if i + 1 < |sub| && sub[i + 1] != '/' {
        assert Here(sub, i + 1)[0] == sub[i + 1];
      }
      SomeMatchesNone(Beyond(sub, i));
    }
  }

  /** If exactly one of the two starts with '$' there is no match. */
  lemma DollarApart(sub: string, topic: string)
    requires sub != "" && topic != "" && (sub[0] == '$') != (topic[0] == '$')
    requires WildsOk(sub)
    ensures !Matches(sub, topic)
  {
    if !IsWild(sub[0]) {
      assert sub[0..] == sub && topic[0..] == topic;
      NoMatchHere(sub, 0, topic, 0);
    } else {
      assert topic[0] == '$';
    }
  }

  /** mosquitto_topic_matches_sub2. For a filter and a topic that pass the checks it succeeds, and answers what the
      levels say; whatever it is given, it reads no character behind a terminator. */
  method TopicMatchesSub(sub: CString, topic: CString) returns (rc: Rc, result: bool)
    ensures sub == "" || topic == "" ==> rc == Inval
    ensures rc != Success ==> !result
    ensures sub != "" && topic != "" && ValidFilter(sub) && ValidTopic(topic) ==>
      rc == Success && result == Matches(sub, topic)
  {
    hide SameQuestion, LevelsMatch, Levels, Here, Beyond, FilterLevelsOk;
    result := false;
    if CharAt(sub, 0) == '\0' || CharAt(topic, 0) == '\0' {
      return Inval, result;
    }
    ghost var valid := ValidFilter(sub) && ValidTopic(topic);
    WildsByLevel(sub);
    if (sub[0] == '$' && topic[0] != '$') || (topic[0] == '$' && sub[0] != '$') {
      if valid {
        DollarApart(sub, topic);
      }
      return Success, result;
    }
    var i, j := 0, 0;
    StartQuestion(sub, topic);
    while CharAt(sub, i) != '\0'
      decreases |sub| - i
      invariant 0 <= i <= |sub| && 0 <= j <= |topic| && !result
      invariant !(i == |sub| && j == |topic|)
      invariant valid ==> SameQuestion(sub, i, topic, j)
      invariant valid && j == |topic| && i + 1 < |sub| && sub[i] == '/' && sub[i + 1] == '#' ==> 0 < i && sub[i - 1] == '+'
    {
      assert valid ==> WildOkAt(sub, i);
      if CharAt(topic, j) == '+' || CharAt(topic, j) == '#' {
        assert !valid;
        return Inval, result;
      }
      if sub[i] != CharAt(topic, j) || CharAt(topic, j) == '\0' {
        if sub[i] == '+' {
          if i > 0 && sub[i - 1] != '/' {
            return Inval, result;
          }
          if CharAt(sub, i + 1) != '\0' && CharAt(sub, i + 1) != '/' {
            return Inval, result;
          }
          var k := j;
          while CharAt(topic, k) != '\0' && CharAt(topic, k) != '/'
            decreases |topic| - k
            invariant j <= k <= |topic|
            invariant Beyond(topic, j) == Beyond(topic, k)
          {
            LevelsAt(topic, k);
            k := k + 1;
          }
          if valid {
            AfterPlus(sub, i, topic, j, k);
          }
          i, j := i + 1, k;
          if CharAt(topic, j) == '\0' && CharAt(sub, i) == '\0' {
            if valid {
              BothEnded(sub, topic);
            }
            return Success, true;
          }
        } else if sub[i] == '#' {
          if i > 0 && sub[i - 1] != '/' {
            return Inval, result;
          }
          if CharAt(sub, i + 1) != '\0' {
            return Inval, result;
          } else {
            if valid {
              HashMatches(sub, i, topic, j);
            }
            return Success, true;
          }
        } else {
          if CharAt(topic, j) == '\0' && i > 0 && sub[i - 1] == '+' && sub[i] == '/' && CharAt(sub, i + 1) == '#' {
            if valid {
              ParentMatches(sub, i, topic);
            }
            return Success, true;
          }
          if valid {
            NoMatchHere(sub, i, topic, j);
          }
          while CharAt(sub, i) != '\0'
            decreases |sub| - i
            invariant 0 <= i <= |sub|
          {
            assert valid ==> WildOkAt(sub, i);
            if sub[i] == '#' && CharAt(sub, i + 1) != '\0' {
              return Inval, result;
            }
            i := i + 1;
          }
          return Success, result;
        }
      } else {
        if valid {
          EqualChars(sub, i, topic, j);
        }
        if CharAt(topic, j + 1) == '\0' {
          if CharAt(sub, i + 1) == '/' && CharAt(sub, i + 2) == '#' && CharAt(sub, i + 3) == '\0' {
            if valid {
              ParentMatches(sub, i + 1, topic);
            }
            return Success, true;
          }
          assert valid && i + 2 < |sub| ==> WildOkAt(sub, i + 2);
        }
        i, j := i + 1, j + 1;
        if CharAt(sub, i) == '\0' && CharAt(topic, j) == '\0' {
          if valid {
            BothEnded(sub, topic);
          }
          return Success, true;
        } else if CharAt(topic, j) == '\0' && CharAt(sub, i) == '+' && CharAt(sub, i + 1) == '\0' {
          assert valid ==> WildOkAt(sub, i);
          if i > 0 && sub[i - 1] != '/' {
            return Inval, result;
          }
          if valid {
            PlusAtEnd(sub, i, topic);
          }
          return Success, true;
        }
      }
    }
    if valid {
      TopicLeft(sub, topic, j);
    }
    return Success, result;
  }

  // ---------------------------------------------------------------------------------------------
  // The tokeniser
  // ---------------------------------------------------------------------------------------------

  function SlashCount(s: string): nat {
    if s == "" then 0 else SlashCount(s[1..]) + if s[0] == '/' then 1 else 0
  }

  lemma {:induction false} LevelCount(s: string)
    ensures |Levels(s)| == SlashCount(s) + 1
  {
    if s != "" {
      LevelCount(s[1..]);
    }
  }

  /** The token for a level; an empty one is a null pointer. */
  function Token(level: string): Option<string> {
    if level == "" then None else Some(level)
  }

  lemma CutLevel(s: string, start: nat, stop: nat)
    requires start <= stop <= |s| && (stop == |s| || s[stop] == '/')
    requires '/' !in s[start..stop]
    ensures Levels(s[start..]) == [s[start..stop]] + if stop == |s| then [] else Levels(s[stop + 1..])
  {
    hide Levels;
    LevelsAppend(s[start..stop], s[stop..]);
    assert s[start..stop] + s[stop..] == s[start..];
    if stop < |s| {
      assert s[stop..][1..] == s[stop + 1..];
    }
  }

  /** One more token cut off */
  lemma CutNext(s: string, done: seq<string>, start: nat, stop: nat)
    requires start <= stop <= |s| && (stop == |s| || s[stop] == '/')
    requires '/' !in s[start..stop]
    requires Levels(s) == done + Levels(s[start..])
    ensures Levels(s) == done + [s[start..stop]] + if stop == |s| then [] else Levels(s[stop + 1..])
  {
    hide Levels;
    CutLevel(s, start, stop);
  }

  lemma TokenOf(s: string, start: nat, stop: nat)
    requires start <= stop <= |s|
    ensures Token(s[start..stop]) == if start != stop then Some(s[start..stop]) else None
  {
  }

  /** The level that a token stands for */
  function LevelOf(token: Option<string>): string {
    if token.Some? then token.value else ""
  }

  /** Joining what the tokeniser returns restores the string. */
  lemma JoinTokens(s: string, tokens: seq<Option<string>>)
    requires |tokens| == |Levels(s)|
    requires forall k :: 0 <= k < |tokens| ==> tokens[k] == Token(Levels(s)[k])
    ensures Join(seq(|tokens|, k requires 0 <= k < |tokens| => LevelOf(tokens[k]))) == s
  {
    JoinLevels(s);
    assert seq(|tokens|, k requires 0 <= k < |tokens| => LevelOf(tokens[k])) == Levels(s);
  }

  /** The first pass: how many tokens there will be */
  method CountTokens(s: CString) returns (count: nat)
    ensures count == |Levels(s)|
  {
    count := 1;
    var i := 0;
    LevelCount(s);
    assert s[0..] == s;
    while i < |s|
      invariant 0 <= i <= |s|
      invariant count + SlashCount(s[i..]) == 1 + SlashCount(s)
    {
      assert s[i..][1..] == s[i + 1..];
      if s[i] == '/' {
        count := count + 1;
      }
      i := i + 1;
    }
  }

  /** mosquitto_sub_topic_tokenise: the tokens are the levels, with a null token for each empty one, also behind a
      separator at the end. */
  method Tokenise(s: CString) returns (topics: array<Option<string>>, count: nat)
    ensures count == |Levels(s)| == topics.Length
    ensures forall k :: 0 <= k < count ==> topics[k] == Token(Levels(s)[k])
  {
    hide Levels, Token;
    var len := |s|;
    count := CountTokens(s);
    topics := new Option<string>[count](_ => None);
    var start, hier, i := 0, 0, 0;
    ghost var done: seq<string> := [];
    assert s[0..] == s && done + Levels(s) == Levels(s);
    while i < len + 1
      invariant 0 <= i <= len + 1 && 0 <= start <= i
      invariant i <= len ==> '/' !in s[start..i]
      invariant |done| == hier <= count == |Levels(s)| == topics.Length
      invariant Levels(s) == done + if i <= len then Levels(s[start..]) else []
      invariant forall k :: 0 <= k < hier ==> topics[k] == Token(done[k])
      invariant forall k :: hier <= k < count ==> topics[k] == None
    {
      if CharAt(s, i) == '/' || CharAt(s, i) == '\0' {
        var stop := i;
        CutNext(s, done, start, stop);
        if start != stop {
          topics[hier] := Some(s[start..stop]);
        }
        TokenOf(s, start, stop);
        done := done + [s[start..stop]];
        start := i + 1;
        hier := hier + 1;
      } else {
        assert s[start..i + 1] == s[start..i] + [s[i]];
      }
      i := i + 1;
    }
  }
}
