/** The session-summary helpers of lib/ai-summary.ts: keyword-frequency topic
    extraction over the chat messages, the banded learning recommendations,
    and the key-point list of a session summary. */
module Summary {
  import opened Util
  import opened Sorting

  datatype Message = Message(sender: string, content: string)

  /** The keywords looked for, in the order the count loop visits them. */
  const Keywords: seq<string> := [
    "algorithm", "function", "variable", "loop", "array", "object", "class", "method", "API", "database",
    "async", "promise", "component", "state", "props", "hook", "routing", "authentication", "optimization",
    "debugging", "testing", "deployment"]

  /** The most topics returned. */
  const MaxTopics: nat := 5

  lemma KeywordsDistinct()
    ensures forall i, j :: 0 <= i < j < |Keywords| ==> Keywords[i] != Keywords[j]
  {
    forall i, j | 0 <= i < j < |Keywords| ensures Keywords[i] != Keywords[j] {
      assert Keywords[i][0] != Keywords[j][0] || |Keywords[i]| != |Keywords[j]| || Keywords[i][1] != Keywords[j][1];
    }
  }

  /** The message's lower-cased content contains the keyword (`lowerContent.includes(keyword)`). */
  predicate Mentions(m: Message, keyword: string) {
    Contains(Lower(m.content), keyword)
  }

  /** The number of messages that mention the keyword. */
  function Count(messages: seq<Message>, keyword: string): (n: nat)
    ensures n <= |messages|
    ensures n == 0 <==> forall k :: 0 <= k < |messages| ==> !Mentions(messages[k], keyword)
  {
    if messages == [] then 0
    else
      var init := messages[..|messages| - 1];
      assert forall k :: 0 <= k < |init| ==> init[k] == messages[k];
      Count(init, keyword) + (if Mentions(messages[|messages| - 1], keyword) then 1 else 0)
  }

  /** The keywords of `keywords` that the lower-cased content mentions and that
      are neither in `seen` nor added before them: the keys one message adds to
      the counting dictionary, in the order they are added. */
  function Added(lowerContent: string, keywords: seq<string>, seen: seq<string>): (r: seq<string>)
    ensures forall x :: x in r <==> x in keywords && Contains(lowerContent, x) && x !in seen
    ensures forall i, j :: 0 <= i < j < |r| ==> r[i] != r[j]
  {
    if keywords == [] then []
    else
      var prev := Added(lowerContent, keywords[..|keywords| - 1], seen);
      var keyword := keywords[|keywords| - 1];
      assert forall x :: x in keywords <==> x in keywords[..|keywords| - 1] || x == keyword;
      prev + (if Contains(lowerContent, keyword) && keyword !in seen + prev then [keyword] else [])
  }

  /** One more keyword visited. */
  lemma AddedStep(lowerContent: string, keywords: seq<string>, keyword: string, seen: seq<string>)
    ensures Added(lowerContent, keywords + [keyword], seen) == Added(lowerContent, keywords, seen)
      + (if Contains(lowerContent, keyword) && keyword !in seen + Added(lowerContent, keywords, seen) then [keyword] else [])
  {
    assert (keywords + [keyword])[..|keywords|] == keywords;
  }

  /** The keys of the counting dictionary in insertion order, which is the
      order `Object.entries` lists them in. */
  function Order(messages: seq<Message>, keywords: seq<string>): (r: seq<string>)
  {
    if messages == [] then []
    else
      var prev := Order(messages[..|messages| - 1], keywords);
      prev + Added(Lower(messages[|messages| - 1].content), keywords, prev)
  }

  /** The dictionary holds exactly the keywords some message mentions, each once. */
  lemma {:induction false} OrderKeys(messages: seq<Message>, keywords: seq<string>)
    ensures forall x :: x in Order(messages, keywords) <==> x in keywords && Count(messages, x) > 0
    ensures forall i, j :: 0 <= i < j < |Order(messages, keywords)| ==>
      Order(messages, keywords)[i] != Order(messages, keywords)[j]
  {
    if messages != [] {
      var init := messages[..|messages| - 1];
      OrderKeys(init, keywords);
      var prev := Order(init, keywords);
      var added := Added(Lower(messages[|messages| - 1].content), keywords, prev);
      var r := prev + added;
      assert Order(messages, keywords) == r;
      forall i, j | 0 <= i < j < |r| ensures r[i] != r[j] {
        if j >= |prev| && i < |prev| {
          assert r[j] in added && r[i] in prev;
        } else if i >= |prev| {
          assert r[i] == added[i - |prev|] && r[j] == added[j - |prev|];
        }
      }
    }
  }

  /** A dictionary entry: a keyword and its count. */
  type Entry = (string, nat)

  function EntryCount(e: Entry): real {
    e.1 as real
  }

  /** `Object.entries(topicCounts)`. */
  function Entries(messages: seq<Message>, keywords: seq<string>): (r: seq<Entry>)
    ensures var order := Order(messages, keywords);
      |r| == |order| && forall k :: 0 <= k < |r| ==> r[k] == (order[k], Count(messages, order[k]))
  {
    var order := Order(messages, keywords);
    seq(|order|, k requires 0 <= k < |order| => (order[k], Count(messages, order[k])))
  }

  /** The keywords of entries, in order (`map(([topic]) => topic)`). */
  function Names(entries: seq<Entry>): (r: seq<string>)
    ensures |r| == |entries|
    ensures forall k :: 0 <= k < |r| ==> r[k] == entries[k].0
  {
    seq(|entries|, k requires 0 <= k < |entries| => entries[k].0)
  }

  /** What `extractKeyTopics` returns when it looks for `keywords`: the
      keywords sorted by non-increasing count, ties in dictionary order, the
      first five. */
  function TopTopics(messages: seq<Message>, keywords: seq<string>): seq<string> {
    Take(Names(SortDesc(Entries(messages, keywords), EntryCount)), MaxTopics)
  }

  /** Every piece of lower-cased text is lower-case. */
  lemma NoUpperInside(s: string, t: string)
    requires NoUpper(s) && Contains(s, t)
    ensures NoUpper(t)
  {
    var k: nat :| k <= |s| && OccursAt(s, t, k);
    forall m | 0 <= m < |t| ensures !IsUpper(t[m]) {
      assert t[m] == s[k..k + |t|][m] == s[k + m];
    }
  }

  /** Every sorted entry is a dictionary entry: a mentioned keyword with its count. */
  lemma SortedEntries(messages: seq<Message>, keywords: seq<string>, k: nat)
    requires k < |SortDesc(Entries(messages, keywords), EntryCount)|
    ensures var e := SortDesc(Entries(messages, keywords), EntryCount)[k];
      e.0 in Order(messages, keywords) && e.1 == Count(messages, e.0)
  {
    var entries := Entries(messages, keywords);
    var sorted := SortDesc(entries, EntryCount);
    SortDescCorrect(entries, EntryCount);
    assert sorted[k] in multiset(entries);
    var m :| 0 <= m < |entries| && entries[m] == sorted[k];
  }

  /** A returned topic is a keyword some message mentions, so it is lower-case. */
  lemma TopTopicMentioned(messages: seq<Message>, keywords: seq<string>, t: string)
    requires t in TopTopics(messages, keywords)
    ensures t in keywords && 0 < Count(messages, t) <= |messages| && NoUpper(t)
  {
    var r := TopTopics(messages, keywords);
    var k :| 0 <= k < |r| && r[k] == t;
    SortedEntries(messages, keywords, k);
    OrderKeys(messages, keywords);
    var m :| 0 <= m < |messages| && Mentions(messages[m], t);
    NoUpperInside(Lower(messages[m].content), t);
  }

  /** The returned topics are in non-increasing order of count and distinct. */
  lemma TopTopicsOrdered(messages: seq<Message>, keywords: seq<string>, i: nat, j: nat)
    requires i < j < |TopTopics(messages, keywords)|
    ensures var r := TopTopics(messages, keywords);
      Count(messages, r[i]) >= Count(messages, r[j]) && r[i] != r[j]
  {
    var entries := Entries(messages, keywords);
    var sorted := SortDesc(entries, EntryCount);
    SortDescCorrect(entries, EntryCount);
    SortedEntries(messages, keywords, i);
    SortedEntries(messages, keywords, j);
    assert EntryCount(sorted[i]) >= EntryCount(sorted[j]);
    EntriesDistinct(messages, keywords, sorted, i, j);
  }

  /** The returned topics are the top ones: five of them, or all mentioned
      keywords when fewer are mentioned, and a mentioned keyword left out has
      a count no higher than any returned topic. */
  lemma TopTopicsComplete(messages: seq<Message>, keywords: seq<string>)
    ensures var r := TopTopics(messages, keywords);
      |r| == if |Order(messages, keywords)| < MaxTopics then |Order(messages, keywords)| else MaxTopics
    ensures var r := TopTopics(messages, keywords);
      forall t :: t in keywords && Count(messages, t) > 0 && t !in r ==>
        |r| == MaxTopics && forall u :: u in r ==> Count(messages, u) >= Count(messages, t)
  {
    forall t | t in keywords && Count(messages, t) > 0 && t !in TopTopics(messages, keywords)
      ensures var r := TopTopics(messages, keywords);
        |r| == MaxTopics && forall u :: u in r ==> Count(messages, u) >= Count(messages, t)
    {
      LeftOutRanksLower(messages, keywords, t);
    }
  }

  /** A mentioned keyword that is not returned sits at or beyond position five
      of the sorted entries, behind every returned topic. */
  lemma LeftOutRanksLower(messages: seq<Message>, keywords: seq<string>, t: string)
    requires t in keywords && Count(messages, t) > 0 && t !in TopTopics(messages, keywords)
    ensures var r := TopTopics(messages, keywords);
      |r| == MaxTopics && forall u :: u in r ==> Count(messages, u) >= Count(messages, t)
  {
    var entries := Entries(messages, keywords);
    var sorted := SortDesc(entries, EntryCount);
    var r := TopTopics(messages, keywords);
    OrderKeys(messages, keywords);
    SortDescCorrect(entries, EntryCount);
    var m :| 0 <= m < |Order(messages, keywords)| && Order(messages, keywords)[m] == t;
    assert entries[m] in multiset(sorted);
    var p :| 0 <= p < |sorted| && sorted[p] == entries[m];
    assert Names(sorted)[p] == t;
    assert p >= MaxTopics;
    forall u | u in r ensures Count(messages, u) >= Count(messages, t) {
      var k :| 0 <= k < |r| && r[k] == u;
      SortedEntries(messages, keywords, k);
      assert EntryCount(sorted[k]) >= EntryCount(sorted[p]);
    }
  }

  /** The returned topics: five, or every mentioned keyword when fewer are
      mentioned; each a lower-case keyword some message mentions, in
      non-increasing order of their counts, none twice, none without
      messages, and none outranked by a mentioned keyword left out. */
  lemma TopTopicsFacts(messages: seq<Message>, keywords: seq<string>)
    ensures var r := TopTopics(messages, keywords);
      && |r| <= MaxTopics
      && (forall t :: t in r ==> t in keywords && 0 < Count(messages, t) <= |messages| && NoUpper(t))
      && (forall i, j :: 0 <= i < j < |r| ==> Count(messages, r[i]) >= Count(messages, r[j]))
      && (forall i, j :: 0 <= i < j < |r| ==> r[i] != r[j])
      && (messages == [] ==> r == [])
    ensures var r := TopTopics(messages, keywords);
      && |r| == (if |Order(messages, keywords)| < MaxTopics then |Order(messages, keywords)| else MaxTopics)
      && forall t :: t in keywords && Count(messages, t) > 0 && t !in r ==>
           |r| == MaxTopics && forall u :: u in r ==> Count(messages, u) >= Count(messages, t)
  {
    TopTopicsComplete(messages, keywords);
    var r := TopTopics(messages, keywords);
    forall t | t in r ensures t in keywords && 0 < Count(messages, t) <= |messages| && NoUpper(t) {
      TopTopicMentioned(messages, keywords, t);
    }
    forall i, j | 0 <= i < j < |r| ensures Count(messages, r[i]) >= Count(messages, r[j]) && r[i] != r[j] {
      TopTopicsOrdered(messages, keywords, i, j);
    }
  }

  /** The keyword "API" is looked for in lower-cased content, so it is never
      a topic. */
  lemma ApiNeverTopic(messages: seq<Message>)
    ensures "API" in Keywords
    ensures "API" !in TopTopics(messages, Keywords)
  {
    assert Keywords[8] == "API";
    assert !NoUpper("API") by {
      assert IsUpper("API"[0]);
    }
    if "API" in TopTopics(messages, Keywords) {
      TopTopicMentioned(messages, Keywords, "API");
    }
  }

  /** Two positions of the sorted entries never hold the same keyword. */
  lemma EntriesDistinct(messages: seq<Message>, keywords: seq<string>, sorted: seq<Entry>, i: nat, j: nat)
    requires sorted == SortDesc(Entries(messages, keywords), EntryCount)
    requires i < j < |sorted|
    ensures sorted[i].0 != sorted[j].0
  {
    var entries := Entries(messages, keywords);
    OrderKeys(messages, keywords);
    SortDescCorrect(entries, EntryCount);
    PermutedNamesDistinct(entries, sorted, i, j);
  }

  /** A permutation of entries with distinct keywords has distinct keywords. */
  lemma PermutedNamesDistinct(entries: seq<Entry>, sorted: seq<Entry>, i: nat, j: nat)
    requires forall a, b :: 0 <= a < b < |entries| ==> entries[a].0 != entries[b].0
    requires multiset(sorted) == multiset(entries)
    requires i < j < |sorted|
    ensures sorted[i].0 != sorted[j].0
  {
    assert sorted[i] in multiset(entries) && sorted[j] in multiset(entries);
    var a :| 0 <= a < |entries| && entries[a] == sorted[i];
    var b :| 0 <= b < |entries| && entries[b] == sorted[j];
    if sorted[i].0 == sorted[j].0 {
      assert a == b by {
        if a < b {} else if b < a {}
      }
      // the same entry twice: then it occurs twice in the sorted permutation,
      // so twice among the entries, where it occurs once
      MultisetTwice(sorted, i, j);
      CountOnce(entries, a);
    }
  }

  /** An element at two positions occurs at least twice. */
  lemma MultisetTwice<T>(s: seq<T>, i: nat, j: nat)
    requires i < j < |s| && s[i] == s[j]
    ensures multiset(s)[s[i]] >= 2
  {
    assert s == s[..i] + [s[i]] + s[i + 1..j] + [s[j]] + s[j + 1..];
  }

  /** An entry whose keyword occurs once occurs once. */
  lemma CountOnce(entries: seq<Entry>, a: nat)
    requires a < |entries|
    requires forall i, j :: 0 <= i < j < |entries| ==> entries[i].0 != entries[j].0
    ensures multiset(entries)[entries[a]] == 1
  {
    var x := entries[a];
    assert entries == entries[..a] + [x] + entries[a + 1..];
    forall m | 0 <= m < |entries| && m != a ensures entries[m] != x {
      assert entries[m].0 != entries[a].0 by {
        if m < a {} else {}
      }
    }
    assert x !in entries[..a];
    assert x !in entries[a + 1..];
  }

  /** The state of the keyword loop once the keywords `visited` are done. */
  ghost predicate Tallied(lowerContent: string, visited: seq<string>, order: seq<string>,
                          prior: seq<Message>, counts: map<string, nat>, keys: seq<string>)
  {
    && keys == order + Added(lowerContent, visited, order)
    && (forall x :: x in counts <==> x in keys)
    && (forall x :: x in counts ==>
          counts[x] == Count(prior, x) + (if x in visited && Contains(lowerContent, x) then 1 else 0))
  }

  /** One keyword more keeps the loop state: `counts'` and `keys'` are the
      dictionary and its key order after visiting `keyword`. */
  lemma TallyStep(lowerContent: string, visited: seq<string>, keyword: string, order: seq<string>, prior: seq<Message>,
                  counts: map<string, nat>, keys: seq<string>, counts': map<string, nat>, keys': seq<string>)
    requires keyword !in visited
    requires keyword !in order ==> Count(prior, keyword) == 0
    requires Tallied(lowerContent, visited, order, prior, counts, keys)
    requires counts' == (if !Contains(lowerContent, keyword) then counts
                         else counts[keyword := (if keyword in counts then counts[keyword] else 0) + 1])
    requires keys' == (if Contains(lowerContent, keyword) && keyword !in counts then keys + [keyword] else keys)
    ensures Tallied(lowerContent, visited + [keyword], order, prior, counts', keys')
  {
    KeysStep(lowerContent, visited, keyword, order, counts, keys, keys');
    if keyword in counts {
      assert keyword !in Added(lowerContent, visited, order);
    }
    CountsStep(lowerContent, visited, keyword, prior, counts, counts');
  }

  /** The key order after one more keyword. */
  lemma KeysStep(lowerContent: string, visited: seq<string>, keyword: string, order: seq<string>,
                 counts: map<string, nat>, keys: seq<string>, keys': seq<string>)
    requires keys == order + Added(lowerContent, visited, order)
    requires forall x :: x in counts <==> x in keys
    requires keys' == (if Contains(lowerContent, keyword) && keyword !in counts then keys + [keyword] else keys)
    ensures keys' == order + Added(lowerContent, visited + [keyword], order)
  {
    AddedStep(lowerContent, visited, keyword, order);
    var added := Added(lowerContent, visited, order);
    if Contains(lowerContent, keyword) && keyword !in counts {
      assert keys' == order + (added + [keyword]);
    }
  }

  /** The counts after one more keyword. */
  lemma CountsStep(lowerContent: string, visited: seq<string>, keyword: string, prior: seq<Message>,
                   counts: map<string, nat>, counts': map<string, nat>)
    requires keyword !in visited
    requires forall x :: x in counts ==>
      counts[x] == Count(prior, x) + (if x in visited && Contains(lowerContent, x) then 1 else 0)
    requires keyword !in counts ==> Count(prior, keyword) == 0
    requires counts' == (if !Contains(lowerContent, keyword) then counts
                         else counts[keyword := (if keyword in counts then counts[keyword] else 0) + 1])
    ensures forall x :: x in counts' ==>
      counts'[x] == Count(prior, x) + (if x in visited + [keyword] && Contains(lowerContent, x) then 1 else 0)
  {
    forall x | x in counts'
      ensures counts'[x] == Count(prior, x) + (if x in visited + [keyword] && Contains(lowerContent, x) then 1 else 0)
    {
      assert x in visited + [keyword] <==> x in visited || x == keyword;
    }
  }

  /** The inner loop of `extractKeyTopics` for one message: every keyword its
      lower-cased content mentions has its count raised by one (a keyword not
      yet in the dictionary enters at the end of the key order with count 1). */
  method TallyMessage(lowerContent: string, keywords: seq<string>, topicCounts: map<string, nat>,
                      order: seq<string>, ghost prior: seq<Message>)
    returns (counts: map<string, nat>, keys: seq<string>)
    requires forall i, j :: 0 <= i < j < |keywords| ==> keywords[i] != keywords[j]
    requires forall x :: x in topicCounts <==> x in order
    requires forall x :: x in topicCounts ==> topicCounts[x] == Count(prior, x)
    requires forall x :: x in keywords && x !in order ==> Count(prior, x) == 0
    ensures keys == order + Added(lowerContent, keywords, order)
    ensures forall x :: x in counts <==> x in keys
    ensures forall x :: x in counts ==>
      counts[x] == Count(prior, x) + (if x in keywords && Contains(lowerContent, x) then 1 else 0)
  {
    counts, keys := topicCounts, order;
    for j := 0 to |keywords|
      invariant Tallied(lowerContent, keywords[..j], order, prior, counts, keys)
    {
      var keyword := keywords[j];
      ghost var counts0, keys0 := counts, keys;
      if Contains(lowerContent, keyword) {
        var current := if keyword in counts then counts[keyword] else 0;
        if keyword !in counts {
          keys := keys + [keyword];
        }
        counts := counts[keyword := current + 1];
      }
      assert keywords[j] !in keywords[..j];
      TallyStep(lowerContent, keywords[..j], keyword, order, prior, counts0, keys0, counts, keys);
      assert keywords[..j + 1] == keywords[..j] + [keyword];
    }
    assert keywords[..|keywords|] == keywords;
  }

  /** The body of `extractKeyTopics` for a list of distinct keywords: for
      each message and each keyword it mentions the keyword's count goes up by
      one (starting from 0 when absent), then the entries are sorted by count
      and the first five keywords returned. */
  method RankKeywords(messages: seq<Message>, keywords: seq<string>) returns (topics: seq<string>)
    requires forall i, j :: 0 <= i < j < |keywords| ==> keywords[i] != keywords[j]
    ensures topics == TopTopics(messages, keywords)
  {
    var topicCounts: map<string, nat> := map[];
    var order: seq<string> := [];  // the dictionary's key order
    for i := 0 to |messages|
      invariant order == Order(messages[..i], keywords)
      invariant forall x :: x in topicCounts <==> x in order
      invariant forall x :: x in topicCounts ==> topicCounts[x] == Count(messages[..i], x)
    {
      OrderKeys(messages[..i], keywords);
      topicCounts, order := TallyMessage(Lower(messages[i].content), keywords, topicCounts, order, messages[..i]);
      ghost var prefix := messages[..i + 1];
      assert prefix[..i] == messages[..i] && prefix[i] == messages[i];
      assert order == Order(prefix, keywords);
      OrderKeys(prefix, keywords);
      forall x | x in topicCounts ensures topicCounts[x] == Count(prefix, x) {
        assert x in keywords;
      }
    }
    assert messages[..|messages|] == messages;
    var entries := seq(|order|, k requires 0 <= k < |order| => (order[k], topicCounts[order[k]]));
    assert entries == Entries(messages, keywords);
    topics := Take(Names(SortDesc(entries, EntryCount)), MaxTopics);
  }

  /** `extractKeyTopics`: the ranking over the 22 built-in keywords. */
  method ExtractKeyTopics(messages: seq<Message>) returns (topics: seq<string>)
    ensures topics == TopTopics(messages, Keywords)
  {
    KeywordsDistinct();
    topics := RankKeywords(messages, Keywords);
  }

  // ---------------------------------------------------------------------------
  // Recommendations and key points
  // ---------------------------------------------------------------------------

  const ExcellentProgress: string := "Your progress is excellent! Keep up the great work"
  const MoreSessions: string := "Consider scheduling more frequent sessions for faster progress"

  /** The two items of the experience band: fewer than 3 sessions, fewer than 10, or more. */
  function BandAdvice(skillName: string, sessionCount: real): (r: seq<string>)
    ensures |r| == 2
  {
    if sessionCount < 3.0 then
      ["Continue building foundation in " + skillName, "Practice daily for 30 minutes to reinforce concepts"]
    else if sessionCount < 10.0 then
      ["Start working on intermediate " + skillName + " projects", "Join online communities to learn from peers"]
    else
      ["Consider teaching " + skillName + " to solidify your expertise", "Explore advanced topics and specializations"]
  }

  /** `generateRecommendations`: the two band items, then one rating item when
      the average rating reaches 4.5 (praise) or else 3.5 (more sessions). */
  method GenerateRecommendations(skillName: string, sessionCount: real, averageRating: real)
    returns (recommendations: seq<string>)
    ensures |recommendations| == if averageRating >= 3.5 then 3 else 2
    ensures recommendations[..2] == BandAdvice(skillName, sessionCount)
    ensures averageRating >= 4.5 ==> recommendations[2] == ExcellentProgress
    ensures 3.5 <= averageRating < 4.5 ==> recommendations[2] == MoreSessions
  {
    recommendations := [];
    if sessionCount < 3.0 {
      recommendations := recommendations + ["Continue building foundation in " + skillName];
      recommendations := recommendations + ["Practice daily for 30 minutes to reinforce concepts"];
    } else if sessionCount < 10.0 {
      recommendations := recommendations + ["Start working on intermediate " + skillName + " projects"];
      recommendations := recommendations + ["Join online communities to learn from peers"];
    } else {
      recommendations := recommendations + ["Consider teaching " + skillName + " to solidify your expertise"];
      recommendations := recommendations + ["Explore advanced topics and specializations"];
    }
    if averageRating >= 4.5 {
      recommendations := recommendations + [ExcellentProgress];
    } else if averageRating >= 3.5 {
      recommendations := recommendations + [MoreSessions];
    }
  }

  /** The three key points every summary starts with. */
  function FixedKeyPoints(skillName: string): seq<string> {
    ["Covered core concepts of " + skillName, "Practiced with real-world examples",
     "Addressed specific questions and challenges"]
  }

  /** The key points of `generateSessionSummary`: the three fixed points and
      one "Explored … in detail" point per topic among the first two, cut to four. */
  function KeyPoints(skillName: string, keyTopics: seq<string>): (r: seq<string>)
    ensures |r| == if keyTopics == [] then 3 else 4
    ensures r[..3] == FixedKeyPoints(skillName)
    ensures keyTopics != [] ==> r[3] == "Explored " + keyTopics[0] + " in detail"
  {
    var first := Take(keyTopics, 2);
    var explored := seq(|first|, k requires 0 <= k < |first| => "Explored " + first[k] + " in detail");
    var all := FixedKeyPoints(skillName) + explored;
    all[..if |all| < 4 then |all| else 4]
  }
}
