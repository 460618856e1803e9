/** The trending-topics sidebar: count every tag of every post, then keep
    the five most frequent. */
module TrendingSidebar {
  import opened Wrappers
  import opened Seqs
  import opened JsObject
  import StableSort

  /** One `research_posts` row as selected: its `tags`, possibly null. */
  type PostTags = Option<seq<string>>

  datatype Topic = Topic(name: string, count: nat)

  const TopicLimit: nat := 5

  /** The tags `post.tags?.forEach` visits; a post without tags visits none. */
  function TagsOf(post: PostTags): seq<string> {
    post.GetOr([])
  }

  /** Every tag visited by the nested loops, in visiting order. */
  function AllTags(posts: seq<PostTags>): seq<string> {
    if |posts| == 0 then [] else AllTags(posts[..|posts| - 1]) + TagsOf(posts[|posts| - 1])
  }

  /** The reference count: how often `tag` occurs, summed over the posts. */
  function CountAcross(posts: seq<PostTags>, tag: string): nat {
    if |posts| == 0 then 0 else Occurrences(TagsOf(posts[0]), tag) + CountAcross(posts[1..], tag)
  }

  /** The comparator `([, a], [, b]) => b - a`. */
  function ByCountDescending(a: (string, nat), b: (string, nat)): int {
    b.1 - a.1
  }

  function NegCount(e: (string, nat)): int {
    -(e.1 as int)
  }

  /** `Object.entries(tagCounts).sort(ByCountDescending)`. */
  function Ranking(posts: seq<PostTags>): seq<(string, nat)> {
    StableSort.Sort(Tally(AllTags(posts)), ByCountDescending)
  }

  function AsTopics(entries: seq<(string, nat)>): (r: seq<Topic>)
    ensures |r| == |entries|
    ensures forall i :: 0 <= i < |r| ==> r[i] == Topic(entries[i].0, entries[i].1)
  {
    if |entries| == 0 then [] else [Topic(entries[0].0, entries[0].1)] + AsTopics(entries[1..])
  }

  function Min(a: nat, b: nat): nat {
    if a <= b then a else b
  }

  /** `.sort(ByCountDescending).slice(0, 5).map(([name, count]) => ({name, count}))`
      applied to the entries of the counts. */
  function TopOf(entries: seq<(string, nat)>): seq<Topic> {
    var ranked := StableSort.Sort(entries, ByCountDescending);
    AsTopics(ranked[..Min(TopicLimit, |ranked|)])
  }

  /** The topics shown for the fetched posts. */
  function TopTopics(posts: seq<PostTags>): seq<Topic> {
    TopOf(Tally(AllTags(posts)))
  }

  function TopicNames(topics: seq<Topic>): (r: seq<string>)
    ensures |r| == |topics|
    ensures forall i :: 0 <= i < |r| ==> r[i] == topics[i].name
  {
    if |topics| == 0 then [] else [topics[0].name] + TopicNames(topics[1..])
  }

  /** `fetchTrendingTopics` once the rows have arrived: `None` rows (no data)
      leave the displayed topics as they were, signalled by `None`. */
  method FetchTrendingTopics(data: Option<seq<PostTags>>) returns (topics: Option<seq<Topic>>)
    ensures data.None? ==> topics.None?
    ensures data.Some? ==> topics == Some(TopTopics(data.value))
  {
    if data.None? {
      return None;
    }
    var posts := data.value;
    var counts := new Counter();
    var i := 0;
    while i < |posts|
      invariant 0 <= i <= |posts|
      invariant counts.Valid()
      invariant Counted(counts.keys, counts.counts, AllTags(posts[..i]))
    {
      CountTags(counts, TagsOf(posts[i]), AllTags(posts[..i]));
      assert posts[..i + 1][..i] == posts[..i];
      i := i + 1;
    }
    assert posts[..i] == posts;
    CounterTally(counts.keys, counts.counts, AllTags(posts));
    topics := Some(TopOf(counts.Entries()));
  }

  /** The inner loop `post.tags?.forEach(tag => ...)`. */
  method CountTags(counts: Counter, tags: seq<string>, ghost before: seq<string>)
    requires counts.Valid() && Counted(counts.keys, counts.counts, before)
    modifies counts
    ensures counts.Valid() && Counted(counts.keys, counts.counts, before + tags)
  {
    var j := 0;
    assert before + tags[..0] == before;
    while j < |tags|
      invariant 0 <= j <= |tags|
      invariant counts.Valid()
      invariant Counted(counts.keys, counts.counts, before + tags[..j])
    {
      CountedStep(counts.keys, counts.counts, before + tags[..j], tags[j]);
      AppendPrefixStep(before, tags, j);
      counts.Increment(tags[j]);
      j := j + 1;
    }
    assert tags[..j] == tags;
  }

  // ---------------------------------------------------------------
  // Counting
  // ---------------------------------------------------------------

  lemma {:induction false} AllTagsAppend(a: seq<PostTags>, b: seq<PostTags>)
    ensures AllTags(a + b) == AllTags(a) + AllTags(b)
    decreases |b|
  {
    if |b| == 0 {
      assert a + b == a;
    } else {
      assert (a + b)[..|a + b| - 1] == a + b[..|b| - 1];
      AllTagsAppend(a, b[..|b| - 1]);
    }
  }

  /** Counting over the visiting order is counting post by post; a tag
      repeated within one post counts each time. */
  lemma {:induction false} AllTagsCount(posts: seq<PostTags>, tag: string)
    ensures Occurrences(AllTags(posts), tag) == CountAcross(posts, tag)
  {
    if |posts| > 0 {
      AllTagsAppend([posts[0]], posts[1..]);
      assert [posts[0]] + posts[1..] == posts;
      assert AllTags([posts[0]]) == TagsOf(posts[0]) by {
        assert [posts[0]][..0] == [];
      }
      OccurrencesAppend(TagsOf(posts[0]), AllTags(posts[1..]), tag);
      AllTagsCount(posts[1..], tag);
    }
  }

  lemma AllTagsWithoutTags(before: seq<PostTags>, after: seq<PostTags>)
    ensures AllTags(before + [None] + after) == AllTags(before + after)
  {
    var none: seq<PostTags> := [None];
    AllTagsAppend(before + none, after);
    AllTagsAppend(before, none);
    AllTagsAppend(before, after);
    assert none[..0] == [];
    assert AllTags(none) == [];
  }

  /** A post with no tags changes no count and no topic. */
  lemma PostWithoutTagsIgnored(before: seq<PostTags>, after: seq<PostTags>)
    ensures TopTopics(before + [None] + after) == TopTopics(before + after)
  {
    AllTagsWithoutTags(before, after);
  }

  // ---------------------------------------------------------------
  // The ranking
  // ---------------------------------------------------------------

  lemma RankingCompares(posts: seq<PostTags>)
    ensures StableSort.ComparesByKey(Tally(AllTags(posts)), ByCountDescending, NegCount)
  {
  }

  /** Entries of the tally are distinct pairs (their names differ). */
  lemma TallyEntriesDistinct(s: seq<string>)
    ensures NoDup(Tally(s))
  {
    var e := Tally(s);
    forall i, j | 0 <= i < j < |e| ensures e[i] != e[j] {
      assert Names(e)[i] != Names(e)[j];
    }
  }

  lemma InRanking(posts: seq<PostTags>, x: (string, nat))
    requires x in Ranking(posts)
    ensures x in Tally(AllTags(posts))
  {
    assert x in multiset(Ranking(posts));
  }

  /** Each ranked entry is a tag that occurs, with its number of occurrences. */
  lemma RankedEntry(posts: seq<PostTags>, i: nat)
    requires i < |Ranking(posts)|
    ensures var e := Ranking(posts)[i];
            e.1 == CountAcross(posts, e.0) >= 1 && e.0 in AllTags(posts)
  {
    var tags := AllTags(posts);
    var t := Tally(tags);
    var ranked := Ranking(posts);
    var k := PermutationIndex(t, ranked, i);
    var e := t[k];
    assert e.1 == Occurrences(tags, e.0) >= 1;
    AllTagsCount(posts, e.0);
  }

  lemma RankingDistinct(posts: seq<PostTags>)
    ensures forall i, j :: 0 <= i < j < |Ranking(posts)| ==> Ranking(posts)[i].0 != Ranking(posts)[j].0
  {
    var r := Ranking(posts);
    TallyEntriesDistinct(AllTags(posts));
    NoDupPermutation(Tally(AllTags(posts)), r);
    forall i, j | 0 <= i < j < |r| ensures r[i].0 != r[j].0 {
      RankedEntry(posts, i);
      RankedEntry(posts, j);
    }
  }

  lemma RankingSorted(posts: seq<PostTags>)
    ensures forall i, j :: 0 <= i < j < |Ranking(posts)| ==> Ranking(posts)[i].1 >= Ranking(posts)[j].1
  {
    RankingCompares(posts);
    StableSort.SortSorted(Tally(AllTags(posts)), ByCountDescending, NegCount);
    var r := Ranking(posts);
    forall i, j | 0 <= i < j < |r| ensures r[i].1 >= r[j].1 {
      assert NegCount(r[i]) <= NegCount(r[j]);
    }
  }

  /** Every tag that occurs is ranked. */
  lemma RankingComplete(posts: seq<PostTags>, tag: string)
    requires tag in AllTags(posts)
    ensures exists p :: 0 <= p < |Ranking(posts)| && Ranking(posts)[p].0 == tag
  {
    var t := Tally(AllTags(posts));
    assert tag in Names(t);
    NamedInPermutation(t, Ranking(posts), tag);
  }

  /** A name of `entries` names an entry of any permutation of it. */
  lemma NamedInPermutation(entries: seq<(string, nat)>, ranked: seq<(string, nat)>, tag: string)
    requires multiset(entries) == multiset(ranked) && tag in Names(entries)
    ensures exists p :: 0 <= p < |ranked| && ranked[p].0 == tag
  {
    var k :| 0 <= k < |entries| && Names(entries)[k] == tag;
    var p := PermutationIndex(ranked, entries, k);
    assert ranked[p].0 == tag;
  }

  // ---------------------------------------------------------------
  // What the sidebar shows
  // ---------------------------------------------------------------

  /** The list is the first five entries of the ranking. */
  lemma TopTopicsPrefix(posts: seq<PostTags>)
    ensures |TopTopics(posts)| == Min(TopicLimit, |Ranking(posts)|)
    ensures forall i :: 0 <= i < |TopTopics(posts)| ==>
              TopTopics(posts)[i] == Topic(Ranking(posts)[i].0, Ranking(posts)[i].1)
  {
  }

  /** The listed names are distinct. */
  lemma TopTopicsDistinct(posts: seq<PostTags>)
    ensures NoDup(TopicNames(TopTopics(posts)))
  {
    var r := TopTopics(posts);
    var ranked := Ranking(posts);
    var names := TopicNames(r);
    TopTopicsPrefix(posts);
    RankingDistinct(posts);
    forall i, j | 0 <= i < j < |names| ensures names[i] != names[j] {
      assert names[i] == r[i].name == ranked[i].0;
      assert names[j] == r[j].name == ranked[j].0;
    }
  }

  /** At most five topics, with distinct names, each a tag that occurs,
      with its count over all posts. */
  lemma TopTopicsCounts(posts: seq<PostTags>)
    ensures var r := TopTopics(posts);
            && |r| <= TopicLimit
            && NoDup(TopicNames(r))
            && (forall i :: 0 <= i < |r| ==> r[i].name in AllTags(posts))
            && (forall i :: 0 <= i < |r| ==> r[i].count == CountAcross(posts, r[i].name) >= 1)
  {
    var r := TopTopics(posts);
    TopTopicsPrefix(posts);
    TopTopicsDistinct(posts);
    forall i | 0 <= i < |r| ensures r[i].name in AllTags(posts) && r[i].count == CountAcross(posts, r[i].name) >= 1 {
      RankedEntry(posts, i);
    }
  }

  /** Counts never increase down the list. */
  lemma TopTopicsDescending(posts: seq<PostTags>)
    ensures var r := TopTopics(posts);
            forall i, j :: 0 <= i < j < |r| ==> r[i].count >= r[j].count
  {
    TopTopicsPrefix(posts);
    RankingSorted(posts);
  }

  lemma ListedName(posts: seq<PostTags>, p: nat)
    requires p < |TopTopics(posts)|
    ensures p < |Ranking(posts)| && TopicNames(TopTopics(posts))[p] == Ranking(posts)[p].0
  {
  }

  /** No tag left out of the list occurs more often than any listed topic. */
  lemma TopTopicsAreTop(posts: seq<PostTags>, tag: string)
    requires tag in AllTags(posts) && tag !in TopicNames(TopTopics(posts))
    ensures forall i :: 0 <= i < |TopTopics(posts)| ==> CountAcross(posts, tag) <= TopTopics(posts)[i].count
  {
    var r := TopTopics(posts);
    var ranked := Ranking(posts);
    RankingComplete(posts, tag);
    var p :| 0 <= p < |ranked| && ranked[p].0 == tag;
    RankedEntry(posts, p);
    RankingSorted(posts);
    if p < |r| {
      ListedName(posts, p);
      assert false;
    }
    forall i | 0 <= i < |r| ensures CountAcross(posts, tag) <= r[i].count {
      assert ranked[i].1 >= ranked[p].1;
    }
  }

  lemma ListedTagOccurs(posts: seq<PostTags>, tag: string)
    requires tag in TopicNames(TopTopics(posts))
    ensures tag in AllTags(posts)
  {
    var r := TopTopics(posts);
    var i :| 0 <= i < |r| && TopicNames(r)[i] == tag;
    ListedName(posts, i);
    RankedEntry(posts, i);
  }

  lemma FewTagsTagListed(posts: seq<PostTags>, tag: string)
    requires |FirstSeen(AllTags(posts))| <= TopicLimit && tag in AllTags(posts)
    ensures tag in TopicNames(TopTopics(posts))
  {
    var ranked := Ranking(posts);
    TallyLength(AllTags(posts));
    RankingComplete(posts, tag);
    var p :| 0 <= p < |ranked| && ranked[p].0 == tag;
    TopTopicsPrefix(posts);
    ShortRankingListed(TopTopics(posts), ranked, p);
  }

  /** A ranking of at most five entries is listed whole. */
  lemma {:induction false} ShortRankingListed(topics: seq<Topic>, ranked: seq<(string, nat)>, p: nat)
    requires |ranked| <= TopicLimit && p < |ranked|
    requires |topics| == Min(TopicLimit, |ranked|)
    requires forall i :: 0 <= i < |topics| ==> topics[i] == Topic(ranked[i].0, ranked[i].1)
    ensures ranked[p].0 in TopicNames(topics)
  {
    assert TopicNames(topics)[p] == ranked[p].0;
  }

  /** With at most five distinct tags, every tag is listed. */
  lemma FewTagsAllListed(posts: seq<PostTags>)
    requires |FirstSeen(AllTags(posts))| <= TopicLimit
    ensures forall tag :: tag in TopicNames(TopTopics(posts)) <==> tag in AllTags(posts)
  {
    forall tag ensures tag in TopicNames(TopTopics(posts)) <==> tag in AllTags(posts) {
      if tag in AllTags(posts) {
        FewTagsTagListed(posts, tag);
      }
      if tag in TopicNames(TopTopics(posts)) {
        ListedTagOccurs(posts, tag);
      }
    }
  }

  /** Tags with equal counts keep their `Object.entries` order: for each key
      value (the negated count), the entries with that key appear in the
      ranking in the same order as in the tally. */
  lemma RankingTies(posts: seq<PostTags>, key: int)
    ensures StableSort.WithKey(Ranking(posts), NegCount, key)
         == StableSort.WithKey(Tally(AllTags(posts)), NegCount, key)
  {
    RankingCompares(posts);
    StableSort.SortStable(Tally(AllTags(posts)), ByCountDescending, NegCount, key);
  }
}
