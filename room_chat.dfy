/** The rules embedded in the discussion-room page: merging messages and
    polls into one feed, grouping consecutive messages under one avatar,
    tallying reactions and poll votes, toggling a reaction, casting a vote,
    validating a new poll, the send-message draft, and "time ago" labels.
    Rows of the backend tables are values passed in; the outcome of each
    insert is a parameter. */
module RoomChat {
  import opened Wrappers
  import opened JsText
  import opened Seqs
  import opened JsObject
  import opened Elapsed
  import StableSort
  import ObjectLiteral

  // ---------------------------------------------------------------
  // Rows
  // ---------------------------------------------------------------

  /** A `room_messages` row; `createdAt` is `new Date(created_at).getTime()`. */
  datatype RoomMessage = RoomMessage(id: string, content: string, userId: string, createdAt: int)

  /** A `room_polls` row. */
  datatype RoomPoll = RoomPoll(id: string, question: string, options: seq<string>, createdAt: int)

  /** An element of the combined feed, tagged `'message'` or `'poll'`. */
  datatype FeedItem = MessageItem(message: RoomMessage) | PollItem(poll: RoomPoll)

  function Timestamp(item: FeedItem): int {
    match item
    case MessageItem(m) => m.createdAt
    case PollItem(p) => p.createdAt
  }

  // ---------------------------------------------------------------
  // Combined feed
  // ---------------------------------------------------------------

  function MessageItems(messages: seq<RoomMessage>): (r: seq<FeedItem>)
    ensures |r| == |messages|
    ensures forall i :: 0 <= i < |r| ==> r[i] == MessageItem(messages[i])
  {
    if |messages| == 0 then [] else [MessageItem(messages[0])] + MessageItems(messages[1..])
  }

  function PollItems(polls: seq<RoomPoll>): (r: seq<FeedItem>)
    ensures |r| == |polls|
    ensures forall i :: 0 <= i < |r| ==> r[i] == PollItem(polls[i])
  {
    if |polls| == 0 then [] else [PollItem(polls[0])] + PollItems(polls[1..])
  }

  /** The comparator `(a, b) => a.timestamp - b.timestamp`. */
  function ByTimestamp(a: FeedItem, b: FeedItem): int {
    Timestamp(a) - Timestamp(b)
  }

  /** `[...messages, ...polls].sort(ByTimestamp)`: every message and every
      poll exactly once. */
  function CombinedFeed(messages: seq<RoomMessage>, polls: seq<RoomPoll>): (r: seq<FeedItem>)
    ensures |r| == |messages| + |polls|
    ensures multiset(r) == multiset(MessageItems(messages)) + multiset(PollItems(polls))
  {
    StableSort.Sort(MessageItems(messages) + PollItems(polls), ByTimestamp)
  }

  /** The feed runs from the oldest item to the newest. */
  lemma CombinedFeedSorted(messages: seq<RoomMessage>, polls: seq<RoomPoll>)
    ensures StableSort.SortedBy(CombinedFeed(messages, polls), Timestamp)
  {
    StableSort.SortSorted(MessageItems(messages) + PollItems(polls), ByTimestamp, Timestamp);
  }

  /** Among items with the same timestamp, the messages come first in their
      fetched order and then the polls in theirs. */
  lemma CombinedFeedTies(messages: seq<RoomMessage>, polls: seq<RoomPoll>, t: int)
    ensures StableSort.WithKey(CombinedFeed(messages, polls), Timestamp, t)
         == StableSort.WithKey(MessageItems(messages), Timestamp, t)
            + StableSort.WithKey(PollItems(polls), Timestamp, t)
  {
    StableSort.SortStable(MessageItems(messages) + PollItems(polls), ByTimestamp, Timestamp, t);
    StableSort.WithKeyAppend(MessageItems(messages), PollItems(polls), Timestamp, t);
  }

  /** Being ordered by time with ties broken as above fixes the feed completely. */
  lemma CombinedFeedUnique(messages: seq<RoomMessage>, polls: seq<RoomPoll>, feed: seq<FeedItem>)
    requires StableSort.SortedBy(feed, Timestamp)
    requires forall t :: StableSort.WithKey(feed, Timestamp, t)
                      == StableSort.WithKey(MessageItems(messages), Timestamp, t)
                         + StableSort.WithKey(PollItems(polls), Timestamp, t)
    ensures feed == CombinedFeed(messages, polls)
  {
    var all := MessageItems(messages) + PollItems(polls);
    forall t ensures StableSort.WithKey(feed, Timestamp, t) == StableSort.WithKey(all, Timestamp, t) {
      StableSort.WithKeyAppend(MessageItems(messages), PollItems(polls), Timestamp, t);
    }
    StableSort.SortIsTheStableSort(all, feed, ByTimestamp, Timestamp);
  }

  // ---------------------------------------------------------------
  // Avatar grouping
  // ---------------------------------------------------------------

  predicate IsMessageBy(item: FeedItem, userId: string) {
    item.MessageItem? && item.message.userId == userId
  }

  /** A message shows its sender's avatar unless the item just before it is
      a message from the same sender. */
  predicate ShowAvatar(feed: seq<FeedItem>, i: nat)
    requires i < |feed| && feed[i].MessageItem?
  {
    i == 0 || !feed[i - 1].MessageItem? || feed[i - 1].message.userId != feed[i].message.userId
  }

  predicate IsOwnMessage(m: RoomMessage, viewer: Option<string>) {
    viewer == Some(m.userId)
  }

  /** The sender's name is shown above other people's messages that start a group. */
  predicate ShowName(feed: seq<FeedItem>, i: nat, viewer: Option<string>)
    requires i < |feed| && feed[i].MessageItem?
  {
    !IsOwnMessage(feed[i].message, viewer) && ShowAvatar(feed, i)
  }

  /** In a run of consecutive messages from one sender, exactly the first
      one shows the avatar. */
  lemma AvatarOncePerRun(feed: seq<FeedItem>, first: nat, last: nat, userId: string, k: nat)
    requires first <= k <= last < |feed|
    requires forall i :: first <= i <= last ==> IsMessageBy(feed[i], userId)
    requires first == 0 || !IsMessageBy(feed[first - 1], userId)
    ensures IsMessageBy(feed[k], userId) && (ShowAvatar(feed, k) <==> k == first)
  {
    assert IsMessageBy(feed[k], userId);
    if k > first {
      assert IsMessageBy(feed[k - 1], userId);
    }
  }

  /** In a run of consecutive messages from one sender, the sender's name
      is shown on the first one, and on none when the viewer is the sender. */
  lemma NameOncePerRun(feed: seq<FeedItem>, first: nat, last: nat, userId: string, k: nat, viewer: Option<string>)
    requires first <= k <= last < |feed|
    requires forall i :: first <= i <= last ==> IsMessageBy(feed[i], userId)
    requires first == 0 || !IsMessageBy(feed[first - 1], userId)
    ensures IsMessageBy(feed[k], userId)
    ensures ShowName(feed, k, viewer) <==> k == first && viewer != Some(userId)
  {
    AvatarOncePerRun(feed, first, last, userId, k);
  }

  // ---------------------------------------------------------------
  // Reaction tally
  // ---------------------------------------------------------------

  datatype ReactionCount = ReactionCount(reactionType: string, count: nat)

  function AsReactions(entries: seq<(string, nat)>): (r: seq<ReactionCount>)
    ensures |r| == |entries|
    ensures forall i :: 0 <= i < |r| ==> r[i] == ReactionCount(entries[i].0, entries[i].1)
  {
    if |entries| == 0 then [] else [ReactionCount(entries[0].0, entries[0].1)] + AsReactions(entries[1..])
  }

  /** The `reactions` a message carries, given its reaction types as fetched
      (`null` when the query returned no data). */
  function ReactionSummary(types: Option<seq<string>>): seq<ReactionCount> {
    AsReactions(Tally(types.GetOr([])))
  }

  /** The loop of `fetchMessages` that counts a message's reactions into an
      object and lists its entries. */
  method CountReactions(types: Option<seq<string>>) returns (reactions: seq<ReactionCount>)
    ensures reactions == ReactionSummary(types)
  {
    var rows := types.GetOr([]);
    var counts := new Counter();
    var i := 0;
    while i < |rows|
      invariant 0 <= i <= |rows|
      invariant counts.Valid()
      invariant Counted(counts.keys, counts.counts, rows[..i])
    {
      CountedStep(counts.keys, counts.counts, rows[..i], rows[i]);
      PrefixStep(rows, i);
      counts.Increment(rows[i]);
      i := i + 1;
    }
    assert rows[..i] == rows;
    CounterTally(counts.keys, counts.counts, rows);
    reactions := AsReactions(counts.Entries());
  }

  function ReactionTypes(reactions: seq<ReactionCount>): (r: seq<string>)
    ensures |r| == |reactions|
    ensures forall i :: 0 <= i < |r| ==> r[i] == reactions[i].reactionType
  {
    if |reactions| == 0 then [] else [reactions[0].reactionType] + ReactionTypes(reactions[1..])
  }

  lemma ReactionTypesOfEntries(entries: seq<(string, nat)>)
    ensures ReactionTypes(AsReactions(entries)) == Names(entries)
  {
  }

  /** Every reaction type of the message is listed once, with the number of
      rows of that type. */
  lemma ReactionSummaryExact(types: seq<string>)
    ensures var r := ReactionSummary(Some(types));
            && NoDup(ReactionTypes(r))
            && (forall t :: t in ReactionTypes(r) <==> t in types)
            && (forall i :: 0 <= i < |r| ==> r[i].count == Occurrences(types, r[i].reactionType) >= 1)
  {
    ReactionTypesOfEntries(Tally(types));
  }

  /** As written, `reactionCounts` is an object literal, so a row whose
      `reaction_type` names a member of `Object.prototype` is miscounted:
      "constructor" gets text for a count and "__proto__" is never listed. */
  lemma ReactionCountsAsWritten()
    ensures ObjectLiteral.LiteralCount(["constructor"])["constructor"]
            == ObjectLiteral.Str("function Object() { [native code] }1")
    ensures "__proto__" !in ObjectLiteral.LiteralCount(["__proto__"])
  {
    ObjectLiteral.ConstructorTagMiscounted();
    ObjectLiteral.ProtoTagDropped();
  }

  /** The summary the model uses lists one reaction of any type, once
      and with count 1, "constructor" and "__proto__" included. */
  lemma {:induction false} ReactionSummarySingle(t: string)
    ensures ReactionSummary(Some([t])) == [ReactionCount(t, 1)]
  {
    ObjectLiteral.TallySingle(t);
  }

  /** Reaction types that are not array-index strings (every emoji, for
      instance) are listed in the order they first occur. */
  lemma ReactionSummaryOrder(types: seq<string>)
    requires forall t :: t in types ==> !IsArrayIndex(t)
    ensures ReactionTypes(ReactionSummary(Some(types))) == FirstSeen(types)
  {
    TallyFirstSeenOrder(types);
    ReactionTypesOfEntries(Tally(types));
  }

  // ---------------------------------------------------------------
  // Poll vote tally and its display
  // ---------------------------------------------------------------

  datatype VoteCount = VoteCount(optionIndex: int, count: nat)

  /** `voteCounts[v.option_index]` uses the index's decimal text as key. */
  function VoteKeys(votes: seq<int>): (r: seq<string>)
    ensures |r| == |votes|
    ensures forall i :: 0 <= i < |r| ==> r[i] == IntToString(votes[i])
  {
    if |votes| == 0 then [] else [IntToString(votes[0])] + VoteKeys(votes[1..])
  }

  /** `Object.entries(voteCounts).map(([idx, count]) => ({option_index: parseInt(idx), count}))`. */
  function AsVoteCounts(entries: seq<(string, nat)>): (r: seq<VoteCount>)
    ensures |r| == |entries|
    ensures forall i :: 0 <= i < |r| ==> r[i] == VoteCount(ParseInt(entries[i].0), entries[i].1)
  {
    if |entries| == 0 then []
    else [VoteCount(ParseInt(entries[0].0), entries[0].1)] + AsVoteCounts(entries[1..])
  }

  /** The `votes` a poll carries, given the option indices of its vote rows. */
  function VoteSummary(votes: Option<seq<int>>): seq<VoteCount> {
    AsVoteCounts(Tally(VoteKeys(votes.GetOr([]))))
  }

  /** The loop of `fetchPolls` that counts a poll's votes into an object. */
  method CountVotes(votes: Option<seq<int>>) returns (summary: seq<VoteCount>)
    ensures summary == VoteSummary(votes)
  {
    var rows := votes.GetOr([]);
    ghost var keys := VoteKeys(rows);
    var counts := new Counter();
    var i := 0;
    while i < |rows|
      invariant 0 <= i <= |rows|
      invariant counts.Valid()
      invariant Counted(counts.keys, counts.counts, keys[..i])
    {
      var key := IntToString(rows[i]);
      assert key == keys[i];
      CountedStep(counts.keys, counts.counts, keys[..i], key);
      PrefixStep(keys, i);
      counts.Increment(key);
      i := i + 1;
    }
    assert keys[..i] == keys;
    CounterTally(counts.keys, counts.counts, keys);
    summary := AsVoteCounts(counts.Entries());
  }

  function OptionIndices(summary: seq<VoteCount>): (r: seq<int>)
    ensures |r| == |summary|
    ensures forall i :: 0 <= i < |r| ==> r[i] == summary[i].optionIndex
  {
    if |summary| == 0 then [] else [summary[0].optionIndex] + OptionIndices(summary[1..])
  }

  /** The count shown next to option `idx`:
      `votes.find(v => v.option_index === idx)?.count || 0`. */
  function DisplayCount(summary: seq<VoteCount>, idx: int): nat {
    if |summary| == 0 then 0
    else if summary[0].optionIndex == idx then summary[0].count
    else DisplayCount(summary[1..], idx)
  }

  /** `votes.reduce((sum, v) => sum + v.count, 0) || 0`. */
  function TotalVotes(summary: seq<VoteCount>): nat {
    if |summary| == 0 then 0 else summary[0].count + TotalVotes(summary[1..])
  }

  lemma OccurrencesOfKeys(votes: seq<int>, idx: int)
    ensures Occurrences(VoteKeys(votes), IntToString(idx)) == Occurrences(votes, idx)
  {
    OccurrencesOfPrinted(VoteKeys(votes), votes, idx);
  }

  /** Printing is injective, so a printed sequence holds the text of `idx`
      as often as the original holds `idx`. */
  lemma {:induction false} OccurrencesOfPrinted(keys: seq<string>, votes: seq<int>, idx: int)
    requires |keys| == |votes|
    requires forall i :: 0 <= i < |keys| ==> keys[i] == IntToString(votes[i])
    ensures Occurrences(keys, IntToString(idx)) == Occurrences(votes, idx)
  {
    if |votes| > 0 {
      var n := |votes| - 1;
      OccurrencesOfPrinted(keys[..n], votes[..n], idx);
      IntToStringInjective(votes[n], idx);
    }
  }

  /** Entry `i` of the summary is keyed by the text of an option index that
      was voted for, and `parseInt` recovers that index. */
  lemma VoteEntryKey(votes: seq<int>, i: nat)
    requires i < |Tally(VoteKeys(votes))|
    ensures var e := Tally(VoteKeys(votes));
            var v := ParseInt(e[i].0);
            v in votes && e[i].0 == IntToString(v)
  {
    var keys := VoteKeys(votes);
    var e := Tally(keys);
    var name := e[i].0;
    assert name == Names(e)[i];
    assert name in Names(e);
    assert name in keys;
    var k :| 0 <= k < |keys| && keys[k] == name;
    assert name == IntToString(votes[k]);
    ParseIntToString(votes[k]);
    assert votes[k] in votes;
  }

  /** The entry for a voted-for index `v`. */
  lemma VoteEntryOf(votes: seq<int>, v: int) returns (i: nat)
    requires v in votes
    ensures i < |Tally(VoteKeys(votes))| && Tally(VoteKeys(votes))[i].0 == IntToString(v)
  {
    var e := Tally(VoteKeys(votes));
    var k :| 0 <= k < |votes| && votes[k] == v;
    assert VoteKeys(votes)[k] == IntToString(v);
    assert IntToString(v) in Names(e);
    var j :| 0 <= j < |Names(e)| && Names(e)[j] == IntToString(v);
    i := j;
  }

  lemma {:induction false} DisplayCountFind(summary: seq<VoteCount>, idx: int, i: nat)
    requires i < |summary| && summary[i].optionIndex == idx
    requires forall j :: 0 <= j < i ==> summary[j].optionIndex != idx
    ensures DisplayCount(summary, idx) == summary[i].count
  {
    if i > 0 {
      DisplayCountFind(summary[1..], idx, i - 1);
    }
  }

  lemma {:induction false} DisplayCountMissing(summary: seq<VoteCount>, idx: int)
    requires forall j :: 0 <= j < |summary| ==> summary[j].optionIndex != idx
    ensures DisplayCount(summary, idx) == 0
  {
    if |summary| > 0 {
      DisplayCountMissing(summary[1..], idx);
    }
  }

  /** Every option shows exactly the number of votes cast for it; an option
      nobody voted for shows 0. */
  lemma DisplayCountIsVotes(votes: seq<int>, idx: int)
    ensures DisplayCount(VoteSummary(Some(votes)), idx) == Occurrences(votes, idx)
  {
    var e := Tally(VoteKeys(votes));
    var summary := VoteSummary(Some(votes));
    OccurrencesOfKeys(votes, idx);
    if idx in votes {
      var i := VoteEntryOf(votes, idx);
      ParseIntToString(idx);
      forall j | 0 <= j < i ensures summary[j].optionIndex != idx {
        VoteEntryKey(votes, j);
        assert Names(e)[j] != Names(e)[i];
      }
      DisplayCountFind(summary, idx, i);
    } else {
      forall j | 0 <= j < |summary| ensures summary[j].optionIndex != idx {
        VoteEntryKey(votes, j);
      }
      DisplayCountMissing(summary, idx);
    }
  }

  lemma {:induction false} TotalIsSum(entries: seq<(string, nat)>)
    ensures TotalVotes(AsVoteCounts(entries)) == SumCounts(entries)
  {
    if |entries| > 0 {
      TotalIsSum(entries[1..]);
      assert AsVoteCounts(entries)[1..] == AsVoteCounts(entries[1..]);
    }
  }

  /** The total shown under a poll is the number of vote rows. */
  lemma TotalVotesIsRows(votes: seq<int>)
    ensures TotalVotes(VoteSummary(Some(votes))) == |votes|
  {
    TotalIsSum(Tally(VoteKeys(votes)));
    TallySum(VoteKeys(votes));
  }

  /** The option index at position `i` of a poll's summary is the
      number its tally key parses to. */
  lemma VoteIndexAt(votes: seq<int>, i: nat)
    requires i < |Tally(VoteKeys(votes))|
    ensures |OptionIndices(VoteSummary(Some(votes)))| == |Tally(VoteKeys(votes))|
    ensures OptionIndices(VoteSummary(Some(votes)))[i] == ParseInt(Tally(VoteKeys(votes))[i].0)
  {
    var e := Tally(VoteKeys(votes));
    var summary := VoteSummary(Some(votes));
    assert summary == AsVoteCounts(e);
    assert summary[i].optionIndex == ParseInt(e[i].0);
  }

  /** Distinct keys that print the indices back give distinct indices. */
  lemma DistinctPrintedKeys(names: seq<string>, ix: seq<int>)
    requires NoDup(names) && |ix| == |names|
    requires forall i :: 0 <= i < |ix| ==> names[i] == IntToString(ix[i])
    ensures NoDup(ix)
  {
    forall i, j | 0 <= i < j < |ix| ensures ix[i] != ix[j] {
      assert names[i] != names[j];
    }
  }

  lemma VoteIndicesDistinct(votes: seq<int>)
    ensures NoDup(OptionIndices(VoteSummary(Some(votes))))
  {
    var e := Tally(VoteKeys(votes));
    var ix := OptionIndices(VoteSummary(Some(votes)));
    var names := Names(e);
    assert |ix| == |e| by {
      assert VoteSummary(Some(votes)) == AsVoteCounts(e);
    }
    forall i | 0 <= i < |ix| ensures names[i] == IntToString(ix[i]) {
      VoteIndexAt(votes, i);
      VoteEntryKey(votes, i);
    }
    DistinctPrintedKeys(names, ix);
  }

  lemma VoteIndicesVoted(votes: seq<int>)
    ensures forall v :: v in OptionIndices(VoteSummary(Some(votes))) <==> v in votes
  {
    var e := Tally(VoteKeys(votes));
    var ix := OptionIndices(VoteSummary(Some(votes)));
    assert |ix| == |e| by {
      assert VoteSummary(Some(votes)) == AsVoteCounts(e);
    }
    forall v ensures v in ix <==> v in votes {
      if v in votes {
        var i := VoteEntryOf(votes, v);
        VoteIndexAt(votes, i);
        ParseIntToString(v);
        assert ix[i] == v;
      }
      if v in ix {
        var i :| 0 <= i < |ix| && ix[i] == v;
        VoteIndexAt(votes, i);
        VoteEntryKey(votes, i);
      }
    }
  }

  /** Each option index that was voted for has exactly one entry. */
  lemma VoteSummaryKeys(votes: seq<int>)
    ensures var r := VoteSummary(Some(votes));
            && NoDup(OptionIndices(r))
            && (forall v :: v in OptionIndices(r) <==> v in votes)
  {
    VoteIndicesDistinct(votes);
    VoteIndicesVoted(votes);
  }

  /** The key of a non-negative option index below the array-index limit
      is an array index, and `parseInt` reads it as one. */
  lemma VoteKeyIsIndex(v: int)
    requires 0 <= v < ArrayIndexLimit
    ensures IsArrayIndex(IntToString(v)) && ParseInt(IntToString(v)) == ParseNat(IntToString(v))
  {
    NatKeyIsArrayIndex(v);
    assert IsDigit(NatToString(v)[0]);
  }

  lemma VoteKeysAreIndices(votes: seq<int>)
    requires forall v :: v in votes ==> 0 <= v < ArrayIndexLimit
    ensures forall k :: k in VoteKeys(votes) ==> IsArrayIndex(k) && ParseInt(k) == ParseNat(k)
  {
    var keys := VoteKeys(votes);
    forall t | 0 <= t < |keys| ensures IsArrayIndex(keys[t]) && ParseInt(keys[t]) == ParseNat(keys[t]) {
      assert votes[t] in votes;
      VoteKeyIsIndex(votes[t]);
    }
  }

  /** For the option indices the page produces (0, 1, 2, ...), the entries
      come out in strictly ascending option order. */
  lemma VoteSummaryAscending(votes: seq<int>)
    requires forall v :: v in votes ==> 0 <= v < ArrayIndexLimit
    ensures var r := VoteSummary(Some(votes));
            forall i, j :: 0 <= i < j < |r| ==> r[i].optionIndex < r[j].optionIndex
  {
    var keys := VoteKeys(votes);
    var e := Tally(keys);
    VoteKeysAreIndices(votes);
    TallyAllIndices(keys);
    forall i | 0 <= i < |e| ensures ParseInt(e[i].0) == ParseNat(e[i].0) {
      assert Names(e)[i] == e[i].0;
    }
  }

  // ---------------------------------------------------------------
  // Reacting
  // ---------------------------------------------------------------

  /** A `message_reactions` row. The model keeps the rows as a set: at most
      one row per message, user and type, which sequential toggles keep. */
  datatype ReactionRow = ReactionRow(messageId: string, userId: string, reactionType: string)

  /** `handleReact`: without a signed-in user nothing happens; otherwise the
      viewer's row for this message and type is deleted when it exists and
      inserted when it does not. No other row changes. */
  function ToggleReaction(rows: set<ReactionRow>, viewer: Option<string>, messageId: string, reactionType: string)
    : (r: set<ReactionRow>)
    ensures viewer.None? ==> r == rows
    ensures viewer.Some? ==>
      var row := ReactionRow(messageId, viewer.value, reactionType);
      && (row in r <==> row !in rows)
      && r - {row} == rows - {row}
      && |r| == if row in rows then |rows| - 1 else |rows| + 1
  {
    if viewer.None? then rows
    else
      var row := ReactionRow(messageId, viewer.value, reactionType);
      if row in rows then rows - {row} else rows + {row}
  }

  /** Reacting twice the same way restores the rows. */
  lemma ToggleTwice(rows: set<ReactionRow>, viewer: Option<string>, messageId: string, reactionType: string)
    ensures ToggleReaction(ToggleReaction(rows, viewer, messageId, reactionType), viewer, messageId, reactionType) == rows
  {
    if viewer.Some? {
      var row := ReactionRow(messageId, viewer.value, reactionType);
      var once := ToggleReaction(rows, viewer, messageId, reactionType);
      var twice := ToggleReaction(once, viewer, messageId, reactionType);
      assert twice - {row} == rows - {row};
      assert row in twice <==> row in rows;
      assert forall x :: x in twice <==> x in rows by {
        forall x ensures x in twice <==> x in rows {
          if x != row {
            assert x in twice <==> x in twice - {row};
            assert x in rows <==> x in rows - {row};
          }
        }
      }
    }
  }

  // ---------------------------------------------------------------
  // Voting
  // ---------------------------------------------------------------

  /** A `poll_votes` row. */
  datatype VoteRow = VoteRow(pollId: string, userId: string, optionIndex: int)

  predicate IsVoteOf(row: VoteRow, pollId: string, userId: string) {
    row.pollId == pollId && row.userId == userId
  }

  /** The table's uniqueness constraint: one row per poll and user. */
  ghost predicate OneVotePerUser(rows: seq<VoteRow>) {
    forall i, j :: 0 <= i < j < |rows| ==>
      !(rows[i].pollId == rows[j].pollId && rows[i].userId == rows[j].userId)
  }

  /** The rows of one poll and user, in table order. */
  function VotesOf(rows: seq<VoteRow>, pollId: string, userId: string): seq<VoteRow> {
    if |rows| == 0 then []
    else (if IsVoteOf(rows[0], pollId, userId) then [rows[0]] else []) + VotesOf(rows[1..], pollId, userId)
  }

  /** `select("option_index")....single()`: the option of the user's vote
      when exactly one row matches. */
  function UserVote(rows: seq<VoteRow>, pollId: string, userId: string): Option<int> {
    var mine := VotesOf(rows, pollId, userId);
    if |mine| == 1 then Some(mine[0].optionIndex) else None
  }

  datatype InsertError = UniqueViolation

  /** An insert into `poll_votes`, which fails exactly when the user already
      has a row for the poll (the backend's uniqueness constraint). */
  function InsertVote(rows: seq<VoteRow>, row: VoteRow): Result<seq<VoteRow>, InsertError> {
    if |VotesOf(rows, row.pollId, row.userId)| > 0 then Err(UniqueViolation) else Ok(rows + [row])
  }

  /** `update({option_index}).eq("poll_id", ..).eq("user_id", ..)`. */
  function UpdateVote(rows: seq<VoteRow>, pollId: string, userId: string, optionIndex: int): (r: seq<VoteRow>)
    ensures |r| == |rows|
    ensures forall i :: 0 <= i < |r| ==>
      r[i] == if IsVoteOf(rows[i], pollId, userId) then VoteRow(pollId, userId, optionIndex) else rows[i]
  {
    if |rows| == 0 then []
    else
      [if IsVoteOf(rows[0], pollId, userId) then VoteRow(pollId, userId, optionIndex) else rows[0]]
      + UpdateVote(rows[1..], pollId, userId, optionIndex)
  }

  /** `handleVote`: insert the vote and, when the insert fails, update the
      user's existing vote instead. */
  function CastVote(rows: seq<VoteRow>, viewer: Option<string>, pollId: string, optionIndex: int): seq<VoteRow> {
    if viewer.None? then rows
    else
      match InsertVote(rows, VoteRow(pollId, viewer.value, optionIndex))
      case Ok(inserted) => inserted
      case Err(_) => UpdateVote(rows, pollId, viewer.value, optionIndex)
  }

  lemma {:induction false} VotesOfAppend(a: seq<VoteRow>, b: seq<VoteRow>, pollId: string, userId: string)
    ensures VotesOf(a + b, pollId, userId) == VotesOf(a, pollId, userId) + VotesOf(b, pollId, userId)
  {
    if |a| == 0 {
      assert a + b == b;
    } else {
      assert (a + b)[0] == a[0];
      assert (a + b)[1..] == a[1..] + b;
      VotesOfAppend(a[1..], b, pollId, userId);
      var head := if IsVoteOf(a[0], pollId, userId) then [a[0]] else [];
      assert VotesOf(a + b, pollId, userId) == head + VotesOf(a[1..] + b, pollId, userId);
      assert VotesOf(a, pollId, userId) == head + VotesOf(a[1..], pollId, userId);
      assert head + (VotesOf(a[1..], pollId, userId) + VotesOf(b, pollId, userId))
          == (head + VotesOf(a[1..], pollId, userId)) + VotesOf(b, pollId, userId);
    }
  }

  lemma {:induction false} VotesOfEmpty(rows: seq<VoteRow>, pollId: string, userId: string)
    ensures VotesOf(rows, pollId, userId) == [] <==> forall i :: 0 <= i < |rows| ==> !IsVoteOf(rows[i], pollId, userId)
  {
    if |rows| > 0 {
      VotesOfEmpty(rows[1..], pollId, userId);
      assert forall i :: 1 <= i < |rows| ==> rows[1..][i - 1] == rows[i];
    }
  }

  lemma {:induction false} VotesOfUnique(rows: seq<VoteRow>, pollId: string, userId: string)
    requires OneVotePerUser(rows)
    ensures |VotesOf(rows, pollId, userId)| <= 1
  {
    if |rows| > 0 {
      assert OneVotePerUser(rows[1..]) by {
        forall i, j | 0 <= i < j < |rows[1..]|
          ensures !(rows[1..][i].pollId == rows[1..][j].pollId && rows[1..][i].userId == rows[1..][j].userId)
        {
          assert rows[1..][i] == rows[i + 1] && rows[1..][j] == rows[j + 1];
        }
      }
      VotesOfUnique(rows[1..], pollId, userId);
      if IsVoteOf(rows[0], pollId, userId) {
        VotesOfEmpty(rows[1..], pollId, userId);
        forall i | 0 <= i < |rows[1..]| ensures !IsVoteOf(rows[1..][i], pollId, userId) {
          assert rows[1..][i] == rows[i + 1];
        }
      }
    }
  }

  lemma {:induction false} VotesOfUpdate(rows: seq<VoteRow>, pollId: string, userId: string, optionIndex: int,
                                         p: string, u: string)
    ensures VotesOf(UpdateVote(rows, pollId, userId, optionIndex), p, u)
         == if p == pollId && u == userId
            then seq(|VotesOf(rows, p, u)|, _ => VoteRow(pollId, userId, optionIndex))
            else VotesOf(rows, p, u)
  {
    if |rows| > 0 {
      VotesOfUpdate(rows[1..], pollId, userId, optionIndex, p, u);
      assert UpdateVote(rows, pollId, userId, optionIndex)[1..] == UpdateVote(rows[1..], pollId, userId, optionIndex);
    }
  }

  lemma UpdatePreservesUnique(rows: seq<VoteRow>, pollId: string, userId: string, optionIndex: int)
    requires OneVotePerUser(rows)
    ensures OneVotePerUser(UpdateVote(rows, pollId, userId, optionIndex))
  {
  }

  lemma InsertPreservesUnique(rows: seq<VoteRow>, row: VoteRow)
    requires OneVotePerUser(rows) && InsertVote(rows, row).Ok?
    ensures OneVotePerUser(InsertVote(rows, row).value)
  {
    VotesOfEmpty(rows, row.pollId, row.userId);
    var r := rows + [row];
    forall i, j | 0 <= i < j < |r| ensures !(r[i].pollId == r[j].pollId && r[i].userId == r[j].userId) {
      if j == |rows| {
        assert !IsVoteOf(rows[i], row.pollId, row.userId);
      }
    }
  }

  /** After voting, the table still has one row per poll and user, the
      viewer's vote for this poll is the chosen option, and the rows of every
      other poll and user are the same. */
  lemma CastVoteEffect(rows: seq<VoteRow>, userId: string, pollId: string, optionIndex: int)
    requires OneVotePerUser(rows)
    ensures var r := CastVote(rows, Some(userId), pollId, optionIndex);
            && OneVotePerUser(r)
            && UserVote(r, pollId, userId) == Some(optionIndex)
            && (forall p, u :: !(p == pollId && u == userId) ==> VotesOf(r, p, u) == VotesOf(rows, p, u))
  {
    var row := VoteRow(pollId, userId, optionIndex);
    var r := CastVote(rows, Some(userId), pollId, optionIndex);
    match InsertVote(rows, row)
    case Ok(inserted) =>
      InsertPreservesUnique(rows, row);
      VotesOfAppend(rows, [row], pollId, userId);
      assert VotesOf([row], pollId, userId) == [row];
      forall p, u | !(p == pollId && u == userId) ensures VotesOf(r, p, u) == VotesOf(rows, p, u) {
        VotesOfAppend(rows, [row], p, u);
        assert VotesOf([row], p, u) == [];
      }
    case Err(_) =>
      UpdatePreservesUnique(rows, pollId, userId, optionIndex);
      VotesOfUnique(rows, pollId, userId);
      VotesOfUpdate(rows, pollId, userId, optionIndex, pollId, userId);
      forall p, u | !(p == pollId && u == userId) ensures VotesOf(r, p, u) == VotesOf(rows, p, u) {
        VotesOfUpdate(rows, pollId, userId, optionIndex, p, u);
      }
  }

  /** Casting the same vote again changes nothing. */
  lemma CastVoteIdempotent(rows: seq<VoteRow>, viewer: Option<string>, pollId: string, optionIndex: int)
    requires OneVotePerUser(rows)
    ensures var once := CastVote(rows, viewer, pollId, optionIndex);
            CastVote(once, viewer, pollId, optionIndex) == once
  {
    if viewer.Some? {
      var u := viewer.value;
      var once := CastVote(rows, viewer, pollId, optionIndex);
      CastVoteEffect(rows, u, pollId, optionIndex);
      assert |VotesOf(once, pollId, u)| == 1;
      var twice := UpdateVote(once, pollId, u, optionIndex);
      forall i | 0 <= i < |once| ensures twice[i] == once[i] {
        if IsVoteOf(once[i], pollId, u) {
          VotesOfSingle(once, pollId, u, i);
        }
      }
    }
  }

  lemma {:induction false} VotesOfSingle(rows: seq<VoteRow>, pollId: string, userId: string, i: nat)
    requires i < |rows| && IsVoteOf(rows[i], pollId, userId) && |VotesOf(rows, pollId, userId)| == 1
    ensures rows[i] == VotesOf(rows, pollId, userId)[0]
  {
    if i > 0 {
      if IsVoteOf(rows[0], pollId, userId) {
        VotesOfEmpty(rows[1..], pollId, userId);
      } else {
        VotesOfSingle(rows[1..], pollId, userId, i - 1);
      }
    }
  }

  // ---------------------------------------------------------------
  // Creating a poll
  // ---------------------------------------------------------------

  datatype PollError = MissingQuestion | TooFewOptions

  /** The row `handleCreatePoll` inserts into `room_polls`. */
  datatype NewPoll = NewPoll(roomId: string, createdBy: string, question: string, options: seq<string>)

  /** `opt => opt.trim()`, read as a condition. */
  predicate IsFilledOption(o: string) {
    !IsBlank(o)
  }

  /** `newPollOptions.filter(opt => opt.trim())`. */
  function NonBlankOptions(options: seq<string>): (r: seq<string>)
    ensures forall k :: 0 <= k < |r| ==> !IsBlank(r[k])
  {
    Filter(options, IsFilledOption)
  }

  /** The kept options are untrimmed and in their original order. */
  lemma NonBlankOptionsInOrder(options: seq<string>)
    ensures IsSubsequence(NonBlankOptions(options), options)
  {
    FilterInOrder(options, IsFilledOption);
  }

  /** Every non-blank option is kept, as often as it occurs, and no blank
      one is. */
  lemma NonBlankOptionsKeepsAll(options: seq<string>, o: string)
    ensures !IsBlank(o) ==> Occurrences(NonBlankOptions(options), o) == Occurrences(options, o)
    ensures IsBlank(o) ==> o !in NonBlankOptions(options)
  {
    FilterOccurrences(options, IsFilledOption, o);
  }

  /** `handleCreatePoll`'s two checks, in order: a room, a signed-in user and
      a non-blank question; then at least two non-blank options. */
  function ValidatePoll(roomId: Option<string>, userId: Option<string>, question: string, options: seq<string>)
    : (r: Result<NewPoll, PollError>)
    ensures r == Err(MissingQuestion) <==> !Truthy(roomId) || userId.None? || IsBlank(question)
    ensures r == Err(TooFewOptions) <==>
              Truthy(roomId) && userId.Some? && !IsBlank(question) && |NonBlankOptions(options)| < 2
    ensures r.Ok? ==> && r.value.roomId == roomId.value && r.value.createdBy == userId.value
                      && r.value.question == question
                      && r.value.options == NonBlankOptions(options) && |r.value.options| >= 2
  {
    if !Truthy(roomId) || userId.None? || IsBlank(question) then Err(MissingQuestion)
    else
      var valid := NonBlankOptions(options);
      if |valid| < 2 then Err(TooFewOptions)
      else Ok(NewPoll(roomId.value, userId.value, question, valid))
  }

  // ---------------------------------------------------------------
  // Sending a message
  // ---------------------------------------------------------------

  /** The row `handleSendMessage` inserts into `room_messages`. */
  datatype NewRoomMessage = NewRoomMessage(roomId: string, userId: string, content: string)

  /** What `handleSendMessage` sends for a draft, if anything. */
  function SendAttempt(roomId: Option<string>, userId: Option<string>, draft: string): (r: Option<NewRoomMessage>)
    ensures r.None? <==> !Truthy(roomId) || userId.None? || IsBlank(draft)
    ensures r.Some? ==> && r.value.roomId == roomId.value && r.value.userId == userId.value
                        && r.value.content == Trim(draft) && r.value.content != ""
  {
    if !Truthy(roomId) || userId.None? || IsBlank(draft) then None
    else Some(NewRoomMessage(roomId.value, userId.value, Trim(draft)))
  }

  /** After a failed send puts the trimmed text back as the draft, sending
      again sends the same message. */
  lemma ResendRestoredDraft(roomId: Option<string>, userId: Option<string>, draft: string)
    requires SendAttempt(roomId, userId, draft).Some?
    ensures SendAttempt(roomId, userId, SendAttempt(roomId, userId, draft).value.content)
         == SendAttempt(roomId, userId, draft)
  {
    TrimIdempotent(draft);
  }

  /** The page's input state: the message draft and the poll dialog. */
  class RoomComposer {
    var newMessage: string
    var newPollQuestion: string
    var newPollOptions: seq<string>
    var showCreatePoll: bool

    /** The poll form always offers at least the two initial option fields. */
    ghost predicate Valid()
      reads this
    {
      |newPollOptions| >= 2
    }

    constructor ()
      ensures Valid()
      ensures newMessage == "" && newPollQuestion == "" && newPollOptions == ["", ""] && !showCreatePoll
    {
      newMessage := "";
      newPollQuestion := "";
      newPollOptions := ["", ""];
      showCreatePoll := false;
    }

    method EditDraft(text: string)
      requires Valid()
      modifies this
      ensures Valid()
      ensures newMessage == text
      ensures newPollQuestion == old(newPollQuestion) && newPollOptions == old(newPollOptions)
      ensures showCreatePoll == old(showCreatePoll)
    {
      newMessage := text;
    }

    /** The part of `handleSendMessage` before the insert: when there is
        something to send, the draft is cleared at once. */
    method BeginSend(roomId: Option<string>, userId: Option<string>) returns (outgoing: Option<NewRoomMessage>)
      requires Valid()
      modifies this
      ensures Valid()
      ensures outgoing == SendAttempt(roomId, userId, old(newMessage))
      ensures newMessage == if outgoing.Some? then "" else old(newMessage)
      ensures newPollQuestion == old(newPollQuestion) && newPollOptions == old(newPollOptions)
      ensures showCreatePoll == old(showCreatePoll)
    {
      outgoing := SendAttempt(roomId, userId, newMessage);
      if outgoing.Some? {
        newMessage := "";
      }
    }

    /** The part after the insert: a failure puts the sent text back as the
        draft, replacing whatever was typed meanwhile. */
    method FinishSend(sent: NewRoomMessage, insertFailed: bool)
      requires Valid()
      modifies this
      ensures Valid()
      ensures newMessage == if insertFailed then sent.content else old(newMessage)
      ensures newPollQuestion == old(newPollQuestion) && newPollOptions == old(newPollOptions)
      ensures showCreatePoll == old(showCreatePoll)
    {
      if insertFailed {
        newMessage := sent.content;
      }
    }

    /** The dialog's `open` state. */
    method SetShowCreatePoll(open: bool)
      requires Valid()
      modifies this
      ensures Valid()
      ensures showCreatePoll == open
      ensures newMessage == old(newMessage) && newPollQuestion == old(newPollQuestion)
      ensures newPollOptions == old(newPollOptions)
    {
      showCreatePoll := open;
    }

    method EditPollQuestion(question: string)
      requires Valid()
      modifies this
      ensures Valid()
      ensures newPollQuestion == question
      ensures newMessage == old(newMessage) && newPollOptions == old(newPollOptions)
      ensures showCreatePoll == old(showCreatePoll)
    {
      newPollQuestion := question;
    }

    /** Typing into option field `idx` replaces that option only. */
    method EditPollOption(idx: nat, value: string)
      requires Valid() && idx < |newPollOptions|
      modifies this
      ensures Valid()
      ensures newPollOptions == old(newPollOptions)[idx := value]
      ensures newMessage == old(newMessage) && newPollQuestion == old(newPollQuestion)
      ensures showCreatePoll == old(showCreatePoll)
    {
      newPollOptions := newPollOptions[idx := value];
    }

    /** "Add Option" appends an empty field. */
    method AddPollOption()
      requires Valid()
      modifies this
      ensures Valid()
      ensures newPollOptions == old(newPollOptions) + [""]
      ensures newMessage == old(newMessage) && newPollQuestion == old(newPollQuestion)
      ensures showCreatePoll == old(showCreatePoll)
    {
      newPollOptions := newPollOptions + [""];
    }

    /** `handleCreatePoll`: validate, insert, and reset the form only when
        the insert succeeded. */
    method CreatePoll(roomId: Option<string>, userId: Option<string>, insertFailed: bool)
      returns (r: Result<NewPoll, PollError>)
      requires Valid()
      modifies this
      ensures Valid()
      ensures r == ValidatePoll(roomId, userId, old(newPollQuestion), old(newPollOptions))
      ensures newMessage == old(newMessage)
      ensures if r.Ok? && !insertFailed
              then newPollQuestion == "" && newPollOptions == ["", ""] && !showCreatePoll
              else newPollQuestion == old(newPollQuestion) && newPollOptions == old(newPollOptions)
                   && showCreatePoll == old(showCreatePoll)
    {
      r := ValidatePoll(roomId, userId, newPollQuestion, newPollOptions);
      if r.Ok? && !insertFailed {
        ResetPollForm();
      }
    }

    /** Close the dialog and empty the form, as after a successful poll. */
    method ResetPollForm()
      modifies this
      ensures Valid()
      ensures newPollQuestion == "" && newPollOptions == ["", ""] && !showCreatePoll
      ensures newMessage == old(newMessage)
    {
      showCreatePoll := false;
      newPollQuestion := "";
      newPollOptions := ["", ""];
    }
  }

  // ---------------------------------------------------------------
  // Time ago
  // ---------------------------------------------------------------

  /** `getTimeAgo`'s bucket for a difference of `diffMs` milliseconds
      between now and the posting time. */
  function TimeAgo(diffMs: int): (a: Ago)
    ensures a == JustNow <==> diffMs < MsPerMinute
    ensures a.MinutesAgo? <==> MsPerMinute <= diffMs < MsPerHour
    ensures a.HoursAgo? <==> MsPerHour <= diffMs < MsPerDay
    ensures a.DaysAgo? <==> MsPerDay <= diffMs
    ensures a.MinutesAgo? ==> 1 <= a.n < 60 && a.n * MsPerMinute <= diffMs < (a.n + 1) * MsPerMinute
    ensures a.HoursAgo? ==> 1 <= a.n < 24 && a.n * MsPerHour <= diffMs < (a.n + 1) * MsPerHour
    ensures a.DaysAgo? ==> 1 <= a.n && a.n * MsPerDay <= diffMs < (a.n + 1) * MsPerDay
  {
    MinutesBounds(diffMs);
    HoursBounds(diffMs);
    DaysBounds(diffMs);
    var m := Minutes(diffMs);
    if m < 1 then JustNow
    else if m < 60 then MinutesAgo(m)
    else if Hours(diffMs) < 24 then HoursAgo(Hours(diffMs))
    else DaysAgo(Days(diffMs))
  }

  function AgoText(a: Ago): string {
    match a
    case JustNow => "Just now"
    case MinutesAgo(n) => IntToString(n) + "m ago"
    case HoursAgo(n) => IntToString(n) + "h ago"
    case DaysAgo(n) => IntToString(n) + "d ago"
  }

  /** The label `getTimeAgo` renders. */
  function GetTimeAgo(diffMs: int): string {
    AgoText(TimeAgo(diffMs))
  }

  /** Reads a label back. */
  function ParseAgo(text: string): Option<Ago> {
    if text == "Just now" then Some(JustNow)
    else match StripSuffix(text, "m ago")
      case Some(n) => Some(MinutesAgo(ParseInt(n)))
      case None =>
        match StripSuffix(text, "h ago")
        case Some(n) => Some(HoursAgo(ParseInt(n)))
        case None =>
          match StripSuffix(text, "d ago")
          case Some(n) => Some(DaysAgo(ParseInt(n)))
          case None => None
  }

  /** Different buckets and different numbers give different labels. */
  lemma AgoTextRoundTrip(a: Ago)
    ensures ParseAgo(AgoText(a)) == Some(a)
  {
    match a
    case JustNow =>
    case MinutesAgo(n) =>
      var t := IntToString(n) + "m ago";
      assert t[|t| - 1] == 'o' && "Just now"[7] == 'w';
      StripSuffixOf(IntToString(n), "m ago");
      ParseIntToString(n);
    case HoursAgo(n) =>
      var t := IntToString(n) + "h ago";
      assert t[|t| - 1] == 'o' && "Just now"[7] == 'w';
      assert t[|t| - 5] == 'h';
      StripSuffixMismatch(t, "m ago", 5);
      StripSuffixOf(IntToString(n), "h ago");
      ParseIntToString(n);
    case DaysAgo(n) =>
      var t := IntToString(n) + "d ago";
      assert t[|t| - 1] == 'o' && "Just now"[7] == 'w';
      assert t[|t| - 5] == 'd';
      StripSuffixMismatch(t, "m ago", 5);
      StripSuffixMismatch(t, "h ago", 5);
      StripSuffixOf(IntToString(n), "d ago");
      ParseIntToString(n);
  }

  lemma GetTimeAgoReadsBack(diffMs: int)
    ensures ParseAgo(GetTimeAgo(diffMs)) == Some(TimeAgo(diffMs))
  {
    AgoTextRoundTrip(TimeAgo(diffMs));
  }
}
