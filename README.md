# Haliot page rules in Dafny

Haliot is a research-collaboration web client. Its React pages hold a few
small, self-contained rules, and this project models them and proves what
they promise:

- **Discussion room** (`RoomChat`):
  - per-message reaction tallies;
  - per-poll vote tallies, with the counts shown next to each option and the total;
  - the time-ordered feed that merges messages and polls;
  - the "show avatar / show name" grouping of consecutive messages;
  - the "Just now / 5m ago / 3h ago / 2d ago" labels;
  - poll validation and the poll form;
  - the reaction toggle;
  - the vote upsert;
  - the message draft that is cleared on send and restored on failure.
- **Trending topics sidebar** (`TrendingSidebar`): tag counts across posts and the top five.
- **Post editor** (`CreatePost`): the deduplicated tag list.
- **Profile completion page** (`ProfileCompletion`):
  - the expertise list and the publication list;
  - the required-field check;
  - the defaults applied when the profile is loaded;
  - the initials.
- **Saved posts page** (`Saved`):
  - the ID extraction;
  - the most-recently-saved-first ordering;
  - the error branches;
  - its own time-ago labels.
- **Direct messages page** (`Chat`): initials, and the send guard and draft rule.
- **Profile sidebar** (`ProfileSidebar`): initials, the completion threshold and the display fallbacks.

Backend rows are datatypes. Timestamps are integer milliseconds. The
outcome of a backend call, such as "the insert failed", is a parameter.

State that a page changes in place becomes a class with `modifies` clauses:
`CreatePost.TagEditor`, `ProfileCompletion.ProfileForm`,
`RoomChat.RoomComposer`, `Chat.ChatComposer`, and the counting object
`JsObject.Counter`. The loops that fill a counting object are methods with
loop invariants. The rest are functions with lemmas.

Several JavaScript semantics are modelled faithfully:

- `Object.entries` order (section 10.1.11.1 of ECMA-262): array-index keys come first, in ascending order, then the other keys in creation order. This is why vote entries come out by option index, while reactions and tags come out in first-seen order.
- Stable `Array.prototype.sort` (section 23.1.3.30 of ECMA-262), modelled as an insertion sort driven by the page's own comparator. When the comparator is a key difference, it is proved sorted, stable and the unique such permutation.
- `trim` over the ECMAScript WhiteSpace and LineTerminator set.
- `split(' ')` and `join('')`, including the `undefined` that `n[0]` yields for an empty piece, which joins as "".
- `charAt`, and ASCII `toUpperCase`.
- `||` truthiness.
- `includes`.
- `String(n)` and `parseInt` on the keys.
- `Math.floor` of a division by a positive constant, which is Dafny's `/`, negative differences included.

Shared modules:

- `Wrappers`: Option and Result.
- `Seqs`: occurrences, no-duplicates, first-seen order, subsequences and filters.
- `JsText`
- `StableSort`
- `JsObject`
- `TagList`: the add/remove rule shared by tags and expertise.
- `Names`: the initials rule.
- `Elapsed`: floor buckets and suffix parsing.
- `ObjectLiteral`: the behaviour of a `{}` counter as written (see Findings).

## Model

| member | source | states |
|---|---|---|
| RoomChat.CombinedFeed | src/pages/RoomChat.tsx:88-91 | the feed holds exactly the messages and the polls, each once |
| RoomChat.CombinedFeedSorted | src/pages/RoomChat.tsx:91 | the feed runs by non-decreasing timestamp |
| RoomChat.CombinedFeedTies | src/pages/RoomChat.tsx:88-91 | among items with equal timestamps, messages come first and keep their order, then polls in their order |
| RoomChat.CombinedFeedUnique | src/pages/RoomChat.tsx:88-91 | any ordering that is time-sorted with those ties is the feed itself |
| RoomChat.AvatarOncePerRun | src/pages/RoomChat.tsx:520-521 | in a run of consecutive messages from one sender, the avatar shows exactly on the first |
| RoomChat.NameOncePerRun | src/pages/RoomChat.tsx:519-522 | in a run of consecutive messages from one sender, the name shows exactly on the first, and on none of the viewer's own |
| RoomChat.CountReactions | src/pages/RoomChat.tsx:166-174 | the counting loop produces the reaction summary of the fetched rows (none when the fetch returned nothing) |
| RoomChat.ReactionSummaryExact | src/pages/RoomChat.tsx:166-174 | every reaction type of the rows is listed once, and only those, with its number of rows |
| RoomChat.ReactionCountsAsWritten | src/pages/RoomChat.tsx:166-168 | as written, a reaction row of type "constructor" is counted as the text "function Object() { [native code] }1" and one of type "__proto__" is never stored |
| RoomChat.ReactionSummarySingle | src/pages/RoomChat.tsx:166-174 | the summary the model uses lists a single reaction of any type once with count 1, these two types included |
| RoomChat.ReactionSummaryOrder | src/pages/RoomChat.tsx:174 | types that are not array-index strings are listed in first-seen order |
| RoomChat.CountVotes | src/pages/RoomChat.tsx:203-206 | the counting loop produces the vote summary of the fetched rows |
| RoomChat.VoteSummaryKeys | src/pages/RoomChat.tsx:203-220 | the summary has one entry per voted option index and no other entries |
| RoomChat.VoteIndicesDistinct | src/pages/RoomChat.tsx:217-220 | no option index appears twice in the summary |
| RoomChat.VoteIndicesVoted | src/pages/RoomChat.tsx:203-220 | an option index is in the summary exactly when some vote row carries it |
| RoomChat.DisplayCountIsVotes | src/pages/RoomChat.tsx:618 | each option shows the number of rows that voted for it, and 0 when there are none |
| RoomChat.TotalVotesIsRows | src/pages/RoomChat.tsx:619 | the total under a poll is the number of vote rows |
| RoomChat.VoteSummaryAscending | src/pages/RoomChat.tsx:217-220 | for indices below 2^32-1, the entries come out in strictly ascending option order |
| RoomChat.OccurrencesOfKeys | src/pages/RoomChat.tsx:205 | keying by the index's decimal text counts each index as often as it was voted |
| RoomChat.VoteEntryKey | src/pages/RoomChat.tsx:217-218 | each entry's key is the text of a voted index, and `parseInt` reads that index back |
| RoomChat.ToggleReaction | src/pages/RoomChat.tsx:316-336 | signed out, nothing changes; signed in, the viewer's (message, type) row flips between present and absent, no other row changes and the size moves by one |
| RoomChat.ToggleTwice | src/pages/RoomChat.tsx:318-336 | reacting twice the same way restores the rows |
| RoomChat.UpdateVote | src/pages/RoomChat.tsx:350-353 | the update rewrites the option of the viewer's rows for the poll and leaves every other row as it was |
| RoomChat.VotesOfUpdate | src/pages/RoomChat.tsx:350-353 | after the update, the rows of any poll and user are those before, with the option rewritten only for the voter's own |
| RoomChat.InsertPreservesUnique | src/pages/RoomChat.tsx:342-347 | an insert the unique constraint accepts keeps one row per poll and user |
| RoomChat.UpdatePreservesUnique | src/pages/RoomChat.tsx:350-353 | the update keeps one row per poll and user |
| RoomChat.CastVoteEffect | src/pages/RoomChat.tsx:339-355 | after voting there is still one row per poll and user, the viewer's vote for the poll is the chosen option, and every other poll and user is untouched |
| RoomChat.CastVoteIdempotent | src/pages/RoomChat.tsx:339-355 | casting the same vote again changes nothing |
| RoomChat.VotesOfUnique | src/pages/RoomChat.tsx:342-353 | with one row per poll and user, a poll and user have at most one vote |
| RoomChat.NonBlankOptions | src/pages/RoomChat.tsx:367 | every kept option is non-blank |
| RoomChat.NonBlankOptionsInOrder | src/pages/RoomChat.tsx:367 | the kept options are a subsequence of the entered ones and stay untrimmed |
| RoomChat.NonBlankOptionsKeepsAll | src/pages/RoomChat.tsx:367 | a non-blank option is kept as often as it was entered; a blank one never |
| RoomChat.ValidatePoll | src/pages/RoomChat.tsx:358-383 | rejects with the question error exactly when room, user or non-blank question is missing; otherwise rejects with the options error exactly when fewer than two options are non-blank; an accepted poll carries the question as entered and the non-blank options |
| RoomChat.RoomComposer.CreatePoll | src/pages/RoomChat.tsx:357-400 | validates the form as above; only an accepted poll whose insert succeeded closes the dialog and resets question and options to "" and ["", ""] |
| RoomChat.RoomComposer.ResetPollForm | src/pages/RoomChat.tsx:396-398 | closes the dialog, question "", options ["", ""], draft untouched |
| RoomChat.RoomComposer.EditPollOption | src/pages/RoomChat.tsx:713-717 | replaces option `idx` and nothing else |
| RoomChat.RoomComposer.AddPollOption | src/pages/RoomChat.tsx:723 | appends an empty option and nothing else |
| RoomChat.RoomComposer.SetShowCreatePoll | src/pages/RoomChat.tsx:61 | opens or closes the dialog, nothing else |
| RoomChat.RoomComposer.EditPollQuestion | src/pages/RoomChat.tsx:704 | sets the question, nothing else |
| RoomChat.RoomComposer.EditDraft | src/pages/RoomChat.tsx:58 | sets the draft, nothing else |
| RoomChat.RoomComposer.constructor | src/pages/RoomChat.tsx:58-63 | empty draft and question, two empty options, dialog closed |
| RoomChat.SendAttempt | src/pages/RoomChat.tsx:288-298 | nothing is sent exactly when the room, the user or a non-blank draft is missing; otherwise the trimmed, non-empty draft is sent for that room and user |
| RoomChat.RoomComposer.BeginSend | src/pages/RoomChat.tsx:288-291 | sends what `SendAttempt` sends and clears the draft at once when something is sent |
| RoomChat.RoomComposer.FinishSend | src/pages/RoomChat.tsx:300-306 | a failed insert restores the trimmed text as the draft; success leaves the draft alone |
| RoomChat.ResendRestoredDraft | src/pages/RoomChat.tsx:288-306 | a restored draft sends the same text again |
| RoomChat.TimeAgo | src/pages/RoomChat.tsx:429-441 | "Just now" exactly below one minute, negative differences included; then whole minutes in 1..59, whole hours in 1..23, or whole days, each the floor of the difference |
| RoomChat.AgoTextRoundTrip | src/pages/RoomChat.tsx:437-440 | the label text reads back as the bucket and number it was made from |
| RoomChat.GetTimeAgoReadsBack | src/pages/RoomChat.tsx:429-441 | the label of a difference reads back as its bucket |
| TrendingSidebar.FetchTrendingTopics | src/components/Feed/TrendingSidebar.tsx:18-31 | without data nothing is set; with data the topics are the top five of the counted tags |
| TrendingSidebar.CountTags | src/components/Feed/TrendingSidebar.tsx:21-23 | the inner loop counts one post's tags on top of what was counted before |
| TrendingSidebar.AllTagsCount | src/components/Feed/TrendingSidebar.tsx:19-24 | a tag's count is its number of occurrences summed over posts, repeats within a post included |
| TrendingSidebar.PostWithoutTagsIgnored | src/components/Feed/TrendingSidebar.tsx:21 | a post without tags changes no topic |
| TrendingSidebar.RankedEntry | src/components/Feed/TrendingSidebar.tsx:26-27 | each ranked entry is a tag that occurs, with its total count, at least 1 |
| TrendingSidebar.RankingDistinct | src/components/Feed/TrendingSidebar.tsx:26-27 | ranked names are distinct |
| TrendingSidebar.RankingSorted | src/components/Feed/TrendingSidebar.tsx:27 | ranked counts never increase |
| TrendingSidebar.RankingComplete | src/components/Feed/TrendingSidebar.tsx:26-27 | every tag that occurs is ranked |
| TrendingSidebar.RankingTies | src/components/Feed/TrendingSidebar.tsx:26-27 | tags with equal counts keep their `Object.entries` order |
| TrendingSidebar.TopTopicsPrefix | src/components/Feed/TrendingSidebar.tsx:28-29 | the topics are the first min(5, n) ranked entries |
| TrendingSidebar.TopTopicsDistinct | src/components/Feed/TrendingSidebar.tsx:26-29 | listed names are distinct |
| TrendingSidebar.TopTopicsCounts | src/components/Feed/TrendingSidebar.tsx:26-29 | at most five topics, distinct names, each a tag that occurs with its count, at least 1 |
| TrendingSidebar.TopTopicsDescending | src/components/Feed/TrendingSidebar.tsx:27 | counts never increase down the list |
| TrendingSidebar.TopTopicsAreTop | src/components/Feed/TrendingSidebar.tsx:27-28 | no tag left out occurs more often than any listed topic |
| TrendingSidebar.ListedTagOccurs | src/components/Feed/TrendingSidebar.tsx:26-29 | every listed name is a tag of some post |
| TrendingSidebar.FewTagsTagListed | src/components/Feed/TrendingSidebar.tsx:28 | with at most five distinct tags, a given tag is listed |
| TrendingSidebar.FewTagsAllListed | src/components/Feed/TrendingSidebar.tsx:26-29 | with at most five distinct tags, the listed names are exactly the tags |
| TagList.AddTag | src/pages/CreatePost.tsx:15-20 | a blank input, or one whose trimmed text is already listed, changes nothing; otherwise the trimmed text is appended and the input cleared |
| TagList.RemoveTag | src/pages/CreatePost.tsx:22-24 | the removed tag is no longer listed |
| TagList.RemoveTagKeepsOthers | src/pages/CreatePost.tsx:23 | every other tag keeps its number of occurrences |
| TagList.RemoveTagInOrder | src/pages/CreatePost.tsx:23 | the rest keep their order |
| TagList.RemoveAbsent | src/pages/CreatePost.tsx:23 | removing an absent tag changes nothing |
| TagList.RemoveTagMember | src/pages/CreatePost.tsx:23 | removal adds no tag |
| TagList.AddTagKeepsWellFormed | src/pages/CreatePost.tsx:15-20 | adding keeps the list free of duplicates, with every tag trimmed and non-empty |
| TagList.RemoveTagKeepsWellFormed | src/pages/CreatePost.tsx:22-24 | removing keeps that invariant |
| TagList.AddThenRemove | src/pages/CreatePost.tsx:15-24 | adding a new tag and removing it restores the list |
| CreatePost.TagEditor.constructor | src/pages/CreatePost.tsx:12-13 | starts with no tags and an empty input, so the invariant holds |
| CreatePost.TagEditor.SetTagInput | src/pages/CreatePost.tsx:13 | sets the input, keeps the tags and the invariant |
| CreatePost.TagEditor.AddTag | src/pages/CreatePost.tsx:15-20 | the new tags and input are those of `TagList.AddTag`, and the invariant is kept |
| CreatePost.TagEditor.RemoveTag | src/pages/CreatePost.tsx:22-24 | the new tags are those of `TagList.RemoveTag`, and the input and invariant are kept |
| ProfileCompletion.LoadedLists | src/pages/ProfileCompletion.tsx:56-57 | missing expertise and publication lists load as empty |
| ProfileCompletion.ProfileForm.ApplyFetch | src/pages/ProfileCompletion.tsx:54-58 | a successful fetch sets the profile and the two lists with those defaults; an error or no data changes nothing |
| ProfileCompletion.ProfileForm.AddExpertise | src/pages/ProfileCompletion.tsx:105-110 | the expertise list and input follow `TagList.AddTag`, the list stays free of duplicates, nothing else changes |
| ProfileCompletion.ProfileForm.RemoveExpertise | src/pages/ProfileCompletion.tsx:112-114 | the list follows `TagList.RemoveTag`, nothing else changes |
| ProfileCompletion.AddPublication | src/pages/ProfileCompletion.tsx:116-121 | a draft with non-blank title and year is appended untrimmed and the draft resets to empty; otherwise nothing changes |
| ProfileCompletion.ProfileForm.AddPublicationEntry | src/pages/ProfileCompletion.tsx:116-121 | the list and draft follow `AddPublication`, nothing else changes |
| ProfileCompletion.RemovePublicationExact | src/pages/ProfileCompletion.tsx:123-125 | an in-range index removes exactly that position, keeping the rest in order; any other index changes nothing |
| ProfileCompletion.ProfileForm.RemovePublicationEntry | src/pages/ProfileCompletion.tsx:123-125 | the list follows `RemovePublication`, nothing else changes |
| ProfileCompletion.AddThenRemovePublication | src/pages/ProfileCompletion.tsx:116-125 | adding a publication and removing the last position restores the list |
| ProfileCompletion.AddPublicationKeepsComplete | src/pages/ProfileCompletion.tsx:116-121 | every stored publication keeps a non-blank title and year after adding |
| ProfileCompletion.RemovePublicationKeepsComplete | src/pages/ProfileCompletion.tsx:123-125 | and after removing |
| ProfileCompletion.CompleteProfile | src/pages/ProfileCompletion.tsx:127-150 | fails when signed out; otherwise fails exactly when name, affiliation or bio is not a non-empty string or no expertise is listed; otherwise writes the completed row |
| ProfileCompletion.CompletedRow | src/pages/ProfileCompletion.tsx:142-150 | the written row is marked completed, keeps the name, affiliation, bio, LinkedIn URL and email, and holds the current lists |
| ProfileCompletion.CompletedProfileReloads | src/pages/ProfileCompletion.tsx:142-150 | loading the written row gives back the lists that were written |
| ProfileCompletion.BlankFieldsPass | src/pages/ProfileCompletion.tsx:131 | whitespace-only name, affiliation and bio pass the check, which tests truthiness only |
| ProfileCompletion.ProfileForm.EditField | src/pages/ProfileCompletion.tsx:225-296 | editing a field sets it on the profile and changes nothing else |
| ProfileCompletion.WithField | src/pages/ProfileCompletion.tsx:225-296 | the edited column takes the value; the other three text columns, the email, both lists and the completion flag are unchanged |
| ProfileCompletion.WithFieldOverwrites | src/pages/ProfileCompletion.tsx:225-296 | a second edit of the same field replaces the first |
| ProfileCompletion.WithFieldCommutes | src/pages/ProfileCompletion.tsx:225-296 | edits of two different fields give the same row in either order |
| ProfileCompletion.ProfileForm.EditDraft | src/pages/ProfileCompletion.tsx:310-323 | editing the draft sets that field and nothing else |
| ProfileCompletion.ProfileForm.SetNewExpertise | src/pages/ProfileCompletion.tsx:252 | sets the expertise input and nothing else |
| ProfileCompletion.ProfileForm.constructor | src/pages/ProfileCompletion.tsx:18-23 | no profile, empty lists and inputs |
| ProfileCompletion.Initials | src/pages/ProfileCompletion.tsx:168-169 | never empty, and "U" without a profile |
| Names.ProfileInitialsCases | src/pages/ProfileCompletion.tsx:168-169 | the word initials of the name when there are any; otherwise the uppercased first letter of a non-empty email; otherwise "U" |
| Names.ProfileInitials | src/components/Feed/ProfileSidebar.tsx:53-54 | never empty |
| Names.InitialsOfWords | src/components/Feed/ProfileSidebar.tsx:53 | one initial per non-empty space-separated word, in order, each the word's first character |
| Names.NoInitialsIffOnlySpaces | src/components/Feed/ProfileSidebar.tsx:53 | the name gives no initials exactly when it is only spaces |
| Names.HeadsSkipEmpty | src/components/Feed/ProfileSidebar.tsx:53 | empty pieces from repeated spaces contribute nothing |
| Names.Words | src/pages/Chat.tsx:271 | words are non-empty and contain no space |
| ProfileSidebar.CompletionScore | src/components/Feed/ProfileSidebar.tsx:56 | a missing score is 0 |
| ProfileSidebar.IsProfileComplete | src/components/Feed/ProfileSidebar.tsx:57 | complete exactly when the score is at least 80 |
| ProfileSidebar.CompletionMonotone | src/components/Feed/ProfileSidebar.tsx:56-57 | a higher score stays complete; a missing score is never complete |
| ProfileSidebar.CardInitials | src/components/Feed/ProfileSidebar.tsx:53-54 | the card's initials are never empty |
| ProfileSidebar.DisplayName | src/components/Feed/ProfileSidebar.tsx:88 | the name when it is a non-empty string, otherwise "User" |
| ProfileSidebar.DisplayAffiliation | src/components/Feed/ProfileSidebar.tsx:90 | the affiliation when it is a non-empty string, otherwise "No affiliation" |
| ProfileSidebar.SuggestedName | src/components/Feed/ProfileSidebar.tsx:155 | the name when it is a non-empty string, otherwise the email |
| ProfileSidebar.SuggestedLetterOfName | src/components/Feed/ProfileSidebar.tsx:150 | the first character of the name, else of the email, else "R" |
| ProfileSidebar.SuggestedLetter | src/components/Feed/ProfileSidebar.tsx:150 | always one character |
| Chat.GetInitials | src/pages/Chat.tsx:270-272 | never empty, and "U" for a missing name |
| Chat.GetInitialsOfWords | src/pages/Chat.tsx:271 | "U" for a name of only spaces; otherwise one uppercased first character per non-empty word, in order |
| Chat.SendAttempt | src/pages/Chat.tsx:177-185 | nothing is sent exactly when the draft is blank or the conversation or user is missing; otherwise the trimmed, non-empty draft is sent |
| Chat.SameTextAsRoomChat | src/pages/Chat.tsx:177-184 | for a signed-in user it sends when the room page would, and the same text |
| Chat.ChatComposer.Send | src/pages/Chat.tsx:176-197 | sends what `SendAttempt` sends and clears the draft only when the insert succeeded |
| Chat.ChatComposer.EditDraft | src/pages/Chat.tsx:49 | sets the draft |
| Chat.ChatComposer.constructor | src/pages/Chat.tsx:49 | starts with an empty draft |
| Saved.PostIds | src/pages/Saved.tsx:95 | the IDs of the records, in record order |
| Saved.SavedAtIffListed | src/pages/Saved.tsx:112-113 | a post has a saved time exactly when its ID is listed |
| Saved.SavedAt | src/pages/Saved.tsx:112-113 | a found saved time belongs to a record of that post |
| Saved.BySavedTime | src/pages/Saved.tsx:111-116 | 0 when either post has no record; otherwise the later-saved post sorts first |
| Saved.BySavedTimeAntisymmetric | src/pages/Saved.tsx:111-116 | swapping the posts negates the comparison |
| Saved.SortSaved | src/pages/Saved.tsx:111-116 | the sorted list is a permutation of the fetched posts |
| Saved.SortSavedNewestFirst | src/pages/Saved.tsx:111-116 | when every post has a record, saved times never increase down the list |
| Saved.SortSavedTies | src/pages/Saved.tsx:111-116 | posts saved at the same time keep their fetched order |
| Saved.FailureText | src/pages/Saved.tsx:123 | the error's message, or "Failed to load saved posts" when it is empty |
| Saved.LoadSavedPosts | src/pages/Saved.tsx:74-118 | a missing table (code PGRST116 or "does not exist" in the message) is the unavailable branch; another error fails with its text; no records gives an empty list; else a post error fails and the posts come back sorted |
| Saved.LoadedIsSortedPermutation | src/pages/Saved.tsx:95-118 | with every post saved, the result is a permutation of the fetched posts, newest save first |
| Saved.SavedTimeAgo | src/pages/Saved.tsx:131-142 | never "Just now"; minutes below one hour, zero and negative included; then hours in 1..23, then days, each the floor of the difference |
| Saved.SameBucketsAsRoomChat | src/pages/Saved.tsx:131-142 | from one minute on it buckets as the room page does; below that it is the minutes bucket |
| Saved.SavedAgoTextRoundTrip | src/pages/Saved.tsx:139-141 | the label text reads back as the bucket and number it was made from |
| Saved.GetSavedTimeAgoReadsBack | src/pages/Saved.tsx:131-142 | the label of a difference reads back as its bucket |
| JsObject.Counter.Increment | src/pages/RoomChat.tsx:168 | adds one to the key's count, starting at 0, and records a new key at the end of the creation order |
| JsObject.Counter.Entries | src/pages/RoomChat.tsx:174 | one entry per key with its count |
| JsObject.CounterTally | src/pages/RoomChat.tsx:166-174 | a counter filled from a sequence lists exactly its tally |
| JsObject.Tally | src/components/Feed/TrendingSidebar.tsx:19-26 | names are distinct and are exactly the counted keys; each count is the key's number of occurrences, at least 1 |
| JsObject.TallyOrder | src/components/Feed/TrendingSidebar.tsx:26 | array-index keys come first in ascending order, then the other keys in first-seen order |
| JsObject.TallyFirstSeenOrder | src/components/Feed/TrendingSidebar.tsx:26 | without array-index keys, the order is first-seen order |
| JsObject.TallyAllIndices | src/pages/RoomChat.tsx:217 | when all keys are array indices, they come in strictly ascending numeric order |
| JsObject.TallySum | src/components/Feed/TrendingSidebar.tsx:19-24 | the counts add up to the number of keys counted |
| JsObject.KeyOrderShape | src/pages/RoomChat.tsx:174 | the key order puts the array indices, ascending, before the other keys in creation order |
| JsObject.KeyOrder | src/pages/RoomChat.tsx:174 | the key order is a permutation of the keys |
| StableSort.SortSorted | src/pages/RoomChat.tsx:91 | under a key-difference comparator, the result is sorted by the key |
| StableSort.SortStable | src/pages/RoomChat.tsx:91 | elements with equal keys keep their input order |
| StableSort.SortIsTheStableSort | src/pages/RoomChat.tsx:91 | any sorted arrangement that keeps equal keys in input order is the sort's result |
| StableSort.Sort | src/pages/RoomChat.tsx:91 | the result is a permutation of the input |
| JsText.Trim | src/pages/CreatePost.tsx:16 | never longer than the input |
| JsText.TrimIsCut | src/pages/CreatePost.tsx:16 | the result is a contiguous piece of the input, with only whitespace cut from both ends, and it neither starts nor ends with whitespace |
| JsText.BlankIffAllSpace | src/pages/CreatePost.tsx:16 | a string trims to empty exactly when all of it is whitespace |
| JsText.TrimIdempotent | src/pages/CreatePost.tsx:17 | trimming twice is trimming once |
| JsText.JoinSplit | src/pages/Chat.tsx:271 | joining the pieces of a split with spaces gives back the string |
| JsText.SplitJoin | src/pages/Chat.tsx:271 | splitting the space-join of space-free pieces gives back the pieces |
| JsText.Upper | src/pages/Chat.tsx:271 | uppercases ASCII letters one by one and keeps every other character |
| JsText.FirstChar | src/components/Feed/ProfileSidebar.tsx:150 | the first character, or "" for an empty string |
| JsText.OrElse | src/components/Feed/ProfileSidebar.tsx:88 | the value when it is a non-empty string, otherwise the fallback |
| JsText.Includes | src/pages/Saved.tsx:76 | true exactly when the needle occurs at some position |
| JsText.ParseIntToString | src/pages/RoomChat.tsx:218 | `parseInt` reads back the number a key was printed from |
| JsText.IntToStringInjective | src/pages/RoomChat.tsx:205 | distinct indices get distinct keys |
| Elapsed.HoursBounds | src/pages/RoomChat.tsx:433-434 | the floor of the minutes over 60 is the floor of the milliseconds over an hour |
| Elapsed.DaysBounds | src/pages/RoomChat.tsx:433-435 | the floor of the hours over 24 is the floor of the milliseconds over a day |
| Elapsed.MinutesBounds | src/pages/RoomChat.tsx:433 | the minutes are the floor of the difference |
| ObjectLiteral.LiteralCountOrdinaryKey | src/components/Feed/TrendingSidebar.tsx:19-23 | as written, a key that names no member of `Object.prototype` is counted correctly |
| ObjectLiteral.ConstructorTagMiscounted | src/components/Feed/TrendingSidebar.tsx:19-22 | as written, one tag "constructor" is stored as the text "function Object() { [native code] }1" |
| ObjectLiteral.ProtoTagDropped | src/components/Feed/TrendingSidebar.tsx:19-22 | as written, a tag "__proto__" is never stored |
| ObjectLiteral.TallySingle | src/components/Feed/TrendingSidebar.tsx:19-26 | the corrected count lists any single key once with count 1, these names included |

## Left out

- Every backend call is left out: queries, inserts, updates, deletes, storage, realtime channels and `Promise.all` fan-out. Rows come in as parameters, and "the insert failed" is a boolean.
- The vote upsert assumes the backend's unique constraint on (poll, user). The model's insert fails exactly when such a row exists, and the update that follows always succeeds.
- Toasts, navigation, console logging, the `setTimeout` re-fetch, and the `loading` and `uploading` flags are effects and are left out.
- Session and auth checks are effects. "Signed in" and the current user are parameters.
- The poll percentage and progress bar width use floating-point division and rounding. They are not modelled.
- Dates are not parsed. A time difference is given as integer milliseconds, so `now` is a parameter. `formatTime` and the other locale formatting are left out.
- `toUpperCase` is modelled for ASCII letters only. Strings are sequences of characters, with no UTF-16 surrogate pairs.
- `handleJoinRoom`, `handleAvatarUpload`, `fetchRoom` and the member check only call the backend and show toasts. Only their outcome parameters appear.
- Column edits are modelled for full name, affiliation, bio and LinkedIn URL. Avatar URLs and the other profile columns are not modelled.
- Saved.SortSaved: when some fetched post has no saved record, the comparator is not consistent. The order an engine then produces is implementation-defined, so only "a permutation of the fetched posts" is claimed in that case.
- RoomChat.ToggleReaction: the rows are a set, so at most one row per message, user and type. Sequential toggles keep that. Two toggles racing over the network can both insert, after which `.single()` finds no row and the handler inserts again, and ignored delete or insert errors leave rows out of step. Neither case is modelled.
- RoomChat.VoteSummaryAscending: holds for option indices 0 to 2^32-2. Larger indices are not array-index keys and would keep their first-seen order, which the pages never produce.
- RoomChat.RoomComposer.Valid, CreatePost.TagEditor.Valid and the other class invariants are ghost predicates. They are state invariants, not runtime checks.

## Findings

| source | as written | input that shows it | evidently intended | confidence | as-written member | corrected member |
|---|---|---|---|---|---|---|
| src/components/Feed/TrendingSidebar.tsx:19-22 | `tagCounts` is an object literal, so `tagCounts[tag] &#124;&#124; 0` reads an inherited `Object.prototype` member for a tag that names one | a single post tagged "constructor" is listed with the count "function Object() { [native code] }1" | each tag's count is its number of occurrences, 1 here | high; not executed | ObjectLiteral.ConstructorTagMiscounted | JsObject.Tally |
| src/components/Feed/TrendingSidebar.tsx:19-22 | assigning a string to the key `__proto__` of an object literal calls the prototype setter, which ignores non-objects | a post tagged "__proto__" never appears among the topics | the tag is counted like any other | high; not executed | ObjectLiteral.ProtoTagDropped | JsObject.Tally |
| src/pages/RoomChat.tsx:166-168 | `reactionCounts` is an object literal filled by the same `(counts[k] &#124;&#124; 0) + 1` step, and `reaction_type` is whatever text the `message_reactions` rows hold | a message with one reaction row of type "constructor" shows the count "function Object() { [native code] }1"; one of type "__proto__" shows no reaction | each reaction type is listed with its number of rows | high; not executed | RoomChat.ReactionCountsAsWritten | RoomChat.ReactionSummarySingle |

Everywhere outside `ObjectLiteral`, the model counts with `JsObject.Counter` and `JsObject.Tally`, which behave like a prototype-free object. `ObjectLiteral.LiteralCountOrdinaryKey` proves the two agree on every key that is not a member of `Object.prototype`.
