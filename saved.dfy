/** The saved-posts page: the saved records' post ids, the "most recently
    saved first" ordering of the fetched posts, the error branches of the
    load, and its own "time ago" label. */
module Saved {
  import opened Wrappers
  import opened JsText
  import opened Elapsed
  import StableSort
  import RoomChat

  /** A `saved_posts` row as selected: `post_id, created_at`, the time in
      integer milliseconds. */
  datatype SavedRecord = SavedRecord(postId: string, createdAt: int)

  /** A fetched `research_posts` row; the columns other than the id are
      carried through the sort untouched. */
  datatype Post = Post(id: string, title: string, content: string)

  /** `savedData.map(item => item.post_id)`. */
  function PostIds(records: seq<SavedRecord>): (r: seq<string>)
    ensures |r| == |records|
    ensures forall i :: 0 <= i < |records| ==> r[i] == records[i].postId
  {
    if |records| == 0 then [] else [records[0].postId] + PostIds(records[1..])
  }

  /** `savedData.find(s => s.post_id === id)?.created_at`: the time of the
      first record of that post. */
  function SavedAt(records: seq<SavedRecord>, id: string): (r: Option<int>)
    ensures r.Some? ==> exists i :: 0 <= i < |records| && records[i] == SavedRecord(id, r.value)
  {
    if |records| == 0 then None
    else if records[0].postId == id then Some(records[0].createdAt)
    else SavedAt(records[1..], id)
  }

  /** A post has a saved time exactly when its id is among the post ids. */
  lemma {:induction false} SavedAtIffListed(records: seq<SavedRecord>, id: string)
    ensures SavedAt(records, id).Some? <==> id in PostIds(records)
  {
    if |records| > 0 {
      SavedAtIffListed(records[1..], id);
      assert PostIds(records) == [records[0].postId] + PostIds(records[1..]);
    }
  }

  /** The comparator: 0 when either post has no saved record, otherwise
      `bSaved - aSaved`, which puts the later save first. */
  function BySavedTime(records: seq<SavedRecord>, a: Post, b: Post): (r: int)
    ensures SavedAt(records, a.id).None? || SavedAt(records, b.id).None? ==> r == 0
    ensures SavedAt(records, a.id).Some? && SavedAt(records, b.id).Some? ==>
              (r < 0 <==> SavedAt(records, a.id).value > SavedAt(records, b.id).value)
  {
    match (SavedAt(records, a.id), SavedAt(records, b.id))
    case (Some(aSaved), Some(bSaved)) => bSaved - aSaved
    case _ => 0
  }

  /** The comparator is antisymmetric. */
  lemma BySavedTimeAntisymmetric(records: seq<SavedRecord>, a: Post, b: Post)
    ensures BySavedTime(records, a, b) == -BySavedTime(records, b, a)
  {
  }

  function Comparator(records: seq<SavedRecord>): (Post, Post) -> int {
    (a: Post, b: Post) => BySavedTime(records, a, b)
  }

  /** The saved time, used only where it exists. */
  function SavedTime(records: seq<SavedRecord>, id: string): int {
    SavedAt(records, id).GetOr(0)
  }

  /** The sort key the comparator compares by once every post is saved. */
  function Recency(records: seq<SavedRecord>): Post -> int {
    (p: Post) => -SavedTime(records, p.id)
  }

  /** `(postsData || []).sort(...)`. */
  function SortSaved(posts: seq<Post>, records: seq<SavedRecord>): (r: seq<Post>)
    ensures multiset(r) == multiset(posts)
  {
    StableSort.Sort(posts, Comparator(records))
  }

  ghost predicate AllSaved(posts: seq<Post>, records: seq<SavedRecord>) {
    forall p :: p in posts ==> SavedAt(records, p.id).Some?
  }

  lemma ComparesByRecency(posts: seq<Post>, records: seq<SavedRecord>)
    requires AllSaved(posts, records)
    ensures StableSort.ComparesByKey(posts, Comparator(records), Recency(records))
  {
  }

  /** When every fetched post has a saved record, the result lists them most
      recently saved first. */
  lemma SortSavedNewestFirst(posts: seq<Post>, records: seq<SavedRecord>)
    requires AllSaved(posts, records)
    ensures forall i, j :: 0 <= i < j < |SortSaved(posts, records)| ==>
              SavedTime(records, SortSaved(posts, records)[i].id)
              >= SavedTime(records, SortSaved(posts, records)[j].id)
  {
    ComparesByRecency(posts, records);
    StableSort.SortSorted(posts, Comparator(records), Recency(records));
    var r := SortSaved(posts, records);
    forall i, j | 0 <= i < j < |r| ensures SavedTime(records, r[i].id) >= SavedTime(records, r[j].id) {
      assert Recency(records)(r[i]) <= Recency(records)(r[j]);
    }
  }

  /** Posts saved at the same moment keep their fetched order. */
  lemma SortSavedTies(posts: seq<Post>, records: seq<SavedRecord>, t: int)
    requires AllSaved(posts, records)
    ensures StableSort.WithKey(SortSaved(posts, records), Recency(records), t)
            == StableSort.WithKey(posts, Recency(records), t)
  {
    ComparesByRecency(posts, records);
    StableSort.SortStable(posts, Comparator(records), Recency(records), t);
  }

  /** A backend error: its `code` and `message`. */
  datatype DbError = DbError(code: string, message: string)

  /** `code === 'PGRST116' || message.includes('does not exist')`. */
  predicate IsMissingTable(e: DbError) {
    e.code == "PGRST116" || Includes(e.message, "does not exist")
  }

  /** `err.message || "Failed to load saved posts"`. */
  function FailureText(e: DbError): (r: string)
    ensures r != ""
    ensures e.message != "" ==> r == e.message
    ensures e.message == "" ==> r == "Failed to load saved posts"
  {
    if e.message != "" then e.message else "Failed to load saved posts"
  }

  datatype LoadOutcome = FeatureUnavailable | LoadFailed(description: string) | Loaded(posts: seq<Post>)

  /** `fetchSavedPosts` once both queries have answered: `saved` is the
      `saved_posts` query, `fetched` the `research_posts` query for the
      listed post ids. */
  function LoadSavedPosts(saved: Result<Option<seq<SavedRecord>>, DbError>,
                          fetched: Result<Option<seq<Post>>, DbError>): (r: LoadOutcome)
    ensures r == FeatureUnavailable <==> saved.Err? && IsMissingTable(saved.error)
    ensures saved.Err? && !IsMissingTable(saved.error) ==> r == LoadFailed(FailureText(saved.error))
    ensures saved.Ok? && (saved.value.None? || saved.value.value == []) ==> r == Loaded([])
    ensures saved.Ok? && saved.value.Some? && saved.value.value != [] ==>
              && (fetched.Err? ==> r == LoadFailed(FailureText(fetched.error)))
              && (fetched.Ok? ==> r == Loaded(SortSaved(fetched.value.GetOr([]), saved.value.value)))
  {
    match saved
    case Err(e) => if IsMissingTable(e) then FeatureUnavailable else LoadFailed(FailureText(e))
    case Ok(data) =>
      if data.None? || data.value == [] then Loaded([])
      else match fetched
        case Err(e) => LoadFailed(FailureText(e))
        case Ok(posts) => Loaded(SortSaved(posts.GetOr([]), data.value))
  }

  /** A load that succeeds shows the fetched posts, each once, newest save
      first when every one of them has its record. */
  lemma LoadedIsSortedPermutation(records: seq<SavedRecord>, posts: seq<Post>)
    requires records != [] && AllSaved(posts, records)
    ensures var r := LoadSavedPosts(Ok(Some(records)), Ok(Some(posts)));
            && r.Loaded? && multiset(r.posts) == multiset(posts)
            && forall i, j :: 0 <= i < j < |r.posts| ==>
                 SavedTime(records, r.posts[i].id) >= SavedTime(records, r.posts[j].id)
  {
    SortSavedNewestFirst(posts, records);
  }

  /** `getTimeAgo` of this page: minutes below an hour, with no "just now"
      case, so differences under a minute read as zero or negative minutes. */
  function SavedTimeAgo(diffMs: int): (a: Ago)
    ensures a != JustNow
    ensures a.MinutesAgo? <==> diffMs < MsPerHour
    ensures a.HoursAgo? <==> MsPerHour <= diffMs < MsPerDay
    ensures a.DaysAgo? <==> MsPerDay <= diffMs
    ensures a.MinutesAgo? ==> a.n < 60 && a.n * MsPerMinute <= diffMs < (a.n + 1) * MsPerMinute
    ensures a.HoursAgo? ==> 1 <= a.n < 24 && a.n * MsPerHour <= diffMs < (a.n + 1) * MsPerHour
    ensures a.DaysAgo? ==> 1 <= a.n && a.n * MsPerDay <= diffMs < (a.n + 1) * MsPerDay
  {
    MinutesBounds(diffMs);
    HoursBounds(diffMs);
    DaysBounds(diffMs);
    var m := Minutes(diffMs);
    if m < 60 then MinutesAgo(m)
    else if Hours(diffMs) < 24 then HoursAgo(Hours(diffMs))
    else DaysAgo(Days(diffMs))
  }

  /** From one minute on the two pages pick the same bucket and number;
      under a minute the room chat says "Just now" and this page counts
      minutes. */
  lemma SameBucketsAsRoomChat(diffMs: int)
    ensures diffMs >= MsPerMinute ==> SavedTimeAgo(diffMs) == RoomChat.TimeAgo(diffMs)
    ensures diffMs < MsPerMinute ==>
              RoomChat.TimeAgo(diffMs) == JustNow && SavedTimeAgo(diffMs) == MinutesAgo(Minutes(diffMs))
  {
    MinutesBounds(diffMs);
  }

  /** The labels of this page. `SavedTimeAgo` never yields `JustNow`; its
      label is kept only so that every `Ago` has one. */
  function SavedAgoText(a: Ago): string {
    match a
    case JustNow => "Just now"
    case MinutesAgo(n) => IntToString(n) + " minutes ago"
    case HoursAgo(n) => IntToString(n) + " hours ago"
    case DaysAgo(n) => IntToString(n) + " days ago"
  }

  /** The label this page renders. */
  function GetSavedTimeAgo(diffMs: int): string {
    SavedAgoText(SavedTimeAgo(diffMs))
  }

  /** Reads a label back. */
  function ParseSavedAgo(text: string): Option<Ago> {
    if text == "Just now" then Some(JustNow)
    else match StripSuffix(text, " minutes ago")
      case Some(n) => Some(MinutesAgo(ParseInt(n)))
      case None =>
        match StripSuffix(text, " hours ago")
        case Some(n) => Some(HoursAgo(ParseInt(n)))
        case None =>
          match StripSuffix(text, " days ago")
          case Some(n) => Some(DaysAgo(ParseInt(n)))
          case None => None
  }

  /** Different buckets and different numbers give different labels. */
  lemma SavedAgoTextRoundTrip(a: Ago)
    ensures ParseSavedAgo(SavedAgoText(a)) == Some(a)
  {
    match a
    case JustNow =>
    case MinutesAgo(n) =>
      var t := IntToString(n) + " minutes ago";
      assert t[|t| - 1] == 'o' && "Just now"[7] == 'w';
      StripSuffixOf(IntToString(n), " minutes ago");
      ParseIntToString(n);
    case HoursAgo(n) =>
      var t := IntToString(n) + " hours ago";
      assert t[|t| - 1] == 'o' && "Just now"[7] == 'w';
      assert t[|t| - 6] == 'r';
      StripSuffixMismatch(t, " minutes ago", 6);
      StripSuffixOf(IntToString(n), " hours ago");
      ParseIntToString(n);
    case DaysAgo(n) =>
      var t := IntToString(n) + " days ago";
      assert t[|t| - 1] == 'o' && "Just now"[7] == 'w';
      assert t[|t| - 6] == 'y';
      StripSuffixMismatch(t, " minutes ago", 6);
      StripSuffixMismatch(t, " hours ago", 6);
      StripSuffixOf(IntToString(n), " days ago");
      ParseIntToString(n);
  }

  lemma GetSavedTimeAgoReadsBack(diffMs: int)
    ensures ParseSavedAgo(GetSavedTimeAgo(diffMs)) == Some(SavedTimeAgo(diffMs))
  {
    SavedAgoTextRoundTrip(SavedTimeAgo(diffMs));
  }
}
