/** The deduplicated list of short labels edited with an input box and an
    "add" button: the post's tags and the profile's domain expertise. */
module TagList {
  import opened JsText
  import opened Seqs

  /** `if (input.trim() && !tags.includes(input.trim()))` then append the
      trimmed input and clear the box; otherwise change nothing. Returns the
      new list and the new contents of the box. */
  function AddTag(tags: seq<string>, input: string): (r: (seq<string>, string))
    ensures IsBlank(input) ==> r == (tags, input)
    ensures !IsBlank(input) && Trim(input) in tags ==> r == (tags, input)
    ensures !IsBlank(input) && Trim(input) !in tags ==> r == (tags + [Trim(input)], "")
  {
    var t := Trim(input);
    if t != "" && t !in tags then (tags + [t], "") else (tags, input)
  }

  /** `tags.filter(tag => tag !== t)`. */
  function RemoveTag(tags: seq<string>, t: string): (r: seq<string>)
    ensures t !in r
  {
    if |tags| == 0 then []
    else (if tags[0] == t then [] else [tags[0]]) + RemoveTag(tags[1..], t)
  }

  /** Every other entry is kept, as often as it occurs, in its order. */
  lemma {:induction false} RemoveTagKeepsOthers(tags: seq<string>, t: string, x: string)
    requires x != t
    ensures Occurrences(RemoveTag(tags, t), x) == Occurrences(tags, x)
  {
    if |tags| > 0 {
      RemoveTagKeepsOthers(tags[1..], t, x);
      OccurrencesAppend(if tags[0] == t then [] else [tags[0]], RemoveTag(tags[1..], t), x);
      OccurrencesAppend([tags[0]], tags[1..], x);
      assert tags == [tags[0]] + tags[1..];
    }
  }

  lemma {:induction false} RemoveTagInOrder(tags: seq<string>, t: string)
    ensures IsSubsequence(RemoveTag(tags, t), tags)
  {
    if |tags| > 0 {
      RemoveTagInOrder(tags[1..], t);
      assert tags == [tags[0]] + tags[1..];
      if tags[0] == t {
        assert RemoveTag(tags, t) == RemoveTag(tags[1..], t);
        SubsequenceCons(RemoveTag(tags[1..], t), tags[1..], tags[0]);
      } else {
        assert RemoveTag(tags, t)[1..] == RemoveTag(tags[1..], t);
      }
    }
  }

  /** Removing a label that is not there changes nothing. */
  lemma {:induction false} RemoveAbsent(tags: seq<string>, t: string)
    requires t !in tags
    ensures RemoveTag(tags, t) == tags
  {
    if |tags| > 0 {
      assert t !in tags[1..];
      RemoveAbsent(tags[1..], t);
    }
  }

  lemma {:induction false} RemoveTagAppend(a: seq<string>, b: seq<string>, t: string)
    ensures RemoveTag(a + b, t) == RemoveTag(a, t) + RemoveTag(b, t)
  {
    if |a| == 0 {
      assert a + b == b;
    } else {
      assert (a + b)[1..] == a[1..] + b;
      RemoveTagAppend(a[1..], b, t);
    }
  }

  /** The invariant the add button keeps: no duplicates, and every label is
      non-empty and already trimmed. */
  ghost predicate WellFormed(tags: seq<string>) {
    NoDup(tags) && forall i :: 0 <= i < |tags| ==> tags[i] != "" && Trim(tags[i]) == tags[i]
  }

  lemma AddTagKeepsWellFormed(tags: seq<string>, input: string)
    requires WellFormed(tags)
    ensures WellFormed(AddTag(tags, input).0)
  {
    var t := Trim(input);
    if t != "" && t !in tags {
      TrimIdempotent(input);
      WellFormedSnoc(tags, t);
    }
  }

  lemma WellFormedSnoc(tags: seq<string>, t: string)
    requires WellFormed(tags) && t != "" && Trim(t) == t && t !in tags
    ensures WellFormed(tags + [t])
  {
    NoDupSnoc(tags, t);
    var r := tags + [t];
    forall i | 0 <= i < |r| ensures r[i] != "" && Trim(r[i]) == r[i] {
      if i < |tags| {
        assert r[i] == tags[i];
      }
    }
  }

  lemma RemoveTagKeepsWellFormed(tags: seq<string>, t: string)
    requires WellFormed(tags)
    ensures WellFormed(RemoveTag(tags, t))
  {
    var r := RemoveTag(tags, t);
    forall x ensures Occurrences(r, x) <= 1 {
      NoDupOccurrences(tags, x);
      if x != t {
        RemoveTagKeepsOthers(tags, t, x);
      } else {
        assert x !in r;
      }
    }
    forall i, j | 0 <= i < j < |r| ensures r[i] != r[j] {
      if r[i] == r[j] {
        DupOccurrences(r, i, j);
      }
    }
    forall i | 0 <= i < |r| ensures r[i] != "" && Trim(r[i]) == r[i] {
      RemoveTagMember(tags, t, r[i]);
    }
  }

  lemma {:induction false} RemoveTagMember(tags: seq<string>, t: string, x: string)
    requires x in RemoveTag(tags, t)
    ensures x in tags
  {
    if |tags| > 0 {
      if x != tags[0] {
        RemoveTagMember(tags[1..], t, x);
      }
    }
  }

  /** Adding a new label and then removing it restores the list. */
  lemma AddThenRemove(tags: seq<string>, input: string)
    requires !IsBlank(input) && Trim(input) !in tags
    ensures RemoveTag(AddTag(tags, input).0, Trim(input)) == tags
  {
    var t := Trim(input);
    RemoveTagAppend(tags, [t], t);
    RemoveAbsent(tags, t);
    assert RemoveTag([t], t) == [];
  }
}
