/** The profile-completion page: the expertise and publication editors, the
    defaults applied when the stored profile is loaded, the required-field
    check that gates "complete profile", and the avatar initials. */
module ProfileCompletion {
  import opened Wrappers
  import opened JsText
  import opened TagList
  import opened Names

  /** One entry of `publication_history`; the link is optional. */
  datatype Publication = Publication(title: string, year: string, link: Option<string>)

  /** `{ title: "", year: "", link: "" }`, the draft after a reset. */
  const EmptyDraft := Publication("", "", Some(""))

  /** The columns of a `profiles` row the page reads or writes; `None` is a
      missing or null column. */
  datatype ProfileRow = ProfileRow(
    fullName: Option<string>,
    affiliation: Option<string>,
    bio: Option<string>,
    email: Option<string>,
    linkedinUrl: Option<string>,
    domainExpertise: Option<seq<string>>,
    publicationHistory: Option<seq<Publication>>,
    profileCompleted: bool)

  /** What `{ ...null }` spreads into: an object with no columns. */
  const NoColumns := ProfileRow(None, None, None, None, None, None, None, false)

  /** `data.domain_expertise || []` and `data.publication_history || []`. */
  function LoadedLists(row: ProfileRow): (r: (seq<string>, seq<Publication>))
    ensures row.domainExpertise.None? ==> r.0 == []
    ensures row.domainExpertise.Some? ==> r.0 == row.domainExpertise.value
    ensures row.publicationHistory.None? ==> r.1 == []
    ensures row.publicationHistory.Some? ==> r.1 == row.publicationHistory.value
  {
    (row.domainExpertise.GetOr([]), row.publicationHistory.GetOr([]))
  }

  /** `addPublication`: store the draft as entered when both its title and
      its year are non-blank, then reset the draft. Returns the new list and
      the new draft. */
  function AddPublication(pubs: seq<Publication>, draft: Publication): (r: (seq<Publication>, Publication))
    ensures !IsBlank(draft.title) && !IsBlank(draft.year) ==> r == (pubs + [draft], EmptyDraft)
    ensures IsBlank(draft.title) || IsBlank(draft.year) ==> r == (pubs, draft)
  {
    if Complete(draft) then (pubs + [draft], EmptyDraft)
    else (pubs, draft)
  }

  /** `pubs.filter((_, i) => i !== index)`, with `start` the position of
      `pubs[0]` in the list being filtered. */
  function DropPosition(pubs: seq<Publication>, index: int, start: int): (r: seq<Publication>)
    ensures |r| <= |pubs|
    decreases |pubs|
  {
    if |pubs| == 0 then []
    else (if start == index then [] else [pubs[0]]) + DropPosition(pubs[1..], index, start + 1)
  }

  /** `removePublication(index)`. */
  function RemovePublication(pubs: seq<Publication>, index: int): seq<Publication> {
    DropPosition(pubs, index, 0)
  }

  lemma {:induction false} DropPositionOutside(pubs: seq<Publication>, index: int, start: int)
    requires index < start || start + |pubs| <= index
    ensures DropPosition(pubs, index, start) == pubs
    decreases |pubs|
  {
    if |pubs| > 0 {
      DropPositionOutside(pubs[1..], index, start + 1);
    }
  }

  lemma {:induction false} DropPositionInside(pubs: seq<Publication>, index: int, start: int)
    requires start <= index < start + |pubs|
    ensures DropPosition(pubs, index, start) == pubs[..index - start] + pubs[index - start + 1..]
    decreases |pubs|
  {
    if start == index {
      DropPositionOutside(pubs[1..], index, start + 1);
    } else {
      DropPositionInside(pubs[1..], index, start + 1);
      var k := index - start;
      assert pubs[..k] == [pubs[0]] + pubs[1..][..k - 1];
      assert pubs[k + 1..] == pubs[1..][k..];
    }
  }

  /** Removing a position drops exactly that entry and keeps the others in
      order; a position outside the list changes nothing. */
  lemma RemovePublicationExact(pubs: seq<Publication>, index: int)
    ensures 0 <= index < |pubs| ==> RemovePublication(pubs, index) == pubs[..index] + pubs[index + 1..]
    ensures !(0 <= index < |pubs|) ==> RemovePublication(pubs, index) == pubs
  {
    if 0 <= index < |pubs| {
      DropPositionInside(pubs, index, 0);
    } else {
      DropPositionOutside(pubs, index, 0);
    }
  }

  /** Removing the entry just added restores the list. */
  lemma AddThenRemovePublication(pubs: seq<Publication>, draft: Publication)
    requires !IsBlank(draft.title) && !IsBlank(draft.year)
    ensures RemovePublication(AddPublication(pubs, draft).0, |pubs|) == pubs
  {
    var added := pubs + [draft];
    RemovePublicationExact(added, |pubs|);
    assert added[..|pubs|] == pubs;
  }

  /** Every publication has a non-blank title and year. */
  ghost predicate PublicationsComplete(pubs: seq<Publication>) {
    forall p :: p in pubs ==> Complete(p)
  }

  /** A publication the add button accepts. */
  predicate Complete(p: Publication) {
    !IsBlank(p.title) && !IsBlank(p.year)
  }

  /** The add button keeps every listed publication complete. */
  lemma AddPublicationKeepsComplete(pubs: seq<Publication>, draft: Publication)
    requires PublicationsComplete(pubs)
    ensures PublicationsComplete(AddPublication(pubs, draft).0)
  {
  }

  /** The remove button keeps every listed publication complete. */
  lemma RemovePublicationKeepsComplete(pubs: seq<Publication>, index: int)
    requires PublicationsComplete(pubs)
    ensures PublicationsComplete(RemovePublication(pubs, index))
  {
    RemovePublicationExact(pubs, index);
    if 0 <= index < |pubs| {
      assert forall p :: p in pubs[..index] ==> p in pubs;
      assert forall p :: p in pubs[index + 1..] ==> p in pubs;
    }
  }

  /** `!profile?.full_name || !profile?.affiliation || !profile?.bio ||
      domainExpertise.length === 0`, negated: a truthiness test, so a field
      holding only spaces passes. */
  predicate RequiredFieldsPresent(profile: Option<ProfileRow>, expertise: seq<string>) {
    profile.Some? && Truthy(profile.value.fullName) && Truthy(profile.value.affiliation)
    && Truthy(profile.value.bio) && |expertise| > 0
  }

  datatype CompletionError = NotSignedIn | MissingRequiredFields

  /** The row `handleCompleteProfile` writes: the edited profile with the
      form's lists and the completed flag. */
  function CompletedRow(profile: ProfileRow, expertise: seq<string>, pubs: seq<Publication>): (r: ProfileRow)
    ensures r.profileCompleted
    ensures LoadedLists(r) == (expertise, pubs)
    ensures r.fullName == profile.fullName && r.affiliation == profile.affiliation && r.bio == profile.bio
    ensures r.linkedinUrl == profile.linkedinUrl && r.email == profile.email
  {
    profile.(domainExpertise := Some(expertise), publicationHistory := Some(pubs), profileCompleted := true)
  }

  /** `handleCompleteProfile` up to the update call: nothing without a user,
      an "incomplete profile" message when a required field is missing, and
      otherwise the row to write. */
  function CompleteProfile(signedIn: bool, profile: Option<ProfileRow>, expertise: seq<string>,
                           pubs: seq<Publication>): (r: Result<ProfileRow, CompletionError>)
    ensures r == Err(NotSignedIn) <==> !signedIn
    ensures r == Err(MissingRequiredFields) <==> signedIn && !RequiredFieldsPresent(profile, expertise)
    ensures r.Ok? ==> profile.Some? && r.value == CompletedRow(profile.value, expertise, pubs)
  {
    if !signedIn then Err(NotSignedIn)
    else if !RequiredFieldsPresent(profile, expertise) then Err(MissingRequiredFields)
    else Ok(CompletedRow(profile.value, expertise, pubs))
  }

  /** Loading a completed profile back gives a form that passes the check
      again, with the same expertise and publications. */
  lemma CompletedProfileReloads(profile: Option<ProfileRow>, expertise: seq<string>, pubs: seq<Publication>)
    requires CompleteProfile(true, profile, expertise, pubs).Ok?
    ensures var row := CompleteProfile(true, profile, expertise, pubs).value;
            LoadedLists(row) == (expertise, pubs)
            && CompleteProfile(true, Some(row), LoadedLists(row).0, LoadedLists(row).1) == Ok(row.(profileCompleted := true))
  {
  }

  /** Whitespace is not trimmed: fields holding only spaces pass the check. */
  lemma BlankFieldsPass(name: string, affiliation: string, bio: string,
                        expertise: seq<string>, pubs: seq<Publication>)
    requires IsBlank(name) && IsBlank(affiliation) && IsBlank(bio)
    requires name != "" && affiliation != "" && bio != "" && |expertise| > 0
    ensures var p := NoColumns.(fullName := Some(name), affiliation := Some(affiliation), bio := Some(bio));
            CompleteProfile(true, Some(p), expertise, pubs).Ok?
  {
  }

  /** `profile?.full_name?.split(' ').map(n => n[0]).join('') ||
      profile?.email?.charAt(0).toUpperCase() || 'U'`. */
  function Initials(profile: Option<ProfileRow>): (r: string)
    ensures r != ""
    ensures profile.None? ==> r == "U"
  {
    if profile.None? then ProfileInitials(None, None)
    else ProfileInitials(profile.value.fullName, profile.value.email)
  }

  /** The page's state: the loaded profile being edited, the expertise list
      and its input box, the publication list and its draft. */
  class ProfileForm {
    var profile: Option<ProfileRow>
    var domainExpertise: seq<string>
    var newExpertise: string
    var publications: seq<Publication>
    var newPublication: Publication

    constructor()
      ensures profile.None? && domainExpertise == [] && newExpertise == ""
      ensures publications == [] && newPublication == EmptyDraft
    {
      profile := None;
      domainExpertise := [];
      newExpertise := "";
      publications := [];
      newPublication := EmptyDraft;
    }

    /** `fetchProfile` after the query: `if (!error && data)` take the row and
        default its lists to empty; otherwise keep the form as it is. */
    method ApplyFetch(errored: bool, data: Option<ProfileRow>)
      modifies this
      ensures !errored && data.Some? ==>
                profile == data && (domainExpertise, publications) == LoadedLists(data.value)
      ensures errored || data.None? ==>
                profile == old(profile) && domainExpertise == old(domainExpertise)
                && publications == old(publications)
      ensures newExpertise == old(newExpertise) && newPublication == old(newPublication)
    {
      if !errored && data.Some? {
        profile := data;
        domainExpertise := data.value.domainExpertise.GetOr([]);
        publications := data.value.publicationHistory.GetOr([]);
      }
    }

    /** `setProfile({ ...profile, full_name: value })`; the same for the
        affiliation, bio and LinkedIn inputs. */
    method EditField(field: ProfileField, value: string)
      modifies this
      ensures profile == Some(WithField(old(profile).GetOr(NoColumns), field, value))
      ensures domainExpertise == old(domainExpertise) && newExpertise == old(newExpertise)
      ensures publications == old(publications) && newPublication == old(newPublication)
    {
      profile := Some(WithField(profile.GetOr(NoColumns), field, value));
    }

    method SetNewExpertise(value: string)
      modifies this
      ensures newExpertise == value
      ensures profile == old(profile) && domainExpertise == old(domainExpertise)
      ensures publications == old(publications) && newPublication == old(newPublication)
    {
      newExpertise := value;
    }

    /** `addExpertise`, the tag rule on the expertise list. */
    method AddExpertise()
      modifies this
      ensures (domainExpertise, newExpertise) == AddTag(old(domainExpertise), old(newExpertise))
      ensures WellFormed(old(domainExpertise)) ==> WellFormed(domainExpertise)
      ensures profile == old(profile)
      ensures publications == old(publications) && newPublication == old(newPublication)
    {
      if WellFormed(domainExpertise) {
        AddTagKeepsWellFormed(domainExpertise, newExpertise);
      }
      var t := Trim(newExpertise);
      if t != "" && t !in domainExpertise {
        domainExpertise := domainExpertise + [t];
        newExpertise := "";
      }
    }

    /** `removeExpertise`: drop every equal entry. */
    method RemoveExpertise(expertise: string)
      modifies this
      ensures domainExpertise == RemoveTag(old(domainExpertise), expertise)
      ensures WellFormed(old(domainExpertise)) ==> WellFormed(domainExpertise)
      ensures profile == old(profile) && newExpertise == old(newExpertise)
      ensures publications == old(publications) && newPublication == old(newPublication)
    {
      if WellFormed(domainExpertise) {
        RemoveTagKeepsWellFormed(domainExpertise, expertise);
      }
      domainExpertise := RemoveTag(domainExpertise, expertise);
    }

    /** `setNewPublication({ ...newPublication, title: value })`, and the same
        for the year and the link. */
    method EditDraft(field: DraftField, value: string)
      modifies this
      ensures field == Title ==> newPublication == old(newPublication).(title := value)
      ensures field == Year ==> newPublication == old(newPublication).(year := value)
      ensures field == Link ==> newPublication == old(newPublication).(link := Some(value))
      ensures profile == old(profile) && domainExpertise == old(domainExpertise)
      ensures newExpertise == old(newExpertise) && publications == old(publications)
    {
      match field
      case Title => newPublication := newPublication.(title := value);
      case Year => newPublication := newPublication.(year := value);
      case Link => newPublication := newPublication.(link := Some(value));
    }

    /** `addPublication`. */
    method AddPublicationEntry()
      modifies this
      ensures (publications, newPublication) == AddPublication(old(publications), old(newPublication))
      ensures profile == old(profile) && domainExpertise == old(domainExpertise)
      ensures newExpertise == old(newExpertise)
    {
      var next := AddPublication(publications, newPublication);
      publications := next.0;
      newPublication := next.1;
    }

    /** `removePublication(index)`. */
    method RemovePublicationEntry(index: int)
      modifies this
      ensures publications == RemovePublication(old(publications), index)
      ensures profile == old(profile) && domainExpertise == old(domainExpertise)
      ensures newExpertise == old(newExpertise) && newPublication == old(newPublication)
    {
      publications := RemovePublication(publications, index);
    }
  }

  datatype ProfileField = FullName | Affiliation | Bio | LinkedinUrl
  datatype DraftField = Title | Year | Link

  /** The row with one text column set. */
  function WithField(row: ProfileRow, field: ProfileField, value: string): (r: ProfileRow)
    ensures field == FullName ==> r.fullName == Some(value)
    ensures field == Affiliation ==> r.affiliation == Some(value)
    ensures field == Bio ==> r.bio == Some(value)
    ensures field == LinkedinUrl ==> r.linkedinUrl == Some(value)
    ensures field != FullName ==> r.fullName == row.fullName
    ensures field != Affiliation ==> r.affiliation == row.affiliation
    ensures field != Bio ==> r.bio == row.bio
    ensures field != LinkedinUrl ==> r.linkedinUrl == row.linkedinUrl
    ensures r.email == row.email && r.domainExpertise == row.domainExpertise
    ensures r.publicationHistory == row.publicationHistory && r.profileCompleted == row.profileCompleted
  {
    match field
    case FullName => row.(fullName := Some(value))
    case Affiliation => row.(affiliation := Some(value))
    case Bio => row.(bio := Some(value))
    case LinkedinUrl => row.(linkedinUrl := Some(value))
  }

  /** Typing into a field again replaces what was typed before. */
  lemma {:induction false} WithFieldOverwrites(row: ProfileRow, field: ProfileField, a: string, b: string)
    ensures WithField(WithField(row, field, a), field, b) == WithField(row, field, b)
  {
  }

  /** Edits of two different fields do not interfere. */
  lemma {:induction false} WithFieldCommutes(row: ProfileRow, f: ProfileField, g: ProfileField, a: string, b: string)
    requires f != g
    ensures WithField(WithField(row, f, a), g, b) == WithField(WithField(row, g, b), f, a)
  {
  }
}
