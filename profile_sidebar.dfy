/** The feed's profile card and its "suggested researchers" list: fallback
    texts for missing columns and the completion threshold. */
module ProfileSidebar {
  import opened Wrappers
  import opened JsText
  import opened Names

  /** The `profiles` columns the card and the suggestions read. */
  datatype SidebarProfile = SidebarProfile(
    fullName: Option<string>,
    email: Option<string>,
    affiliation: Option<string>,
    completionScore: Option<int>)

  /** The score at and above which the card stops asking for more. */
  const CompleteScore := 80

  /** `profile.profile_completion_score || 0`. */
  function CompletionScore(p: SidebarProfile): (r: int)
    ensures p.completionScore.None? ==> r == 0
    ensures p.completionScore.Some? ==> r == p.completionScore.value
  {
    p.completionScore.GetOr(0)
  }

  /** `completionScore >= 80`. */
  function IsProfileComplete(p: SidebarProfile): (r: bool)
    ensures r <==> p.completionScore.Some? && p.completionScore.value >= CompleteScore
  {
    CompletionScore(p) >= CompleteScore
  }

  /** Raising the score never makes a complete profile incomplete, and a
      missing score is never complete. */
  lemma CompletionMonotone(p: SidebarProfile, score: int)
    requires IsProfileComplete(p) && score >= CompletionScore(p)
    ensures IsProfileComplete(p.(completionScore := Some(score)))
    ensures !IsProfileComplete(p.(completionScore := None))
  {
  }

  /** The card's avatar initials. */
  function CardInitials(p: SidebarProfile): (r: string)
    ensures r != ""
  {
    ProfileInitials(p.fullName, p.email)
  }

  /** `profile.full_name || 'User'`. */
  function DisplayName(p: SidebarProfile): (r: string)
    ensures r != ""
    ensures Truthy(p.fullName) ==> r == p.fullName.value
    ensures !Truthy(p.fullName) ==> r == "User"
  {
    OrElse(p.fullName, "User")
  }

  /** `profile.affiliation || 'No affiliation'`. */
  function DisplayAffiliation(p: SidebarProfile): (r: string)
    ensures r != ""
    ensures Truthy(p.affiliation) ==> r == p.affiliation.value
    ensures !Truthy(p.affiliation) ==> r == "No affiliation"
  {
    OrElse(p.affiliation, "No affiliation")
  }

  /** `user.full_name || user.email`, the suggestion's label; it is missing
      when both are. */
  function SuggestedName(u: SidebarProfile): (r: Option<string>)
    ensures Truthy(u.fullName) ==> r == u.fullName
    ensures !Truthy(u.fullName) ==> r == u.email
  {
    if Truthy(u.fullName) then u.fullName else u.email
  }

  /** `user.full_name?.charAt(0) || user.email?.charAt(0) || 'R'`. */
  function SuggestedLetter(u: SidebarProfile): (r: string)
    ensures |r| == 1
  {
    var fromName := if u.fullName.Some? then FirstChar(u.fullName.value) else "";
    var fromEmail := if u.email.Some? then FirstChar(u.email.value) else "";
    if fromName != "" then fromName else if fromEmail != "" then fromEmail else "R"
  }

  /** The suggestion's letter is the first character of its label, and "R"
      when there is no label to take it from. */
  lemma SuggestedLetterOfName(u: SidebarProfile)
    ensures Truthy(SuggestedName(u)) ==> SuggestedLetter(u) == [SuggestedName(u).value[0]]
    ensures !Truthy(SuggestedName(u)) ==> SuggestedLetter(u) == "R"
  {
    if u.fullName.Some? {
      assert |FirstChar(u.fullName.value)| == 1 <==> u.fullName.value != "";
    }
  }
}
