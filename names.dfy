/** Avatar initials built from a person's name: the first character of each
    space-separated piece, `name.split(' ').map(n => n[0]).join('')`. */
module Names {
  import opened Wrappers
  import opened JsText

  /** `pieces.map(n => n[0]).join('')`: an empty piece has no first
      character and contributes nothing. */
  function Heads(pieces: seq<string>): (r: string)
    ensures |r| <= |pieces|
  {
    if |pieces| == 0 then "" else FirstChar(pieces[0]) + Heads(pieces[1..])
  }

  function NonEmpty(pieces: seq<string>): (r: seq<string>)
    ensures forall k :: 0 <= k < |r| ==> r[k] != ""
    ensures forall p :: p in r ==> p in pieces
  {
    if |pieces| == 0 then []
    else (if pieces[0] == "" then [] else [pieces[0]]) + NonEmpty(pieces[1..])
  }

  /** The words of `s`: the non-empty pieces between spaces, in order. */
  function Words(s: string): (r: seq<string>)
    ensures forall k :: 0 <= k < |r| ==> r[k] != "" && ' ' !in r[k]
  {
    NonEmpty(Split(s))
  }

  /** The initials of a name. */
  function WordInitials(s: string): string {
    Heads(Split(s))
  }

  lemma {:induction false} HeadsSkipEmpty(pieces: seq<string>)
    ensures Heads(pieces) == Heads(NonEmpty(pieces))
  {
    if |pieces| > 0 {
      HeadsSkipEmpty(pieces[1..]);
      if pieces[0] != "" {
        assert NonEmpty(pieces) == [pieces[0]] + NonEmpty(pieces[1..]);
        assert NonEmpty(pieces)[0] == pieces[0];
        assert NonEmpty(pieces)[1..] == NonEmpty(pieces[1..]);
      } else {
        assert NonEmpty(pieces) == NonEmpty(pieces[1..]);
      }
    }
  }

  lemma {:induction false} HeadsOfNonEmpty(pieces: seq<string>)
    requires forall k :: 0 <= k < |pieces| ==> pieces[k] != ""
    ensures |Heads(pieces)| == |pieces|
    ensures forall k :: 0 <= k < |pieces| ==> Heads(pieces)[k] == pieces[k][0]
  {
    if |pieces| > 0 {
      HeadsOfNonEmpty(pieces[1..]);
      assert forall k :: 1 <= k < |pieces| ==> pieces[k] == pieces[1..][k - 1];
    }
  }

  /** One initial per word, in word order; runs of spaces add nothing. */
  lemma InitialsOfWords(s: string)
    ensures |WordInitials(s)| == |Words(s)|
    ensures forall k :: 0 <= k < |Words(s)| ==> WordInitials(s)[k] == Words(s)[k][0]
  {
    HeadsSkipEmpty(Split(s));
    HeadsOfNonEmpty(Words(s));
  }

  lemma {:induction false} SplitAllEmpty(s: string)
    ensures (forall k :: 0 <= k < |Split(s)| ==> Split(s)[k] == "")
            <==> (forall i :: 0 <= i < |s| ==> s[i] == ' ')
  {
    if |s| > 0 {
      SplitAllEmpty(s[1..]);
      var rest := Split(s[1..]);
      assert forall i :: 1 <= i < |s| ==> s[i] == s[1..][i - 1];
      if s[0] == ' ' {
        assert Split(s) == [""] + rest;
        assert forall k :: 0 <= k < |rest| ==> rest[k] == Split(s)[k + 1];
        assert forall k :: 1 <= k < |Split(s)| ==> Split(s)[k] == rest[k - 1];
        assert forall i :: 0 <= i < |s| - 1 ==> s[1..][i] == s[i + 1];
      } else {
        assert Split(s)[0] == [s[0]] + rest[0];
      }
    }
  }

  lemma {:induction false} NonEmptyNone(pieces: seq<string>)
    ensures NonEmpty(pieces) == [] <==> forall k :: 0 <= k < |pieces| ==> pieces[k] == ""
  {
    if |pieces| > 0 {
      NonEmptyNone(pieces[1..]);
      assert forall k :: 1 <= k < |pieces| ==> pieces[k] == pieces[1..][k - 1];
      if pieces[0] != "" {
        assert NonEmpty(pieces)[0] == pieces[0];
      }
    }
  }

  /** A name has no initials exactly when it is empty or only spaces. */
  lemma NoInitialsIffOnlySpaces(s: string)
    ensures WordInitials(s) == "" <==> forall i :: 0 <= i < |s| ==> s[i] == ' '
  {
    InitialsOfWords(s);
    NonEmptyNone(Split(s));
    SplitAllEmpty(s);
    var w := Words(s);
    assert w == NonEmpty(Split(s));
    assert WordInitials(s) == "" <==> |WordInitials(s)| == 0;
    assert w == [] <==> |w| == 0;
  }

  /** `full_name?.split(' ').map(n => n[0]).join('') || email?.charAt(0).toUpperCase() || 'U'`,
      the initials rule of the profile pages. */
  function ProfileInitials(fullName: Option<string>, email: Option<string>): (r: string)
    ensures r != ""
  {
    var fromName := if fullName.Some? then WordInitials(fullName.value) else "";
    var fromEmail := if email.Some? then Upper(FirstChar(email.value)) else "";
    if fromName != "" then fromName else if fromEmail != "" then fromEmail else "U"
  }

  /** The three cases of the profile initials: the name's initials, not
      uppercased; else the uppercased first character of the email; else "U". */
  lemma ProfileInitialsCases(fullName: Option<string>, email: Option<string>)
    ensures var r := ProfileInitials(fullName, email);
            var noName := fullName.None? || forall i :: 0 <= i < |fullName.value| ==> fullName.value[i] == ' ';
            && (!noName ==> |r| == |Words(fullName.value)|
                            && forall k :: 0 <= k < |r| ==> r[k] == Words(fullName.value)[k][0])
            && (noName && email.Some? && email.value != "" ==> r == [UpperChar(email.value[0])])
            && (noName && !(email.Some? && email.value != "") ==> r == "U")
  {
    if fullName.Some? {
      NoInitialsIffOnlySpaces(fullName.value);
      InitialsOfWords(fullName.value);
    }
  }
}
