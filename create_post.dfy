/** The tag editor of the "share your research" form: the `tags` and
    `tagInput` state of the page and its two handlers. */
module CreatePost {
  import opened JsText
  import opened TagList

  class TagEditor {
    var tags: seq<string>
    var tagInput: string

    /** Every label on the form is distinct, non-empty and trimmed. */
    ghost predicate Valid()
      reads this
    {
      WellFormed(tags)
    }

    /** `useState<string[]>([])` and `useState("")`. */
    constructor()
      ensures Valid()
      ensures tags == [] && tagInput == ""
    {
      tags := [];
      tagInput := "";
    }

    /** The input box's `onChange`. */
    method SetTagInput(value: string)
      requires Valid()
      modifies this
      ensures Valid()
      ensures tags == old(tags) && tagInput == value
    {
      tagInput := value;
    }

    /** `addTag`: append the trimmed input unless it is blank or already a
        tag, and clear the box when it was appended. */
    method AddTag()
      requires Valid()
      modifies this
      ensures Valid()
      ensures (tags, tagInput) == TagList.AddTag(old(tags), old(tagInput))
    {
      AddTagKeepsWellFormed(tags, tagInput);
      var t := Trim(tagInput);
      if t != "" && t !in tags {
        tags := tags + [t];
        tagInput := "";
      }
    }

    /** `removeTag`: drop every tag equal to the argument. */
    method RemoveTag(t: string)
      requires Valid()
      modifies this
      ensures Valid()
      ensures tags == TagList.RemoveTag(old(tags), t) && tagInput == old(tagInput)
    {
      RemoveTagKeepsWellFormed(tags, t);
      tags := TagList.RemoveTag(tags, t);
    }
  }
}
