/** Difficulty tags, their request values and their enum names. */
module Difficulties {
  import opened Wrappers

  datatype Difficulty = Easy | Medium | Hard {

    /** The selector sent to the remote generator. */
    function ApiValue(): string {
      match this
      case Easy => "easy"
      case Medium => "medium"
      case Hard => "hard"
    }

    /** The enum constant's name, as persisted. */
    function Name(): string {
      match this
      case Easy => "EASY"
      case Medium => "MEDIUM"
      case Hard => "HARD"
    }
  }

  /** Enum lookup by exact name; an unknown name is absent (Kotlin throws there). */
  function ValueOf(name: string): (r: Option<Difficulty>)
    ensures r.Some? ==> r.value.Name() == name
    ensures r.None? <==> forall d: Difficulty :: d.Name() != name
  {
    if name == "EASY" then Some(Easy)
    else if name == "MEDIUM" then Some(Medium)
    else if name == "HARD" then Some(Hard)
    else None
  }

  /** Looking up a tag's own name gives the tag back. */
  lemma ValueOfName(d: Difficulty)
    ensures ValueOf(d.Name()) == Some(d)
  {
  }
}
