/** The participant form of the configuration page: add, edit and delete names. */
module PeopleInput {
  import opened Records
  import opened JsText

  /** Add mode: the name is appended unless the list already holds it (`people.includes`). */
  function AddPerson(people: seq<string>, entry: string): (r: seq<string>)
    ensures entry in r && |people| <= |r| <= |people| + 1 && r[..|people|] == people
    ensures forall x :: x in r <==> x in people || x == entry
    ensures entry in people ==> r == people
    ensures Distinct(people) ==> Distinct(r)
  {
    if entry in people then people else people + [entry]
  }

  /**
   * Edit mode replaces the entry in place with no duplicate check: renaming the second of two
   * participants to the first one's name leaves the list with a repeated name.
   */
  lemma EditCanDuplicate()
    ensures Distinct(["a", "b"]) && !Distinct(Assign(["a", "b"], 1, "a"))
  {
    var r := Assign(["a", "b"], 1, "a");
    assert r[0] == "a" && r[1] == "a";
  }

  class PeopleForm {
    var name: string
    /** The position being edited; `None` while the form adds a new participant. */
    var editIndex: Option<nat>

    constructor()
      ensures name == "" && editIndex == None
    {
      name := "";
      editIndex := None;
    }

    /**
     * `handleSubmit`. A name that is blank after trimming changes nothing. Otherwise, in edit mode
     * the trimmed name replaces position `editIndex` and the form leaves edit mode; in add mode
     * it is appended unless already present. Either way the input is cleared.
     */
    method Submit(people: seq<string>) returns (updated: seq<string>)
      modifies this
      ensures Trim(old(name)) == [] ==> updated == people && unchanged(this)
      ensures Trim(old(name)) != [] ==>
                && (old(editIndex).Some? ==> updated == Assign(people, old(editIndex).value, Trim(old(name))))
                && (old(editIndex).None? ==> updated == AddPerson(people, Trim(old(name))))
                && name == "" && editIndex == None
    {
      var entry := Trim(name);
      if entry == [] {
        return people;
      }
      if editIndex.Some? {
        updated := Assign(people, editIndex.value, entry);
        editIndex := None;
      } else {
        updated := AddPerson(people, entry);
      }
      name := "";
    }

    /** `handleEdit`: the form takes the name at `index` and switches to edit mode. */
    method Edit(people: seq<string>, index: nat)
      requires index < |people|
      modifies this
      ensures name == people[index] && editIndex == Some(index)
    {
      name := people[index];
      editIndex := Some(index);
    }
  }
}
