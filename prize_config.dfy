/** The prize form of the configuration page: add, edit and delete prize entries. */
module PrizeConfig {
  import opened Records
  import opened JsText

  /**
   * The entry a submit stores: name and image trimmed, and the count kept unless it is 0, which
   * `count || 1` turns into 1.
   */
  function Entry(name: string, image: string, count: int): Prize {
    Prize(Trim(name), Trim(image), if count == 0 then 1 else count)
  }

  /**
   * What a submit stores for a name that is not blank: a non-empty name with no white space at
   * either end, an image URL with none either, and the form's count, or 1 when that was 0.
   */
  lemma EntryNormal(name: string, image: string, count: int)
    requires !AllSpace(name)
    ensures var p := Entry(name, image, count);
      && p.name != [] && !IsJsSpace(p.name[0]) && !IsJsSpace(p.name[|p.name| - 1])
      && (p.image == [] || (!IsJsSpace(p.image[0]) && !IsJsSpace(p.image[|p.image| - 1])))
      && p.count != 0 && (count != 0 ==> p.count == count) && (count == 0 ==> p.count == 1)
  {
    TrimEmptyIffBlank(name);
  }

  /** A stored entry is already in normal form: submitting it unchanged from the edit form stores it again as it is. */
  lemma EntryIdempotent(name: string, image: string, count: int)
    ensures var p := Entry(name, image, count); Entry(p.name, p.image, p.count) == p
  {
    TrimIdempotent(name);
    TrimIdempotent(image);
  }

  class PrizeForm {
    var name: string
    var image: string
    var count: int
    /** The position being edited; `None` while the form adds a new prize. */
    var editIndex: Option<nat>

    constructor()
      ensures name == "" && image == "" && count == 1 && editIndex == None
    {
      name := "";
      image := "";
      count := 1;
      editIndex := None;
    }

    /**
     * `handleSubmit`. A name that is blank after trimming changes nothing. Otherwise the entry
     * replaces position `editIndex` in edit mode, or is appended in add mode, and the form resets
     * to an empty add form with count 1.
     */
    method Submit(prizes: seq<Prize>) returns (updated: seq<Prize>)
      modifies this
      ensures Trim(old(name)) == [] ==> updated == prizes && unchanged(this)
      ensures Trim(old(name)) != [] ==>
                var entry := Entry(old(name), old(image), old(count));
                && (old(editIndex).Some? ==> updated == Assign(prizes, old(editIndex).value, entry))
                && (old(editIndex).None? ==> updated == prizes + [entry])
                && name == "" && image == "" && count == 1 && editIndex == None
    {
      if Trim(name) == [] {
        return prizes;
      }
      var entry := Entry(name, image, count);
      if editIndex.Some? {
        updated := Assign(prizes, editIndex.value, entry);
        editIndex := None;
      } else {
        updated := prizes + [entry];
      }
      name := "";
      image := "";
      count := 1;
    }

    /** `handleEdit`: the form takes the fields of the prize at `index` and switches to edit mode. */
    method Edit(prizes: seq<Prize>, index: nat)
      requires index < |prizes|
      modifies this
      ensures name == prizes[index].name && image == prizes[index].image && count == prizes[index].count
      ensures editIndex == Some(index)
    {
      name := prizes[index].name;
      image := prizes[index].image;
      count := prizes[index].count;
      editIndex := Some(index);
    }
  }
}
