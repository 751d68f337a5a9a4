/**
 * The pet form: its initial data, the updates its handlers apply to the
 * form data, and the check made before the form is submitted.
 */
module PetForm {
  import opened PetTypes

  /** The fixed category table offered by the form. */
  const CATEGORIES: seq<Category> := [
    Category(1, "Perro"),
    Category(2, "Gato"),
    Category(3, "Ave"),
    Category(4, "Pez"),
    Category(5, "Reptil"),
    Category(6, "Otro")
  ]

  const DEFAULT_CATEGORY: Category := Category(1, "Perro")

  /**
   * The form data for `pet` (none for a new pet). A missing or zero id is
   * replaced by the clock reading `now`, as the mount effect does; an
   * empty status becomes available.
   */
  function InitialForm(pet: Option<Pet>, now: int): (f: Pet)
    ensures pet.None? ==> f == Pet(Some(now), DEFAULT_CATEGORY, "", [""], [Tag(1, "")], AVAILABLE)
    ensures pet.Some? ==>
      && f.category == pet.value.category && f.name == pet.value.name
      && f.photoUrls == pet.value.photoUrls && f.tags == pet.value.tags
      && f.status == (if pet.value.status == "" then AVAILABLE else pet.value.status)
      && f.id == (if IdTruthy(pet.value.id) then pet.value.id else Some(now))
    ensures IdTruthy(f.id) || f.id == Some(now)
  {
    match pet
    case None => Pet(Some(now), DEFAULT_CATEGORY, "", [""], [Tag(1, "")], AVAILABLE)
    case Some(p) =>
      Pet(if IdTruthy(p.id) then p.id else Some(now), p.category, p.name, p.photoUrls, p.tags,
          if p.status == "" then AVAILABLE else p.status)
  }

  // ---------------------------------------------------------------------
  // Submission

  /** What pressing submit does: hand the data on, do nothing, or fail reading a missing first tag. */
  datatype Submission = Submitted(pet: Pet) | Ignored | NoFirstTag

  /**
   * The check before `onSubmit`: name, first photo URL and first tag name
   * must be non-empty. The checks run in order, so an empty tag list is
   * only reached (and fails) when name and photo are present.
   */
  function SubmitCheck(form: Pet): (r: Submission)
    ensures r.Submitted? <==>
      form.name != "" && |form.photoUrls| > 0 && form.photoUrls[0] != ""
      && |form.tags| > 0 && form.tags[0].name != ""
    ensures r.Submitted? ==> r.pet == form
    ensures r.NoFirstTag? <==>
      form.name != "" && |form.photoUrls| > 0 && form.photoUrls[0] != "" && form.tags == []
  {
    if form.name == "" then Ignored
    else if |form.photoUrls| == 0 || form.photoUrls[0] == "" then Ignored
    else if form.tags == [] then NoFirstTag
    else if form.tags[0].name == "" then Ignored
    else Submitted(form)
  }

  // ---------------------------------------------------------------------
  // Field updates

  /** The fields `handleChange` is used for. */
  datatype Field = NameField | StatusField

  /** `handleChange(field, value)`: only the named field changes. */
  function WithField(form: Pet, field: Field, value: string): (r: Pet)
    ensures field == NameField ==> r.name == value && r == form.(name := value)
    ensures field == StatusField ==> r.status == value && r == form.(status := value)
  {
    match field
    case NameField => form.(name := value)
    case StatusField => form.(status := value)
  }

  /** The photo input replaces the whole URL list by the one URL typed. */
  function WithPhotoUrl(form: Pet, value: string): (r: Pet)
    ensures r.photoUrls == [value] && r == form.(photoUrls := [value])
  {
    form.(photoUrls := [value])
  }

  /** `CATEGORIES.find(cat => cat.name === name)`: the first entry with that name. */
  function FindCategory(table: seq<Category>, name: string): (r: Option<Category>)
    ensures r.None? <==> forall i :: 0 <= i < |table| ==> table[i].name != name
    ensures r.Some? ==> exists i :: 0 <= i < |table| && table[i] == r.value && r.value.name == name
                          && forall j :: 0 <= j < i ==> table[j].name != name
  {
    if table == [] then None
    else if table[0].name == name then Some(table[0])
    else
      var r := FindCategory(table[1..], name);
      assert r.Some? ==> exists i :: 0 <= i < |table[1..]| && table[1..][i] == r.value && r.value.name == name
                          && forall j :: 0 <= j < i ==> table[1..][j].name != name;
      if r.Some? then
        var i :| 0 <= i < |table[1..]| && table[1..][i] == r.value && r.value.name == name
                 && forall j :: 0 <= j < i ==> table[1..][j].name != name;
        assert table[i + 1] == r.value;
        assert forall j :: 0 <= j < i + 1 ==> table[j].name != name by {
          forall j | 0 <= j < i + 1 ensures table[j].name != name {
            if j > 0 { assert table[j] == table[1..][j - 1]; }
          }
        }
        r
      else r
  }

  /** `handleCategoryChange(name)`: a known name selects its category; an unknown one changes nothing. */
  function WithCategory(form: Pet, name: string): (r: Pet)
    ensures (exists i :: 0 <= i < |CATEGORIES| && CATEGORIES[i].name == name) ==>
              r.category in CATEGORIES && r.category.name == name && r == form.(category := r.category)
    ensures (forall i :: 0 <= i < |CATEGORIES| ==> CATEGORIES[i].name != name) ==> r == form
  {
    match FindCategory(CATEGORIES, name)
    case Some(c) => form.(category := c)
    case None => form
  }

  /** The category names of the table are distinct, so a name selects one entry. */
  lemma CategoryNamesDistinct()
    ensures forall i, j :: 0 <= i < j < |CATEGORIES| ==> CATEGORIES[i].name != CATEGORIES[j].name
  {
  }

  /** Each entry of the table is what its own name selects. */
  lemma {:induction false} CategoryRoundTrip(form: Pet, i: nat)
    requires i < |CATEGORIES|
    ensures WithCategory(form, CATEGORIES[i].name).category == CATEGORIES[i]
  {
    CategoryNamesDistinct();
    var r := FindCategory(CATEGORIES, CATEGORIES[i].name);
    assert r.Some?;
    var k :| 0 <= k < |CATEGORIES| && CATEGORIES[k] == r.value && r.value.name == CATEGORIES[i].name
             && forall j :: 0 <= j < k ==> CATEGORIES[j].name != CATEGORIES[i].name;
    assert k == i;
  }

  // ---------------------------------------------------------------------
  // Tag list updates

  /** `tags.map((tag, i) => i === index ? {...tag, name: value} : tag)`. */
  function RenameTagAt(tags: seq<Tag>, index: int, value: string): (r: seq<Tag>)
    ensures |r| == |tags|
    ensures forall i :: 0 <= i < |tags| ==> r[i].id == tags[i].id
    ensures forall i :: 0 <= i < |tags| && i != index ==> r[i] == tags[i]
    ensures 0 <= index < |tags| ==> r[index].name == value
    decreases |tags|
  {
    if tags == [] then []
    else [if index == 0 then tags[0].(name := value) else tags[0]] + RenameTagAt(tags[1..], index - 1, value)
  }

  /** `tags.filter((_, i) => i !== index)`. */
  function DropTagAt(tags: seq<Tag>, index: int): (r: seq<Tag>)
    ensures 0 <= index < |tags| ==> r == tags[..index] + tags[index + 1..]
    ensures !(0 <= index < |tags|) ==> r == tags
    decreases |tags|
  {
    if tags == [] then []
    else (if index == 0 then [] else [tags[0]]) + DropTagAt(tags[1..], index - 1)
  }

  /** `addTag`: one new empty tag at the end, numbered after the current length. */
  function AddedTag(tags: seq<Tag>): (r: seq<Tag>)
    ensures |r| == |tags| + 1 && r[..|tags|] == tags
    ensures r[|tags|] == Tag(|tags| + 1, "")
  {
    tags + [Tag(|tags| + 1, "")]
  }

  /** `removeTag(index)`: removes that tag only while more than one tag is left. */
  function RemovedTag(tags: seq<Tag>, index: int): (r: seq<Tag>)
    ensures |tags| > 1 && 0 <= index < |tags| ==> r == tags[..index] + tags[index + 1..]
    ensures !(|tags| > 1 && 0 <= index < |tags|) ==> r == tags
    ensures |tags| >= 1 ==> |r| >= 1
  {
    if |tags| > 1 then DropTagAt(tags, index) else tags
  }

  /** One of the three edits of the tag list the form offers. */
  datatype TagEdit = Rename(index: int, value: string) | Add | Remove(index: int)

  /** The tag list after a sequence of edits, applied first to last. */
  function ApplyTagEdits(tags: seq<Tag>, edits: seq<TagEdit>): seq<Tag>
    decreases |edits|
  {
    if edits == [] then tags
    else
      var next := match edits[0]
        case Rename(i, v) => RenameTagAt(tags, i, v)
        case Add => AddedTag(tags)
        case Remove(i) => RemovedTag(tags, i);
      ApplyTagEdits(next, edits[1..])
  }

  /** However the tags are edited, a list that has a tag keeps one. */
  lemma {:induction false} TagEditsKeepATag(tags: seq<Tag>, edits: seq<TagEdit>)
    requires |tags| >= 1
    ensures |ApplyTagEdits(tags, edits)| >= 1
    decreases |edits|
  {
    if edits != [] {
      var next := match edits[0]
        case Rename(i, v) => RenameTagAt(tags, i, v)
        case Add => AddedTag(tags)
        case Remove(i) => RemovedTag(tags, i);
      TagEditsKeepATag(next, edits[1..]);
    }
  }

  /** A new form keeps a tag through any edits, so its submission never fails on the first tag. */
  lemma NewFormKeepsATag(now: int, edits: seq<TagEdit>)
    ensures var form := InitialForm(None, now);
      !SubmitCheck(form.(tags := ApplyTagEdits(form.tags, edits))).NoFirstTag?
  {
    TagEditsKeepATag(InitialForm(None, now).tags, edits);
  }

  /** A new form starts with one empty tag, so it never reaches the missing-tag failure. */
  lemma NewFormHasATag(now: int)
    ensures |InitialForm(None, now).tags| == 1
    ensures SubmitCheck(InitialForm(None, now)) == Ignored
  {
  }

  /** Only the first tag is checked: renaming a later tag never changes whether the form submits. */
  lemma {:induction false} LaterTagsNotChecked(form: Pet, index: int, value: string)
    requires index != 0
    ensures SubmitCheck(form.(tags := RenameTagAt(form.tags, index, value))).Submitted?
        <==> SubmitCheck(form).Submitted?
  {
    var tags := RenameTagAt(form.tags, index, value);
    if |form.tags| > 0 {
      assert tags[0] == form.tags[0];
    }
  }

  /**
   * Tag ids follow the length, not the largest id: removing the first of
   * two tags and adding one gives two tags numbered 2.
   */
  lemma TagIdsCanRepeat()
    ensures var tags := AddedTag(RemovedTag([Tag(1, ""), Tag(2, "")], 0));
      |tags| == 2 && tags[0].id == tags[1].id == 2
  {
  }

  // ---------------------------------------------------------------------
  // The form component's state

  class FormState {
    var formData: Pet

    ghost predicate HasTag()
      reads this
    {
      |formData.tags| >= 1
    }

    constructor (pet: Option<Pet>, now: int)
      ensures formData == InitialForm(pet, now)
      ensures pet.None? ==> HasTag()
    {
      formData := InitialForm(pet, now);
    }

    method HandleChange(field: Field, value: string)
      modifies this
      ensures formData == WithField(old(formData), field, value)
      ensures old(HasTag()) ==> HasTag()
    {
      formData := WithField(formData, field, value);
    }

    method HandlePhotoUrlChange(value: string)
      modifies this
      ensures formData == WithPhotoUrl(old(formData), value)
      ensures old(HasTag()) ==> HasTag()
    {
      formData := WithPhotoUrl(formData, value);
    }

    method HandleCategoryChange(value: string)
      modifies this
      ensures formData == WithCategory(old(formData), value)
      ensures old(HasTag()) ==> HasTag()
    {
      formData := WithCategory(formData, value);
    }

    method HandleTagChange(index: int, value: string)
      modifies this
      ensures formData == old(formData).(tags := RenameTagAt(old(formData).tags, index, value))
      ensures old(HasTag()) ==> HasTag()
    {
      formData := formData.(tags := RenameTagAt(formData.tags, index, value));
    }

    method AddTag()
      modifies this
      ensures formData == old(formData).(tags := AddedTag(old(formData).tags))
      ensures HasTag()
    {
      formData := formData.(tags := AddedTag(formData.tags));
    }

    method RemoveTag(index: int)
      modifies this
      ensures formData == old(formData).(tags := RemovedTag(old(formData).tags, index))
      ensures old(HasTag()) ==> HasTag()
    {
      formData := formData.(tags := RemovedTag(formData.tags, index));
    }

    /** `handleSubmit`: the data handed to `onSubmit`, if the check passes. */
    method HandleSubmit() returns (r: Submission)
      ensures r == SubmitCheck(formData)
      ensures HasTag() ==> !r.NoFirstTag?
    {
      r := SubmitCheck(formData);
    }
  }
}
