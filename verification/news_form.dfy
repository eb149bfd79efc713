/**
 The create/edit form's state machine. The `editingNews` prop is passed to
 each transition as `editing`; the browser's FileReader is the parameter
 `read`, which maps a file to its data URL.
 */
module NewsForm {
  import opened NewsTypes
  import JsString

  /** The two named inputs of the form. */
  datatype Field = Title | Description

  /**
   The form's hooks: the draft (`formData`), the picked files, the preview
   URLs shown under the picker and the busy flag.
   */
  datatype FormState = FormState(data: FormData, files: seq<File>, previews: seq<ImageRef>, submitting: bool)

  /** The `onSubmit(submitData, editingNews?.id)` call the form makes. */
  datatype Call = Call(data: FormData, id: Option<Id>)

  /** The form state after a submit click, and the call it made, if any. */
  datatype Submission = Submission(state: FormState, call: Option<Call>)

  const EmptyData := FormData("", "", [])
  const Initial := FormState(EmptyData, [], [], false)

  /** The draft, files and previews are all empty. */
  predicate Cleared(s: FormState) {
    s.data == EmptyData && s.files == [] && s.previews == []
  }

  /** The effect run when `editingNews` changes: seed from the article, or do nothing. */
  function Seed(s: FormState, editing: Option<Article>): (r: FormState)
    ensures editing.None? ==> r == s
    ensures editing.Some? ==>
              && r.data.title == editing.value.title
              && r.data.description == editing.value.description
              && r.data.images == editing.value.images
              && r.previews == editing.value.images
              && r.files == []
    ensures r.submitting == s.submitting
  {
    match editing
    case None => s
    case Some(a) => s.(data := FormData(a.title, a.description, a.images), previews := a.images, files := [])
  }

  /** `handleInputChange`: only the named field changes. */
  function ChangeInput(s: FormState, name: Field, value: string): (r: FormState)
    ensures r.files == s.files && r.previews == s.previews && r.submitting == s.submitting
    ensures r.data.images == s.data.images
    ensures name == Title ==> r.data.title == value && r.data.description == s.data.description
    ensures name == Description ==> r.data.description == value && r.data.title == s.data.title
  {
    match name
    case Title => s.(data := s.data.(title := value))
    case Description => s.(data := s.data.(description := value))
  }

  /** The current value of a named input. */
  function FieldValue(s: FormState, name: Field): string {
    match name
    case Title => s.data.title
    case Description => s.data.description
  }

  /** Typing the old value back into an input restores the whole form. */
  lemma ChangeInputUndo(s: FormState, name: Field, value: string)
    ensures ChangeInput(ChangeInput(s, name, value), name, FieldValue(s, name)) == s
    ensures FieldValue(ChangeInput(s, name, value), name) == value
  {
  }

  /** The data URLs of the files, in selection order. */
  function ReadAll(files: seq<File>, read: File -> string): (previews: seq<ImageRef>)
    ensures |previews| == |files| && AllUrls(previews)
    ensures forall i :: 0 <= i < |files| ==> previews[i] == Url(read(files[i]))
  {
    seq(|files|, i requires 0 <= i < |files| => Url(read(files[i])))
  }

  /**
   The `Promise.all` join of the per-file reads: the reads finish in the
   order `completion` (a permutation of the positions), each result goes
   to its file's slot, and the joined list is in selection order whatever
   the completion order.
   */
  method GatherPreviews(files: seq<File>, read: File -> string, completion: seq<nat>)
    returns (previews: seq<ImageRef>)
    requires |completion| == |files|
    requires forall m :: 0 <= m < |completion| ==> completion[m] < |files|
    requires forall i :: 0 <= i < |files| ==> i in completion
    ensures previews == ReadAll(files, read)
  {
    previews := seq(|files|, _ => Url(""));
    var k := 0;
    while k < |completion|
      invariant 0 <= k <= |completion|
      invariant |previews| == |files|
      invariant forall m :: 0 <= m < k ==> previews[completion[m]] == Url(read(files[completion[m]]))
    {
      var slot := completion[k];
      previews := previews[slot := Url(read(files[slot]))];
      k := k + 1;
    }
    forall i | 0 <= i < |files|
      ensures previews[i] == Url(read(files[i]))
    {
      assert i in completion;
      var m :| 0 <= m < |completion| && completion[m] == i;
    }
  }

  /** `handleImageChange`: the selection replaces the files and the previews. */
  function ChangeImages(s: FormState, selection: seq<File>, read: File -> string): (r: FormState)
    ensures r.files == selection
    ensures |r.previews| == |selection|
    ensures forall i :: 0 <= i < |selection| ==> r.previews[i] == Url(read(selection[i]))
    ensures r.data == s.data && r.submitting == s.submitting
  {
    s.(files := selection, previews := ReadAll(selection, read))
  }

  /**
   `list.filter((_, i) => i !== index)`: keeps every element whose position
   differs from `index`.
   */
  function DropIndex<T>(list: seq<T>, index: int): (r: seq<T>)
    ensures 0 <= index < |list| ==> r == list[..index] + list[index + 1..]
    ensures !(0 <= index < |list|) ==> r == list
    decreases |list|
  {
    if |list| == 0 then []
    else (if index == 0 then [] else [list[0]]) + DropIndex(list[1..], index - 1)
  }

  /** `removeImage`: both lists lose their `index`-th element, each on its own. */
  function RemoveImage(s: FormState, index: int): (r: FormState)
    ensures 0 <= index < |s.files| ==> |r.files| == |s.files| - 1
    ensures 0 <= index < |s.previews| ==> |r.previews| == |s.previews| - 1
    ensures 0 <= index < |s.files| ==>
              forall i :: 0 <= i < |r.files| ==> r.files[i] == s.files[if i < index then i else i + 1]
    ensures 0 <= index < |s.previews| ==>
              forall i :: 0 <= i < |r.previews| ==> r.previews[i] == s.previews[if i < index then i else i + 1]
    ensures !(0 <= index < |s.files|) ==> r.files == s.files
    ensures !(0 <= index < |s.previews|) ==> r.previews == s.previews
    ensures r.data == s.data && r.submitting == s.submitting
  {
    s.(files := DropIndex(s.files, index), previews := DropIndex(s.previews, index))
  }

  /** The images of the submitted data: previews when editing, raw files when creating. */
  function PayloadImages(s: FormState, editing: Option<Article>): (images: seq<ImageRef>)
    ensures editing.Some? ==> images == s.previews
    ensures editing.None? ==> images == Uploads(s.files)
  {
    if editing.Some? then s.previews else Uploads(s.files)
  }

  /**
   The first half of `handleSubmit`: a blank title or description rejects
   the click and changes nothing; otherwise the form turns busy and calls
   `onSubmit` with the draft and the edited article's id.
   */
  function BeginSubmit(s: FormState, editing: Option<Article>): (r: Submission)
    ensures r.call.None? <==> JsString.Blank(s.data.title) || JsString.Blank(s.data.description)
    ensures r.call.None? ==> r.state == s
    ensures r.call.Some? ==> r.state == s.(submitting := true)
    ensures r.call.Some? ==>
              && r.call.value.data.title == s.data.title
              && r.call.value.data.description == s.data.description
              && r.call.value.data.images == PayloadImages(s, editing)
    ensures r.call.Some? ==> (r.call.value.id.Some? <==> editing.Some?)
    ensures r.call.Some? && editing.Some? ==> r.call.value.id == Some(editing.value.id)
  {
    if JsString.Blank(s.data.title) || JsString.Blank(s.data.description) then
      Submission(s, None)
    else
      var payload := s.data.(images := PayloadImages(s, editing));
      var id := if editing.Some? then Some(editing.value.id) else None;
      Submission(s.(submitting := true), Some(Call(payload, id)))
  }

  /**
   The second half of `handleSubmit`, once `onSubmit` has settled: a
   successful create clears the form; an edit or a thrown error leaves it.
   The busy flag drops in every case.
   */
  function FinishSubmit(s: FormState, editing: Option<Article>, succeeded: bool): (r: FormState)
    ensures !r.submitting
    ensures succeeded && editing.None? ==> Cleared(r)
    ensures !(succeeded && editing.None?) ==> r.data == s.data && r.files == s.files && r.previews == s.previews
  {
    if succeeded && editing.None? then Initial else s.(submitting := false)
  }

  /** `handleCancel`: empties the form; the caller then ends edit mode. */
  function Cancel(s: FormState): (r: FormState)
    ensures Cleared(r) && r.submitting == s.submitting
  {
    s.(data := EmptyData, files := [], previews := [])
  }

  /** Putting the removed element back at its position restores the list. */
  lemma DropIndexInsertBack<T>(list: seq<T>, index: int)
    requires 0 <= index < |list|
    ensures DropIndex(list, index)[..index] + [list[index]] + DropIndex(list, index)[index..] == list
  {
    var r := DropIndex(list, index);
    var front, back := list[..index], list[index + 1..];
    assert r == front + back;
    SplitJoin(front, back, list[index], list);
  }

  /** Splitting a concatenation at the seam and splicing `x` in rebuilds `list`. */
  lemma SplitJoin<T>(front: seq<T>, back: seq<T>, x: T, list: seq<T>)
    requires |front| < |list| && front == list[..|front|] && x == list[|front|] && back == list[|front| + 1..]
    ensures (front + back)[..|front|] + [x] + (front + back)[|front|..] == list
  {
    assert (front + back)[..|front|] == front;
    assert (front + back)[|front|..] == back;
  }
}
