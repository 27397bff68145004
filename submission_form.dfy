/** The submission form's client state (components/SubmissionForm.tsx): the
    pending screenshots, the drag highlight, the controlled long description,
    the submitting flag and the status message, with the handlers that change
    them. The server's reply to `createSubmission` is modelled by passing
    `submitProject`'s outcome, so the reply is `Actions.CreateSubmission` of
    the form actually sent. */
module SubmissionFormState {
  import opened Wrappers
  import opened Keyed
  import opened Actions
  import Storage

  datatype MessageKind = SuccessMessage | ErrorMessage

  datatype Message = Message(kind: MessageKind, text: string)

  const NoScreenshots := "Please upload at least one screenshot."

  /** `prev.filter((_, i) => i !== index)`. */
  function Without<T>(s: seq<T>, index: int): seq<T>
  {
    if s == [] then []
    else
      var n := |s| - 1;
      Without(s[..n], index) + (if n == index then [] else [s[n]])
  }

  /** An index out of range changes nothing. */
  lemma {:induction false} WithoutOutside<T>(s: seq<T>, index: int)
    requires !(0 <= index < |s|)
    ensures Without(s, index) == s
    decreases |s|
  {
    if s != [] {
      var n := |s| - 1;
      WithoutOutside(s[..n], index);
      assert s[..n] + [s[n]] == s;
    }
  }

  /** Removing an index in range drops exactly that element and keeps the
      others in order. */
  lemma {:induction false} WithoutInside<T>(s: seq<T>, index: int)
    requires 0 <= index < |s|
    ensures Without(s, index) == s[..index] + s[index + 1..]
    decreases |s|
  {
    var n := |s| - 1;
    if index == n {
      WithoutOutside(s[..n], index);
      assert s[index + 1..] == [];
    } else {
      WithoutInside(s[..n], index);
      assert s[..n][..index] == s[..index];
      assert s[..n][index + 1..] + [s[n]] == s[index + 1..];
    }
  }

  /** Removing an index drops exactly that element and keeps the others in
      order; an index out of range changes nothing. */
  lemma WithoutIndex<T>(s: seq<T>, index: int)
    ensures 0 <= index < |s| ==> Without(s, index) == s[..index] + s[index + 1..]
    ensures !(0 <= index < |s|) ==> Without(s, index) == s
  {
    if 0 <= index < |s| {
      WithoutInside(s, index);
    } else {
      WithoutOutside(s, index);
    }
  }

  /** One `images` entry per file. */
  function ImageEntries(files: seq<Storage.File>): (r: FormData)
    ensures |r| == |files|
  {
    if files == [] then []
    else
      var n := |files| - 1;
      ImageEntries(files[..n]) + [Pair("images", Blob(files[n]))]
  }

  /** The form sent: every file appended under `images`, then
      `longDescription` set from the state. */
  function Outgoing(form: FormData, files: seq<Storage.File>, longDescription: string): (r: FormData)
    ensures GetAll(r, "longDescription") == [Text(longDescription)]
  {
    SetGetAll(form + ImageEntries(files), "longDescription", Text(longDescription), "longDescription");
    Set(form + ImageEntries(files), "longDescription", Text(longDescription))
  }

  lemma {:induction false} ImagesOfEntries(files: seq<Storage.File>)
    ensures Images(ImageEntries(files)) == files
    decreases |files|
  {
    if files != [] {
      var n := |files| - 1;
      ImagesOfEntries(files[..n]);
      assert ImageEntries(files) == ImageEntries(files[..n]) + [Pair("images", Blob(files[n]))];
      ImagesInFormOrder(ImageEntries(files[..n]), [Pair("images", Blob(files[n]))]);
      ImagesOfOne("images", Blob(files[n]));
      assert files[..n] + [files[n]] == files;
    }
  }

  /** The sent form carries the state's files after the form's own images,
      and the state's long description as the only `longDescription`. */
  lemma OutgoingCarriesState(form: FormData, files: seq<Storage.File>, longDescription: string)
    ensures Images(Outgoing(form, files, longDescription)) == Images(form) + files
    ensures GetAll(Outgoing(form, files, longDescription), "longDescription") == [Text(longDescription)]
    ensures TextField(Outgoing(form, files, longDescription), "longDescription") == Some(longDescription)
  {
    var grown := form + ImageEntries(files);
    var out := Outgoing(form, files, longDescription);
    SetGetAll(grown, "longDescription", Text(longDescription), "images");
    SetGetAll(grown, "longDescription", Text(longDescription), "longDescription");
    ImagesInFormOrder(form, ImageEntries(files));
    ImagesOfEntries(files);
    GetFirstOfAll(out, "longDescription");
  }

  /** `get` is the first of `getAll`. */
  lemma {:induction false} GetFirstOfAll<V>(ps: seq<Pair<V>>, k: string)
    ensures GetAll(ps, k) == [] ==> Get(ps, k) == None
    ensures GetAll(ps, k) != [] ==> Get(ps, k) == Some(GetAll(ps, k)[0])
    decreases |ps|
  {
    if ps != [] {
      var n := |ps| - 1;
      GetFirstOfAll(ps[..n], k);
      assert forall i :: 0 <= i < n ==> ps[..n][i] == ps[i];
    }
  }

  class SubmissionForm {
    var isSubmitting: bool
    var message: Option<Message>
    var files: seq<Storage.File>
    var dragActive: bool
    var longDescription: string

    constructor()
      ensures !isSubmitting && message == None && files == [] && !dragActive && longDescription == ""
    {
      isSubmitting := false;
      message := None;
      files := [];
      dragActive := false;
      longDescription := "";
    }

    /** `handleDrag`: highlight on `dragenter`/`dragover`, clear on
        `dragleave`, ignore other events. */
    method HandleDrag(eventType: string)
      modifies this
      ensures eventType == "dragenter" || eventType == "dragover" ==> dragActive
      ensures eventType == "dragleave" ==> !dragActive
      ensures eventType != "dragenter" && eventType != "dragover" && eventType != "dragleave"
              ==> dragActive == old(dragActive)
      ensures isSubmitting == old(isSubmitting) && message == old(message)
      ensures files == old(files) && longDescription == old(longDescription)
    {
      if eventType == "dragenter" || eventType == "dragover" {
        dragActive := true;
      } else if eventType == "dragleave" {
        dragActive := false;
      }
    }

    /** `handleDrop`: the highlight is cleared and any dropped files are
        appended after the pending ones. */
    method HandleDrop(dropped: seq<Storage.File>)
      modifies this
      ensures !dragActive
      ensures files == old(files) + dropped
      ensures isSubmitting == old(isSubmitting) && message == old(message)
      ensures longDescription == old(longDescription)
    {
      dragActive := false;
      if |dropped| > 0 {
        files := files + dropped;
      }
    }

    /** `handleChange`: files chosen in the picker are appended. */
    method HandleChange(chosen: seq<Storage.File>)
      modifies this
      ensures files == old(files) + chosen
      ensures isSubmitting == old(isSubmitting) && message == old(message)
      ensures dragActive == old(dragActive) && longDescription == old(longDescription)
    {
      if |chosen| > 0 {
        files := files + chosen;
      }
    }

    /** `removeFile(index)`. */
    method RemoveFile(index: int)
      modifies this
      ensures 0 <= index < |old(files)| ==> files == old(files)[..index] + old(files)[index + 1..]
      ensures !(0 <= index < |old(files)|) ==> files == old(files)
      ensures isSubmitting == old(isSubmitting) && message == old(message)
      ensures dragActive == old(dragActive) && longDescription == old(longDescription)
    {
      WithoutIndex(files, index);
      files := Without(files, index);
    }

    /** The editor's `onChange`: `setLongDescription(val || '')`. */
    method SetLongDescription(value: Option<string>)
      modifies this
      ensures longDescription == if value.Some? then value.value else ""
      ensures isSubmitting == old(isSubmitting) && message == old(message)
      ensures files == old(files) && dragActive == old(dragActive)
    {
      longDescription := if value.Some? then value.value else "";
    }

    /** `onSubmit(formData)`: refuse to send without screenshots; otherwise
        append every file under `images`, set `longDescription`, send, show
        the reply, and on success clear the files and the description.
        `sent` is the form handed to `createSubmission`, if any.
        `callRejected` says that the call to the server action itself
        rejected (the transport failed): the awaited promise throws, nothing
        after the `await` runs, and the form stays marked as submitting with
        no message. */
    method OnSubmit(form: FormData, outcome: Outcome<Option<string>>, callRejected: bool)
      returns (sent: Option<FormData>)
      modifies this
      ensures dragActive == old(dragActive)
      ensures old(files) == [] ==>
                && sent == None && !isSubmitting
                && message == Some(Message(ErrorMessage, NoScreenshots))
                && files == old(files) && longDescription == old(longDescription)
      ensures old(files) != [] ==> sent == Some(Outgoing(form, old(files), old(longDescription)))
      ensures old(files) != [] && callRejected ==>
                && isSubmitting && message == None
                && files == old(files) && longDescription == old(longDescription)
      ensures old(files) != [] && !callRejected ==>
                && !isSubmitting
                && var reply := CreateSubmission(sent.value, outcome).result;
                && message == Some(Message(if reply.success then SuccessMessage else ErrorMessage, reply.message))
                && (reply.success ==> files == [] && longDescription == "")
                && (!reply.success ==> files == old(files) && longDescription == old(longDescription))
    {
      isSubmitting := true;
      message := None;
      if |files| == 0 {
        isSubmitting := false;
        message := Some(Message(ErrorMessage, NoScreenshots));
        return None;
      }
      var formData := AppendFiles(form, files);
      formData := Set(formData, "longDescription", Text(longDescription));
      sent := Some(formData);
      if callRejected {
        return;
      }
      var reply := CreateSubmission(formData, outcome).result;
      ShowResult(reply.success, reply.message);
    }

    /** What `onSubmit` does with the awaited result: show its message, clear
        the files and the description on success, and end submitting. */
    method ShowResult(success: bool, text: string)
      modifies this
      ensures message == Some(Message(if success then SuccessMessage else ErrorMessage, text))
      ensures success ==> files == [] && longDescription == ""
      ensures !success ==> files == old(files) && longDescription == old(longDescription)
      ensures !isSubmitting && dragActive == old(dragActive)
    {
      if success {
        message := Some(Message(SuccessMessage, text));
        files := [];
        longDescription := "";
      } else {
        message := Some(Message(ErrorMessage, text));
      }
      isSubmitting := false;
    }
  }

  /** `files.forEach(file => formData.append("images", file))`. */
  method AppendFiles(form: FormData, files: seq<Storage.File>) returns (formData: FormData)
    ensures formData == form + ImageEntries(files)
  {
    formData := form;
    var i := 0;
    while i < |files|
      invariant 0 <= i <= |files|
      invariant formData == form + ImageEntries(files[..i])
    {
      assert files[..i + 1][..i] == files[..i];
      formData := formData + [Pair("images", Blob(files[i]))];
      i := i + 1;
    }
    assert files[..|files|] == files;
  }

  /** A successful submission sends the pending files, in order, as the
      images of the record, and the state's long description. */
  lemma SubmittedFilesForwarded(form: FormData, files: seq<Storage.File>, longDescription: string,
                                outcome: Outcome<Option<string>>)
    requires Images(form) == []
    requires CreateSubmission(Outgoing(form, files, longDescription), outcome).forwarded.Some?
    ensures var call := CreateSubmission(Outgoing(form, files, longDescription), outcome).forwarded.value;
            call.images == files && call.data.longDescription == longDescription
  {
    OutgoingCarriesState(form, files, longDescription);
  }
}
