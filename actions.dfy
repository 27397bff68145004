/** The `createSubmission` server action (app/actions.ts): it reads the
    submitted form, rejects a missing title, builds the `SubmissionFormData`
    with empty optional links turned into `undefined`, forwards it with the
    images to `submitProject`, and turns the outcome into a result object.
    `submitProject`'s outcome is a parameter: `Pass`, or `Fail` carrying the
    thrown error's `message` (`None` when it has none). */
module Actions {
  import opened Wrappers
  import opened Keyed
  import opened Submissions
  import opened Strings
  import Storage

  /** A `FormData` value: a string or an uploaded file. */
  datatype FormValue = Text(text: string) | Blob(file: Storage.File)

  type FormData = seq<Pair<FormValue>>

  /** `formData.get(name) as string`; `None` is `null`. */
  function TextField(form: FormData, name: string): Option<string>
  {
    var v: Option<FormValue> := Get(form, name);
    if v.Some? && v.value.Text? then Some(v.value.text) else None
  }

  /** A required field: copied as is, a missing one written as "". */
  function RequiredField(form: FormData, name: string): (r: string)
    ensures Get(form, name).Some? && Get(form, name).value.Text? ==> r == Get(form, name).value.text
    ensures !(Get(form, name).Some? && Get(form, name).value.Text?) ==> r == ""
  {
    match TextField(form, name)
    case Some(s) => s
    case None => ""
  }

  /** `formData.get(name) as string || undefined`. */
  function OptionalField(form: FormData, name: string): (r: Option<string>)
    ensures r.Some? ==> r.value != "" && Get(form, name) == Some(Text(r.value))
    ensures r.None? ==> !(Get(form, name).Some? && Get(form, name).value.Text? && Get(form, name).value.text != "")
  {
    match TextField(form, name)
    case Some(s) => if s == "" then None else Some(s)
    case None => None
  }

  /** An optional link is dropped exactly when it is missing or empty, and
      is otherwise the submitted text. */
  lemma OptionalFieldIff(form: FormData, name: string)
    ensures OptionalField(form, name).None? <==> (TextField(form, name).None? || TextField(form, name) == Some(""))
    ensures OptionalField(form, name).Some? ==> TextField(form, name) == OptionalField(form, name)
  {
  }

  /** The uploaded files among a list of form values, in order. */
  function Files(vs: seq<FormValue>): seq<Storage.File>
  {
    if vs == [] then []
    else
      var n := |vs| - 1;
      Files(vs[..n]) + (if vs[n].Blob? then [vs[n].file] else [])
  }

  lemma {:induction false} FilesAppend(a: seq<FormValue>, b: seq<FormValue>)
    ensures Files(a + b) == Files(a) + Files(b)
    decreases |b|
  {
    if b == [] {
      assert a + b == a;
    } else {
      var n := |b| - 1;
      assert (a + b)[..|a + b| - 1] == a + b[..n];
      FilesAppend(a, b[..n]);
    }
  }

  /** `formData.getAll('images') as File[]`. */
  function Images(form: FormData): seq<Storage.File>
  {
    Files(GetAll(form, "images"))
  }

  /** The images go out in form order: the files under `images` in each part
      of the form, one after the other, and nothing from other fields. */
  lemma ImagesInFormOrder(a: FormData, b: FormData)
    ensures Images(a + b) == Images(a) + Images(b)
  {
    GetAllAppend(a, b, "images");
    FilesAppend(GetAll(a, "images"), GetAll(b, "images"));
  }

  lemma ImagesOfOne(name: string, v: FormValue)
    ensures Images([Pair(name, v)]) == if name == "images" && v.Blob? then [v.file] else []
  {
    assert [Pair(name, v)][..0] == [];
    assert GetAll([Pair(name, v)], "images") == if name == "images" then [v] else [];
    assert [v][..0] == [];
    assert Files([v]) == if v.Blob? then [v.file] else [];
  }

  /** The `data` object built from the form. */
  function FormDataOf(form: FormData): (d: SubmissionFormData)
    ensures Get(form, "title") == Some(Text(d.title)) || (d.title == "" && !(Get(form, "title").Some? && Get(form, "title").value.Text?))
    ensures d.authorLinkedin.Some? ==> d.authorLinkedin.value != ""
    ensures d.website.Some? ==> d.website.value != ""
    ensures d.github.Some? ==> d.github.value != ""
    ensures d.youtube.Some? ==> d.youtube.value != ""
  {
    SubmissionFormData(
      RequiredField(form, "title"),
      RequiredField(form, "subtitle"),
      RequiredField(form, "shortDescription"),
      RequiredField(form, "longDescription"),
      RequiredField(form, "authorName"),
      RequiredField(form, "authorEmail"),
      OptionalField(form, "authorLinkedin"),
      OptionalField(form, "website"),
      OptionalField(form, "github"),
      OptionalField(form, "youtube"))
  }

  /** The object the action returns. */
  datatype ActionResult = ActionResult(success: bool, message: string)

  /** The call made to `submitProject`. */
  datatype Forwarded = Forwarded(data: SubmissionFormData, images: seq<Storage.File>)

  /** What the action returns, and the call it made to `submitProject`, if any. */
  datatype Handled = Handled(result: ActionResult, forwarded: Option<Forwarded>)

  const TitleRequired := "Title is required"
  const Submitted := "Project submitted successfully!"
  const FailurePrefix := "Failed to submit project: "
  const UnknownError := "Unknown error"

  /** `Failed to submit project: ${error.message || "Unknown error"}`. */
  function FailureMessage(error: Option<string>): (m: string)
    ensures StartsWith(m, FailurePrefix) && |m| > |FailurePrefix|
  {
    var detail := if error.Some? && error.value != "" then error.value else UnknownError;
    AppendSplit(FailurePrefix, detail);
    FailurePrefix + detail
  }

  /** A failure message names the error when it has a message, and says
      "Unknown error" otherwise. */
  lemma FailureMessageNamesError(error: Option<string>)
    ensures StartsWith(FailureMessage(error), FailurePrefix)
    ensures FailureMessage(error)[|FailurePrefix|..]
            == if error.Some? && error.value != "" then error.value else UnknownError
  {
  }

  /** `createSubmission(formData)`. */
  function CreateSubmission(form: FormData, outcome: Outcome<Option<string>>): (h: Handled)
    ensures h.forwarded.None? <==> (TextField(form, "title").None? || TextField(form, "title") == Some(""))
    ensures h.forwarded.None? ==> h.result == ActionResult(false, TitleRequired)
    ensures h.forwarded.Some? ==> h.forwarded.value == Forwarded(FormDataOf(form), Images(form))
    ensures h.result.success <==> (h.forwarded.Some? && outcome.Pass?)
    ensures h.result.success ==> h.result.message == Submitted
    ensures h.forwarded.Some? && outcome.Fail? ==> h.result.message == FailureMessage(outcome.error)
  {
    var title := RequiredField(form, "title");
    if title == "" then Handled(ActionResult(false, TitleRequired), None)
    else
      var call := Forwarded(FormDataOf(form), Images(form));
      match outcome
      case Pass => Handled(ActionResult(true, Submitted), Some(call))
      case Fail(error) => Handled(ActionResult(false, FailureMessage(error)), Some(call))
  }

  /** A forwarded record carries the submitted title, which is never empty. */
  lemma ForwardedTitle(form: FormData, outcome: Outcome<Option<string>>)
    requires CreateSubmission(form, outcome).forwarded.Some?
    ensures var data := CreateSubmission(form, outcome).forwarded.value.data;
            TextField(form, "title") == Some(data.title) && data.title != ""
  {
  }
}
