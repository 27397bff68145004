/** The submission record persisted by the repository, and the part of it a
    submitter fills in (types/submission.ts). Optional links are `None` where
    the source leaves the property `undefined`. */
module Submissions {
  import opened Wrappers

  datatype Status = Pending | Approved

  datatype Submission = Submission(
    id: string,
    slug: string,
    title: string,
    subtitle: string,
    shortDescription: string,
    longDescription: string,
    authorName: string,
    authorEmail: string,
    authorLinkedin: Option<string>,
    website: Option<string>,
    github: Option<string>,
    youtube: Option<string>,
    imageUrls: seq<string>,
    createdAt: string,
    status: Status)

  /** `Submission` without `id`, `createdAt`, `status`, `imageUrls` and `slug`. */
  datatype SubmissionFormData = SubmissionFormData(
    title: string,
    subtitle: string,
    shortDescription: string,
    longDescription: string,
    authorName: string,
    authorEmail: string,
    authorLinkedin: Option<string>,
    website: Option<string>,
    github: Option<string>,
    youtube: Option<string>)

  /** The object literal `{ id, slug, ...formData, imageUrls, createdAt, status }`. */
  function Assemble(data: SubmissionFormData, id: string, slug: string, imageUrls: seq<string>,
                    createdAt: string, status: Status): Submission
  {
    Submission(id, slug, data.title, data.subtitle, data.shortDescription, data.longDescription,
               data.authorName, data.authorEmail, data.authorLinkedin, data.website, data.github,
               data.youtube, imageUrls, createdAt, status)
  }

  /** The submitter's part of a record: what `Assemble` spread into it. */
  function FormPart(s: Submission): SubmissionFormData
  {
    SubmissionFormData(s.title, s.subtitle, s.shortDescription, s.longDescription, s.authorName,
                       s.authorEmail, s.authorLinkedin, s.website, s.github, s.youtube)
  }
}
