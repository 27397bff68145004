/** The project card of the listing (components/ProjectCard.tsx): its link
    target, its thumbnail with old image-host URLs rewritten, and the text it
    shows. */
module ProjectCards {
  import opened Strings
  import opened Submissions
  import Storage

  /** The retired image host a stored URL may still start with. */
  const LegacyImagesBase := "https://t3.storage.dev/built-with-bifrost-images"

  /** The host it is rewritten to. */
  const ImagesHost := "https://built-with-bifrost-images.fly.storage.tigris.dev"

  /** `/project/${slug}`. */
  function Href(slug: string): (r: string)
    ensures StartsWith(r, "/project/") && r[|"/project/"|..] == slug
  {
    "/project/" + slug
  }

  datatype Thumbnail = Image(src: string, alt: string) | NoImage

  /** `imageUrls[0].replace(<legacy host>, <tigris host>)`. */
  function ImageSource(url: string): (r: string)
    ensures StartsWith(url, LegacyImagesBase) ==> r == ImagesHost + url[|LegacyImagesBase|..]
    ensures (forall j :: 0 <= j <= |url| ==> !OccursAt(url, LegacyImagesBase, j)) ==> r == url
  {
    if StartsWith(url, LegacyImagesBase) then
      ReplaceFirstAtStart(url, LegacyImagesBase, ImagesHost);
      ReplaceFirst(url, LegacyImagesBase, ImagesHost)
    else
      ReplaceFirst(url, LegacyImagesBase, ImagesHost)
  }

  /** The image when there is one: the first URL, rewritten. */
  function ThumbnailOf(project: Submission): (t: Thumbnail)
    ensures t.Image? <==> |project.imageUrls| > 0
    ensures t.Image? ==> t.src == ImageSource(project.imageUrls[0]) && t.alt == project.title
  {
    if |project.imageUrls| > 0 then Image(ImageSource(project.imageUrls[0]), project.title) else NoImage
  }

  datatype Card = Card(href: string, thumbnail: Thumbnail, title: string, shortDescription: string, authorName: string)

  function CardOf(project: Submission): (c: Card)
    ensures c.href == "/project/" + project.slug
    ensures c.thumbnail.NoImage? <==> project.imageUrls == []
  {
    Card(Href(project.slug), ThumbnailOf(project), project.title, project.shortDescription, project.authorName)
  }

  /** The card links to the project page, shows only the first image and the
      record's title, description and author verbatim. */
  lemma CardShowsRecord(project: Submission)
    ensures var c := CardOf(project);
            && c.href == "/project/" + project.slug
            && c.title == project.title && c.shortDescription == project.shortDescription
            && c.authorName == project.authorName
            && (c.thumbnail.NoImage? <==> project.imageUrls == [])
            && (c.thumbnail.Image? ==> c.thumbnail.src == ImageSource(project.imageUrls[0]))
  {
  }

  /** A URL on the retired host is served from the current one: it becomes
      the URL `uploadImage` returns today for the same key. */
  lemma LegacyUrlRewritten(key: string)
    ensures ImageSource(LegacyImagesBase + "/" + key) == Storage.ImagesPublicBase + key
  {
    AppendAssoc(LegacyImagesBase, "/", key);
    ReplaceLeading(LegacyImagesBase, ImagesHost, "/" + key);
    AppendAssoc(ImagesHost, "/", key);
    HostsAgree();
  }

  /** The current host followed by `/` is the base of every uploaded image's URL. */
  lemma HostsAgree()
    ensures ImagesHost + "/" == Storage.ImagesPublicBase
  {
  }

  /** A URL not mentioning the retired host is used as is. */
  lemma OtherUrlUnchanged(url: string)
    requires forall j :: 0 <= j <= |url| ==> !OccursAt(url, LegacyImagesBase, j)
    ensures ImageSource(url) == url
  {
  }
}
