/** The sitemap (app/sitemap.ts): the home page, the submit page, then one
    entry per approved project in the order they are listed. The site's base
    URL and the approved projects are parameters. */
module Sitemaps {
  import opened Submissions
  import ProjectCards

  datatype ChangeFrequency = Daily | Weekly | Monthly

  /** `new Date()` at generation time, or `new Date(project.createdAt)`. */
  datatype LastModified = GeneratedAt | CreatedAt(at: string)

  /** A sitemap entry; the priority is in tenths (1 is 10, 0.8 is 8). */
  datatype SitemapEntry = SitemapEntry(url: string, lastModified: LastModified,
                                       changeFrequency: ChangeFrequency, priorityTenths: nat)

  /** The weekly entry for one project. */
  function ProjectEntry(baseUrl: string, project: Submission): SitemapEntry
  {
    SitemapEntry(baseUrl + ProjectCards.Href(project.slug), CreatedAt(project.createdAt), Weekly, 8)
  }

  /** A project's sitemap entry is the page its card links to, under the
      base URL. */
  lemma EntryMatchesCard(baseUrl: string, project: Submission)
    ensures ProjectEntry(baseUrl, project).url == baseUrl + ProjectCards.CardOf(project).href
  {
  }

  /** `projects.map(...)`. */
  function ProjectEntries(baseUrl: string, projects: seq<Submission>): (r: seq<SitemapEntry>)
    ensures |r| == |projects|
  {
    if projects == [] then []
    else
      var n := |projects| - 1;
      ProjectEntries(baseUrl, projects[..n]) + [ProjectEntry(baseUrl, projects[n])]
  }

  lemma {:induction false} ProjectEntriesAt(baseUrl: string, projects: seq<Submission>)
    ensures forall i :: 0 <= i < |projects| ==> ProjectEntries(baseUrl, projects)[i] == ProjectEntry(baseUrl, projects[i])
    decreases |projects|
  {
    if projects != [] {
      var n := |projects| - 1;
      ProjectEntriesAt(baseUrl, projects[..n]);
    }
  }

  /** `sitemap()`. */
  function Sitemap(baseUrl: string, projects: seq<Submission>): (r: seq<SitemapEntry>)
    ensures |r| == 2 + |projects|
    ensures r[0].url == baseUrl && r[1].url == baseUrl + "/submit"
  {
    [SitemapEntry(baseUrl, GeneratedAt, Daily, 10),
     SitemapEntry(baseUrl + "/submit", GeneratedAt, Monthly, 5)]
    + ProjectEntries(baseUrl, projects)
  }

  /** The home and submit entries come first, then one weekly entry per
      project, in order, pointing at the page its card links to. */
  lemma SitemapShape(baseUrl: string, projects: seq<Submission>)
    ensures var s := Sitemap(baseUrl, projects);
            && |s| == 2 + |projects|
            && s[0].url == baseUrl && s[0].changeFrequency == Daily
            && s[1].url == baseUrl + "/submit" && s[1].changeFrequency == Monthly
            && forall i :: 0 <= i < |projects| ==>
                 && s[2 + i].url == baseUrl + ProjectCards.Href(projects[i].slug)
                 && s[2 + i].changeFrequency == Weekly
                 && s[2 + i].lastModified == CreatedAt(projects[i].createdAt)
  {
    var s := Sitemap(baseUrl, projects);
    var tail := ProjectEntries(baseUrl, projects);
    ProjectEntriesAt(baseUrl, projects);
    forall i | 0 <= i < |projects|
      ensures s[2 + i] == ProjectEntry(baseUrl, projects[i])
    {
      assert s[2 + i] == tail[i];
    }
  }
}
