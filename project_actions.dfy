/** The request side of `actions/projectActions.ts`: the query parameters `getProjects` sends
    and the results the three project calls hand back. The HTTP call itself is outside the
    model: its outcome is passed in as a `Reply`. */
module ProjectActions {
  import opened Wrappers
  import opened JsText

  /** A project as the page holds it (`createdAt` is not modelled). */
  datatype Project = Project(id: Option<string>, name: string, description: Option<string>,
                             tags: seq<string>, amount: Option<int>, totalTrackedTime: int)

  datatype Pagination = Pagination(page: int, totalPages: int, totalItems: int, limit: int)

  /** The optional second argument of `getProjects`; every field may be missing. */
  datatype FetchOptions = FetchOptions(page: Option<int>, limit: Option<int>, search: Option<string>,
                                       tags: Option<seq<string>>)

  /** A query parameter: a number, or text. */
  datatype ParamValue = Number(n: int) | Text(s: string)

  /** What the server call came back with: the projects and their pagination, or a failure with
      the server's `message`, if it sent one. */
  datatype Reply = Fetched(projects: seq<Project>, pagination: Pagination) | Failed(serverMessage: Option<string>)

  /** The object `getProjects` returns. */
  datatype ProjectsResult = ProjectsResult(success: bool, message: Option<string>, projects: seq<Project>,
                                           pagination: Option<Pagination>)

  /** The object `createProjectApi` and `updateProjectApi` return. */
  datatype SaveResult = SaveResult(success: bool, message: Option<string>, project: Option<Project>)

  /** The server's answer to a create or update. */
  datatype SaveReply = Saved(project: Project) | NotSaved(serverMessage: Option<string>)

  /** The query parameters of `getProjects`, filled one optional field at a time: a page or a
      limit only when it is given and not 0, a search only when it is given and not empty, the
      tags only when there is at least one, as one comma-separated text. */
  method BuildParams(options: Option<FetchOptions>) returns (params: map<string, ParamValue>)
    ensures params.Keys <= {"page", "limit", "search", "tags"}
    ensures options.None? ==> params == map[]
    ensures "page" in params <==> options.Some? && options.value.page.Some? && options.value.page.value != 0
    ensures "page" in params ==> params["page"] == Number(options.value.page.value)
    ensures "limit" in params <==> options.Some? && options.value.limit.Some? && options.value.limit.value != 0
    ensures "limit" in params ==> params["limit"] == Number(options.value.limit.value)
    ensures "search" in params <==> options.Some? && options.value.search.Some? && options.value.search.value != ""
    ensures "search" in params ==> params["search"] == Text(options.value.search.value)
    ensures "tags" in params <==> options.Some? && options.value.tags.Some? && |options.value.tags.value| > 0
    ensures "tags" in params ==> params["tags"] == Text(Join(options.value.tags.value, ","))
  {
    params := map[];
    if options.None? {
      return;
    }
    var o := options.value;
    if o.page.Some? && o.page.value != 0 {
      params := params["page" := Number(o.page.value)];
    }
    if o.limit.Some? && o.limit.value != 0 {
      params := params["limit" := Number(o.limit.value)];
    }
    if o.search.Some? && o.search.value != "" {
      params := params["search" := Text(o.search.value)];
    }
    if o.tags.Some? && |o.tags.value| > 0 {
      params := params["tags" := Text(Join(o.tags.value, ","))];
    }
  }

  /** The `tags` parameter loses nothing: splitting it at the commas gives the tags back, as long
      as no tag holds a comma itself. */
  lemma TagsParamRoundTrip(tags: seq<string>)
    requires |tags| > 0
    requires forall i :: 0 <= i < |tags| ==> ',' !in tags[i]
    ensures Split(Join(tags, ","), ',') == tags
  {
    SplitJoin(tags, ',');
  }

  /** The result of `getProjects`: on success the projects and pagination from the reply; on
      failure no projects, no pagination (`null`), and the server's message, or
      `"Failed to fetch projects"` when it sent none. */
  function ProjectsResultOf(reply: Reply): (r: ProjectsResult)
    ensures r.success <==> reply.Fetched?
    ensures r.success ==> r.projects == reply.projects && r.pagination == Some(reply.pagination)
    ensures !r.success ==> r.projects == [] && r.pagination == None
    ensures !r.success ==> r.message == Some(OrElse(reply.serverMessage, "Failed to fetch projects"))
    ensures !r.success ==> r.message.value != ""
  {
    match reply
    case Fetched(projects, pagination) => ProjectsResult(true, None, projects, Some(pagination))
    case Failed(m) => ProjectsResult(false, Some(OrElse(m, "Failed to fetch projects")), [], None)
  }

  /** The result of `createProjectApi` (`update` is false) or `updateProjectApi` (`update` is
      true): the saved project, or the server's message with the call's own fallback text. */
  function SaveResultOf(reply: SaveReply, update: bool): (r: SaveResult)
    ensures r.success <==> reply.Saved?
    ensures r.success ==> r.project == Some(reply.project) && r.message == None
    ensures !r.success ==> r.project == None
    ensures !r.success ==> r.message == Some(OrElse(reply.serverMessage,
                                                   if update then "Failed to update project" else "Failed to create project"))
  {
    match reply
    case Saved(p) => SaveResult(true, None, Some(p))
    case NotSaved(m) =>
      SaveResult(false, Some(OrElse(m, if update then "Failed to update project" else "Failed to create project")), None)
  }
}
