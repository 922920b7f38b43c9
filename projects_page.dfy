/** The list rules of the admin projects page, `app/admin/projects/page.tsx`: the tracked-time
    text, the page clamp of the pager, the tag toggles of the project form and of the filter bar,
    the removal of a deleted project, and the name check before a project is saved. */
module ProjectsPage {
  import opened Wrappers
  import opened JsText
  import Seqs
  import TimeConverter
  import opened ProjectActions

  // ---------------------------------------------------------------- formatTime

  /** `formatTime`: `Math.floor(seconds / 3600)` hours and `Math.floor((seconds % 3600) / 60)`
      minutes, with JavaScript's truncating `%`. */
  function FormatTime(seconds: int): string
  {
    IntToString(seconds / 3600) + "h " + IntToString(JsRem(seconds, 3600) / 60) + "m"
  }

  /** The page's `formatTime` writes exactly what `formatToHrsMins` writes, so for a
      non-negative count the minutes are 0 to 59 and reading the text back gives the count
      rounded down to a whole minute. */
  lemma FormatTimeThenParse(n: nat)
    ensures FormatTime(n) == NatToString(n / 3600) + "h " + NatToString((n % 3600) / 60) + "m"
    ensures 0 <= (n % 3600) / 60 <= 59
    ensures TimeConverter.DurationSeconds(FormatTime(n)) == n - n % 60
  {
    assert FormatTime(n) == TimeConverter.FormatToHrsMins(n);
    TimeConverter.FormatToHrsMinsParts(n);
    TimeConverter.FormatThenParse(n);
  }

  // ---------------------------------------------------------------- goToPage

  /** The page `goToPage` settles on: below 1 it is 1, above the last page it is the last page,
      anything else is kept. With at least one page the result is a page that exists. */
  function ClampPage(page: int, totalPages: int): (p: int)
    ensures totalPages >= 1 ==> 1 <= p <= totalPages
    ensures 1 <= page <= totalPages ==> p == page
    ensures page < 1 ==> p == 1
    ensures 1 <= page && totalPages < page ==> p == totalPages
  {
    if page < 1 then 1 else if page > totalPages then totalPages else page
  }

  /** Clamping a clamped page changes nothing, once there is a page. */
  lemma ClampPageIdempotent(page: int, totalPages: int)
    requires totalPages >= 1
    ensures ClampPage(ClampPage(page, totalPages), totalPages) == ClampPage(page, totalPages)
  {
  }

  // ---------------------------------------------------------------- tag toggles

  /** `prev.includes(tag) ? prev.filter((t) => t !== tag) : [...prev, tag]`: a tag that is there
      is removed, every copy of it, the others keeping their order and their number of copies;
      a tag that is not there is added at the end. */
  function Toggle(list: seq<string>, tag: string): (r: seq<string>)
    ensures tag in list ==> tag !in r && Seqs.IsSubsequence(r, list)
    ensures tag in list ==> forall x :: x in r <==> x in list && x != tag
    ensures tag in list ==> forall x :: multiset(r)[x] == if x != tag then multiset(list)[x] else 0
    ensures tag !in list ==> r == list + [tag]
  {
    if tag in list then
      Seqs.FilterIsSubsequence((t: string) => t != tag, list);
      Seqs.FilterCounts((t: string) => t != tag, list);
      Seqs.Filter((t: string) => t != tag, list)
    else list + [tag]
  }

  /** Toggling a tag that is not there twice gives back the list exactly. */
  lemma {:induction false} ToggleTwiceAbsent(list: seq<string>, tag: string)
    requires tag !in list
    ensures Toggle(Toggle(list, tag), tag) == list
  {
    var p := (t: string) => t != tag;
    Seqs.FilterConcat(p, list, [tag]);
    Seqs.FilterKeepsAll(p, list);
    assert Seqs.Filter(p, [tag]) == [];
  }

  /** Toggling a tag that is there twice moves it, as one copy, to the end. */
  lemma ToggleTwicePresent(list: seq<string>, tag: string)
    requires tag in list
    ensures Toggle(Toggle(list, tag), tag) == Seqs.Filter((t: string) => t != tag, list) + [tag]
  {
  }

  // ---------------------------------------------------------------- delete and save

  /** `prev.filter((p) => p._id !== projectToDelete._id)`: the projects with that `_id` (a
      missing `_id` matches a missing `_id`) are gone, all others are kept in order, every copy
      of them. */
  function WithoutProject(ps: seq<Project>, id: Option<string>): (r: seq<Project>)
    ensures forall p :: p in r <==> p in ps && p.id != id
    ensures forall p :: multiset(r)[p] == if p.id != id then multiset(ps)[p] else 0
    ensures Seqs.IsSubsequence(r, ps)
  {
    Seqs.FilterIsSubsequence((p: Project) => p.id != id, ps);
    Seqs.FilterCounts((p: Project) => p.id != id, ps);
    Seqs.Filter((p: Project) => p.id != id, ps)
  }

  /** The name check of `handleSaveProject`: the form's name, trimmed; a missing or blank name
      is refused with `"Project name is required"` before any request. */
  function ValidateProjectName(field: Option<string>): (r: Result<string, string>)
    ensures r.Err? <==> field.None? || Trim(field.value) == ""
    ensures r.Err? ==> r.error == "Project name is required"
    ensures r.Ok? ==> r.value == Trim(field.value) && r.value != "" && IsTrimmed(r.value)
  {
    if field.None? then Err("Project name is required")
    else
      var formName := Trim(field.value);
      if formName == "" then Err("Project name is required") else Ok(formName)
  }

  // ---------------------------------------------------------------- fetchProjects

  /** The pager `fetchProjects` stores, as written: the `pagination` of the result, which
      `getProjects` sets to `null` when the call fails. */
  function StoredPaginationAsWritten(reply: Reply): (p: Option<Pagination>)
    ensures p.Some? <==> reply.Fetched?
  {
    ProjectsResultOf(reply).pagination
  }

  /** The failure path as written: after any failed fetch the page state that every render
      reads as `pagination.page` and `pagination.totalPages` holds `null`. */
  lemma FailedFetchStoresNull(serverMessage: Option<string>)
    ensures StoredPaginationAsWritten(Failed(serverMessage)) == None
  {
  }

  /** The pager after a fetch, as intended: the server's pager when the call succeeded, the
      current one when it failed, so there is always a pager to read. */
  function PaginationAfterFetch(current: Pagination, reply: Reply): (p: Pagination)
    ensures reply.Fetched? ==> p == reply.pagination
    ensures reply.Failed? ==> p == current
    ensures StoredPaginationAsWritten(reply).Some? ==> p == StoredPaginationAsWritten(reply).value
  {
    match ProjectsResultOf(reply).pagination
    case Some(fetched) => fetched
    case None => current
  }

  // ---------------------------------------------------------------- the page state

  /** The state the handlers replace: the project list, the pager, the form's tags, the filter
      tags and the delete dialog. */
  class Page {
    var projects: seq<Project>
    var pagination: Pagination
    var tags: seq<string>
    var filterTags: seq<string>
    var projectToDelete: Option<Project>
    var deleteDialogOpen: bool

    /** The state on first render. */
    constructor ()
      ensures projects == [] && pagination == Pagination(1, 1, 0, 10)
      ensures tags == [] && filterTags == [] && projectToDelete == None && !deleteDialogOpen
    {
      projects := [];
      pagination := Pagination(1, 1, 0, 10);
      tags, filterTags := [], [];
      projectToDelete := None;
      deleteDialogOpen := false;
    }

    /** The state updates of `fetchProjects` once the call has answered (the request itself is
        not modelled): the result's projects, and the pager from `PaginationAfterFetch`. */
    method FetchProjects(reply: Reply)
      modifies this`projects, this`pagination
      ensures projects == ProjectsResultOf(reply).projects
      ensures pagination == PaginationAfterFetch(old(pagination), reply)
    {
      var result := ProjectsResultOf(reply);
      projects := result.projects;
      if result.pagination.Some? {
        pagination := result.pagination.value;
      }
    }

    /** `goToPage`: the requested page, clamped to the pager, becomes the current page; the
        rest of the pager is kept. */
    method GoToPage(page: int)
      modifies this`pagination
      ensures pagination == old(pagination).(page := ClampPage(page, old(pagination).totalPages))
    {
      var p := page;
      if p < 1 {
        p := 1;
      } else if p > pagination.totalPages {
        p := pagination.totalPages;
      }
      pagination := pagination.(page := p);
    }

    /** `toggleTag`, on the tags of the project form. */
    method ToggleTag(tag: string)
      modifies this`tags
      ensures tags == Toggle(old(tags), tag)
    {
      tags := Toggle(tags, tag);
    }

    /** `toggleFilterTag`: the filter tags are toggled and the pager goes back to page 1. */
    method ToggleFilterTag(tag: string)
      modifies this`filterTags, this`pagination
      ensures filterTags == Toggle(old(filterTags), tag)
      ensures pagination == old(pagination).(page := 1)
    {
      filterTags := Toggle(filterTags, tag);
      pagination := pagination.(page := 1);
    }

    /** `confirmDeleteProject`: the project is remembered and the dialog opens. */
    method ConfirmDeleteProject(project: Project)
      modifies this`projectToDelete, this`deleteDialogOpen
      ensures projectToDelete == Some(project) && deleteDialogOpen
    {
      projectToDelete := Some(project);
      deleteDialogOpen := true;
    }

    /** `handleDeleteConfirmed` (the refetch after it is not modelled): with a project to delete,
        the projects with its `_id` are removed and it is forgotten; the dialog closes. */
    method HandleDeleteConfirmed()
      modifies this`projects, this`projectToDelete, this`deleteDialogOpen
      ensures old(projectToDelete).Some? ==> projects == WithoutProject(old(projects), old(projectToDelete).value.id)
      ensures old(projectToDelete).None? ==> projects == old(projects)
      ensures projectToDelete == None && !deleteDialogOpen
    {
      if projectToDelete.Some? {
        projects := WithoutProject(projects, projectToDelete.value.id);
        projectToDelete := None;
      }
      deleteDialogOpen := false;
    }
  }
}
