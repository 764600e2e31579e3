/** The four handlers of the route `/api/issues/:project` (routes/api.js):
    each validates the request, calls the record store and shapes the reply. */
module Api {
  import opened Schema
  import opened Store

  const REQUIRED_MISSING := "required field(s) missing"
  const MISSING_ID := "missing _id"
  const COULD_NOT_UPDATE := "could not update"
  const UPDATED := "successfully updated"
  const COULD_NOT_DELETE := "could not delete"
  const DELETED := "successfully deleted"

  /** The JSON body a handler replies with */
  datatype Reply =
    | IssueList(issues: seq<Issue>)            // an array of issues
    | IssueBody(issue: Issue)                  // one issue object
    | Error(error: string)                     // { error }
    | ErrorFor(error: string, id: string)      // { error, _id }
    | ResultFor(result: string, id: string)    // { result, _id }

  /** The `open` of an update body: a JSON body may carry a boolean, a form carries text */
  datatype OpenValue = OpenText(text: string) | OpenFlag(flag: bool)

  /** The fields the create handler reads from its body */
  datatype CreateBody = CreateBody(
    issueTitle: Option<string>,
    issueText: Option<string>,
    createdBy: Option<string>,
    assignedTo: Option<string>,
    statusText: Option<string>)

  /** The fields the update handler reads from its body */
  datatype UpdateBody = UpdateBody(
    id: Option<string>,
    issueTitle: Option<string>,
    issueText: Option<string>,
    createdBy: Option<string>,
    assignedTo: Option<string>,
    statusText: Option<string>,
    open: Option<OpenValue>)

  /** The field the delete handler reads from its body */
  datatype DeleteBody = DeleteBody(id: Option<string>)

  /** The parsed query string of a list request */
  type Query = map<string, string>

  /** JavaScript truthiness of a text field: present and not empty */
  predicate Truthy(field: Option<string>)
    ensures Truthy(field) <==> field != None && field != Some("")
  {
    field.Some? && field.value != ""
  }

  /** A destructuring default: an absent field reads as the empty string */
  function OrEmpty(field: Option<string>): (r: string)
    ensures Truthy(field) ==> r == field.value
    ensures !Truthy(field) ==> r == ""
  {
    if field.Some? then field.value else ""
  }

  /** Some required field of a new issue is absent or empty */
  predicate MissingRequired(body: CreateBody)
    ensures !MissingRequired(body) ==>
      body.issueTitle.Some? && body.issueText.Some? && body.createdBy.Some?
      && body.issueTitle.value != "" && body.issueText.value != "" && body.createdBy.value != ""
    ensures None in {body.issueTitle, body.issueText, body.createdBy} ==> MissingRequired(body)
    ensures Some("") in {body.issueTitle, body.issueText, body.createdBy} ==> MissingRequired(body)
  {
    !Truthy(body.issueTitle) || !Truthy(body.issueText) || !Truthy(body.createdBy)
  }

  /** The store filter of a list request: the path project, then every query
      entry spread over it; a non-empty `open` is compared as the boolean
      `open === 'true'` */
  function Conditions(project: string, query: Query): (c: map<string, Value>)
    ensures c.Keys == query.Keys + {"project"}
    ensures c["project"] == Text(if "project" in query then query["project"] else project)
    ensures "open" in query && query["open"] != "" ==> c["open"] == Flag(query["open"] == "true")
    ensures forall key | key in query && (key != "open" || query[key] == "") :: c[key] == Text(query[key])
  {
    map key | key in query.Keys + {"project"} ::
      if key !in query then Text(project)
      else if key == "open" && query[key] != "" then Flag(query[key] == "true")
      else Text(query[key])
  }

  /** GET: every stored issue that matches `Conditions(project, query)` (the
      query's `project` when it has one, else the path project, and every
      other query entry), in the order the model keeps; the store is not touched */
  method List(store: IssueStore, project: string, query: Query) returns (reply: Reply)
    requires store.Valid()
    ensures reply == IssueList(store.Find(Conditions(project, query)))
    ensures forall x :: x in reply.issues <==> x in store.issues.Values && Matches(x, Conditions(project, query))
  {
    var filters := map key | key in query :: Text(query[key]);
    if "open" in query && query["open"] != "" {
      filters := filters["open" := Flag(query["open"] == "true")];
    }
    var conditions := map["project" := Text(project)] + filters;
    assert conditions == Conditions(project, query) by {
      var spec := Conditions(project, query);
      assert conditions.Keys == spec.Keys;
      forall key | key in conditions ensures conditions[key] == spec[key] {
      }
    }
    reply := IssueList(store.Find(conditions));
  }

  /** POST: a new issue from the body, or an error when a required field is
      absent or empty; `project` is the path segment, which routing never
      leaves empty */
  method Post(store: IssueStore, project: string, body: CreateBody) returns (reply: Reply)
    requires store.Valid() && project != ""
    modifies store
    ensures store.Valid() && store.clock == old(store.clock)
    ensures MissingRequired(body) ==>
      && reply == Error(REQUIRED_MISSING)
      && store.issues == old(store.issues) && store.order == old(store.order)
      && store.nextId == old(store.nextId)
    ensures !MissingRequired(body) ==>
      && reply.IssueBody?
      && reply.issue.id == HexId(old(store.nextId)) && reply.issue.id !in old(store.issues)
      && store.nextId == old(store.nextId) + 1
      && reply.issue.project == project
      && reply.issue.issueTitle == body.issueTitle.value
      && reply.issue.issueText == body.issueText.value
      && reply.issue.createdBy == body.createdBy.value
      && reply.issue.assignedTo == OrEmpty(body.assignedTo)
      && reply.issue.statusText == OrEmpty(body.statusText)
      && reply.issue.open
      && reply.issue.createdOn == reply.issue.updatedOn == old(store.clock)
      && store.issues == old(store.issues)[reply.issue.id := reply.issue]
      && store.order == old(store.order) + [reply.issue.id]
  {
    if MissingRequired(body) {
      return Error(REQUIRED_MISSING);
    }
    var issue := store.Insert(project, body.issueTitle.value, body.issueText.value, body.createdBy.value,
                              OrEmpty(body.assignedTo), OrEmpty(body.statusText));
    reply := IssueBody(issue);
  }

  /** A text field of an update body, kept only when truthy */
  function IfTruthy(field: Option<string>): (r: Option<string>)
    ensures r.Some? <==> Truthy(field)
    ensures r.Some? ==> r == field
  {
    if Truthy(field) then field else None
  }

  /** The update document of a PUT body: each text field only when truthy,
      `open` whenever it is sent, as `open === 'true'`, and always the time */
  function PatchOf(body: UpdateBody, now: Time): (p: Patch)
    ensures p.issueTitle.Some? <==> Truthy(body.issueTitle)
    ensures p.issueText.Some? <==> Truthy(body.issueText)
    ensures p.createdBy.Some? <==> Truthy(body.createdBy)
    ensures p.assignedTo.Some? <==> Truthy(body.assignedTo)
    ensures p.statusText.Some? <==> Truthy(body.statusText)
    ensures p.issueTitle.Some? ==> p.issueTitle == body.issueTitle
    ensures p.issueText.Some? ==> p.issueText == body.issueText
    ensures p.createdBy.Some? ==> p.createdBy == body.createdBy
    ensures p.assignedTo.Some? ==> p.assignedTo == body.assignedTo
    ensures p.statusText.Some? ==> p.statusText == body.statusText
    ensures p.open.Some? <==> body.open.Some?
    ensures p.open == Some(true) <==> body.open == Some(OpenText("true"))
    ensures p.updatedOn == now
  {
    Patch(IfTruthy(body.issueTitle), IfTruthy(body.issueText), IfTruthy(body.createdBy),
          IfTruthy(body.assignedTo), IfTruthy(body.statusText),
          if body.open.Some? then Some(body.open.value == OpenText("true")) else None,
          now)
  }

  /** The update document, built field by field as the handler does */
  method BuildPatch(body: UpdateBody, now: Time) returns (patch: Patch)
    ensures patch == PatchOf(body, now)
  {
    patch := Patch(None, None, None, None, None, None, 0);
    if Truthy(body.issueTitle) { patch := patch.(issueTitle := body.issueTitle); }
    if Truthy(body.issueText) { patch := patch.(issueText := body.issueText); }
    if Truthy(body.createdBy) { patch := patch.(createdBy := body.createdBy); }
    if Truthy(body.assignedTo) { patch := patch.(assignedTo := body.assignedTo); }
    if Truthy(body.statusText) { patch := patch.(statusText := body.statusText); }
    if body.open.Some? { patch := patch.(open := Some(body.open.value == OpenText("true"))); }
    patch := patch.(updatedOn := now);
  }

  /** PUT: the issue with the body's `_id`, in whatever project, gets the
      body's patch; `project` is read by no line of the handler */
  method Put(store: IssueStore, project: string, body: UpdateBody) returns (reply: Reply)
    requires store.Valid()
    modifies store
    ensures store.Valid()
    ensures store.order == old(store.order) && store.nextId == old(store.nextId) && store.clock == old(store.clock)
    ensures !Truthy(body.id) ==> reply == Error(MISSING_ID) && store.issues == old(store.issues)
    ensures Truthy(body.id) && body.id.value !in old(store.issues) ==>
      reply == ErrorFor(COULD_NOT_UPDATE, body.id.value) && store.issues == old(store.issues)
    ensures Truthy(body.id) && body.id.value in old(store.issues) ==>
      && reply == ResultFor(UPDATED, body.id.value)
      && store.issues == old(store.issues)[body.id.value :=
           Apply(old(store.issues)[body.id.value], PatchOf(body, old(store.clock)))]
  {
    if !Truthy(body.id) {
      return Error(MISSING_ID);
    }
    var id := body.id.value;
    var patch := BuildPatch(body, store.clock);
    var found := store.FindByIdAndUpdate(id, patch);
    if found.None? {
      reply := ErrorFor(COULD_NOT_UPDATE, id);
    } else {
      reply := ResultFor(UPDATED, id);
    }
  }

  /** DELETE: the issue with the body's `_id`, in whatever project, is
      removed; the not-found reply carries `result`, not `error` */
  method Delete(store: IssueStore, project: string, body: DeleteBody) returns (reply: Reply)
    requires store.Valid()
    modifies store
    ensures store.Valid()
    ensures store.nextId == old(store.nextId) && store.clock == old(store.clock)
    ensures !Truthy(body.id) ==>
      reply == Error(MISSING_ID) && store.issues == old(store.issues) && store.order == old(store.order)
    ensures Truthy(body.id) && body.id.value !in old(store.issues) ==>
      reply == ResultFor(COULD_NOT_DELETE, body.id.value)
      && store.issues == old(store.issues) && store.order == old(store.order)
    ensures Truthy(body.id) && body.id.value in old(store.issues) ==>
      && reply == ResultFor(DELETED, body.id.value)
      && store.issues == old(store.issues) - {body.id.value}
      && store.order == Without(old(store.order), body.id.value)
  {
    if !Truthy(body.id) {
      return Error(MISSING_ID);
    }
    var id := body.id.value;
    var found := store.FindByIdAndDelete(id);
    if found.None? {
      reply := ResultFor(COULD_NOT_DELETE, id);
    } else {
      reply := ResultFor(DELETED, id);
    }
  }

  /** A list request without a query string lists exactly the issues of the path project */
  lemma EmptyQueryListsProject(project: string, issue: Issue)
    ensures Matches(issue, Conditions(project, map[])) <==> issue.project == project
  {
  }

  /** A query `open=true` lists exactly the open issues of the project */
  lemma OpenTrueListsOpen(project: string, issue: Issue)
    ensures Matches(issue, Conditions(project, map["open" := "true"])) <==> issue.project == project && issue.open
  {
  }

  /** Any other non-empty `open` text, `false` included, lists exactly the closed issues */
  lemma OpenOtherListsClosed(project: string, text: string, issue: Issue)
    requires text != "" && text != "true"
    ensures Matches(issue, Conditions(project, map["open" := text])) <==> issue.project == project && !issue.open
  {
  }

  /** Two filters together: `open=true&assigned_to=a` lists exactly the open
      issues of the project assigned to `a` */
  lemma OpenAndAssigneeFilter(project: string, assignee: string, issue: Issue)
    ensures Matches(issue, Conditions(project, map["open" := "true", "assigned_to" := assignee]))
        <==> issue.project == project && issue.open && issue.assignedTo == assignee
  {
    var c := Conditions(project, map["open" := "true", "assigned_to" := assignee]);
    assert c.Keys == {"open", "assigned_to", "project"};
    assert c["assigned_to"] == Text(assignee);
  }

  /** A `project` query entry overrides the project of the path */
  lemma ProjectQueryOverridesPath(project: string, other: string, issue: Issue)
    ensures Matches(issue, Conditions(project, map["project" := other])) <==> issue.project == other
  {
  }

  /** An update body with nothing but `_id` still refreshes `updated_on`, and only that */
  lemma OnlyIdRefreshesTimestamp(issue: Issue, body: UpdateBody, now: Time)
    requires !Truthy(body.issueTitle) && !Truthy(body.issueText) && !Truthy(body.createdBy)
    requires !Truthy(body.assignedTo) && !Truthy(body.statusText) && body.open.None?
    ensures Apply(issue, PatchOf(body, now)) == issue.(updatedOn := now)
  {
  }

  /** Updating only `status_text` changes it and `updated_on`, nothing else */
  lemma StatusOnlyUpdate(issue: Issue, id: string, status: string, now: Time)
    requires status != ""
    ensures Apply(issue, PatchOf(UpdateBody(Some(id), None, None, None, None, Some(status), None), now))
         == issue.(statusText := status, updatedOn := now)
  {
  }

  /** The boolean `true` sent as `open` is not the text 'true', so it closes the issue */
  lemma TrueFlagCloses(issue: Issue, body: UpdateBody, now: Time)
    requires body.open == Some(OpenFlag(true))
    ensures !Apply(issue, PatchOf(body, now)).open
  {
  }

  /** Create, list, update, delete twice and list again, on a fresh store */
  method Walkthrough() returns (created: Reply, listed: Reply, updated: Reply,
                                deleted: Reply, again: Reply, after: Reply)
    ensures created.IssueBody?
    ensures created.issue.open && created.issue.assignedTo == "" && created.issue.statusText == ""
    ensures listed == IssueList([created.issue])
    ensures updated == ResultFor(UPDATED, created.issue.id)
    ensures deleted == ResultFor(DELETED, created.issue.id)
    ensures again == ResultFor(COULD_NOT_DELETE, created.issue.id)
    ensures after == IssueList([])
  {
    var store := new IssueStore();
    created := Post(store, "p", CreateBody(Some("T"), Some("X"), Some("A"), None, None));
    var issue := created.issue;
    listed := List(store, "p", map[]);
    assert issue in listed.issues;
    updated := Put(store, "p", UpdateBody(Some(issue.id), None, None, None, None, Some("R"), None));
    assert store.issues.Keys == {issue.id};
    deleted := Delete(store, "p", DeleteBody(Some(issue.id)));
    assert store.issues.Keys == {};
    again := Delete(store, "p", DeleteBody(Some(issue.id)));
    after := List(store, "p", map[]);
  }

  /** Update and delete find an issue by `_id` through the path of another project */
  method CrossProjectWalkthrough() returns (updated: Reply, deleted: Reply, listed: Reply)
    ensures updated.ResultFor? && updated.result == UPDATED
    ensures deleted.ResultFor? && deleted.result == DELETED
    ensures listed == IssueList([])
  {
    var store := new IssueStore();
    var created := Post(store, "apitest", CreateBody(Some("T"), Some("X"), Some("A"), Some("B"), Some("S")));
    var id := created.issue.id;
    updated := Put(store, "elsewhere", UpdateBody(Some(id), Some("U"), None, None, None, None, Some(OpenText("false"))));
    deleted := Delete(store, "elsewhere", DeleteBody(Some(id)));
    assert store.issues.Keys == {};
    listed := List(store, "apitest", map[]);
  }
}
