/** The issue record of the tracker (the Mongoose schema of routes/api.js),
    the values a stored field or a query condition can hold, and the text
    form of the ids the store hands out. */
module Schema {

  datatype Option<+T> = None | Some(value: T)

  /** The text of an issue's `_id` */
  type Id = string

  /** A reading of the abstract clock that stands for `Date.now` */
  type Time = nat

  /** A stored issue: its `_id` and the nine fields of the schema */
  datatype Issue = Issue(
    id: Id,
    project: string,
    issueTitle: string,
    issueText: string,
    createdBy: string,
    assignedTo: string,
    statusText: string,
    createdOn: Time,
    updatedOn: Time,
    open: bool)

  /** What a stored field holds; a query condition holds the same kind of value */
  datatype Value = Text(text: string) | Flag(flag: bool) | Stamp(time: Time)

  /** The keys under which an issue's fields appear in a reply and in a query */
  const FIELD_NAMES: set<string> := {
    "_id", "project", "issue_title", "issue_text", "created_by",
    "assigned_to", "status_text", "created_on", "updated_on", "open"}

  /** The value an issue holds under a query key; keys outside the schema hold nothing */
  function FieldValue(issue: Issue, key: string): (v: Option<Value>)
    ensures v.Some? <==> key in FIELD_NAMES
    ensures key == "open" ==> v == Some(Flag(issue.open))
    ensures key in {"created_on", "updated_on"} ==> v.Some? && v.value.Stamp?
    ensures key in FIELD_NAMES - {"open", "created_on", "updated_on"} ==> v.Some? && v.value.Text?
  {
    if key == "_id" then Some(Text(issue.id))
    else if key == "project" then Some(Text(issue.project))
    else if key == "issue_title" then Some(Text(issue.issueTitle))
    else if key == "issue_text" then Some(Text(issue.issueText))
    else if key == "created_by" then Some(Text(issue.createdBy))
    else if key == "assigned_to" then Some(Text(issue.assignedTo))
    else if key == "status_text" then Some(Text(issue.statusText))
    else if key == "created_on" then Some(Stamp(issue.createdOn))
    else if key == "updated_on" then Some(Stamp(issue.updatedOn))
    else if key == "open" then Some(Flag(issue.open))
    else None
  }

  /** The issue satisfies every condition by exact equality (a conjunctive Mongo filter) */
  predicate Matches(issue: Issue, conditions: map<string, Value>)
    ensures Matches(issue, conditions) ==> conditions.Keys <= FIELD_NAMES
  {
    forall key | key in conditions :: FieldValue(issue, key) == Some(conditions[key])
  }

  /** What every persisted issue satisfies: the four required strings are
      non-empty and it was not last updated before it was created */
  predicate WellFormed(issue: Issue)
  {
    && issue.project != ""
    && issue.issueTitle != ""
    && issue.issueText != ""
    && issue.createdBy != ""
    && issue.createdOn <= issue.updatedOn
  }

  /** A new document of the schema: both timestamps default to the current
      time and `open` to true (routes/api.js:17-19) */
  function NewIssue(id: Id, project: string, issueTitle: string, issueText: string,
                    createdBy: string, assignedTo: string, statusText: string, now: Time): (r: Issue)
    requires project != "" && issueTitle != "" && issueText != "" && createdBy != ""
    ensures WellFormed(r) && r.open && r.createdOn == r.updatedOn == now
  {
    Issue(id, project, issueTitle, issueText, createdBy, assignedTo, statusText, now, now, true)
  }

  /** One lower-case hexadecimal digit */
  function HexDigit(d: nat): char
    requires d < 16
  {
    if d < 10 then (48 + d) as char else (87 + d) as char
  }

  /** The id the store hands out for its n-th insertion, in hexadecimal like an ObjectId */
  function HexId(n: nat): (s: Id)
    ensures |s| >= 1
  {
    if n < 16 then [HexDigit(n)] else HexId(n / 16) + [HexDigit(n % 16)]
  }

  /** Distinct insertions get distinct ids */
  lemma {:induction false} HexIdInjective(a: nat, b: nat)
    requires HexId(a) == HexId(b)
    ensures a == b
  {
    var s := HexId(a);
    assert HexDigit(a % 16) == s[|s| - 1] == HexDigit(b % 16);
    if a < 16 && b < 16 {
    } else if a < 16 || b < 16 {
      // one id has a single digit, the other at least two
      assert false;
    } else {
      assert HexId(a / 16) == s[..|s| - 1] == HexId(b / 16);
      HexIdInjective(a / 16, b / 16);
    }
  }
}
