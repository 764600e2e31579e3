/** The record store behind the handlers: the four plain operations the
    routes use of the Mongoose `Issue` model (insert a new document, find by a
    conjunction of equalities, update by id, delete by id), over one
    in-memory collection. */
module Store {
  import opened Schema

  /** No element occurs twice */
  predicate Distinct<T(==)>(s: seq<T>)
  {
    forall i, j | 0 <= i < j < |s| :: s[i] != s[j]
  }

  /** Every listed id has a stored issue */
  predicate Covers(ids: seq<Id>, issues: map<Id, Issue>)
  {
    forall i | 0 <= i < |ids| :: ids[i] in issues
  }

  /** The issues under `ids` that satisfy every condition, in the order of `ids` */
  function Select(ids: seq<Id>, issues: map<Id, Issue>, conditions: map<string, Value>): (r: seq<Issue>)
    requires Covers(ids, issues)
    ensures |r| <= |ids|
    ensures forall x :: x in r <==> Matches(x, conditions) && exists i | 0 <= i < |ids| :: issues[ids[i]] == x
  {
    if ids == [] then []
    else
      var rest := Select(ids[1..], issues, conditions);
      assert forall i | 0 <= i < |ids| - 1 :: ids[1..][i] == ids[i + 1];
      var x := issues[ids[0]];
      if Matches(x, conditions) then [x] + rest else rest
  }

  /** `ids` with `id` taken out */
  function Without(ids: seq<Id>, id: Id): (r: seq<Id>)
    ensures forall x :: x in r <==> x in ids && x != id
    ensures id !in ids ==> r == ids
    ensures Distinct(ids) ==> Distinct(r)
  {
    if ids == [] then []
    else
      var rest := Without(ids[1..], id);
      assert ids == [ids[0]] + ids[1..];
      if ids[0] == id then rest
      else
        assert Distinct(ids) ==> ids[0] !in ids[1..] && Distinct(ids[1..]);
        [ids[0]] + rest
  }

  /** An update document: the fields to `$set`; `updated_on` is always among them */
  datatype Patch = Patch(
    issueTitle: Option<string>,
    issueText: Option<string>,
    createdBy: Option<string>,
    assignedTo: Option<string>,
    statusText: Option<string>,
    open: Option<bool>,
    updatedOn: Time)

  /** A text field after an update: the patch's value when it sets one */
  function Override(current: string, update: Option<string>): (r: string)
    ensures update.None? ==> r == current
    ensures update.Some? ==> r == update.value
  {
    if update.Some? then update.value else current
  }

  /** The issue with the patch's fields set and every other field as it was */
  function Apply(issue: Issue, patch: Patch): (r: Issue)
    ensures r.id == issue.id && r.project == issue.project && r.createdOn == issue.createdOn
    ensures r.updatedOn == patch.updatedOn
    ensures patch.issueTitle.None? ==> r.issueTitle == issue.issueTitle
    ensures patch.issueText.None? ==> r.issueText == issue.issueText
    ensures patch.createdBy.None? ==> r.createdBy == issue.createdBy
    ensures patch.assignedTo.None? ==> r.assignedTo == issue.assignedTo
    ensures patch.statusText.None? ==> r.statusText == issue.statusText
    ensures patch.open.None? ==> r.open == issue.open
    ensures patch.issueTitle.Some? ==> r.issueTitle == patch.issueTitle.value
    ensures patch.issueText.Some? ==> r.issueText == patch.issueText.value
    ensures patch.createdBy.Some? ==> r.createdBy == patch.createdBy.value
    ensures patch.assignedTo.Some? ==> r.assignedTo == patch.assignedTo.value
    ensures patch.statusText.Some? ==> r.statusText == patch.statusText.value
    ensures patch.open.Some? ==> r.open == patch.open.value
  {
    issue.(
      issueTitle := Override(issue.issueTitle, patch.issueTitle),
      issueText := Override(issue.issueText, patch.issueText),
      createdBy := Override(issue.createdBy, patch.createdBy),
      assignedTo := Override(issue.assignedTo, patch.assignedTo),
      statusText := Override(issue.statusText, patch.statusText),
      open := if patch.open.Some? then patch.open.value else issue.open,
      updatedOn := patch.updatedOn)
  }

  /** A patch that keeps a persisted issue persistable: it sets no required
      field to the empty string and carries a time no earlier than the issue's */
  predicate Fits(patch: Patch, issue: Issue)
  {
    && (patch.issueTitle.Some? ==> patch.issueTitle.value != "")
    && (patch.issueText.Some? ==> patch.issueText.value != "")
    && (patch.createdBy.Some? ==> patch.createdBy.value != "")
    && issue.updatedOn <= patch.updatedOn
  }

  lemma ApplyKeepsWellFormed(issue: Issue, patch: Patch)
    requires WellFormed(issue) && Fits(patch, issue)
    ensures WellFormed(Apply(issue, patch))
  {
  }

  /** A stored collection only grows at the end: listing after an insertion
      is the earlier listing followed by the new issue when it matches */
  lemma {:induction false} SelectAppend(ids: seq<Id>, issues: map<Id, Issue>, id: Id, conditions: map<string, Value>)
    requires Covers(ids, issues) && id in issues
    ensures Covers(ids + [id], issues)
    ensures Select(ids + [id], issues, conditions)
         == Select(ids, issues, conditions) + (if Matches(issues[id], conditions) then [issues[id]] else [])
  {
    if ids == [] {
      assert [] + [id] == [id];
    } else {
      assert (ids + [id])[1..] == ids[1..] + [id];
      SelectAppend(ids[1..], issues, id, conditions);
    }
  }

  /** Over distinct ids, each issue appears in a listing at most once */
  lemma {:induction false} SelectDistinct(ids: seq<Id>, issues: map<Id, Issue>, conditions: map<string, Value>)
    requires Covers(ids, issues) && Distinct(ids)
    requires forall i | 0 <= i < |ids| :: issues[ids[i]].id == ids[i]
    ensures Distinct(Select(ids, issues, conditions))
  {
    if ids != [] {
      assert forall i | 0 <= i < |ids| - 1 :: ids[1..][i] == ids[i + 1];
      SelectDistinct(ids[1..], issues, conditions);
      var x := issues[ids[0]];
      var rest := Select(ids[1..], issues, conditions);
      assert x !in rest;
      assert Distinct([x] + rest) by {
        forall i, j | 0 <= i < j < |[x] + rest| ensures ([x] + rest)[i] != ([x] + rest)[j] {
          if i == 0 {
            assert ([x] + rest)[j] == rest[j - 1] && rest[j - 1] in rest;
          } else {
            assert ([x] + rest)[i] == rest[i - 1] && ([x] + rest)[j] == rest[j - 1];
          }
        }
      }
    }
  }

  /** A listing depends only on the issues under the listed ids */
  lemma {:induction false} SelectFrame(ids: seq<Id>, issues: map<Id, Issue>, others: map<Id, Issue>, conditions: map<string, Value>)
    requires Covers(ids, issues) && Covers(ids, others)
    requires forall i | 0 <= i < |ids| :: issues[ids[i]] == others[ids[i]]
    ensures Select(ids, issues, conditions) == Select(ids, others, conditions)
  {
    if ids != [] {
      SelectFrame(ids[1..], issues, others, conditions);
    }
  }

  /** Inserting an issue under a fresh id leaves every listing as it was,
      except that the new issue comes last when it matches */
  lemma InsertListedLast(ids: seq<Id>, issues: map<Id, Issue>, issue: Issue, conditions: map<string, Value>)
    requires Covers(ids, issues) && issue.id !in issues
    ensures Covers(ids + [issue.id], issues[issue.id := issue])
    ensures Select(ids + [issue.id], issues[issue.id := issue], conditions)
         == Select(ids, issues, conditions) + (if Matches(issue, conditions) then [issue] else [])
  {
    var grown := issues[issue.id := issue];
    SelectFrame(ids, issues, grown, conditions);
    SelectAppend(ids, grown, issue.id, conditions);
  }

  /** A listing with the issue under `id` taken out */
  function DropId(listing: seq<Issue>, id: Id): (r: seq<Issue>)
    ensures forall x :: x in r <==> x in listing && x.id != id
  {
    if listing == [] then []
    else
      var rest := DropId(listing[1..], id);
      assert listing == [listing[0]] + listing[1..];
      if listing[0].id == id then rest else [listing[0]] + rest
  }

  /** Deleting an id leaves every listing as it was, in the same order,
      except that the deleted issue is gone */
  lemma {:induction false} SelectWithout(ids: seq<Id>, issues: map<Id, Issue>, id: Id, conditions: map<string, Value>)
    requires Covers(ids, issues)
    requires forall i | 0 <= i < |ids| :: issues[ids[i]].id == ids[i]
    ensures Covers(Without(ids, id), issues - {id})
    ensures Select(Without(ids, id), issues - {id}, conditions) == DropId(Select(ids, issues, conditions), id)
  {
    var kept := Without(ids, id);
    assert Covers(kept, issues - {id}) by {
      forall i | 0 <= i < |kept| ensures kept[i] in issues - {id} {
        assert kept[i] in kept;
      }
    }
    if ids != [] {
      assert forall i | 0 <= i < |ids| - 1 :: ids[1..][i] == ids[i + 1];
      SelectWithout(ids[1..], issues, id, conditions);
      var rest := Without(ids[1..], id);
      var x := issues[ids[0]];
      if ids[0] == id {
        assert kept == rest;
      } else {
        assert kept == [ids[0]] + rest;
        assert ([ids[0]] + rest)[1..] == rest;
        assert (issues - {id})[ids[0]] == x;
        if Matches(x, conditions) {
          assert ([x] + Select(ids[1..], issues, conditions))[1..] == Select(ids[1..], issues, conditions);
        }
      }
    }
  }

  /** The Mongoose `Issue` model: one collection of issues */
  class IssueStore {
    /** Each stored issue under its `_id` */
    var issues: map<Id, Issue>
    /** The listing order the model fixes: the ids of the stored issues as they were inserted */
    var order: seq<Id>
    /** How many ids have been handed out */
    var nextId: nat
    /** The wall clock that `Date.now` and `new Date()` read */
    var clock: Time

    ghost predicate Valid()
      reads this
    {
      && Distinct(order)
      && Covers(order, issues)
      && (forall id | id in issues :: id in order)
      && (forall id | id in issues :: issues[id].id == id)
      && (forall id | id in issues :: WellFormed(issues[id]) && issues[id].updatedOn <= clock)
      && (forall n: nat | HexId(n) in issues :: n < nextId)
    }

    /** An empty collection, at time zero */
    constructor ()
      ensures Valid()
      ensures issues == map[] && order == [] && nextId == 0 && clock == 0
    {
      issues, order, nextId, clock := map[], [], 0, 0;
    }

    /** Time passes between requests */
    method Tick(elapsed: nat)
      requires Valid()
      modifies this
      ensures Valid()
      ensures clock == old(clock) + elapsed
      ensures issues == old(issues) && order == old(order) && nextId == old(nextId)
    {
      clock := clock + elapsed;
    }

    /** `find(conditions)`: exactly the stored issues that satisfy every condition */
    function Find(conditions: map<string, Value>): (r: seq<Issue>)
      reads this
      requires Valid()
      ensures forall x :: x in r <==> x in issues.Values && Matches(x, conditions)
      ensures Distinct(r)
    {
      var r := Select(order, issues, conditions);
      SelectDistinct(order, issues, conditions);
      assert forall x | x in issues.Values :: exists i | 0 <= i < |order| :: issues[order[i]] == x by {
        forall x | x in issues.Values ensures exists i | 0 <= i < |order| :: issues[order[i]] == x {
          var id :| id in issues && issues[id] == x;
          var i :| 0 <= i < |order| && order[i] == id;
        }
      }
      r
    }

    /** `new Issue({...}).save()`: a document with a fresh id and both
        timestamps at the current time, added at the end of the collection */
    method Insert(project: string, issueTitle: string, issueText: string, createdBy: string,
                  assignedTo: string, statusText: string) returns (issue: Issue)
      requires Valid()
      requires project != "" && issueTitle != "" && issueText != "" && createdBy != ""
      modifies this
      ensures Valid()
      ensures issue == NewIssue(HexId(old(nextId)), project, issueTitle, issueText, createdBy,
                                assignedTo, statusText, old(clock))
      ensures issue.id !in old(issues)
      ensures issues == old(issues)[issue.id := issue]
      ensures order == old(order) + [issue.id]
      ensures nextId == old(nextId) + 1 && clock == old(clock)
    {
      var id := HexId(nextId);
      issue := NewIssue(id, project, issueTitle, issueText, createdBy, assignedTo, statusText, clock);
      forall n: nat | HexId(n) == id ensures n == nextId {
        HexIdInjective(n, nextId);
      }
      issues := issues[id := issue];
      order := order + [id];
      nextId := nextId + 1;
    }

    /** `findByIdAndUpdate(id, patch, {new: true})`: the updated issue, or
        nothing when no issue has that id */
    method FindByIdAndUpdate(id: Id, patch: Patch) returns (found: Option<Issue>)
      requires Valid()
      requires patch.updatedOn == clock
      requires patch.issueTitle != Some("") && patch.issueText != Some("") && patch.createdBy != Some("")
      modifies this
      ensures Valid()
      ensures found.Some? <==> id in old(issues)
      ensures id in old(issues) ==> found == Some(Apply(old(issues)[id], patch)) && issues == old(issues)[id := found.value]
      ensures id !in old(issues) ==> issues == old(issues)
      ensures order == old(order) && nextId == old(nextId) && clock == old(clock)
    {
      if id in issues {
        var updated := Apply(issues[id], patch);
        ApplyKeepsWellFormed(issues[id], patch);
        issues := issues[id := updated];
        found := Some(updated);
      } else {
        found := None;
      }
    }

    /** `findByIdAndDelete(id)`: the removed issue, or nothing when no issue has that id */
    method FindByIdAndDelete(id: Id) returns (found: Option<Issue>)
      requires Valid()
      modifies this
      ensures Valid()
      ensures found.Some? <==> id in old(issues)
      ensures id in old(issues) ==> found == Some(old(issues)[id])
      ensures issues == old(issues) - {id} && order == Without(old(order), id)
      ensures id !in old(issues) ==> issues == old(issues) && order == old(order)
      ensures nextId == old(nextId) && clock == old(clock)
    {
      if id in issues {
        found := Some(issues[id]);
        var rest, kept := issues - {id}, Without(order, id);
        assert Covers(kept, rest) by {
          forall i | 0 <= i < |kept| ensures kept[i] in rest {
            assert kept[i] in kept;
          }
        }
        assert forall n: nat | HexId(n) in rest :: n < nextId;
        issues, order := rest, kept;
      } else {
        found := None;
        assert id !in order;
        assert issues - {id} == issues;
      }
    }
  }
}
