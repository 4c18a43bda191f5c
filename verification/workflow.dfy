/** Properties of the record lifecycle that span several handlers: a
    created record is listed under the default status, a decision moves a
    record from one listing to another, and the pending page's local
    update agrees with what a fresh query would return. */
module Workflow {
  import opened Options
  import opened Records
  import CreateRecord
  import GetRecords
  import UpdateAcceptedStatus
  import PendingPage

  /** A created record is listed for its patient under the store's default
      status. */
  lemma CreatedRecordIsListed(store: Store, req: CreateRecord.CreateRequest, env: CreateRecord.InsertEnv)
    requires !CreateRecord.MissingRequired(req) && !env.fault && env.defaultStatus != ""
    requires FreshId(store.records, env.freshId)
    ensures var o := CreateRecord.Post(store, Some(req), env);
            var listed := GetRecords.Get(o.store, req.patientId, Some(env.defaultStatus), false);
            exists i :: 0 <= i < |listed.response.payload.records| &&
              listed.response.payload.records[i].record == o.response.payload.record
  {
    var o := CreateRecord.Post(store, Some(req), env);
    var rec := o.response.payload.record;
    var pid := req.patientId.value;
    assert rec in o.store.records;
    assert GetRecords.Matches(rec, pid, env.defaultStatus);
    GetRecords.QueryProperties(o.store, pid, env.defaultStatus);
    var listed := GetRecords.Get(o.store, req.patientId, Some(env.defaultStatus), false);
    assert listed.response.payload.records == GetRecords.Query(o.store, pid, env.defaultStatus);
  }

  /** After a decision on a stored record, written without a store
      failure, the patient's listing under that decision shows the
      record ... */
  lemma DecidedRecordIsListed(store: Store, id: string, patientId: string, d: PendingPage.Decision, now: Timestamp)
    requires id != ""
    requires exists r :: r in store.records && r.id == id && r.patientId == patientId
    ensures var s := UpdateAcceptedStatus.Patch(store, PendingPage.UpdateRequest(id, d), now, false).store;
            var decided := GetRecords.Query(s, patientId, PendingPage.StatusValue(d));
            exists i :: 0 <= i < |decided| && decided[i].record.id == id
  {
    var status := PendingPage.StatusValue(d);
    var r :| r in store.records && r.id == id && r.patientId == patientId;
    var k :| 0 <= k < |store.records| && store.records[k] == r;
    assert UpdateAcceptedStatus.HasRecord(store.records, id);
    UpdateAcceptedStatus.PatchWrites(store, id, status, now);
    var rs := UpdateAcceptedStatus.SetStatus(store.records, id, status, now);
    var s := Store(rs, store.users);
    assert rs[k].id == id && GetRecords.Matches(rs[k], patientId, status);
    assert rs[k] in s.records;
    GetRecords.QueryProperties(s, patientId, status);
  }

  /** ... and the `pending` listing no longer does. */
  lemma DecidedRecordLeavesPending(store: Store, id: string, patientId: string, d: PendingPage.Decision, now: Timestamp)
    requires id != "" && UpdateAcceptedStatus.HasRecord(store.records, id)
    ensures var s := UpdateAcceptedStatus.Patch(store, PendingPage.UpdateRequest(id, d), now, false).store;
            forall v :: v in GetRecords.Query(s, patientId, "pending") ==> v.record.id != id
  {
    var s := UpdateAcceptedStatus.Patch(store, PendingPage.UpdateRequest(id, d), now, false).store;
    GetRecords.QueryMembership(s, patientId, "pending");
    PendingAfterDecision(store, id, patientId, d, now);
  }

  /** The stored records a `pending` query selects after a decision are
      those it selected before, minus the decided record. */
  lemma PendingAfterDecision(store: Store, id: string, patientId: string, d: PendingPage.Decision, now: Timestamp)
    requires id != "" && UpdateAcceptedStatus.HasRecord(store.records, id)
    ensures var s := UpdateAcceptedStatus.Patch(store, PendingPage.UpdateRequest(id, d), now, false).store;
            forall x :: x in s.records && GetRecords.Matches(x, patientId, "pending") <==>
              x in store.records && GetRecords.Matches(x, patientId, "pending") && x.id != id
  {
    var s := UpdateAcceptedStatus.Patch(store, PendingPage.UpdateRequest(id, d), now, false).store;
    forall x
      ensures x in s.records && GetRecords.Matches(x, patientId, "pending") <==>
              x in store.records && GetRecords.Matches(x, patientId, "pending") && x.id != id
    {
      if x in s.records && GetRecords.Matches(x, patientId, "pending") {
        var i :| 0 <= i < |s.records| && s.records[i] == x;
        assert store.records[i].id != id;
      }
      if x in store.records && GetRecords.Matches(x, patientId, "pending") && x.id != id {
        var i :| 0 <= i < |store.records| && store.records[i] == x;
        assert s.records[i] == x;
      }
    }
  }

  /** The pending page drops a decided record from its own list instead of
      querying again; when its list came from the `pending` query, what it
      keeps is exactly what a new query would list, whether or not the
      store fails the write. */
  lemma PageAgreesWithRefetch(st: PendingPage.PageState, store: Store, patientId: string, id: string,
                              d: PendingPage.Decision, now: Timestamp, fault: bool)
    requires id != "" && UpdateAcceptedStatus.HasRecord(store.records, id)
    requires st.records == GetRecords.Query(store, patientId, "pending")
    ensures var (page, s) := PendingPage.HandleStatusUpdate(st, store, id, d, now, fault);
            forall v :: v in page.records <==> v in GetRecords.Query(s, patientId, "pending")
  {
    if !fault {
      var (page, s) := PendingPage.HandleStatusUpdate(st, store, id, d, now, fault);
      GetRecords.QueryMembership(store, patientId, "pending");
      GetRecords.QueryMembership(s, patientId, "pending");
      PendingAfterDecision(store, id, patientId, d, now);
    }
  }

  /** The walk-through: a doctor D1 creates a record for patient P1
      (diagnosis "flu", prescription "rest") at instant 1, which the store
      names "R" and gives the default status "pending" ... */
  function CreateStep(users: seq<User>): Outcome {
    var req := CreateRecord.CreateRequest(Some("P1"), Some("D1"), Some("flu"), Some("rest"), None, None, None);
    CreateRecord.Post(Store([], users), Some(req), CreateRecord.InsertEnv(false, "R", 1, "pending"))
  }

  /** ... and the patient accepts it at instant 2. */
  function AcceptStep(users: seq<User>): Outcome {
    UpdateAcceptedStatus.Patch(CreateStep(users).store, UpdateAcceptedStatus.Request("R", "accepted"), 2, false)
  }

  /** The record starts out pending; accepting it writes the status and
      the instant into the one stored record. */
  lemma CreateThenAccept(users: seq<User>)
    ensures CreateStep(users).response.status == 201
    ensures CreateStep(users).response.payload.record.isAcceptedStatus == "pending"
    ensures AcceptStep(users).response.success
    ensures AcceptStep(users).response.payload.record.isAcceptedStatus == "accepted"
    ensures AcceptStep(users).store
            == Store([CreateStep(users).response.payload.record.(isAcceptedStatus := "accepted", updatedAt := 2)], users)
  {
    var created := CreateStep(users);
    var r := created.response.payload.record;
    assert created.store == Store([r], users);
    assert r.id == "R" && r.patientId == "P1";
    assert UpdateAcceptedStatus.HasRecord(created.store.records, "R") by {
      assert created.store.records[0].id == "R";
    }
    UpdateAcceptedStatus.PatchWrites(created.store, "R", "accepted", 2);
    var r' := r.(isAcceptedStatus := "accepted", updatedAt := 2);
    assert UpdateAcceptedStatus.SetStatus([r], "R", "accepted", 2) == [r'];
  }

  /** After the acceptance the record is listed under `accepted`, with its
      doctor, and no longer under `pending`. */
  lemma AcceptScenario(users: seq<User>)
    ensures var store := AcceptStep(users).store;
            && GetRecords.Get(store, Some("P1"), Some("accepted"), false).response.payload.records
               == [WithDoctor(users, CreateStep(users).response.payload.record.(isAcceptedStatus := "accepted", updatedAt := 2))]
            && GetRecords.Get(store, Some("P1"), Some("pending"), false).response.payload.records == []
  {
    CreateThenAccept(users);
    var r' := CreateStep(users).response.payload.record.(isAcceptedStatus := "accepted", updatedAt := 2);
    assert r'.patientId == "P1";
    GetRecords.QuerySingle(users, r', "P1", "accepted");
    GetRecords.QuerySingle(users, r', "P1", "pending");
  }
}
