/** `PATCH /api/update-accepted-status`: overwrites the status of the
    record with the given id, whatever its current status and whatever
    non-empty string is sent. */
module UpdateAcceptedStatus {
  import opened Options
  import opened Records

  /** The destructured JSON body `{recordId, isAcceptedStatus}`. */
  datatype PatchRequest = PatchRequest(recordId: Option<string>, isAcceptedStatus: Option<string>)

  predicate HasRecord(rs: seq<MedicalRecord>, id: Id) {
    exists i :: 0 <= i < |rs| && rs[i].id == id
  }

  /** `data: { isAcceptedStatus }` applied to the record `where: { id }`;
      the store refreshes `updatedAt` to `now` as part of the write. */
  function SetStatus(rs: seq<MedicalRecord>, id: Id, status: string, now: Timestamp): (r: seq<MedicalRecord>)
    ensures |r| == |rs|
    ensures forall i :: 0 <= i < |rs| && rs[i].id != id ==> r[i] == rs[i]
    ensures forall i :: 0 <= i < |rs| && rs[i].id == id ==>
              r[i] == rs[i].(isAcceptedStatus := status, updatedAt := now)
  {
    if |rs| == 0 then []
    else
      var head := if rs[0].id == id then rs[0].(isAcceptedStatus := status, updatedAt := now) else rs[0];
      [head] + SetStatus(rs[1..], id, status, now)
  }

  /** The record with the given id, as the update returns it. */
  function FindRecord(rs: seq<MedicalRecord>, id: Id): (r: Option<MedicalRecord>)
    ensures r.Some? <==> HasRecord(rs, id)
    ensures r.Some? ==> r.value in rs && r.value.id == id
  {
    if |rs| == 0 then None
    else if rs[0].id == id then Some(rs[0])
    else
      var r := FindRecord(rs[1..], id);
      assert forall i :: 1 <= i < |rs| ==> rs[i] == rs[1..][i - 1];
      r
  }

  /** The handler. `body` is `None` when the request body is not JSON or
      is `null`; any other non-object body destructures with both fields
      `None`. `now` is the instant the store writes into `updatedAt`. The
      update raises, and the catch answers 500, when the id names no record
      or when the store fails (`fault`). */
  function Patch(store: Store, body: Option<PatchRequest>, now: Timestamp, fault: bool): (o: Outcome)
    ensures body.Some? && (Falsy(body.value.recordId) || Falsy(body.value.isAcceptedStatus)) ==>
              o.response == ApiResponse(false, "Record Id and Status is required", 404)
    ensures body.None? ==> o.response == ApiResponse(false, "Error updating record status", 500)
    ensures body.Some? && !Falsy(body.value.recordId) && !Falsy(body.value.isAcceptedStatus)
            && (fault || !HasRecord(store.records, body.value.recordId.value)) ==>
              o.response == ApiResponse(false, "Error updating record status", 500)
    // any non-empty status is written, and the prior status is never consulted
    ensures o.response.success <==>
              && body.Some? && !Falsy(body.value.recordId) && !Falsy(body.value.isAcceptedStatus)
              && HasRecord(store.records, body.value.recordId.value) && !fault
    ensures !o.response.success ==> o.store == store && (o.response.status == 404 || o.response.status == 500)
    ensures o.response.success ==>
              var id, status := body.value.recordId.value, body.value.isAcceptedStatus.value;
              && o.response.status == 200
              && o.store.users == store.users
              && |o.store.records| == |store.records|
              // the target now carries the requested status and the write instant ...
              && (forall i :: 0 <= i < |store.records| && store.records[i].id == id ==>
                    && o.store.records[i].isAcceptedStatus == status
                    && o.store.records[i] == store.records[i].(isAcceptedStatus := status, updatedAt := now))
              // ... and every other record is untouched
              && (forall i :: 0 <= i < |store.records| && store.records[i].id != id ==>
                    o.store.records[i] == store.records[i])
              // the response carries the updated record
              && o.response.payload.OneRecord?
              && o.response.payload.record.id == id
              && o.response.payload.record.isAcceptedStatus == status
              && o.response.payload.record in o.store.records
  {
    match body
    case None => Outcome(ApiResponse(false, "Error updating record status", 500), store)
    case Some(req) =>
      if Falsy(req.recordId) || Falsy(req.isAcceptedStatus) then
        Outcome(ApiResponse(false, "Record Id and Status is required", 404), store)
      else
        var id, status := req.recordId.value, req.isAcceptedStatus.value;
        if fault || !HasRecord(store.records, id) then
          Outcome(ApiResponse(false, "Error updating record status", 500), store)
        else
          var rs := SetStatus(store.records, id, status, now);
          var i :| 0 <= i < |store.records| && store.records[i].id == id;
          assert HasRecord(rs, id) by { assert rs[i].id == id; }
          Outcome(Response(true, 200, OneRecord(FindRecord(rs, id).value)), Store(rs, store.users))
  }

  function Request(id: string, status: string): Option<PatchRequest> {
    Some(PatchRequest(Some(id), Some(status)))
  }

  /** A valid request for a stored id, when the store does not fail, writes
      `SetStatus` into the store. */
  lemma PatchWrites(store: Store, id: string, status: string, now: Timestamp)
    requires id != "" && status != "" && HasRecord(store.records, id)
    ensures Patch(store, Request(id, status), now, false).store == Store(SetStatus(store.records, id, status, now), store.users)
  {
  }

  /** A request with an empty field or an unknown id, or one the store
      fails, leaves the store as it was. */
  lemma PatchRejects(store: Store, id: string, status: string, now: Timestamp, fault: bool)
    requires id == "" || status == "" || !HasRecord(store.records, id) || fault
    ensures Patch(store, Request(id, status), now, fault).store == store
  {
  }

  /** The write keeps every record's id, so it keeps them unique. */
  lemma SetStatusPreservesUniqueIds(rs: seq<MedicalRecord>, id: Id, status: string, now: Timestamp)
    requires UniqueIds(rs)
    ensures UniqueIds(SetStatus(rs, id, status, now))
  {
    var r := SetStatus(rs, id, status, now);
    assert forall i :: 0 <= i < |rs| ==> r[i].id == rs[i].id;
  }

  /** With unique ids the update is a single-row write: exactly one record
      changes, and it is the one with the id. */
  lemma UpdateChangesOne(rs: seq<MedicalRecord>, id: Id, status: string, now: Timestamp)
    requires UniqueIds(rs) && HasRecord(rs, id)
    ensures var r := SetStatus(rs, id, status, now);
            exists k :: 0 <= k < |rs| && rs[k].id == id
              && r[k] == rs[k].(isAcceptedStatus := status, updatedAt := now)
              && forall i :: 0 <= i < |rs| && i != k ==> r[i] == rs[i]
  {
    var k :| 0 <= k < |rs| && rs[k].id == id;
    var r := SetStatus(rs, id, status, now);
    forall i | 0 <= i < |rs| && i != k
      ensures r[i] == rs[i]
    {
      assert rs[i].id != id;
    }
  }

  /** Whatever the request, the handler keeps record ids unique. */
  lemma PatchPreservesUniqueIds(store: Store, body: Option<PatchRequest>, now: Timestamp, fault: bool)
    requires UniqueIds(store.records)
    ensures UniqueIds(Patch(store, body, now, fault).store.records)
  {
    var o := Patch(store, body, now, fault);
    if o.response.success {
      var id, status := body.value.recordId.value, body.value.isAcceptedStatus.value;
      assert o.store.records == SetStatus(store.records, id, status, now);
      SetStatusPreservesUniqueIds(store.records, id, status, now);
    }
  }

  lemma SetStatusTwice(rs: seq<MedicalRecord>, id: Id, status: string, now: Timestamp)
    ensures SetStatus(SetStatus(rs, id, status, now), id, status, now) == SetStatus(rs, id, status, now)
  {
    var once := SetStatus(rs, id, status, now);
    var twice := SetStatus(once, id, status, now);
    assert forall i :: 0 <= i < |rs| ==> twice[i] == once[i];
  }

  /** Rewriting a status that every record with the id already carries
      leaves every status as it was. */
  lemma SetStatusKeepsWritten(rs: seq<MedicalRecord>, id: Id, status: string, now: Timestamp)
    requires forall i :: 0 <= i < |rs| && rs[i].id == id ==> rs[i].isAcceptedStatus == status
    ensures forall i :: 0 <= i < |rs| ==>
              SetStatus(rs, id, status, now)[i].isAcceptedStatus == rs[i].isAcceptedStatus
  {
  }

  /** Applying the same update twice, at the same write instant and with
      the same store behaviour, leaves the same store as applying it once. */
  lemma PatchIdempotent(store: Store, id: string, status: string, now: Timestamp, fault: bool)
    ensures var once := Patch(store, Request(id, status), now, fault).store;
            Patch(once, Request(id, status), now, fault).store == once
  {
    var o1 := Patch(store, Request(id, status), now, fault);
    if o1.response.success {
      var i :| 0 <= i < |store.records| && store.records[i].id == id;
      PatchWrites(store, id, status, now);
      assert o1.store.records[i].id == id;
      PatchWrites(o1.store, id, status, now);
      SetStatusTwice(store.records, id, status, now);
    } else {
      PatchRejects(store, id, status, now, fault);
    }
  }

  /** Repeating a write later changes no status: only `updatedAt` moves.
      With `PatchWrites` and `PatchRejects` this is the handler's behaviour
      on a repeated request. */
  lemma RepeatKeepsStatuses(rs: seq<MedicalRecord>, id: Id, status: string, now: Timestamp, later: Timestamp)
    ensures var once := SetStatus(rs, id, status, now);
            forall i :: 0 <= i < |rs| ==>
              SetStatus(once, id, status, later)[i].isAcceptedStatus == once[i].isAcceptedStatus
              && SetStatus(once, id, status, later)[i].id == once[i].id
    ensures var once := SetStatus(rs, id, status, now);
            forall i :: 0 <= i < |rs| ==>
              SetStatus(once, id, status, later)[i].(updatedAt := once[i].updatedAt) == once[i]
  {
    SetStatusKeepsWritten(SetStatus(rs, id, status, now), id, status, later);
  }

  /** Last write wins: after two updates of one record that the store does
      not fail, its status is the second value, whatever the first was. */
  lemma LastWriteWins(store: Store, id: string, first: string, second: string, t1: Timestamp, t2: Timestamp)
    requires id != "" && first != "" && second != ""
    requires HasRecord(store.records, id)
    ensures var s1 := Patch(store, Request(id, first), t1, false).store;
            var s2 := Patch(s1, Request(id, second), t2, false).store;
            && Patch(s1, Request(id, second), t2, false).response.success
            && (forall i :: 0 <= i < |store.records| && store.records[i].id == id ==>
                  s2.records[i].isAcceptedStatus == second)
            && (forall i :: 0 <= i < |store.records| && store.records[i].id != id ==>
                  s2.records[i] == store.records[i])
  {
    var s1 := Patch(store, Request(id, first), t1, false).store;
    var i :| 0 <= i < |store.records| && store.records[i].id == id;
    assert s1.records[i].id == id;
  }

  /** An id that names no record: 500 and the store as it was. */
  lemma UnknownIdFails(store: Store, id: string, status: string, now: Timestamp, fault: bool)
    requires id != "" && status != ""
    requires forall r :: r in store.records ==> r.id != id
    ensures Patch(store, Request(id, status), now, fault).response.status == 500
    ensures Patch(store, Request(id, status), now, fault).store == store
  {
    assert !HasRecord(store.records, id) by {
      forall i | 0 <= i < |store.records|
        ensures store.records[i].id != id
      {
        assert store.records[i] in store.records;
      }
    }
  }
}
