/** `GET /api/get-records?patientId=..&isAcceptedStatus=..`: the records
    of one patient with one status, exact match on both, each with its
    doctor projected to id, name and email, newest `updatedAt` first. */
module GetRecords {
  import opened Options
  import opened Records

  /** `where: { patientId, isAcceptedStatus }`: plain equality, no
      normalisation of either value. */
  predicate Matches(r: MedicalRecord, patientId: Id, status: string) {
    r.patientId == patientId && r.isAcceptedStatus == status
  }

  /** The stored records the filter selects, in storage order. */
  function Select(rs: seq<MedicalRecord>, patientId: Id, status: string): (r: seq<MedicalRecord>)
    ensures forall x :: x in r ==> Matches(x, patientId, status)
    ensures forall x :: multiset(r)[x] == if Matches(x, patientId, status) then multiset(rs)[x] else 0
  {
    if |rs| == 0 then []
    else
      var rest := Select(rs[1..], patientId, status);
      assert rs == [rs[0]] + rs[1..];
      if Matches(rs[0], patientId, status) then [rs[0]] + rest else rest
  }

  /** `orderBy: { updatedAt: "desc" }`. */
  predicate NewestFirst(rs: seq<MedicalRecord>) {
    forall i, j :: 0 <= i < j < |rs| ==> rs[i].updatedAt >= rs[j].updatedAt
  }

  function Insert(x: MedicalRecord, rs: seq<MedicalRecord>): (r: seq<MedicalRecord>)
    requires NewestFirst(rs)
    ensures multiset(r) == multiset(rs) + multiset{x}
    ensures NewestFirst(r)
    ensures r[0] == x || (|rs| > 0 && r[0] == rs[0])
  {
    if |rs| == 0 || rs[0].updatedAt <= x.updatedAt then [x] + rs
    else
      var rest := Insert(x, rs[1..]);
      assert rs == [rs[0]] + rs[1..];
      [rs[0]] + rest
  }

  /** One ordering that satisfies `updatedAt: "desc"`. The store does not
      promise an order among equal timestamps, and neither do the
      properties stated about this function. */
  function SortNewestFirst(rs: seq<MedicalRecord>): (r: seq<MedicalRecord>)
    ensures multiset(r) == multiset(rs)
    ensures NewestFirst(r)
  {
    if |rs| == 0 then []
    else
      assert rs == [rs[0]] + rs[1..];
      Insert(rs[0], SortNewestFirst(rs[1..]))
  }

  /** The result list of the query, before it is wrapped in a response. */
  function Query(store: Store, patientId: Id, status: string): seq<RecordView> {
    WithDoctors(store.users, SortNewestFirst(Select(store.records, patientId, status)))
  }

  /** The handler. `fault` stands for the query raising. */
  function Get(store: Store, patientId: Option<string>, status: Option<string>, fault: bool): (o: Outcome)
    // read-only in every branch
    ensures o.store == store
    // the patient check comes first
    ensures Falsy(patientId) ==> o.response == ApiResponse(false, "Patient Id is required", 404)
    ensures !Falsy(patientId) && Falsy(status) ==> o.response == ApiResponse(false, "Request Status is required", 404)
    ensures !Falsy(patientId) && !Falsy(status) && fault ==>
              o.response == ApiResponse(false, "Error fetching patient records", 500)
    ensures o.response.success <==> !Falsy(patientId) && !Falsy(status) && !fault
    ensures o.response.success ==> o.response.status == 200 && o.response.payload.RecordList?
    ensures o.response.success ==>
              var vs := o.response.payload.records;
              // exact match on both values
              && (forall i :: 0 <= i < |vs| ==> Matches(vs[i].record, patientId.value, status.value))
              // every matching stored record is listed
              && (forall x :: x in store.records && Matches(x, patientId.value, status.value) ==>
                    exists i :: 0 <= i < |vs| && vs[i].record == x)
              // newest first
              && (forall i, j :: 0 <= i < j < |vs| ==> vs[i].record.updatedAt >= vs[j].record.updatedAt)
              // each carries its doctor, projected
              && (forall i :: 0 <= i < |vs| ==> vs[i] == WithDoctor(store.users, vs[i].record))
  {
    if Falsy(patientId) then Outcome(ApiResponse(false, "Patient Id is required", 404), store)
    else if Falsy(status) then Outcome(ApiResponse(false, "Request Status is required", 404), store)
    else if fault then Outcome(ApiResponse(false, "Error fetching patient records", 500), store)
    else
      var vs := Query(store, patientId.value, status.value);
      QueryProperties(store, patientId.value, status.value);
      Outcome(Response(true, 200, RecordList(vs)), store)
  }

  lemma QueryProperties(store: Store, patientId: Id, status: string)
    ensures var vs := Query(store, patientId, status);
            && (forall i :: 0 <= i < |vs| ==> Matches(vs[i].record, patientId, status))
            && (forall x :: x in store.records && Matches(x, patientId, status) ==>
                  exists i :: 0 <= i < |vs| && vs[i].record == x)
            && (forall i, j :: 0 <= i < j < |vs| ==> vs[i].record.updatedAt >= vs[j].record.updatedAt)
            && (forall i :: 0 <= i < |vs| ==> vs[i] == WithDoctor(store.users, vs[i].record))
  {
    QueryMatches(store, patientId, status);
    QueryComplete(store, patientId, status);
    QueryOrdered(store, patientId, status);
    QueryProjected(store, patientId, status);
  }

  lemma QueryMatches(store: Store, patientId: Id, status: string)
    ensures forall i :: 0 <= i < |Query(store, patientId, status)| ==>
              Matches(Query(store, patientId, status)[i].record, patientId, status)
  {
    var sorted := SortNewestFirst(Select(store.records, patientId, status));
    var vs := Query(store, patientId, status);
    SortedSelectionMatches(store.records, patientId, status);
    forall i | 0 <= i < |vs|
      ensures Matches(vs[i].record, patientId, status)
    {
      assert vs[i].record == sorted[i];
      assert sorted[i] in sorted;
    }
  }

  lemma QueryComplete(store: Store, patientId: Id, status: string)
    ensures forall x :: x in store.records && Matches(x, patientId, status) ==>
              exists i :: 0 <= i < |Query(store, patientId, status)| && Query(store, patientId, status)[i].record == x
  {
    var sorted := SortNewestFirst(Select(store.records, patientId, status));
    var vs := Query(store, patientId, status);
    SortedSelectionComplete(store.records, patientId, status);
    forall x | x in store.records && Matches(x, patientId, status)
      ensures exists i :: 0 <= i < |vs| && vs[i].record == x
    {
      var i :| 0 <= i < |sorted| && sorted[i] == x;
      assert vs[i].record == x;
    }
  }

  lemma QueryOrdered(store: Store, patientId: Id, status: string)
    ensures var vs := Query(store, patientId, status);
            forall i, j :: 0 <= i < j < |vs| ==> vs[i].record.updatedAt >= vs[j].record.updatedAt
  {
    var sorted := SortNewestFirst(Select(store.records, patientId, status));
    var vs := Query(store, patientId, status);
    assert forall i :: 0 <= i < |vs| ==> vs[i].record == sorted[i];
  }

  lemma QueryProjected(store: Store, patientId: Id, status: string)
    ensures var vs := Query(store, patientId, status);
            forall i :: 0 <= i < |vs| ==> vs[i] == WithDoctor(store.users, vs[i].record)
  {
    var sorted := SortNewestFirst(Select(store.records, patientId, status));
    var vs := Query(store, patientId, status);
    assert forall i :: 0 <= i < |vs| ==> vs[i] == WithDoctor(store.users, sorted[i]);
  }

  lemma SortedSelectionMatches(rs: seq<MedicalRecord>, patientId: Id, status: string)
    ensures forall x :: x in SortNewestFirst(Select(rs, patientId, status)) ==> Matches(x, patientId, status)
  {
    var sel := Select(rs, patientId, status);
    forall x | x in SortNewestFirst(sel)
      ensures Matches(x, patientId, status)
    {
      assert x in multiset(SortNewestFirst(sel));
      assert x in multiset(sel);
    }
  }

  lemma SortedSelectionComplete(rs: seq<MedicalRecord>, patientId: Id, status: string)
    ensures forall x :: x in rs && Matches(x, patientId, status) ==> x in SortNewestFirst(Select(rs, patientId, status))
  {
    var sorted := SortNewestFirst(Select(rs, patientId, status));
    forall x | x in rs && Matches(x, patientId, status)
      ensures x in sorted
    {
      assert multiset(sorted)[x] == multiset(rs)[x] > 0;
    }
  }

  /** The number of records listed is the number of matching stored
      records: nothing is dropped and nothing duplicated. */
  lemma QueryCountsMatches(store: Store, patientId: Id, status: string)
    ensures |Query(store, patientId, status)| == |Select(store.records, patientId, status)|
    ensures forall x :: multiset(SortNewestFirst(Select(store.records, patientId, status)))[x]
                        == if Matches(x, patientId, status) then multiset(store.records)[x] else 0
  {
  }

  /** Membership in the listing, both ways: a view is listed exactly when
      its record is stored, matches, and carries its projected doctor. */
  lemma QueryMembership(store: Store, patientId: Id, status: string)
    ensures forall v :: v in Query(store, patientId, status) <==>
              v.record in store.records && Matches(v.record, patientId, status)
              && v == WithDoctor(store.users, v.record)
  {
    var sel := Select(store.records, patientId, status);
    var sorted := SortNewestFirst(sel);
    var vs := Query(store, patientId, status);
    QueryProperties(store, patientId, status);
    forall v | v in vs
      ensures v.record in store.records
    {
      var i :| 0 <= i < |vs| && vs[i] == v;
      assert sorted[i] in multiset(sel);
    }
  }

  /** A store holding one record lists it exactly when it matches. */
  lemma QuerySingle(users: seq<User>, x: MedicalRecord, patientId: Id, status: string)
    ensures Query(Store([x], users), patientId, status)
            == if Matches(x, patientId, status) then [WithDoctor(users, x)] else []
  {
    var sel := Select([x], patientId, status);
    assert [x][1..] == [];
    assert sel == if Matches(x, patientId, status) then [x] else [];
    assert SortNewestFirst(sel) == sel by {
      if sel != [] {
        assert sel[1..] == [];
      }
    }
  }

  /** No match is not an error: 200 with an empty list. */
  lemma NoMatchIsEmptySuccess(store: Store, patientId: string, status: string)
    requires patientId != "" && status != ""
    requires forall x :: x in store.records ==> !Matches(x, patientId, status)
    ensures Get(store, Some(patientId), Some(status), false).response == Response(true, 200, RecordList([]))
  {
    var sel := Select(store.records, patientId, status);
    assert multiset(sel) == multiset{};
  }

  /** A query for `pending` never lists a record whose status is
      `accepted` or `rejected`. */
  lemma PendingExcludesDecided(store: Store, patientId: string)
    requires patientId != ""
    ensures var o := Get(store, Some(patientId), Some("pending"), false);
            forall i :: 0 <= i < |o.response.payload.records| ==>
              o.response.payload.records[i].record.isAcceptedStatus !in {"accepted", "rejected"}
  {
  }
}
