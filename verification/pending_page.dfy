/** The patient's pending-records page: its local state and the
    `handleStatusUpdate` transition that sends a decision to the
    status-update endpoint and then updates the list and the dialog. */
module PendingPage {
  import opened Options
  import opened Records
  import UpdateAcceptedStatus

  /** The two decisions the page's buttons offer. */
  datatype Decision = Accept | Reject

  function StatusValue(d: Decision): string {
    match d
    case Accept => "accepted"
    case Reject => "rejected"
  }

  /** `records`, `modalOpen`, `selectedRecord` and `updatingStatus`. */
  datatype PageState = PageState(
    records: seq<RecordView>,
    modalOpen: bool,
    selected: Option<RecordView>,
    updatingStatus: Option<Id>)

  /** `prev.filter(record => record.id !== recordId)`. */
  function Without(rs: seq<RecordView>, id: Id): (r: seq<RecordView>)
    ensures forall v :: v in r <==> v in rs && v.record.id != id
    ensures |r| <= |rs|
  {
    if |rs| == 0 then []
    else
      assert rs == [rs[0]] + rs[1..];
      (if rs[0].record.id != id then [rs[0]] else []) + Without(rs[1..], id)
  }

  /** A list without the id is left as it is. */
  lemma {:induction false} WithoutNoMatch(rs: seq<RecordView>, id: Id)
    requires forall v :: v in rs ==> v.record.id != id
    ensures Without(rs, id) == rs
    decreases |rs|
  {
    if |rs| > 0 {
      assert rs[0] in rs;
      assert forall v :: v in rs[1..] ==> v in rs;
      WithoutNoMatch(rs[1..], id);
      assert [rs[0]] + rs[1..] == rs;
    }
  }

  /** The filter keeps relative order: it works piecewise on a
      concatenation. */
  lemma {:induction false} WithoutAppend(a: seq<RecordView>, b: seq<RecordView>, id: Id)
    ensures Without(a + b, id) == Without(a, id) + Without(b, id)
    decreases |a|
  {
    if |a| == 0 {
      assert a + b == b;
    } else {
      assert (a + b)[1..] == a[1..] + b;
      WithoutAppend(a[1..], b, id);
    }
  }

  /** What the page sends: `{ recordId, isAcceptedStatus }`. */
  function UpdateRequest(id: Id, d: Decision): Option<UpdateAcceptedStatus.PatchRequest> {
    Some(UpdateAcceptedStatus.PatchRequest(Some(id), Some(StatusValue(d))))
  }

  /** `setUpdatingStatus(recordId)` before the request is sent. */
  function BeginUpdate(st: PageState, id: Id): (s: PageState)
    ensures s.updatingStatus == Some(id)
    ensures s.records == st.records && s.modalOpen == st.modalOpen && s.selected == st.selected
  {
    st.(updatingStatus := Some(id))
  }

  /** axios resolves on a 2xx response and throws otherwise, or when no
      response arrives (`None`). */
  predicate Resolves(reply: Option<Response>) {
    reply.Some? && 200 <= reply.value.status < 300
  }

  /** The rest of `handleStatusUpdate` once the request settles. The dialog
      state it tests is the one it was called with. */
  function FinishUpdate(st: PageState, id: Id, reply: Option<Response>): (s: PageState)
    // whatever the outcome, nothing is marked as updating any more
    ensures s.updatingStatus.None?
    ensures s.selected == st.selected
    // success: the record leaves the list, the others stay
    ensures Resolves(reply) ==> forall v :: v in s.records <==> v in st.records && v.record.id != id
    ensures Resolves(reply) ==> s.records == Without(st.records, id)
    // failure: the list is as it was
    ensures !Resolves(reply) ==> s.records == st.records
    // the dialog closes only when it showed this record
    ensures s.modalOpen <==>
              st.modalOpen && !(Resolves(reply) && st.selected.Some? && st.selected.value.record.id == id)
  {
    if Resolves(reply) then
      var open := if st.modalOpen && st.selected.Some? && st.selected.value.record.id == id
                  then false else st.modalOpen;
      PageState(Without(st.records, id), open, st.selected, None)
    else
      st.(updatingStatus := None)
  }

  /** The whole handler against the status-update endpoint: returns the
      page state after it and the store after the request. `fault` says
      whether the store fails the write. */
  function HandleStatusUpdate(st: PageState, store: Store, id: Id, d: Decision, now: Timestamp, fault: bool)
    : (r: (PageState, Store))
    ensures r.1 == UpdateAcceptedStatus.Patch(store, UpdateRequest(id, d), now, fault).store
    ensures r.0.updatingStatus.None?
    ensures r.0.selected == st.selected
    // the record leaves the list exactly when the endpoint accepted the write
    ensures var ok := UpdateAcceptedStatus.Patch(store, UpdateRequest(id, d), now, fault).response.success;
            && (ok ==> r.0.records == Without(st.records, id))
            && (!ok ==> r.0.records == st.records)
            && (r.0.modalOpen <==>
                  st.modalOpen && !(ok && st.selected.Some? && st.selected.value.record.id == id))
  {
    var o := UpdateAcceptedStatus.Patch(store, UpdateRequest(id, d), now, fault);
    assert Resolves(Some(o.response)) <==> o.response.success;
    (FinishUpdate(BeginUpdate(st, id), id, Some(o.response)), o.store)
  }

  /** The page only ever writes `accepted` or `rejected`, and a request
      with a non-empty id always passes the endpoint's validation. */
  lemma SendsOnlyDecisions(id: Id, d: Decision)
    ensures UpdateRequest(id, d).value.isAcceptedStatus.value in {"accepted", "rejected"}
    ensures id != "" ==> !Falsy(UpdateRequest(id, d).value.recordId) && !Falsy(UpdateRequest(id, d).value.isAcceptedStatus)
  {
  }

  /** A decision on a record the store holds, which the store does not
      fail, removes it from the page; on an id the store does not hold, or
      a failed write, the page is left as it was apart from the updating
      marker. */
  lemma DecisionOutcome(st: PageState, store: Store, id: Id, d: Decision, now: Timestamp, fault: bool)
    requires id != ""
    ensures var (s, _) := HandleStatusUpdate(st, store, id, d, now, fault);
            UpdateAcceptedStatus.HasRecord(store.records, id) && !fault ==>
              forall v :: v in s.records <==> v in st.records && v.record.id != id
    ensures var (s, _) := HandleStatusUpdate(st, store, id, d, now, fault);
            !UpdateAcceptedStatus.HasRecord(store.records, id) || fault ==>
              s == st.(updatingStatus := None)
  {
  }
}
