/** `POST /api/create-record`: validates the four required fields and
    inserts a new medical record built from the request body. */
module CreateRecord {
  import opened Options
  import opened Records

  /** The destructured JSON body. An absent key is `None`; a body that
      parses to a non-object value other than `null` (an array, a number,
      a string) destructures with every field `None`. */
  datatype CreateRequest = CreateRequest(
    patientId: Option<string>,
    doctorId: Option<string>,
    diagnosis: Option<string>,
    prescription: Option<string>,
    medications: Option<seq<Medication>>,
    specialInstructions: Option<string>,
    notes: Option<string>)

  /** What the store decides on insertion and the handler does not: the
      generated id, the creation instant, the default status, and whether
      the insert raises for a reason of its own. */
  datatype InsertEnv = InsertEnv(fault: bool, freshId: Id, now: Timestamp, defaultStatus: string)

  /** The validation at the top of the handler: any of the four required
      fields is falsy. */
  predicate MissingRequired(req: CreateRequest) {
    Falsy(req.patientId) || Falsy(req.doctorId) || Falsy(req.diagnosis) || Falsy(req.prescription)
  }

  /** The row the insert produces from `data`. The handler passes
      `medications` through as it came; an omitted list is taken to be
      stored empty. */
  function NewRecord(req: CreateRequest, env: InsertEnv): MedicalRecord
    requires !MissingRequired(req)
  {
    MedicalRecord(
      env.freshId,
      req.patientId.value,
      req.doctorId.value,
      req.diagnosis.value,
      req.prescription.value,
      req.medications.GetOr([]),
      req.specialInstructions,
      env.defaultStatus,
      req.notes,
      env.now,
      env.now)
  }

  /** The handler. `body` is `None` when the request body is not JSON or
      is `null`: parsing or destructuring throws and the catch answers 500.
      The insert raises, and the catch answers 500, when the store fails
      (`env.fault`) or when the generated id is already a stored record's
      primary key. */
  function Post(store: Store, body: Option<CreateRequest>, env: InsertEnv): (o: Outcome)
    // a body that cannot be read: 500, nothing stored
    ensures body.None? ==> o == Outcome(ApiResponse(false, "Error creating medical record", 500), store)
    // validation failure: 404 and nothing stored
    ensures body.Some? && MissingRequired(body.value) ==>
              o == Outcome(ApiResponse(false, "All Fields are required", 404), store)
    // a failing insert: 500 and nothing stored
    ensures body.Some? && !MissingRequired(body.value) && (env.fault || !FreshId(store.records, env.freshId)) ==>
              o == Outcome(ApiResponse(false, "Error creating medical record", 500), store)
    // success: 201 with the created record, which is the one new row
    ensures o.response.success <==>
              body.Some? && !MissingRequired(body.value) && !env.fault && FreshId(store.records, env.freshId)
    ensures o.response.success ==>
              && o.response.status == 201
              && o.response.payload.OneRecord?
              && o.store.records == store.records + [o.response.payload.record]
              && o.store.users == store.users
    ensures o.response.success ==>
              var req, rec := body.value, o.response.payload.record;
              && Some(rec.patientId) == req.patientId
              && Some(rec.doctorId) == req.doctorId
              && Some(rec.diagnosis) == req.diagnosis
              && Some(rec.prescription) == req.prescription
              && (req.medications.Some? ==> rec.medications == req.medications.value)
              && (req.medications.None? ==> rec.medications == [])
              && rec.specialInstructions == req.specialInstructions
              && rec.notes == req.notes
              && rec.isAcceptedStatus == env.defaultStatus
              && rec.id == env.freshId
              && rec.createdAt == rec.updatedAt == env.now
    ensures !o.response.success ==> o.store == store
  {
    match body
    case None => Outcome(ApiResponse(false, "Error creating medical record", 500), store)
    case Some(req) =>
      if MissingRequired(req) then
        Outcome(ApiResponse(false, "All Fields are required", 404), store)
      else if env.fault || !FreshId(store.records, env.freshId) then
        Outcome(ApiResponse(false, "Error creating medical record", 500), store)
      else
        var rec := NewRecord(req, env);
        Outcome(Response(true, 201, OneRecord(rec)), Store(store.records + [rec], store.users))
  }

  /** The optional fields never decide acceptance: two bodies that agree
      on the four required fields get the same status and success. */
  lemma OptionalFieldsNeverReject(store: Store, req: CreateRequest, meds: Option<seq<Medication>>,
                                  special: Option<string>, notes: Option<string>, env: InsertEnv)
    ensures var other := req.(medications := meds, specialInstructions := special, notes := notes);
            && Post(store, Some(other), env).response.status == Post(store, Some(req), env).response.status
            && Post(store, Some(other), env).response.success == Post(store, Some(req), env).response.success
  {
  }

  /** Creation grows the store by exactly one record and never touches
      existing ones. */
  lemma CreateGrowsByOne(store: Store, body: Option<CreateRequest>, env: InsertEnv)
    ensures var o := Post(store, body, env);
            |o.store.records| == |store.records| + (if o.response.success then 1 else 0)
    ensures var o := Post(store, body, env);
            o.store.records[..|store.records|] == store.records
  {
  }

  /** The handler never writes a status of its own: the new record's
      status is the store default, whatever the body says. */
  lemma CreatedStatusIsDefault(store: Store, req: CreateRequest, env: InsertEnv)
    requires !MissingRequired(req) && !env.fault && FreshId(store.records, env.freshId)
    ensures Post(store, Some(req), env).response.payload.record.isAcceptedStatus == env.defaultStatus
  {
  }

  /** Whatever the request, creation keeps record ids unique. */
  lemma CreatePreservesUniqueIds(store: Store, body: Option<CreateRequest>, env: InsertEnv)
    requires UniqueIds(store.records)
    ensures UniqueIds(Post(store, body, env).store.records)
  {
    var o := Post(store, body, env);
    if o.response.success {
      var rs, rec := o.store.records, o.response.payload.record;
      assert forall k :: 0 <= k < |store.records| ==> store.records[k] in store.records;
      assert forall k :: 0 <= k < |store.records| ==> rs[k] == store.records[k] && rs[k].id != rec.id;
    }
  }
}
