/** The entities the record handlers read and write: medical records as
    the ORM returns them, users, the doctor projection `{id, name, email}`
    the handlers attach to records, the abstract store, and the
    `(success, status, payload)` shape of every handler's response. */
module Records {
  import opened Options

  type Id = string

  /** Store-maintained instants (`createdAt`, `updatedAt`), ordered. */
  type Timestamp = int

  datatype Medication = Medication(
    name: string,
    dosage: string,
    quantity: int,
    instructions: Option<string>)

  datatype MedicalRecord = MedicalRecord(
    id: Id,
    patientId: Id,
    doctorId: Id,
    diagnosis: string,
    prescription: string,
    medications: seq<Medication>,
    specialInstructions: Option<string>,
    isAcceptedStatus: string,
    notes: Option<string>,
    createdAt: Timestamp,
    updatedAt: Timestamp)

  /** A user row. `role` is the stored role (the seed script uses PATIENT
      and DOCTOR); `password` stands for every column the doctor
      projection leaves out. */
  datatype User = User(id: Id, name: string, email: string, role: string, password: string)

  /** `select: { id: true, name: true, email: true }` on a doctor. */
  datatype DoctorInfo = DoctorInfo(id: Id, name: string, email: string)

  /** A record with its `doctor` relation included. `None` stands for a
      `doctorId` that names no user. */
  datatype RecordView = RecordView(record: MedicalRecord, doctor: Option<DoctorInfo>)

  /** The medical-record and user collections, in storage order. */
  datatype Store = Store(records: seq<MedicalRecord>, users: seq<User>)

  datatype Payload =
    | Message(text: string)
    | OneRecord(record: MedicalRecord)
    | RecordList(records: seq<RecordView>)
    | Profile(user: User, medicalRecords: seq<RecordView>, doctorRecords: seq<MedicalRecord>)

  /** The JSON body `{success, ...}` and the HTTP status of a response. */
  datatype Response = Response(success: bool, status: int, payload: Payload)

  /** A handler's response together with the store after the request. */
  datatype Outcome = Outcome(response: Response, store: Store)

  /** The shared `ApiResponse(success, message, status)` helper: a body
      `{success, message}` with the given status. */
  function ApiResponse(success: bool, message: string, status: int): Response {
    Response(success, status, Message(message))
  }

  /** JavaScript falsiness of a string-valued field: absent (`undefined`
      or `null`) or the empty string. */
  predicate Falsy(f: Option<string>) {
    f.None? || f.value == ""
  }

  function ProjectDoctor(u: User): DoctorInfo {
    DoctorInfo(u.id, u.name, u.email)
  }

  /** The first user with the given id, as the ORM resolves a relation. */
  function FindUser(users: seq<User>, id: Id): (r: Option<User>)
    ensures r.Some? ==> r.value in users && r.value.id == id
    ensures r.None? <==> forall u :: u in users ==> u.id != id
  {
    if |users| == 0 then None
    else if users[0].id == id then Some(users[0])
    else FindUser(users[1..], id)
  }

  /** A record with its doctor included and projected to id, name and email. */
  function WithDoctor(users: seq<User>, r: MedicalRecord): (v: RecordView)
    ensures v.record == r
    ensures v.doctor.Some? <==> exists u :: u in users && u.id == r.doctorId
    ensures v.doctor.Some? ==> v.doctor.value.id == r.doctorId
    // the doctor shown is a stored user with that id, reduced to id, name and email
    ensures v.doctor.Some? ==>
              exists u :: u in users && u.id == r.doctorId && v.doctor.value == ProjectDoctor(u)
  {
    match FindUser(users, r.doctorId)
    case Some(u) => RecordView(r, Some(ProjectDoctor(u)))
    case None => RecordView(r, None)
  }

  /** `WithDoctor` applied to every record, keeping the order. */
  function WithDoctors(users: seq<User>, rs: seq<MedicalRecord>): (vs: seq<RecordView>)
    ensures |vs| == |rs|
    ensures forall i :: 0 <= i < |rs| ==> vs[i] == WithDoctor(users, rs[i])
  {
    if |rs| == 0 then [] else [WithDoctor(users, rs[0])] + WithDoctors(users, rs[1..])
  }

  /** Ids are unique among stored records (the ORM's primary key). */
  predicate UniqueIds(rs: seq<MedicalRecord>) {
    forall i, j :: 0 <= i < |rs| && 0 <= j < |rs| && rs[i].id == rs[j].id ==> i == j
  }

  /** No stored record has the id yet. */
  predicate FreshId(rs: seq<MedicalRecord>, id: Id) {
    forall r :: r in rs ==> r.id != id
  }
}
