/** `GET /api/get-user-profile?userId=..&role=..`: the first user whose
    id AND role both match, with the records they own as a patient (each
    with its doctor projected) and the records they authored as a doctor. */
module UserProfile {
  import opened Options
  import opened Records

  /** `where: { id: userId, role }`: both must match exactly. */
  predicate IsMatch(u: User, userId: Id, role: string) {
    u.id == userId && u.role == role
  }

  /** `findFirst`: the first user in storage order that matches. */
  function FindFirst(users: seq<User>, userId: Id, role: string): (r: Option<User>)
    ensures r.Some? ==> r.value in users && IsMatch(r.value, userId, role)
    ensures r.None? <==> forall u :: u in users ==> !IsMatch(u, userId, role)
  {
    if |users| == 0 then None
    else if IsMatch(users[0], userId, role) then Some(users[0])
    else FindFirst(users[1..], userId, role)
  }

  /** The `medicalRecords` relation: records whose patient is `id`. */
  function PatientRecords(rs: seq<MedicalRecord>, id: Id): (r: seq<MedicalRecord>)
    ensures forall x :: x in r <==> x in rs && x.patientId == id
  {
    if |rs| == 0 then []
    else
      assert rs == [rs[0]] + rs[1..];
      (if rs[0].patientId == id then [rs[0]] else []) + PatientRecords(rs[1..], id)
  }

  /** The `doctorRecords` relation: records whose doctor is `id`. */
  function DoctorRecords(rs: seq<MedicalRecord>, id: Id): (r: seq<MedicalRecord>)
    ensures forall x :: x in r <==> x in rs && x.doctorId == id
  {
    if |rs| == 0 then []
    else
      assert rs == [rs[0]] + rs[1..];
      (if rs[0].doctorId == id then [rs[0]] else []) + DoctorRecords(rs[1..], id)
  }

  /** The handler. `fault` stands for the lookup raising. */
  function Get(store: Store, userId: Option<string>, role: Option<string>, fault: bool): (o: Outcome)
    ensures o.store == store
    ensures Falsy(userId) || Falsy(role) ==> o.response == ApiResponse(false, "User Id and role is required", 404)
    ensures !Falsy(userId) && !Falsy(role) && fault ==>
              o.response == ApiResponse(false, "Error fetching user", 500)
    ensures !Falsy(userId) && !Falsy(role) && !fault
            && (forall u :: u in store.users ==> !IsMatch(u, userId.value, role.value)) ==>
              o.response == ApiResponse(false, "User not found", 404)
    ensures o.response.success <==>
              && !Falsy(userId) && !Falsy(role) && !fault
              && exists u :: u in store.users && IsMatch(u, userId.value, role.value)
    ensures o.response.success ==>
              && o.response.status == 200
              && o.response.payload.Profile?
              && var p := o.response.payload;
              && p.user in store.users
              && p.user.id == userId.value && p.user.role == role.value
              && (forall v :: v in p.medicalRecords ==>
                    v.record in store.records && v.record.patientId == p.user.id
                    && v == WithDoctor(store.users, v.record))
              && (forall x :: x in store.records && x.patientId == p.user.id ==>
                    exists v :: v in p.medicalRecords && v.record == x)
              && (forall x :: x in p.doctorRecords <==> x in store.records && x.doctorId == p.user.id)
  {
    if Falsy(userId) || Falsy(role) then Outcome(ApiResponse(false, "User Id and role is required", 404), store)
    else if fault then Outcome(ApiResponse(false, "Error fetching user", 500), store)
    else
      match FindFirst(store.users, userId.value, role.value)
      case None => Outcome(ApiResponse(false, "User not found", 404), store)
      case Some(u) =>
        var mine := PatientRecords(store.records, u.id);
        var views := WithDoctors(store.users, mine);
        assert forall x :: x in mine ==> WithDoctor(store.users, x) in views by {
          forall x | x in mine
            ensures WithDoctor(store.users, x) in views
          {
            var i :| 0 <= i < |mine| && mine[i] == x;
            assert views[i] == WithDoctor(store.users, x);
          }
        }
        Outcome(Response(true, 200, Profile(u, views, DoctorRecords(store.records, u.id))), store)
  }

  /** The role is part of the key: a user found under one role is not
      found under another, even with the right id. */
  lemma WrongRoleNotFound(store: Store, userId: string, role: string, other: string)
    requires userId != "" && other != "" && role != other
    requires forall u :: u in store.users && u.id == userId ==> u.role == role
    ensures Get(store, Some(userId), Some(other), false).response == ApiResponse(false, "User not found", 404)
  {
  }
}
