/**
  The Users table: one wide row per account, with role-specific optional
  columns, and the read-only queries the application runs against it.
*/
module Identity {
  import opened Common

  const Doctor: string := "dokter"
  const Pharmacy: string := "apotek"
  const Patient: string := "pasien"

  /** The nullable profile columns of Users (NULL is None). */
  datatype Profile = Profile(
    hospitalName: Option<string>,
    hospitalAddress: Option<string>,
    hospitalContact: Option<string>,
    doctorName: Option<string>,
    doctorSip: Option<string>,
    patientName: Option<string>,
    patientAge: Option<int>,
    patientGender: Option<string>,
    patientAddress: Option<string>)

  const NoProfile: Profile := Profile(None, None, None, None, None, None, None, None, None)

  /** One row of Users. */
  datatype User = User(id: nat, username: string, password: string, role: string, profile: Profile)

  predicate NoDoctorColumns(p: Profile) {
    p.hospitalName.None? && p.hospitalAddress.None? && p.hospitalContact.None? && p.doctorName.None? && p.doctorSip.None?
  }

  predicate NoPatientColumns(p: Profile) {
    p.patientName.None? && p.patientAge.None? && p.patientGender.None? && p.patientAddress.None?
  }

  predicate SameDoctorColumns(p: Profile, q: Profile) {
    p.hospitalName == q.hospitalName && p.hospitalAddress == q.hospitalAddress && p.hospitalContact == q.hospitalContact
    && p.doctorName == q.doctorName && p.doctorSip == q.doctorSip
  }

  predicate SamePatientColumns(p: Profile, q: Profile) {
    p.patientName == q.patientName && p.patientAge == q.patientAge
    && p.patientGender == q.patientGender && p.patientAddress == q.patientAddress
  }

  /**
    The profile columns the sign-up insert of `create_user` (the
    role-branching variant) writes: a doctor row gets the hospital and
    doctor columns, a patient row the patient columns, a pharmacy row
    none; any other role leads to no insert at all.
  */
  function StoredProfile(role: string, given: Profile): (r: Option<Profile>)
    ensures r.Some? <==> role == Doctor || role == Pharmacy || role == Patient
    ensures r.Some? && role == Doctor ==> SameDoctorColumns(r.value, given) && NoPatientColumns(r.value)
    ensures r.Some? && role == Pharmacy ==> NoDoctorColumns(r.value) && NoPatientColumns(r.value)
    ensures r.Some? && role == Patient ==> SamePatientColumns(r.value, given) && NoDoctorColumns(r.value)
  {
    if role == Doctor then
      Some(given.(patientName := None, patientAge := None, patientGender := None, patientAddress := None))
    else if role == Pharmacy then
      Some(NoProfile)
    else if role == Patient then
      Some(given.(hospitalName := None, hospitalAddress := None, hospitalContact := None, doctorName := None, doctorSip := None))
    else
      None
  }

  predicate UsernameTaken(users: seq<User>, username: string) {
    exists i :: 0 <= i < |users| && users[i].username == username
  }

  /** The UNIQUE constraint on Users.username. */
  predicate UniqueUsernames(users: seq<User>) {
    forall i, j :: 0 <= i < j < |users| ==> users[i].username != users[j].username
  }

  /** AUTOINCREMENT ids: positive, increasing in insertion order, below the next id to hand out. */
  predicate UserIdsIncreasing(users: seq<User>, next: nat) {
    && 1 <= next
    && (forall i :: 0 <= i < |users| ==> 1 <= users[i].id < next)
    && (forall i, j :: 0 <= i < j < |users| ==> users[i].id < users[j].id)
  }

  /** The first row, in table order, that satisfies p (a query's `fetchone`). */
  function FirstWhere(users: seq<User>, p: User -> bool): (r: Option<User>)
    ensures r.Some? <==> exists i :: 0 <= i < |users| && p(users[i])
    ensures r.Some? ==> exists i :: 0 <= i < |users| && users[i] == r.value && p(r.value)
                                    && forall j :: 0 <= j < i ==> !p(users[j])
  {
    if users == [] then None
    else if p(users[0]) then Some(users[0])
    else
      var rest := FirstWhere(users[1..], p);
      assert rest.Some? ==> exists i :: 0 <= i < |users| - 1 && users[1..][i] == rest.value
                                         && forall j :: 0 <= j < i ==> !p(users[1..][j]);
      rest
  }

  predicate Credentials(u: User, username: string, password: string, role: string) {
    u.username == username && u.password == password && u.role == role
  }

  /**
    `authenticate_user`: the row whose username, password and role all
    equal the given ones, or None when no row matches all three.
  */
  function AuthenticateUser(users: seq<User>, username: string, password: string, role: string): (r: Option<User>)
    ensures r.Some? <==> exists i :: 0 <= i < |users| && Credentials(users[i], username, password, role)
    ensures r.Some? ==> r.value in users && Credentials(r.value, username, password, role)
  {
    FirstWhere(users, u => Credentials(u, username, password, role))
  }

  /** With unique usernames, a matching row is the one authentication returns. */
  lemma AuthenticateUnique(users: seq<User>, i: nat, password: string, role: string)
    requires UniqueUsernames(users) && i < |users|
    requires users[i].password == password && users[i].role == role
    ensures AuthenticateUser(users, users[i].username, password, role) == Some(users[i])
  {
    var r := AuthenticateUser(users, users[i].username, password, role);
    assert Credentials(users[i], users[i].username, password, role);
    var k :| 0 <= k < |users| && users[k] == r.value;
    assert users[k].username == users[i].username;
  }

  /** A doctor row whose hospital equals the given one; as in SQL, nothing equals NULL. */
  predicate DoctorAt(u: User, hospital: Option<string>) {
    u.role == Doctor && hospital.Some? && u.profile.hospitalName == hospital
  }

  /**
    The hospital list a patient chooses from: the distinct hospital
    names of doctor rows, in order of first appearance (NULL included).
  */
  function HospitalNames(users: seq<User>): (hs: seq<Option<string>>)
    ensures forall i, j :: 0 <= i < j < |hs| ==> hs[i] != hs[j]
    ensures forall h :: h in hs <==> exists i :: 0 <= i < |users| && users[i].role == Doctor && users[i].profile.hospitalName == h
  {
    if users == [] then []
    else
      var prefix := users[..|users| - 1];
      var u := users[|users| - 1];
      var rest := HospitalNames(prefix);
      assert forall i :: 0 <= i < |prefix| ==> prefix[i] == users[i];
      if u.role == Doctor && u.profile.hospitalName !in rest then rest + [u.profile.hospitalName] else rest
  }

  /**
    The doctor list of the chosen hospital: id and name of each doctor
    row at that hospital, in table order.
  */
  function DoctorsAt(users: seq<User>, hospital: Option<string>): (ds: seq<(nat, Option<string>)>)
    ensures |ds| <= |users|
    ensures forall d :: d in ds <==> exists i :: 0 <= i < |users| && DoctorAt(users[i], hospital)
                                                  && d == (users[i].id, users[i].profile.doctorName)
  {
    if users == [] then []
    else
      var rest := DoctorsAt(users[1..], hospital);
      assert forall i :: 0 <= i < |users| - 1 ==> users[1..][i] == users[i + 1];
      if DoctorAt(users[0], hospital) then [(users[0].id, users[0].profile.doctorName)] + rest else rest
  }

  predicate NamedDoctorAt(u: User, doctorName: Option<string>, hospital: Option<string>) {
    DoctorAt(u, hospital) && doctorName.Some? && u.profile.doctorName == doctorName
  }

  /**
    The chosen doctor's id: the first doctor row with that name at that
    hospital; as in SQL, a NULL name or hospital matches nothing.
  */
  function DoctorIdFor(users: seq<User>, doctorName: Option<string>, hospital: Option<string>): (r: Option<nat>)
    ensures r.Some? <==> exists i :: 0 <= i < |users| && NamedDoctorAt(users[i], doctorName, hospital)
    ensures r.Some? ==> exists i :: 0 <= i < |users| && NamedDoctorAt(users[i], doctorName, hospital) && users[i].id == r.value
  {
    match FirstWhere(users, u => NamedDoctorAt(u, doctorName, hospital))
    case None => None
    case Some(u) => Some(u.id)
  }

  /** The doctor lookup of `doctor_prescription_ui`: the doctor row with that id. */
  function FindDoctor(users: seq<User>, doctorId: int): (r: Option<User>)
    ensures r.Some? <==> exists i :: 0 <= i < |users| && users[i].id == doctorId && users[i].role == Doctor
    ensures r.Some? ==> r.value in users && r.value.id == doctorId && r.value.role == Doctor
  {
    FirstWhere(users, (u: User) => u.id == doctorId && u.role == Doctor)
  }

  lemma DoctorHospitalListed(users: seq<User>, i: nat)
    requires i < |users| && users[i].role == Doctor
    ensures users[i].profile.hospitalName in HospitalNames(users)
  {
  }

  lemma DoctorListedAtHospital(users: seq<User>, i: nat)
    requires i < |users| && users[i].role == Doctor && users[i].profile.hospitalName.Some?
    ensures (users[i].id, users[i].profile.doctorName) in DoctorsAt(users, users[i].profile.hospitalName)
  {
    var u := users[i];
    assert DoctorAt(u, u.profile.hospitalName);
  }

  lemma DoctorFoundByName(users: seq<User>, i: nat)
    requires i < |users| && users[i].role == Doctor
    requires users[i].profile.hospitalName.Some? && users[i].profile.doctorName.Some?
    ensures DoctorIdFor(users, users[i].profile.doctorName, users[i].profile.hospitalName).Some?
  {
    var u := users[i];
    assert NamedDoctorAt(u, u.profile.doctorName, u.profile.hospitalName);
  }

  /**
    A doctor with a hospital and a name is offered in the hospital list
    and in that hospital's doctor list, and choosing them by name finds an id.
  */
  lemma ListedDoctorIsFound(users: seq<User>, i: nat)
    requires i < |users| && users[i].role == Doctor
    requires users[i].profile.hospitalName.Some? && users[i].profile.doctorName.Some?
    ensures users[i].profile.hospitalName in HospitalNames(users)
    ensures (users[i].id, users[i].profile.doctorName) in DoctorsAt(users, users[i].profile.hospitalName)
    ensures DoctorIdFor(users, users[i].profile.doctorName, users[i].profile.hospitalName).Some?
  {
    DoctorHospitalListed(users, i);
    DoctorListedAtHospital(users, i);
    DoctorFoundByName(users, i);
  }
}
