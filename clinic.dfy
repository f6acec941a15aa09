/**
  The clinic database: the Users, QueueNumber and PrescriptionPDF tables
  held in memory, with the inserts and updates the application performs
  on them, and the join that finds a patient by queue number.
*/
module Clinic {
  import opened Common
  import opened Text
  import opened Identity
  import opened QueueLedger
  import opened Prescriptions

  /**
    The errors the application reports to its user. Two of them stand for
    an exception the code raises: DuplicateUsername for the unique
    constraint on Users.username, and PatientNameMissing for the
    AttributeError of `.replace` on a NULL patient name.
  */
  datatype Error =
    | DuplicateUsername       // UNIQUE constraint failed: Users.username
    | NoDoctorAtHospital      // the chosen hospital has no registered doctor
    | DoctorNotFound          // no doctor matches the chosen name, or the given id
    | PatientNotFound         // no patient holds the given queue number
    | PatientNameMissing      // the patient row has a NULL patient_name, so `.replace` fails
    | PrescriptionNotFound    // no prescription row has the given id

  /** What a finished prescription document is made of. */
  datatype PrescriptionDocument = PrescriptionDocument(doctor: User, patient: User, itemLines: seq<string>, filename: string)

  /**
    The patient lookup of `doctor_prescription_ui`, a join of Users with
    QueueNumber on the patient id: the user whose queue entry carries the
    given number (the first such pair in ledger order).
  */
  function PatientForQueueNumber(users: seq<User>, ledger: seq<QueueEntry>, queueNumber: string): (r: Option<User>)
    ensures r.Some? <==> exists i, j :: 0 <= i < |ledger| && 0 <= j < |users|
                                        && ledger[i].queueNumber == queueNumber && users[j].id == ledger[i].patientId
    ensures r.Some? ==> r.value in users && exists i :: 0 <= i < |ledger| && ledger[i].queueNumber == queueNumber
                                                        && ledger[i].patientId == r.value.id
  {
    if ledger == [] then None
    else
      var e := ledger[0];
      var found := if e.queueNumber == queueNumber then FirstWhere(users, (u: User) => u.id == e.patientId) else None;
      var rest := PatientForQueueNumber(users, ledger[1..], queueNumber);
      assert forall i :: 0 <= i < |ledger| - 1 ==> ledger[1..][i] == ledger[i + 1];
      if found.Some? then found else rest
  }

  /**
    In a database kept by this model (queue numbers issued in sequence,
    user ids unique), the join has at most one row: the patient the
    queue entry names.
  */
  lemma PatientLookupDetermined(users: seq<User>, nextUserId: nat, ledger: seq<QueueEntry>, i: nat, j: nat)
    requires UserIdsIncreasing(users, nextUserId) && WellIssued(ledger)
    requires i < |ledger| && j < |users| && users[j].id == ledger[i].patientId
    ensures PatientForQueueNumber(users, ledger, ledger[i].queueNumber) == Some(users[j])
  {
    var r := PatientForQueueNumber(users, ledger, ledger[i].queueNumber);
    WellIssuedDistinct(ledger);
    var i' :| 0 <= i' < |ledger| && ledger[i'].queueNumber == ledger[i].queueNumber && ledger[i'].patientId == r.value.id;
    assert i' == i;
    var k :| 0 <= k < |users| && users[k] == r.value;
    assert users[k].id == users[j].id;
  }

  class Database {
    var users: seq<User>
    var queue: seq<QueueEntry>
    var prescriptions: seq<PrescriptionRow>
    var nextUserId: nat
    var nextQueueId: nat
    var nextPrescriptionId: nat

    /**
      The invariant the store's operations keep: AUTOINCREMENT ids that are
      positive, increasing and below the counter, unique usernames, and the
      queue numbering that sequential issuance produces. The QueueNumber
      foreign keys are not part of it, because SQLite does not enforce them
      unless foreign key support is switched on.
    */
    ghost predicate Valid()
      reads this
    {
      && UserIdsIncreasing(users, nextUserId) && UniqueUsernames(users)
      && EntryIdsIncreasing(queue, nextQueueId) && WellIssued(queue)
      && RowIdsIncreasing(prescriptions, nextPrescriptionId)
    }

    /** `create_tables` on a new database: three empty tables. */
    constructor ()
      ensures Valid()
      ensures users == [] && queue == [] && prescriptions == []
      ensures nextUserId == 1 && nextQueueId == 1 && nextPrescriptionId == 1
    {
      users, queue, prescriptions := [], [], [];
      nextUserId, nextQueueId, nextPrescriptionId := 1, 1, 1;
    }

    /**
      `create_user` with all twelve columns: appends the row and returns its
      new id, or fails on an existing username and leaves Users unchanged.
    */
    method CreateUser(username: string, password: string, role: string, profile: Profile) returns (r: Result<nat, Error>)
      requires Valid()
      modifies this`users, this`nextUserId
      ensures Valid()
      ensures UsernameTaken(old(users), username) ==>
                r == Failure(DuplicateUsername) && users == old(users) && nextUserId == old(nextUserId)
      ensures !UsernameTaken(old(users), username) ==>
                && r == Success(old(nextUserId))
                && users == old(users) + [User(old(nextUserId), username, password, role, profile)]
                && nextUserId == old(nextUserId) + 1
      ensures r.Success? ==> forall i :: 0 <= i < |old(users)| ==> old(users)[i].id != r.value
    {
      if UsernameTaken(users, username) {
        return Failure(DuplicateUsername);
      }
      r := Success(nextUserId);
      var user := User(nextUserId, username, password, role, profile);
      assert forall i :: 0 <= i < |users| ==> users[i].id < user.id && users[i].username != user.username;
      users := users + [user];
      nextUserId := nextUserId + 1;
    }

    /**
      The sign-up variant of `create_user`: inserts only the columns of the
      given role, inserts nothing for an unknown role, and fails on an
      existing username.
    */
    method SignUp(username: string, password: string, role: string, given: Profile) returns (r: Outcome<Error>)
      requires Valid()
      modifies this`users, this`nextUserId
      ensures Valid()
      ensures StoredProfile(role, given).None? ==> r == Pass && users == old(users) && nextUserId == old(nextUserId)
      ensures StoredProfile(role, given).Some? && UsernameTaken(old(users), username) ==>
                r == Fail(DuplicateUsername) && users == old(users) && nextUserId == old(nextUserId)
      ensures StoredProfile(role, given).Some? && !UsernameTaken(old(users), username) ==>
                && r == Pass
                && users == old(users) + [User(old(nextUserId), username, password, role, StoredProfile(role, given).value)]
                && nextUserId == old(nextUserId) + 1
    {
      match StoredProfile(role, given)
      case None =>
        r := Pass;
      case Some(profile) =>
        var created := CreateUser(username, password, role, profile);
        r := if created.Success? then Pass else Fail(created.error);
    }

    /**
      `add_queue_number`: appends an entry numbered against the ledger as it
      stood just before the insert.
    */
    method AddQueueNumber(patientId: int, doctorId: int, createdAt: string)
      requires Valid()
      modifies this`queue, this`nextQueueId
      ensures Valid()
      ensures queue == IssueEntry(old(queue), old(nextQueueId), patientId, doctorId, createdAt)
      ensures nextQueueId == old(nextQueueId) + 1
    {
      IssueKeepsWellIssued(queue, nextQueueId, patientId, doctorId, createdAt);
      IssueKeepsIds(queue, nextQueueId, patientId, doctorId, createdAt);
      var queueNumber := GenerateQueueNumber(queue, doctorId);
      queue := queue + [QueueEntry(nextQueueId, patientId, doctorId, queueNumber, createdAt)];
      nextQueueId := nextQueueId + 1;
      assert UserIdsIncreasing(users, nextUserId) && UniqueUsernames(users);
      assert RowIdsIncreasing(prescriptions, nextPrescriptionId);
    }

    /**
      `pilih_rumah_sakit_dan_dokter` after the patient's two choices: looks
      the doctor up, issues a queue entry, and returns the number shown to
      the patient, which is the number the ledger recorded.
    */
    method SelectHospitalAndDoctor(patientId: int, hospital: Option<string>, doctorName: Option<string>, createdAt: string)
      returns (r: Result<string, Error>)
      requires Valid()
      modifies this`queue, this`nextQueueId
      ensures Valid()
      ensures DoctorsAt(users, hospital) == [] ==>
                r == Failure(NoDoctorAtHospital) && queue == old(queue) && nextQueueId == old(nextQueueId)
      ensures DoctorsAt(users, hospital) != [] && DoctorIdFor(users, doctorName, hospital).None? ==>
                r == Failure(DoctorNotFound) && queue == old(queue) && nextQueueId == old(nextQueueId)
      ensures DoctorsAt(users, hospital) != [] && DoctorIdFor(users, doctorName, hospital).Some? ==>
                var doctorId := DoctorIdFor(users, doctorName, hospital).value;
                && r == Success(GenerateQueueNumber(old(queue), doctorId))
                && queue == IssueEntry(old(queue), old(nextQueueId), patientId, doctorId, createdAt)
                && nextQueueId == old(nextQueueId) + 1
      ensures r.Success? ==> |queue| == |old(queue)| + 1 && queue[|queue| - 1].queueNumber == r.value
    {
      if DoctorsAt(users, hospital) == [] {
        return Failure(NoDoctorAtHospital);
      }
      match DoctorIdFor(users, doctorName, hospital)
      case None =>
        r := Failure(DoctorNotFound);
      case Some(doctorId) =>
        var queueNumber := GenerateQueueNumber(queue, doctorId);
        AddQueueNumber(patientId, doctorId, createdAt);
        r := Success(queueNumber);
    }

    /**
      An INSERT into PrescriptionPDF; a status left out takes the schema
      default 'Menunggu'.
    */
    method InsertPrescription(filename: string, createdAt: string, status: Option<string>) returns (id: nat)
      requires Valid()
      modifies this`prescriptions, this`nextPrescriptionId
      ensures Valid()
      ensures id == old(nextPrescriptionId) && nextPrescriptionId == old(nextPrescriptionId) + 1
      ensures prescriptions == old(prescriptions)
                + [PrescriptionRow(id, filename, createdAt, if status.Some? then status.value else DefaultStatus)]
      ensures forall i :: 0 <= i < |old(prescriptions)| ==> old(prescriptions)[i].id != id
    {
      id := nextPrescriptionId;
      prescriptions := prescriptions + [PrescriptionRow(id, filename, createdAt, if status.Some? then status.value else DefaultStatus)];
      nextPrescriptionId := nextPrescriptionId + 1;
    }

    /**
      The table work of `doctor_prescription_ui`: finds the doctor and the
      patient holding the queue number, names the document, lays out the
      item lines and records the document with status 'Menunggu'.
    */
    method IssuePrescription(doctorId: int, queueNumber: string, items: seq<Item>, createdAt: string)
      returns (r: Result<PrescriptionDocument, Error>)
      requires Valid()
      modifies this`prescriptions, this`nextPrescriptionId
      ensures Valid()
      ensures FindDoctor(users, doctorId).None? ==> r == Failure(DoctorNotFound)
      ensures FindDoctor(users, doctorId).Some? && PatientForQueueNumber(users, queue, queueNumber).None? ==>
                r == Failure(PatientNotFound)
      ensures FindDoctor(users, doctorId).Some? && PatientForQueueNumber(users, queue, queueNumber).Some?
              && PatientForQueueNumber(users, queue, queueNumber).value.profile.patientName.None? ==>
                r == Failure(PatientNameMissing)
      ensures FindDoctor(users, doctorId).Some? && PatientForQueueNumber(users, queue, queueNumber).Some?
              && PatientForQueueNumber(users, queue, queueNumber).value.profile.patientName.Some? ==>
                r.Success?
      ensures r.Failure? ==> prescriptions == old(prescriptions) && nextPrescriptionId == old(nextPrescriptionId)
      ensures r.Success? ==>
                && FindDoctor(users, doctorId) == Some(r.value.doctor)
                && PatientForQueueNumber(users, queue, queueNumber) == Some(r.value.patient)
                && r.value.patient.profile.patientName.Some?
                && r.value.filename == PdfFilename(r.value.patient.profile.patientName.value, queueNumber)
                && |r.value.itemLines| == 2 * |items|
                && (forall k :: 0 <= k < |items| ==>
                      r.value.itemLines[2 * k] == RecipeLine(items[k]) && r.value.itemLines[2 * k + 1] == SignaLine(items[k]))
                && prescriptions == old(prescriptions)
                     + [PrescriptionRow(old(nextPrescriptionId), r.value.filename, createdAt, DefaultStatus)]
                && nextPrescriptionId == old(nextPrescriptionId) + 1
    {
      var doctor := FindDoctor(users, doctorId);
      if doctor.None? {
        return Failure(DoctorNotFound);
      }
      var patient := PatientForQueueNumber(users, queue, queueNumber);
      if patient.None? {
        return Failure(PatientNotFound);
      }
      var patientName := patient.value.profile.patientName;
      if patientName.None? {
        return Failure(PatientNameMissing);
      }
      var lines := DetailLines(items);
      var filename := PdfFilename(patientName.value, queueNumber);
      var _ := InsertPrescription(filename, createdAt, Some(DefaultStatus));
      r := Success(PrescriptionDocument(doctor.value, patient.value, lines, filename));
    }

    /**
      The pharmacy's status update: reports an unknown id and changes
      nothing, or sets the status of the row with that id.
    */
    method UpdateStatus(id: int, newStatus: string) returns (r: Outcome<Error>)
      requires Valid()
      modifies this`prescriptions
      ensures Valid()
      ensures !HasId(old(prescriptions), id) ==> r == Fail(PrescriptionNotFound) && prescriptions == old(prescriptions)
      ensures HasId(old(prescriptions), id) ==> r == Pass && prescriptions == SetStatus(old(prescriptions), id, newStatus)
    {
      if !HasId(prescriptions, id) {
        return Fail(PrescriptionNotFound);
      }
      SetStatusKeepsIds(prescriptions, nextPrescriptionId, id, newStatus);
      prescriptions := SetStatus(prescriptions, id, newStatus);
      r := Pass;
    }
  }

  /** A document issued for a generated queue number gets a file name without spaces. */
  lemma IssuedFilenameHasNoSpace(patientName: string, ledger: seq<QueueEntry>, doctorId: int)
    ensures ' ' !in PdfFilename(patientName, GenerateQueueNumber(ledger, doctorId))
  {
    var q := GenerateQueueNumber(ledger, doctorId);
    assert q == FormatQueueNumber(doctorId, CountFor(ledger, doctorId) + 1);
  }
}
