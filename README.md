# Pharmily clinic store, modelled in Dafny

Pharmily is a small clinic application. Patients sign up and choose a
hospital and a doctor, and the system issues them a queue number. A
doctor writes a prescription, which is rendered as a PDF and recorded
with the status `Menunggu` ("waiting"). A pharmacy lists the recorded
prescriptions, newest first, and updates their status.

This project models the application's SQLite store and the string
formatting around it. The store has three tables, `Users`,
`QueueNumber` and `PrescriptionPDF`. Each table has an AUTOINCREMENT id.

- `common.dfy` (module `Common`): `Option`, `Result` and `Outcome`. SQL
  NULL is `None`, and a query's `fetchone` that finds nothing is `None`.
- `text.dfy` (module `Text`): Python's `str(n)`, the `02d` format and a
  parser that inverts them, and `str.replace(' ', '_')`.
- `queue_ledger.dfy` (module `QueueLedger`): the `QueueNumber` rows, the
  per-doctor count, `generate_queue_number`, and the effect of
  `add_queue_number` as a function on the ledger. It also proves that
  numbers issued in sequence are `D-01 .. D-k` and are never repeated.
- `identity.dfy` (module `Identity`): the `Users` row, which profile
  columns each role stores, `authenticate_user`, and the hospital and
  doctor selection queries. These follow SQL semantics: equality never
  holds against NULL.
- `prescriptions.dfy` (module `Prescriptions`): the `PrescriptionPDF` row
  and the status `UPDATE`. It also has the `ORDER BY created_at DESC`
  listing, where text is compared character by character, which is
  SQLite's BINARY collation. Finally it has the PDF file name rule and the
  two text lines written for each prescription item.
- `clinic.dfy` (module `Clinic`): class `Database` holds the three tables
  as sequences, with one id counter per table. Its methods change the
  tables in place: the two `create_user` variants, `add_queue_number`,
  the queue issue step of `pilih_rumah_sakit_dan_dokter`, the prescription
  inserts, and the pharmacy's status update. `Valid()` is the class
  invariant. It requires unique usernames and ids that are positive,
  increasing and below the counter. It also requires a well-issued
  ledger: every entry carries the number generated from the entries
  before it.

Timestamps (`YYYY-MM-DD HH:MM:SS` in Asia/Jakarta time) are parameters.
The prescription items are a parameter too: the source reads them from
the console.

Points of the code's behaviour that the model keeps:
- The default status is `Menunggu`.
- `add_queue_number` returns nothing; the number shown to the patient
  comes from `pilih_rumah_sakit_dan_dokter`.
- The sign-up `create_user` inserts nothing, and reports no error, for a
  role other than `dokter`, `apotek` or `pasien`.
- A queue entry can name a patient whose `patient_name` is NULL. Then
  `doctor_prescription_ui` fails at `patient_name.replace`. The model
  reports this as the error `PatientNameMissing` and records nothing.

## Model

| member | source | states |
|---|---|---|
| `Clinic.Database.constructor` | backend.py:18-62 | `create_tables` on a new database: the three tables are empty, every id counter starts at 1, and the invariant holds |
| `Clinic.Database.CreateUser` | backend.py:70-84 | inserts one row holding the twelve given fields and returns its new id, which no existing row has; an existing username fails with `DuplicateUsername` and leaves Users unchanged |
| `Clinic.Database.SignUp` | streamlit_app.py:61-84 | a recognised role inserts one row with only that role's columns; an unknown role inserts nothing and reports no error; an existing username fails and changes nothing |
| `Identity.StoredProfile` | streamlit_app.py:72-81 | `dokter` keeps the hospital and doctor columns and leaves the patient columns NULL; `apotek` stores no profile column; `pasien` keeps only the patient columns; any other role gives no insert |
| `Identity.AuthenticateUser` | streamlit_app.py:436-440 | returns a row exactly when some row matches username, password and role all at once, and the row returned matches all three; otherwise returns none |
| `Identity.AuthenticateUnique` | streamlit_app.py:20 | because usernames are unique, authentication returns exactly the one row with those credentials |
| `Identity.HospitalNames` | streamlit_app.py:197-200 | lists each doctor's hospital name once, NULL included, and only the hospitals of doctors |
| `Identity.DoctorsAt` | streamlit_app.py:206-211 | the pairs (id, doctor_name) of exactly the doctors of that hospital; an empty list for a NULL hospital or one with no doctors |
| `Identity.DoctorIdFor` | streamlit_app.py:219-225 | an id exactly when a doctor with that name works at that hospital, and the id is such a doctor's; none for NULL arguments |
| `Identity.FindDoctor` | streamlit_app.py:242-251 | a row exactly when some user has that id and role `dokter`, and the row returned is one of them |
| `Identity.ListedDoctorIsFound` | streamlit_app.py:197-227 | a doctor with a hospital and a name is offered in the hospital list and in that hospital's doctor list, and choosing them by name succeeds |
| `Text.NatToDecimal` | backend.py:91 | Python's `str(n)`: at least one digit, all digits, and a leading zero only for 0 |
| `Text.NatToDecimalValue` | backend.py:91 | reading the numeral back gives n |
| `Text.IntToDecimalRoundTrip` | backend.py:91 | `str(doctor_id)` parses back to `doctor_id`, negative ids included |
| `Text.Pad2` | backend.py:91 | the `02d` format: at least two digits, value n, and no leading zero beyond width two |
| `Text.ReplaceSpaces` | streamlit_app.py:293 | same length; every space becomes `_` and every other character is kept |
| `Text.IntToDecimal` | backend.py:91 | Python's `str(i)` for any integer: at least one character, a minus sign first exactly when i is negative, digits everywhere else, and no leading zero (`0` alone is the only numeral starting with `0`, and no `-0`) |
| `QueueLedger.CountFor` | backend.py:89-90 | the doctor's entry count is at most the number of rows |
| `QueueLedger.CountForCountsEntries` | backend.py:89-90 | the count equals the number of ledger positions whose doctor id is the given one |
| `QueueLedger.GenerateQueueNumber` | backend.py:87-91 | the number parses back to (doctor id, count of the doctor's entries + 1); below 10 it is `D-0n` |
| `QueueLedger.GeneratedNumberParts` | backend.py:87-91 | the generated number is the doctor id's numeral, a dash, and the doctor's entry count plus one padded by `02d` |
| `QueueLedger.QueueNumberRoundTrip` | backend.py:91 | parsing `"{doctor_id}-{n:02d}"` returns the doctor id and n |
| `QueueLedger.QueueNumberInjective` | backend.py:91 | two queue numbers are equal exactly when their doctor ids and sequence numbers are |
| `QueueLedger.FormatQueueNumber` | backend.py:91 | the f-string `{doctor_id}-{n:02d}`: at least four characters and no space; QueueNumberRoundTrip shows it parses back to the doctor id and n |
| `QueueLedger.FormatQueueNumberParts` | backend.py:91 | a queue number is exactly the doctor id's numeral, one dash, and n padded by `02d`; with the contracts of IntToDecimal and Pad2 this fixes the text `{doctor_id}-{n:02d}` |
| `QueueLedger.IssuedNumbers` | backend.py:91 | the k numbers `D-01 .. D-k`, position j holding sequence number j+1 |
| `QueueLedger.IssueEffect` | backend.py:93-102 | adding an entry raises that doctor's count by one and appends the generated number to that doctor's numbers; every other doctor's count and numbers are unchanged |
| `QueueLedger.IssueEntry` | backend.py:93-102 | the INSERT of `add_queue_number`: every existing row is kept unchanged and exactly one row is added after them, holding the given id, patient id, doctor id and created_at and the number generated from the rows before it |
| `QueueLedger.IssueKeepsWellIssued` | backend.py:93-102 | adding an entry keeps every entry numbered against the entries before it |
| `QueueLedger.WellIssuedNumbers` | backend.py:87-102 | in a ledger built this way each doctor's numbers are exactly `D-01 .. D-k` in order, with no gap or repeat |
| `QueueLedger.WellIssuedDistinct` | backend.py:87-102 | in a ledger built this way no queue number occurs twice, across all doctors |
| `QueueLedger.IssueManyEffect` | backend.py:87-101 | issuing k entries for one doctor keeps the ledger well issued and raises that doctor's count by k |
| `QueueLedger.SequentialIssue` | backend.py:87-101 | k entries issued in a row for one doctor, from an empty ledger, carry sequence numbers 1..k in order |
| `QueueLedger.FirstNumberOfDoctorOne` | backend.py:87-91 | doctor 1's first queue number is `1-01` |
| `QueueLedger.SecondNumberOfDoctorOne` | backend.py:87-101 | after one entry for doctor 1 the next number is `1-02` |
| `Clinic.Database.AddQueueNumber` | streamlit_app.py:94-104 | appends one entry numbered against the ledger as it stood before the insert, with the next id; the invariant is kept |
| `Clinic.Database.SelectHospitalAndDoctor` | streamlit_app.py:193-235 | fails with `NoDoctorAtHospital` when the hospital has no doctor and with `DoctorNotFound` when the name does not match; both leave the ledger unchanged. Otherwise it issues one entry, and the number it returns is the one the ledger stored |
| `Clinic.PatientForQueueNumber` | streamlit_app.py:254-264 | a user exactly when some queue entry with that number names an existing user id, and the user returned is such an entry's patient |
| `Clinic.PatientLookupDetermined` | streamlit_app.py:254-260 | in a ledger built by sequential issuance the join has one answer: the patient of the entry holding that number |
| `Clinic.Database.InsertPrescription` | backend.py:40-47 | appends one row with the next id; a status left out becomes `Menunggu` |
| `Clinic.Database.IssuePrescription` | streamlit_app.py:239-314 | fails with `DoctorNotFound`, `PatientNotFound` or `PatientNameMissing` and records nothing. When the doctor, the patient and the patient's name are all found it succeeds: it appends one row holding the derived file name, `created_at` and `Menunggu`, and returns a document with the doctor, the patient and two lines per item |
| `Prescriptions.PdfFilename` | streamlit_app.py:293 | the patient name with every space turned to `_` and every other character kept, then `_resep_dokter_`, the queue number and `.pdf`; no space when the queue number has none |
| `Clinic.IssuedFilenameHasNoSpace` | streamlit_app.py:293 | a file name built from a generated queue number contains no space |
| `Prescriptions.DetailLines` | streamlit_app.py:138-147 | exactly two lines per item, in input order: `R/ name, form, container, quantity`, then `S frequency dose notes` |
| `Prescriptions.RecipeLine` | streamlit_app.py:143 | the first line of an item is exactly `R/ `, the drug name, `, `, the dosage form, `, `, the container, `, `, and the quantity, each at its position |
| `Prescriptions.SignaLine` | streamlit_app.py:144 | the second line of an item is exactly `S `, the frequency, a space, the dose, a space, and the notes, each at its position |
| `Clinic.Database.UpdateStatus` | streamlit_app.py:376-388 | an unknown id fails with `PrescriptionNotFound` and changes nothing; otherwise the table becomes the status update of the old table |
| `Prescriptions.SetStatus` | streamlit_app.py:383-386 | same length; rows with that id get the new status with every other field kept, and all other rows are unchanged |
| `Prescriptions.SetStatusChangesOneRow` | streamlit_app.py:383-386 | with unique ids, exactly the addressed row changes, and only its status |
| `Prescriptions.InsertByNewest` | streamlit_app.py:327-336 | placing a row among rows already newest first keeps them newest first, and the result is the old rows plus that row, as a multiset |
| `Prescriptions.TextLeIsLexicographic` | streamlit_app.py:333 | the text order used for `ORDER BY created_at` (SQLite's BINARY collation): a is at most b exactly when a is a prefix of b or a has the smaller character at the first position where they differ |
| `Prescriptions.ListByNewest` | streamlit_app.py:327-336 | the listing holds every row exactly once (a permutation) with `created_at` non-increasing |
| `Prescriptions.NewestRecordListedFirst` | streamlit_app.py:327-336 | a record created strictly after all others is listed first |

## Left out

- The Streamlit user interface is not modelled: `st.*` widgets and
  messages, `user_signup`, `user_login` and `main`. It only collects
  input and displays results. The patient's hospital and doctor choices
  are parameters of `SelectHospitalAndDoctor`.
- The calls `create_user(conn, username, ...)` in `user_signup`
  (streamlit_app.py:419, 429) do not match that file's signature, which
  starts with `username`. They belong to the interface and are not
  modelled.
- The FPDF layout is not modelled: fonts, positions, cells, rules, and
  the header, date/location, patient-information and footer blocks. Only
  the text of the two item lines is kept: the PDF is drawn by a
  third-party renderer.
- Console input is not modelled (`input_prescriptions` and the location
  prompt of `add_date_and_location`). The items are a parameter instead.
- File-system work is not modelled: creating the database file,
  `os.makedirs`, `pdf.output`, reading PDFs for download, and the
  `os.path.exists` checks. This also covers the dashboard's "No PDF" text
  for an empty file name, which is display only.
- Clock reads (`datetime.now` in Asia/Jakarta) are left out. Timestamps
  are parameters.
- The `sqlite_master` table-existence checks are not modelled
  (`create_user` in streamlit_app.py, `check_table_exists`). In the model
  the tables always exist.
- The count-then-insert race in `add_queue_number` is not represented:
  the model is sequential, so generating a number and inserting it happen
  as one step.
- The NOT NULL constraints are not modelled: username, password and role
  of Users; `pdf_filename`, `created_at` and `status` of PrescriptionPDF;
  and `patient_id`, `doctor_id`, `queue_number` and `created_at` of
  QueueNumber. These columns are Dafny strings or integers, which cannot
  be NULL.
- SQLite does not fix the row order of `fetchone`, `DISTINCT` or a join
  without ORDER BY. The model uses table order. Rows with equal
  `created_at` may come in any order, so `ListByNewest` promises only a
  non-increasing order.
- Transactions and `commit` are not modelled: each operation is one
  atomic step.
- The console `print` messages (backend.py:103, streamlit_app.py:84 and
  streamlit_app.py:104) are output only and are not modelled.
- The `FOREIGN KEY` clauses of QueueNumber (streamlit_app.py:53-54) are not
  enforced: the source never issues `PRAGMA foreign_keys=ON`, so SQLite
  accepts any patient or doctor id, and so does the model.
- IssuePrescription: assumes that the FPDF rendering and `pdf.output`
  (streamlit_app.py:295) succeed. If either raises, the source records
  nothing, and the model does not represent that failure.
