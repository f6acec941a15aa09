/**
  The QueueNumber table: an append-only ledger of issued queue positions,
  and the per-doctor numbering "doctor id, a dash, then the count of the
  doctor's earlier entries plus one, zero-padded to two digits".
*/
module QueueLedger {
  import opened Common
  import opened Text

  /** One row of QueueNumber: id, patient_id, doctor_id, queue_number, created_at. */
  datatype QueueEntry = QueueEntry(id: nat, patientId: int, doctorId: int, queueNumber: string, createdAt: string)

  /** AUTOINCREMENT ids: positive, increasing in insertion order, below the next id to hand out. */
  predicate EntryIdsIncreasing(ledger: seq<QueueEntry>, next: nat) {
    && 1 <= next
    && (forall i :: 0 <= i < |ledger| ==> 1 <= ledger[i].id < next)
    && (forall i, j :: 0 <= i < j < |ledger| ==> ledger[i].id < ledger[j].id)
  }

  /** The number of ledger entries for a doctor, as `generate_queue_number` counts them. */
  function CountFor(ledger: seq<QueueEntry>, doctorId: int): (n: nat)
    ensures n <= |ledger|
  {
    if ledger == [] then 0
    else CountFor(ledger[..|ledger| - 1], doctorId) + (if ledger[|ledger| - 1].doctorId == doctorId then 1 else 0)
  }

  /** The positions of one doctor's entries in the ledger. */
  function EntriesOf(ledger: seq<QueueEntry>, doctorId: int): set<nat> {
    set i: nat | i < |ledger| && ledger[i].doctorId == doctorId
  }

  /** The count is the number of ledger positions holding that doctor's entries. */
  lemma {:induction false} CountForCountsEntries(ledger: seq<QueueEntry>, doctorId: int)
    ensures CountFor(ledger, doctorId) == |EntriesOf(ledger, doctorId)|
  {
    if ledger == [] {
      assert EntriesOf(ledger, doctorId) == {};
    } else {
      var p, last := ledger[..|ledger| - 1], |ledger| - 1;
      CountForCountsEntries(p, doctorId);
      if ledger[last].doctorId == doctorId {
        assert EntriesOf(ledger, doctorId) == EntriesOf(p, doctorId) + {last};
      } else {
        assert EntriesOf(ledger, doctorId) == EntriesOf(p, doctorId);
      }
    }
  }

  /** The queue numbers of one doctor's entries, in the order they were issued. */
  function NumbersFor(ledger: seq<QueueEntry>, doctorId: int): (ns: seq<string>)
    ensures |ns| == CountFor(ledger, doctorId)
  {
    if ledger == [] then []
    else
      NumbersFor(ledger[..|ledger| - 1], doctorId)
      + (if ledger[|ledger| - 1].doctorId == doctorId then [ledger[|ledger| - 1].queueNumber] else [])
  }

  /** A character of a queue number: a decimal digit or a dash. */
  predicate QueueChar(c: char) {
    IsDigit(c) || c == '-'
  }

  /**
    The queue number of the n-th entry of a doctor: the doctor id in
    decimal (a minus sign first when negative), a dash, then n in at least
    two digits. It is at least four characters long and, being made of
    digits and dashes, holds no space.
  */
  function FormatQueueNumber(doctorId: int, n: nat): (q: string)
    ensures |q| >= 4
    ensures ' ' !in q
  {
    var a, p := IntToDecimal(doctorId), Pad2(n);
    JoinedQueueChars(a, p);
    a + "-" + p
  }

  /**
    The parts of a queue number: the doctor id's numeral, then a dash, then
    the padded sequence number. With the contracts of IntToDecimal and Pad2
    this fixes the text `{doctor_id}-{n:02d}` exactly.
  */
  lemma FormatQueueNumberParts(doctorId: int, n: nat)
    ensures var a, q := IntToDecimal(doctorId), FormatQueueNumber(doctorId, n);
      |q| == |a| + 1 + |Pad2(n)| && q[..|a|] == a && q[|a|] == '-' && q[|a| + 1..] == Pad2(n)
  {
    JoinedQueueChars(IntToDecimal(doctorId), Pad2(n));
  }

  /** Joining a numeral and a padded number with a dash yields digits and dashes only. */
  lemma JoinedQueueChars(a: string, p: string)
    requires |a| >= 1 && forall j :: 0 <= j < |a| ==> QueueChar(a[j])
    requires AllDigits(p)
    ensures var q := a + "-" + p;
      ' ' !in q && q[..|a|] == a && q[|a|] == '-' && q[|a| + 1..] == p
  {
    var q := a + "-" + p;
    forall j | 0 <= j < |q| ensures QueueChar(q[j]) {
      if j < |a| {
        assert q[j] == a[j];
      } else if j > |a| {
        assert q[j] == p[j - |a| - 1];
      }
    }
    assert q[..|a|] == a && q[|a| + 1..] == p;
    assert !QueueChar(' ');
  }

  /** Index of the first dash at or after position i, or |s| if there is none. */
  function DashFrom(s: string, i: nat): (k: nat)
    requires i <= |s|
    ensures i <= k <= |s|
    ensures k < |s| ==> s[k] == '-'
    ensures forall j :: i <= j < k ==> s[j] != '-'
    decreases |s| - i
  {
    if i == |s| then |s| else if s[i] == '-' then i else DashFrom(s, i + 1)
  }

  /** Reads a queue number back into its doctor id and sequence number. */
  function ParseQueueNumber(q: string): Option<(int, nat)> {
    if |q| == 0 then None
    else
      var k := DashFrom(q, 1);
      if k == |q| then None
      else
        match ParseInt(q[..k])
        case None => None
        case Some(d) =>
          if |q[k + 1..]| >= 2 && AllDigits(q[k + 1..]) then Some((d, DecimalValue(q[k + 1..]))) else None
  }

  lemma {:induction false} DashFromAt(s: string, i: nat, k: nat)
    requires i <= k < |s| && s[k] == '-'
    requires forall j :: i <= j < k ==> s[j] != '-'
    ensures DashFrom(s, i) == k
    decreases k - i
  {
    if i < k {
      DashFromAt(s, i + 1, k);
    }
  }

  /** Parsing undoes formatting: the queue number determines doctor and position. */
  lemma QueueNumberRoundTrip(doctorId: int, n: nat)
    ensures ParseQueueNumber(FormatQueueNumber(doctorId, n)) == Some((doctorId, n))
  {
    var a := IntToDecimal(doctorId);
    var q := FormatQueueNumber(doctorId, n);
    forall j | 1 <= j < |a| ensures q[j] != '-' {
      assert q[j] == a[j];
    }
    DashFromAt(q, 1, |a|);
    assert q[..|a|] == a;
    assert q[|a| + 1..] == Pad2(n);
    IntToDecimalRoundTrip(doctorId);
  }

  /** Two queue numbers are equal exactly when doctor and position are. */
  lemma QueueNumberInjective(d1: int, n1: nat, d2: int, n2: nat)
    ensures FormatQueueNumber(d1, n1) == FormatQueueNumber(d2, n2) <==> d1 == d2 && n1 == n2
  {
    QueueNumberRoundTrip(d1, n1);
    QueueNumberRoundTrip(d2, n2);
  }

  /**
    `generate_queue_number`: the doctor's next queue number, one past the
    number of entries the ledger already holds for that doctor.
  */
  function GenerateQueueNumber(ledger: seq<QueueEntry>, doctorId: int): (q: string)
    ensures ParseQueueNumber(q) == Some((doctorId, CountFor(ledger, doctorId) + 1))
    ensures CountFor(ledger, doctorId) + 1 < 10 ==>
              q == IntToDecimal(doctorId) + "-0" + [DigitChar(CountFor(ledger, doctorId) + 1)]
  {
    QueueNumberRoundTrip(doctorId, CountFor(ledger, doctorId) + 1);
    FormatQueueNumber(doctorId, CountFor(ledger, doctorId) + 1)
  }

  /**
    The generated number is the doctor id's numeral, a dash, and the count
    of the doctor's entries plus one, padded to two digits.
  */
  lemma GeneratedNumberParts(ledger: seq<QueueEntry>, doctorId: int)
    ensures var a, p, q := IntToDecimal(doctorId), Pad2(CountFor(ledger, doctorId) + 1), GenerateQueueNumber(ledger, doctorId);
      |q| == |a| + 1 + |p| && q[..|a|] == a && q[|a|] == '-' && q[|a| + 1..] == p
  {
    FormatQueueNumberParts(doctorId, CountFor(ledger, doctorId) + 1);
  }

  /** `add_queue_number`: the ledger with one more entry, numbered against the ledger before it. */
  function IssueEntry(ledger: seq<QueueEntry>, id: nat, patientId: int, doctorId: int, createdAt: string): (l: seq<QueueEntry>)
    ensures |l| == |ledger| + 1 && l[..|ledger|] == ledger
    ensures l[|ledger|].id == id && l[|ledger|].patientId == patientId && l[|ledger|].doctorId == doctorId
    ensures l[|ledger|].createdAt == createdAt && l[|ledger|].queueNumber == GenerateQueueNumber(ledger, doctorId)
  {
    var l := ledger + [QueueEntry(id, patientId, doctorId, GenerateQueueNumber(ledger, doctorId), createdAt)];
    assert l[..|ledger|] == ledger;
    l
  }

  /** Entry i carries the number generated from the entries before it. */
  predicate IssuedAt(ledger: seq<QueueEntry>, i: nat)
    requires i < |ledger|
  {
    ledger[i].queueNumber == GenerateQueueNumber(ledger[..i], ledger[i].doctorId)
  }

  /** Every entry carries the number generated from the entries before it. */
  predicate WellIssued(ledger: seq<QueueEntry>) {
    forall i :: 0 <= i < |ledger| ==> IssuedAt(ledger, i)
  }

  /** The doctor's first k queue numbers: `D-01`, `D-02`, ..., in order. */
  function IssuedNumbers(doctorId: int, k: nat): (ns: seq<string>)
    ensures |ns| == k
    ensures forall j :: 0 <= j < k ==> ns[j] == FormatQueueNumber(doctorId, j + 1)
  {
    if k == 0 then []
    else
      var earlier := IssuedNumbers(doctorId, k - 1);
      ExtendIssued(earlier, doctorId, k);
      earlier + [FormatQueueNumber(doctorId, k)]
  }

  lemma ExtendIssued(earlier: seq<string>, doctorId: int, k: nat)
    requires 1 <= k && |earlier| == k - 1
    requires forall j :: 0 <= j < k - 1 ==> earlier[j] == FormatQueueNumber(doctorId, j + 1)
    ensures var all := earlier + [FormatQueueNumber(doctorId, k)];
      forall j :: 0 <= j < k ==> all[j] == FormatQueueNumber(doctorId, j + 1)
  {
    var all := earlier + [FormatQueueNumber(doctorId, k)];
    forall j | 0 <= j < k ensures all[j] == FormatQueueNumber(doctorId, j + 1) {
      if j < k - 1 {
        assert all[j] == earlier[j];
      }
    }
  }

  lemma CountPrefixStep(ledger: seq<QueueEntry>, i: nat, doctorId: int)
    requires i < |ledger|
    ensures CountFor(ledger[..i + 1], doctorId) == CountFor(ledger[..i], doctorId) + (if ledger[i].doctorId == doctorId then 1 else 0)
  {
    assert ledger[..i + 1][..i] == ledger[..i];
  }

  lemma {:induction false} CountPrefixMonotone(ledger: seq<QueueEntry>, a: nat, b: nat, doctorId: int)
    requires a <= b <= |ledger|
    ensures CountFor(ledger[..a], doctorId) <= CountFor(ledger[..b], doctorId)
    decreases b - a
  {
    if a < b {
      CountPrefixMonotone(ledger, a, b - 1, doctorId);
      CountPrefixStep(ledger, b - 1, doctorId);
    }
  }

  /**
    Issuing an entry raises the issuing doctor's count by exactly one and
    appends the generated number to that doctor's numbers; every other
    doctor's count and numbers are unchanged.
  */
  lemma IssueEffect(ledger: seq<QueueEntry>, id: nat, patientId: int, doctorId: int, createdAt: string, other: int)
    ensures CountFor(IssueEntry(ledger, id, patientId, doctorId, createdAt), other)
            == CountFor(ledger, other) + (if other == doctorId then 1 else 0)
    ensures NumbersFor(IssueEntry(ledger, id, patientId, doctorId, createdAt), other)
            == NumbersFor(ledger, other) + (if other == doctorId then [GenerateQueueNumber(ledger, doctorId)] else [])
  {
    var r := IssueEntry(ledger, id, patientId, doctorId, createdAt);
    assert r[..|r| - 1] == ledger;
  }

  lemma IssueKeepsWellIssued(ledger: seq<QueueEntry>, id: nat, patientId: int, doctorId: int, createdAt: string)
    requires WellIssued(ledger)
    ensures WellIssued(IssueEntry(ledger, id, patientId, doctorId, createdAt))
  {
    var r := IssueEntry(ledger, id, patientId, doctorId, createdAt);
    forall i | 0 <= i < |r| ensures IssuedAt(r, i) {
      assert r[..i] == ledger[..i];
      if i < |ledger| {
        assert IssuedAt(ledger, i);
      }
    }
  }

  lemma IssueKeepsIds(ledger: seq<QueueEntry>, next: nat, patientId: int, doctorId: int, createdAt: string)
    requires EntryIdsIncreasing(ledger, next)
    ensures EntryIdsIncreasing(IssueEntry(ledger, next, patientId, doctorId, createdAt), next + 1)
  {
    var r := IssueEntry(ledger, next, patientId, doctorId, createdAt);
    assert r == ledger + [r[|ledger|]];
    AppendKeepsIds(ledger, next, r[|ledger|]);
  }

  lemma AppendKeepsIds(ledger: seq<QueueEntry>, next: nat, e: QueueEntry)
    requires EntryIdsIncreasing(ledger, next) && e.id == next
    ensures EntryIdsIncreasing(ledger + [e], next + 1)
  {
  }

  lemma WellIssuedPrefix(ledger: seq<QueueEntry>)
    requires WellIssued(ledger) && ledger != []
    ensures WellIssued(ledger[..|ledger| - 1])
  {
    var p := ledger[..|ledger| - 1];
    forall i | 0 <= i < |p| ensures IssuedAt(p, i) {
      assert p[..i] == ledger[..i];
      assert IssuedAt(ledger, i);
    }
  }

  /** In a well-issued ledger, each doctor's numbers are exactly D-01 .. D-k, with no gap or repeat. */
  lemma {:induction false} WellIssuedNumbers(ledger: seq<QueueEntry>, doctorId: int)
    requires WellIssued(ledger)
    ensures NumbersFor(ledger, doctorId) == IssuedNumbers(doctorId, CountFor(ledger, doctorId))
  {
    if ledger != [] {
      var p := ledger[..|ledger| - 1];
      var e := ledger[|ledger| - 1];
      WellIssuedPrefix(ledger);
      WellIssuedNumbers(p, doctorId);
      if e.doctorId == doctorId {
        assert ledger[..|p|] == p;
        assert IssuedAt(ledger, |p|);
        assert e.queueNumber == FormatQueueNumber(doctorId, CountFor(p, doctorId) + 1);
      }
    }
  }

  /** In a well-issued ledger no queue number occurs twice, across all doctors. */
  lemma WellIssuedDistinct(ledger: seq<QueueEntry>)
    requires WellIssued(ledger)
    ensures forall i, j :: 0 <= i < j < |ledger| ==> ledger[i].queueNumber != ledger[j].queueNumber
  {
    forall i, j | 0 <= i < j < |ledger| ensures ledger[i].queueNumber != ledger[j].queueNumber {
      var a, b := ledger[i], ledger[j];
      var ca, cb := CountFor(ledger[..i], a.doctorId), CountFor(ledger[..j], b.doctorId);
      assert IssuedAt(ledger, i) && IssuedAt(ledger, j);
      if a.doctorId == b.doctorId {
        CountPrefixStep(ledger, i, a.doctorId);
        CountPrefixMonotone(ledger, i + 1, j, a.doctorId);
        assert ca < cb;
      }
      QueueNumberInjective(a.doctorId, ca + 1, b.doctorId, cb + 1);
    }
  }

  /** Issuing one entry per patient, in order, for a single doctor. */
  function IssueMany(ledger: seq<QueueEntry>, firstId: nat, doctorId: int, patients: seq<int>, times: seq<string>): seq<QueueEntry>
    requires |patients| == |times|
    decreases |patients|
  {
    if patients == [] then ledger
    else IssueMany(IssueEntry(ledger, firstId, patients[0], doctorId, times[0]), firstId + 1, doctorId, patients[1..], times[1..])
  }

  lemma {:induction false} IssueManyEffect(ledger: seq<QueueEntry>, firstId: nat, doctorId: int, patients: seq<int>, times: seq<string>)
    requires |patients| == |times| && WellIssued(ledger)
    ensures WellIssued(IssueMany(ledger, firstId, doctorId, patients, times))
    ensures CountFor(IssueMany(ledger, firstId, doctorId, patients, times), doctorId) == CountFor(ledger, doctorId) + |patients|
    decreases |patients|
  {
    if patients != [] {
      var next := IssueEntry(ledger, firstId, patients[0], doctorId, times[0]);
      IssueKeepsWellIssued(ledger, firstId, patients[0], doctorId, times[0]);
      IssueEffect(ledger, firstId, patients[0], doctorId, times[0], doctorId);
      IssueManyEffect(next, firstId + 1, doctorId, patients[1..], times[1..]);
    }
  }

  /**
    Issuing k entries in a row for one doctor, starting from an empty
    ledger, yields that doctor's numbers D-01 .. D-k in order.
  */
  lemma SequentialIssue(firstId: nat, doctorId: int, patients: seq<int>, times: seq<string>)
    requires |patients| == |times|
    ensures NumbersFor(IssueMany([], firstId, doctorId, patients, times), doctorId) == IssuedNumbers(doctorId, |patients|)
  {
    IssueManyEffect([], firstId, doctorId, patients, times);
    WellIssuedNumbers(IssueMany([], firstId, doctorId, patients, times), doctorId);
  }

  lemma FormatSmallNumbers()
    ensures FormatQueueNumber(1, 1) == "1-01" && FormatQueueNumber(1, 2) == "1-02"
  {
    assert DigitChar(1) == '1' && DigitChar(2) == '2';
    assert IntToDecimal(1) == "1";
    assert Pad2(1) == "01" && Pad2(2) == "02";
  }

  lemma NumberAfterOneEntry(ledger: seq<QueueEntry>)
    requires CountFor(ledger, 1) == 1
    ensures GenerateQueueNumber(ledger, 1) == "1-02"
  {
    FormatSmallNumbers();
  }

  /** Doctor 1's first patient receives `1-01`. */
  lemma FirstNumberOfDoctorOne()
    ensures GenerateQueueNumber([], 1) == "1-01"
  {
    FormatSmallNumbers();
  }

  /** After one entry for doctor 1, the next patient receives `1-02`. */
  lemma SecondNumberOfDoctorOne(patient: int, createdAt: string)
    ensures GenerateQueueNumber(IssueEntry([], 1, patient, 1, createdAt), 1) == "1-02"
  {
    IssueEffect([], 1, patient, 1, createdAt, 1);
    NumberAfterOneEntry(IssueEntry([], 1, patient, 1, createdAt));
  }
}
