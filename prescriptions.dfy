/**
  The PrescriptionPDF table (a filename, its creation time and a free-text
  status per issued document), the pharmacy's newest-first listing of it,
  and the text the prescription document carries for each item.
*/
module Prescriptions {
  import opened Text

  /** The schema default of PrescriptionPDF.status ("waiting"). */
  const DefaultStatus: string := "Menunggu"

  /** One row of PrescriptionPDF: id, pdf_filename, created_at, status. */
  datatype PrescriptionRow = PrescriptionRow(id: nat, pdfFilename: string, createdAt: string, status: string)

  /** AUTOINCREMENT ids: positive, increasing in insertion order, below the next id to hand out. */
  predicate RowIdsIncreasing(rows: seq<PrescriptionRow>, next: nat) {
    && 1 <= next
    && (forall i :: 0 <= i < |rows| ==> 1 <= rows[i].id < next)
    && (forall i, j :: 0 <= i < j < |rows| ==> rows[i].id < rows[j].id)
  }

  /** Some row has that id (the pharmacy's existence check before an update). */
  predicate HasId(rows: seq<PrescriptionRow>, id: int) {
    exists i :: 0 <= i < |rows| && rows[i].id == id
  }

  /** The status update: every row with that id takes the new status. */
  function SetStatus(rows: seq<PrescriptionRow>, id: int, status: string): (r: seq<PrescriptionRow>)
    ensures |r| == |rows|
    ensures forall i :: 0 <= i < |rows| ==> r[i] == (if rows[i].id == id then rows[i].(status := status) else rows[i])
  {
    if rows == [] then []
    else [if rows[0].id == id then rows[0].(status := status) else rows[0]] + SetStatus(rows[1..], id, status)
  }

  lemma SetStatusKeepsIds(rows: seq<PrescriptionRow>, next: nat, id: int, status: string)
    requires RowIdsIncreasing(rows, next)
    ensures RowIdsIncreasing(SetStatus(rows, id, status), next)
  {
    var r := SetStatus(rows, id, status);
    assert forall i :: 0 <= i < |rows| ==> r[i].id == rows[i].id;
  }

  /** With unique ids, the status update changes the status of one row and nothing else. */
  lemma SetStatusChangesOneRow(rows: seq<PrescriptionRow>, next: nat, k: nat, status: string)
    requires RowIdsIncreasing(rows, next) && k < |rows|
    ensures SetStatus(rows, rows[k].id, status)[k] == rows[k].(status := status)
    ensures forall i :: 0 <= i < |rows| && i != k ==> SetStatus(rows, rows[k].id, status)[i] == rows[i]
  {
    var r := SetStatus(rows, rows[k].id, status);
    forall i | 0 <= i < |rows| && i != k ensures r[i] == rows[i] {
      assert rows[i].id != rows[k].id by {
        if i < k {
          assert rows[i].id < rows[k].id;
        } else {
          assert rows[k].id < rows[i].id;
        }
      }
    }
  }

  /** Text comparison under SQLite's BINARY collation: lexicographic by character. */
  predicate TextLe(a: string, b: string)
    decreases |a|
  {
    a == [] || (b != [] && (a[0] < b[0] || (a[0] == b[0] && TextLe(a[1..], b[1..]))))
  }

  /** a and b agree before position k, and at k the character of a is the smaller one. */
  predicate BelowAt(a: string, b: string, k: nat) {
    k < |a| && k < |b| && a[..k] == b[..k] && a[k] < b[k]
  }

  /**
    TextLe is lexicographic order: a is a prefix of b, or a is smaller at
    the first position where the two differ.
  */
  lemma {:induction false} TextLeIsLexicographic(a: string, b: string)
    ensures TextLe(a, b) <==> a <= b || exists k :: BelowAt(a, b, k)
    decreases |a|
  {
    if a == [] {
    } else if b == [] {
    } else if a[0] < b[0] {
      assert BelowAt(a, b, 0);
    } else if a[0] == b[0] {
      TextLeIsLexicographic(a[1..], b[1..]);
      assert a <= b <==> a[1..] <= b[1..] by {
        assert a == [a[0]] + a[1..] && b == [b[0]] + b[1..];
      }
      forall k: nat | BelowAt(a[1..], b[1..], k) ensures BelowAt(a, b, k + 1) {
        assert a[..k + 1] == [a[0]] + a[1..][..k];
        assert b[..k + 1] == [b[0]] + b[1..][..k];
      }
      forall k: nat | BelowAt(a, b, k) ensures k >= 1 && BelowAt(a[1..], b[1..], k - 1) {
        assert a[1..][..k - 1] == a[..k][1..];
        assert b[1..][..k - 1] == b[..k][1..];
      }
    } else {
      assert forall k: nat :: 0 < k <= |a| && k <= |b| ==> a[..k][0] == a[0] && b[..k][0] == b[0];
    }
  }

  lemma {:induction false} TextLeReflexive(a: string)
    ensures TextLe(a, a)
    decreases |a|
  {
    if a != [] {
      TextLeReflexive(a[1..]);
    }
  }

  lemma {:induction false} TextLeTotal(a: string, b: string)
    ensures TextLe(a, b) || TextLe(b, a)
    decreases |a|
  {
    if a != [] && b != [] && a[0] == b[0] {
      TextLeTotal(a[1..], b[1..]);
    }
  }

  lemma {:induction false} TextLeTransitive(a: string, b: string, c: string)
    ensures TextLe(a, b) && TextLe(b, c) ==> TextLe(a, c)
    decreases |a|
  {
    if a != [] && b != [] && c != [] && a[0] == b[0] && b[0] == c[0] {
      TextLeTransitive(a[1..], b[1..], c[1..]);
    }
  }

  lemma {:induction false} TextLeAntisymmetric(a: string, b: string)
    ensures TextLe(a, b) && TextLe(b, a) ==> a == b
    decreases |a|
  {
    if a != [] && b != [] && a[0] == b[0] {
      TextLeAntisymmetric(a[1..], b[1..]);
      assert a == [a[0]] + a[1..] && b == [b[0]] + b[1..];
    }
  }

  /** Newest first: creation times never increase along the sequence. */
  predicate NewestFirst(rows: seq<PrescriptionRow>) {
    forall i, j :: 0 <= i < j < |rows| ==> TextLe(rows[j].createdAt, rows[i].createdAt)
  }

  predicate NoNewerThan(rows: seq<PrescriptionRow>, t: string) {
    forall i :: 0 <= i < |rows| ==> TextLe(rows[i].createdAt, t)
  }

  lemma NoNewerThanPermutation(a: seq<PrescriptionRow>, b: seq<PrescriptionRow>, t: string)
    requires multiset(a) == multiset(b) && NoNewerThan(a, t)
    ensures NoNewerThan(b, t)
  {
    forall i | 0 <= i < |b| ensures TextLe(b[i].createdAt, t) {
      assert b[i] in multiset(a);
      var k :| 0 <= k < |a| && a[k] == b[i];
    }
  }

  lemma ConsNewestFirst(x: PrescriptionRow, rows: seq<PrescriptionRow>)
    requires NewestFirst(rows) && NoNewerThan(rows, x.createdAt)
    ensures NewestFirst([x] + rows)
  {
    var r := [x] + rows;
    forall i, j | 0 <= i < j < |r| ensures TextLe(r[j].createdAt, r[i].createdAt) {
      if i > 0 {
        assert r[i] == rows[i - 1] && r[j] == rows[j - 1];
      } else {
        assert r[j] == rows[j - 1];
      }
    }
  }

  /** Places a row among rows already listed newest first. */
  function InsertByNewest(row: PrescriptionRow, rows: seq<PrescriptionRow>): (r: seq<PrescriptionRow>)
    requires NewestFirst(rows)
    ensures NewestFirst(r)
    ensures multiset(r) == multiset(rows) + multiset{row}
  {
    if rows == [] then [row]
    else if TextLe(rows[0].createdAt, row.createdAt) then
      assert NoNewerThan(rows, row.createdAt) by {
        forall i | 0 <= i < |rows| ensures TextLe(rows[i].createdAt, row.createdAt) {
          TextLeReflexive(rows[0].createdAt);
          TextLeTransitive(rows[i].createdAt, rows[0].createdAt, row.createdAt);
        }
      }
      ConsNewestFirst(row, rows);
      [row] + rows
    else
      var head, tail := rows[0], rows[1..];
      var placed := InsertByNewest(row, tail);
      assert NoNewerThan(tail + [row], head.createdAt) by {
        TextLeTotal(head.createdAt, row.createdAt);
        forall i | 0 <= i < |tail| ensures TextLe(tail[i].createdAt, head.createdAt) {
          assert tail[i] == rows[i + 1];
        }
      }
      NoNewerThanPermutation(tail + [row], placed, head.createdAt);
      ConsNewestFirst(head, placed);
      assert rows == [head] + tail;
      [head] + placed
  }

  /**
    The pharmacy dashboard's listing, sorted by creation time in
    descending order: every row exactly once, newest first.
  */
  function ListByNewest(rows: seq<PrescriptionRow>): (r: seq<PrescriptionRow>)
    ensures NewestFirst(r)
    ensures multiset(r) == multiset(rows)
    ensures |r| == |rows|
  {
    if rows == [] then []
    else
      assert rows == [rows[0]] + rows[1..];
      InsertByNewest(rows[0], ListByNewest(rows[1..]))
  }

  /** A record created strictly after every other is listed first. */
  lemma NewestRecordListedFirst(rows: seq<PrescriptionRow>, row: PrescriptionRow)
    requires forall i :: 0 <= i < |rows| ==> TextLe(rows[i].createdAt, row.createdAt) && rows[i].createdAt != row.createdAt
    ensures ListByNewest(rows + [row])[0] == row
  {
    var r := ListByNewest(rows + [row]);
    assert row in multiset(rows + [row]);
    var k :| 0 <= k < |r| && r[k] == row;
    var x := r[0];
    TextLeReflexive(row.createdAt);
    assert TextLe(row.createdAt, x.createdAt);
    TextLeAntisymmetric(x.createdAt, row.createdAt);
    assert x in multiset(rows + [row]);
    assert x in rows ==> TextLe(x.createdAt, row.createdAt) && x.createdAt != row.createdAt;
  }

  /** One prescription item as the doctor enters it. */
  datatype Item = Item(
    drugName: string,     // nama obat
    dosageForm: string,   // bentuk sediaan
    container: string,    // wadah penyimpanan
    quantity: string,     // jumlah obat, in Roman numerals
    frequency: string,    // frekuensi
    dose: string,         // takaran
    notes: string)        // keterangan

  /** The first text line of an item: `R/ name, form, container, quantity`. */
  function RecipeLine(item: Item): (r: string)
    ensures var d, f, c, q := |item.drugName|, |item.dosageForm|, |item.container|, |item.quantity|;
      && |r| == 9 + d + f + c + q
      && r[..3] == "R/ "
      && r[3..3 + d] == item.drugName
      && r[3 + d..5 + d] == ", "
      && r[5 + d..5 + d + f] == item.dosageForm
      && r[5 + d + f..7 + d + f] == ", "
      && r[7 + d + f..7 + d + f + c] == item.container
      && r[7 + d + f + c..9 + d + f + c] == ", "
      && r[9 + d + f + c..] == item.quantity
  {
    "R/ " + item.drugName + ", " + item.dosageForm + ", " + item.container + ", " + item.quantity
  }

  /** The second text line of an item: `S frequency dose notes`. */
  function SignaLine(item: Item): (r: string)
    ensures var f, d, n := |item.frequency|, |item.dose|, |item.notes|;
      && |r| == 4 + f + d + n
      && r[..2] == "S "
      && r[2..2 + f] == item.frequency
      && r[2 + f] == ' '
      && r[3 + f..3 + f + d] == item.dose
      && r[3 + f + d] == ' '
      && r[4 + f + d..] == item.notes
  {
    "S " + item.frequency + " " + item.dose + " " + item.notes
  }

  /**
    The text lines `add_prescription_details` writes: two per item, the
    recipe line and then the signa line, items in input order.
  */
  method DetailLines(items: seq<Item>) returns (lines: seq<string>)
    ensures |lines| == 2 * |items|
    ensures forall k :: 0 <= k < |items| ==> lines[2 * k] == RecipeLine(items[k]) && lines[2 * k + 1] == SignaLine(items[k])
  {
    lines := [];
    for n := 0 to |items|
      invariant |lines| == 2 * n
      invariant forall k :: 0 <= k < n ==> lines[2 * k] == RecipeLine(items[k]) && lines[2 * k + 1] == SignaLine(items[k])
    {
      lines := lines + [RecipeLine(items[n]), SignaLine(items[n])];
    }
  }

  const FilenameInfix: string := "_resep_dokter_"

  /**
    The document's file name: the patient's name with spaces turned into
    underscores, `_resep_dokter_`, the queue number, `.pdf`.
  */
  function PdfFilename(patientName: string, queueNumber: string): (f: string)
    ensures |f| == |patientName| + |FilenameInfix| + |queueNumber| + 4
    ensures forall i :: 0 <= i < |patientName| ==> f[i] == (if patientName[i] == ' ' then '_' else patientName[i])
    ensures f[|patientName|..|patientName| + |FilenameInfix|] == FilenameInfix
    ensures f[|patientName| + |FilenameInfix|..|f| - 4] == queueNumber
    ensures f[|f| - 4..] == ".pdf"
    ensures ' ' !in queueNumber ==> ' ' !in f
  {
    ReplaceSpaces(patientName) + FilenameInfix + queueNumber + ".pdf"
  }
}
