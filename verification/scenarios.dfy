/** Concrete runs: a fine seen for the first time, the same fine seen again,
    and a row whose detail fetch fails followed by a good row. */
module Scenarios {
  import opened Optional
  import opened Sequences
  import opened Strings
  import opened Fines
  import opened Effects
  import opened Store
  import opened Listing
  import opened Detail
  import opened Notifier
  import opened Orchestrator
  import opened RunProperties

  const P1 := Fine("P1", "AB123", "2024-01-01", "101", "50", "50", [])

  const DetailHref := "detail.php?id=1"
  const PayHref := "https://mpi.gc.ge/pay?id=1"

  /** A genuine fine row: the detail link first, then the payment link. */
  const FineAnchors := [Anchor(Some(DetailHref)), Anchor(Some(PayHref))]

  const P1Page := Page(
    map[ProtocolLabel := "P1", CarLabel := "AB123", DateLabel := "2024-01-01",
        ViolationLabel := "101", AmountLabel := "50", TotalLabel := "50"],
    [])

  const Accepting := Delivery(true, true, {})

  lemma PayHrefIsPayLink()
    ensures IsPayLink(Anchor(Some(PayHref)))
  {
    assert PayHref[8..17] == PaymentDomain;
    assert PaymentDomain <= PayHref[8..];
  }

  lemma FineRowLink()
    ensures DetailLink(FineAnchors) == Some(DetailHref)
  {
    PayHrefIsPayLink();
    assert IsPayLink(FineAnchors[1]);
    assert FineAnchors[1] in PayLinks(FineAnchors);
  }

  lemma P1PageGivesP1()
    ensures GetDetailedFine(P1Page, "/tmp") == Some(P1)
  {
    var values := P1Page.values;
    assert FieldValue(values, ProtocolLabel) == "P1";
    assert FieldValue(values, CarLabel) == "AB123";
    assert FieldValue(values, DateLabel) == "2024-01-01";
    assert FieldValue(values, ViolationLabel) == "101";
    assert FieldValue(values, AmountLabel) == "50";
    assert FieldValue(values, TotalLabel) == "50";
    assert Filter(P1Page.images, IsEvidence) == [];
  }

  lemma ResultPageIsNotEmpty()
    ensures !NoViolations("Results")
  {
    assert forall i :: 0 <= i <= |"Results"| ==> |"Results"[i..]| < |NoViolationsSentinel|;
  }

  const FineRow := Row(FineAnchors, P1Page, Accepting)

  /** A row with a detail link and a new fine without images, whose two
      messages are accepted, is announced in two messages and appended. */
  lemma DeliveredStep(file: StoreFile, row: Row, tmpDir: string, link: string, f: Fine)
    requires DetailLink(row.anchors) == Some(link)
    requires GetDetailedFine(row.detail, tmpDir) == Some(f)
    requires !AlreadyExists(Load(file), f.protocolNumber)
    requires f.images == [] && row.delivery.textAccepted && row.delivery.numberAccepted
    ensures ProcessRow(file, row, tmpDir)
            == Run(Stored(Load(file) + [f]), [FetchDetail(link), SendText(Message(f)), SendText(f.protocolNumber)], [f], Completed)
  {
    var n := Notify(f, row.delivery);
    assert PhotoEvents(f.images, row.delivery.rejectedPhotos, 0) == [];
    assert n.trace == [SendText(Message(f)), SendText(f.protocolNumber)];
    assert [FetchDetail(link)] + n.trace == [FetchDetail(link), SendText(Message(f)), SendText(f.protocolNumber)];
  }

  lemma NewFineRow()
    ensures ProcessRow(Stored([]), FineRow, "/tmp")
            == Run(Stored([P1]), [FetchDetail(DetailHref), SendText(Message(P1)), SendText("P1")], [P1], Completed)
  {
    FineRowLink();
    P1PageGivesP1();
    assert !AlreadyExists([], "P1");
    DeliveredStep(Stored([]), FineRow, "/tmp", DetailHref, P1);
    assert Load(Stored([])) + [P1] == [P1];
  }

  lemma KnownFineRow()
    ensures ProcessRow(Stored([P1]), FineRow, "/tmp") == Run(Stored([P1]), [FetchDetail(DetailHref)], [], Completed)
  {
    FineRowLink();
    P1PageGivesP1();
    assert AlreadyExists([P1], "P1");
  }

  lemma FailedDetailRow()
    ensures ProcessRow(Stored([]), Row(FineAnchors, PageThrew, Accepting), "/tmp")
            == Run(Stored([]), [FetchDetail(DetailHref)], [], Completed)
  {
    FineRowLink();
  }

  /** An empty store and one new fine: one announcement, one stored record. */
  lemma NewFineIsAnnouncedAndStored()
    ensures FetchFines(Stored([]), Response("Results", [FineRow]), "/tmp")
            == Run(Stored([P1]), [FetchDetail(DetailHref), SendText(Message(P1)), SendText("P1")], [P1], Completed)
  {
    ResultPageIsNotEmpty();
    NewFineRow();
    SingleRow(Stored([]), FineRow, "/tmp");
  }

  /** The fine already stored: nothing is sent and the store is unchanged. */
  lemma StoredFineIsNotAnnouncedAgain()
    ensures FetchFines(Stored([P1]), Response("Results", [FineRow]), "/tmp")
            == Run(Stored([P1]), [FetchDetail(DetailHref)], [], Completed)
  {
    ResultPageIsNotEmpty();
    KnownFineRow();
    SingleRow(Stored([P1]), FineRow, "/tmp");
  }

  /** A detail fetch that throws skips its row; the next row still counts. */
  lemma FailedDetailSkipsOnlyItsRow()
    ensures var rows := [Row(FineAnchors, PageThrew, Accepting), FineRow];
            var r := FetchFines(Stored([]), Response("Results", rows), "/tmp");
            r.notified == [P1] && r.file == Stored([P1]) && r.outcome == Completed
  {
    var rows := [Row(FineAnchors, PageThrew, Accepting), FineRow];
    ResultPageIsNotEmpty();
    FailedDetailRow();
    NewFineRow();
    SingleRow(Stored([]), FineRow, "/tmp");
    assert rows[1..] == [FineRow];
  }
}
