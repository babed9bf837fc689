/** `getDetailedFine`: one fine's detail page turned into a `Fine`, with its
    evidence photos downloaded to temporary files. */
module Detail {
  import opened Optional
  import opened Sequences
  import opened Strings
  import opened Fines

  const ProtocolLabel := "Protocol number:"
  const CarLabel := "Car state number:"
  const DateLabel := "Date:"
  const ViolationLabel := "Violation code:"
  const AmountLabel := "Amount:"
  const TotalLabel := "Total amount:"

  /** Evidence photos are the images whose `src` starts with this. */
  const ImagePrefix := "jpgimage.php"

  /** The outcome of fetching one image and writing it to a temporary file:
      written at clock reading `stamp` (`Date.now()`), or the GET or the
      write threw. */
  datatype Download = Written(stamp: nat) | Threw

  /** An `<img>` element of the detail page (a missing `src` is ""), with
      what happens when it is downloaded. */
  datatype Image = Image(src: string, download: Download)

  /** The detail page as the HTML queries see it: for each label, the
      trimmed text of the node after the label's block, and the page's
      images in document order; or the GET of the page threw. */
  datatype DetailResponse =
    | PageThrew
    | Page(values: map<string, string>, images: seq<Image>)

  /** `getValue(label)`: a label that is not on the page gives "". */
  function FieldValue(values: map<string, string>, field: string): string {
    if field in values then values[field] else ""
  }

  /** Matches the selector `img[src^="jpgimage.php"]`. */
  predicate IsEvidence(img: Image) {
    ImagePrefix <= img.src
  }

  /** Every download of `images` succeeds. */
  predicate AllWritten(images: seq<Image>) {
    forall k :: 0 <= k < |images| ==> images[k].download.Written?
  }

  /** `path.join(os.tmpdir(), `fine_image_${Date.now()}_${i}.jpg`)`. */
  function TempPath(tmpDir: string, stamp: nat, index: nat): string {
    tmpDir + "/fine_image_" + NatToString(stamp) + "_" + NatToString(index) + ".jpg"
  }

  /** Two images of one fine never share a temporary file, whatever the
      clock reads: the loop index is part of the name. */
  lemma TempPathsDiffer(tmpDir: string, s1: nat, i: nat, s2: nat, j: nat)
    requires i != j
    ensures TempPath(tmpDir, s1, i) != TempPath(tmpDir, s2, j)
  {
    if TempPath(tmpDir, s1, i) == TempPath(tmpDir, s2, j) {
      var pre := tmpDir + "/fine_image_";
      var a, b := NatToString(s1), NatToString(i);
      var c, d := NatToString(s2), NatToString(j);
      var x := TempPath(tmpDir, s1, i);
      assert x == pre + (a + "_" + b) + ".jpg";
      assert x == pre + (c + "_" + d) + ".jpg";
      assert |a + "_" + b| == |c + "_" + d|;
      assert a + "_" + b == x[|pre|..|x| - 4] == c + "_" + d;
      DigitPairUnique(a, b, c, d, '_');
      NatToStringInjective(i, j);
    }
  }

  /** The image loop of `getDetailedFine`, from loop index `index` on: the
      temporary paths, or `None` as soon as one download throws. (The
      `if (!src) continue` of the loop never fires: a selected `src` starts
      with the non-empty prefix.) */
  function SaveImages(images: seq<Image>, tmpDir: string, index: nat): (r: Option<seq<string>>)
    ensures r.Some? <==> AllWritten(images)
    ensures r.Some? ==>
              && |r.value| == |images|
              && forall k :: 0 <= k < |images| ==>
                   images[k].download.Written? &&
                   r.value[k] == TempPath(tmpDir, images[k].download.stamp, index + k)
    decreases |images|
  {
    if |images| == 0 then Some([])
    else
      match images[0].download
      case Threw => None
      case Written(stamp) =>
        var rest := SaveImages(images[1..], tmpDir, index + 1);
        assert forall k :: 1 <= k < |images| ==> images[k] == images[1..][k - 1];
        match rest
        case None => None
        case Some(paths) => Some([TempPath(tmpDir, stamp, index)] + paths)
  }

  /** `getDetailedFine`: `None` (the source's `undefined`) when the page or
      any evidence image cannot be fetched; otherwise the six labelled
      fields and one distinct temporary path per evidence image. */
  function GetDetailedFine(response: DetailResponse, tmpDir: string): (r: Option<Fine>)
    ensures response.PageThrew? ==> r.None?
    ensures response.Page? ==>
              var evidence := Filter(response.images, IsEvidence);
              && (r.Some? <==> AllWritten(evidence))
              && (r.Some? ==>
                    && r.value.protocolNumber == FieldValue(response.values, ProtocolLabel)
                    && r.value.carNumber == FieldValue(response.values, CarLabel)
                    && r.value.date == FieldValue(response.values, DateLabel)
                    && r.value.violationCode == FieldValue(response.values, ViolationLabel)
                    && r.value.amount == FieldValue(response.values, AmountLabel)
                    && r.value.totalAmount == FieldValue(response.values, TotalLabel)
                    && |r.value.images| == |evidence|)
    ensures r.Some? ==> forall i, j :: 0 <= i < j < |r.value.images| ==> r.value.images[i] != r.value.images[j]
  {
    match response
    case PageThrew => None
    case Page(values, images) =>
      var evidence := Filter(images, IsEvidence);
      var saved := SaveImages(evidence, tmpDir, 0);
      match saved
      case None => None
      case Some(paths) =>
        assert forall i, j :: 0 <= i < j < |paths| ==> paths[i] != paths[j] by {
          forall i, j | 0 <= i < j < |paths|
            ensures paths[i] != paths[j]
          {
            TempPathsDiffer(tmpDir, evidence[i].download.stamp, i, evidence[j].download.stamp, j);
          }
        }
        Some(Fine(
          FieldValue(values, ProtocolLabel),
          FieldValue(values, CarLabel),
          FieldValue(values, DateLabel),
          FieldValue(values, ViolationLabel),
          FieldValue(values, AmountLabel),
          FieldValue(values, TotalLabel),
          paths))
  }

  /** A label missing from the page gives an empty field, not a failure. */
  lemma MissingLabelGivesEmptyField(values: map<string, string>, images: seq<Image>, tmpDir: string)
    requires ProtocolLabel !in values
    requires AllWritten(images)
    ensures GetDetailedFine(Page(values, images), tmpDir).Some?
    ensures GetDetailedFine(Page(values, images), tmpDir).value.protocolNumber == ""
  {
    var evidence := Filter(images, IsEvidence);
    forall k | 0 <= k < |evidence|
      ensures evidence[k].download.Written?
    {
      var m :| 0 <= m < |images| && images[m] == evidence[k];
    }
  }
}
