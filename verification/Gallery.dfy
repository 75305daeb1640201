/** Extraction, enrollment and matching: what the driver's three print callbacks do with feature records. */
module Gallery {
  import opened Bytes
  import opened FeatureCodec
  import opened MatchDecision

  // ---------------------------------------------------------------- extraction

  datatype Keypoint = Keypoint(x: u32, y: u32)

  /** What the detector reports: any number of keypoints and as many descriptor rows of 128 columns. */
  datatype Detection = Detection(keypoints: seq<Keypoint>, descriptors: seq<seq<u32>>)

  predicate DetectorContract(d: Detection) {
    && |d.keypoints| == |d.descriptors|
    && forall i :: 0 <= i < |d.descriptors| ==> |d.descriptors[i]| == DESCRIPTOR_COLUMNS
  }

  predicate AllFinite(d: Detection)
    requires DetectorContract(d)
  {
    forall i :: 0 <= i < |d.keypoints| ==> FiniteRow(DetectedRow(d, i))
  }

  function DetectedRow(d: Detection, i: nat): Row
    requires DetectorContract(d) && i < |d.keypoints|
  {
    Row(d.keypoints[i].x, d.keypoints[i].y, d.descriptors[i])
  }

  /** The rows that survive the clamp. */
  function KeptRows(d: Detection): (rows: seq<Row>)
    requires DetectorContract(d)
    ensures |rows| <= MAXIMUM_FEATURES
    ensures forall i :: 0 <= i < |rows| ==> Shaped(rows[i])
  {
    seq(if |d.keypoints| > MAXIMUM_FEATURES then MAXIMUM_FEATURES else |d.keypoints|,
        i requires 0 <= i < |d.keypoints| => DetectedRow(d, i))
  }

  datatype Extraction = Features(record: seq<byte>) | InvalidArgument | TooFewFeatures

  lemma PutOneMore(ws: seq<u32>, w: u32)
    ensures PutWords(ws + [w]) == PutWords(ws) + Put32(w)
  {
    assert (ws + [w])[..|ws|] == ws;
  }

  lemma FlatOneMore(rows: seq<Row>, k: nat)
    requires k < |rows|
    ensures FlatWords(rows[..k + 1]) == FlatWords(rows[..k]) + Words(rows[k])
  {
    assert rows[..k + 1][..k] == rows[..k];
  }

  /** The encoder's inner loop: one row of words is appended to the output vector. */
  method AppendRow(output: seq<byte>, keypoint: Keypoint, descriptor: seq<u32>,
                   ghost ws: seq<u32>, ghost head: seq<byte>)
    returns (r: seq<byte>)
    requires |descriptor| == DESCRIPTOR_COLUMNS && output == head + PutWords(ws)
    ensures r == head + PutWords(ws + Words(Row(keypoint.x, keypoint.y, descriptor)))
  {
    hide FeatureCodec.PutWords, Bytes.Put32;
    ghost var row := Words(Row(keypoint.x, keypoint.y, descriptor));
    PutOneMore(ws, keypoint.x);
    PutOneMore(ws + [keypoint.x], keypoint.y);
    r := output + Put32(keypoint.x) + Put32(keypoint.y);
    assert ws + [keypoint.x] + [keypoint.y] == ws + row[..2];
    for column := 0 to DESCRIPTOR_COLUMNS
      invariant r == head + PutWords(ws + row[..2 + column])
    {
      PutOneMore(ws + row[..2 + column], descriptor[column]);
      assert ws + row[..2 + column] + [descriptor[column]] == ws + row[..2 + (column + 1)];
      r := r + Put32(descriptor[column]);
    }
    assert row[..2 + DESCRIPTOR_COLUMNS] == row;
  }

  /** `syna0082_matcher_extract`, from the detector's output on. */
  method Extract(pixels: Option<seq<byte>>, width: nat, height: nat, detection: Detection) returns (r: Extraction)
    requires DetectorContract(detection)
    ensures r == InvalidArgument <==> pixels == None || width != 56 || height != 144
    ensures r != InvalidArgument ==> r == Extracted(detection)
  {
    if pixels == None || width != 56 || height != 144 {
      return InvalidArgument;
    }
    var keypoints, descriptors := detection.keypoints, detection.descriptors;
    if |keypoints| > MAXIMUM_FEATURES {
      keypoints := keypoints[..MAXIMUM_FEATURES];
      descriptors := descriptors[..MAXIMUM_FEATURES];
    }
    if |keypoints| < MINIMUM_FEATURES || |descriptors| == 0 {
      return TooFewFeatures;
    }
    var encoded := AppendRows(MAGIC + Put32(|keypoints|), keypoints, descriptors, KeptRows(detection));
    hide FeatureCodec.PutWords, FeatureCodec.FlatWords, Bytes.Put32;
    return Features(encoded);
  }

  /** The encoder's outer loop: all rows are appended behind the header. */
  method AppendRows(head: seq<byte>, keypoints: seq<Keypoint>, descriptors: seq<seq<u32>>, ghost rows: seq<Row>)
    returns (encoded: seq<byte>)
    requires |keypoints| == |descriptors| == |rows|
    requires forall i :: 0 <= i < |rows| ==>
               |descriptors[i]| == DESCRIPTOR_COLUMNS && rows[i] == Row(keypoints[i].x, keypoints[i].y, descriptors[i])
    ensures encoded == head + PutWords(FlatWords(rows))
  {
    encoded := head;
    assert rows[..0] == [];
    assert encoded == head + PutWords(FlatWords(rows[..0]));
    hide FeatureCodec.PutWords, FeatureCodec.FlatWords, FeatureCodec.Words, Bytes.Put32;
    for row := 0 to |keypoints|
      invariant encoded == head + PutWords(FlatWords(rows[..row]))
    {
      encoded := AppendRow(encoded, keypoints[row], descriptors[row], FlatWords(rows[..row]), head);
      FlatOneMore(rows, row);
    }
    assert rows[..|keypoints|] == rows;
  }

  function Extracted(d: Detection): Extraction
    requires DetectorContract(d)
  {
    if |d.keypoints| < MINIMUM_FEATURES then TooFewFeatures else Features(Encode(KeptRows(d)))
  }

  /** Whatever the detector reports, with finite values, an extracted record is one the decoder accepts. */
  lemma ExtractedDecodes(d: Detection)
    requires DetectorContract(d) && AllFinite(d) && Extracted(d).Features?
    ensures Decode(Extracted(d).record) == Decoded(KeptRows(d))
  {
    var rows := KeptRows(d);
    assert forall i :: 0 <= i < |rows| ==> rows[i] == DetectedRow(d, i);
    DecodeOfEncode(rows);
  }

  // ---------------------------------------------------------------- the enrollment gallery

  datatype PrintData = NoData | Scan(record: seq<byte>) | Samples(records: seq<seq<byte>>) | OtherData

  class Print {
    var data: PrintData

    constructor (data: PrintData)
      ensures this.data == data
    {
      this.data := data;
    }
  }

  /** `dev_append_print`: the scan goes to the end of the gallery, or nothing changes. */
  method AppendPrint(enrollPrint: Print, scanPrint: Print) returns (ok: bool)
    modifies enrollPrint
    ensures ok <==> old(scanPrint.data).Scan? && (old(enrollPrint.data).NoData? || old(enrollPrint.data).Samples?)
    ensures ok ==> enrollPrint.data == Samples(Stored(old(enrollPrint.data)) + [old(scanPrint.data).record])
    ensures !ok ==> unchanged(enrollPrint)
  {
    if !scanPrint.data.Scan? {
      return false;
    }
    var gallery := enrollPrint.data;
    if gallery.Scan? || gallery.OtherData? {
      return false;
    }
    var builder: seq<seq<byte>> := [];
    if gallery.Samples? {
      for index := 0 to |gallery.records|
        invariant builder == gallery.records[..index]
      {
        builder := builder + [gallery.records[index]];
      }
    }
    enrollPrint.data := Samples(builder + [scanPrint.data.record]);
    return true;
  }

  function Stored(data: PrintData): seq<seq<byte>> {
    if data.Samples? then data.records else []
  }

  /** The gallery after a number of touches: the extracted records, in order. */
  function Enrolled(touches: seq<Detection>): seq<seq<byte>>
    requires forall i :: 0 <= i < |touches| ==> DetectorContract(touches[i])
  {
    if touches == [] then []
    else
      var before, e := Enrolled(touches[..|touches| - 1]), Extracted(touches[|touches| - 1]);
      if e.Features? then before + [e.record] else before
  }

  /** What the print holds then: it has no data as long as no touch was usable. */
  function Template(touches: seq<Detection>): PrintData
    requires forall i :: 0 <= i < |touches| ==> DetectorContract(touches[i])
  {
    if Enrolled(touches) == [] then NoData else Samples(Enrolled(touches))
  }

  /** Enrollment by extract and append, one touch after the other, starting without data. */
  method EnrollAll(touches: seq<Detection>, pixels: seq<byte>) returns (template: Print)
    requires forall i :: 0 <= i < |touches| ==> DetectorContract(touches[i])
    ensures template.data == Template(touches)
  {
    template := new Print(NoData);
    for k := 0 to |touches|
      invariant fresh(template)
      invariant template.data == Template(touches[..k])
    {
      assert touches[..k + 1][..k] == touches[..k];
      var e := Extract(Some(pixels), 56, 144, touches[k]);
      if e.Features? {
        var scan := new Print(Scan(e.record));
        var ok := AppendPrint(template, scan);
        assert ok;
      }
    }
    assert touches[..|touches|] == touches;
  }

  lemma {:induction false} EnrolledDecodes(touches: seq<Detection>, j: nat)
    requires forall i :: 0 <= i < |touches| ==> DetectorContract(touches[i]) && AllFinite(touches[i])
    requires j < |Enrolled(touches)|
    ensures Decode(Enrolled(touches)[j]).Decoded?
  {
    var front, last := touches[..|touches| - 1], touches[|touches| - 1];
    if j < |Enrolled(front)| {
      EnrolledDecodes(front, j);
    } else {
      ExtractedDecodes(last);
    }
  }

  // ---------------------------------------------------------------- matching

  datatype MatchResult = MatchError | MatchSuccess | MatchFail

  /** `syna0082_matcher_compare`: an error when either record is refused, else some score of the two. */
  function Compare(reference: seq<byte>, probe: seq<byte>, scorer: (seq<Row>, seq<Row>) -> Score): Option<Score> {
    var r, p := Decode(reference), Decode(probe);
    if r.Decoded? && p.Decoded? then Some(scorer(r.rows, p.rows)) else None
  }

  predicate Comparable(gallery: seq<seq<byte>>, probe: seq<byte>) {
    gallery != [] ==>
      Decode(probe).Decoded? && forall i :: 0 <= i < |gallery| ==> Decode(gallery[i]).Decoded?
  }

  /** The score of one sample; the value for refused records is never used. */
  function Against(probe: seq<byte>, scorer: (seq<Row>, seq<Row>) -> Score): seq<byte> -> Score {
    (g: seq<byte>) =>
      var score := Compare(g, probe, scorer);
      if score.Some? then score.value else Score(0, 0, 0.0, 0.0, 0.0)
  }

  function ScoreAll(f: seq<byte> -> Score, gallery: seq<seq<byte>>): (r: seq<Score>)
    ensures |r| == |gallery|
  {
    if gallery == [] then [] else ScoreAll(f, gallery[..|gallery| - 1]) + [f(gallery[|gallery| - 1])]
  }

  function Scores(gallery: seq<seq<byte>>, probe: seq<byte>, scorer: (seq<Row>, seq<Row>) -> Score): seq<Score> {
    ScoreAll(Against(probe, scorer), gallery)
  }

  function MatchOf(gallery: seq<seq<byte>>, probe: seq<byte>, scorer: (seq<Row>, seq<Row>) -> Score): MatchResult {
    if !Comparable(gallery, probe) then MatchError
    else if DriverMatches(Scores(gallery, probe, scorer)) then MatchSuccess
    else MatchFail
  }

  /** What matching a template print with a scanned print comes to; a print of the wrong type, or without
      data, is an error. */
  function PrintsMatch(template: PrintData, scan: PrintData, scorer: (seq<Row>, seq<Row>) -> Score): MatchResult {
    if template.Samples? && scan.Scan? then MatchOf(template.records, scan.record, scorer) else MatchError
  }

  /** `dev_match_print`: the accumulator loop with its early return. */
  method MatchPrint(template: Print, scan: Print, scorer: (seq<Row>, seq<Row>) -> Score) returns (r: MatchResult)
    ensures r == PrintsMatch(template.data, scan.data, scorer)
  {
    if !template.data.Samples? || !scan.data.Scan? {
      return MatchError;
    }
    var gallery, probe := template.data.records, scan.data.record;
    var accepted, bestInliers := 0, 0;
    for index := 0 to |gallery|
      invariant Comparable(gallery[..index], probe)
      invariant accepted == AcceptedCount(Scores(gallery[..index], probe, scorer))
      invariant bestInliers == BestInliers(Scores(gallery[..index], probe, scorer))
    {
      var score := Compare(gallery[index], probe, scorer);
      if score == None {
        assert !Comparable(gallery, probe);
        return MatchError;
      }
      ghost var longer := gallery[..index + 1];
      assert longer[..index] == gallery[..index];
      assert Comparable(longer, probe);
      ghost var before := Scores(gallery[..index], probe, scorer);
      assert (before + [score.value])[..|before|] == before;
      if score.value.Accepted() {
        accepted := accepted + 1;
      }
      if score.value.inliers > bestInliers {
        bestInliers := score.value.inliers;
      }
    }
    assert gallery[..|gallery|] == gallery;
    return if accepted > 0 && (bestInliers >= STRONG_INLIERS || accepted >= 2) then MatchSuccess else MatchFail;
  }

  // ---------------------------------------------------------------- order and size of the gallery

  lemma ComparableOfMembers(gallery: seq<seq<byte>>, probe: seq<byte>)
    ensures Comparable(gallery, probe) <==>
              (gallery != [] ==> Decode(probe).Decoded? && forall g :: g in multiset(gallery) ==> Decode(g).Decoded?)
  {
    assert forall g :: g in multiset(gallery) <==> g in gallery;
  }

  lemma ScoresOfPrefix(f: seq<byte> -> Score, a: seq<seq<byte>>, x: seq<byte>)
    ensures ScoreAll(f, a + [x]) == ScoreAll(f, a) + [f(x)]
  {
    assert (a + [x])[..|a|] == a;
  }

  lemma {:induction false} ScoresOfSum(f: seq<byte> -> Score, a: seq<seq<byte>>, b: seq<seq<byte>>)
    ensures ScoreAll(f, a + b) == ScoreAll(f, a) + ScoreAll(f, b)
  {
    if b == [] {
      assert a + b == a;
    } else {
      var front, last := b[..|b| - 1], b[|b| - 1];
      ScoresOfSum(f, a, front);
      assert a + b == (a + front) + [last];
      ScoresOfPrefix(f, a + front, last);
    }
  }

  lemma Cancel<T>(a: multiset<T>, b: multiset<T>, x: T)
    requires a + multiset{x} <= b + multiset{x}
    ensures a <= b
  {
    forall y
      ensures a[y] <= b[y]
    {
      assert (a + multiset{x})[y] <= (b + multiset{x})[y];
    }
  }

  /** A gallery with one sample more, wherever it stands, has its score more. */
  lemma ScoresAround(f: seq<byte> -> Score, a: seq<seq<byte>>, x: seq<byte>, b: seq<seq<byte>>)
    ensures multiset(ScoreAll(f, a + [x] + b)) == multiset(ScoreAll(f, a + b)) + multiset{f(x)}
  {
    ScoresOfSum(f, a + [x], b);
    ScoresOfPrefix(f, a, x);
    ScoresOfSum(f, a, b);
  }

  lemma {:induction false} ScoresOfSubGallery(f: seq<byte> -> Score, a: seq<seq<byte>>, b: seq<seq<byte>>)
    requires multiset(a) <= multiset(b)
    ensures multiset(ScoreAll(f, a)) <= multiset(ScoreAll(f, b))
  {
    if a == [] {
    } else {
      var front, last := a[..|a| - 1], a[|a| - 1];
      assert a == front + [last];
      assert last in multiset(b);
      var k :| 0 <= k < |b| && b[k] == last;
      var left, right := b[..k], b[k + 1..];
      assert b == left + [last] + right;
      Cancel(multiset(front), multiset(left + right), last);
      ScoresAround(f, left, last, right);
      ScoresOfSubGallery(f, front, left + right);
    }
  }

  /** The result, errors included, does not depend on the order of the gallery. */
  lemma OrderIndependent(a: seq<seq<byte>>, b: seq<seq<byte>>, probe: seq<byte>, scorer: (seq<Row>, seq<Row>) -> Score)
    requires multiset(a) == multiset(b)
    ensures MatchOf(a, probe, scorer) == MatchOf(b, probe, scorer)
  {
    assert |multiset(a)| == |a| && |multiset(b)| == |b|;
    ComparableOfMembers(a, probe);
    ComparableOfMembers(b, probe);
    if Comparable(a, probe) {
      ScoresOfSubGallery(Against(probe, scorer), a, b);
      ScoresOfSubGallery(Against(probe, scorer), b, a);
      DriverMonotone(Scores(a, probe, scorer), Scores(b, probe, scorer));
      DriverMonotone(Scores(b, probe, scorer), Scores(a, probe, scorer));
    }
  }

  /** Adding samples that decode never turns a match into a non-match. */
  lemma MoreSamplesKeepTheMatch(a: seq<seq<byte>>, b: seq<seq<byte>>, probe: seq<byte>,
                                scorer: (seq<Row>, seq<Row>) -> Score)
    requires multiset(a) <= multiset(b) && forall i :: 0 <= i < |b| ==> Decode(b[i]).Decoded?
    requires MatchOf(a, probe, scorer) == MatchSuccess
    ensures MatchOf(b, probe, scorer) == MatchSuccess
  {
    assert a != [];
    assert Comparable(b, probe);
    ScoresOfSubGallery(Against(probe, scorer), a, b);
    DriverMonotone(Scores(a, probe, scorer), Scores(b, probe, scorer));
  }

  lemma {:induction false} SomeUsable(touches: seq<Detection>)
    requires forall i :: 0 <= i < |touches| ==> DetectorContract(touches[i])
    ensures Enrolled(touches) != [] <==> exists i :: 0 <= i < |touches| && |touches[i].keypoints| >= MINIMUM_FEATURES
  {
    if touches == [] {
    } else {
      var front, last := touches[..|touches| - 1], touches[|touches| - 1];
      SomeUsable(front);
      assert Extracted(last).Features? <==> |last.keypoints| >= MINIMUM_FEATURES;
      if i :| 0 <= i < |touches| && |touches[i].keypoints| >= MINIMUM_FEATURES {
        assert i < |front| ==> front[i] == touches[i];
      }
    }
  }

  /** Matching an extracted probe with the print that any enrollment by extract and append leaves behind is an
      error if and only if every touch of the enrollment had fewer than eight keypoints: then the print never
      got any data. The records themselves never make it one. */
  lemma EnrolledErrsExactly(touches: seq<Detection>, probe: Detection, scorer: (seq<Row>, seq<Row>) -> Score)
    requires forall i :: 0 <= i < |touches| ==> DetectorContract(touches[i]) && AllFinite(touches[i])
    requires DetectorContract(probe) && AllFinite(probe) && Extracted(probe).Features?
    ensures PrintsMatch(Template(touches), Scan(Extracted(probe).record), scorer) == MatchError
            <==> forall i :: 0 <= i < |touches| ==> |touches[i].keypoints| < MINIMUM_FEATURES
  {
    SomeUsable(touches);
    EnrolledComparable(touches, probe);
    hide Extracted, Enrolled, Comparable, DriverMatches, Scores, AllFinite;
  }

  lemma EnrolledComparable(touches: seq<Detection>, probe: Detection)
    requires forall i :: 0 <= i < |touches| ==> DetectorContract(touches[i]) && AllFinite(touches[i])
    requires DetectorContract(probe) && AllFinite(probe) && Extracted(probe).Features?
    ensures Comparable(Enrolled(touches), Extracted(probe).record)
  {
    ExtractedDecodes(probe);
    forall j | 0 <= j < |Enrolled(touches)|
      ensures Decode(Enrolled(touches)[j]).Decoded?
    {
      EnrolledDecodes(touches, j);
    }
    hide Extracted, Enrolled, FeatureCodec.Decode, AllFinite;
  }

  /** One touch without a single keypoint: every probe, extracted or not, is an error. */
  lemma EmptyEnrollmentErrs(scan: PrintData, scorer: (seq<Row>, seq<Row>) -> Score)
    ensures PrintsMatch(Template([Detection([], [])]), scan, scorer) == MatchError
  {
    SomeUsable([Detection([], [])]);
  }

  // ---------------------------------------------------------------- the record of a detection, row by row

  /** With at least eight keypoints and finite values, extraction gives a record that decodes to the first 700 of the
      detected rows: each keypoint's x, its y, and its descriptor. With fewer it gives none. */
  lemma ExtractedRows(d: Detection)
    requires DetectorContract(d)
    ensures |d.keypoints| < 8 ==> Extracted(d) == TooFewFeatures
    ensures |d.keypoints| >= 8 && AllFinite(d) ==>
              && Extracted(d).Features? && Decode(Extracted(d).record).Decoded?
              && var rows := Decode(Extracted(d).record).rows;
                 && |rows| == (if |d.keypoints| < 700 then |d.keypoints| else 700)
                 && forall i :: 0 <= i < |rows| ==>
                      rows[i].x == d.keypoints[i].x && rows[i].y == d.keypoints[i].y
                      && rows[i].descriptor == d.descriptors[i]
  {
    if |d.keypoints| >= 8 && AllFinite(d) {
      ExtractedDecodes(d);
      hide FeatureCodec.Decode, AllFinite;
    }
  }

  /** The gallery after an enrollment: each usable touch left its record, behind those of the usable touches
      before it. */
  lemma {:induction false} EnrolledAt(touches: seq<Detection>, i: nat)
    requires forall k :: 0 <= k < |touches| ==> DetectorContract(touches[k])
    requires i < |touches| && |touches[i].keypoints| >= 8
    ensures var place := |Enrolled(touches[..i])|;
      place < |Enrolled(touches)| && Features(Enrolled(touches)[place]) == Extracted(touches[i])
  {
    var n := |touches| - 1;
    var front := touches[..n];
    EnrolledOneMore(touches);
    hide Extracted, Enrolled;
    if i < n {
      EnrolledAt(front, i);
      assert front[..i] == touches[..i];
    } else {
      assert touches[..i] == front;
    }
  }

  lemma EnrolledOneMore(touches: seq<Detection>)
    requires touches != [] && forall k :: 0 <= k < |touches| ==> DetectorContract(touches[k])
    ensures var front, e := touches[..|touches| - 1], Extracted(touches[|touches| - 1]);
      && Enrolled(touches) == (if e.Features? then Enrolled(front) + [e.record] else Enrolled(front))
      && (e.Features? <==> |touches[|touches| - 1].keypoints| >= 8)
  {
    hide KeptRows, FeatureCodec.Encode;
  }

  // ---------------------------------------------------------------- the match, sample by sample

  /** What comparing the i-th sample with the probe gives. */
  function Fit(gallery: seq<seq<byte>>, probe: seq<byte>, scorer: (seq<Row>, seq<Row>) -> Score, i: nat): Score
    requires i < |gallery| && Decode(gallery[i]).Decoded? && Decode(probe).Decoded?
  {
    scorer(Decode(gallery[i]).rows, Decode(probe).rows)
  }

  lemma {:induction false} ScoreAt(f: seq<byte> -> Score, gallery: seq<seq<byte>>, i: nat)
    requires i < |gallery|
    ensures ScoreAll(f, gallery)[i] == f(gallery[i])
  {
    if i < |gallery| - 1 {
      ScoreAt(f, gallery[..|gallery| - 1], i);
    }
  }

  lemma ScoreIsFit(gallery: seq<seq<byte>>, probe: seq<byte>, scorer: (seq<Row>, seq<Row>) -> Score, i: nat)
    requires i < |gallery| && Decode(gallery[i]).Decoded? && Decode(probe).Decoded?
    ensures Scores(gallery, probe, scorer)[i] == Fit(gallery, probe, scorer, i)
  {
    ScoreAt(Against(probe, scorer), gallery, i);
    hide FeatureCodec.Decode;
  }

  predicate Fits(s: Score) {
    s.inliers >= 6 && s.inlierRatio >= 0.65 && 0.70 <= s.scale && s.scale <= 1.35 && s.coverage >= 0.015
  }

  /** Matching two prints, from the records alone. Samples and a probe that decode match exactly when some sample fits
      the probe and, besides, some sample has eight inliers with it or two samples fit it; a record that does not
      decode is an error; anything else is no match. */
  lemma MatchExactly(gallery: seq<seq<byte>>, probe: seq<byte>, scorer: (seq<Row>, seq<Row>) -> Score)
    ensures PrintsMatch(Samples(gallery), Scan(probe), scorer) == MatchError
            <==> gallery != [] && (!Decode(probe).Decoded?
                                   || exists i :: 0 <= i < |gallery| && !Decode(gallery[i]).Decoded?)
    ensures Decode(probe).Decoded? && (forall i :: 0 <= i < |gallery| ==> Decode(gallery[i]).Decoded?) ==>
              (PrintsMatch(Samples(gallery), Scan(probe), scorer) == MatchSuccess <==>
                 && (exists i: nat :: i < |gallery| && Fits(Fit(gallery, probe, scorer, i)))
                 && ((exists i: nat :: i < |gallery| && Fit(gallery, probe, scorer, i).inliers >= 8)
                     || (exists i: nat, j: nat :: i < j < |gallery|
                           && Fits(Fit(gallery, probe, scorer, i)) && Fits(Fit(gallery, probe, scorer, j)))))
  {
    hide FeatureCodec.Decode;
    if Comparable(gallery, probe) && gallery != [] {
      var scores := Scores(gallery, probe, scorer);
      DriverByIndex(scores);
      forall i: nat | i < |gallery|
        ensures scores[i] == Fit(gallery, probe, scorer, i)
        ensures AcceptedAt(scores, i) <==> Fits(Fit(gallery, probe, scorer, i))
      {
        ScoreIsFit(gallery, probe, scorer, i);
        Thresholds(scores[i], multiset{});
      }
      hide Fit, Scores, DriverMatches, Fits;
    }
  }
}
