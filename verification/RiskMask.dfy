/**
The batched severity mask of a risk report: `_risk_severity_mask`
(src/image23mf/processing.py:1744-1792).
*/
module RiskMask {
  datatype Region = Region(id: nat, paletteLabel: nat)
  datatype Graph = Graph(height: nat, width: nat, regions: seq<Region>, fingerprint: nat)
  datatype Severity = Info | Warning | Error
  datatype Finding = Finding(severity: Severity, regionIds: seq<nat>, labels: seq<int>)
  datatype Report = Report(graphFingerprint: nat, warnings: seq<Finding>)

  /** The region index of every pixel in row-major order; negative where nothing is printed. */
  datatype Assignment = Assignment(height: nat, width: nat, cells: seq<int>)

  datatype Outcome =
    | Mask(pixels: seq<bv8>, exactCount: nat, approximateCount: nat)
    | DimensionMismatch
    | FingerprintMismatch
    | IndexOutOfRange

  function Bit(severity: Severity): bv8 {
    match severity
    case Info => 1
    case Warning => 2
    case Error => 4
  }

  // ----- the definition, one pixel at a time

  /** Two regions with one id: the id stands for the later one. */
  predicate OwnsItsId(regions: seq<Region>, index: nat) {
    index < |regions| && forall later :: index < later < |regions| ==> regions[later].id != regions[index].id
  }

  predicate NamesRegion(regions: seq<Region>, finding: Finding, index: nat) {
    index < |regions| && regions[index].id in finding.regionIds && OwnsItsId(regions, index)
  }

  predicate NamesLabel(finding: Finding, paletteLabel: nat) {
    paletteLabel in finding.labels
  }

  predicate Names(regions: seq<Region>, finding: Finding, index: nat) {
    index < |regions| && (NamesRegion(regions, finding, index) || NamesLabel(finding, regions[index].paletteLabel))
  }

  /** Some warning of this severity names the region or its label. */
  predicate Marked(regions: seq<Region>, warnings: seq<Finding>, severity: Severity, index: nat) {
    exists k :: 0 <= k < |warnings| && warnings[k].severity == severity && Names(regions, warnings[k], index)
  }

  predicate MarkedById(regions: seq<Region>, warnings: seq<Finding>, severity: Severity, index: nat) {
    exists k :: 0 <= k < |warnings| && warnings[k].severity == severity && NamesRegion(regions, warnings[k], index)
  }

  predicate MarkedByLabel(warnings: seq<Finding>, severity: Severity, paletteLabel: nat) {
    exists k :: 0 <= k < |warnings| && warnings[k].severity == severity && NamesLabel(warnings[k], paletteLabel)
  }

  /** A warning is exact when it names some region of the graph; only its bounds are known otherwise. */
  ghost predicate IsExact(regions: seq<Region>, finding: Finding) {
    exists index: nat :: Names(regions, finding, index)
  }

  ghost function ExactWarnings(regions: seq<Region>, warnings: seq<Finding>): set<nat> {
    set k: nat | k < |warnings| && IsExact(regions, warnings[k])
  }

  predicate HasBit(bits: bv8, severity: Severity) {
    bits & Bit(severity) != 0
  }

  lemma SettingABit(bits: bv8, severity: Severity, other: Severity)
    ensures HasBit(bits | Bit(severity), other) <==> severity == other || HasBit(bits, other)
  {
    match severity
    case Info =>
      assert ((bits | 1) & 1 != 0) && ((bits | 1) & 2 == bits & 2) && ((bits | 1) & 4 == bits & 4);
    case Warning =>
      assert ((bits | 2) & 1 == bits & 1) && ((bits | 2) & 2 != 0) && ((bits | 2) & 4 == bits & 4);
    case Error =>
      assert ((bits | 4) & 1 == bits & 1) && ((bits | 4) & 2 == bits & 2) && ((bits | 4) & 4 != 0);
  }

  lemma UnitingBits(a: bv8, b: bv8, severity: Severity)
    ensures HasBit(a | b, severity) <==> HasBit(a, severity) || HasBit(b, severity)
  {
    assert (a | b) & 1 == (a & 1) | (b & 1);
    assert (a | b) & 2 == (a & 2) | (b & 2);
    assert (a | b) & 4 == (a & 4) | (b & 4);
    match severity
    case Info => assert (a & 1) | (b & 1) == 0 <==> a & 1 == 0 && b & 1 == 0;
    case Warning => assert (a & 2) | (b & 2) == 0 <==> a & 2 == 0 && b & 2 == 0;
    case Error => assert (a & 4) | (b & 4) == 0 <==> a & 4 == 0 && b & 4 == 0;
  }

  // ----- the batched algorithm

  /** Every id of a region leads to the last region that has it. */
  ghost predicate IndexedById(regions: seq<Region>, regionIndex: map<nat, nat>) {
    && (forall id {:trigger regionIndex[id]} :: id in regionIndex ==>
          OwnsItsId(regions, regionIndex[id]) && regions[regionIndex[id]].id == id)
    && (forall i: nat {:trigger OwnsItsId(regions, i)} :: OwnsItsId(regions, i) ==>
          regions[i].id in regionIndex && regionIndex[regions[i].id] == i)
  }

  ghost predicate LabelsOf(regions: seq<Region>, labels: set<nat>) {
    forall l: nat :: l in labels <==> exists i :: 0 <= i < |regions| && regions[i].paletteLabel == l
  }

  /** `{region.id: index for index, region in enumerate(graph.regions)}`. */
  method RegionIndex(regions: seq<Region>) returns (regionIndex: map<nat, nat>)
    ensures IndexedById(regions, regionIndex)
  {
    regionIndex := map[];
    for index := 0 to |regions|
      invariant forall id :: id in regionIndex ==>
                OwnsItsId(regions[..index], regionIndex[id]) && regions[regionIndex[id]].id == id
      invariant forall i: nat :: i < index ==> regions[i].id in regionIndex && i <= regionIndex[regions[i].id]
    {
      regionIndex := regionIndex[regions[index].id := index];
    }
    assert regions[..|regions|] == regions;
  }

  method LabelIndices(regions: seq<Region>) returns (labelIndices: map<nat, set<nat>>)
    ensures forall l: nat :: l in labelIndices <==> exists i :: 0 <= i < |regions| && regions[i].paletteLabel == l
    ensures forall l :: l in labelIndices ==>
              labelIndices[l] == set i: nat | i < |regions| && regions[i].paletteLabel == l
  {
    labelIndices := map[];
    for index := 0 to |regions|
      invariant forall l: nat :: l in labelIndices <==> exists i :: 0 <= i < index && regions[i].paletteLabel == l
      invariant forall l :: l in labelIndices ==>
                labelIndices[l] == set i: nat | i < index && regions[i].paletteLabel == l
    {
      var l := regions[index].paletteLabel;
      var known := if l in labelIndices then labelIndices[l] else {};
      labelIndices := labelIndices[l := known + {index}];
    }
  }

  method UniteAt(bits: array<bv8>, indices: set<nat>, extra: bv8)
    requires forall i :: i in indices ==> i < bits.Length
    modifies bits
    ensures forall i :: 0 <= i < bits.Length ==> bits[i] == if i in indices then old(bits[i]) | extra else old(bits[i])
  {
    var remaining := indices;
    while remaining != {}
      invariant remaining <= indices
      invariant forall i :: 0 <= i < bits.Length ==>
                bits[i] == if i in indices - remaining then old(bits[i]) | extra else old(bits[i])
      decreases remaining
    {
      var i :| i in remaining;
      bits[i] := bits[i] | extra;
      remaining := remaining - {i};
    }
  }

  function BitsOf(labelBits: map<nat, bv8>, l: nat): bv8 {
    if l in labelBits then labelBits[l] else 0
  }

  method UniteLabels(labelBits: map<nat, bv8>, labels: set<nat>, extra: bv8) returns (united: map<nat, bv8>)
    ensures united.Keys == labelBits.Keys + labels
    ensures forall l: nat ::
              BitsOf(united, l) == if l in labels then BitsOf(labelBits, l) | extra else BitsOf(labelBits, l)
  {
    united := labelBits;
    var remaining := labels;
    while remaining != {}
      invariant remaining <= labels && united.Keys == labelBits.Keys + (labels - remaining)
      invariant forall l: nat ::
                  BitsOf(united, l) == if l in labels && l !in remaining
                                       then BitsOf(labelBits, l) | extra else BitsOf(labelBits, l)
      decreases remaining
    {
      var l :| l in remaining;
      united := united[l := BitsOf(united, l) | extra];
      remaining := remaining - {l};
    }
  }

  // The marks the first n warnings left by region id, and by label.
  ghost predicate IdMarks(regions: seq<Region>, warnings: seq<Finding>, bits: seq<bv8>) {
    && |bits| == |regions|
    && (forall i: nat, s :: i < |bits| ==> (HasBit(bits[i], s) <==> MarkedById(regions, warnings, s, i)))
    && (forall i :: 0 <= i < |bits| ==> bits[i] < 8)
  }

  ghost predicate LabelMarks(labels: set<nat>, warnings: seq<Finding>, labelBits: map<nat, bv8>) {
    && labelBits.Keys <= labels
    && (forall l: nat, s :: l in labels ==> (HasBit(BitsOf(labelBits, l), s) <==> MarkedByLabel(warnings, s, l)))
    && (forall l: nat :: BitsOf(labelBits, l) < 8)
  }

  lemma MarksGrow(regions: seq<Region>, warnings: seq<Finding>, finding: Finding, s: Severity, i: nat, l: nat)
    ensures MarkedById(regions, warnings + [finding], s, i) <==>
            MarkedById(regions, warnings, s, i) || (finding.severity == s && NamesRegion(regions, finding, i))
    ensures MarkedByLabel(warnings + [finding], s, l) <==>
            MarkedByLabel(warnings, s, l) || (finding.severity == s && NamesLabel(finding, l))
  {
    var all := warnings + [finding];
    assert all[|warnings|] == finding;
    assert forall k :: 0 <= k < |warnings| ==> all[k] == warnings[k];
  }

  lemma IdMarksGrow(regions: seq<Region>, warnings: seq<Finding>, finding: Finding, before: seq<bv8>, after: seq<bv8>)
    requires IdMarks(regions, warnings, before) && |after| == |before|
    requires forall i :: 0 <= i < |after| ==>
               after[i] == if NamesRegion(regions, finding, i) then before[i] | Bit(finding.severity) else before[i]
    ensures IdMarks(regions, warnings + [finding], after)
  {
    forall i: nat, s | i < |after| ensures HasBit(after[i], s) <==> MarkedById(regions, warnings + [finding], s, i) {
      MarksGrow(regions, warnings, finding, s, i, 0);
      SettingABit(before[i], finding.severity, s);
    }
  }

  lemma LabelMarksGrow(labels: set<nat>, warnings: seq<Finding>, finding: Finding, before: map<nat, bv8>,
                       after: map<nat, bv8>)
    requires LabelMarks(labels, warnings, before)
    requires after.Keys <= labels
    requires forall l: nat ::
               BitsOf(after, l) == if l in labels && NamesLabel(finding, l)
                                   then BitsOf(before, l) | Bit(finding.severity) else BitsOf(before, l)
    ensures LabelMarks(labels, warnings + [finding], after)
  {
    forall l: nat, s | l in labels ensures HasBit(BitsOf(after, l), s) <==> MarkedByLabel(warnings + [finding], s, l) {
      MarksGrow([], warnings, finding, s, 0, l);
      SettingABit(BitsOf(before, l), finding.severity, s);
    }
  }

  lemma MarkedByIdOrLabel(regions: seq<Region>, warnings: seq<Finding>, s: Severity, i: nat)
    requires i < |regions|
    ensures Marked(regions, warnings, s, i) <==>
            MarkedById(regions, warnings, s, i) || MarkedByLabel(warnings, s, regions[i].paletteLabel)
  {
    if k :| 0 <= k < |warnings| && warnings[k].severity == s && NamesLabel(warnings[k], regions[i].paletteLabel) {
      assert Names(regions, warnings[k], i);
    }
    if k :| 0 <= k < |warnings| && warnings[k].severity == s && NamesRegion(regions, warnings[k], i) {
      assert Names(regions, warnings[k], i);
    }
  }

  /** The region plane holds for every region exactly the severities that mark it. */
  ghost predicate AllMarks(regions: seq<Region>, warnings: seq<Finding>, bits: seq<bv8>) {
    && |bits| == |regions|
    && (forall i: nat, s :: i < |bits| ==> (HasBit(bits[i], s) <==> Marked(regions, warnings, s, i)))
    && (forall i :: 0 <= i < |bits| ==> bits[i] < 8)
  }

  lemma NothingMarked(regions: seq<Region>, labels: set<nat>, bits: seq<bv8>)
    requires |bits| == |regions| && forall i :: 0 <= i < |bits| ==> bits[i] == 0
    ensures IdMarks(regions, [], bits) && LabelMarks(labels, [], map[])
  {
    assert forall s :: !HasBit(0, s);
  }

  lemma AffectedRegions(regions: seq<Region>, finding: Finding, regionIndex: map<nat, nat>, affected: set<nat>, i: nat)
    requires IndexedById(regions, regionIndex)
    requires affected == set id | id in finding.regionIds && id in regionIndex :: regionIndex[id]
    ensures i in affected <==> NamesRegion(regions, finding, i)
  {
    if NamesRegion(regions, finding, i) {
      assert regions[i].id in finding.regionIds;
    }
  }

  lemma ExactOrApproximate(regions: seq<Region>, finding: Finding, affected: set<nat>, affectedLabels: set<nat>)
    requires forall i: nat :: i in affected <==> NamesRegion(regions, finding, i)
    requires forall l :: l in affectedLabels <==>
               NamesLabel(finding, l) && exists i :: 0 <= i < |regions| && regions[i].paletteLabel == l
    ensures IsExact(regions, finding) <==> affected != {} || affectedLabels != {}
  {
    if i: nat :| i in affected {
      assert Names(regions, finding, i);
    }
    if l: nat :| l in affectedLabels {
      var i :| 0 <= i < |regions| && regions[i].paletteLabel == l;
      assert Names(regions, finding, i);
    }
    if IsExact(regions, finding) {
      var i: nat :| Names(regions, finding, i);
      assert i in affected || regions[i].paletteLabel in affectedLabels;
    }
  }

  lemma ExactWarningsGrow(regions: seq<Region>, warnings: seq<Finding>, finding: Finding)
    ensures |ExactWarnings(regions, warnings + [finding])|
         == |ExactWarnings(regions, warnings)| + if IsExact(regions, finding) then 1 else 0
  {
    var all := warnings + [finding];
    var before, after := ExactWarnings(regions, warnings), ExactWarnings(regions, all);
    var last := |warnings|;
    assert all[last] == finding;
    forall k: nat | k != last ensures k in before <==> k in after {
      if k < last {
        assert all[k] == warnings[k];
      }
    }
    if IsExact(regions, finding) {
      assert last in after && last !in before;
      assert after == before + {last};
    } else {
      assert after == before;
    }
  }

  /** The label marks reach every region of the label. */
  method SpreadLabels(regions: seq<Region>, warnings: seq<Finding>, labelBits: map<nat, bv8>,
                      labelIndices: map<nat, set<nat>>, regionBits: array<bv8>)
    requires regionBits.Length == |regions| && IdMarks(regions, warnings, regionBits[..])
    requires forall l: nat :: l in labelIndices <==> exists i :: 0 <= i < |regions| && regions[i].paletteLabel == l
    requires forall l :: l in labelIndices ==>
              labelIndices[l] == set i: nat | i < |regions| && regions[i].paletteLabel == l
    requires LabelMarks(labelIndices.Keys, warnings, labelBits)
    modifies regionBits
    ensures AllMarks(regions, warnings, regionBits[..])
  {
    ghost var marked := regionBits[..];
    var remaining := labelBits.Keys;
    while remaining != {}
      invariant remaining <= labelBits.Keys
      invariant forall i :: 0 <= i < |regions| ==>
                  regionBits[i] == if regions[i].paletteLabel in remaining then marked[i]
                                   else marked[i] | BitsOf(labelBits, regions[i].paletteLabel)
      decreases remaining
    {
      var l :| l in remaining;
      UniteAt(regionBits, labelIndices[l], labelBits[l]);
      remaining := remaining - {l};
    }
    forall i: nat, s | i < |regions| ensures HasBit(regionBits[i], s) <==> Marked(regions, warnings, s, i) {
      MarkedByIdOrLabel(regions, warnings, s, i);
      assert regions[i].paletteLabel in labelIndices;
      UnitingBits(marked[i], BitsOf(labelBits, regions[i].paletteLabel), s);
    }
  }

  method MarkFinding(regions: seq<Region>, ghost warnings: seq<Finding>, finding: Finding, regionIndex: map<nat, nat>,
                     labels: set<nat>, regionBits: array<bv8>, labelBits: map<nat, bv8>)
    returns (exact: bool, united: map<nat, bv8>)
    requires IndexedById(regions, regionIndex)
    requires LabelsOf(regions, labels)
    requires regionBits.Length == |regions| && IdMarks(regions, warnings, regionBits[..])
    requires LabelMarks(labels, warnings, labelBits)
    modifies regionBits
    ensures exact == IsExact(regions, finding)
    ensures IdMarks(regions, warnings + [finding], regionBits[..])
    ensures LabelMarks(labels, warnings + [finding], united)
  {
    var affected := set id | id in finding.regionIds && id in regionIndex :: regionIndex[id];
    var affectedLabels := set l: nat | l in finding.labels && l in labels;
    forall i: nat ensures i in affected <==> NamesRegion(regions, finding, i) {
      AffectedRegions(regions, finding, regionIndex, affected, i);
    }
    ExactOrApproximate(regions, finding, affected, affectedLabels);
    ghost var marked := regionBits[..];
    exact, united := affected != {} || affectedLabels != {}, labelBits;
    if exact {
      var bit := Bit(finding.severity);
      UniteAt(regionBits, affected, bit);
      united := UniteLabels(labelBits, affectedLabels, bit);
    }
    IdMarksGrow(regions, warnings, finding, marked, regionBits[..]);
    LabelMarksGrow(labels, warnings, finding, labelBits, united);
  }

  // The loop over the warnings; what labels are marked with is spread afterwards.
  method MarkWarnings(regions: seq<Region>, warnings: seq<Finding>, regionIndex: map<nat, nat>, labels: set<nat>,
                      regionBits: array<bv8>)
    returns (labelBits: map<nat, bv8>, exactCount: nat, approximateCount: nat)
    requires IndexedById(regions, regionIndex)
    requires LabelsOf(regions, labels)
    requires regionBits.Length == |regions| && IdMarks(regions, [], regionBits[..]) && LabelMarks(labels, [], map[])
    modifies regionBits
    ensures IdMarks(regions, warnings, regionBits[..]) && LabelMarks(labels, warnings, labelBits)
    ensures exactCount == |ExactWarnings(regions, warnings)|
    ensures exactCount + approximateCount == |warnings|
  {
    labelBits, exactCount, approximateCount := map[], 0, 0;
    for k := 0 to |warnings|
      invariant IdMarks(regions, warnings[..k], regionBits[..])
      invariant LabelMarks(labels, warnings[..k], labelBits)
      invariant exactCount == |ExactWarnings(regions, warnings[..k])| && exactCount + approximateCount == k
    {
      var finding := warnings[k];
      var exact;
      exact, labelBits := MarkFinding(regions, warnings[..k], finding, regionIndex, labels, regionBits, labelBits);
      ExactWarningsGrow(regions, warnings[..k], finding);
      if exact {
        exactCount := exactCount + 1;
      } else {
        approximateCount := approximateCount + 1;
      }
      assert warnings[..k] + [finding] == warnings[..k + 1];
    }
    assert warnings[..|warnings|] == warnings;
  }

  method MarkRegions(regions: seq<Region>, warnings: seq<Finding>)
    returns (regionBits: array<bv8>, exactCount: nat, approximateCount: nat)
    ensures fresh(regionBits) && AllMarks(regions, warnings, regionBits[..])
    ensures exactCount == |ExactWarnings(regions, warnings)|
    ensures exactCount + approximateCount == |warnings|
  {
    var regionIndex := RegionIndex(regions);
    var labelIndices := LabelIndices(regions);
    regionBits := new bv8[|regions|](_ => 0);
    NothingMarked(regions, labelIndices.Keys, regionBits[..]);
    var labelBits;
    labelBits, exactCount, approximateCount :=
      MarkWarnings(regions, warnings, regionIndex, labelIndices.Keys, regionBits);
    SpreadLabels(regions, warnings, labelBits, labelIndices, regionBits);
  }

  /** A pixel carries a severity exactly when it is printed and a warning of that severity names its region or label. */
  ghost predicate IsMask(graph: Graph, warnings: seq<Finding>, cells: seq<int>, pixels: seq<bv8>) {
    && |pixels| == |cells|
    && (forall p :: 0 <= p < |pixels| ==> pixels[p] < 8)
    && (forall p, s :: 0 <= p < |pixels| ==>
          (HasBit(pixels[p], s) <==> cells[p] >= 0 && Marked(graph.regions, warnings, s, cells[p])))
  }

  method RiskSeverityMask(assignment: Assignment, graph: Graph, report: Report) returns (outcome: Outcome)
    ensures outcome.DimensionMismatch? <==> assignment.height != graph.height || assignment.width != graph.width
    ensures outcome.FingerprintMismatch? <==>
            !outcome.DimensionMismatch? && report.graphFingerprint != graph.fingerprint
    ensures outcome.IndexOutOfRange? <==>
            && !outcome.DimensionMismatch?
            && !outcome.FingerprintMismatch?
            && exists p :: 0 <= p < |assignment.cells| && assignment.cells[p] >= |graph.regions|
    ensures outcome.Mask? ==> IsMask(graph, report.warnings, assignment.cells, outcome.pixels)
    ensures outcome.Mask? ==> outcome.exactCount == |ExactWarnings(graph.regions, report.warnings)|
    ensures outcome.Mask? ==> outcome.exactCount + outcome.approximateCount == |report.warnings|
  {
    if assignment.height != graph.height || assignment.width != graph.width {
      return DimensionMismatch;
    }
    if report.graphFingerprint != graph.fingerprint {
      return FingerprintMismatch;
    }
    var regionBits, exactCount, approximateCount := MarkRegions(graph.regions, report.warnings);
    var pixels: seq<bv8> := [];
    ghost var bits := regionBits[..];
    for p := 0 to |assignment.cells|
      invariant |pixels| == p && regionBits[..] == bits
      invariant forall q :: 0 <= q < p ==> assignment.cells[q] < |graph.regions|
      invariant forall q :: 0 <= q < p ==>
                pixels[q] == if assignment.cells[q] >= 0 then bits[assignment.cells[q]] else 0
    {
      var index := assignment.cells[p];
      if index >= |graph.regions| {
        return IndexOutOfRange;
      }
      pixels := pixels + [if index >= 0 then regionBits[index] else 0];
    }
    assert forall s :: !HasBit(0, s);
    outcome := Mask(pixels, exactCount, approximateCount);
  }

  // ----- what the definition determines

  /** The definition leaves no freedom: it fixes every byte of the mask. */
  lemma MaskIsDetermined(graph: Graph, warnings: seq<Finding>, cells: seq<int>, a: seq<bv8>, b: seq<bv8>)
    requires IsMask(graph, warnings, cells, a) && IsMask(graph, warnings, cells, b)
    ensures a == b
  {
    forall p | 0 <= p < |cells| ensures a[p] == b[p] {
      assert forall s :: HasBit(a[p], s) <==> HasBit(b[p], s);
      SameBits(a[p], b[p]);
    }
  }

  lemma SameBits(a: bv8, b: bv8)
    requires a < 8 && b < 8 && forall s :: HasBit(a, s) <==> HasBit(b, s)
    ensures a == b
  {
    assert HasBit(a, Info) <==> HasBit(b, Info);
    assert HasBit(a, Warning) <==> HasBit(b, Warning);
    assert HasBit(a, Error) <==> HasBit(b, Error);
    assert a == (a & 1) | (a & 2) | (a & 4);
    assert b == (b & 1) | (b & 2) | (b & 4);
  }

  /** The batch does not depend on the order or repetition of warnings. */
  lemma MaskIgnoresOrder(graph: Graph, warnings: seq<Finding>, others: seq<Finding>, cells: seq<int>, a: seq<bv8>,
                         b: seq<bv8>)
    requires forall finding :: finding in warnings <==> finding in others
    requires IsMask(graph, warnings, cells, a) && IsMask(graph, others, cells, b)
    ensures a == b
  {
    forall s, i: nat ensures Marked(graph.regions, warnings, s, i) <==> Marked(graph.regions, others, s, i) {
      MarksCarryOver(graph.regions, warnings, others, s, i);
      MarksCarryOver(graph.regions, others, warnings, s, i);
    }
    MaskIsDetermined(graph, warnings, cells, a, b);
  }

  lemma MarksCarryOver(regions: seq<Region>, warnings: seq<Finding>, others: seq<Finding>, s: Severity, i: nat)
    requires forall finding :: finding in warnings ==> finding in others
    ensures Marked(regions, warnings, s, i) ==> Marked(regions, others, s, i)
  {
    if Marked(regions, warnings, s, i) {
      var k :| 0 <= k < |warnings| && warnings[k].severity == s && Names(regions, warnings[k], i);
      assert warnings[k] in others;
    }
  }

  /** Without duplicate ids, a warning names a region exactly when it lists the region's id or its label. */
  lemma DistinctIdsNameDirectly(regions: seq<Region>, finding: Finding, index: nat)
    requires index < |regions|
    requires forall i, j :: 0 <= i < j < |regions| ==> regions[i].id != regions[j].id
    ensures Names(regions, finding, index) <==>
            regions[index].id in finding.regionIds || regions[index].paletteLabel in finding.labels
  {
    assert forall later :: index < later < |regions| ==> regions[index].id != regions[later].id;
  }

  /** The warning lists the region's label, or its id when no later region has the same. */
  ghost predicate Touches(regions: seq<Region>, finding: Finding, index: int) {
    && 0 <= index < |regions|
    && (|| regions[index].paletteLabel in finding.labels
        || (regions[index].id in finding.regionIds
            && forall later :: index < later < |regions| ==> regions[later].id != regions[index].id))
  }

  ghost predicate Touched(regions: seq<Region>, warnings: seq<Finding>, severity: Severity, index: int) {
    exists finding :: finding in warnings && finding.severity == severity && Touches(regions, finding, index)
  }

  lemma MarkedIsTouched(regions: seq<Region>, warnings: seq<Finding>, severity: Severity, index: nat)
    ensures Marked(regions, warnings, severity, index) <==> Touched(regions, warnings, severity, index)
  {
    if finding :| finding in warnings && finding.severity == severity && Touches(regions, finding, index) {
      var k :| 0 <= k < |warnings| && warnings[k] == finding;
      assert Names(regions, warnings[k], index);
    }
    if k :| 0 <= k < |warnings| && warnings[k].severity == severity && Names(regions, warnings[k], index) {
      assert Touches(regions, warnings[k], index);
    }
  }

  /** One for an info, two for a warning and four for an error that touches the pixel's region. */
  lemma MaskByteIsASum(graph: Graph, warnings: seq<Finding>, cells: seq<int>, pixels: seq<bv8>, p: nat)
    requires IsMask(graph, warnings, cells, pixels) && p < |cells|
    ensures pixels[p] == (if Touched(graph.regions, warnings, Info, cells[p]) then 1 else 0)
                         + (if Touched(graph.regions, warnings, Warning, cells[p]) then 2 else 0)
                         + (if Touched(graph.regions, warnings, Error, cells[p]) then 4 else 0)
  {
    if cells[p] >= 0 {
      MarkedIsTouched(graph.regions, warnings, Info, cells[p]);
      MarkedIsTouched(graph.regions, warnings, Warning, cells[p]);
      MarkedIsTouched(graph.regions, warnings, Error, cells[p]);
    }
    assert HasBit(pixels[p], Info) <==> Touched(graph.regions, warnings, Info, cells[p]);
    assert HasBit(pixels[p], Warning) <==> Touched(graph.regions, warnings, Warning, cells[p]);
    assert HasBit(pixels[p], Error) <==> Touched(graph.regions, warnings, Error, cells[p]);
    BitsAddUp(pixels[p]);
  }

  lemma BitsAddUp(bits: bv8)
    requires bits < 8
    ensures bits == (if bits & 1 != 0 then 1 else 0)
                    + (if bits & 2 != 0 then 2 else 0)
                    + (if bits & 4 != 0 then 4 else 0)
  {
    assert bits in {0, 1, 2, 3, 4, 5, 6, 7};
  }
}
