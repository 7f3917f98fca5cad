/** Version ranges and scan ranges: make_version_range, set_range and set_range2. */
module Range {
  import opened Common

  /** ObBorderFlag: which ends of a range are inclusive and which are unbounded. */
  datatype BorderFlag = BorderFlag(inclusiveStart: bool, inclusiveEnd: bool, minValue: bool, maxValue: bool)

  const NoBorder := BorderFlag(false, false, false, false)

  /** ObVersionRange. */
  datatype VersionRange = VersionRange(border: BorderFlag, startVersion: int, endVersion: int)

  /** A default-constructed ObVersionRange. */
  const DefaultVersionRange := VersionRange(NoBorder, 0, 0)

  /** Whether data version `v` is visible through `vr`. */
  predicate Admits(vr: VersionRange, v: int) {
    (vr.border.minValue ||
     (if vr.border.inclusiveStart then v >= vr.startVersion else v > vr.startVersion)) &&
    (vr.border.maxValue ||
     (if vr.border.inclusiveEnd then v <= vr.endVersion else v < vr.endVersion))
  }

  /**
   * make_version_range: a positive start version turns the range into the version floor
   * [startVersion, +inf); otherwise the range is left as it was. The status is always success.
   */
  function MakeVersionRange(vr: VersionRange, startVersion: int): (r: (Err, VersionRange))
    ensures r.0 == Success
    ensures startVersion <= 0 ==> r.1 == vr
    ensures startVersion > 0 ==>
      r.1.border.inclusiveStart && !r.1.border.inclusiveEnd && r.1.border.maxValue &&
      r.1.border.minValue == vr.border.minValue &&
      r.1.startVersion == startVersion && r.1.endVersion == 0
    ensures startVersion > 0 && !vr.border.minValue ==>
      forall v :: Admits(r.1, v) <==> v >= startVersion
  {
    if startVersion > 0 then
      var border := vr.border.(inclusiveStart := true, inclusiveEnd := false, maxValue := true);
      (Success, VersionRange(border, startVersion, 0))
    else
      (Success, vr)
  }

  /** ObNewRange: start and end rowkeys with their border flags. */
  datatype NewRange = NewRange(startKey: Rowkey, endKey: Rowkey, border: BorderFlag)

  /** ObScanParam, restricted to the fields the generator sets. */
  datatype ScanParam = ScanParam(
    tableId: nat, tableName: string, range: NewRange, versionRange: VersionRange,
    limitOffset: int, limitCount: int, readConsistency: bool)

  /** The border of a range whose two ends are both inclusive. */
  const ClosedBorder := NoBorder.(inclusiveStart := true, inclusiveEnd := true)

  /**
   * set_range2: scan `tableName` (by name; the id is OB_INVALID_ID) over the closed range
   * [startKey, endKey], with the version range built from a fresh one by make_version_range.
   */
  function SetRange2(param: ScanParam, tableName: string, startVersion: int,
                     startKey: Rowkey, endKey: Rowkey): (r: (Err, ScanParam))
    ensures r.0 == Success
    ensures r.1.tableId == InvalidId && r.1.tableName == tableName
    ensures r.1.range.startKey == startKey && r.1.range.endKey == endKey
    ensures r.1.range.border.inclusiveStart && r.1.range.border.inclusiveEnd
    ensures !r.1.range.border.minValue && !r.1.range.border.maxValue
    ensures startVersion > 0 ==> forall v :: Admits(r.1.versionRange, v) <==> v >= startVersion
    ensures startVersion <= 0 ==> r.1.versionRange == DefaultVersionRange
    ensures r.1.limitOffset == param.limitOffset && r.1.limitCount == param.limitCount
    ensures r.1.readConsistency == param.readConsistency
  {
    var range := NewRange(startKey, endKey, ClosedBorder);
    var (_, vr) := MakeVersionRange(DefaultVersionRange, startVersion);
    (Success, param.(tableId := InvalidId, tableName := tableName, range := range, versionRange := vr))
  }

  /** One end of set_range's range: a sentinel, or the rowkey parsed from hex text (ObRowkey() when parsing fails). */
  function ParseBound(parse: string -> Result<Rowkey>, text: string, sentinel: string, marker: Rowkey): (Err, Rowkey) {
    if text == sentinel then (Success, marker)
    else match parse(text)
      case Ok(k) => (Success, k)
      case Fail(e) => (e, Key([]))
  }

  /**
   * set_range as written: the start key "min" and the end key "max" select the bound markers,
   * any other text is parsed; the status it returns is that of the LAST parse it ran, so a failed
   * start-key parse is reported only when the end key is "max".
   */
  function SetRange(parse: string -> Result<Rowkey>, param: ScanParam, tableName: string,
                    startVersion: int, startText: string, endText: string): (r: (Err, ScanParam))
    ensures r.1.tableId == InvalidId && r.1.tableName == tableName
    ensures r.1.range.border == ClosedBorder
    ensures startText == "min" ==> r.1.range.startKey == MinRow
    ensures endText == "max" ==> r.1.range.endKey == MaxRow
    ensures endText != "max" ==> r.0 == parse(endText).Status()
    ensures endText == "max" ==> r.0 == (if startText == "min" then Success else parse(startText).Status())
    ensures r.1.versionRange == MakeVersionRange(DefaultVersionRange, startVersion).1
    ensures r.1 == SetRangeChecked(parse, param, tableName, startVersion, startText, endText).1
  {
    var (e1, startKey) := ParseBound(parse, startText, "min", MinRow);
    var (e2, endKey) := ParseBound(parse, endText, "max", MaxRow);
    var err := if endText == "max" then e1 else e2;
    var (_, vr) := MakeVersionRange(DefaultVersionRange, startVersion);
    (err, param.(tableId := InvalidId, tableName := tableName,
                 range := NewRange(startKey, endKey, ClosedBorder), versionRange := vr))
  }

  /** The input that shows the lost error: a start key that fails to parse and an end key that parses. */
  lemma SetRangeLosesStartKeyError(parse: string -> Result<Rowkey>, param: ScanParam, tableName: string,
                                   startVersion: int, startText: string, endText: string)
    requires startText != "min" && parse(startText).Fail?
    requires endText != "max" && parse(endText).Ok?
    ensures SetRange(parse, param, tableName, startVersion, startText, endText).0 == Success
  {
  }

  /** set_range with the evident intent: the first failed parse is the status. */
  function SetRangeChecked(parse: string -> Result<Rowkey>, param: ScanParam, tableName: string,
                           startVersion: int, startText: string, endText: string): (r: (Err, ScanParam))
    ensures r.0 == Success <==>
      (startText == "min" || parse(startText).Ok?) && (endText == "max" || parse(endText).Ok?)
    ensures startText != "min" && parse(startText).Fail? ==> r.0 == parse(startText).error
    ensures r.0 == Success ==>
      r.1 == SetRange2(param, tableName, startVersion,
                       if startText == "min" then MinRow else parse(startText).value,
                       if endText == "max" then MaxRow else parse(endText).value).1
  {
    var (e1, startKey) := ParseBound(parse, startText, "min", MinRow);
    var (e2, endKey) := ParseBound(parse, endText, "max", MaxRow);
    var err := if e1 != Success then e1 else e2;
    var (_, vr) := MakeVersionRange(DefaultVersionRange, startVersion);
    (err, param.(tableId := InvalidId, tableName := tableName,
                 range := NewRange(startKey, endKey, ClosedBorder), versionRange := vr))
  }
}
