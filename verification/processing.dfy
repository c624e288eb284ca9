/**
  The message handler the subscription receive loop calls for each delivered
  message (`processFunc` in main.go). It decodes the body as a JSON object,
  takes the `metadata` object, parses `reportfile_date` and re-emits it in the
  output layout, reads `client_code`, `device_code` and `is_raw`, prints a
  line for a non-raw message and acknowledges the message with `Complete`.

  The body arrives already decoded (or with the decoder's error), the clock
  reading is a parameter, and so is what `Complete` returns. The handler's
  unchecked type assertions are modelled as a panic outcome, distinct from
  the errors it returns.
*/
module Processing {
  import opened Wrappers
  import opened Json
  import opened GoTime

  /**
    The message body as `json.Unmarshal` scanned it: rejected by the scanner
    (a syntax error, including nesting deeper than 10000 levels), or a
    well-formed document. Whether the document then fits the target map is
    decided by `Unmarshal`.
  */
  datatype Payload = Undecodable(reason: string) | Decoded(document: Value)

  /** The handler's `sbMsg` record. */
  datatype SbMsg = SbMsg(
    clientCode: string,
    deviceCode: string,
    reportFileProcessed: string,
    currentTime: string,
    msgRaw: bool)

  /** What the handler does that can be observed from outside. */
  datatype Effect = Printed(line: string) | Completed

  /** Errors the handler returns to the receive loop. */
  datatype ProcessError =
    | DecodeFailed(reason: string)   // the body is not JSON
    | NotAnObject                    // JSON, but neither an object nor null
    | NumberOverflow                 // an object holding a number beyond float64 range
    | BadReportDate(cause: DateError)

  /** The type assertion that failed at run time. */
  datatype PanicCause =
    | MetadataNotObject
    | ReportDateNotString
    | ClientCodeNotString
    | DeviceCodeNotString
    | IsRawNotBool

  /**
    The three ways the handler ends: an error returned before anything is
    printed or acknowledged, a run-time panic, or a handled message whose
    effects happened in order and whose returned value is what `Complete`
    returned (`ack`, None for success).
  */
  datatype Outcome =
    | Returned(err: ProcessError)
    | Panicked(cause: PanicCause)
    | Handled(msg: SbMsg, effects: seq<Effect>, ack: Option<string>)

  /** The metadata keys the handler reads. */
  const UsedKeys: set<string> := {"reportfile_date", "client_code", "device_code", "is_raw"}

  /**
    `json.Unmarshal(s, &raw)` into a `map[string]interface{}`. The scanner's
    syntax error comes first. A JSON null leaves `raw` a nil map, in which
    every lookup finds nothing; any other non-object is a type error. An
    object decodes only if every number in it, at any depth, fits a float64.
  */
  function Unmarshal(p: Payload): (r: Result<map<string, Value>, ProcessError>)
    ensures r.Ok? <==> p.Decoded? && (p.document.Null? || (p.document.Object? && NumbersFit(p.document)))
    ensures r.Ok? ==> forall k :: k in r.value ==> NumbersFit(r.value[k])
    ensures r.Ok? && p.document.Object? ==> r.value == p.document.members
    ensures p.Decoded? && p.document.Object? && !NumbersFit(p.document) ==> r == Err(NumberOverflow)
  {
    match p
    case Undecodable(reason) => Err(DecodeFailed(reason))
    case Decoded(Object(members, shadowedOverflow)) =>
      if NumbersFit(Object(members, shadowedOverflow)) then Ok(members) else Err(NumberOverflow)
    case Decoded(Null) => Ok(map[])
    case Decoded(_) => Err(NotAnObject)
  }

  /** `m[key].(map[string]interface{})`; None where that assertion panics. */
  function ObjectAt(m: map<string, Value>, key: string): Option<map<string, Value>> {
    if key in m && m[key].Object? then Some(m[key].members) else None
  }

  /** `m[key].(string)`; None where that assertion panics. */
  function StringAt(m: map<string, Value>, key: string): Option<string> {
    if key in m && m[key].String? then Some(m[key].str) else None
  }

  /** `m[key].(bool)`; None where that assertion panics. */
  function BoolAt(m: map<string, Value>, key: string): Option<bool> {
    if key in m && m[key].Bool? then Some(m[key].b) else None
  }

  /** The line printed for a non-raw message (`%v` of a bool prints `true` or `false`). */
  function PrintLine(m: SbMsg): (line: string)
    ensures |line| > 18 + |m.clientCode| && line[..18] == "Msg: ClientCode = "
    ensures line[18..18 + |m.clientCode|] == m.clientCode
    ensures !m.msgRaw ==> |line| >= 13 && line[|line| - 13..] == ", Raw: false\n"
    ensures m.msgRaw ==> |line| >= 12 && line[|line| - 12..] == ", Raw: true\n"
  {
    var head := "Msg: ClientCode = " + m.clientCode;
    var middle := ", DeviceCode = " + m.deviceCode + ", ReportFileDate: " + m.reportFileProcessed
      + " CurrentTime = " + m.currentTime;
    var tail := if m.msgRaw then ", Raw: true\n" else ", Raw: false\n";
    var line := head + middle + tail;
    assert line[..|head|] == head;
    assert line[|line| - |tail|..] == tail;
    line
  }

  function CountCompleted(effects: seq<Effect>): nat {
    if |effects| == 0 then 0
    else (if effects[0] == Completed then 1 else 0) + CountCompleted(effects[1..])
  }

  /** Some effect is a printed line. */
  predicate PrintsLine(effects: seq<Effect>) {
    exists i :: 0 <= i < |effects| && effects[i].Printed?
  }

  /**
    `processFunc`. A body that does not decode into the handler's map is a
    returned error, before anything is printed or acknowledged; a handled
    message is acknowledged exactly once, last, and the handler returns what
    `Complete` returned.
  */
  function ProcessFunc(p: Payload, now: DateTime, ack: Option<string>): (o: Outcome)
    ensures Unmarshal(p).Err? <==> o.Returned? && !o.err.BadReportDate?
    ensures o.Handled? ==> CountCompleted(o.effects) == 1 && o.effects[|o.effects| - 1] == Completed && o.ack == ack
    ensures o.Handled? ==> (PrintsLine(o.effects) <==> !o.msg.msgRaw)
  {
    match Unmarshal(p)
    case Err(e) => Returned(e)
    case Ok(raw) =>
      match ObjectAt(raw, "metadata")
      case None => Panicked(MetadataNotObject)
      case Some(meta) => ProcessMetadata(meta, now, ack)
  }

  /** The handler from the report date on, given the asserted `metadata` map. */
  function ProcessMetadata(meta: map<string, Value>, now: DateTime, ack: Option<string>): (o: Outcome)
    ensures o.Returned? ==> o.err.BadReportDate?
    ensures o.Handled? ==> CountCompleted(o.effects) == 1 && o.effects[|o.effects| - 1] == Completed && o.ack == ack
    ensures o.Handled? ==> (PrintsLine(o.effects) <==> !o.msg.msgRaw)
  {
    match StringAt(meta, "reportfile_date")
    case None => Panicked(ReportDateNotString)
    case Some(date) =>
      match ParseCompact(date)
      case Err(cause) => Returned(BadReportDate(cause))
      case Ok(parsed) => BuildMessage(meta, Format(parsed), now, ack)
  }

  /**
    The `sbMsg` literal, print and `Complete`. The assertions inside the
    literal are taken in the order they are written (client code, device
    code, raw flag).
  */
  function BuildMessage(meta: map<string, Value>, reportFileProcessed: string, now: DateTime, ack: Option<string>): (o: Outcome)
    ensures o.Handled? ==> CountCompleted(o.effects) == 1 && o.effects[|o.effects| - 1] == Completed
    ensures o.Handled? ==> o.ack == ack
    ensures o.Handled? ==> (PrintsLine(o.effects) <==> !o.msg.msgRaw)
  {
    match StringAt(meta, "client_code")
    case None => Panicked(ClientCodeNotString)
    case Some(client) =>
      match StringAt(meta, "device_code")
      case None => Panicked(DeviceCodeNotString)
      case Some(device) =>
        match BoolAt(meta, "is_raw")
        case None => Panicked(IsRawNotBool)
        case Some(isRaw) =>
          var m := SbMsg(client, device, reportFileProcessed, Format(now), isRaw);
          var printed := if m.msgRaw then [] else [Printed(PrintLine(m))];
          assert CountCompleted([Completed]) == 1;
          assert CountCompleted([Printed(PrintLine(m)), Completed]) == 1;
          assert !m.msgRaw ==> (printed + [Completed])[0].Printed?;
          Handled(m, printed + [Completed], ack)
  }

  // ---------------------------------------------------------------- reference classification

  /** The body is an object that decodes into the handler's map: all its numbers fit a float64. */
  predicate TopIsObject(p: Payload) {
    p.Decoded? && p.document.Object? && NumbersFit(p.document)
  }

  /** The body is an object whose `metadata` member is an object. */
  predicate HasMetadata(p: Payload) {
    TopIsObject(p) && "metadata" in p.document.members && p.document.members["metadata"].Object?
  }

  function Metadata(p: Payload): map<string, Value>
    requires HasMetadata(p)
  {
    p.document.members["metadata"].members
  }

  /** The metadata carries a string report date. */
  predicate HasDateString(p: Payload) {
    HasMetadata(p) && "reportfile_date" in Metadata(p) && Metadata(p)["reportfile_date"].String?
  }

  function DateString(p: Payload): string
    requires HasDateString(p)
  {
    Metadata(p)["reportfile_date"].str
  }

  /** The three remaining fields have the Go types the handler asserts. */
  predicate FieldsWellTyped(p: Payload)
    requires HasMetadata(p)
  {
    var meta := Metadata(p);
    && "client_code" in meta && meta["client_code"].String?
    && "device_code" in meta && meta["device_code"].String?
    && "is_raw" in meta && meta["is_raw"].Bool?
  }

  /** Bodies the handler returns an error for. */
  predicate ReturnsError(p: Payload) {
    || p.Undecodable?
    || (p.Decoded? && !p.document.Object? && !p.document.Null?)
    || (p.Decoded? && p.document.Object? && !NumbersFit(p.document))
    || (HasDateString(p) && ParseCompact(DateString(p)).Err?)
  }

  /** Bodies that crash the handler. */
  predicate Panics(p: Payload) {
    || (p.Decoded? && p.document.Null?)
    || (TopIsObject(p) && !HasMetadata(p))
    || (HasMetadata(p) && !HasDateString(p))
    || (HasDateString(p) && ParseCompact(DateString(p)).Ok? && !FieldsWellTyped(p))
  }

  /** Bodies the handler acknowledges. */
  predicate Accepted(p: Payload) {
    HasDateString(p) && ParseCompact(DateString(p)).Ok? && FieldsWellTyped(p)
  }

  /**
    The outcome splits exactly along the three reference classes: an error is
    returned for undecodable bodies, non-object documents, objects holding a
    number beyond float64 range, and unparsable dates; the handler panics on a null document, a missing or non-object
    metadata, a missing or non-string date, and, only once the date has
    parsed, a mistyped client code, device code or raw flag; every other body
    is handled.
  */
  lemma OutcomeClassification(p: Payload, now: DateTime, ack: Option<string>)
    ensures ProcessFunc(p, now, ack).Returned? <==> ReturnsError(p)
    ensures ProcessFunc(p, now, ack).Panicked? <==> Panics(p)
    ensures ProcessFunc(p, now, ack).Handled? <==> Accepted(p)
  {
    if HasMetadata(p) {
      MetadataOutcome(p, now, ack);
    } else {
      assert !HasDateString(p) && !Accepted(p);
    }
  }

  /** Once the metadata object is in hand, the outcome is decided by the date and the three fields. */
  lemma MetadataOutcome(p: Payload, now: DateTime, ack: Option<string>)
    requires HasMetadata(p)
    ensures ProcessFunc(p, now, ack).Returned? <==> HasDateString(p) && ParseCompact(DateString(p)).Err?
    ensures ProcessFunc(p, now, ack).Handled? <==> Accepted(p)
  {
    var meta := Metadata(p);
    assert ProcessFunc(p, now, ack) == ProcessMetadata(meta, now, ack);
    if !HasDateString(p) {
      assert StringAt(meta, "reportfile_date").None?;
    } else {
      var date := DateString(p);
      assert StringAt(meta, "reportfile_date") == Some(date);
      match ParseCompact(date)
      case Err(cause) =>
        assert ProcessMetadata(meta, now, ack) == Returned(BadReportDate(cause));
      case Ok(parsed) =>
        assert ProcessMetadata(meta, now, ack) == BuildMessage(meta, Format(parsed), now, ack);
    }
  }

  /** A body that does not decode returns the decoder's error and is never acknowledged. */
  lemma UndecodableNeverCompleted(reason: string, now: DateTime, ack: Option<string>)
    ensures ProcessFunc(Undecodable(reason), now, ack) == Returned(DecodeFailed(reason))
  {
  }

  /**
    Missing or non-object metadata panics once the body has decoded; a
    top-level null decodes to a nil map and panics too. An object body with an
    overflowing number never reaches the assertion.
  */
  lemma MissingMetadataPanics(p: Payload, now: DateTime, ack: Option<string>)
    requires p.Decoded? && (p.document.Null? || (p.document.Object? && ObjectAt(p.document.members, "metadata").None?))
    ensures ProcessFunc(p, now, ack) == if NumbersFit(p.document) then Panicked(MetadataNotObject) else Returned(NumberOverflow)
  {
  }

  /**
    What a handled message carries: the three fields as sent, the report date
    as its first fourteen digits with separators inserted, the clock reading
    in the output layout, and exactly the effects "print unless raw, then
    complete".
  */
  lemma HandledMessage(p: Payload, now: DateTime, ack: Option<string>)
    requires ProcessFunc(p, now, ack).Handled?
    ensures Accepted(p)
    ensures var o := ProcessFunc(p, now, ack);
      && o.msg.clientCode == Metadata(p)["client_code"].str
      && o.msg.deviceCode == Metadata(p)["device_code"].str
      && o.msg.msgRaw == Metadata(p)["is_raw"].b
      && |DateString(p)| >= 14
      && o.msg.reportFileProcessed == Reinsert(DateString(p)[..14])
      && o.msg.currentTime == Format(now)
      && o.effects == (if o.msg.msgRaw then [] else [Printed(PrintLine(o.msg))]) + [Completed]
  {
    OutcomeClassification(p, now, ack);
    ReformatAccepted(DateString(p));
  }

  /**
    Every handled message is completed exactly once, as the last effect, the
    handler returns what `Complete` returned, and a line is printed exactly
    when the message is not raw.
  */
  lemma HandledEffects(p: Payload, now: DateTime, ack: Option<string>)
    requires ProcessFunc(p, now, ack).Handled?
    ensures var o := ProcessFunc(p, now, ack);
      && CountCompleted(o.effects) == 1
      && o.effects[|o.effects| - 1] == Completed
      && o.ack == ack
      && (PrintsLine(o.effects) <==> !o.msg.msgRaw)
  {
    var meta := Metadata(p);
    assert ProcessFunc(p, now, ack) == ProcessMetadata(meta, now, ack);
    var d := DateString(p);
    assert ProcessMetadata(meta, now, ack) == BuildMessage(meta, Format(ParseCompact(d).value), now, ack);
  }

  /**
    A line is printed only for a message that is not raw, so every printed
    line ends by reporting `Raw: false`.
  */
  lemma PrintedLinesSayNotRaw(meta: map<string, Value>, reportFileProcessed: string, now: DateTime, ack: Option<string>)
    requires BuildMessage(meta, reportFileProcessed, now, ack).Handled?
    ensures var o := BuildMessage(meta, reportFileProcessed, now, ack);
      forall e | e in o.effects && e.Printed? ::
        !o.msg.msgRaw && e.line == PrintLine(o.msg) && e.line[|e.line| - 13..] == ", Raw: false\n"
  {
    var o := BuildMessage(meta, reportFileProcessed, now, ack);
    if o.msg.msgRaw {
      assert o.effects == [Completed];
    } else {
      assert o.effects == [Printed(PrintLine(o.msg)), Completed];
    }
  }

  /** A fourteen-digit report date comes out as 19 characters that strip back to the input. */
  lemma HandledDateRoundTrip(p: Payload, now: DateTime, ack: Option<string>)
    requires ProcessFunc(p, now, ack).Handled?
    requires HasDateString(p) && |DateString(p)| == 14
    ensures |ProcessFunc(p, now, ack).msg.reportFileProcessed| == 19
    ensures StripSeparators(ProcessFunc(p, now, ack).msg.reportFileProcessed) == DateString(p)
  {
    var d := DateString(p);
    var meta := Metadata(p);
    assert ProcessFunc(p, now, ack) == ProcessMetadata(meta, now, ack);
    assert StringAt(meta, "reportfile_date") == Some(d);
    var r := ParseCompact(d);
    assert r.Ok?;
    assert ProcessMetadata(meta, now, ack) == BuildMessage(meta, Format(r.value), now, ack);
    assert FourteenDigits(d) by {
      AcceptedShape(d);
      assert d[..14] == d;
    }
    ReformatFourteenDigits(d);
  }

  /** An out-of-range date is returned as an error, so the message is never completed. */
  lemma OutOfRangeDateRejected(p: Payload, now: DateTime, ack: Option<string>)
    requires HasDateString(p) && FourteenDigits(DateString(p))
    requires !Valid(FieldsOf(DateString(p)))
    ensures ProcessFunc(p, now, ack).Returned?
    ensures ProcessFunc(p, now, ack).err.BadReportDate?
  {
    FourteenDigitsAcceptedIff(DateString(p));
  }

  // ---------------------------------------------------------------- extra keys

  /** The body reduced to what the handler reads: `metadata`, and inside it the four used keys. */
  function Relevant(top: map<string, Value>): map<string, Value> {
    if "metadata" !in top then map[]
    else
      var md := top["metadata"];
      if md.Object? then
        map["metadata" := Object(map k | k in md.members && k in UsedKeys :: md.members[k], md.shadowedOverflow)]
      else map["metadata" := md]
  }

  /** The handler reads the metadata only through the four used keys. */
  lemma ProcessMetadataReadsUsedKeys(m1: map<string, Value>, m2: map<string, Value>, now: DateTime, ack: Option<string>)
    requires StringAt(m1, "reportfile_date") == StringAt(m2, "reportfile_date")
    requires StringAt(m1, "client_code") == StringAt(m2, "client_code")
    requires StringAt(m1, "device_code") == StringAt(m2, "device_code")
    requires BoolAt(m1, "is_raw") == BoolAt(m2, "is_raw")
    ensures ProcessMetadata(m1, now, ack) == ProcessMetadata(m2, now, ack)
  {
    match StringAt(m1, "reportfile_date")
    case None =>
    case Some(date) =>
      match ParseCompact(date)
      case Err(_) =>
      case Ok(parsed) =>
        assert BuildMessage(m1, Format(parsed), now, ack) == BuildMessage(m2, Format(parsed), now, ack);
  }

  /** What the handler reads out of a body whose numbers all fit still has numbers that fit. */
  lemma RelevantNumbersFit(top: map<string, Value>)
    requires NumbersFit(Object(top, false))
    ensures NumbersFit(Object(Relevant(top), false))
  {
    if "metadata" in top && top["metadata"].Object? {
      var md := top["metadata"].members;
      assert NumbersFit(top["metadata"]);
      var kept := map k | k in md && k in UsedKeys :: md[k];
      forall k | k in kept
        ensures NumbersFit(kept[k])
      {
        assert NumbersFit(md[k]);
      }
      assert NumbersFit(Object(kept, false));
      assert Relevant(top) == map["metadata" := Object(kept, false)];
    }
  }

  /**
    Keys the handler does not read change nothing, as long as their values
    decode: the outcome is that of the body cut down to `metadata` and its
    four used keys. A number beyond float64 range anywhere, read or not, and
    even under a key a later duplicate overwrote, makes the decode fail, and
    that error is returned.
  */
  lemma ExtraKeysIgnored(top: map<string, Value>, shadowedOverflow: bool, now: DateTime, ack: Option<string>)
    ensures ProcessFunc(Decoded(Object(top, shadowedOverflow)), now, ack)
         == if NumbersFit(Object(top, shadowedOverflow)) then ProcessFunc(Decoded(Object(Relevant(top), false)), now, ack)
            else Returned(NumberOverflow)
  {
    var r := Relevant(top);
    if !NumbersFit(Object(top, shadowedOverflow)) {
    } else if "metadata" in top && top["metadata"].Object? {
      RelevantNumbersFit(top);
      var meta := top["metadata"].members;
      var kept := r["metadata"].members;
      assert ObjectAt(r, "metadata") == Some(kept);
      assert ObjectAt(top, "metadata") == Some(meta);
      assert ProcessFunc(Decoded(Object(top, false)), now, ack) == ProcessMetadata(meta, now, ack);
      assert ProcessFunc(Decoded(Object(r, false)), now, ack) == ProcessMetadata(kept, now, ack);
      assert "reportfile_date" in UsedKeys && "client_code" in UsedKeys;
      assert "device_code" in UsedKeys && "is_raw" in UsedKeys;
      ProcessMetadataReadsUsedKeys(meta, kept, now, ack);
    } else {
      RelevantNumbersFit(top);
      assert ObjectAt(r, "metadata") == None;
      assert ObjectAt(top, "metadata") == None;
    }
  }

  // ---------------------------------------------------------------- scenarios

  function ScenarioPayload(date: string): Payload {
    Decoded(Object(map["metadata" := Object(map[
      "client_code" := String("C1"),
      "device_code" := String("D9"),
      "message_code" := String("M1"),
      "is_raw" := Bool(false),
      "reportfile_date" := String(date)], false)], false))
  }

  lemma ScenarioDate()
    ensures FourteenDigits("20240115093000")
    ensures FieldsOf("20240115093000") == DateTime(2024, 1, 15, 9, 30, 0)
  {
    var d := "20240115093000";
    assert FourteenDigits(d);
    assert d[..4] == "2024" && d[4..6] == "01" && d[6..8] == "15";
    assert d[8..10] == "09" && d[10..12] == "30" && d[12..14] == "00";
    assert "2024"[..3] == "202" && "202"[..2] == "20" && "20"[..1] == "2" && "2"[..0] == "";
    assert DecimalValue("2") == 2;
    assert DecimalValue("20") == 20;
    assert DecimalValue("202") == 202;
    assert DecimalValue("2024") == 2024;
    assert "01"[..1] == "0" && "15"[..1] == "1" && "09"[..1] == "0";
    assert "30"[..1] == "3" && "00"[..1] == "0";
    assert "0"[..0] == "" && "1"[..0] == "" && "3"[..0] == "";
    assert DecimalValue("01") == 1;
    assert DecimalValue("15") == 15;
    assert DecimalValue("09") == 9;
    assert DecimalValue("30") == 30;
    assert DecimalValue("00") == 0;
  }

  lemma ScenarioReinsert()
    ensures Reinsert("20240115093000") == "2024-01-15 09:30:00"
  {
    var d := "20240115093000";
    assert d[..4] == "2024";
    assert d[4..6] == "01";
    assert d[6..8] == "15";
    assert d[8..10] == "09";
    assert d[10..12] == "30";
    assert d[12..14] == "00";
  }

  lemma ScenarioParses()
    ensures ParseCompact("20240115093000").Ok?
  {
    ScenarioDate();
    assert Valid(DateTime(2024, 1, 15, 9, 30, 0));
    FourteenDigitsAcceptedIff("20240115093000");
  }

  lemma ScenarioFields()
    ensures var p := ScenarioPayload("20240115093000");
      && HasDateString(p) && DateString(p) == "20240115093000"
      && FieldsWellTyped(p)
      && Metadata(p)["client_code"].str == "C1"
      && Metadata(p)["device_code"].str == "D9"
      && Metadata(p)["is_raw"].b == false
  {
  }

  /** The example event reaches the message literal with its date already reformatted. */
  lemma ScenarioReachesMessage(now: DateTime, ack: Option<string>)
    ensures var p := ScenarioPayload("20240115093000");
      HasMetadata(p) && ProcessFunc(p, now, ack) == BuildMessage(Metadata(p), "2024-01-15 09:30:00", now, ack)
  {
    var d := "20240115093000";
    var p := ScenarioPayload(d);
    var meta := Metadata(p);
    ScenarioParses();
    ScenarioFields();
    assert ProcessFunc(p, now, ack) == ProcessMetadata(meta, now, ack);
    assert StringAt(meta, "reportfile_date") == Some(d);
    var t := ParseCompact(d).value;
    assert ProcessMetadata(meta, now, ack) == BuildMessage(meta, Format(t), now, ack);
    ReformatAccepted(d);
    assert d[..14] == d;
    ScenarioReinsert();
  }

  /** A well-formed non-raw event is printed once and completed once, with its date reformatted. */
  lemma ScenarioHandled(now: DateTime, ack: Option<string>)
    ensures var o := ProcessFunc(ScenarioPayload("20240115093000"), now, ack);
      && o.Handled?
      && o.msg.clientCode == "C1" && o.msg.deviceCode == "D9" && !o.msg.msgRaw
      && o.msg.reportFileProcessed == "2024-01-15 09:30:00"
      && o.effects == [Printed(PrintLine(o.msg)), Completed]
  {
    var meta := Metadata(ScenarioPayload("20240115093000"));
    ScenarioReachesMessage(now, ack);
    ScenarioFields();
    assert StringAt(meta, "client_code") == Some("C1");
    assert StringAt(meta, "device_code") == Some("D9");
    assert BoolAt(meta, "is_raw") == Some(false);
  }

  /**
    The handled example with one extra top-level key whose number is beyond
    float64 range: the decode fails, so nothing is printed or acknowledged.
  */
  lemma ScenarioOverflowingExtraKey(now: DateTime, ack: Option<string>)
    ensures var p := ScenarioPayload("20240115093000");
      ProcessFunc(Decoded(Object(p.document.members["x" := Number("1e400", true)], false)), now, ack)
        == Returned(NumberOverflow)
  {
    var top := ScenarioPayload("20240115093000").document.members["x" := Number("1e400", true)];
    assert !NumbersFit(top["x"]);
  }

  /**
    The handled example with `"x": 1e400` followed by `"x": 1`: the map keeps
    only the later value, but the overflow of the earlier one is still the
    error the decode returns.
  */
  lemma ScenarioShadowedOverflow(now: DateTime, ack: Option<string>)
    ensures var p := ScenarioPayload("20240115093000");
      ProcessFunc(Decoded(Object(p.document.members["x" := Number("1", false)], true)), now, ack)
        == Returned(NumberOverflow)
  {
  }

  /** A report date that is not a date is a returned error; nothing is acknowledged. */
  lemma ScenarioNotADate(now: DateTime, ack: Option<string>)
    ensures ProcessFunc(ScenarioPayload("not-a-date"), now, ack) == Returned(BadReportDate(Malformed))
  {
    assert ParseCompact("not-a-date") == Err(Malformed) by {
      assert !IsDigit("not-a-date"[0]);
    }
    var p := ScenarioPayload("not-a-date");
    var meta := Metadata(p);
    assert StringAt(meta, "reportfile_date") == Some("not-a-date");
    assert ProcessFunc(p, now, ack) == ProcessMetadata(meta, now, ack);
  }
}
