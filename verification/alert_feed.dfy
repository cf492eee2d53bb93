/** The alert feed decoder: `MainViewModel.getAlerts` and its verbatim copy
    `AlertWorker.get`.

    One alert is under construction for the whole document. The four field
    tags overwrite their field; every `record` end tag appends the alert as it
    stands, and the alert is NOT reset afterwards, so a field that a later
    record leaves out keeps the earlier record's value. */
module AlertFeed {
  import opened Results
  import opened Text
  import opened Records
  import opened XmlPull

  /** The decoder's local variables: the alert under construction and the
      list returned at the end. */
  datatype AlertState = AlertState(alert: Alert, result: seq<Alert>)

  /** The start tags the decoder reads with `nextText()`. */
  predicate IsAlertField(name: string) {
    name == "datasetDescription" || name == "issueTime" || name == "endTime" || name == "contentText"
  }

  predicate IsDateField(name: string) {
    name == "issueTime" || name == "endTime"
  }

  /** `Alert("", Date(), Date(), "")`, with the clock reading as a parameter. */
  function InitialAlert(now: Date): Alert {
    Alert("", now, now, "")
  }

  function InitialState(now: Date): AlertState {
    AlertState(InitialAlert(now), [])
  }

  /** The text of a field tag, written into the alert under construction. */
  function OnAlertText(parse: DateParser, s: AlertState, name: string, text: string): (r: Result<AlertState, DecodeError>)
    ensures r.Success? ==> r.value.result == s.result
    ensures !IsDateField(name) ==> r.Success?
    ensures IsDateField(name) ==> (r.Success? <==> parse(text).Some?)
    ensures r.Success? && name == "datasetDescription" ==> r.value.alert == s.alert.(description := text)
    ensures r.Success? && name == "issueTime" ==> r.value.alert == s.alert.(issueTime := parse(text).value)
    ensures r.Success? && name == "endTime" ==> r.value.alert == s.alert.(endTime := parse(text).value)
    ensures r.Success? && name == "contentText" ==> r.value.alert == s.alert.(content := Trim(text))
    ensures r.Success? && name == "contentText" ==> Trimmed(r.value.alert.content)
    ensures r.Success? && !IsAlertField(name) ==> r.value == s
  {
    match name
    case "datasetDescription" => Success(s.(alert := s.alert.(description := text)))
    case "issueTime" =>
      (match parse(text)
       case Some(d) => Success(s.(alert := s.alert.(issueTime := d)))
       case None => Failure(BadDate(text)))
    case "endTime" =>
      (match parse(text)
       case Some(d) => Success(s.(alert := s.alert.(endTime := d)))
       case None => Failure(BadDate(text)))
    case "contentText" => Success(s.(alert := s.alert.(content := Trim(text))))
    case _ => Success(s)
  }

  /** An end tag: `record` appends the alert under construction and keeps it;
      any other end tag changes nothing. */
  function OnAlertClose(s: AlertState, name: string): (r: AlertState)
    ensures r.alert == s.alert
    ensures |r.result| == |s.result| + (if name == "record" then 1 else 0)
    ensures r.result[..|s.result|] == s.result
    ensures name == "record" ==> r.result[|s.result|] == s.alert
  {
    if name == "record" then s.(result := s.result + [s.alert]) else s
  }

  function AlertPolicy(parse: DateParser): Policy<AlertState> {
    Policy(
      (s: AlertState, name: string) => IsAlertField(name),
      (s: AlertState, name: string, text: string) => OnAlertText(parse, s, name, text),
      (s: AlertState, name: string) => Success(OnAlertClose(s, name)))
  }

  /** The decoder: the pull loop from the first event with a fresh alert and
      an empty list. */
  function DecodeAlerts(ev: seq<Event>, parse: DateParser, now: Date): Result<seq<Alert>, DecodeError> {
    var s :- Run(AlertPolicy(parse), ev, 0, InitialState(now));
    Success(s.result)
  }

  // ------------------------------------------------------------ specification

  /** A date field's value given the text of its last tag, if any. */
  function DateFrom(text: Option<string>, parse: DateParser, default: Date): Date {
    match text
    case None => default
    case Some(t) => Elvis(parse(t), default)
  }

  /** The alert under construction just before position `j`: each field holds
      the value of its last tag before `j`, or its initial value. */
  function AlertBefore(ev: seq<Event>, j: nat, parse: DateParser, now: Date): Alert
    requires j <= |ev|
  {
    Alert(
      Elvis(LastText(ev, j, "datasetDescription"), ""),
      DateFrom(LastText(ev, j, "issueTime"), parse, now),
      DateFrom(LastText(ev, j, "endTime"), parse, now),
      match LastText(ev, j, "contentText")
      case None => ""
      case Some(t) => Trim(t))
  }

  /** One alert per `record` end tag before `j`, in document order, each as
      it stood when its record closed. */
  function Emitted(ev: seq<Event>, j: nat, parse: DateParser, now: Date): seq<Alert>
    requires j <= |ev|
  {
    if j == 0 then []
    else Emitted(ev, j - 1, parse, now)
         + (if ev[j - 1] == EndTag("record") then [AlertBefore(ev, j - 1, parse, now)] else [])
  }

  /** The number of `record` end tags before `j`. */
  function RecordCloses(ev: seq<Event>, j: nat): nat
    requires j <= |ev|
  {
    if j == 0 then 0
    else RecordCloses(ev, j - 1) + (if ev[j - 1] == EndTag("record") then 1 else 0)
  }

  /** A field tag the decoder can read: `nextText()` succeeds and, for a date
      field, the text parses. */
  predicate FieldOk(ev: seq<Event>, i: nat, parse: DateParser)
    requires i < |ev| && ev[i].StartTag?
  {
    TextWellFormed(ev, i) && (IsDateField(ev[i].name) ==> parse(FieldText(ev, i)).Some?)
  }

  /** Every field tag before `j` can be read. Other tags are not looked at. */
  ghost predicate FieldsOkBefore(ev: seq<Event>, j: nat, parse: DateParser)
    requires j <= |ev|
  {
    forall i :: 0 <= i < j && ev[i].StartTag? && IsAlertField(ev[i].name) ==> FieldOk(ev, i, parse)
  }

  /** The condition the event at `i` puts on the decode: a field tag there
      must be readable. */
  predicate EventOk(ev: seq<Event>, i: nat, parse: DateParser)
    requires i < |ev|
  {
    ev[i].StartTag? && IsAlertField(ev[i].name) ==> FieldOk(ev, i, parse)
  }

  lemma FieldsOkStep(ev: seq<Event>, i: nat, parse: DateParser)
    requires i < |ev|
    ensures FieldsOkBefore(ev, i + 1, parse) <==> FieldsOkBefore(ev, i, parse) && EventOk(ev, i, parse)
  {
  }

  /** A field tag at `i` sets the last text of its own name and no other. */
  lemma LastTextsAfterTag(ev: seq<Event>, i: nat)
    requires i < |ev| && ev[i].StartTag?
    ensures LastText(ev, i + 1, ev[i].name) == Some(FieldText(ev, i))
    ensures forall f :: f != ev[i].name ==> LastText(ev, i + 1, f) == LastText(ev, i, f)
  {
  }

  lemma DescriptionTag(ev: seq<Event>, i: nat, parse: DateParser, now: Date)
    requires i < |ev| && ev[i] == StartTag("datasetDescription")
    ensures AlertBefore(ev, i + 1, parse, now) == AlertBefore(ev, i, parse, now).(description := FieldText(ev, i))
  {
    LastTextsAfterTag(ev, i);
  }

  lemma IssueTimeTag(ev: seq<Event>, i: nat, parse: DateParser, now: Date)
    requires i < |ev| && ev[i] == StartTag("issueTime") && parse(FieldText(ev, i)).Some?
    ensures AlertBefore(ev, i + 1, parse, now) == AlertBefore(ev, i, parse, now).(issueTime := parse(FieldText(ev, i)).value)
  {
    LastTextsAfterTag(ev, i);
  }

  lemma EndTimeTag(ev: seq<Event>, i: nat, parse: DateParser, now: Date)
    requires i < |ev| && ev[i] == StartTag("endTime") && parse(FieldText(ev, i)).Some?
    ensures AlertBefore(ev, i + 1, parse, now) == AlertBefore(ev, i, parse, now).(endTime := parse(FieldText(ev, i)).value)
  {
    LastTextsAfterTag(ev, i);
  }

  lemma ContentTag(ev: seq<Event>, i: nat, parse: DateParser, now: Date)
    requires i < |ev| && ev[i] == StartTag("contentText")
    ensures AlertBefore(ev, i + 1, parse, now) == AlertBefore(ev, i, parse, now).(content := Trim(FieldText(ev, i)))
  {
    assert LastText(ev, i + 1, "contentText") == Some(FieldText(ev, i));
    assert LastText(ev, i + 1, "datasetDescription") == LastText(ev, i, "datasetDescription");
    assert LastText(ev, i + 1, "issueTime") == LastText(ev, i, "issueTime");
    assert LastText(ev, i + 1, "endTime") == LastText(ev, i, "endTime");
  }

  /** The text of the field tag at `i` turns the alert before `i` into the
      alert before `i + 1`, through the decoder's own handler. */
  lemma FieldTextUpdates(ev: seq<Event>, i: nat, parse: DateParser, now: Date, emitted: seq<Alert>)
    requires i < |ev| && ev[i].StartTag? && IsAlertField(ev[i].name)
    requires IsDateField(ev[i].name) ==> parse(FieldText(ev, i)).Some?
    ensures OnAlertText(parse, AlertState(AlertBefore(ev, i, parse, now), emitted), ev[i].name, FieldText(ev, i))
         == Success(AlertState(AlertBefore(ev, i + 1, parse, now), emitted))
  {
    var name := ev[i].name;
    var t := FieldText(ev, i);
    var s := AlertState(AlertBefore(ev, i, parse, now), emitted);
    if name == "datasetDescription" {
      DescriptionTag(ev, i, parse, now);
      assert OnAlertText(parse, s, name, t) == Success(s.(alert := s.alert.(description := t)));
    } else if name == "issueTime" {
      IssueTimeTag(ev, i, parse, now);
      assert OnAlertText(parse, s, name, t) == Success(s.(alert := s.alert.(issueTime := parse(t).value)));
    } else if name == "endTime" {
      EndTimeTag(ev, i, parse, now);
      assert OnAlertText(parse, s, name, t) == Success(s.(alert := s.alert.(endTime := parse(t).value)));
    } else {
      assert name == "contentText";
      ContentTag(ev, i, parse, now);
      assert OnAlertText(parse, s, name, t) == Success(s.(alert := s.alert.(content := Trim(t))));
    }
  }

  /** A field tag at `i` moves the specification state exactly as the
      handler moves the decoder state. */
  lemma ApplyFieldTag(ev: seq<Event>, i: nat, parse: DateParser, now: Date)
    requires i < |ev| && ev[i].StartTag? && IsAlertField(ev[i].name)
    ensures var s := AlertState(AlertBefore(ev, i, parse, now), Emitted(ev, i, parse, now));
      var r := Apply(AlertPolicy(parse), ev, i, s);
      && (r.Success? <==> FieldOk(ev, i, parse))
      && (r.Success? ==> r.value == AlertState(AlertBefore(ev, i + 1, parse, now), Emitted(ev, i + 1, parse, now)))
  {
    var emitted := Emitted(ev, i, parse, now);
    assert Emitted(ev, i + 1, parse, now) == emitted + [];
    var s := AlertState(AlertBefore(ev, i, parse, now), emitted);
    if TextWellFormed(ev, i) {
      var t := FieldText(ev, i);
      assert NextText(ev, i).value.0 == t;
      assert Apply(AlertPolicy(parse), ev, i, s) == OnAlertText(parse, s, ev[i].name, t);
      if !IsDateField(ev[i].name) || parse(t).Some? {
        FieldTextUpdates(ev, i, parse, now, emitted);
      }
    }
  }

  /** Any other event at `i` moves the specification state exactly as the
      decoder moves its state, and never fails. */
  lemma ApplyOtherEvent(ev: seq<Event>, i: nat, parse: DateParser, now: Date)
    requires i < |ev| && !(ev[i].StartTag? && IsAlertField(ev[i].name))
    ensures var s := AlertState(AlertBefore(ev, i, parse, now), Emitted(ev, i, parse, now));
      Apply(AlertPolicy(parse), ev, i, s)
        == Success(AlertState(AlertBefore(ev, i + 1, parse, now), Emitted(ev, i + 1, parse, now)))
  {
    assert AlertBefore(ev, i + 1, parse, now) == AlertBefore(ev, i, parse, now) by {
      assert forall name :: IsAlertField(name) ==> ev[i] != StartTag(name);
      assert LastText(ev, i + 1, "datasetDescription") == LastText(ev, i, "datasetDescription");
      assert LastText(ev, i + 1, "issueTime") == LastText(ev, i, "issueTime");
      assert LastText(ev, i + 1, "endTime") == LastText(ev, i, "endTime");
      assert LastText(ev, i + 1, "contentText") == LastText(ev, i, "contentText");
    }
    var s := AlertState(AlertBefore(ev, i, parse, now), Emitted(ev, i, parse, now));
    match ev[i]
    case EndTag(name) =>
      assert Apply(AlertPolicy(parse), ev, i, s) == Success(OnAlertClose(s, name));
      if name == "record" {
        assert Emitted(ev, i + 1, parse, now) == Emitted(ev, i, parse, now) + [AlertBefore(ev, i, parse, now)];
      } else {
        assert Emitted(ev, i + 1, parse, now) == Emitted(ev, i, parse, now) + [];
        assert Emitted(ev, i + 1, parse, now) == Emitted(ev, i, parse, now);
      }
    case StartTag(name) =>
      assert Apply(AlertPolicy(parse), ev, i, s) == Success(s);
      assert Emitted(ev, i + 1, parse, now) == Emitted(ev, i, parse, now) + [];
      assert Emitted(ev, i + 1, parse, now) == Emitted(ev, i, parse, now);
    case _ =>
      assert Apply(AlertPolicy(parse), ev, i, s) == Success(s);
      assert Emitted(ev, i + 1, parse, now) == Emitted(ev, i, parse, now) + [];
      assert Emitted(ev, i + 1, parse, now) == Emitted(ev, i, parse, now);
  }

  lemma {:induction false} FoldAlerts(ev: seq<Event>, j: nat, parse: DateParser, now: Date)
    requires j <= |ev|
    ensures Fold(AlertPolicy(parse), ev, j, InitialState(now)).Success? <==> FieldsOkBefore(ev, j, parse)
    ensures Fold(AlertPolicy(parse), ev, j, InitialState(now)).Success? ==>
      Fold(AlertPolicy(parse), ev, j, InitialState(now)).value
        == AlertState(AlertBefore(ev, j, parse, now), Emitted(ev, j, parse, now))
  {
    if j > 0 {
      var i := j - 1;
      FoldAlerts(ev, i, parse, now);
      FieldsOkStep(ev, i, parse);
      if ev[i].StartTag? && IsAlertField(ev[i].name) {
        ApplyFieldTag(ev, i, parse, now);
      } else {
        ApplyOtherEvent(ev, i, parse, now);
      }
    }
  }

  /** The decoder is correct with respect to the specification: it succeeds
      exactly when every field tag before END_DOCUMENT can be read (unknown
      tags never make it fail), and then it returns one alert per `record`
      end tag, in document order, each carrying the last value of every field
      seen before its record closed. A failure carries no partial list. */
  lemma DecodeAlertsCorrect(ev: seq<Event>, parse: DateParser, now: Date)
    ensures DecodeAlerts(ev, parse, now).Success? <==> FieldsOkBefore(ev, End(ev), parse)
    ensures DecodeAlerts(ev, parse, now).Success? ==>
      DecodeAlerts(ev, parse, now).value == Emitted(ev, End(ev), parse, now)
  {
    RunIsFold(AlertPolicy(parse), ev, InitialState(now));
    FoldAlerts(ev, End(ev), parse, now);
  }

  lemma {:induction false} EmittedCount(ev: seq<Event>, j: nat, parse: DateParser, now: Date)
    requires j <= |ev|
    ensures |Emitted(ev, j, parse, now)| == RecordCloses(ev, j)
  {
    if j > 0 {
      EmittedCount(ev, j - 1, parse, now);
    }
  }

  /** The `record` end tag at `i` emits entry number `RecordCloses(ev, i)`,
      and that entry is the alert under construction at `i`. */
  lemma {:induction false} EmittedAt(ev: seq<Event>, i: nat, j: nat, parse: DateParser, now: Date)
    requires i < j <= |ev| && ev[i] == EndTag("record")
    ensures RecordCloses(ev, i) < |Emitted(ev, j, parse, now)|
    ensures Emitted(ev, j, parse, now)[RecordCloses(ev, i)] == AlertBefore(ev, i, parse, now)
  {
    EmittedCount(ev, i, parse, now);
    if j == i + 1 {
    } else {
      EmittedAt(ev, i, j - 1, parse, now);
    }
  }

  /** Exactly one alert per `record` end tag before END_DOCUMENT; end tags
      with any other name append nothing. */
  lemma DecodeAlertsCount(ev: seq<Event>, parse: DateParser, now: Date)
    ensures DecodeAlerts(ev, parse, now).Success? ==>
      |DecodeAlerts(ev, parse, now).value| == RecordCloses(ev, End(ev))
  {
    DecodeAlertsCorrect(ev, parse, now);
    EmittedCount(ev, End(ev), parse, now);
  }

  /** Document order: the alert appended by the `record` end tag at `i` sits
      after the ones appended by earlier `record` end tags, and holds the
      field values in force at `i`. */
  lemma DecodeAlertsOrder(ev: seq<Event>, parse: DateParser, now: Date, i: nat)
    requires i < End(ev) && ev[i] == EndTag("record")
    requires DecodeAlerts(ev, parse, now).Success?
    ensures RecordCloses(ev, i) < |DecodeAlerts(ev, parse, now).value|
    ensures DecodeAlerts(ev, parse, now).value[RecordCloses(ev, i)] == AlertBefore(ev, i, parse, now)
  {
    DecodeAlertsCorrect(ev, parse, now);
    EmittedAt(ev, i, End(ev), parse, now);
  }

  /** The alert under construction is never reset: across a stretch with no
      field tag, in particular across `record` end tags and unknown tags, it
      stays the same. */
  lemma AlertCarriedOver(ev: seq<Event>, i: nat, j: nat, parse: DateParser, now: Date)
    requires i <= j <= |ev|
    requires forall k :: i <= k < j ==> !(ev[k].StartTag? && IsAlertField(ev[k].name))
    ensures AlertBefore(ev, j, parse, now) == AlertBefore(ev, i, parse, now)
  {
    LastTextUnchanged(ev, i, j, "datasetDescription");
    LastTextUnchanged(ev, i, j, "issueTime");
    LastTextUnchanged(ev, i, j, "endTime");
    LastTextUnchanged(ev, i, j, "contentText");
  }

  /** Consequence: two `record` end tags with no field tag between them
      emit two equal alerts. */
  lemma RecordWithoutFieldsRepeats(ev: seq<Event>, parse: DateParser, now: Date, i: nat, j: nat)
    requires i < j < End(ev) && ev[i] == EndTag("record") && ev[j] == EndTag("record")
    requires forall k :: i < k < j ==> !(ev[k].StartTag? && IsAlertField(ev[k].name)) && ev[k] != EndTag("record")
    requires DecodeAlerts(ev, parse, now).Success?
    ensures RecordCloses(ev, j) == RecordCloses(ev, i) + 1
    ensures RecordCloses(ev, j) < |DecodeAlerts(ev, parse, now).value|
    ensures DecodeAlerts(ev, parse, now).value[RecordCloses(ev, j)]
         == DecodeAlerts(ev, parse, now).value[RecordCloses(ev, i)]
  {
    DecodeAlertsOrder(ev, parse, now, i);
    DecodeAlertsOrder(ev, parse, now, j);
    AlertCarriedOver(ev, i, j, parse, now);
    RecordClosesBetween(ev, i, j);
  }

  lemma {:induction false} RecordClosesBetween(ev: seq<Event>, i: nat, j: nat)
    requires i < j <= |ev| && ev[i] == EndTag("record")
    requires forall k :: i < k < j ==> ev[k] != EndTag("record")
    ensures RecordCloses(ev, j) == RecordCloses(ev, i) + 1
  {
    if j > i + 1 {
      RecordClosesBetween(ev, i, j - 1);
    }
  }

  /** A malformed `issueTime` or `endTime` before END_DOCUMENT makes the whole
      decode fail. */
  lemma MalformedDateFails(ev: seq<Event>, parse: DateParser, now: Date, i: nat)
    requires i < End(ev) && (ev[i] == StartTag("issueTime") || ev[i] == StartTag("endTime"))
    requires parse(FieldText(ev, i)).None?
    ensures DecodeAlerts(ev, parse, now).Failure?
  {
    DecodeAlertsCorrect(ev, parse, now);
    assert !FieldOk(ev, i, parse);
  }

  /** `contentText` is stored trimmed. */
  lemma ContentTrimmed(ev: seq<Event>, parse: DateParser, now: Date, k: nat)
    requires DecodeAlerts(ev, parse, now).Success?
    requires k < |DecodeAlerts(ev, parse, now).value|
    ensures Trimmed(DecodeAlerts(ev, parse, now).value[k].content)
  {
    RunPreserves(AlertPolicy(parse), ContentsTrimmed, ev, InitialState(now));
  }

  /** Every alert in the state, finished or not, has trimmed content. */
  ghost predicate ContentsTrimmed(s: AlertState) {
    && Trimmed(s.alert.content)
    && forall k :: 0 <= k < |s.result| ==> Trimmed(s.result[k].content)
  }

  // ------------------------------------------------------ clock dependence

  /** Every `record` end tag before END_DOCUMENT comes after an `issueTime`
      and an `endTime` tag, so no emitted alert keeps a date of the initial
      alert. */
  predicate DatedRecords(ev: seq<Event>) {
    forall i :: 0 <= i < End(ev) && ev[i] == EndTag("record") ==>
      LastText(ev, i, "issueTime").Some? && LastText(ev, i, "endTime").Some?
  }

  /** In the source, a `record` that closes before any date tag emits the
      clock reading of the call: decoding the one-event feed `</record>` at
      two different instants gives two different results. */
  lemma UndatedRecordTakesClock(parse: DateParser, n1: Date, n2: Date)
    requires n1 != n2
    ensures DecodeAlerts([EndTag("record")], parse, n1) == Success([InitialAlert(n1)])
    ensures DecodeAlerts([EndTag("record")], parse, n1) != DecodeAlerts([EndTag("record")], parse, n2)
  {
    var ev := [EndTag("record")];
    assert End(ev) == 1;
    DecodeAlertsCorrect(ev, parse, n1);
    DecodeAlertsCorrect(ev, parse, n2);
    assert Emitted(ev, 1, parse, n1) == [AlertBefore(ev, 0, parse, n1)];
    assert Emitted(ev, 1, parse, n2) == [AlertBefore(ev, 0, parse, n2)];
  }

  /** Once every field tag before `j` is readable, the last date text of a
      date field, if any, parses. */
  lemma {:induction false} LastDateParses(ev: seq<Event>, j: nat, name: string, parse: DateParser)
    requires j <= |ev| && IsDateField(name) && FieldsOkBefore(ev, j, parse)
    requires LastText(ev, j, name).Some?
    ensures parse(LastText(ev, j, name).value).Some?
  {
    if ev[j - 1] == StartTag(name) {
      assert FieldOk(ev, j - 1, parse);
    } else {
      LastDateParses(ev, j - 1, name, parse);
    }
  }

  /** Once both dates have been read, the alert under construction no longer
      depends on the clock. */
  lemma DatedAlertClockFree(ev: seq<Event>, j: nat, parse: DateParser, n1: Date, n2: Date)
    requires j <= |ev| && FieldsOkBefore(ev, j, parse)
    requires LastText(ev, j, "issueTime").Some? && LastText(ev, j, "endTime").Some?
    ensures AlertBefore(ev, j, parse, n1) == AlertBefore(ev, j, parse, n2)
  {
    LastDateParses(ev, j, "issueTime", parse);
    LastDateParses(ev, j, "endTime", parse);
  }

  lemma {:induction false} EmittedClockFree(ev: seq<Event>, j: nat, parse: DateParser, n1: Date, n2: Date)
    requires j <= End(ev) && DatedRecords(ev) && FieldsOkBefore(ev, j, parse)
    ensures Emitted(ev, j, parse, n1) == Emitted(ev, j, parse, n2)
  {
    if j > 0 {
      EmittedClockFree(ev, j - 1, parse, n1, n2);
      if ev[j - 1] == EndTag("record") {
        DatedAlertClockFree(ev, j - 1, parse, n1, n2);
      }
    }
  }

  /** The error of a failing event depends on the event alone, not on the
      decoder's state. */
  lemma ApplyErrorStateFree(ev: seq<Event>, i: nat, parse: DateParser, s1: AlertState, s2: AlertState)
    requires i < |ev| && Apply(AlertPolicy(parse), ev, i, s1).Failure?
    ensures Apply(AlertPolicy(parse), ev, i, s2) == Apply(AlertPolicy(parse), ev, i, s1)
  {
  }

  lemma {:induction false} FoldFailureClockFree(ev: seq<Event>, j: nat, parse: DateParser, n1: Date, n2: Date)
    requires j <= |ev| && Fold(AlertPolicy(parse), ev, j, InitialState(n1)).Failure?
    ensures Fold(AlertPolicy(parse), ev, j, InitialState(n2)) == Fold(AlertPolicy(parse), ev, j, InitialState(n1))
  {
    var i := j - 1;
    FoldAlerts(ev, i, parse, n1);
    FoldAlerts(ev, i, parse, n2);
    var prev := Fold(AlertPolicy(parse), ev, i, InitialState(n1));
    if prev.Failure? {
      FoldFailureClockFree(ev, i, parse, n1, n2);
    } else {
      ApplyErrorStateFree(ev, i, parse, prev.value, Fold(AlertPolicy(parse), ev, i, InitialState(n2)).value);
    }
  }

  /** On a feed whose every record carries both dates, decoding does not
      depend on when it runs: the same feed decodes to the same result, or
      fails with the same error, at any two instants. */
  lemma DecodeClockFree(ev: seq<Event>, parse: DateParser, n1: Date, n2: Date)
    requires DatedRecords(ev)
    ensures DecodeAlerts(ev, parse, n1) == DecodeAlerts(ev, parse, n2)
  {
    RunIsFold(AlertPolicy(parse), ev, InitialState(n1));
    RunIsFold(AlertPolicy(parse), ev, InitialState(n2));
    DecodeAlertsCorrect(ev, parse, n1);
    DecodeAlertsCorrect(ev, parse, n2);
    if Fold(AlertPolicy(parse), ev, End(ev), InitialState(n1)).Failure? {
      FoldFailureClockFree(ev, End(ev), parse, n1, n2);
    } else {
      EmittedClockFree(ev, End(ev), parse, n1, n2);
    }
  }

  /** The instant the corrected decoder starts its alert from, instead of
      reading the clock. */
  const Epoch := Date(0)

  /** The decoder with a fixed initial alert: a function of the feed alone. */
  function DecodeAlertsFixed(ev: seq<Event>, parse: DateParser): Result<seq<Alert>, DecodeError> {
    DecodeAlerts(ev, parse, Epoch)
  }

  /** The corrected decoder gives the same result on every call, and agrees
      with the source's decoder, whenever it runs, on every feed whose records
      all carry both dates; it succeeds exactly when the source's does. */
  lemma DecodeAlertsFixedAgrees(ev: seq<Event>, parse: DateParser, now: Date)
    ensures DecodeAlertsFixed(ev, parse).Success? <==> DecodeAlerts(ev, parse, now).Success?
    ensures DatedRecords(ev) ==> DecodeAlertsFixed(ev, parse) == DecodeAlerts(ev, parse, now)
  {
    DecodeAlertsCorrect(ev, parse, now);
    DecodeAlertsCorrect(ev, parse, Epoch);
    if DatedRecords(ev) {
      DecodeClockFree(ev, parse, Epoch, now);
    }
  }
}
