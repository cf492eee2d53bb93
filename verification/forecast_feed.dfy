/** The short-forecast decoder: the parse loop of
    `MainViewModel.getShortForecast`.

    Inside each `weatherElement`, `elementName` says which forecast list the
    element's `value` texts are for; they are buffered and, when the
    `weatherElement` closes, folded into that list and the buffer is cleared.
    `dataTime` texts are collected only while the current element name is
    `T`, and the `T` element publishes them as the forecast's time list. */
module ForecastFeed {
  import opened Results
  import opened Text
  import opened Records
  import opened XmlPull

  /** The decoder's local variables. */
  datatype ForecastState = ForecastState(
    forecast: ShortForecast,
    timeList: seq<Date>,
    elementName: string,
    values: seq<string>)

  const InitialState := ForecastState(EmptyForecast, [], "", [])

  /** `values.map { it.toInt() }`: fails on the first value that is not an
      `Int`. */
  function ParseAll(values: seq<string>): (r: Result<seq<int>, DecodeError>)
    ensures r.Success? <==> forall i :: 0 <= i < |values| ==> ParseInt(values[i]).Some?
    ensures r.Success? ==> |r.value| == |values|
    ensures r.Success? ==> forall i :: 0 <= i < |values| ==> r.value[i] == ParseInt(values[i]).value
  {
    if |values| == 0 then Success([])
    else
      match ParseInt(values[0])
      case None => Failure(BadNumber(values[0]))
      case Some(v) =>
        var rest :- ParseAll(values[1..]);
        assert forall i :: 1 <= i < |values| ==> values[i] == values[1..][i - 1];
        Success([v as int] + rest)
  }

  /** `values.flatMap { value -> List(2) { value.toInt() } }`: each six-hour
      probability fills two consecutive three-hour slots. */
  function Doubled(values: seq<string>): (r: Result<seq<int>, DecodeError>)
    ensures r.Success? <==> forall i :: 0 <= i < |values| ==> ParseInt(values[i]).Some?
    ensures r.Success? ==> |r.value| == 2 * |values|
    ensures r.Success? ==> forall i :: 0 <= i < |values| ==>
      r.value[2 * i] == ParseInt(values[i]).value && r.value[2 * i + 1] == ParseInt(values[i]).value
  {
    if |values| == 0 then Success([])
    else
      match ParseInt(values[0])
      case None => Failure(BadNumber(values[0]))
      case Some(v) =>
        var rest :- Doubled(values[1..]);
        assert forall i :: 1 <= i < |values| ==> values[i] == values[1..][i - 1];
        Success([v as int, v as int] + rest)
  }

  /** `values.chunked(2) { it.last() to it.first() }`: consecutive pairs with
      their order swapped; a trailing odd value pairs with itself. */
  function PairUp(values: seq<string>): (r: seq<(string, string)>)
    ensures |r| == (|values| + 1) / 2
    ensures forall i :: 0 <= i < |r| ==>
      r[i] == (if 2 * i + 1 < |values| then (values[2 * i + 1], values[2 * i]) else (values[2 * i], values[2 * i]))
  {
    if |values| == 0 then []
    else if |values| == 1 then [(values[0], values[0])]
    else
      var rest := PairUp(values[2..]);
      assert forall i :: 2 <= i < |values| ==> values[i] == values[2..][i - 2];
      [(values[1], values[0])] + rest
  }

  /** The feed's order: description first, code second, for every pair. */
  function Unpair(pairs: seq<(string, string)>): (r: seq<string>)
    ensures |r| == 2 * |pairs|
  {
    if |pairs| == 0 then [] else [pairs[0].1, pairs[0].0] + Unpair(pairs[1..])
  }

  /** Round trip: for an even number of values, pairing loses nothing and
      swapping each pair back restores the feed's order. */
  lemma {:induction false} UnpairPairUp(values: seq<string>)
    requires |values| % 2 == 0
    ensures Unpair(PairUp(values)) == values
    decreases |values|
  {
    if |values| > 0 {
      UnpairPairUp(values[2..]);
      assert PairUp(values)[1..] == PairUp(values[2..]);
      assert values == [values[1], values[0]][..0] + [values[0], values[1]] + values[2..];
    }
  }

  /** The closing of a `weatherElement` named `elementName`: its buffered
      values go into the list that name selects; any other name changes
      nothing. */
  function FoldElement(f: ShortForecast, elementName: string, values: seq<string>, timeList: seq<Date>)
    : (r: Result<ShortForecast, DecodeError>)
    ensures elementName !in {"T", "Wx", "AT", "PoP6h", "RH"} ==> r == Success(f)
    ensures elementName == "Wx" ==> r == Success(f.(wxList := PairUp(values)))
    ensures elementName in {"T", "AT", "PoP6h", "RH"} ==>
      (r.Success? <==> forall i :: 0 <= i < |values| ==> ParseInt(values[i]).Some?)
    ensures r.Success? && elementName == "T" ==>
      && r.value == f.(timeList := timeList, tList := r.value.tList)
      && |r.value.tList| == |values|
      && forall i :: 0 <= i < |values| ==> r.value.tList[i] == ParseInt(values[i]).value
    ensures r.Success? && elementName == "AT" ==>
      && r.value == f.(atList := r.value.atList)
      && |r.value.atList| == |values|
      && forall i :: 0 <= i < |values| ==> r.value.atList[i] == ParseInt(values[i]).value
    ensures r.Success? && elementName == "RH" ==>
      && r.value == f.(rhList := r.value.rhList)
      && |r.value.rhList| == |values|
      && forall i :: 0 <= i < |values| ==> r.value.rhList[i] == ParseInt(values[i]).value
    ensures r.Success? && elementName == "PoP6h" ==>
      && r.value == f.(popList := r.value.popList)
      && |r.value.popList| == 2 * |values|
      && forall i :: 0 <= i < |values| ==>
           r.value.popList[2 * i] == r.value.popList[2 * i + 1] == ParseInt(values[i]).value
  {
    match elementName
    case "T" =>
      var ts :- ParseAll(values);
      Success(f.(timeList := timeList, tList := ts))
    case "Wx" => Success(f.(wxList := PairUp(values)))
    case "AT" =>
      var ats :- ParseAll(values);
      Success(f.(atList := ats))
    case "PoP6h" =>
      var pops :- Doubled(values);
      Success(f.(popList := pops))
    case "RH" =>
      var rhs :- ParseAll(values);
      Success(f.(rhList := rhs))
    case _ => Success(f)
  }

  /** The start tags read with `nextText()`: `dataTime` only while the
      current element is `T`. */
  predicate Captures(s: ForecastState, name: string) {
    name == "elementName" || name == "value" || (name == "dataTime" && s.elementName == "T")
  }

  /** The text of a captured start tag. The loop reads only the tags that
      `Captures` selects; any other name would change nothing. */
  function OnForecastText(parse: DateParser, s: ForecastState, name: string, text: string)
    : (r: Result<ForecastState, DecodeError>)
    ensures r.Success? ==> r.value.forecast == s.forecast
    ensures name !in {"dataTime", "elementName", "value"} ==> r == Success(s)
    ensures name == "dataTime" ==>
      (r.Success? <==> parse(text).Some?)
      && (r.Success? ==> r.value == s.(timeList := s.timeList + [parse(text).value]))
    ensures name == "elementName" ==> r == Success(s.(elementName := text))
    ensures name == "value" ==> r == Success(s.(values := s.values + [text]))
  {
    match name
    case "dataTime" =>
      (match parse(text)
       case Some(d) => Success(s.(timeList := s.timeList + [d]))
       case None => Failure(BadDate(text)))
    case "elementName" => Success(s.(elementName := text))
    case "value" => Success(s.(values := s.values + [text]))
    case _ => Success(s)
  }

  /** An end tag: a `weatherElement` folds and clears the buffer; any other
      end tag changes nothing. */
  function OnForecastClose(s: ForecastState, name: string): (r: Result<ForecastState, DecodeError>)
    ensures name != "weatherElement" ==> r == Success(s)
    ensures name == "weatherElement" ==>
      && (r.Success? <==> FoldElement(s.forecast, s.elementName, s.values, s.timeList).Success?)
      && (r.Success? ==> r.value.forecast == FoldElement(s.forecast, s.elementName, s.values, s.timeList).value)
    ensures r.Success? ==> r.value.timeList == s.timeList && r.value.elementName == s.elementName
    ensures r.Success? && name == "weatherElement" ==> r.value.values == []
    ensures name == "weatherElement" && s.elementName !in {"T", "Wx", "AT", "PoP6h", "RH"} ==>
      r == Success(s.(values := []))
  {
    if name == "weatherElement" then
      var f :- FoldElement(s.forecast, s.elementName, s.values, s.timeList);
      Success(s.(forecast := f, values := []))
    else
      Success(s)
  }

  function ForecastPolicy(parse: DateParser): Policy<ForecastState> {
    Policy(
      (s: ForecastState, name: string) => Captures(s, name),
      (s: ForecastState, name: string, text: string) => OnForecastText(parse, s, name, text),
      (s: ForecastState, name: string) => OnForecastClose(s, name))
  }

  /** The decoder: the pull loop from the first event with empty lists, no
      element name and an empty buffer. */
  function DecodeShortForecast(ev: seq<Event>, parse: DateParser): Result<ShortForecast, DecodeError> {
    var s :- Run(ForecastPolicy(parse), ev, 0, InitialState);
    Success(s.forecast)
  }

  // ------------------------------------------------------------- invariants

  /** Every six-hour probability occupies two equal, consecutive slots. */
  predicate PairedSlots(pop: seq<int>) {
    && |pop| % 2 == 0
    && forall i :: 0 <= i < |pop| / 2 ==> pop[2 * i] == pop[2 * i + 1]
  }

  /** The published time list is a snapshot of the collected one, which only
      grows; and the probabilities are paired. */
  predicate ForecastInv(s: ForecastState) {
    && s.forecast.timeList <= s.timeList
    && PairedSlots(s.forecast.popList)
  }

  lemma PolicyPreservesInv(parse: DateParser)
    ensures Preserves(ForecastPolicy(parse), ForecastInv)
  {
    var p := ForecastPolicy(parse);
    forall s, n, t | ForecastInv(s) && p.onText(s, n, t).Success?
      ensures ForecastInv(p.onText(s, n, t).value)
    {
    }
    forall s, n | ForecastInv(s) && p.onClose(s, n).Success?
      ensures ForecastInv(p.onClose(s, n).value)
    {
      if n == "weatherElement" && s.elementName == "PoP6h" {
        var pop := p.onClose(s, n).value.forecast.popList;
        assert forall i :: 0 <= i < |pop| / 2 ==> pop[2 * i] == pop[2 * i + 1];
      }
    }
  }

  /** Whatever the feed, a decoded forecast has an even number of
      probability slots, equal in pairs. */
  lemma DecodedSlotsPaired(ev: seq<Event>, parse: DateParser)
    ensures DecodeShortForecast(ev, parse).Success? ==> PairedSlots(DecodeShortForecast(ev, parse).value.popList)
  {
    PolicyPreservesInv(parse);
    RunPreserves(ForecastPolicy(parse), ForecastInv, ev, InitialState);
  }

  // ---------------------------------------------------- buffer specification

  /** The element name in force just before position `j`. */
  function ElementNameBefore(ev: seq<Event>, j: nat): string
    requires j <= |ev|
  {
    Elvis(LastText(ev, j, "elementName"), "")
  }

  /** The texts of the `value` tags since the last `weatherElement` end tag
      before position `j`. */
  function ValuesSince(ev: seq<Event>, j: nat): seq<string>
    requires j <= |ev|
  {
    if j == 0 then []
    else if ev[j - 1] == EndTag("weatherElement") then []
    else if ev[j - 1] == StartTag("value") then ValuesSince(ev, j - 1) + [FieldText(ev, j - 1)]
    else ValuesSince(ev, j - 1)
  }

  /** The texts of the `dataTime` tags before position `j` that appeared
      while the element name in force was `T`. */
  function TDateTextsBefore(ev: seq<Event>, j: nat): seq<string>
    requires j <= |ev|
  {
    if j == 0 then []
    else if ev[j - 1] == StartTag("dataTime") && ElementNameBefore(ev, j - 1) == "T" then
      TDateTextsBefore(ev, j - 1) + [FieldText(ev, j - 1)]
    else TDateTextsBefore(ev, j - 1)
  }

  /** `dates` are the parsed `texts`, one for one. */
  predicate DatesOf(texts: seq<string>, parse: DateParser, dates: seq<Date>) {
    && |dates| == |texts|
    && forall k :: 0 <= k < |texts| ==> parse(texts[k]) == Some(dates[k])
  }

  /** The decoder's buffers agree with the specification at `j`. */
  predicate BuffersAt(ev: seq<Event>, j: nat, parse: DateParser, s: ForecastState)
    requires j <= |ev|
  {
    && s.elementName == ElementNameBefore(ev, j)
    && s.values == ValuesSince(ev, j)
    && DatesOf(TDateTextsBefore(ev, j), parse, s.timeList)
  }

  lemma ApplyKeepsBuffers(ev: seq<Event>, i: nat, parse: DateParser, s: ForecastState)
    requires i < |ev| && BuffersAt(ev, i, parse, s)
    ensures Apply(ForecastPolicy(parse), ev, i, s).Success? ==>
      BuffersAt(ev, i + 1, parse, Apply(ForecastPolicy(parse), ev, i, s).value)
  {
    var r := Apply(ForecastPolicy(parse), ev, i, s);
    if r.Success? {
      var s' := r.value;
      match ev[i]
      case StartTag(name) =>
        if Captures(s, name) {
          assert NextText(ev, i).value.0 == FieldText(ev, i);
          if name == "dataTime" {
            assert s' == s.(timeList := s.timeList + [parse(FieldText(ev, i)).value]);
          }
        } else {
          assert s' == s;
        }
      case EndTag(name) =>
        assert s'.timeList == s.timeList;
      case _ =>
        assert s' == s;
    }
  }

  lemma {:induction false} FoldKeepsBuffers(ev: seq<Event>, j: nat, parse: DateParser)
    requires j <= |ev|
    ensures Fold(ForecastPolicy(parse), ev, j, InitialState).Success? ==>
      BuffersAt(ev, j, parse, Fold(ForecastPolicy(parse), ev, j, InitialState).value)
  {
    if j > 0 {
      FoldKeepsBuffers(ev, j - 1, parse);
      var prev := Fold(ForecastPolicy(parse), ev, j - 1, InitialState);
      if prev.Success? {
        ApplyKeepsBuffers(ev, j - 1, parse, prev.value);
      }
    }
  }

  /** At every step of a successful decode, the loop's buffers hold what the
      feed says they should: the last element name read, the `value` texts
      since the last `weatherElement` closed (none right after one closes),
      and the dates of exactly the `dataTime` tags read while the element
      name was `T`, in order. */
  lemma DecodeKeepsBuffers(ev: seq<Event>, parse: DateParser, j: nat)
    requires j <= End(ev)
    requires Fold(ForecastPolicy(parse), ev, j, InitialState).Success?
    ensures BuffersAt(ev, j, parse, Fold(ForecastPolicy(parse), ev, j, InitialState).value)
    ensures j > 0 && ev[j - 1] == EndTag("weatherElement") ==>
      Fold(ForecastPolicy(parse), ev, j, InitialState).value.values == []
  {
    FoldKeepsBuffers(ev, j, parse);
  }

  /** The decoded forecast is the state of the reference fold at END_DOCUMENT,
      so `DecodeKeepsBuffers` describes the loop the decoder runs. */
  lemma DecodeIsFold(ev: seq<Event>, parse: DateParser)
    ensures DecodeShortForecast(ev, parse).Success? <==> Fold(ForecastPolicy(parse), ev, End(ev), InitialState).Success?
    ensures DecodeShortForecast(ev, parse).Success? ==>
      DecodeShortForecast(ev, parse).value == Fold(ForecastPolicy(parse), ev, End(ev), InitialState).value.forecast
  {
    RunIsFold(ForecastPolicy(parse), ev, InitialState);
  }

  // ---------------------------------------------------- forecast specification

  /** `xs` are the numbers the texts `values` spell, one for one. */
  predicate IntsOf(values: seq<string>, xs: seq<int>) {
    && |xs| == |values|
    && forall k :: 0 <= k < |values| ==> ParseInt(values[k]).Some? && xs[k] == ParseInt(values[k]).value
  }

  /** `xs` holds each number the texts `values` spell twice in a row. */
  predicate DoubledIntsOf(values: seq<string>, xs: seq<int>) {
    && |xs| == 2 * |values|
    && forall k :: 0 <= k < |values| ==>
         ParseInt(values[k]).Some? && xs[2 * k] == ParseInt(values[k]).value && xs[2 * k + 1] == ParseInt(values[k]).value
  }

  /** The position of the last `weatherElement` end tag before `j` that
      closed an element named `name`. */
  function LastClose(ev: seq<Event>, j: nat, name: string): (r: Option<nat>)
    requires j <= |ev|
    ensures r.Some? ==> r.value < j && ev[r.value] == EndTag("weatherElement")
    ensures r.Some? ==> ElementNameBefore(ev, r.value) == name
  {
    if j == 0 then None
    else if ev[j - 1] == EndTag("weatherElement") && ElementNameBefore(ev, j - 1) == name then Some(j - 1)
    else LastClose(ev, j - 1, name)
  }

  /** What the feed before `j` says the forecast's lists are: each list comes
      from the last element of its name that closed, from that element's
      `value` texts (and, for `T`, from the `dataTime` texts read under a `T`
      name up to then); a list whose element has not closed is empty. */
  predicate ListsAt(ev: seq<Event>, j: nat, parse: DateParser, f: ShortForecast)
    requires j <= |ev|
  {
    && (match LastClose(ev, j, "T")
        case None => f.tList == [] && f.timeList == []
        case Some(i) => IntsOf(ValuesSince(ev, i), f.tList) && DatesOf(TDateTextsBefore(ev, i), parse, f.timeList))
    && (match LastClose(ev, j, "Wx")
        case None => f.wxList == []
        case Some(i) => f.wxList == PairUp(ValuesSince(ev, i)))
    && (match LastClose(ev, j, "AT")
        case None => f.atList == []
        case Some(i) => IntsOf(ValuesSince(ev, i), f.atList))
    && (match LastClose(ev, j, "PoP6h")
        case None => f.popList == []
        case Some(i) => DoubledIntsOf(ValuesSince(ev, i), f.popList))
    && (match LastClose(ev, j, "RH")
        case None => f.rhList == []
        case Some(i) => IntsOf(ValuesSince(ev, i), f.rhList))
  }

  /** A `weatherElement` end tag at `i`, handled in a state whose buffers
      match the feed, folds exactly the buffered values of the element named
      before `i`: the forecast after `i` is `FoldElement` of the forecast
      before it, `ElementNameBefore(ev, i)`, `ValuesSince(ev, i)` and the
      dates collected so far. */
  lemma ElementCloseFolds(ev: seq<Event>, i: nat, parse: DateParser, s: ForecastState)
    requires i < |ev| && ev[i] == EndTag("weatherElement") && BuffersAt(ev, i, parse, s)
    requires Apply(ForecastPolicy(parse), ev, i, s).Success?
    ensures FoldElement(s.forecast, ElementNameBefore(ev, i), ValuesSince(ev, i), s.timeList)
         == Success(Apply(ForecastPolicy(parse), ev, i, s).value.forecast)
  {
    assert Apply(ForecastPolicy(parse), ev, i, s) == OnForecastClose(s, "weatherElement");
  }

  /** Any event other than a `weatherElement` end tag leaves the forecast
      as it is. */
  lemma OtherEventKeepsForecast(ev: seq<Event>, i: nat, parse: DateParser, s: ForecastState)
    requires i < |ev| && ev[i] != EndTag("weatherElement")
    requires Apply(ForecastPolicy(parse), ev, i, s).Success?
    ensures Apply(ForecastPolicy(parse), ev, i, s).value.forecast == s.forecast
  {
  }

  /** The closing of the element named `name` at `i` moves the lists from
      what the feed says before `i` to what it says after `i`. */
  lemma ListsAfterClose(ev: seq<Event>, i: nat, parse: DateParser, f: ShortForecast, f': ShortForecast, timeList: seq<Date>)
    requires i < |ev| && ev[i] == EndTag("weatherElement")
    requires ListsAt(ev, i, parse, f)
    requires DatesOf(TDateTextsBefore(ev, i), parse, timeList)
    requires FoldElement(f, ElementNameBefore(ev, i), ValuesSince(ev, i), timeList) == Success(f')
    ensures ListsAt(ev, i + 1, parse, f')
  {
    var name := ElementNameBefore(ev, i);
    var values := ValuesSince(ev, i);
    assert LastClose(ev, i + 1, name) == Some(i);
    forall m | m != name
      ensures LastClose(ev, i + 1, m) == LastClose(ev, i, m)
    {
    }
    if name == "T" {
      assert IntsOf(values, f'.tList);
    } else if name == "AT" {
      assert IntsOf(values, f'.atList);
    } else if name == "RH" {
      assert IntsOf(values, f'.rhList);
    } else if name == "PoP6h" {
      assert DoubledIntsOf(values, f'.popList);
    }
  }

  lemma {:induction false} FoldKeepsLists(ev: seq<Event>, j: nat, parse: DateParser)
    requires j <= |ev|
    ensures Fold(ForecastPolicy(parse), ev, j, InitialState).Success? ==>
      ListsAt(ev, j, parse, Fold(ForecastPolicy(parse), ev, j, InitialState).value.forecast)
  {
    if j > 0 {
      var i := j - 1;
      FoldKeepsLists(ev, i, parse);
      FoldKeepsBuffers(ev, i, parse);
      var prev := Fold(ForecastPolicy(parse), ev, i, InitialState);
      if prev.Success? && Apply(ForecastPolicy(parse), ev, i, prev.value).Success? {
        var s := prev.value;
        var s' := Apply(ForecastPolicy(parse), ev, i, s).value;
        if ev[i] == EndTag("weatherElement") {
          ElementCloseFolds(ev, i, parse, s);
          ListsAfterClose(ev, i, parse, s.forecast, s'.forecast, s.timeList);
        } else {
          OtherEventKeepsForecast(ev, i, parse, s);
          forall m
            ensures LastClose(ev, j, m) == LastClose(ev, i, m)
          {
          }
        }
      }
    }
  }

  /** The decoder, end to end: every list of a decoded forecast is what the
      feed says. `tList`, `atList` and `rhList` are the numbers of the `value`
      texts of the last `T`, `AT` and `RH` element; `popList` holds each
      number of the last `PoP6h` element twice in a row; `wxList` pairs up
      the last `Wx` element's values, swapped; `timeList` holds the dates of
      the `dataTime` tags read under a `T` name up to the last `T` element's
      close; a list whose element never closed is empty. */
  lemma DecodedLists(ev: seq<Event>, parse: DateParser)
    ensures DecodeShortForecast(ev, parse).Success? ==>
      ListsAt(ev, End(ev), parse, DecodeShortForecast(ev, parse).value)
  {
    DecodeIsFold(ev, parse);
    FoldKeepsLists(ev, End(ev), parse);
  }

  // ---------------------------------------------------- success condition

  /** Every text is an `Int`. */
  predicate AllInts(values: seq<string>) {
    forall k :: 0 <= k < |values| ==> ParseInt(values[k]).Some?
  }

  /** What the event at `i` needs for the decoder to get past it. A start tag
      that is read with `nextText()` (`elementName`, `value`, and `dataTime`
      under a `T` name) needs an END_TAG after it, possibly after a TEXT, and
      a `dataTime` text must parse as a date. A `weatherElement` end tag of a
      `T`, `AT`, `PoP6h` or `RH` element needs every buffered value to be an
      `Int`. Every other event, unknown tags included, is always stepped
      over. */
  predicate ForecastEventOk(ev: seq<Event>, i: nat, parse: DateParser)
    requires i < |ev|
  {
    match ev[i]
    case StartTag(name) =>
      (name == "elementName" || name == "value" || (name == "dataTime" && ElementNameBefore(ev, i) == "T")) ==>
        && TextWellFormed(ev, i)
        && (name == "dataTime" ==> parse(FieldText(ev, i)).Some?)
    case EndTag(name) =>
      name == "weatherElement" && ElementNameBefore(ev, i) in {"T", "AT", "PoP6h", "RH"} ==>
        AllInts(ValuesSince(ev, i))
    case _ => true
  }

  /** Every event before `j` can be got past. */
  predicate ForecastOkBefore(ev: seq<Event>, j: nat, parse: DateParser)
    requires j <= |ev|
  {
    forall i :: 0 <= i < j ==> ForecastEventOk(ev, i, parse)
  }

  /** In a state whose buffers match the feed, the event at `i` is handled
      without error exactly when the feed allows it. */
  lemma ApplySucceeds(ev: seq<Event>, i: nat, parse: DateParser, s: ForecastState)
    requires i < |ev| && BuffersAt(ev, i, parse, s)
    ensures Apply(ForecastPolicy(parse), ev, i, s).Success? <==> ForecastEventOk(ev, i, parse)
  {
    match ev[i]
    case StartTag(name) =>
      if Captures(s, name) && TextWellFormed(ev, i) {
        assert NextText(ev, i).value.0 == FieldText(ev, i);
      }
    case EndTag(name) =>
      if name == "weatherElement" {
        assert Apply(ForecastPolicy(parse), ev, i, s) == OnForecastClose(s, name);
      }
    case _ =>
  }

  lemma {:induction false} FoldSucceeds(ev: seq<Event>, j: nat, parse: DateParser)
    requires j <= |ev|
    ensures Fold(ForecastPolicy(parse), ev, j, InitialState).Success? <==> ForecastOkBefore(ev, j, parse)
  {
    if j > 0 {
      var i := j - 1;
      FoldSucceeds(ev, i, parse);
      FoldKeepsBuffers(ev, i, parse);
      var prev := Fold(ForecastPolicy(parse), ev, i, InitialState);
      if prev.Success? {
        ApplySucceeds(ev, i, parse, prev.value);
      }
      assert ForecastOkBefore(ev, j, parse) <==> ForecastOkBefore(ev, i, parse) && ForecastEventOk(ev, i, parse);
    }
  }

  /** When the decoder succeeds: exactly when every event before END_DOCUMENT
      can be got past. Unknown start and end tags never make it fail; it
      fails only on a read text that `nextText()` rejects, a `dataTime` under
      `T` that is not a date, or a non-`Int` value of a `T`, `AT`, `PoP6h`
      or `RH` element. */
  lemma DecodeShortForecastSucceeds(ev: seq<Event>, parse: DateParser)
    ensures DecodeShortForecast(ev, parse).Success? <==> ForecastOkBefore(ev, End(ev), parse)
  {
    DecodeIsFold(ev, parse);
    FoldSucceeds(ev, End(ev), parse);
  }
}
