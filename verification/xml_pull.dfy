/** The forward-only pull loop shared by both feed decoders.

    The XML parser is replaced by the sequence of events it reports. Reading
    past the last event yields END_DOCUMENT, as a pull parser keeps doing once
    the input is exhausted. A decoder is a `Policy`: which start tags it reads
    with `nextText()`, what it does with that text, and what it does on an end
    tag. Every other event is stepped over with `next()`. */
module XmlPull {
  import opened Results

  datatype Event =
    | StartDocument
    | StartTag(name: string)
    | Text(text: string)
    | EndTag(name: string)
    | EndDocument

  /** The exceptions that abort a decode: `XmlPullParserException` from
      `nextText()`, `ParseException` from a date, `NumberFormatException`
      from `toInt()`. */
  datatype DecodeError =
    | MalformedText(pos: nat)
    | BadDate(text: string)
    | BadNumber(text: string)

  /** The event the parser reports at `pos`. */
  function At(ev: seq<Event>, pos: nat): Event {
    if pos < |ev| then ev[pos] else EndDocument
  }

  function EndFrom(ev: seq<Event>, from: nat): (n: nat)
    requires from <= |ev|
    ensures from <= n <= |ev|
    ensures forall i :: from <= i < n ==> !ev[i].EndDocument?
    ensures n < |ev| ==> ev[n].EndDocument?
    decreases |ev| - from
  {
    if from == |ev| || ev[from].EndDocument? then from else EndFrom(ev, from + 1)
  }

  /** Position of the first END_DOCUMENT: where the pull loop breaks. */
  function End(ev: seq<Event>): (n: nat)
    ensures n <= |ev|
    ensures forall i :: 0 <= i < n ==> !ev[i].EndDocument?
    ensures n < |ev| ==> ev[n].EndDocument?
  {
    EndFrom(ev, 0)
  }

  /** The events after the start tag at `pos` are what `nextText()` accepts:
      an END_TAG, or a TEXT and then an END_TAG. */
  predicate TextWellFormed(ev: seq<Event>, pos: nat) {
    At(ev, pos + 1).EndTag? || (At(ev, pos + 1).Text? && At(ev, pos + 2).EndTag?)
  }

  /** The text of the element opened at `pos`: the TEXT right after it, or
      the empty string. */
  function FieldText(ev: seq<Event>, pos: nat): string {
    if At(ev, pos + 1).Text? then At(ev, pos + 1).text else ""
  }

  /** `XmlPullParser.nextText()` on the START_TAG at `pos`: a TEXT event
      followed by an END_TAG yields that text, an END_TAG right away yields
      the empty string, and anything else throws. On success the parser is
      left on the END_TAG, whose position is returned with the text. */
  function NextText(ev: seq<Event>, pos: nat): (r: Result<(string, nat), DecodeError>)
    requires pos < |ev| && ev[pos].StartTag?
    ensures r.Success? <==> TextWellFormed(ev, pos)
    ensures r.Success? ==> r.value.0 == FieldText(ev, pos)
    ensures r.Success? ==>
      && pos < r.value.1 <= pos + 2
      && r.value.1 < |ev|
      && ev[r.value.1].EndTag?
      && (if r.value.1 == pos + 2 then ev[pos + 1] == Text(r.value.0) else r.value.0 == "")
  {
    match At(ev, pos + 1)
    case Text(t) =>
      if At(ev, pos + 2).EndTag? then Success((t, pos + 2)) else Failure(MalformedText(pos + 2))
    case EndTag(_) => Success(("", pos + 1))
    case _ => Failure(MalformedText(pos + 1))
  }

  /** A decoder's reaction to the events of its feed. */
  datatype Policy<!S> = Policy(
    captures: (S, string) -> bool,
    onText: (S, string, string) -> Result<S, DecodeError>,
    onClose: (S, string) -> Result<S, DecodeError>)

  /** One turn of the `while (true) { when (eventType) ... }` loop at `pos`:
      a captured start tag reads its text and lands on its end tag; an end tag
      is handled and stepped over; anything else is stepped over. */
  function Step<S>(p: Policy<S>, ev: seq<Event>, pos: nat, s: S): (r: Result<(nat, S), DecodeError>)
    requires pos < |ev| && !ev[pos].EndDocument?
    ensures r.Success? ==> pos < r.value.0 <= |ev|
    ensures r.Success? && r.value.0 == pos + 2 ==> ev[pos + 1].Text?
    ensures r.Success? && r.value.0 > pos + 1 ==> r.value.0 == pos + 2
  {
    match ev[pos]
    case StartTag(name) =>
      if p.captures(s, name) then
        var tq :- NextText(ev, pos);
        var s' :- p.onText(s, name, tq.0);
        Success((tq.1, s'))
      else
        Success((pos + 1, s))
    case EndTag(name) =>
      var s' :- p.onClose(s, name);
      Success((pos + 1, s'))
    case _ => Success((pos + 1, s))
  }

  /** The pull loop from `pos` in state `s`, until END_DOCUMENT. */
  function Run<S>(p: Policy<S>, ev: seq<Event>, pos: nat, s: S): Result<S, DecodeError>
    requires pos <= |ev|
    decreases |ev| - pos
  {
    if At(ev, pos).EndDocument? then Success(s)
    else
      var next :- Step(p, ev, pos, s);
      Run(p, ev, next.0, next.1)
  }

  // ------------------------------------------------------ reference semantics

  /** The effect of the single event at `i`, looking ahead only as far as a
      captured start tag's own text. TEXT events have no effect here: either
      `nextText()` already consumed them or the loop steps over them. */
  function Apply<S>(p: Policy<S>, ev: seq<Event>, i: nat, s: S): Result<S, DecodeError>
    requires i < |ev|
  {
    match ev[i]
    case StartTag(name) =>
      if p.captures(s, name) then
        var tq :- NextText(ev, i);
        p.onText(s, name, tq.0)
      else
        Success(s)
    case EndTag(name) => p.onClose(s, name)
    case _ => Success(s)
  }

  /** Reference semantics: the events before position `j`, applied one at a
      time from left to right, starting in state `s0`. */
  function Fold<S>(p: Policy<S>, ev: seq<Event>, j: nat, s0: S): Result<S, DecodeError>
    requires j <= |ev|
  {
    if j == 0 then Success(s0)
    else
      var s :- Fold(p, ev, j - 1, s0);
      Apply(p, ev, j - 1, s)
  }

  /** Once the fold has failed, it keeps failing with the same error. */
  lemma {:induction false} FoldFailurePersists<S>(p: Policy<S>, ev: seq<Event>, i: nat, j: nat, s0: S)
    requires i <= j <= |ev|
    requires Fold(p, ev, i, s0).Failure?
    ensures Fold(p, ev, j, s0) == Fold(p, ev, i, s0)
    decreases j - i
  {
    if i < j {
      FoldFailurePersists(p, ev, i, j - 1, s0);
    }
  }

  lemma {:induction false} RunFromFold<S>(p: Policy<S>, ev: seq<Event>, pos: nat, s0: S, s: S)
    requires pos <= End(ev)
    requires Fold(p, ev, pos, s0) == Success(s)
    ensures Run(p, ev, pos, s) == Fold(p, ev, End(ev), s0)
    decreases |ev| - pos
  {
    if pos < End(ev) {
      match Step(p, ev, pos, s)
      case Failure(e) =>
        assert Fold(p, ev, pos + 1, s0) == Failure(e);
        FoldFailurePersists(p, ev, pos + 1, End(ev), s0);
      case Success(next) =>
        assert Fold(p, ev, pos + 1, s0).Success?;
        if next.0 == pos + 2 {
          assert Fold(p, ev, pos + 1, s0) == Success(next.1);
          assert !ev[pos + 1].EndDocument?;
        }
        assert Fold(p, ev, next.0, s0) == Success(next.1);
        RunFromFold(p, ev, next.0, s0, next.1);
    }
  }

  /** The pull loop, with its jumps over text that `nextText()` consumed,
      computes exactly the left-to-right fold of the events that precede the
      first END_DOCUMENT, failure included. */
  lemma RunIsFold<S>(p: Policy<S>, ev: seq<Event>, s0: S)
    ensures Run(p, ev, 0, s0) == Fold(p, ev, End(ev), s0)
  {
    RunFromFold(p, ev, 0, s0, s0);
  }

  /** The text of the last `name` start tag before position `j`, if any. */
  function LastText(ev: seq<Event>, j: nat, name: string): Option<string>
    requires j <= |ev|
  {
    if j == 0 then None
    else if ev[j - 1] == StartTag(name) then Some(FieldText(ev, j - 1))
    else LastText(ev, j - 1, name)
  }

  /** Without a `name` start tag in `[i, j)`, the last `name` text before `j`
      is the one before `i`. */
  lemma {:induction false} LastTextUnchanged(ev: seq<Event>, i: nat, j: nat, name: string)
    requires i <= j <= |ev|
    requires forall k :: i <= k < j ==> ev[k] != StartTag(name)
    ensures LastText(ev, j, name) == LastText(ev, i, name)
    decreases j - i
  {
    if i < j {
      LastTextUnchanged(ev, i, j - 1, name);
    }
  }

  /** `inv` survives every handler of the policy. */
  ghost predicate Preserves<S(!new)>(p: Policy<S>, inv: S -> bool) {
    && (forall s, n, t :: inv(s) && p.onText(s, n, t).Success? ==> inv(p.onText(s, n, t).value))
    && (forall s, n :: inv(s) && p.onClose(s, n).Success? ==> inv(p.onClose(s, n).value))
  }

  lemma {:induction false} FoldPreserves<S(!new)>(p: Policy<S>, inv: S -> bool, ev: seq<Event>, j: nat, s0: S)
    requires j <= |ev| && inv(s0) && Preserves(p, inv)
    ensures Fold(p, ev, j, s0).Success? ==> inv(Fold(p, ev, j, s0).value)
  {
    if j > 0 {
      FoldPreserves(p, inv, ev, j - 1, s0);
    }
  }

  /** A state invariant that every handler preserves holds of the decoded
      result. */
  lemma RunPreserves<S(!new)>(p: Policy<S>, inv: S -> bool, ev: seq<Event>, s0: S)
    requires inv(s0) && Preserves(p, inv)
    ensures Run(p, ev, 0, s0).Success? ==> inv(Run(p, ev, 0, s0).value)
  {
    RunIsFold(p, ev, s0);
    FoldPreserves(p, inv, ev, End(ev), s0);
  }
}
