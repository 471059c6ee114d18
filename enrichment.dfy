/**
 * What happens to an advertisement record after the page has handed it
 * over: the guard that lets the detail callback fire once
 * (`exited` and the `page.once('error')` listener of slando.js, irr.js
 * and avito.js), slando.ru's phone enrichment (render, OCR, blacklist)
 * and avito.ru's, which drops a blacklisted advertisement instead.
 * Rendering, the OCR service and the blacklist service are parameters:
 * what each answered.
 */
module Enrichment {
  import opened Wrappers
  import opened Values
  import Text
  import Phones
  import Pipeline

  // ------------------------------------------------ the once-only guard

  /**
   * What the detail callback can be woken by: a page error (the `error`
   * event, `None` for `page.emit('error')` without an argument) or the
   * page's answer, which `tryParseJson` either accepted (`true`) or
   * reported to the callback as an error (`false`).
   */
  datatype GuardEvent = PageError(err: Option<Fault>) | Answer(parsed: bool)

  /** `exited`, whether the once-listener is still attached, and how often the callback has fired. */
  datatype Guard = Guard(exited: bool, armed: bool, calls: nat)

  /** A fresh `getItemData` call: not exited, listener attached, no call yet. */
  const Fresh := Guard(false, true, 0)

  /**
   * As written: a page error fires the listener once; it calls back when
   * the error is truthy and the guard has not exited.  A parsed answer sets
   * `exited`, detaches the listener (`page.emit('error')`) and calls back;
   * an answer `tryParseJson` rejects calls back with the error but leaves
   * `exited` unset and the listener attached.
   */
  function StepAsWritten(g: Guard, e: GuardEvent): (h: Guard)
    ensures h.calls <= g.calls + 1
    ensures g.exited ==> h.calls == g.calls
  {
    match e
    case PageError(err) =>
      if !g.armed then g
      else if Pipeline.ErrTruthy(err) && !g.exited then Guard(true, false, g.calls + 1)
      else g.(armed := false)
    case Answer(ok) =>
      if g.exited then g
      else if ok then Guard(true, false, g.calls + 1)
      else g.(calls := g.calls + 1)
  }

  /** The guard as intended: reporting a rejected answer also sets `exited`. */
  function Step(g: Guard, e: GuardEvent): (h: Guard)
    ensures h.calls <= g.calls + 1
    ensures g.exited ==> h.calls == g.calls
    ensures h.calls > g.calls ==> h.exited
  {
    match e
    case PageError(err) =>
      if !g.armed then g
      else if Pipeline.ErrTruthy(err) && !g.exited then Guard(true, false, g.calls + 1)
      else g.(armed := false)
    case Answer(ok) =>
      if g.exited then g
      else if ok then Guard(true, false, g.calls + 1)
      else g.(exited := true, calls := g.calls + 1)
  }

  function RunAsWritten(g: Guard, events: seq<GuardEvent>): Guard
    decreases |events|
  {
    if events == [] then g else RunAsWritten(StepAsWritten(g, events[0]), events[1..])
  }

  function Run(g: Guard, events: seq<GuardEvent>): Guard
    decreases |events|
  {
    if events == [] then g else Run(Step(g, events[0]), events[1..])
  }

  /**
   * As written the callback can fire twice: a rejected answer reports its
   * error, and a later page error reaches the still-attached listener.
   */
  lemma {:induction false} AsWrittenCallsTwice()
    ensures RunAsWritten(Fresh, [Answer(false), PageError(Some(Text("x")))]).calls == 2
  {
    var g1 := StepAsWritten(Fresh, Answer(false));
    assert g1 == Guard(false, true, 1);
    assert [Answer(false), PageError(Some(Text("x")))][1..] == [PageError(Some(Text("x")))];
    assert Pipeline.ErrTruthy(Some(Text("x")));
  }

  /** The guard keeps "exited exactly when the callback has fired once". */
  predicate Settled(g: Guard)
  {
    g.calls == (if g.exited then 1 else 0)
  }

  lemma {:induction false} RunSettled(g: Guard, events: seq<GuardEvent>)
    requires Settled(g)
    ensures Settled(Run(g, events))
    decreases |events|
  {
    if events != [] {
      RunSettled(Step(g, events[0]), events[1..]);
    }
  }

  /** With the intended guard the callback fires at most once, whatever the events. */
  lemma {:induction false} CalledAtMostOnce(events: seq<GuardEvent>)
    ensures Run(Fresh, events).calls <= 1
  {
    RunSettled(Fresh, events);
  }

  /** Both guards agree on every run that never sees a rejected answer. */
  lemma {:induction false} GuardsAgree(g: Guard, events: seq<GuardEvent>)
    requires forall i :: 0 <= i < |events| ==> events[i] != Answer(false)
    ensures RunAsWritten(g, events) == Run(g, events)
    decreases |events|
  {
    if events != [] {
      GuardsAgree(Step(g, events[0]), events[1..]);
    }
  }

  /**
   * The closure state of one `getItemData` call, with the intended guard:
   * the handlers update `exited`, the listener and the number of callbacks.
   */
  class DetailGuard {
    var exited: bool
    var armed: bool
    var calls: nat

    function State(): Guard
      reads this
    {
      Guard(exited, armed, calls)
    }

    predicate Valid()
      reads this
    {
      Settled(State())
    }

    constructor ()
      ensures State() == Fresh && Valid()
    {
      exited, armed, calls := false, true, 0;
    }

    /** The `once('error')` listener `onError`. */
    method OnPageError(err: Option<Fault>)
      requires Valid()
      modifies this
      ensures State() == Step(old(State()), PageError(err))
      ensures Valid() && calls <= 1
    {
      if armed {
        armed := false;
        if Pipeline.ErrTruthy(err) && !exited {
          exited := true;
          calls := calls + 1;
        }
      }
    }

    /** The final function of `openAndRun`, up to the callback. */
    method OnAnswer(parsed: bool)
      requires Valid()
      modifies this
      ensures State() == Step(old(State()), Answer(parsed))
      ensures Valid() && calls <= 1
    {
      if exited {
        return;
      }
      exited := true;
      if parsed {
        armed := false;
      }
      calls := calls + 1;
    }
  }

  // ---------------------------------------------------------- slando.ru

  const PhoneKey := "ad_landlord_phone"
  const BlockedKey := "blocked"

  /** The query and body slando.ru sends with the phone image. */
  const SlandoOcrQuery := "modify=-resize,250x&png8=true"
  const SlandoOcrBody: Record := map["lang" := Str("rus"), "type" := Str("png")]

  /** The request slando.ru sends to the OCR service with the rendered phone. */
  lemma {:induction false} SlandoOcrRequest(image64: string)
    ensures Phones.PrepareOcr(image64, Some(SlandoOcrQuery), Some(SlandoOcrBody)).path == "/run-ocr?" + SlandoOcrQuery
    ensures Phones.PrepareOcr(image64, Some(SlandoOcrQuery), Some(SlandoOcrBody)).body
            == map["lang" := Str("rus"), "type" := Str("png"), "image" := Str(image64)]
  {
  }

  /** The phone as slando.ru stores it: several numbers joined with ', '. */
  function PhoneText(p: Phones.Phone): (v: Value)
    ensures v.Str?
    ensures p.One? ==> v.s == p.number
    ensures p.Several? ==> v.s == Text.Join(p.numbers, ", ")
  {
    match p
    case One(n) => Str(n)
    case Several(ns) => Str(Text.Join(ns, ", "))
  }

  /**
   * slando.ru after post-processing: a record without a phone image is
   * passed on with `blocked = false`.  Otherwise the waterfall renders the
   * phone, reads it by OCR and asks the blacklist; the phone field takes
   * the OCR reading once OCR succeeded, `blocked` takes the blacklist's
   * answer (`undefined` after an error), and an error travels with the
   * record to the callback.
   */
  function SlandoEnrich(data: Record, render: Result<string, Fault>, ocr: Result<string, Fault>,
                        blacklist: Result<Value, Fault>, frames: string): (r: Pipeline.Reply)
    ensures r.item.Obj? && r.item.fields.Keys == data.Keys + {BlockedKey}
    ensures !Truthy(Get(data, PhoneKey)) ==> r == Pipeline.Reply(None, Obj(data[BlockedKey := Bool(false)]))
    ensures Truthy(Get(data, PhoneKey)) && render.Err? ==>
              r == Pipeline.Reply(Some(render.error), Obj(data[BlockedKey := Undefined]))
    ensures Truthy(Get(data, PhoneKey)) && render.Ok? && ocr.Err? ==>
              r == Pipeline.Reply(Some(ocr.error), Obj(data[BlockedKey := Undefined]))
    ensures Truthy(Get(data, PhoneKey)) && render.Ok? && ocr.Ok? ==>
              var reading := Phones.ReadOcr(ocr.value);
              && Get(r.item.fields, PhoneKey) == PhoneText(reading.phone)
              && (blacklist.Err? ==> r.err == Some(blacklist.error) && Get(r.item.fields, BlockedKey) == Undefined)
              && (blacklist.Ok? && !blacklist.value.Arr? ==>
                    && r.err.Some? && r.err.value.Thrown? && r.err.value.message == Phones.BadAnswer
                    && Get(r.item.fields, BlockedKey) == Undefined)
              && (blacklist.Ok? && blacklist.value.Arr? ==>
                    && r.err.None?
                    && Get(r.item.fields, BlockedKey)
                       == Bool(exists i :: 0 <= i < |Phones.Query(reading.phone)| &&
                                           Str(Phones.Query(reading.phone)[i]) in blacklist.value.elems))
    ensures forall k :: k in data && k != PhoneKey && k != BlockedKey ==> Get(r.item.fields, k) == data[k]
  {
    if !Truthy(Get(data, PhoneKey)) then Pipeline.Reply(None, Obj(data[BlockedKey := Bool(false)]))
    else match render
      case Err(e) => Pipeline.Reply(Some(e), Obj(data[BlockedKey := Undefined]))
      case Ok(image) =>
        match Phones.Ocr(ocr)
        case Err(e) => Pipeline.Reply(Some(e), Obj(data[BlockedKey := Undefined]))
        case Ok(reading) =>
          var withPhone := data[PhoneKey := PhoneText(reading.phone)];
          match Phones.IsBlocked(reading.phone, blacklist, frames)
          case Err(e) => Pipeline.Reply(Some(e), Obj(withPhone[BlockedKey := Undefined]))
          case Ok(b) => Pipeline.Reply(None, Obj(withPhone[BlockedKey := Bool(b)]))
  }

  /**
   * slando.ru keeps a blacklisted advertisement: it reaches the results as
   * an item with `blocked = true`, never as a failure and never dropped.
   */
  lemma {:induction false} SlandoKeepsBlocked(url: string, data: Record, image: string, text: string, reply: seq<Value>, frames: string)
    requires Truthy(Get(data, PhoneKey))
    requires Phones.IsBlocked(Phones.ReadOcr(text).phone, Ok(Arr(reply)), frames) == Ok(true)
    ensures var r := SlandoEnrich(data, Ok(image), Ok(text), Ok(Arr(reply)), frames);
            Pipeline.EntryFor(url, r) == [Pipeline.Item(r.item)] && Get(r.item.fields, BlockedKey) == Bool(true)
  {
  }

  /** A failing step of the waterfall turns the advertisement into a failure entry for its URL. */
  lemma {:induction false} SlandoFailureEntry(url: string, data: Record, e: Fault, frames: string,
                           ocr: Result<string, Fault>, blacklist: Result<Value, Fault>)
    requires Truthy(Get(data, PhoneKey)) && FaultTruthy(e)
    ensures Pipeline.EntryFor(url, SlandoEnrich(data, Err(e), ocr, blacklist, frames)) == [Pipeline.Failed(url, e)]
  {
  }

  // ----------------------------------------------------------- avito.ru

  /**
   * avito.ru after post-processing.  With a phone image, the phone becomes
   * the digits OCR read (`ocrText` is the service's `result`); a non-empty
   * phone is sent to the blacklist, and when the first element of its
   * reply is that phone the advertisement is reported as `(null, null)`,
   * that is dropped.  A truthy picture is replaced by its rendering.
   * Nothing here reports an error.
   */
  function AvitoEnrich(data: Record, ocrText: string, reply: seq<Value>, picture: string): (r: Pipeline.Reply)
    ensures r.err.None?
    ensures r.item == Null <==>
              Truthy(Get(data, PhoneKey)) && Text.Digits(ocrText) != "" && |reply| > 0 && reply[0] == Str(Text.Digits(ocrText))
    ensures r.item != Null ==> r.item.Obj? && r.item.fields.Keys == data.Keys
    ensures r.item != Null && Truthy(Get(data, PhoneKey)) ==> r.item.fields[PhoneKey] == Str(Text.Digits(ocrText))
    ensures r.item != Null && Truthy(Get(data, "ad_picture")) ==> r.item.fields["ad_picture"] == Str(picture)
    ensures r.item != Null ==>
              forall k :: k in data && (k != PhoneKey || !Truthy(data[k])) && (k != "ad_picture" || !Truthy(data[k])) ==>
                r.item.fields[k] == data[k]
  {
    var withPhone := if Truthy(Get(data, PhoneKey)) then data[PhoneKey := Str(Text.Digits(ocrText))] else data;
    var phone := Get(withPhone, PhoneKey);
    if Truthy(phone) && |reply| > 0 && reply[0] == phone then Pipeline.Reply(None, Null)
    else
      var pic := Get(withPhone, "ad_picture");
      Pipeline.Reply(None, Obj(if Truthy(pic) then withPhone["ad_picture" := Str(picture)] else withPhone))
  }

  /** A dropped avito.ru advertisement leaves no entry at all in the run's results. */
  lemma {:induction false} AvitoDropLeavesNoEntry(url: string, data: Record, ocrText: string, reply: seq<Value>, picture: string)
    ensures Pipeline.EntryFor(url, AvitoEnrich(data, ocrText, reply, picture)) == [] <==>
              Truthy(Get(data, PhoneKey)) && Text.Digits(ocrText) != "" && |reply| > 0 && reply[0] == Str(Text.Digits(ocrText))
  {
  }

  /**
   * avito.ru only looks at the first element of the blacklist's reply: a
   * phone listed further down is kept, where the phone service's
   * `isBlocked` would call it blocked.
   */
  lemma {:induction false} AvitoChecksFirstOnly(data: Record, ocrText: string, other: string, picture: string, frames: string)
    requires Truthy(Get(data, PhoneKey))
    requires Text.Digits(ocrText) != "" && other != Text.Digits(ocrText)
    ensures var reply := [Str(other), Str(Text.Digits(ocrText))];
            && AvitoEnrich(data, ocrText, reply, picture).item != Null
            && Phones.IsBlocked(Phones.One(Text.Digits(ocrText)), Ok(Arr(reply)), frames) == Ok(true)
  {
    var reply := [Str(other), Str(Text.Digits(ocrText))];
    assert Phones.Query(Phones.One(Text.Digits(ocrText)))[0] == Text.Digits(ocrText);
    assert Str(Text.Digits(ocrText)) in reply;
  }
}
