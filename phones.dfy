/**
 * The phone service of models/phones.js: the request sent to the OCR
 * service, the cleaning of the number it reads, and the blacklist
 * decision.  The HTTP transport is the parameter `answer`: what the
 * service answered (already decoded from JSON) or the transport error.
 */
module Phones {
  import opened Wrappers
  import opened Values
  import Text

  // ---------------------------------------------------------------- OCR

  /** What the OCR service is sent: the request path and the JSON body. */
  datatype OcrRequest = OcrRequest(path: string, body: Record)

  /** The body used when the caller gives none. */
  const DefaultBody: Record := map["type" := Str("png"), "lang" := Str("eng")]

  /**
   * `query = query || ''`, `body = body || {type: 'png', lang: 'eng'}`,
   * then `body.image` is the image in base64 (`image64`).
   */
  function PrepareOcr(image64: string, query: Option<string>, body: Option<Record>): (r: OcrRequest)
    ensures query.None? ==> r.path == "/run-ocr?"
    ensures query.Some? ==> r.path == "/run-ocr?" + query.value
    ensures Get(r.body, "image") == Str(image64)
    ensures body.None? ==> r.body.Keys == {"type", "lang", "image"}
                           && Get(r.body, "type") == Str("png") && Get(r.body, "lang") == Str("eng")
    ensures body.Some? ==> r.body.Keys == body.value.Keys + {"image"}
                           && forall k :: k in body.value && k != "image" ==> Get(r.body, k) == body.value[k]
  {
    var q := if query.Some? then query.value else "";
    var b := if body.Some? then body.value else DefaultBody;
    OcrRequest("/run-ocr?" + q, b["image" := Str(image64)])
  }

  /** What OCR calls back with: one number, or several when the text held commas. */
  datatype Phone = One(number: string) | Several(numbers: seq<string>)

  predicate OcrChar(c: char)
  {
    Text.IsDigit(c) || c == ','
  }

  /** `phone.replace(/[^0-9,]/g, '')`. */
  function CleanOcr(text: string): (clean: string)
    ensures forall i :: 0 <= i < |clean| ==> OcrChar(clean[i])
    ensures |clean| <= |text|
  {
    Text.Keep(text, OcrChar)
  }

  /**
   * What the cleaning keeps, fixed by three facts: it works piece by piece
   * (the cleaning of a concatenation is the concatenation of the
   * cleanings), a single character stays exactly when it is a digit or a
   * comma, and a character is in the result exactly when the text holds it
   * and it is a digit or a comma.  So every digit and comma stays, in order.
   */
  lemma {:induction false} CleanOcrKeepsInOrder(a: string, b: string, c: char)
    ensures CleanOcr(a + b) == CleanOcr(a) + CleanOcr(b)
    ensures CleanOcr([c]) == if OcrChar(c) then [c] else []
    ensures forall x :: x in CleanOcr(a) <==> x in a && OcrChar(x)
  {
    Text.KeepConcat(a, b, OcrChar);
    Text.KeepMembers(a, OcrChar);
    assert [c][1..] == [];
  }

  /** The parsed result and whether the image goes to `saveNotIdentified`. */
  datatype OcrReading = OcrReading(phone: Phone, unidentified: bool)

  /**
   * The cleaned text, split on commas when it holds one; an empty cleaned
   * text is reported as not identified and still returned.
   */
  function ReadOcr(text: string): (r: OcrReading)
    ensures r.unidentified <==> CleanOcr(text) == ""
    ensures r.phone.One? <==> ',' !in CleanOcr(text)
    ensures r.phone.One? ==> r.phone.number == CleanOcr(text)
    ensures r.phone.Several? ==> Text.Join(r.phone.numbers, [',']) == CleanOcr(text)
  {
    var clean := CleanOcr(text);
    Text.JoinSplit(clean, ',');
    OcrReading(if ',' in clean then Several(Text.Split(clean, ',')) else One(clean), clean == "")
  }

  /** Every number OCR hands on is made of digits only, and a comma gives at least two of them. */
  lemma {:induction false} ReadOcrDigits(text: string)
    ensures var p := ReadOcr(text).phone;
            && (p.One? ==> Text.AllDigits(p.number))
            && (p.Several? ==> |p.numbers| >= 2 && forall i :: 0 <= i < |p.numbers| ==> Text.AllDigits(p.numbers[i]))
  {
    var clean := CleanOcr(text);
    if ',' in clean {
      var parts := Text.Split(clean, ',');
      forall i | 0 <= i < |parts| ensures Text.AllDigits(parts[i]) {
        SplitPartsFrom(clean, ',', i);
        forall j | 0 <= j < |parts[i]| ensures Text.IsDigit(parts[i][j]) {
          assert parts[i][j] in parts[i];
          var k :| 0 <= k < |clean| && clean[k] == parts[i][j];
          assert OcrChar(clean[k]);
        }
      }
      Text.JoinSplit(clean, ',');
    }
  }

  /** The characters of a piece of a split come from the split string. */
  lemma {:induction false} SplitPartsFrom(s: string, c: char, i: nat)
    requires i < |Text.Split(s, c)|
    ensures forall x :: x in Text.Split(s, c)[i] ==> x in s
  {
    if s != [] {
      var rest := Text.Split(s[1..], c);
      if s[0] == c {
        if i > 0 {
          SplitPartsFrom(s[1..], c, i - 1);
        }
      } else if i == 0 {
        SplitPartsFrom(s[1..], c, 0);
      } else {
        SplitPartsFrom(s[1..], c, i);
      }
    }
  }

  /** Reading the cleaned text again reads the same number. */
  lemma {:induction false} ReadOcrIdempotent(text: string)
    ensures ReadOcr(CleanOcr(text)) == ReadOcr(text)
  {
    Text.KeepIdempotent(text, OcrChar);
  }

  /** `OCR`'s callback: a transport error unchanged, otherwise the reading. */
  function Ocr(answer: Result<string, Fault>): (r: Result<OcrReading, Fault>)
    ensures answer.Err? ==> r == Err(answer.error)
    ensures answer.Ok? ==> r == Ok(ReadOcr(answer.value))
    ensures answer.Ok? ==> r.value.unidentified == (CleanOcr(answer.value) == "")
  {
    match answer
    case Err(e) => Err(e)
    case Ok(text) => Ok(ReadOcr(text))
  }

  // ---------------------------------------------------------- blacklist

  /** `isBlocked` sends an array as it is and wraps a single number. */
  function Query(phone: Phone): (q: seq<string>)
    ensures phone.One? ==> q == [phone.number]
    ensures phone.Several? ==> q == phone.numbers
  {
    match phone
    case One(n) => [n]
    case Several(ns) => ns
  }

  /** `query.some(phone => res.indexOf(phone) !== -1)`, checked element by element. */
  function Listed(query: seq<string>, reply: seq<Value>): (b: bool)
    ensures b <==> exists i :: 0 <= i < |query| && Str(query[i]) in reply
  {
    if query == [] then false
    else if Str(query[0]) in reply then true
    else
      var rest := Listed(query[1..], reply);
      assert forall i :: 1 <= i < |query| ==> query[i] == query[1..][i - 1];
      rest
  }

  /** The error for an answer that is not an array; the second constructor argument is ignored. */
  const BadAnswer := "Bad answer from blacklist checker application: %s"

  /**
   * `isBlocked`: a transport error is passed through, an answer that is not
   * an array is an error, otherwise blocked iff some queried number is in
   * the answer.
   */
  function IsBlocked(phone: Phone, answer: Result<Value, Fault>, frames: string): (r: Result<bool, Fault>)
    ensures answer.Err? ==> r == Err(answer.error)
    ensures answer.Ok? && !answer.value.Arr? ==> r.Err? && r.error.Thrown? && r.error.message == BadAnswer
    ensures answer.Ok? && answer.value.Arr? ==>
              r.Ok? && (r.value <==> exists i :: 0 <= i < |Query(phone)| && Str(Query(phone)[i]) in answer.value.elems)
  {
    match answer
    case Err(e) => Err(e)
    case Ok(v) =>
      if !v.Arr? then Err(NewError(BadAnswer, frames))
      else Ok(Listed(Query(phone), v.elems))
  }

  /** A number is never blocked by an answer that does not hold it as a string. */
  lemma {:induction false} NotListedWhenAbsent(n: string, reply: seq<Value>, frames: string)
    requires Str(n) !in reply
    ensures IsBlocked(One(n), Ok(Arr(reply)), frames) == Ok(false)
  {
    assert Query(One(n)) == [n];
  }

  /** Numbers are compared strictly: a numeric entry does not match the same digits as text. */
  lemma {:induction false} StrictComparison(frames: string)
    ensures IsBlocked(One("5"), Ok(Arr([Num(5)])), frames) == Ok(false)
    ensures IsBlocked(One("5"), Ok(Arr([Str("5")])), frames) == Ok(true)
  {
    assert Str("5") in [Str("5")];
  }
}
