/**
 * The text filters of the two web front ends: the translated landlord
 * type, the translation filter itself, `na` and `fixed` of the panel
 * (public/js), and the Russian landlord type of the older front end
 * (public/app/js).  The translation table is a parameter.
 */
module UiFilters {
  import opened Wrappers
  import opened Values
  import Text

  /** The translation table `_translation`: English text to its translation. */
  type Translation = map<string, string>

  /** `i18n.t(str)` and the `i18n` filter: the translation, or the text itself when the table has none. */
  function Translate(tr: Translation, str: string): (r: string)
    ensures str in tr ==> r == tr[str]
    ensures str !in tr ==> r == str
  {
    if str in tr then tr[str] else str
  }

  /** Without an entry for it, a text is shown as it is, however often it is translated. */
  lemma {:induction false} TranslateUntranslated(tr: Translation, str: string)
    requires str !in tr
    ensures Translate(tr, Translate(tr, str)) == str
  {
  }

  /** The panel's `landlord_type`: strictly 'agency' or 'private', else 'N/A', translated. */
  function LandlordType(tr: Translation, kind: Value): (r: string)
    ensures kind == Str("agency") ==> r == Translate(tr, "Agency")
    ensures kind == Str("private") ==> r == Translate(tr, "Private")
    ensures kind != Str("agency") && kind != Str("private") ==> r == Translate(tr, "N/A")
  {
    if kind == Str("agency") then Translate(tr, "Agency")
    else if kind == Str("private") then Translate(tr, "Private")
    else Translate(tr, "N/A")
  }

  /** Without a translation table the panel shows one of the three English texts. */
  lemma {:induction false} LandlordTypeEnglish(kind: Value)
    ensures LandlordType(map[], kind) in {"Agency", "Private", "N/A"}
  {
  }

  /** `na`: a truthy value as it is, anything else as 'N/A'; the result is always truthy. */
  function Na(val: Value): (r: Value)
    ensures Truthy(r)
    ensures Truthy(val) ==> r == val
    ensures !Truthy(val) ==> r == Str("N/A")
  {
    if Truthy(val) then val else Str("N/A")
  }

  /** `na` twice is `na` once. */
  lemma {:induction false} NaIdempotent(val: Value)
    ensures Na(Na(val)) == Na(val)
  {
  }

  /** `substring(0, end)` with JavaScript's clamping of the end index. */
  function Prefix(s: string, end: int): (r: string)
    ensures |r| <= |s| && r == s[..|r|]
    ensures 0 <= end <= |s| ==> |r| == end
  {
    if end <= 0 then "" else if end >= |s| then s else s[..end]
  }

  const Ellipsis := "..."

  /**
   * `fixed(val, length)`: '' for a missing or empty value, the value when
   * it is shorter than `length - 3`, otherwise its first `length - 3`
   * characters, trimmed, followed by '...'.  `None` is `null`/`undefined`.
   */
  function Fixed(val: Option<string>, length: int): (r: string)
    ensures val.None? || val.value == "" ==> r == ""
    ensures val.Some? && val.value != "" && |val.value| < length - 3 ==> r == val.value
    ensures val.Some? && val.value != "" && |val.value| >= length - 3 ==>
              |r| >= 3 && r[|r| - 3..] == Ellipsis && |r| - 3 <= |val.value|
    ensures length >= 3 ==> |r| <= length
  {
    if val.None? || val.value == "" then ""
    else if |val.value| < length - 3 then val.value
    else Text.Trim(Prefix(val.value, length - 3)) + Ellipsis
  }

  /** A shortened value starts with the trimmed head of the original. */
  lemma {:induction false} FixedKeepsHead(val: string, length: int)
    requires val != "" && length >= 3 && |val| >= length - 3
    ensures Fixed(Some(val), length) == Text.Trim(val[..length - 3]) + Ellipsis
  {
  }

  /** The older front end's `landlord_type`: fixed Russian texts. */
  function LandlordTypeRu(kind: Value): (r: string)
    ensures r in {"Агенство", "Частник", "N/A"}
    ensures r == "Агенство" <==> kind == Str("agency")
    ensures r == "Частник" <==> kind == Str("private")
  {
    if kind == Str("agency") then "Агенство"
    else if kind == Str("private") then "Частник"
    else "N/A"
  }
}
