/**
 * What the site scrapers do with the text a page gave them: the
 * post-processing of a parsed advertisement record (the for-in loop over
 * its fields), the legacy scraper's variant of it, the mapping of
 * enumerated links to absolute URLs and the advertisement id read off a URL.
 */
module Extraction {
  import opened Wrappers
  import opened Values
  import Text

  // ----------------------------------------------- field post-processing

  /**
   * One field of the for-in loop: a truthy string is trimmed, then every
   * `<p>` becomes a line break and every `</p>` is removed; any other value
   * is left alone.
   */
  function CleanField(v: Value): (w: Value)
    ensures !(v.Str? && v.s != "") ==> w == v
    ensures v.Str? && v.s != "" ==> w.Str?
  {
    if v.Str? && v.s != "" then
      Str(Text.ReplaceAll(Text.ReplaceAll(Text.Trim(v.s), "<p>", "\n"), "</p>", ""))
    else v
  }

  /** Paragraphs as the page marks them up: each one between `<p>` and `</p>`. */
  function Paragraphs(ps: seq<string>): string
  {
    if ps == [] then "" else "<p>" + ps[0] + "</p>" + Paragraphs(ps[1..])
  }

  /** The same paragraphs as the cleaned field holds them: each one after a line break. */
  function LineBroken(ps: seq<string>): string
  {
    if ps == [] then "" else "\n" + ps[0] + LineBroken(ps[1..])
  }

  /** Between the two `replace` calls: each `<p>` already a line break, each `</p>` still there. */
  function OpenTagsReplaced(ps: seq<string>): string
  {
    if ps == [] then "" else "\n" + ps[0] + "</p>" + OpenTagsReplaced(ps[1..])
  }

  /** A closing tag is not an opening one: `replace(/<p>/g, ...)` passes over it. */
  lemma {:induction false} CloseTagSkipped(x: string)
    ensures Text.ReplaceAll("</p>" + x, "<p>", "\n") == "</p>" + Text.ReplaceAll(x, "<p>", "\n")
  {
    var s := "</p>" + x;
    assert s[..3] != "<p>" by {
      assert s[1] == '/';
    }
    assert s[1..] == "/p>" + x;
    Text.ReplaceSkip("/p>", x, "<p>", "\n");
  }

  /** The first `replace` turns every opening tag into a line break. */
  lemma {:induction false} OpenTagsStep(ps: seq<string>)
    requires forall p :: p in ps ==> '<' !in p
    ensures Text.ReplaceAll(Paragraphs(ps), "<p>", "\n") == OpenTagsReplaced(ps)
    decreases |ps|
  {
    if ps != [] {
      var p, rest := ps[0], Paragraphs(ps[1..]);
      assert p in ps;
      assert forall q :: q in ps[1..] ==> q in ps;
      calc {
        Text.ReplaceAll(Paragraphs(ps), "<p>", "\n");
        == { assert Paragraphs(ps) == [] + "<p>" + (p + ("</p>" + rest)); }
        Text.ReplaceAll([] + "<p>" + (p + ("</p>" + rest)), "<p>", "\n");
        == { Text.ReplaceStep([], p + ("</p>" + rest), "<p>", "\n"); }
        [] + "\n" + Text.ReplaceAll(p + ("</p>" + rest), "<p>", "\n");
        == { Text.ReplaceSkip(p, "</p>" + rest, "<p>", "\n"); }
        [] + "\n" + (p + Text.ReplaceAll("</p>" + rest, "<p>", "\n"));
        == { CloseTagSkipped(rest); }
        [] + "\n" + (p + ("</p>" + Text.ReplaceAll(rest, "<p>", "\n")));
        == { OpenTagsStep(ps[1..]); }
        [] + "\n" + (p + ("</p>" + OpenTagsReplaced(ps[1..])));
        == { assert [] + "\n" + (p + ("</p>" + OpenTagsReplaced(ps[1..]))) == "\n" + p + "</p>" + OpenTagsReplaced(ps[1..]); }
        OpenTagsReplaced(ps);
      }
    }
  }

  /** The second `replace` removes every closing tag. */
  lemma {:induction false} CloseTagsStep(ps: seq<string>)
    requires forall p :: p in ps ==> '<' !in p
    ensures Text.ReplaceAll(OpenTagsReplaced(ps), "</p>", "") == LineBroken(ps)
    decreases |ps|
  {
    if ps != [] {
      var h, rest := "\n" + ps[0], OpenTagsReplaced(ps[1..]);
      assert ps[0] in ps;
      assert forall q :: q in ps[1..] ==> q in ps;
      assert '<' !in h;
      calc {
        Text.ReplaceAll(OpenTagsReplaced(ps), "</p>", "");
        == { Text.ReplaceStep(h, rest, "</p>", ""); }
        h + "" + Text.ReplaceAll(rest, "</p>", "");
        == { CloseTagsStep(ps[1..]); assert h + "" == h; }
        h + LineBroken(ps[1..]);
      }
    }
  }

  /**
   * Paragraph markup is rewritten as the loop intends: a field whose trimmed
   * text is a run of `<p>...</p>` paragraphs without further markup becomes
   * those paragraphs, each after a line break.
   */
  lemma {:induction false} CleanParagraphs(s: string, ps: seq<string>)
    requires ps != [] && forall p :: p in ps ==> '<' !in p
    requires Text.Trim(s) == Paragraphs(ps)
    ensures CleanField(Str(s)) == Str(LineBroken(ps))
  {
    assert |Paragraphs(ps)| > 0;
    OpenTagsStep(ps);
    CloseTagsStep(ps);
  }

  /** In the record, a field holding `<p>` paragraphs comes out as those paragraphs after line breaks. */
  lemma {:induction false} PostProcessParagraphs(data: Record, stamp: string, k: string, ps: seq<string>)
    requires k in data && k != "create_time" && data[k].Str?
    requires ps != [] && forall p :: p in ps ==> '<' !in p
    requires Text.Trim(data[k].s) == Paragraphs(ps)
    ensures PostProcessed(data, stamp)[k] == Str(LineBroken(ps))
  {
    CleanParagraphs(data[k].s, ps);
  }

  /** The record after `data.create_time = stamp` and the loop over its own fields. */
  function PostProcessed(data: Record, stamp: string): (r: Record)
    ensures r.Keys == data.Keys + {"create_time"}
    ensures r["create_time"] == CleanField(Str(stamp))
    ensures forall k :: k in data && k != "create_time" ==> r[k] == CleanField(data[k])
  {
    var base := data["create_time" := Str(stamp)];
    map k | k in base :: CleanField(base[k])
  }

  /** A string with no '<' holds neither tag. */
  lemma {:induction false} NoTags(s: string)
    requires '<' !in s
    ensures !Text.Contains(s, "<p>") && !Text.Contains(s, "</p>")
  {
    forall i | 0 <= i <= |s| ensures !Text.At(s, "<p>", i) && !Text.At(s, "</p>", i) {
      if i < |s| {
        assert s[i] in s;
        assert "<p>"[0] == '<' && "</p>"[0] == '<';
      }
    }
  }

  /** Trimming brings in no '<'. */
  lemma {:induction false} TrimNoMarkup(s: string)
    requires '<' !in s
    ensures '<' !in Text.Trim(s)
  {
    var i, j := Text.TrimSlice(s);
    assert forall c :: c in s[i..j] ==> c in s;
  }

  /** A string field without markup is only trimmed. */
  lemma {:induction false} CleanPlainField(s: string)
    requires s != "" && '<' !in s
    ensures CleanField(Str(s)) == Str(Text.Trim(s))
  {
    var t := Text.Trim(s);
    TrimNoMarkup(s);
    NoTags(t);
    Text.ReplaceAbsent(t, "<p>", "\n");
    Text.ReplaceAbsent(t, "</p>", "");
  }

  /**
   * Post-processing adds `create_time` and changes nothing but truthy
   * strings: the key set grows by `create_time` only, every other value is
   * kept, and a string without markup is just trimmed.
   */
  lemma {:induction false} PostProcessFields(data: Record, stamp: string)
    ensures PostProcessed(data, stamp).Keys == data.Keys + {"create_time"}
    ensures forall k :: k in data && k != "create_time" && !(data[k].Str? && data[k].s != "") ==>
              PostProcessed(data, stamp)[k] == data[k]
    ensures forall k :: k in data && k != "create_time" && data[k].Str? && data[k].s != "" && '<' !in data[k].s ==>
              PostProcessed(data, stamp)[k] == Str(Text.Trim(data[k].s))
    ensures stamp != "" && '<' !in stamp ==> PostProcessed(data, stamp)["create_time"] == Str(Text.Trim(stamp))
  {
    forall k | k in data && k != "create_time" && data[k].Str? && data[k].s != "" && '<' !in data[k].s {
      CleanPlainField(data[k].s);
    }
    if stamp != "" && '<' !in stamp {
      CleanPlainField(stamp);
    }
  }

  /** A record whose strings carry no markup is left as it is by a second pass. */
  lemma {:induction false} PostProcessIdempotent(data: Record, stamp: string)
    requires forall k :: k in data && data[k].Str? ==> '<' !in data[k].s
    requires '<' !in stamp
    ensures PostProcessed(PostProcessed(data, stamp), stamp) == PostProcessed(data, stamp)
  {
    var once := PostProcessed(data, stamp);
    var base := data["create_time" := Str(stamp)];
    forall k | k in once ensures PostProcessed(once, stamp)[k] == once[k] {
      var v := base[k];
      if v.Str? && v.s != "" {
        CleanPlainField(v.s);
        var t := Text.Trim(v.s);
        Text.TrimIdempotent(v.s);
        if t != "" {
          TrimNoMarkup(v.s);
          CleanPlainField(t);
        }
      }
    }
  }

  /** The record after the fields listed in `done` have been cleaned. */
  ghost function Partial(base: Record, done: seq<string>): Record
  {
    map k | k in base :: if k in done then CleanField(base[k]) else base[k]
  }

  /** Cleaning one more field of the partial record extends `done` by it. */
  lemma {:induction false} PartialStep(base: Record, done: seq<string>, k: string)
    requires k in base && k !in done
    ensures Partial(base, done + [k]) == Partial(base, done)[k := CleanField(base[k])]
  {
  }

  /** One turn of the loop: visiting `order[i]` takes the partial record one key further. */
  lemma {:induction false} PartialNext(base: Record, order: seq<string>, i: nat)
    requires i < |order| && order[i] in base
    requires forall a, b :: 0 <= a < b < |order| ==> order[a] != order[b]
    ensures var out, k := Partial(base, order[..i]), order[i];
            && k in out
            && Partial(base, order[..i + 1])
               == if out[k].Str? && out[k].s != "" then out[k := CleanField(out[k])] else out
  {
    var out, k := Partial(base, order[..i]), order[i];
    NotBefore(order, i);
    PartialStep(base, order[..i], k);
    assert order[..i + 1] == order[..i] + [k];
    if !(out[k].Str? && out[k].s != "") {
      KeepUntouched(out, k);
    }
  }

  /** A field the loop skips already holds its cleaned value. */
  lemma {:induction false} KeepUntouched(out: Record, k: string)
    requires k in out && !(out[k].Str? && out[k].s != "")
    ensures out[k := CleanField(out[k])] == out
  {
  }

  /** Once every key has been visited the partial record is the post-processed one. */
  lemma {:induction false} PartialDone(data: Record, stamp: string, order: seq<string>)
    requires forall k :: k in data || k == "create_time" ==> k in order
    ensures Partial(data["create_time" := Str(stamp)], order) == PostProcessed(data, stamp)
  {
  }

  /** In a list without repeats no element occurs before its own position. */
  lemma {:induction false} NotBefore(order: seq<string>, i: nat)
    requires i < |order|
    requires forall a, b :: 0 <= a < b < |order| ==> order[a] != order[b]
    ensures order[i] !in order[..i]
  {
  }

  /**
   * The for-in loop of `getItemData`, field by field in `order` (the
   * record's own keys with `create_time`, each once).
   */
  method PostProcess(data: Record, stamp: string, order: seq<string>) returns (out: Record)
    requires forall k :: k in order <==> k in data || k == "create_time"
    requires forall i, j :: 0 <= i < j < |order| ==> order[i] != order[j]
    ensures out == PostProcessed(data, stamp)
  {
    var base := data["create_time" := Str(stamp)];
    out := base;
    var i := 0;
    assert Partial(base, []) == base;
    while i < |order|
      invariant 0 <= i <= |order|
      invariant out == Partial(base, order[..i])
    {
      var k := order[i];
      var v := out[k];
      PartialNext(base, order, i);
      if v.Str? && v.s != "" {
        out := out[k := CleanField(v)];
      }
      i := i + 1;
    }
    assert order[..i] == order;
    PartialDone(data, stamp, order);
  }

  // -------------------------------------------- the legacy scraper's pass

  /** The site root the Avito scrapers prefix to links and pictures. */
  const AvitoBase := "http://www.avito.ru"

  /** A truthy field that is not a string: `data[k].trim()` throws on it. */
  predicate Untrimmable(v: Value)
  {
    Truthy(v) && !v.Str?
  }

  /** `if (data.ad_picture) data.ad_picture = BASE_URL + data.ad_picture`. */
  function PrefixPicture(data: Record): (r: Record)
    ensures r.Keys == data.Keys
    ensures Truthy(Get(data, "ad_picture")) ==> r["ad_picture"] == Str(AvitoBase + JoinPart(data["ad_picture"]))
    ensures forall k :: k in data && (k != "ad_picture" || !Truthy(data[k])) ==> r[k] == data[k]
  {
    var pic := Get(data, "ad_picture");
    if Truthy(pic) then data["ad_picture" := Str(AvitoBase + JoinPart(pic))] else data
  }

  /** `for (k in data) if (data[k]) data[k] = data[k].trim()`; `None` is the TypeError on a truthy non-string. */
  function TrimFields(data: Record): (r: Option<Record>)
    ensures r.None? <==> exists k :: k in data && Untrimmable(data[k])
  {
    if exists k :: k in data && Untrimmable(data[k]) then None
    else Some(map k | k in data :: if Truthy(data[k]) then Str(Text.Trim(data[k].s)) else data[k])
  }

  /**
   * The legacy `getItemData` callback: a truthy `ad_picture` gets the site
   * root in front, then every truthy field is trimmed.
   */
  function LegacyCleaned(data: Record): (r: Option<Record>)
    ensures r.Some? ==> r.value.Keys == data.Keys
  {
    TrimFields(PrefixPicture(data))
  }

  /**
   * The legacy pass throws exactly when a field other than the picture is
   * truthy and not a string; otherwise it keeps the keys, trims every
   * string, puts the site root before a truthy picture and leaves falsy
   * fields alone.
   */
  lemma {:induction false} LegacyCleanedFields(data: Record)
    ensures LegacyCleaned(data).None? <==> exists k :: k in data && k != "ad_picture" && Untrimmable(data[k])
    ensures LegacyCleaned(data).Some? ==> LegacyCleaned(data).value.Keys == data.Keys
    ensures LegacyCleaned(data).Some? && Truthy(Get(data, "ad_picture")) ==>
              LegacyCleaned(data).value["ad_picture"] == Str(Text.Trim(AvitoBase + JoinPart(data["ad_picture"])))
    ensures LegacyCleaned(data).Some? ==>
              forall k :: k in data && k != "ad_picture" && data[k].Str? && data[k].s != "" ==>
                LegacyCleaned(data).value[k] == Str(Text.Trim(data[k].s))
    ensures LegacyCleaned(data).Some? ==> forall k :: k in data && !Truthy(data[k]) ==> LegacyCleaned(data).value[k] == data[k]
  {
    var base := PrefixPicture(data);
    assert forall k :: k in base && Untrimmable(base[k]) <==> k in data && k != "ad_picture" && Untrimmable(data[k]);
  }

  // ------------------------------------------------------ link mapping

  /** nn.js's site root for advertisements. */
  const NnBase := "http://real.nn.ru/ad2"

  /** `url.substring(1)`: the link without its first character. */
  function DropFirst(s: string): (r: string)
    ensures s == [] ==> r == []
    ensures s != [] ==> [s[0]] + r == s
  {
    if s == [] then [] else s[1..]
  }

  /** nn.js: each enumerated link becomes the site root plus the link without its leading character. */
  function NnUrls(hrefs: seq<string>): (urls: seq<string>)
    ensures |urls| == |hrefs|
    ensures forall i :: 0 <= i < |hrefs| ==> urls[i] == NnBase + DropFirst(hrefs[i])
  {
    seq(|hrefs|, i requires 0 <= i < |hrefs| => NnBase + DropFirst(hrefs[i]))
  }

  /** avito.js and the legacy scraper: each link gets the site root in front. */
  function AvitoUrls(hrefs: seq<string>): (urls: seq<string>)
    ensures |urls| == |hrefs|
    ensures forall i :: 0 <= i < |hrefs| ==> urls[i] == AvitoBase + hrefs[i]
  {
    seq(|hrefs|, i requires 0 <= i < |hrefs| => AvitoBase + hrefs[i])
  }

  /** Prefixing keeps distinct links distinct, so deduplication sees the same repeats. */
  lemma {:induction false} AvitoUrlsInjective(hrefs: seq<string>, i: nat, j: nat)
    requires i < |hrefs| && j < |hrefs|
    ensures AvitoUrls(hrefs)[i] == AvitoUrls(hrefs)[j] <==> hrefs[i] == hrefs[j]
  {
    var a, b := AvitoUrls(hrefs)[i], AvitoUrls(hrefs)[j];
    if a == b {
      assert hrefs[i] == a[|AvitoBase|..];
      assert hrefs[j] == b[|AvitoBase|..];
    }
  }

  /**
   * Links that share their first character (the leading '/') are mapped
   * apart exactly when they differ; links differing only in that character
   * collide.
   */
  lemma {:induction false} NnUrlsInjective(hrefs: seq<string>, i: nat, j: nat)
    requires i < |hrefs| && j < |hrefs|
    requires hrefs[i] != [] && hrefs[j] != [] && hrefs[i][0] == hrefs[j][0]
    ensures NnUrls(hrefs)[i] == NnUrls(hrefs)[j] <==> hrefs[i] == hrefs[j]
  {
    var a, b := NnUrls(hrefs)[i], NnUrls(hrefs)[j];
    if a == b {
      assert DropFirst(hrefs[i]) == a[|NnBase|..];
      assert DropFirst(hrefs[j]) == b[|NnBase|..];
      assert hrefs[i] == [hrefs[i][0]] + DropFirst(hrefs[i]);
      assert hrefs[j] == [hrefs[j][0]] + DropFirst(hrefs[j]);
    }
  }

  // --------------------------------------------------------- ad id

  /** Length of the run of digits that ends `s`. */
  function TrailingDigits(s: string): (k: nat)
    ensures k <= |s|
    ensures Text.AllDigits(s[|s| - k..])
    ensures k < |s| ==> !Text.IsDigit(s[|s| - 1 - k])
  {
    if s == [] || !Text.IsDigit(s[|s| - 1]) then 0
    else
      var k := TrailingDigits(s[..|s| - 1]);
      DigitsSnoc(s[..|s| - 1][|s| - 1 - k..], s[|s| - 1]);
      DigitRunGrows(s, k);
      k + 1
  }

  /** A digit at the end extends the trailing run of the string before it. */
  lemma {:induction false} DigitRunGrows(s: string, k: nat)
    requires s != [] && k <= |s| - 1
    requires Text.AllDigits(s[..|s| - 1][|s| - 1 - k..] + [s[|s| - 1]])
    requires k < |s| - 1 ==> !Text.IsDigit(s[..|s| - 1][|s| - 2 - k])
    ensures Text.AllDigits(s[|s| - (k + 1)..])
    ensures k + 1 < |s| ==> !Text.IsDigit(s[|s| - 1 - (k + 1)])
  {
    assert s[|s| - (k + 1)..] == s[..|s| - 1][|s| - 1 - k..] + [s[|s| - 1]];
  }

  lemma {:induction false} DigitsSnoc(t: string, c: char)
    requires Text.AllDigits(t) && Text.IsDigit(c)
    ensures Text.AllDigits(t + [c])
  {
    assert forall i :: 0 <= i < |t| ==> (t + [c])[i] == t[i];
  }

  /** A run of digits after a non-digit at `j` that reaches the end is exactly the trailing run. */
  lemma {:induction false} DigitRunAt(s: string, j: nat)
    requires j < |s| && !Text.IsDigit(s[j])
    ensures Text.AllDigits(s[j + 1..]) ==> TrailingDigits(s) == |s| - j - 1
    decreases |s|
  {
    if Text.AllDigits(s[j + 1..]) && j < |s| - 1 {
      var init := s[..|s| - 1];
      assert init[j + 1..] == s[j + 1..|s| - 1];
      assert Text.IsDigit(s[|s| - 1]) by { assert s[|s| - 1] == s[j + 1..][|s| - j - 2]; }
      DigitRunAt(init, j);
    }
  }

  /**
   * `href.match(/=[0-9]+$/)` with the '=' cut off (nn.js and
   * posrednikov.js): the digits after a final '=', or null.
   */
  function AdId(href: string): (id: Option<string>)
    ensures id.Some? ==> id.value != "" && Text.AllDigits(id.value)
                         && |id.value| < |href| && href[|href| - |id.value| - 1..] == "=" + id.value
    ensures id.None? ==> forall j :: 0 <= j < |href| - 1 && href[j] == '=' ==> !Text.AllDigits(href[j + 1..])
  {
    var k := TrailingDigits(href);
    if 0 < k < |href| && href[|href| - k - 1] == '=' then
      assert href[|href| - k - 1..] == "=" + href[|href| - k..];
      Some(href[|href| - k..])
    else
      assert forall j :: 0 <= j < |href| - 1 && href[j] == '=' ==>
               (Text.AllDigits(href[j + 1..]) ==> TrailingDigits(href) == |href| - j - 1) by {
        forall j | 0 <= j < |href| - 1 && href[j] == '=' {
          DigitRunAt(href, j);
        }
      }
      None
  }

  /** A URL ending in '=' and digits yields exactly those digits. */
  lemma {:induction false} AdIdOfQuery(prefix: string, digits: string)
    requires digits != "" && Text.AllDigits(digits)
    ensures AdId(prefix + "=" + digits) == Some(digits)
  {
    var href := prefix + "=" + digits;
    var j := |prefix|;
    assert href[j] == '=' && href[j + 1..] == digits;
    DigitRunAt(href, j);
    assert href[|href| - |digits|..] == digits;
  }
}
