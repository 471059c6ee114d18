/**
 * The text the site scrapers read off an advertisement page once the page
 * has handed it over: phone numbers, prices, the contact line of
 * real.nn.ru, and the keyword cells and description of posrednikov.ru.
 * The DOM lookups that produce each piece of raw text stay outside; every
 * function here takes that text as its argument.
 */
module SiteFields {
  import opened Wrappers
  import opened Values
  import Text

  // --------------------------------------------------------------- runs

  /** Number of leading characters of `s` that `p` accepts. */
  function RunLength(s: string, p: char -> bool): (k: nat)
    ensures k <= |s|
    ensures forall i :: 0 <= i < k ==> p(s[i])
    ensures k < |s| ==> !p(s[k])
  {
    if s == [] || !p(s[0]) then 0 else 1 + RunLength(s[1..], p)
  }

  /** Where the first character `p` accepts sits (`|s|` when there is none). */
  function RunStart(s: string, p: char -> bool): (a: nat)
    ensures a <= |s|
    ensures forall i :: 0 <= i < a ==> !p(s[i])
    ensures a < |s| ==> p(s[a])
  {
    if s == [] || p(s[0]) then 0 else 1 + RunStart(s[1..], p)
  }

  /**
   * `s.match(/[X]+/)`: the first maximal run of characters `p` accepts, or
   * `None` (the `null` of `match`) when `s` has none.  The run starts at
   * `RunStart` and cannot be extended to the right.
   */
  function FirstRun(s: string, p: char -> bool): (r: Option<string>)
    ensures r.None? <==> forall i :: 0 <= i < |s| ==> !p(s[i])
    ensures r.Some? ==> r.value != [] && forall i :: 0 <= i < |r.value| ==> p(r.value[i])
    ensures r.Some? ==> var a := RunStart(s, p);
                        a + |r.value| <= |s| && r.value == s[a..a + |r.value|]
                        && (a + |r.value| == |s| || !p(s[a + |r.value|]))
  {
    var a := RunStart(s, p);
    if a == |s| then None
    else
      var b := RunLength(s[a..], p);
      assert s[a..][0] == s[a];
      assert s[a..][..b] == s[a..a + b];
      Some(s[a..a + b])
  }

  /** A string made only of accepted characters is its own first run. */
  lemma {:induction false} FirstRunWhole(s: string, p: char -> bool)
    requires s != [] && forall i :: 0 <= i < |s| ==> p(s[i])
    ensures FirstRun(s, p) == Some(s)
  {
    assert RunStart(s, p) == 0;
    assert s[0..] == s;
    var b := RunLength(s, p);
    assert b == |s|;
    assert s[0..b] == s;
  }

  /** Nothing is kept exactly when no character is accepted. */
  lemma {:induction false} KeepNone(s: string, p: char -> bool)
    ensures Text.Keep(s, p) == [] <==> forall i :: 0 <= i < |s| ==> !p(s[i])
  {
    if s != [] {
      KeepNone(s[1..], p);
      assert forall i :: 1 <= i < |s| ==> s[i] == s[1..][i - 1];
    }
  }

  /** Filtering by a weaker test first and a stronger one after is filtering by the stronger one. */
  lemma {:induction false} KeepNarrow(s: string, p: char -> bool, q: char -> bool)
    requires forall c :: q(c) ==> p(c)
    ensures Text.Keep(Text.Keep(s, p), q) == Text.Keep(s, q)
  {
    if s != [] {
      KeepNarrow(s[1..], p, q);
      var head := if p(s[0]) then [s[0]] else [];
      Text.KeepConcat(head, Text.Keep(s[1..], p), q);
    }
  }

  // ------------------------------------------------------------- phones

  /**
   * The phone rule of irr.ru and posrednikov.ru: keep the digits, and an
   * 11-digit number with country code 7 is rewritten to the domestic 8.
   * Only the first digit can change, and only from 7 to 8.
   */
  function NormalPhone(raw: string): (p: string)
    ensures Text.AllDigits(p)
    ensures |p| == |Text.Digits(raw)|
    ensures p != [] ==> p[1..] == Text.Digits(raw)[1..]
    ensures p != [] && p[0] != Text.Digits(raw)[0] ==> |p| == 11 && Text.Digits(raw)[0] == '7' && p[0] == '8'
    ensures !(|p| == 11 && p[0] == '7')
  {
    var d := Text.Digits(raw);
    if |d| == 11 && d[0] == '7' then "8" + d[1..] else d
  }

  /** Normalising a normalised number changes nothing. */
  lemma {:induction false} NormalPhoneIdempotent(raw: string)
    ensures NormalPhone(NormalPhone(raw)) == NormalPhone(raw)
  {
    Text.DigitsIdentity(NormalPhone(raw));
  }

  /** The characters irr.ru's phone pattern `[+\-() 0-9]` accepts. */
  predicate PhoneChar(c: char)
  {
    c == '+' || c == '-' || c == '(' || c == ')' || c == ' ' || Text.IsDigit(c)
  }

  /**
   * irr.ru: the first run of phone characters of the contact block,
   * normalised; `None` (the phone stays `null`) when there is no such run.
   */
  function IrrPhone(text: string): (r: Option<string>)
    ensures r.None? <==> forall i :: 0 <= i < |text| ==> !PhoneChar(text[i])
    ensures r.Some? ==> Text.AllDigits(r.value) && !(|r.value| == 11 && r.value[0] == '7')
    ensures r.Some? ==> FirstRun(text, PhoneChar).Some? && r.value == NormalPhone(FirstRun(text, PhoneChar).value)
  {
    match FirstRun(text, PhoneChar)
    case None => None
    case Some(run) => Some(NormalPhone(run))
  }

  /** A contact block that is a bare phone number is normalised as a whole. */
  lemma {:induction false} IrrPhoneWhole(text: string)
    requires text != [] && forall i :: 0 <= i < |text| ==> PhoneChar(text[i])
    ensures IrrPhone(text) == Some(NormalPhone(text))
  {
    FirstRunWhole(text, PhoneChar);
  }

  /** posrednikov.ru: `phoneDirty.replace()` leaves the text alone, then the phone rule. */
  function PosrednikovPhone(text: string): (p: string)
    ensures Text.AllDigits(p) && |p| == |Text.Digits(text)|
    ensures p != [] ==> p[1..] == Text.Digits(text)[1..]
    ensures p != [] && p[0] != Text.Digits(text)[0] ==> |p| == 11 && Text.Digits(text)[0] == '7' && p[0] == '8'
    ensures !(|p| == 11 && p[0] == '7')
  {
    NormalPhone(text)
  }

  /** An 11-digit number with country code 7 comes out with the domestic 8 and the same ten digits. */
  lemma {:induction false} CountryCodeRewritten(rest: string)
    requires |rest| == 10 && Text.AllDigits(rest)
    ensures PosrednikovPhone("7" + rest) == "8" + rest
  {
    Text.DigitsIdentity("7" + rest);
    assert ("7" + rest)[1..] == rest;
  }

  // ------------------------------------------------------------- prices

  /** irr.ru: the digits of the price text, or `null` when it has none. */
  function IrrPrice(text: string): (r: Value)
    ensures r == Null <==> forall i :: 0 <= i < |text| ==> !Text.IsDigit(text[i])
    ensures r != Null ==> r.Str? && r.s != "" && r.s == Text.Digits(text)
  {
    KeepNone(text, Text.IsDigit);
    var d := Text.Digits(text);
    if d == "" then Null else Str(d)
  }

  /** The characters of real.nn.ru's price pattern `[0-9 ]`. */
  predicate PriceChar(c: char)
  {
    Text.IsDigit(c) || c == ' '
  }

  /**
   * real.nn.ru: the first run of digits and blanks, reduced to its digits;
   * `null` when there is no such run.  A run of blanks alone gives `''`.
   */
  function NnPrice(text: string): (r: Value)
    ensures r == Null <==> forall i :: 0 <= i < |text| ==> !PriceChar(text[i])
    ensures r != Null ==> r.Str? && Text.AllDigits(r.s)
    ensures r != Null ==> FirstRun(text, PriceChar).Some? && r == Str(Text.Digits(FirstRun(text, PriceChar).value))
  {
    match FirstRun(text, PriceChar)
    case None => Null
    case Some(run) => Str(Text.Digits(run))
  }

  /** A price text of digits and blanks only, such as "12 000", is read as all its digits. */
  lemma {:induction false} NnPriceOfAmount(text: string)
    requires text != [] && forall i :: 0 <= i < |text| ==> PriceChar(text[i])
    ensures NnPrice(text) == Str(Text.Digits(text))
  {
    FirstRunWhole(text, PriceChar);
  }

  predicate PriceTypeChar(c: char)
  {
    !PriceChar(c)
  }

  /** real.nn.ru: the first run of the trimmed text free of digits and blanks, or `null`. */
  function NnPriceType(text: string): (r: Value)
    ensures r == Null <==> forall i :: 0 <= i < |Text.Trim(text)| ==> PriceChar(Text.Trim(text)[i])
    ensures r != Null ==> r.Str? && r.s != "" && forall i :: 0 <= i < |r.s| ==> !PriceChar(r.s[i])
    ensures r != Null ==> FirstRun(Text.Trim(text), PriceTypeChar).Some?
                          && r == Str(FirstRun(Text.Trim(text), PriceTypeChar).value)
  {
    match FirstRun(Text.Trim(text), PriceTypeChar)
    case None => Null
    case Some(run) => Str(run)
  }

  /**
   * posrednikov.ru's price type of one line: its text without digits, each
   * run of white space made one blank, trimmed.
   */
  function PriceKind(token: string): (k: string)
    ensures forall i :: 0 <= i < |k| ==> !Text.IsDigit(k[i])
    ensures k == [] || (!Text.IsSpace(k[0]) && !Text.IsSpace(k[|k| - 1]))
    ensures Collapsed(k)
  {
    var letters := Text.Keep(token, NotDigit);
    NoDigitsCollapsed(letters);
    TrimKeepsChars(Text.CollapseSpaces(letters));
    CollapsedTrim(Text.CollapseSpaces(letters));
    Text.Trim(Text.CollapseSpaces(letters))
  }

  /** White space only as single blanks: what `replace(/\s+/g, ' ')` leaves. */
  predicate Collapsed(s: string)
  {
    && (forall i :: 0 <= i < |s| && Text.IsSpace(s[i]) ==> s[i] == ' ')
    && (forall i :: 0 <= i < |s| - 1 ==> !(Text.IsSpace(s[i]) && Text.IsSpace(s[i + 1])))
  }

  /** Trimming a collapsed string leaves it collapsed. */
  lemma {:induction false} CollapsedTrim(s: string)
    requires Collapsed(s)
    ensures Collapsed(Text.Trim(s))
  {
    var i, j := Text.TrimSlice(s);
    var t := Text.Trim(s);
    assert forall x :: 0 <= x < |t| ==> t[x] == s[i + x];
  }

  /** A collapsed string is its own collapse. */
  lemma {:induction false} CollapseCollapsed(s: string)
    requires Collapsed(s)
    ensures Text.CollapseSpaces(s) == s
    decreases |s|
  {
    if s != [] {
      assert Collapsed(s[1..]) by {
        assert forall x :: 0 <= x < |s| - 1 ==> s[1..][x] == s[x + 1];
      }
      CollapseCollapsed(s[1..]);
      if Text.IsSpace(s[0]) {
        assert Text.LeadingSpaces(s) == 1 by {
          if |s| > 1 {
            assert !Text.IsSpace(s[1]);
            assert Text.LeadingSpaces(s[1..]) == 0;
          }
        }
        assert s == [' '] + s[1..];
      } else {
        assert s == [s[0]] + s[1..];
      }
    }
  }

  /** A digit anywhere in the line is dropped and changes nothing else. */
  lemma {:induction false} PriceKindSkipsDigit(a: string, c: char, b: string)
    requires Text.IsDigit(c)
    ensures PriceKind(a + [c] + b) == PriceKind(a + b)
  {
    Text.KeepConcat(a + [c], b, NotDigit);
    Text.KeepConcat(a, [c], NotDigit);
    Text.KeepConcat(a, b, NotDigit);
    assert Text.Keep([c], NotDigit) == [] by {
      assert [c][1..] == [];
      assert !NotDigit(c);
    }
    assert Text.Keep(a + [c] + b, NotDigit) == Text.Keep(a + b, NotDigit);
  }

  /**
   * A line of words without digits, single blanks between them and no
   * margin is its own price type: every other character is kept, in order.
   */
  lemma {:induction false} PriceKindOfPlain(w: string)
    requires forall i :: 0 <= i < |w| ==> !Text.IsDigit(w[i])
    requires Collapsed(w)
    requires w == [] || (!Text.IsSpace(w[0]) && !Text.IsSpace(w[|w| - 1]))
    ensures PriceKind(w) == w
  {
    Text.KeepIdentity(w, NotDigit);
    CollapseCollapsed(w);
    Text.TrimOfTrimmed(w);
  }

  predicate NotDigit(c: char)
  {
    !Text.IsDigit(c)
  }

  /** Collapsing white space brings in no digit. */
  lemma {:induction false} NoDigitsCollapsed(s: string)
    requires forall i :: 0 <= i < |s| ==> !Text.IsDigit(s[i])
    ensures forall i :: 0 <= i < |Text.CollapseSpaces(s)| ==> !Text.IsDigit(Text.CollapseSpaces(s)[i])
    decreases |s|
  {
    if s != [] {
      if Text.IsSpace(s[0]) {
        var k := Text.LeadingSpaces(s);
        NoDigitsCollapsed(s[k..]);
        assert Text.CollapseSpaces(s) == [' '] + Text.CollapseSpaces(s[k..]);
      } else {
        NoDigitsCollapsed(s[1..]);
        assert Text.CollapseSpaces(s) == [s[0]] + Text.CollapseSpaces(s[1..]);
      }
    }
  }

  /** Every character of a trimmed string comes from the string. */
  lemma {:induction false} TrimKeepsChars(s: string)
    ensures forall i :: 0 <= i < |Text.Trim(s)| ==> Text.Trim(s)[i] in s
  {
    var i, j := Text.TrimSlice(s);
    forall k | 0 <= k < |Text.Trim(s)| ensures Text.Trim(s)[k] in s {
      assert s[i..j][k] == s[i + k];
    }
  }

  /** posrednikov.ru's price cell: the amount and its type. */
  datatype Price = Price(price: string, priceType: string)

  /** The lines of the trimmed price cell (`trim().split('\n')`). */
  function Lines(cell: string): (lines: seq<string>)
    ensures |lines| >= 1
  {
    Text.Split(Text.Trim(cell), '\n')
  }

  /** The last line of the trimmed price cell, the one holding the amount. */
  function LastLine(cell: string): string
  {
    var lines := Lines(cell);
    lines[|lines| - 1]
  }

  /** A cell of several lines whose first line is not empty. */
  predicate Headed(cell: string)
  {
    |Lines(cell)| >= 2 && Lines(cell)[0] != ""
  }

  /**
   * posrednikov.ru: the price is the digits of the last line of the cell
   * and its type the rest of that line; a non-empty first line of a cell
   * of several lines is appended to the type after ', '.
   */
  function PosrednikovPrice(cell: string): (r: Price)
    ensures Text.AllDigits(r.price)
    ensures r.price == Text.Digits(LastLine(cell))
    ensures Headed(cell) ==> r.priceType == PriceKind(LastLine(cell)) + ", " + Text.Trim(Lines(cell)[0])
    ensures !Headed(cell) ==> r.priceType == PriceKind(LastLine(cell))
  {
    var token := LastLine(cell);
    if Headed(cell) then Price(Text.Digits(token), PriceKind(token) + ", " + Text.Trim(Lines(cell)[0]))
    else Price(Text.Digits(token), PriceKind(token))
  }

  /** Digits do not see white space: trimming keeps every digit. */
  lemma {:induction false} DigitsOfTrim(s: string)
    ensures Text.Digits(Text.Trim(s)) == Text.Digits(s)
  {
    var i, j := Text.TrimSlice(s);
    assert s == s[..i] + s[i..j] + s[j..];
    NoDigitInSpace(s[..i]);
    NoDigitInSpace(s[j..]);
    KeepMiddle(s[..i], s[i..j], s[j..], Text.IsDigit);
  }

  /** Margins that filter to nothing do not change what a filter keeps. */
  lemma {:induction false} KeepMiddle(front: string, mid: string, back: string, p: char -> bool)
    requires Text.Keep(front, p) == [] && Text.Keep(back, p) == []
    ensures Text.Keep(front + mid + back, p) == Text.Keep(mid, p)
  {
    Text.KeepConcat(front + mid, back, p);
    Text.KeepConcat(front, mid, p);
  }

  /** White space holds no digit. */
  lemma {:induction false} NoDigitInSpace(s: string)
    requires Text.AllSpace(s)
    ensures Text.Keep(s, Text.IsDigit) == []
  {
    forall k | 0 <= k < |s| ensures !Text.IsDigit(s[k]) {
      assert Text.IsSpace(s[k]);
    }
    KeepNone(s, Text.IsDigit);
  }

  /**
   * A cell of one line: its price is every digit of the cell and its type
   * holds no digit at all.
   */
  lemma {:induction false} OneLinePrice(cell: string)
    requires '\n' !in Text.Trim(cell)
    ensures PosrednikovPrice(cell).price == Text.Digits(cell)
    ensures forall i :: 0 <= i < |PosrednikovPrice(cell).priceType| ==> !Text.IsDigit(PosrednikovPrice(cell).priceType[i])
  {
    Text.SplitNone(Text.Trim(cell), '\n');
    DigitsOfTrim(cell);
  }

  // ---------------------------------------------------- real.nn.ru contact

  /** The characters real.nn.ru strips from the contact line to get the name. */
  predicate NameNoise(c: char)
  {
    c == '(' || c == ')' || c == '+' || c == '-' || Text.IsDigit(c)
  }

  predicate NotSpace(c: char)
  {
    !Text.IsSpace(c)
  }

  predicate NotNoise(c: char)
  {
    !NameNoise(c)
  }

  /** The landlord's name and phone. */
  datatype Contact = Contact(name: Value, phone: Value)

  /**
   * real.nn.ru: when the contact line holds anything but white space, the
   * name is the line without phone characters, trimmed, and the phone its
   * digits; otherwise both stay `null`.
   */
  function NnContact(text: string): (r: Contact)
    ensures r.phone == Null <==> Text.AllSpace(text)
    ensures r.name == Null <==> r.phone == Null
    ensures r.phone != Null ==> r.phone == Str(Text.Digits(text))
    ensures r.name != Null ==> r.name.Str? && forall i :: 0 <= i < |r.name.s| ==> !NameNoise(r.name.s[i])
    ensures r.name != Null ==> r.name == Str(Text.Trim(Text.Keep(text, NotNoise)))
  {
    var dirty := Text.Keep(text, NotSpace);
    KeepNone(text, NotSpace);
    if dirty == "" then Contact(Null, Null)
    else
      var name := Text.Trim(Text.Keep(text, NotNoise));
      TrimKeepsChars(Text.Keep(text, NotNoise));
      KeepNarrow(text, NotSpace, Text.IsDigit);
      Contact(Str(name), Str(Text.Digits(dirty)))
  }

  /**
   * The usual contact line, a name then the number: the name comes back as
   * it stands and the phone as the number's digits.
   */
  lemma {:induction false} NnContactOfNameAndNumber(name: string, digits: string)
    requires forall i :: 0 <= i < |name| ==> !NameNoise(name[i])
    requires name == [] || (!Text.IsSpace(name[0]) && !Text.IsSpace(name[|name| - 1]))
    requires digits != [] && Text.AllDigits(digits)
    ensures NnContact(name + " " + digits) == Contact(Str(name), Str(digits))
  {
    var text := name + " " + digits;
    NameOfContactLine(name, digits);
    TrimSpaceAfter(name);
    PhoneOfContactLine(name, digits);
    assert !Text.AllSpace(text) by {
      assert !Text.IsSpace(text[|text| - 1]);
    }
  }

  /** Dropping the noise from a name-then-number line leaves the name and the blank. */
  lemma {:induction false} NameOfContactLine(name: string, digits: string)
    requires forall i :: 0 <= i < |name| ==> !NameNoise(name[i])
    requires Text.AllDigits(digits)
    ensures Text.Keep(name + " " + digits, NotNoise) == name + " "
  {
    Text.KeepConcat(name + " ", digits, NotNoise);
    Text.KeepConcat(name, " ", NotNoise);
    Text.KeepIdentity(name, NotNoise);
    KeepNone(digits, NotNoise);
    assert Text.Keep(" ", NotNoise) == " " by {
      assert " "[1..] == [];
    }
  }

  /** The digits of a name-then-number line, blanks dropped first, are the number. */
  lemma {:induction false} PhoneOfContactLine(name: string, digits: string)
    requires forall i :: 0 <= i < |name| ==> !NameNoise(name[i])
    requires Text.AllDigits(digits)
    ensures Text.Digits(Text.Keep(name + " " + digits, NotSpace)) == digits
  {
    var text := name + " " + digits;
    assert text == (name + " ") + digits;
    KeepNarrow(text, NotSpace, Text.IsDigit);
    Text.KeepConcat(name + " ", digits, Text.IsDigit);
    Text.KeepConcat(name, " ", Text.IsDigit);
    KeepNone(name, Text.IsDigit);
    KeepNone(" ", Text.IsDigit);
    Text.DigitsIdentity(digits);
  }

  /** One blank after a margin-free text is trimmed away. */
  lemma {:induction false} TrimSpaceAfter(w: string)
    requires w == [] || (!Text.IsSpace(w[0]) && !Text.IsSpace(w[|w| - 1]))
    ensures Text.Trim(w + " ") == w
  {
    var s := w + " ";
    assert s[..|s| - 1] == w;
    assert Text.TrailingSpaces(w) == 0;
    assert Text.TrailingSpaces(s) == 1;
    assert s[..|w|] == w;
    assert Text.LeadingSpaces(w) == 0;
  }

  // --------------------------------------------------- posrednikov.ru cells

  /** The labels of the three keyword cells, in page order. */
  const Labels: seq<string> := ["Этажность", "Площадь", "Быт"]

  /** The lines of a cell, each trimmed, the empty ones dropped. */
  function NonEmptyTrimmed(lines: seq<string>): (ts: seq<string>)
    ensures |ts| <= |lines|
    ensures forall i :: 0 <= i < |ts| ==> ts[i] != "" && !Text.IsSpace(ts[i][0]) && !Text.IsSpace(ts[i][|ts[i]| - 1])
  {
    if lines == [] then []
    else
      var t := Text.Trim(lines[0]);
      Text.TrimIdempotent(lines[0]);
      (if t == "" then [] else [t]) + NonEmptyTrimmed(lines[1..])
  }

  /** `text.split('\n')`, trimmed piece by piece, without the empty pieces. */
  function Tokens(text: string): (ts: seq<string>)
    ensures forall i :: 0 <= i < |ts| ==> ts[i] != "" && !Text.IsSpace(ts[i][0]) && !Text.IsSpace(ts[i][|ts[i]| - 1])
  {
    NonEmptyTrimmed(Text.Split(text, '\n'))
  }

  /**
   * The pieces are the lines' trims, line by line: a concatenation of line
   * lists gives the concatenation of their pieces, and one line gives its
   * trim unless that is empty.
   */
  lemma {:induction false} NonEmptyTrimmedInOrder(a: seq<string>, b: seq<string>, line: string)
    ensures NonEmptyTrimmed(a + b) == NonEmptyTrimmed(a) + NonEmptyTrimmed(b)
    ensures NonEmptyTrimmed([line]) == if Text.Trim(line) == "" then [] else [Text.Trim(line)]
    decreases |a|
  {
    if a == [] {
      assert a + b == b;
    } else {
      assert (a + b)[1..] == a[1..] + b;
      NonEmptyTrimmedInOrder(a[1..], b, line);
    }
    assert [line][1..] == [];
  }

  /** A piece comes out exactly when it is the non-empty trim of some line. */
  lemma {:induction false} NonEmptyTrimmedMembers(lines: seq<string>)
    ensures forall t :: t in NonEmptyTrimmed(lines) <==> t != "" && exists l :: l in lines && Text.Trim(l) == t
    decreases |lines|
  {
    if lines != [] {
      NonEmptyTrimmedMembers(lines[1..]);
      assert lines == [lines[0]] + lines[1..];
    }
  }

  /**
   * The tokens of a cell come from its lines in page order: a first line
   * gives its trim (unless empty) before the tokens of the rest, and a
   * token is exactly the non-empty trim of one of the lines.
   */
  lemma {:induction false} TokensByLine(line: string, rest: string)
    requires '\n' !in line
    ensures Tokens(line + ['\n'] + rest) == NonEmptyTrimmed([line]) + Tokens(rest)
    ensures Tokens(line) == NonEmptyTrimmed([line])
    ensures forall t :: t in Tokens(rest) <==> t != "" && exists l :: l in Text.Split(rest, '\n') && Text.Trim(l) == t
  {
    Text.SplitFirst(line, rest, '\n');
    NonEmptyTrimmedInOrder([line], Text.Split(rest, '\n'), line);
    Text.SplitNone(line, '\n');
    NonEmptyTrimmedMembers(Text.Split(rest, '\n'));
  }

  /** `/^–+$/`: a non-empty run of en dashes, the page's mark for "no value". */
  predicate Dashes(s: string)
  {
    s != "" && forall i :: 0 <= i < |s| ==> s[i] == '–'
  }

  /**
   * One keyword cell: dropped (`None`) when it has no token or its tokens
   * joined with ',' are all dashes, otherwise `label: t1, t2, …`.
   */
  function Slot(caption: string, text: string): (r: Option<string>)
    ensures r.None? <==> Tokens(text) == [] || (|Tokens(text)| == 1 && Dashes(Tokens(text)[0]))
    ensures r.Some? ==> r.value == caption + ": " + Text.Join(Tokens(text), ", ")
  {
    var ts := Tokens(text);
    assert |ts| >= 2 ==> Text.Join(ts, ",")[|ts[0]|] == ',';
    if ts == [] || Dashes(Text.Join(ts, ",")) then None
    else Some(caption + ": " + Text.Join(ts, ", "))
  }

  /** The values of the slots that are present, in order (`filter` on truthiness). */
  function Present(slots: seq<Option<string>>): (ks: seq<string>)
    ensures |ks| <= |slots|
    ensures forall k :: k in ks <==> Some(k) in slots
    ensures ks == [] <==> forall i :: 0 <= i < |slots| ==> slots[i].None?
  {
    if slots == [] then []
    else
      var rest := Present(slots[1..]);
      assert slots == [slots[0]] + slots[1..];
      (if slots[0].Some? then [slots[0].value] else []) + rest
  }

  /**
   * `filter` keeps the order: the present values of a concatenation are
   * those of each part in turn, and one slot gives its value when present.
   */
  lemma {:induction false} PresentInOrder(a: seq<Option<string>>, b: seq<Option<string>>, x: Option<string>)
    ensures Present(a + b) == Present(a) + Present(b)
    ensures Present([x]) == if x.Some? then [x.value] else []
  {
    PresentConcat(a, b);
    assert [x][1..] == [];
  }

  lemma {:induction false} PresentConcat(a: seq<Option<string>>, b: seq<Option<string>>)
    ensures Present(a + b) == Present(a) + Present(b)
    decreases |a|
  {
    if a == [] {
      assert a + b == b;
    } else {
      assert (a + b)[1..] == a[1..] + b;
      PresentConcat(a[1..], b);
    }
  }

  /** The slot of each of the three keyword cells, in page order. */
  function Slots(cells: seq<string>): (slots: seq<Option<string>>)
    requires |cells| == 3
    ensures |slots| == 3
    ensures forall j :: 0 <= j < 3 ==> slots[j] == Slot(Labels[j], cells[j])
  {
    seq(3, j requires 0 <= j < 3 => Slot(Labels[j], cells[j]))
  }

  /** The keyword lines the page shows: the present slots, in order. */
  function KeywordLines(cells: seq<string>): (ks: seq<string>)
    requires |cells| == 3
    ensures |ks| <= 3
    ensures forall k :: k in ks <==> Some(k) in Slots(cells)
  {
    Present(Slots(cells))
  }

  /** The keyword lines follow the page order of the cells: storey, area, then amenities. */
  lemma {:induction false} KeywordLinesInOrder(cells: seq<string>)
    requires |cells| == 3
    ensures KeywordLines(cells) == Present([Slots(cells)[0]]) + Present([Slots(cells)[1]]) + Present([Slots(cells)[2]])
  {
    PresentOfThree(Slots(cells));
  }

  lemma {:induction false} PresentOfThree(slots: seq<Option<string>>)
    requires |slots| == 3
    ensures Present(slots) == Present([slots[0]]) + Present([slots[1]]) + Present([slots[2]])
  {
    assert slots == [slots[0]] + [slots[1]] + [slots[2]];
    PresentInOrder([slots[0]] + [slots[1]], [slots[2]], slots[0]);
    PresentInOrder([slots[0]], [slots[1]], slots[0]);
  }

  /**
   * The `while (i++ < 3)` loop over the three keyword cells (the page's
   * fifth to seventh columns): each label in `keywords` is either replaced
   * by `null` or extended by its tokens (`Slot`), then the nulls are
   * filtered out.
   */
  method Keywords(cells: seq<string>) returns (keywords: seq<string>)
    requires |cells| == 3
    ensures keywords == KeywordLines(cells)
  {
    var slots: seq<Option<string>> := [Some(Labels[0]), Some(Labels[1]), Some(Labels[2])];
    var i := 0;
    while i < 3
      invariant 0 <= i <= 3 && |slots| == 3
      invariant forall j :: 0 <= j < i ==> slots[j] == Slot(Labels[j], cells[j])
      invariant forall j :: i <= j < 3 ==> slots[j] == Some(Labels[j])
    {
      slots := slots[i := Slot(slots[i].value, cells[i])];
      i := i + 1;
    }
    assert slots == Slots(cells);
    keywords := Present(slots);
  }

  /** Three cells that only hold dashes and blanks give no keyword line. */
  lemma {:induction false} DashCellsDropped(cells: seq<string>)
    requires |cells| == 3
    requires forall j :: 0 <= j < 3 ==> Slot(Labels[j], cells[j]).None?
    ensures KeywordLines(cells) == []
  {
    var slots := Slots(cells);
    assert forall i :: 0 <= i < |slots| ==> slots[i].None?;
  }

  // ---------------------------------------------------- the description

  /** The marker before the contact block of a posrednikov.ru description. */
  const ContactsMarker := "Контакты: "

  /** The description text: trimmed, every run of white space one blank. */
  function Flattened(text: string): string
  {
    Text.CollapseSpaces(Text.Trim(text))
  }

  /**
   * As written: `d.slice(0, d.indexOf('Контакты: '))`.  When the marker is
   * absent the index is -1 and `slice(0, -1)` drops the last character.
   */
  function DescriptionAsWritten(text: string): (r: string)
    ensures |r| <= |Flattened(text)| && r == Flattened(text)[..|r|]
    ensures !Text.Contains(Flattened(text), ContactsMarker) && Flattened(text) != "" ==> |r| == |Flattened(text)| - 1
  {
    var d := Flattened(text);
    var idx := Text.IndexOf(d, ContactsMarker);
    if idx >= 0 then d[..idx]
    else if d == "" then d
    else d[..|d| - 1]
  }

  /** A description without contacts loses its last character as written. */
  lemma {:induction false} DescriptionLosesLastChar()
    ensures DescriptionAsWritten("ab") != "ab"
  {
    var d := Flattened("ab");
    assert Text.Trim("ab") == "ab" by { Text.TrimOfTrimmed("ab"); }
    assert d != "" && |d| <= 2;
    assert !Text.Contains(d, ContactsMarker) by {
      forall i: nat | i <= |d| ensures !Text.At(d, ContactsMarker, i) {
      }
    }
  }

  /** A marker inside a prefix of `d` is a marker inside `d`. */
  lemma {:induction false} AtPrefix(d: string, n: nat, i: nat)
    requires n <= |d|
    ensures Text.At(d[..n], ContactsMarker, i) ==> Text.At(d, ContactsMarker, i) && i < n
  {
    if i + |ContactsMarker| <= n {
      assert d[..n][i..i + |ContactsMarker|] == d[i..i + |ContactsMarker|];
    }
  }

  /**
   * The description cut where the contacts begin: the whole flattened text
   * when there is no contact block.
   */
  function Description(text: string): (r: string)
    ensures |r| <= |Flattened(text)| && r == Flattened(text)[..|r|]
    ensures !Text.Contains(r, ContactsMarker)
    ensures !Text.Contains(Flattened(text), ContactsMarker) ==> r == Flattened(text)
    ensures Text.Contains(Flattened(text), ContactsMarker) ==> Text.At(Flattened(text), ContactsMarker, |r|)
  {
    var d := Flattened(text);
    var idx := Text.IndexOf(d, ContactsMarker);
    var r := if idx >= 0 then d[..idx] else d;
    forall i: nat | i <= |r| ensures !Text.At(r, ContactsMarker, i) {
      AtPrefix(d, |r|, i);
    }
    r
  }

  /** Both readings agree whenever the page has a contact block. */
  lemma {:induction false} DescriptionAgrees(text: string)
    requires Text.Contains(Flattened(text), ContactsMarker)
    ensures DescriptionAsWritten(text) == Description(text)
  {
  }
}
