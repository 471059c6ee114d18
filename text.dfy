/**
 * The string operations the scrapers use, with JavaScript's semantics:
 * `trim`, `replace` with a global literal pattern, character-class
 * removal (`replace(/[^0-9]/g, '')`), `split` on one character,
 * `Array.prototype.join`, `indexOf`, whitespace collapsing.
 */
module Text {

  /** The characters JavaScript's `\s` and `String.prototype.trim` treat as white space. */
  predicate IsSpace(c: char)
  {
    var n := c as int;
    n == 9 || n == 10 || n == 11 || n == 12 || n == 13 || n == 32 || n == 0xA0 || n == 0x1680
    || (0x2000 <= n <= 0x200A) || n == 0x2028 || n == 0x2029 || n == 0x202F || n == 0x205F
    || n == 0x3000 || n == 0xFEFF
  }

  predicate IsDigit(c: char)
  {
    '0' <= c <= '9'
  }

  predicate AllDigits(s: string)
  {
    forall i :: 0 <= i < |s| ==> IsDigit(s[i])
  }

  // ---------------------------------------------------------------- trim

  /** Number of white-space characters at the start of `s`. */
  function LeadingSpaces(s: string): (k: nat)
    ensures k <= |s|
    ensures forall i :: 0 <= i < k ==> IsSpace(s[i])
    ensures k < |s| ==> !IsSpace(s[k])
  {
    if s == [] || !IsSpace(s[0]) then 0 else 1 + LeadingSpaces(s[1..])
  }

  /** Number of white-space characters at the end of `s`. */
  function TrailingSpaces(s: string): (k: nat)
    ensures k <= |s|
    ensures forall i :: |s| - k <= i < |s| ==> IsSpace(s[i])
    ensures k < |s| ==> !IsSpace(s[|s| - 1 - k])
  {
    if s == [] || !IsSpace(s[|s| - 1]) then 0 else 1 + TrailingSpaces(s[..|s| - 1])
  }

  /**
   * `s.trim()`: `s` without its white-space margins.  The result neither
   * starts nor ends with white space; `TrimSlice` says what was cut away.
   */
  function Trim(s: string): (r: string)
    ensures |r| <= |s|
    ensures r == [] || (!IsSpace(r[0]) && !IsSpace(r[|r| - 1]))
  {
    var j := |s| - TrailingSpaces(s);
    var t := s[..j];
    var i := LeadingSpaces(t);
    assert t[i..] == s[i..j];
    s[i..j]
  }

  /** The trim of `s` is a slice `s[i..j]` of it, and everything cut away is white space. */
  lemma {:induction false} TrimSlice(s: string) returns (i: nat, j: nat)
    ensures i <= j <= |s| && Trim(s) == s[i..j]
    ensures AllSpace(s[..i]) && AllSpace(s[j..])
  {
    j := |s| - TrailingSpaces(s);
    var t := s[..j];
    i := LeadingSpaces(t);
    assert t[i..] == s[i..j];
    assert AllSpace(s[..i]) by { assert s[..i] == t[..i]; }
  }

  predicate AllSpace(s: string)
  {
    forall i :: 0 <= i < |s| ==> IsSpace(s[i])
  }

  /** Trimming twice is trimming once. */
  lemma {:induction false} TrimIdempotent(s: string)
    ensures Trim(Trim(s)) == Trim(s)
  {
    var r := Trim(s);
    TrimOfTrimmed(r);
  }

  /** A string with no white-space margin is its own trim. */
  lemma {:induction false} TrimOfTrimmed(r: string)
    requires r == [] || (!IsSpace(r[0]) && !IsSpace(r[|r| - 1]))
    ensures Trim(r) == r
  {
    assert TrailingSpaces(r) == 0;
    assert r[..|r|] == r;
    assert LeadingSpaces(r) == 0;
  }

  // ------------------------------------------------- character filtering

  /** `s.replace(/[^X]/g, '')`: keeps exactly the characters `keep` accepts, in order. */
  function Keep(s: string, keep: char -> bool): (r: string)
    ensures |r| <= |s|
    ensures forall i :: 0 <= i < |r| ==> keep(r[i])
    ensures forall c :: c in r ==> c in s
  {
    if s == [] then []
    else (if keep(s[0]) then [s[0]] else []) + Keep(s[1..], keep)
  }

  /** A character survives the filter exactly when the string holds it and the filter accepts it. */
  lemma {:induction false} KeepMembers(s: string, keep: char -> bool)
    ensures forall c :: c in Keep(s, keep) <==> c in s && keep(c)
  {
    if s != [] {
      KeepMembers(s[1..], keep);
      assert s == [s[0]] + s[1..];
    }
  }

  /** Filtering distributes over concatenation. */
  lemma {:induction false} KeepConcat(a: string, b: string, keep: char -> bool)
    ensures Keep(a + b, keep) == Keep(a, keep) + Keep(b, keep)
  {
    if a == [] {
      assert a + b == b;
    } else {
      assert (a + b)[1..] == a[1..] + b;
      KeepConcat(a[1..], b, keep);
    }
  }

  /** Filtering leaves a string alone exactly when every character is kept. */
  lemma {:induction false} KeepIdentity(s: string, keep: char -> bool)
    ensures Keep(s, keep) == s <==> (forall i :: 0 <= i < |s| ==> keep(s[i]))
  {
    if s != [] {
      KeepIdentity(s[1..], keep);
      if !keep(s[0]) {
        assert |Keep(s, keep)| < |s| by {
          assert Keep(s, keep) == Keep(s[1..], keep);
        }
      } else {
        assert forall i :: 1 <= i < |s| ==> s[i] == s[1..][i - 1];
      }
    }
  }

  /** Filtering twice is filtering once. */
  lemma {:induction false} KeepIdempotent(s: string, keep: char -> bool)
    ensures Keep(Keep(s, keep), keep) == Keep(s, keep)
  {
    KeepIdentity(Keep(s, keep), keep);
  }

  /** `s.replace(/[^0-9]/g, '')`. */
  function Digits(s: string): (r: string)
    ensures AllDigits(r) && |r| <= |s|
  {
    Keep(s, IsDigit)
  }

  /** Digit extraction leaves a string alone exactly when it is all digits. */
  lemma {:induction false} DigitsIdentity(s: string)
    ensures Digits(s) == s <==> AllDigits(s)
  {
    KeepIdentity(s, IsDigit);
  }

  // ------------------------------------------------------- replace, index

  /** `s` has `pat` at position `i`. */
  predicate At(s: string, pat: string, i: nat)
  {
    i + |pat| <= |s| && s[i..i + |pat|] == pat
  }

  predicate Contains(s: string, pat: string)
  {
    exists i :: 0 <= i <= |s| && At(s, pat, i)
  }

  /**
   * `s.replace(/pat/g, rep)` for a literal, non-empty pattern: occurrences
   * are replaced from left to right without overlap.
   */
  function ReplaceAll(s: string, pat: string, rep: string): (r: string)
    requires pat != []
    ensures forall c :: c in r ==> c in s || c in rep
    decreases |s|
  {
    if |s| < |pat| then s
    else if s[..|pat|] == pat then rep + ReplaceAll(s[|pat|..], pat, rep)
    else [s[0]] + ReplaceAll(s[1..], pat, rep)
  }

  /** A stretch that cannot start the pattern passes through `replace` untouched. */
  lemma {:induction false} ReplaceSkip(a: string, b: string, pat: string, rep: string)
    requires pat != [] && pat[0] !in a
    ensures ReplaceAll(a + b, pat, rep) == a + ReplaceAll(b, pat, rep)
    decreases |a|
  {
    if a == [] {
      assert a + b == b;
    } else {
      var s := a + b;
      assert s[0] == a[0] && s[1..] == a[1..] + b;
      ReplaceSkip(a[1..], b, pat, rep);
      if |s| >= |pat| {
        assert s[..|pat|][0] != pat[0];
        assert ReplaceAll(s, pat, rep) == [s[0]] + ReplaceAll(s[1..], pat, rep);
        assert a == [a[0]] + a[1..];
      } else {
        assert ReplaceAll(b, pat, rep) == b;
      }
    }
  }

  /**
   * One replacement: text free of the pattern's first character, then an
   * occurrence, becomes that text followed by `rep`, and `replace` goes on
   * after the occurrence.
   */
  lemma {:induction false} ReplaceStep(a: string, b: string, pat: string, rep: string)
    requires pat != [] && pat[0] !in a
    ensures ReplaceAll(a + pat + b, pat, rep) == a + rep + ReplaceAll(b, pat, rep)
  {
    ReplaceSkip(a, pat + b, pat, rep);
    var s := pat + b;
    assert s[..|pat|] == pat && s[|pat|..] == b;
    assert a + pat + b == a + s;
  }

  /** A string without the pattern is left unchanged by `replace`. */
  lemma {:induction false} ReplaceAbsent(s: string, pat: string, rep: string)
    requires pat != []
    requires !Contains(s, pat)
    ensures ReplaceAll(s, pat, rep) == s
    decreases |s|
  {
    if |s| >= |pat| {
      assert !At(s, pat, 0);
      assert s[..|pat|] != pat;
      assert !Contains(s[1..], pat) by {
        forall i: nat | At(s[1..], pat, i) ensures At(s, pat, i + 1) {
          assert s[1..][i..i + |pat|] == s[i + 1..i + 1 + |pat|];
        }
      }
      ReplaceAbsent(s[1..], pat, rep);
    }
  }

  /** `s.indexOf(pat)`: the first position of `pat` in `s`, or -1. */
  function IndexOf(s: string, pat: string): (r: int)
    ensures -1 <= r <= |s|
    ensures r == -1 <==> !Contains(s, pat)
    ensures r >= 0 ==> At(s, pat, r) && forall i: nat :: i < r ==> !At(s, pat, i)
    decreases |s|
  {
    if |s| < |pat| then
      assert forall i: nat :: !At(s, pat, i);
      -1
    else if s[..|pat|] == pat then
      assert At(s, pat, 0);
      0
    else
      assert !At(s, pat, 0);
      var k := IndexOf(s[1..], pat);
      ShiftAt(s, pat);
      if k == -1 then -1 else assert At(s, pat, k + 1); k + 1
  }

  /** Occurrences in `s[1..]` are the occurrences in `s` shifted by one. */
  lemma {:induction false} ShiftAt(s: string, pat: string)
    requires s != []
    ensures forall i: nat :: 1 <= i ==> (At(s, pat, i) <==> At(s[1..], pat, i - 1))
  {
    forall i: nat | 1 <= i ensures At(s, pat, i) <==> At(s[1..], pat, i - 1) {
      if i + |pat| <= |s| {
        assert s[1..][i - 1..i - 1 + |pat|] == s[i..i + |pat|];
      }
    }
  }

  // ------------------------------------------------------ split and join

  /** `parts.join(sep)`. */
  function Join(parts: seq<string>, sep: string): string
  {
    if parts == [] then ""
    else if |parts| == 1 then parts[0]
    else parts[0] + sep + Join(parts[1..], sep)
  }

  /**
   * `s.split(c)` for a one-character separator: the pieces between the
   * separators, always at least one (`''.split(',')` is `['']`).
   */
  function Split(s: string, c: char): (parts: seq<string>)
    ensures |parts| >= 1
    ensures forall i :: 0 <= i < |parts| ==> c !in parts[i]
  {
    if s == [] then [""]
    else
      var rest := Split(s[1..], c);
      if s[0] == c then [""] + rest
      else [[s[0]] + rest[0]] + rest[1..]
  }

  /** Joining the pieces of a split with the separator gives back the string. */
  lemma {:induction false} JoinSplit(s: string, c: char)
    ensures Join(Split(s, c), [c]) == s
  {
    if s != [] {
      var rest := Split(s[1..], c);
      JoinSplit(s[1..], c);
      if s[0] == c {
        assert Split(s, c) == [""] + rest;
        assert ([""] + rest)[1..] == rest;
      } else {
        var parts := Split(s, c);
        assert parts == [[s[0]] + rest[0]] + rest[1..];
        if |rest| == 1 {
          assert Join(rest, [c]) == rest[0];
        } else {
          assert parts[1..] == rest[1..];
          assert Join(rest, [c]) == rest[0] + [c] + Join(rest[1..], [c]);
        }
      }
    }
  }

  /** A string without the separator splits into itself alone. */
  lemma {:induction false} SplitNone(w: string, c: char)
    requires c !in w
    ensures Split(w, c) == [w]
  {
    if w != [] {
      SplitNone(w[1..], c);
      assert [w[0]] + w[1..] == w;
    }
  }

  /** Splitting peels off the piece before the first separator. */
  lemma {:induction false} SplitFirst(w: string, rest: string, c: char)
    requires c !in w
    ensures Split(w + [c] + rest, c) == [w] + Split(rest, c)
  {
    if w == [] {
      assert w + [c] + rest == [c] + rest;
      assert ([c] + rest)[1..] == rest;
    } else {
      var s := w + [c] + rest;
      assert s[0] == w[0] && s[1..] == w[1..] + [c] + rest;
      SplitFirst(w[1..], rest, c);
      assert [w[0]] + w[1..] == w;
    }
  }

  // -------------------------------------------------- white-space runs

  /** `s.replace(/\s+/g, ' ')`: every run of white space becomes one blank. */
  function CollapseSpaces(s: string): (r: string)
    ensures |r| <= |s|
    ensures forall i :: 0 <= i < |r| && IsSpace(r[i]) ==> r[i] == ' '
    ensures forall i :: 0 <= i < |r| - 1 ==> !(IsSpace(r[i]) && IsSpace(r[i + 1]))
    ensures r == [] <==> s == []
    ensures s != [] && !IsSpace(s[0]) ==> r != [] && r[0] == s[0]
    decreases |s|
  {
    if s == [] then []
    else if IsSpace(s[0]) then
      var k := LeadingSpaces(s);
      var rest := CollapseSpaces(s[k..]);
      [' '] + rest
    else
      [s[0]] + CollapseSpaces(s[1..])
  }
}
