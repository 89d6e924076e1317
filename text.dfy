/**
 * The parts of Python's `str` that the assistant relies on, over `string`
 * (a `seq<char>`): `isspace()`, `lower()`, the `in` test, `replace(w, "")`,
 * `strip()`, `split()`, `sep.join(...)` and `str(n)` for a natural number.
 */
module Text {
  import opened Wrappers

  // ---------------------------------------------------------------------
  // Characters
  // ---------------------------------------------------------------------

  /** Python's `str.isspace()` for one character. */
  predicate IsSpace(c: char) {
    var n := c as int;
    (9 <= n <= 13) || (28 <= n <= 32) || n == 0x85 || n == 0xA0 || n == 0x1680
    || (0x2000 <= n <= 0x200A) || n == 0x2028 || n == 0x2029 || n == 0x202F
    || n == 0x205F || n == 0x3000
  }

  /** The upper-case letters that `LowerChar` maps: ASCII A-Z and Latin-1 U+00C0-U+00DE except U+00D7. */
  predicate IsUpper(c: char) {
    var n := c as int;
    (65 <= n <= 90) || (192 <= n <= 222 && n != 215)
  }

  /** `str.lower()` on one character. */
  function LowerChar(c: char): (r: char)
    ensures !IsUpper(r)
    ensures !IsUpper(c) ==> r == c
    ensures IsSpace(r) <==> IsSpace(c)
  {
    if IsUpper(c) then (c as int + 32) as char else c
  }

  /** `s.lower()`, character by character. */
  function Lower(s: string): (r: string)
    ensures |r| == |s|
    ensures NoUpper(r)
  {
    seq(|s|, i requires 0 <= i < |s| => LowerChar(s[i]))
  }

  /** No character of `s` is changed by `lower()`. */
  predicate NoUpper(s: string) {
    forall k :: 0 <= k < |s| ==> !IsUpper(s[k])
  }

  lemma LowerFixed(s: string)
    requires NoUpper(s)
    ensures Lower(s) == s
  {
  }

  // ---------------------------------------------------------------------
  // Substring test
  // ---------------------------------------------------------------------

  /** Python's `sub in s`: `sub` occurs in `s` as a contiguous run; the empty string occurs in every string. */
  predicate Contains(s: string, sub: string)
    decreases |s|
  {
    sub <= s || (s != [] && Contains(s[1..], sub))
  }

  /** `sub` occurs in `s` starting at index `i`. */
  predicate OccursAt(s: string, sub: string, i: nat) {
    i + |sub| <= |s| && s[i..i + |sub|] == sub
  }

  /** An occurrence at a position makes `sub in s` true. */
  lemma {:induction false} OccursContains(s: string, sub: string, i: nat)
    requires OccursAt(s, sub, i)
    ensures Contains(s, sub)
    decreases i
  {
    if i == 0 {
      assert s[..|sub|] == sub;
    } else {
      assert s[1..][i - 1..i - 1 + |sub|] == s[i..i + |sub|];
      OccursContains(s[1..], sub, i - 1);
    }
  }

  /** `sub in s` has a witness position. */
  lemma {:induction false} ContainsOccurs(s: string, sub: string)
    requires Contains(s, sub)
    ensures exists i: nat :: i <= |s| && OccursAt(s, sub, i)
    decreases |s|
  {
    if sub <= s {
      assert OccursAt(s, sub, 0);
    } else {
      ContainsOccurs(s[1..], sub);
      var i: nat :| i <= |s[1..]| && OccursAt(s[1..], sub, i);
      assert s[1..][i..i + |sub|] == s[i + 1..i + 1 + |sub|];
      assert OccursAt(s, sub, i + 1);
    }
  }

  /** `Contains` agrees with the positional definition of a substring. */
  lemma ContainsAt(s: string, sub: string)
    ensures Contains(s, sub) <==> exists i: nat :: i <= |s| && OccursAt(s, sub, i)
  {
    if Contains(s, sub) {
      ContainsOccurs(s, sub);
    }
    forall i: nat | i <= |s| && OccursAt(s, sub, i) ensures Contains(s, sub) {
      OccursContains(s, sub, i);
    }
  }

  /** Every character of a contained substring is a character of the string. */
  lemma ContainsChars(s: string, sub: string)
    requires Contains(s, sub)
    ensures forall k :: 0 <= k < |sub| ==> sub[k] in s
  {
    ContainsAt(s, sub);
    var i: nat :| i <= |s| && OccursAt(s, sub, i);
    forall k | 0 <= k < |sub| ensures sub[k] in s {
      assert sub[k] == s[i + k];
    }
  }

  /** Only the empty string occurs in the empty string. */
  lemma ContainsInEmpty(sub: string)
    ensures Contains([], sub) <==> sub == []
  {
  }

  /** Index of the first element of `needles`, in list order, that occurs in `s`. */
  function FindFirst(s: string, needles: seq<string>): (r: Option<nat>)
    ensures r.Some? ==> r.value < |needles| && Contains(s, needles[r.value])
    ensures r.Some? ==> forall j :: 0 <= j < r.value ==> !Contains(s, needles[j])
    ensures r.None? <==> forall j :: 0 <= j < |needles| ==> !Contains(s, needles[j])
    decreases |needles|
  {
    if needles == [] then None
    else if Contains(s, needles[0]) then Some(0)
    else
      match FindFirst(s, needles[1..])
      case None => None
      case Some(k) => Some(k + 1)
  }

  /** Python's `any(w in s for w in needles)`. */
  predicate ContainsAny(s: string, needles: seq<string>)
  {
    FindFirst(s, needles).Some?
  }

  lemma ContainsAnyMeans(s: string, needles: seq<string>)
    ensures ContainsAny(s, needles) <==> exists j :: 0 <= j < |needles| && Contains(s, needles[j])
  {
  }

  // ---------------------------------------------------------------------
  // replace(w, "")
  // ---------------------------------------------------------------------

  /**
   * Python's `s.replace(w, "")`: scanning left to right, every non-overlapping
   * occurrence of `w` is deleted, not only the first. Replacing the empty
   * string by the empty string leaves `s` as it is.
   */
  function RemoveAll(s: string, w: string): (r: string)
    ensures |r| <= |s|
    decreases |s|
  {
    if w == [] || s == [] then s
    else if w <= s then RemoveAll(s[|w|..], w)
    else [s[0]] + RemoveAll(s[1..], w)
  }

  /** When `w` does not occur, nothing is removed. */
  lemma {:induction false} RemoveAllAbsent(s: string, w: string)
    requires !Contains(s, w)
    ensures RemoveAll(s, w) == s
    decreases |s|
  {
    if w != [] && s != [] {
      RemoveAllAbsent(s[1..], w);
    }
  }

  /** `n` copies of `w`, back to back. */
  function Repeat(w: string, n: nat): (r: string)
    ensures |r| == n * |w|
  {
    if n == 0 then [] else w + Repeat(w, n - 1)
  }

  /** All copies are removed, which a single replacement would not do for n > 1. */
  lemma {:induction false} RemoveAllRepeat(w: string, n: nat)
    requires w != []
    ensures RemoveAll(Repeat(w, n), w) == []
  {
    if n > 0 {
      var s := Repeat(w, n);
      assert w <= s;
      assert s[|w|..] == Repeat(w, n - 1);
      RemoveAllRepeat(w, n - 1);
    }
  }

  /** Removal never introduces an upper-case character. */
  lemma {:induction false} RemoveAllNoUpper(s: string, w: string)
    requires NoUpper(s)
    ensures NoUpper(RemoveAll(s, w))
    decreases |s|
  {
    if w != [] && s != [] {
      if w <= s {
        RemoveAllNoUpper(s[|w|..], w);
      } else {
        RemoveAllNoUpper(s[1..], w);
      }
    }
  }

  // ---------------------------------------------------------------------
  // strip()
  // ---------------------------------------------------------------------

  /** `s.lstrip()`: drops the leading whitespace. */
  function TrimStart(s: string): (r: string)
    ensures |r| <= |s| && r == s[|s| - |r|..]
    ensures forall k :: 0 <= k < |s| - |r| ==> IsSpace(s[k])
    ensures r == [] || !IsSpace(r[0])
    ensures s != [] && IsSpace(s[0]) ==> |r| < |s|
  {
    if s != [] && IsSpace(s[0]) then TrimStart(s[1..]) else s
  }

  /** `s.rstrip()`: drops the trailing whitespace. */
  function TrimEnd(s: string): (r: string)
    ensures |r| <= |s| && r == s[..|r|]
    ensures forall k :: |r| <= k < |s| ==> IsSpace(s[k])
    ensures r == [] || !IsSpace(r[|r| - 1])
  {
    if s != [] && IsSpace(s[|s| - 1]) then TrimEnd(s[..|s| - 1]) else s
  }

  /** `s.strip()`. */
  function Strip(s: string): (r: string)
  {
    TrimEnd(TrimStart(s))
  }

  /**
   * `strip()` keeps one contiguous slice of `s`, removes only whitespace on
   * either side of it, and leaves no whitespace at either end.
   */
  lemma StripSlice(s: string)
    ensures var r := Strip(s);
      && (r == [] || (!IsSpace(r[0]) && !IsSpace(r[|r| - 1])))
      && exists i: nat :: OccursAt(s, r, i)
           && (forall k :: 0 <= k < i ==> IsSpace(s[k]))
           && (forall k :: i + |r| <= k < |s| ==> IsSpace(s[k]))
  {
    var t := TrimStart(s);
    var r := TrimEnd(t);
    var i := |s| - |t|;
    assert r == s[i..i + |r|];
    assert OccursAt(s, r, i);
    forall k | i + |r| <= k < |s| ensures IsSpace(s[k]) {
      assert s[k] == t[k - i];
    }
  }

  /** A string without whitespace at its ends is its own `strip()`. */
  lemma StripFixed(s: string)
    requires s == [] || (!IsSpace(s[0]) && !IsSpace(s[|s| - 1]))
    ensures Strip(s) == s
  {
  }

  lemma StripNoUpper(s: string)
    requires NoUpper(s)
    ensures NoUpper(Strip(s))
  {
    var t := TrimStart(s);
    var r := TrimEnd(t);
    forall k | 0 <= k < |r| ensures !IsUpper(r[k]) {
      assert r[k] == t[k] == s[|s| - |t| + k];
    }
  }

  // ---------------------------------------------------------------------
  // re.sub(r'\s+', ' ', s)
  // ---------------------------------------------------------------------

  /** `re.sub(r'\s+', ' ', s)`: each maximal run of whitespace becomes one space. */
  function CollapseSpaces(s: string): (r: string)
    decreases |s|
  {
    if s == [] then []
    else if IsSpace(s[0]) then [' '] + CollapseSpaces(TrimStart(s))
    else [s[0]] + CollapseSpaces(s[1..])
  }

  /** Every whitespace character of `s` is a plain space followed by a non-space character or the end. */
  predicate SingleSpaced(s: string) {
    forall k :: 0 <= k < |s| && IsSpace(s[k]) ==> s[k] == ' ' && (k + 1 == |s| || !IsSpace(s[k + 1]))
  }

  lemma SingleSpacedTail(s: string)
    requires SingleSpaced(s) && s != []
    ensures SingleSpaced(s[1..])
  {
    forall k | 0 <= k < |s| - 1 && IsSpace(s[1..][k])
      ensures s[1..][k] == ' ' && (k + 1 == |s| - 1 || !IsSpace(s[1..][k + 1]))
    {
      assert s[1..][k] == s[k + 1];
      if k + 1 < |s| - 1 { assert s[1..][k + 1] == s[k + 2]; }
    }
  }

  /** Collapsing whitespace leaves a single-spaced string unchanged. */
  lemma {:induction false} CollapseFixed(s: string)
    requires SingleSpaced(s)
    ensures CollapseSpaces(s) == s
    decreases |s|
  {
    if s != [] {
      SingleSpacedTail(s);
      CollapseFixed(s[1..]);
      if IsSpace(s[0]) {
        var t := s[1..];
        assert t == [] || !IsSpace(t[0]);
        assert TrimStart(t) == t;
        assert TrimStart(s) == t;
        assert CollapseSpaces(s) == [' '] + CollapseSpaces(t);
      } else {
        assert CollapseSpaces(s) == [s[0]] + CollapseSpaces(s[1..]);
      }
    }
  }

  lemma {:induction false} CollapseNoUpper(s: string)
    requires NoUpper(s)
    ensures NoUpper(CollapseSpaces(s))
    decreases |s|
  {
    if s != [] {
      if IsSpace(s[0]) {
        var t := TrimStart(s);
        assert NoUpper(t) by {
          forall k | 0 <= k < |t| ensures !IsUpper(t[k]) { assert t[k] == s[|s| - |t| + k]; }
        }
        CollapseNoUpper(t);
        NoUpperConcat([' '], CollapseSpaces(t));
      } else {
        CollapseNoUpper(s[1..]);
        NoUpperConcat([s[0]], CollapseSpaces(s[1..]));
      }
    }
  }

  lemma NoUpperConcat(a: string, b: string)
    requires NoUpper(a) && NoUpper(b)
    ensures NoUpper(a + b)
  {
    forall k | 0 <= k < |a + b| ensures !IsUpper((a + b)[k]) {
      if k >= |a| { assert (a + b)[k] == b[k - |a|]; }
    }
  }

  // ---------------------------------------------------------------------
  // split() and join()
  // ---------------------------------------------------------------------

  /** A token of `split()`: non-empty and free of whitespace. */
  predicate IsWord(w: string) {
    w != [] && forall k :: 0 <= k < |w| ==> !IsSpace(w[k])
  }

  /** Length of the leading run of non-whitespace characters. */
  function WordLength(s: string): (n: nat)
    ensures n <= |s|
    ensures forall k :: 0 <= k < n ==> !IsSpace(s[k])
    ensures n < |s| ==> IsSpace(s[n])
  {
    if s == [] || IsSpace(s[0]) then 0 else 1 + WordLength(s[1..])
  }

  /** Python's `s.split()` without a separator: the maximal runs of non-whitespace characters, in order. */
  function Split(s: string): (r: seq<string>)
    ensures forall k :: 0 <= k < |r| ==> IsWord(r[k])
    decreases |s|
  {
    if s == [] then []
    else if IsSpace(s[0]) then Split(s[1..])
    else
      var n := WordLength(s);
      [s[..n]] + Split(s[n..])
  }

  /** Python's `sep.join(ws)`. */
  function Join(ws: seq<string>, sep: string): (r: string)
  {
    if ws == [] then []
    else if |ws| == 1 then ws[0]
    else ws[0] + sep + Join(ws[1..], sep)
  }

  /** An occurrence in `tail` is an occurrence in `prefix + tail`, shifted by `|prefix|`. */
  lemma OccursShift(prefix: string, tail: string, sub: string, j: nat)
    requires OccursAt(tail, sub, j)
    ensures OccursAt(prefix + tail, sub, |prefix| + j)
  {
    var r := prefix + tail;
    assert r[|prefix|..] == tail;
    assert r[|prefix|..][j..j + |sub|] == r[|prefix| + j..|prefix| + j + |sub|];
  }

  /** Each joined item occurs in the joined string. */
  lemma {:induction false} JoinContainsEach(ws: seq<string>, sep: string, i: nat)
    requires i < |ws|
    ensures Contains(Join(ws, sep), ws[i])
    decreases |ws|
  {
    var r := Join(ws, sep);
    if i == 0 {
      if |ws| > 1 {
        assert r == ws[0] + (sep + Join(ws[1..], sep));
      }
      assert OccursAt(r, ws[0], 0);
      OccursContains(r, ws[0], 0);
    } else {
      var tail := Join(ws[1..], sep);
      var prefix := ws[0] + sep;
      assert r == prefix + tail;
      JoinContainsEach(ws[1..], sep, i - 1);
      assert ws[1..][i - 1] == ws[i];
      ContainsOccurs(tail, ws[i]);
      var j: nat :| j <= |tail| && OccursAt(tail, ws[i], j);
      OccursShift(prefix, tail, ws[i], j);
      OccursContains(r, ws[i], |prefix| + j);
    }
  }

  /** Every token is a word. */
  predicate AllWords(ws: seq<string>) {
    forall k :: 0 <= k < |ws| ==> IsWord(ws[k])
  }

  /** No token holds an upper-case letter. */
  predicate AllNoUpper(ws: seq<string>) {
    forall k :: 0 <= k < |ws| ==> NoUpper(ws[k])
  }

  lemma {:induction false} SplitNoUpper(s: string)
    requires NoUpper(s)
    ensures AllNoUpper(Split(s))
    decreases |s|
  {
    if s != [] {
      if IsSpace(s[0]) {
        SplitNoUpper(s[1..]);
      } else {
        var n := WordLength(s);
        SplitNoUpper(s[n..]);
      }
    }
  }

  /** Splitting a word followed by nothing or by whitespace yields that word first. */
  lemma {:induction false} SplitWordThen(w: string, rest: string)
    requires IsWord(w)
    requires rest == [] || IsSpace(rest[0])
    ensures Split(w + rest) == [w] + Split(rest)
  {
    var s := w + rest;
    WordLengthOf(w, rest);
    assert s[..|w|] == w && s[|w|..] == rest;
  }

  lemma {:induction false} WordLengthOf(w: string, rest: string)
    requires forall k :: 0 <= k < |w| ==> !IsSpace(w[k])
    requires rest == [] || IsSpace(rest[0])
    ensures WordLength(w + rest) == |w|
    decreases |w|
  {
    if w != [] {
      assert (w + rest)[1..] == w[1..] + rest;
      WordLengthOf(w[1..], rest);
    } else {
      assert w + rest == rest;
    }
  }

  /** Round trip: splitting words joined by single spaces gives the words back. */
  lemma {:induction false} SplitJoin(ws: seq<string>)
    requires AllWords(ws)
    ensures Split(Join(ws, " ")) == ws
    decreases |ws|
  {
    if |ws| == 1 {
      SplitWordThen(ws[0], []);
      assert ws[0] + [] == ws[0];
    } else if |ws| > 1 {
      var tail := Join(ws[1..], " ");
      assert Join(ws, " ") == ws[0] + (" " + tail);
      SplitWordThen(ws[0], " " + tail);
      assert (" " + tail)[1..] == tail;
      SplitJoin(ws[1..]);
    }
  }

  /**
   * Words joined by single spaces: whitespace occurs only as single plain
   * spaces between two words, never at either end.
   */
  lemma {:induction false} JoinWordsShape(ws: seq<string>)
    requires AllWords(ws)
    ensures var r := Join(ws, " ");
      && (ws == [] <==> r == [])
      && (r != [] ==> !IsSpace(r[0]) && !IsSpace(r[|r| - 1]))
      && SingleSpaced(r)
    decreases |ws|
  {
    if |ws| > 1 {
      var w := ws[0];
      var tail := Join(ws[1..], " ");
      JoinWordsShape(ws[1..]);
      var r := Join(ws, " ");
      assert r == w + " " + tail;
      forall k | 0 <= k < |r| && IsSpace(r[k])
        ensures r[k] == ' ' && (k + 1 == |r| || !IsSpace(r[k + 1]))
      {
        if k == |w| {
          assert r[k + 1] == tail[0];
        } else {
          assert r[k] == tail[k - |w| - 1];
          if k + 1 < |r| { assert r[k + 1] == tail[k - |w|]; }
        }
      }
      assert r[0] == w[0];
      assert r[|r| - 1] == tail[|tail| - 1];
    }
  }

  /** Joining lower-case words keeps the result free of upper-case letters. */
  lemma {:induction false} JoinNoUpper(ws: seq<string>)
    requires AllNoUpper(ws)
    ensures NoUpper(Join(ws, " "))
    decreases |ws|
  {
    if |ws| > 1 {
      JoinNoUpper(ws[1..]);
      var r := Join(ws, " ");
      var tail := Join(ws[1..], " ");
      assert r == ws[0] + " " + tail;
      forall k | 0 <= k < |r| ensures !IsUpper(r[k]) {
        if k < |ws[0]| {
          assert r[k] == ws[0][k];
        } else if k > |ws[0]| {
          assert r[k] == tail[k - |ws[0]| - 1];
        }
      }
    }
  }

  // ---------------------------------------------------------------------
  // str(n)
  // ---------------------------------------------------------------------

  function DigitChar(d: nat): (c: char)
    requires d < 10
  {
    ('0' as int + d) as char
  }

  /** Python's `str(n)` (and `f"{n}"`) for a natural number: its decimal digits. */
  function NatToString(n: nat): (r: string)
    ensures r != []
    ensures forall k :: 0 <= k < |r| ==> '0' <= r[k] <= '9'
  {
    if n < 10 then [DigitChar(n)] else NatToString(n / 10) + [DigitChar(n % 10)]
  }

  /** The value of a string of decimal digits. */
  function DigitsValue(s: string): nat
    requires forall k :: 0 <= k < |s| ==> '0' <= s[k] <= '9'
  {
    if s == [] then 0 else 10 * DigitsValue(s[..|s| - 1]) + (s[|s| - 1] as int - '0' as int)
  }

  /** Round trip: reading back the decimal digits gives the number. */
  lemma {:induction false} NatToStringValue(n: nat)
    ensures DigitsValue(NatToString(n)) == n
  {
    if n >= 10 {
      var r := NatToString(n);
      assert r[..|r| - 1] == NatToString(n / 10);
      NatToStringValue(n / 10);
    }
  }
}
