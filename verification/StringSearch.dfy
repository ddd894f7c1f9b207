/** Bounded substring search of Share/Hook/Zycore/String.c. Strings are given with their terminating zero. */
module StringSearch {
  import opened Words

  datatype Status = Found | NotFound | OutOfRange

  /** The text of a string view: everything but the last character. */
  function Text(s: string): string
    requires s != ""
  {
    s[..|s| - 1]
  }

  ghost predicate MatchAt(h: string, n: string, i: int) {
    0 <= i && i + |n| <= |h| && forall k :: 0 <= k < |n| ==> h[i + k] == n[k]
  }

  /** The characters before the first zero: what a loop that stops at zero sees. */
  function BeforeZero(s: string): (t: string)
    ensures |t| <= |s| && t == s[..|t|]
    ensures |t| < |s| ==> s[|t|] == '\0'
    ensures forall i :: 0 <= i < |t| ==> t[i] != '\0'
  {
    if s == "" || s[0] == '\0' then "" else [s[0]] + BeforeZero(s[1..])
  }

  /** A needle without embedded zeros is searched as a whole. */
  lemma {:induction false} WholeNeedle(s: string)
    requires s != "" && s[|s| - 1] == '\0' && forall i :: 0 <= i < |s| - 1 ==> s[i] != '\0'
    ensures BeforeZero(s) == Text(s)
  {
    if |s| > 1 {
      WholeNeedle(s[1..]);
      assert [s[0]] + Text(s[1..]) == Text(s);
    }
  }

  datatype Verdict = Hit | Miss | Overrun

  /** The inner loop of LPosEx: compare forwards from `s` until the needle's zero, a difference, or the end
      of the range. */
  method MatchForward(h: string, needle: string, s: nat, limit: nat) returns (v: Verdict)
    requires needle != "" && needle[|needle| - 1] == '\0' && limit < |h|
    ensures v == Overrun ==> s + |BeforeZero(needle)| > limit
    ensures v == Hit <==> s + |BeforeZero(needle)| <= limit && MatchAt(h, BeforeZero(needle), s)
  {
    ghost var word := BeforeZero(needle);
    var a, b := s, 0;
    while true
      invariant b <= |word| < |needle| && a == s + b
      invariant b > 0 ==> a <= limit + 1
      invariant forall i :: 0 <= i < b ==> s + i <= limit && h[s + i] == word[i]
      decreases |needle| - b
    {
      if a > limit { return Overrun; }
      if needle[b] == '\0' {
        return Hit;
      }
      if h[a] != needle[b] {
        assert h[s + b] != word[b];
        return Miss;
      }
      a, b := a + 1, b + 1;
    }
  }

  /** No match of `word` starts in [from, to) and ends by `limit`. */
  ghost predicate NoMatch(h: string, word: string, from: int, to: int, limit: int) {
    forall i :: from <= i < to && i + |word| <= limit ==> !MatchAt(h, word, i)
  }

  /** The loop of LPosEx stops at `i`: the needle's characters before its first zero match here and end by
      `limit`, and so does the very first character, zero or not. */
  ghost predicate StopsAt(h: string, needle: string, i: int, limit: int)
    requires needle != ""
  {
    && MatchAt(h, BeforeZero(needle), i) && i + |BeforeZero(needle)| <= limit
    && i + 1 < |h| && h[i] == needle[0]
  }

  ghost predicate NoStop(h: string, needle: string, from: int, to: int, limit: int)
    requires needle != ""
  {
    forall i :: from <= i < to ==> !StopsAt(h, needle, i, limit)
  }

  predicate Searches(h: string, needle: string) {
    |h| > 1 && 1 < |needle| <= |h|
  }

  /** What LPosEx answers, completely. */
  ghost predicate Answers(h: string, needle: string, index: nat, count: nat, st: Status, found: int)
    requires needle != ""
  {
    && (st == OutOfRange <==> index + count >= |h|)
    && (st != Found ==> found == -1)
    && (st == Found ==>
          && Searches(h, needle) && index <= found && StopsAt(h, needle, found, index + count)
          && NoStop(h, needle, index, found, index + count))
    && (st == NotFound && Searches(h, needle) ==> NoStop(h, needle, index, |h|, index + count))
  }

  /** LPosEx: the least position from `index` on at which the loop stops; not found exactly when there is
      none, or when the haystack is shorter than the needle. */
  method LPosEx(h: string, needle: string, index: nat, count: nat) returns (st: Status, found: int)
    requires h != "" && needle != "" && needle[|needle| - 1] == '\0'
    ensures Answers(h, needle, index, count, st, found)
  {
    if index + count >= |h| { return OutOfRange, -1; }
    if |h| == 1 || |needle| == 1 || |h| < |needle| { return NotFound, -1; }
    var s := index;
    while s + 1 < |h|
      invariant index <= s && NoStop(h, needle, index, s, index + count)
    {
      if h[s] == needle[0] {
        var v := MatchForward(h, needle, s, index + count);
        if v == Overrun {
          return NotFound, -1;
        } else if v == Hit {
          return Found, s;
        }
      }
      s := s + 1;
    }
    return NotFound, -1;
  }

  /** What a search for the needle's text should answer: the least match in range, if there is one. */
  ghost predicate Correct(h: string, needle: string, index: nat, count: nat, st: Status, found: int)
    requires needle != ""
  {
    var text, limit := Text(needle), index + count;
    && (st == Found ==>
          && index <= found && found + |text| <= limit && MatchAt(h, text, found)
          && NoMatch(h, text, index, found, limit))
    && (st == NotFound ==> NoMatch(h, text, index, |h|, limit))
  }

  /** Without an embedded zero the answer is correct, on every haystack and range. */
  lemma WholeNeedleIsCorrect(h: string, needle: string, index: nat, count: nat, st: Status, found: int)
    requires h != "" && needle != "" && Text(needle) != "" && BeforeZero(needle) == Text(needle)
    requires Answers(h, needle, index, count, st, found)
    ensures Correct(h, needle, index, count, st, found)
  {
    var text, limit := Text(needle), index + count;
    if st != OutOfRange && Searches(h, needle) {
      forall i | index <= i < |h| && i + |text| <= limit && MatchAt(h, text, i)
        ensures StopsAt(h, needle, i, limit)
      {
        assert h[i + 0] == text[0];
      }
    }
  }

  /** The example: "a", zero, "b" is reported at position 0 of "axxx", where it does not occur. */
  lemma EmbeddedZeroMisleads()
    ensures Answers("axxx\0", "a\0b\0", 0, 4, Found, 0)
    ensures !Correct("axxx\0", "a\0b\0", 0, 4, Found, 0)
  {
    var h, needle := "axxx\0", "a\0b\0";
    assert needle[0] != '\0' && needle[1..][0] == '\0';
    assert BeforeZero(needle) == [needle[0]] + BeforeZero(needle[1..]);
    assert BeforeZero(needle) == "a";
    assert h[0 + 1] != Text(needle)[1];
  }

  function Filler(n: nat): (s: string)
    ensures |s| == n && forall i :: 0 <= i < n ==> s[i] == 'x'
  {
    seq(n, i => 'x')
  }

  /** The same for every needle with an embedded zero: a haystack that ends the matching part with 'x'. */
  lemma EmbeddedZeroFails(needle: string) returns (h: string, count: nat, found: nat)
    requires needle != "" && Text(needle) != "" && BeforeZero(needle) != Text(needle)
    requires |BeforeZero(needle)| < |Text(needle)|
    ensures h != "" && Answers(h, needle, 0, count, Found, found) && !Correct(h, needle, 0, count, Found, found)
  {
    var word, text := BeforeZero(needle), Text(needle);
    if word == "" {
      h, count, found := "x\0" + Filler(|needle|), 1, 1;
      assert needle[0] == '\0';
      assert StopsAt(h, needle, 1, 1) && !StopsAt(h, needle, 0, 1);
    } else {
      var z := |word|;
      h, count, found := word + Filler(|needle| - z), |needle| - 1, 0;
      assert needle[z] == '\0' && text[z] == needle[z];
      assert h[0 + z] != text[z];
      assert word[0] == needle[0];
    }
  }

  /** So LPosEx is right for every haystack and range if and only if the needle has no embedded zero. */
  lemma RightIffNoEmbeddedZero(needle: string)
    requires needle != "" && needle[|needle| - 1] == '\0' && Text(needle) != ""
    ensures (forall h, index, count, st, found ::
               h != "" && Answers(h, needle, index, count, st, found) ==> Correct(h, needle, index, count, st, found))
        <==> forall i :: 0 <= i < |needle| - 1 ==> needle[i] != '\0'
  {
    if forall i :: 0 <= i < |needle| - 1 ==> needle[i] != '\0' {
      WholeNeedle(needle);
      forall h, index, count, st, found | h != "" && Answers(h, needle, index, count, st, found)
        ensures Correct(h, needle, index, count, st, found)
      {
        WholeNeedleIsCorrect(h, needle, index, count, st, found);
      }
    } else {
      EmbeddedZero(needle);
      var h, count, found := EmbeddedZeroFails(needle);
    }
  }

  lemma EmbeddedZero(needle: string)
    requires needle != "" && exists i :: 0 <= i < |needle| - 1 && needle[i] == '\0'
    ensures |BeforeZero(needle)| < |Text(needle)|
  {
    var word := BeforeZero(needle);
    assert forall k :: 0 <= k < |word| ==> needle[k] == word[k];
  }

  /** The inner loop of RPosEx: compare backwards from the character before `end`. */
  method MatchBackward(h: string, word: string, end: nat, low: nat) returns (v: Verdict)
    requires word != "" && end <= |h| && 0 < end
    ensures v == Overrun ==> end < low + |word|
    ensures v == Hit <==> low + |word| <= end && MatchAt(h, word, end - |word|)
    ensures v == Miss ==> !MatchAt(h, word, end - |word|)
  {
    var a, b := end - 1, |word| - 1;
    while true
      invariant -1 <= b < |word| && end - 1 - a == |word| - 1 - b
      invariant a >= low - 1 || b == |word| - 1
      invariant forall i :: b < i < |word| ==> low <= end - |word| + i && h[end - |word| + i] == word[i]
      decreases b
    {
      if b < 0 {
        return Hit;
      }
      if a < low { return Overrun; }
      if h[a] != word[b] {
        assert h[end - |word| + b] != word[b];
        return Miss;
      }
      a, b := a - 1, b - 1;
    }
  }

  lemma DifferentEnd(h: string, word: string, end: nat)
    requires word != "" && 0 < end <= |h| && h[end - 1] != word[|word| - 1]
    ensures !MatchAt(h, word, end - |word|)
  {
    assert h[end - |word| + (|word| - 1)] != word[|word| - 1];
  }

  /** The greatest match that starts at `index - count` or later and ends by `index`; not found exactly when
      there is none. Embedded zeros make no difference here. */
  method RPosEx(h: string, needle: string, index: nat, count: nat) returns (st: Status, found: int)
    requires h != "" && needle != ""
    ensures st == OutOfRange <==> index >= |h| || count > index
    ensures st != Found ==> found == -1
    ensures st == Found ==>
      && Text(needle) != "" && index - count <= found && found + |Text(needle)| <= index
      && MatchAt(h, Text(needle), found) && NoMatch(h, Text(needle), found + 1, |h|, index)
    ensures st == NotFound && Text(needle) != "" ==> NoMatch(h, Text(needle), index - count, |h|, index)
  {
    if index >= |h| || count > index { return OutOfRange, -1; }
    if index == 0 || count == 0 || |h| == 1 || |needle| == 1 || |h| < |needle| { return NotFound, -1; }
    ghost var word := Text(needle);
    var s := index - 1;
    while s >= 0
      invariant -1 <= s < index
      invariant NoMatch(h, word, s + 2 - |word|, |h|, index)
    {
      if h[s] == needle[|needle| - 2] {
        var v := MatchBackward(h, needle[..|needle| - 1], s + 1, index - count);
        if v == Overrun {
          return NotFound, -1;
        } else if v == Hit {
          return Found, s + 2 - |needle|;
        }
      } else {
        DifferentEnd(h, word, s + 1);
      }
      s := s - 1;
    }
    return NotFound, -1;
  }
}
