/**
 * The handful of Python `str` operations the server relies on:
 * `strip`, `split('. ')`, `sep.join`, `in` (substring) and `lower`.
 */
module Text {

  /** Python's `str.isspace` for a single character. */
  predicate IsSpace(c: char)
  {
    || c == ' '
    || ('\t' <= c <= '\r')
    || ('\U{1c}' <= c <= '\U{1f}')
    || c == '\U{85}' || c == '\U{a0}' || c == '\U{1680}'
    || ('\U{2000}' <= c <= '\U{200a}')
    || c == '\U{2028}' || c == '\U{2029}' || c == '\U{202f}' || c == '\U{205f}' || c == '\U{3000}'
  }

  /** `s.lstrip()`: the longest suffix of `s` that does not start with whitespace. */
  function LStrip(s: string): string
    decreases |s|
  {
    if |s| > 0 && IsSpace(s[0]) then LStrip(s[1..]) else s
  }

  /** `lstrip` removes the leading whitespace and nothing else: what is left is a suffix that starts with a non-space. */
  lemma {:induction false} LStripMeaning(s: string)
    ensures |LStrip(s)| <= |s| && LStrip(s) == s[|s| - |LStrip(s)|..]
    ensures LStrip(s) == "" || !IsSpace(LStrip(s)[0])
    ensures forall i :: 0 <= i < |s| - |LStrip(s)| ==> IsSpace(s[i])
    decreases |s|
  {
    if |s| > 0 && IsSpace(s[0]) {
      LStripMeaning(s[1..]);
      forall i | 0 < i < |s| - |LStrip(s)| ensures IsSpace(s[i]) {
        assert s[i] == s[1..][i - 1];
      }
    }
  }

  lemma LStripKeeps(s: string)
    requires s == "" || !IsSpace(s[0])
    ensures LStrip(s) == s
  {
  }

  /** `s.rstrip()`: the longest prefix of `s` that does not end with whitespace. */
  function RStrip(s: string): string
    decreases |s|
  {
    if |s| > 0 && IsSpace(s[|s| - 1]) then RStrip(s[..|s| - 1]) else s
  }

  /** `rstrip` removes the trailing whitespace and nothing else: what is left is a prefix that ends with a non-space. */
  lemma {:induction false} RStripMeaning(s: string)
    ensures |RStrip(s)| <= |s| && RStrip(s) == s[..|RStrip(s)|]
    ensures RStrip(s) == "" || !IsSpace(RStrip(s)[|RStrip(s)| - 1])
    ensures forall i :: |RStrip(s)| <= i < |s| ==> IsSpace(s[i])
    decreases |s|
  {
    if |s| > 0 && IsSpace(s[|s| - 1]) {
      RStripMeaning(s[..|s| - 1]);
    }
  }

  /** `s.strip()`. */
  function Strip(s: string): string
  {
    LStrip(RStrip(s))
  }

  /** A string Python's `not s.strip()` holds for: empty or whitespace only. */
  predicate IsBlank(s: string)
  {
    Strip(s) == ""
  }

  lemma BlankIffAllSpace(s: string)
    ensures IsBlank(s) <==> forall i :: 0 <= i < |s| ==> IsSpace(s[i])
  {
    var r := RStrip(s);
    RStripMeaning(s);
    LStripMeaning(r);
    if IsBlank(s) {
      assert r == "";
    }
    if forall i :: 0 <= i < |s| ==> IsSpace(s[i]) {
      assert r == "";
    }
  }

  /** `sep.join(xs)`. */
  function Join(xs: seq<string>, sep: string): string
    decreases |xs|
  {
    if |xs| == 0 then ""
    else if |xs| == 1 then xs[0]
    else xs[0] + sep + Join(xs[1..], sep)
  }

  lemma {:induction false} JoinSnoc(xs: seq<string>, x: string, sep: string)
    requires xs != []
    ensures Join(xs + [x], sep) == Join(xs, sep) + sep + x
    decreases |xs|
  {
    if |xs| == 1 {
      assert xs + [x] == [xs[0], x];
    } else {
      assert (xs + [x])[1..] == xs[1..] + [x];
      JoinSnoc(xs[1..], x, sep);
    }
  }

  /** Appending text to the last piece appends it to the joined string. */
  lemma JoinExtendLast(xs: seq<string>, a: string, b: string, sep: string)
    ensures Join(xs + [a + b], sep) == Join(xs + [a], sep) + b
  {
    if xs != [] {
      JoinSnoc(xs, a + b, sep);
      JoinSnoc(xs, a, sep);
    }
  }
  /** The non-whitespace characters of `s`, in order. */
  function Squash(s: string): string
    decreases |s|
  {
    if s == "" then "" else (if IsSpace(s[0]) then "" else [s[0]]) + Squash(s[1..])
  }

  /** `Squash` drops every whitespace character and keeps every other one. */
  lemma {:induction false} SquashMeaning(s: string)
    ensures forall i :: 0 <= i < |Squash(s)| ==> !IsSpace(Squash(s)[i])
    ensures (forall i :: 0 <= i < |s| ==> !IsSpace(s[i])) ==> Squash(s) == s
    ensures (forall i :: 0 <= i < |s| ==> IsSpace(s[i])) ==> Squash(s) == ""
    decreases |s|
  {
    if s != "" {
      var rest := s[1..];
      assert forall i :: 0 <= i < |rest| ==> rest[i] == s[i + 1];
      SquashMeaning(rest);
      assert [s[0]] + rest == s;
    }
  }

  lemma {:induction false} SquashAppend(a: string, b: string)
    ensures Squash(a + b) == Squash(a) + Squash(b)
    decreases |a|
  {
    if a == "" {
      assert a + b == b;
    } else {
      assert (a + b)[1..] == a[1..] + b;
      SquashAppend(a[1..], b);
    }
  }

  /** Stripping removes only whitespace, so it keeps the non-whitespace characters. */
  lemma SquashStrip(s: string)
    ensures Squash(Strip(s)) == Squash(s)
  {
    SquashRStrip(s);
    SquashLStrip(RStrip(s));
  }

  lemma {:induction false} SquashLStrip(s: string)
    ensures Squash(LStrip(s)) == Squash(s)
    decreases |s|
  {
    if |s| > 0 && IsSpace(s[0]) {
      SquashLStrip(s[1..]);
    }
  }

  lemma {:induction false} SquashRStrip(s: string)
    ensures Squash(RStrip(s)) == Squash(s)
    decreases |s|
  {
    if |s| > 0 && IsSpace(s[|s| - 1]) {
      var init := s[..|s| - 1];
      SquashRStrip(init);
      assert s == init + [s[|s| - 1]];
      SquashAppend(init, [s[|s| - 1]]);
    }
  }

  /** Joining with spaces adds no non-whitespace character. */
  lemma SquashJoinSnoc(xs: seq<string>, x: string)
    ensures Squash(Join(xs + [x], " ")) == Squash(Join(xs, " ")) + Squash(x)
  {
    if xs == [] {
      assert xs + [x] == [x];
    } else {
      JoinSnoc(xs, x, " ");
      SquashAppend(Join(xs, " ") + " ", x);
      SquashAppend(Join(xs, " "), " ");
    }
  }


  /** `s.split('. ')`: the pieces between non-overlapping occurrences of ". ", scanned left to right. */
  function SplitSentences(s: string): (r: seq<string>)
    ensures |r| >= 1
    decreases |s|
  {
    if |s| < 2 then [s]
    else if s[0] == '.' && s[1] == ' ' then [""] + SplitSentences(s[2..])
    else
      var rest := SplitSentences(s[1..]);
      [[s[0]] + rest[0]] + rest[1..]
  }

  /** `s` has no ". " in it. */
  predicate NoSeparator(s: string)
  {
    forall i :: 0 <= i < |s| - 1 ==> !(s[i] == '.' && s[i + 1] == ' ')
  }

  /** Every piece of the split is free of ". ", and the first piece is a prefix of the text. */
  lemma {:induction false} SplitSentencesPieces(s: string)
    ensures forall k :: 0 <= k < |SplitSentences(s)| ==> NoSeparator(SplitSentences(s)[k])
    ensures SplitSentences(s)[0] <= s
    decreases |s|
  {
    var r := SplitSentences(s);
    if |s| < 2 {
      assert r == [s];
    } else if s[0] == '.' && s[1] == ' ' {
      var tail := SplitSentences(s[2..]);
      SplitSentencesPieces(s[2..]);
      assert r == [""] + tail;
      forall k | 0 < k < |r|
        ensures NoSeparator(r[k])
      {
        assert r[k] == tail[k - 1];
      }
    } else {
      var rest := SplitSentences(s[1..]);
      SplitSentencesPieces(s[1..]);
      assert r == [[s[0]] + rest[0]] + rest[1..];
      GrowPiece(s, rest[0]);
      forall k | 0 < k < |r|
        ensures NoSeparator(r[k])
      {
        assert r[k] == rest[k];
      }
    }
  }

  /** A character that does not start ". " can be put in front of a separator-free prefix of the rest. */
  lemma GrowPiece(s: string, p: string)
    requires |s| >= 2 && !(s[0] == '.' && s[1] == ' ')
    requires NoSeparator(p) && p <= s[1..]
    ensures NoSeparator([s[0]] + p) && [s[0]] + p <= s
  {
    var q := [s[0]] + p;
    forall i | 0 <= i < |q| - 1
      ensures !(q[i] == '.' && q[i + 1] == ' ')
    {
      if i == 0 {
        assert q[1] == p[0] == s[1];
      } else {
        assert q[i] == p[i - 1] && q[i + 1] == p[i];
      }
    }
  }

  /** The split leaves the text whole exactly when it has no ". " in it. */
  lemma SplitSentencesWhole(s: string)
    ensures SplitSentences(s) == [s] <==> NoSeparator(s)
  {
    SplitSentencesPieces(s);
    if NoSeparator(s) {
      WholeSentence(s);
    }
  }

  /** Text with no ". " in it comes back from the split as one piece. */
  lemma {:induction false} WholeSentence(s: string)
    requires NoSeparator(s)
    ensures SplitSentences(s) == [s]
    decreases |s|
  {
    if |s| >= 2 {
      var rest := s[1..];
      assert forall i :: 0 <= i < |rest| ==> rest[i] == s[i + 1];
      assert NoSeparator(rest);
      WholeSentence(rest);
      assert [s[0]] + rest == s;
    }
  }

  /** Splitting on ". " loses nothing: joining the pieces with ". " gives the text back. */
  lemma {:induction false} SplitSentencesRejoin(s: string)
    ensures Join(SplitSentences(s), ". ") == s
    decreases |s|
  {
    if |s| < 2 {
    } else if s[0] == '.' && s[1] == ' ' {
      SplitSentencesRejoin(s[2..]);
      RejoinAtSeparator(s);
    } else {
      SplitSentencesRejoin(s[1..]);
      RejoinInsidePiece(s);
    }
  }

  lemma RejoinAtSeparator(s: string)
    requires |s| >= 2 && s[0] == '.' && s[1] == ' '
    requires Join(SplitSentences(s[2..]), ". ") == s[2..]
    ensures Join(SplitSentences(s), ". ") == s
  {
    var rest := SplitSentences(s[2..]);
    assert SplitSentences(s) == [""] + rest;
    JoinEmptyFirst(rest, ". ");
    assert s == ". " + s[2..];
  }

  lemma RejoinInsidePiece(s: string)
    requires |s| >= 2 && !(s[0] == '.' && s[1] == ' ')
    requires Join(SplitSentences(s[1..]), ". ") == s[1..]
    ensures Join(SplitSentences(s), ". ") == s
  {
    var rest := SplitSentences(s[1..]);
    assert SplitSentences(s) == [[s[0]] + rest[0]] + rest[1..];
    JoinPrefixFirst(s[0], rest, ". ");
    assert s == [s[0]] + s[1..];
  }

  lemma JoinEmptyFirst(xs: seq<string>, sep: string)
    requires xs != []
    ensures Join([""] + xs, sep) == sep + Join(xs, sep)
  {
    assert ([""] + xs)[1..] == xs;
  }

  lemma JoinPrefixFirst(c: char, xs: seq<string>, sep: string)
    requires xs != []
    ensures Join([[c] + xs[0]] + xs[1..], sep) == [c] + Join(xs, sep)
  {
    var r := [[c] + xs[0]] + xs[1..];
    if |xs| > 1 {
      assert r[1..] == xs[1..];
    }
  }

  /** Python's `needle in haystack` on strings. */
  predicate Contains(haystack: string, needle: string)
    decreases |haystack|
  {
    |needle| <= |haystack| && (haystack[..|needle|] == needle || Contains(haystack[1..], needle))
  }

  /** `needle` occurs in `haystack` starting at index `i`. */
  predicate OccursAt(haystack: string, needle: string, i: nat)
  {
    i + |needle| <= |haystack| && haystack[i..i + |needle|] == needle
  }

  lemma {:induction false} ContainsIff(haystack: string, needle: string)
    ensures Contains(haystack, needle) <==> exists i: nat :: OccursAt(haystack, needle, i)
    decreases |haystack|
  {
    if |needle| <= |haystack| {
      if haystack[..|needle|] == needle {
        assert OccursAt(haystack, needle, 0);
      } else {
        ContainsIff(haystack[1..], needle);
        if exists i: nat :: OccursAt(haystack, needle, i) {
          var i: nat :| OccursAt(haystack, needle, i);
          assert i > 0;
          assert OccursAt(haystack[1..], needle, i - 1);
        }
        if Contains(haystack[1..], needle) {
          var i: nat :| OccursAt(haystack[1..], needle, i);
          assert OccursAt(haystack, needle, i + 1);
        }
      }
    }
  }

  /** `c.lower()` on ASCII letters; every other character is left as it is. */
  function LowerChar(c: char): char
  {
    if 'A' <= c <= 'Z' then (c as int + 32) as char else c
  }

  /** `s.lower()`, restricted to ASCII letters. */
  function Lower(s: string): string
  {
    seq(|s|, i requires 0 <= i < |s| => LowerChar(s[i]))
  }

  /** Lower-casing leaves no upper-case ASCII letter behind, so doing it twice changes nothing. */
  lemma LowerIdempotent(s: string)
    ensures Lower(Lower(s)) == Lower(s)
    ensures forall i :: 0 <= i < |Lower(s)| ==> !('A' <= Lower(s)[i] <= 'Z')
  {
  }
}
