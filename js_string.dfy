/**
 * The JavaScript string built-ins the core relies on, restricted to what it
 * uses: `indexOf` of a character and of a substring, `split` and `join` with
 * a one-character separator, and ASCII `toLowerCase`.
 */
module JsString {

  /** Index of the first `c` in `s`, or `|s|` when `s` has none. */
  function FirstIndex(s: string, c: char): (i: nat)
    ensures i <= |s|
    ensures i < |s| ==> s[i] == c
    ensures forall k :: 0 <= k < i ==> s[k] != c
    ensures i == |s| <==> c !in s
  {
    if |s| == 0 then 0
    else if s[0] == c then 0
    else 1 + FirstIndex(s[1..], c)
  }

  /** Number of occurrences of `c` in `s`. */
  function Count(s: string, c: char): nat
  {
    if |s| == 0 then 0
    else (if s[0] == c then 1 else 0) + Count(s[1..], c)
  }

  /** `s.split(sep)`: the pieces between separators, empty pieces kept. */
  function Split(s: string, sep: char): (parts: seq<string>)
    ensures |parts| >= 1
    ensures forall k :: 0 <= k < |parts| ==> sep !in parts[k]
    decreases |s|
  {
    var i := FirstIndex(s, sep);
    if i == |s| then [s] else [s[..i]] + Split(s[i + 1..], sep)
  }

  /** One unfolding of `Split`. */
  lemma {:induction false} SplitUnfold(s: string, sep: char)
    ensures var i := FirstIndex(s, sep);
            Split(s, sep) == if i == |s| then [s] else [s[..i]] + Split(s[i + 1..], sep)
  {
  }

  /** `parts.join(sep)`. */
  function Join(parts: seq<string>, sep: char): string
  {
    if |parts| == 0 then ""
    else if |parts| == 1 then parts[0]
    else parts[0] + [sep] + Join(parts[1..], sep)
  }

  /** Last element of a non-empty list. */
  function Last<T>(xs: seq<T>): T
    requires |xs| > 0
  {
    xs[|xs| - 1]
  }

  /** Counting the separators before the first one. */
  lemma {:induction false} CountFromFirst(s: string, c: char, i: nat)
    requires i < |s| && s[i] == c
    requires forall k :: 0 <= k < i ==> s[k] != c
    ensures Count(s, c) == 1 + Count(s[i + 1..], c)
    decreases i
  {
    if i > 0 {
      assert s[1..][i - 1 + 1..] == s[i + 1..];
      CountFromFirst(s[1..], c, i - 1);
    }
  }

  /** `split` yields one piece more than there are separators. */
  lemma {:induction false} SplitLength(s: string, sep: char)
    ensures |Split(s, sep)| == Count(s, sep) + 1
    decreases |s|
  {
    var i := FirstIndex(s, sep);
    if i == |s| {
      NoneCounted(s, sep);
    } else {
      CountFromFirst(s, sep, i);
      SplitLength(s[i + 1..], sep);
    }
  }

  /** A string without `c` counts no `c`. */
  lemma {:induction false} NoneCounted(s: string, c: char)
    requires c !in s
    ensures Count(s, c) == 0
  {
    if |s| > 0 {
      assert c !in s[1..];
      NoneCounted(s[1..], c);
    }
  }

  /** `join` undoes `split`. */
  lemma {:induction false} JoinSplit(s: string, sep: char)
    ensures Join(Split(s, sep), sep) == s
    decreases |s|
  {
    var i := FirstIndex(s, sep);
    var parts := Split(s, sep);
    if i < |s| {
      var rest := s[i + 1..];
      var tail := Split(rest, sep);
      assert parts == [s[..i]] + tail;
      JoinSplit(rest, sep);
      assert Join(parts, sep) == s[..i] + [sep] + Join(tail, sep);
      assert s == s[..i] + [sep] + rest;
    } else {
      assert parts == [s];
    }
  }

  /** Splitting a label, a separator and a tail: the label, then the tail's pieces. */
  lemma SplitAfterPiece(head: string, sep: char, tail: string)
    requires sep !in head
    ensures Split(head + [sep] + tail, sep) == [head] + Split(tail, sep)
  {
    var s := head + [sep] + tail;
    var i := FirstIndex(s, sep);
    assert s[|head|] == sep;
    assert i == |head|;
    assert s[..i] == head;
    assert s[i + 1..] == tail;
  }

  /** The pieces after the first are the text after the first separator. */
  lemma SplitTail(s: string, sep: char)
    ensures var i := FirstIndex(s, sep);
            Join(Split(s, sep)[1..], sep) == if i < |s| then s[i + 1..] else ""
  {
    var i := FirstIndex(s, sep);
    var parts := Split(s, sep);
    if i < |s| {
      assert parts == [s[..i]] + Split(s[i + 1..], sep);
      assert parts[1..] == Split(s[i + 1..], sep);
      JoinSplit(s[i + 1..], sep);
    } else {
      assert parts == [s];
    }
  }

  /** The text ends in `sep` followed by `word`, or is `word` itself. */
  predicate EndsWithPiece(s: string, sep: char, word: string)
  {
    s == word || (|s| > |word| && s[|s| - |word| - 1] == sep && s[|s| - |word|..] == word)
  }

  /** Putting a separated piece in front does not change how a text ends. */
  lemma EndsWithPieceAfter(head: string, sep: char, rest: string, word: string)
    requires sep !in word
    ensures EndsWithPiece(head + [sep] + rest, sep, word) <==> EndsWithPiece(rest, sep, word)
  {
    var s := head + [sep] + rest;
    var n := |word|;
    assert s[|head|] == sep;
    if |rest| >= n {
      assert s[|s| - n..] == rest[|rest| - n..];
    }
    if |rest| > n {
      assert s[|s| - n - 1] == rest[|rest| - n - 1];
    }
    if EndsWithPiece(s, sep, word) {
      assert s != word;
    }
  }

  /** Dropping the text up to a separator does not change how a text ends. */
  lemma EndsWithPieceFrom(s: string, i: nat, sep: char, word: string)
    requires i < |s| && s[i] == sep && sep !in word
    ensures EndsWithPiece(s, sep, word) <==> EndsWithPiece(s[i + 1..], sep, word)
  {
    assert s == s[..i] + [sep] + s[i + 1..];
    EndsWithPieceAfter(s[..i], sep, s[i + 1..], word);
  }

  /** Without a separator, a text ends with `sep + word` only by being `word`. */
  lemma EndsWithPieceWithoutSep(s: string, sep: char, word: string)
    requires sep !in s
    ensures EndsWithPiece(s, sep, word) <==> s == word
  {
    if s != word && |s| > |word| {
      assert s[|s| - |word| - 1] != sep;
    }
  }

  /** The last piece of a split is `word` exactly when the text ends with `sep + word`. */
  lemma {:induction false} LastPiece(s: string, sep: char, word: string)
    requires sep !in word
    ensures Last(Split(s, sep)) == word <==> EndsWithPiece(s, sep, word)
    decreases |s|
  {
    var i := FirstIndex(s, sep);
    SplitUnfold(s, sep);
    if i < |s| {
      var tail := Split(s[i + 1..], sep);
      assert Last(Split(s, sep)) == Last(tail) by {
        assert Split(s, sep) == [s[..i]] + tail;
      }
      LastPiece(s[i + 1..], sep, word);
      EndsWithPieceFrom(s, i, sep, word);
    } else {
      EndsWithPieceWithoutSep(s, sep, word);
    }
  }

  /** ASCII `toLowerCase` of one character. */
  function LowerChar(c: char): (d: char)
    ensures 'A' <= c <= 'Z' ==> 'a' <= d <= 'z' && d as int == c as int + 32
    ensures !('A' <= c <= 'Z') ==> d == c
  {
    if 'A' <= c <= 'Z' then (c as int + 32) as char else c
  }

  /** ASCII `toLowerCase` of a string. */
  function Lower(s: string): (t: string)
    ensures |t| == |s|
    ensures forall k :: 0 <= k < |s| ==> t[k] == LowerChar(s[k])
  {
    if |s| == 0 then "" else [LowerChar(s[0])] + Lower(s[1..])
  }

  /** `pat` occurs in `text` starting at `k`. */
  predicate OccursAt(text: string, pat: string, k: int)
  {
    0 <= k && k + |pat| <= |text| && text[k..k + |pat|] == pat
  }

  /** `pat` occurs somewhere in `text`. */
  ghost predicate Occurs(text: string, pat: string)
  {
    exists k :: OccursAt(text, pat, k)
  }

  /** `text.indexOf(pat, from)`: the first occurrence at or after `from`, or -1. */
  function IndexOf(text: string, pat: string, from: nat): (r: int)
    ensures r == -1 || (from <= r && OccursAt(text, pat, r))
    ensures r == -1 ==> forall k :: from <= k ==> !OccursAt(text, pat, k)
    ensures r != -1 ==> forall k :: from <= k < r ==> !OccursAt(text, pat, k)
    ensures from == 0 ==> (r >= 0 <==> Occurs(text, pat))
    decreases |text| - from
  {
    if from + |pat| > |text| then -1
    else if text[from..from + |pat|] == pat then from
    else IndexOf(text, pat, from + 1)
  }
}
