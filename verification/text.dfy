/** The string operations the handlers use: `startsWith`, `includes` and
    `split(" ")`. */
module Text {

  predicate StartsWith(s: string, prefix: string)
  {
    |prefix| <= |s| && s[..|prefix|] == prefix
  }

  /** `sub` occurs in `s` starting at index `i`. */
  predicate OccursAt(s: string, sub: string, i: int)
  {
    0 <= i <= |s| - |sub| && s[i..i + |sub|] == sub
  }

  /** `s.includes(sub)`. */
  predicate Contains(s: string, sub: string)
  {
    exists i :: 0 <= i <= |s| - |sub| && OccursAt(s, sub, i)
  }

  /** `parts.join(sep)`. */
  function Join(parts: seq<string>, sep: char): string
  {
    if |parts| == 0 then ""
    else if |parts| == 1 then parts[0]
    else parts[0] + [sep] + Join(parts[1..], sep)
  }

  /** `s.split(sep)` for a one-character separator: the maximal pieces between
      separators, always at least one, none containing the separator, and
      joining back to `s`. */
  function Split(s: string, sep: char): (parts: seq<string>)
    ensures |parts| >= 1
    ensures forall k :: 0 <= k < |parts| ==> sep !in parts[k]
    ensures Join(parts, sep) == s
    ensures |parts| == 1 <==> sep !in s
  {
    if |s| == 0 then [""]
    else if s[0] == sep then
      var rest := Split(s[1..], sep);
      assert s == [sep] + s[1..];
      [""] + rest
    else
      var rest := Split(s[1..], sep);
      var parts := [[s[0]] + rest[0]] + rest[1..];
      assert s == [s[0]] + s[1..];
      assert Join(parts, sep) == s by {
        if |rest| == 1 {
        } else {
          assert parts[1..] == rest[1..];
          assert Join(rest, sep) == rest[0] + [sep] + Join(rest[1..], sep);
        }
      }
      parts
  }

  /** The longest prefix of `s` without `c`. */
  function TakeUntil(s: string, c: char): (t: string)
    ensures StartsWith(s, t)
    ensures c !in t
    ensures |t| < |s| ==> s[|t|] == c
  {
    if |s| == 0 || s[0] == c then ""
    else [s[0]] + TakeUntil(s[1..], c)
  }

  /** Splitting a string that starts with a separator-free word and a
      separator gives that word first, then the pieces of the rest; in
      particular its second piece is the rest up to the next separator. */
  lemma {:induction false} SplitAfterWord(word: string, sep: char, rest: string)
    requires sep !in word
    ensures Split(word + [sep] + rest, sep) == [word] + Split(rest, sep)
    ensures Split(word + [sep] + rest, sep)[1] == TakeUntil(rest, sep)
    decreases |word|
  {
    var s := word + [sep] + rest;
    if |word| == 0 {
      assert s == [sep] + rest;
      assert s[1..] == rest;
    } else {
      assert s[1..] == word[1..] + [sep] + rest;
      SplitAfterWord(word[1..], sep, rest);
      assert word == [word[0]] + word[1..];
    }
    SplitHeadIsTakeUntil(rest, sep);
  }

  /** The first piece of a split is the prefix up to the first separator. */
  lemma {:induction false} SplitHeadIsTakeUntil(s: string, sep: char)
    ensures Split(s, sep)[0] == TakeUntil(s, sep)
    decreases |s|
  {
    if |s| > 0 && s[0] != sep {
      SplitHeadIsTakeUntil(s[1..], sep);
    }
  }
}
