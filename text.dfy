/** The string operations the quiz relies on: ASCII `toLowerCase`, the letter
    test of the keystroke handler, and `split` on a one-character separator
    with its inverse `Join`. */
module Text {

  predicate IsUpper(c: char) { 'A' <= c <= 'Z' }

  /** The class `[a-zA-Z]`. */
  predicate IsLetter(c: char) { IsUpper(c) || 'a' <= c <= 'z' }

  /** `toLowerCase` restricted to ASCII. */
  function LowerChar(c: char): (r: char)
    ensures IsUpper(c) ==> r as int == c as int + 32
    ensures !IsUpper(c) ==> r == c
    ensures !IsUpper(r)
  {
    if IsUpper(c) then (c as int + 32) as char else c
  }

  function Lower(s: string): (r: string)
    ensures |r| == |s|
    ensures forall i :: 0 <= i < |s| ==> r[i] == LowerChar(s[i])
  {
    seq(|s|, i requires 0 <= i < |s| => LowerChar(s[i]))
  }

  /** Number of occurrences of `c` in `s`. */
  function Count(s: string, c: char): nat
  {
    if s == [] then 0 else (if s[0] == c then 1 else 0) + Count(s[1..], c)
  }

  /** `s.split(sep)`: the pieces between occurrences of `sep`, always at least one. */
  function Split(s: string, sep: char): (parts: seq<string>)
    ensures |parts| >= 1
  {
    if s == [] then [""]
    else
      var rest := Split(s[1..], sep);
      if s[0] == sep then [""] + rest else [[s[0]] + rest[0]] + rest[1..]
  }

  /** `parts.join(sep)`. */
  function Join(parts: seq<string>, sep: char): string
    requires |parts| >= 1
  {
    if |parts| == 1 then parts[0] else parts[0] + [sep] + Join(parts[1..], sep)
  }

  /** Splitting and joining again gives back the string. */
  lemma {:induction false} JoinSplit(s: string, sep: char)
    ensures Join(Split(s, sep), sep) == s
  {
    if s != [] {
      var rest := Split(s[1..], sep);
      JoinSplit(s[1..], sep);
      if s[0] == sep {
        assert Split(s, sep)[1..] == rest;
      } else {
        var parts := Split(s, sep);
        if |rest| == 1 {
          assert parts == [[s[0]] + rest[0]];
        } else {
          assert parts[1..] == rest[1..];
          assert Join(rest, sep) == rest[0] + [sep] + Join(rest[1..], sep);
        }
      }
    }
  }

  /** No piece contains the separator, and there is one piece more than there
      are separators. */
  lemma {:induction false} SplitPieces(s: string, sep: char)
    ensures |Split(s, sep)| == Count(s, sep) + 1
    ensures forall i :: 0 <= i < |Split(s, sep)| ==> sep !in Split(s, sep)[i]
  {
    if s != [] {
      SplitPieces(s[1..], sep);
      var rest := Split(s[1..], sep);
      var parts := Split(s, sep);
      if s[0] != sep {
        forall i | 0 <= i < |parts| ensures sep !in parts[i] {
          if i == 0 {
            assert parts[0] == [s[0]] + rest[0];
          } else {
            assert parts[i] == rest[i];
          }
        }
      }
    }
  }

  /** A string with exactly one separator splits into the text before and the
      text after it. */
  lemma {:induction false} SplitAtOnlySeparator(pre: string, sep: char, post: string)
    requires sep !in pre && sep !in post
    ensures Split(pre + [sep] + post, sep) == [pre, post]
  {
    SplitNoSeparator(post, sep);
    SplitAfterPrefix(pre, sep, post);
  }

  lemma {:induction false} SplitNoSeparator(s: string, sep: char)
    requires sep !in s
    ensures Split(s, sep) == [s]
  {
    if s != [] {
      SplitNoSeparator(s[1..], sep);
      assert [s[0]] + s[1..] == s;
    }
  }

  lemma {:induction false} SplitAfterPrefix(pre: string, sep: char, post: string)
    requires sep !in pre
    ensures Split(pre + [sep] + post, sep) == [pre] + Split(post, sep)
  {
    var s := pre + [sep] + post;
    if pre == [] {
      assert s[1..] == post;
    } else {
      assert s[1..] == pre[1..] + [sep] + post;
      SplitAfterPrefix(pre[1..], sep, post);
      assert [pre[0]] + pre[1..] == pre;
    }
  }

  /** A string with exactly one separator is the first piece, the separator
      and the second piece, and neither piece holds the separator. */
  lemma SplitOneSeparator(s: string, sep: char)
    requires Count(s, sep) == 1
    ensures var parts := Split(s, sep);
      && |parts| == 2
      && s == parts[0] + [sep] + parts[1]
      && sep !in parts[0] && sep !in parts[1]
  {
    var parts := Split(s, sep);
    SplitPieces(s, sep);
    JoinSplit(s, sep);
    assert parts[1..] == [parts[1]];
  }
}
