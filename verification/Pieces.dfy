/** Texts cut at a separator, and glued together again. */
module Pieces {

  ghost predicate Free(parts: seq<string>, sep: char) { forall i :: 0 <= i < |parts| ==> sep !in parts[i] }

  /** The pieces between separators; there is always at least one. */
  function Cut(s: string, sep: char): (parts: seq<string>)
    ensures parts != [] && Free(parts, sep)
  {
    if s == [] then [""]
    else if s[0] == sep then [""] + Cut(s[1..], sep)
    else
      var rest := Cut(s[1..], sep);
      assert s[0] !in [sep];
      [[s[0]] + rest[0]] + rest[1..]
  }

  function Glue(parts: seq<string>, sep: char): string
    requires parts != []
  {
    if |parts| == 1 then parts[0] else parts[0] + ([sep] + Glue(parts[1..], sep))
  }

  lemma {:induction false} CutWord(word: string, sep: char)
    requires sep !in word
    ensures Cut(word, sep) == [word]
    decreases |word|
  {
    if word != [] {
      CutWord(word[1..], sep);
      assert word == [word[0]] + word[1..];
    }
  }

  lemma CutNext(c: char, left: seq<string>, right: seq<string>)
    requires left != []
    ensures [""] + (left + right) == [""] + left + right
    ensures (left + right)[0] == left[0] && [[c] + left[0]] + (left + right)[1..] == [[c] + left[0]] + left[1..] + right
  {
    assert (left + right)[1..] == left[1..] + right;
  }

  /** Around a separator both sides are cut on their own. */
  lemma {:induction false} CutBetween(a: string, b: string, sep: char)
    ensures Cut(a + ([sep] + b), sep) == Cut(a, sep) + Cut(b, sep)
    decreases |a|
  {
    hide Free;
    var s := a + ([sep] + b);
    if a == [] {
      assert s[0] == sep && s[1..] == b;
    } else {
      assert s[0] == a[0] && s[1..] == a[1..] + ([sep] + b);
      CutBetween(a[1..], b, sep);
      CutNext(a[0], Cut(a[1..], sep), Cut(b, sep));
    }
  }

  /** Cutting what was glued gives back the pieces. */
  lemma {:induction false} CutGlue(parts: seq<string>, sep: char)
    requires parts != [] && Free(parts, sep)
    ensures Cut(Glue(parts, sep), sep) == parts
    decreases |parts|
  {
    CutWord(parts[0], sep);
    if |parts| > 1 {
      CutGlue(parts[1..], sep);
      CutBetween(parts[0], Glue(parts[1..], sep), sep);
      assert parts == [parts[0]] + parts[1..];
    }
  }

  /** Gluing what was cut gives back the text. */
  lemma {:induction false} GlueCut(s: string, sep: char)
    ensures Glue(Cut(s, sep), sep) == s
    decreases |s|
  {
    if s != [] {
      GlueCut(s[1..], sep);
      var rest, parts := Cut(s[1..], sep), Cut(s, sep);
      if s[0] == sep {
        assert parts[1..] == rest;
      } else {
        assert parts[1..] == rest[1..];
        assert s == [s[0]] + s[1..];
      }
    }
  }

  /** Gluing two lists glues their texts around a separator. */
  lemma {:induction false} GlueConcat(a: seq<string>, b: seq<string>, sep: char)
    requires a != [] && b != []
    ensures Glue(a + b, sep) == Glue(a, sep) + ([sep] + Glue(b, sep))
    decreases |a|
  {
    if |a| == 1 {
      assert (a + b)[1..] == b;
    } else {
      GlueConcat(a[1..], b, sep);
      assert (a + b)[1..] == a[1..] + b;
    }
  }
}
