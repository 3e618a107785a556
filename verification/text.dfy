/** The string operations the store relies on, as Python defines them:
    `split` on one separator character, `rstrip("\n")`, `strip()`,
    `upper()` and iteration over the lines of a text file. */
module Text {
  import opened Tokens

  // ---------------------------------------------------------------------
  // Fields separated by one character
  // ---------------------------------------------------------------------

  /** The fields written one after the other with one `sep` between neighbours. */
  function Join(parts: seq<string>, sep: char): string
    requires |parts| >= 1
    decreases |parts|
  {
    if |parts| == 1 then parts[0] else parts[0] + [sep] + Join(parts[1..], sep)
  }

  /** Python's `s.split(sep)` for a one-character separator: every occurrence
      of `sep` ends a field, so two neighbouring separators give an empty
      field, and even the empty string has one (empty) field. */
  function Split(s: string, sep: char): (parts: seq<string>)
    ensures |parts| >= 1
    ensures forall i :: 0 <= i < |parts| ==> sep !in parts[i]
    ensures Join(parts, sep) == s
    decreases |s|
  {
    if |s| == 0 then [""]
    else
      var rest := Split(s[1..], sep);
      if s[0] == sep then
        assert s == [] + [sep] + Join(rest, sep);
        [""] + rest
      else
        var parts := [[s[0]] + rest[0]] + rest[1..];
        assert parts[1..] == rest[1..];
        assert Join(parts, sep) == s by {
          if |rest| > 1 {
            assert Join(rest, sep) == rest[0] + [sep] + Join(rest[1..], sep);
            assert s == [s[0]] + s[1..];
          }
        }
        parts
  }

  /** A field free of the separator is split into itself. */
  lemma {:induction false} SplitNoSep(a: string, sep: char)
    requires sep !in a
    ensures Split(a, sep) == [a]
    decreases |a|
  {
    if |a| > 0 {
      SplitNoSep(a[1..], sep);
      assert [a[0]] + a[1..] == a;
    }
  }

  /** Splitting stops the first field at the first separator. */
  lemma {:induction false} SplitFirstField(a: string, b: string, sep: char)
    requires sep !in a
    ensures Split(a + [sep] + b, sep) == [a] + Split(b, sep)
    decreases |a|
  {
    var s := a + [sep] + b;
    if |a| == 0 {
      assert s[1..] == b;
    } else {
      assert s[1..] == a[1..] + [sep] + b;
      SplitFirstField(a[1..], b, sep);
      assert [a[0]] + a[1..] == a;
    }
  }

  lemma JoinThree(a: string, b: string, c: string, sep: char)
    ensures Join([a, b, c], sep) == a + [sep] + b + [sep] + c
  {
    assert [a, b, c][1..] == [b, c];
    assert [b, c][1..] == [c];
    assert Join([b, c], sep) == b + [sep] + c;
    assert a + [sep] + (b + [sep] + c) == a + [sep] + b + [sep] + c;
  }

  /** Split undoes Join when no field contains the separator. */
  lemma {:induction false} SplitJoin(parts: seq<string>, sep: char)
    requires |parts| >= 1
    requires forall i :: 0 <= i < |parts| ==> sep !in parts[i]
    ensures Split(Join(parts, sep), sep) == parts
    decreases |parts|
  {
    if |parts| == 1 {
      SplitNoSep(parts[0], sep);
    } else {
      SplitJoin(parts[1..], sep);
      SplitFirstField(parts[0], Join(parts[1..], sep), sep);
      assert [parts[0]] + parts[1..] == parts;
    }
  }

  /** Three fields joined by a separator none of them holds split back. */
  lemma SplitThree(a: string, b: string, c: string, sep: char)
    requires sep !in a && sep !in b && sep !in c
    ensures Split(a + [sep] + b + [sep] + c, sep) == [a, b, c]
  {
    JoinThree(a, b, c, sep);
    SplitJoin([a, b, c], sep);
  }

  /** Splitting a concatenation glues the last field of the front part to
      the first field of the back part. */
  lemma {:induction false} SplitConcat(a: string, b: string, sep: char)
    ensures Split(a + b, sep) == Glue(Split(a, sep), Split(b, sep))
    decreases |a|
  {
    if |a| == 0 {
      assert a + b == b;
      var B := Split(b, sep);
      assert Split(a, sep) == [""];
      assert [""][..0] == [];
      assert "" + B[0] == B[0];
      assert Glue([""], B) == [B[0]] + B[1..] == B;
    } else {
      assert (a + b)[1..] == a[1..] + b;
      SplitConcat(a[1..], b, sep);
      if a[0] == sep {
        GlueConsField("", Split(a[1..], sep), Split(b, sep));
      } else {
        GlueExtendFirst([a[0]], Split(a[1..], sep), Split(b, sep));
      }
    }
  }

  /** The fields of `A` and `B` with the last of `A` joined to the first of `B`. */
  function Glue(A: seq<string>, B: seq<string>): (G: seq<string>)
    requires |A| >= 1 && |B| >= 1
    ensures |G| == |A| + |B| - 1
  {
    A[..|A| - 1] + [A[|A| - 1] + B[0]] + B[1..]
  }

  lemma GlueConsField(f: string, A: seq<string>, B: seq<string>)
    requires |A| >= 1 && |B| >= 1
    ensures Glue([f] + A, B) == [f] + Glue(A, B)
  {
    assert ([f] + A)[..|A|] == [f] + A[..|A| - 1];
  }

  lemma GlueExtendFirst(c: string, A: seq<string>, B: seq<string>)
    requires |A| >= 1 && |B| >= 1
    ensures var G := Glue(A, B);
            Glue([c + A[0]] + A[1..], B) == [c + G[0]] + G[1..]
  {
    var G := Glue(A, B);
    if |A| == 1 {
      assert G == [A[0] + B[0]] + B[1..];
      assert c + A[0] + B[0] == c + (A[0] + B[0]);
      assert Glue([c + A[0]] + A[1..], B) == [c + A[0] + B[0]] + B[1..];
    } else {
      assert G[0] == A[0];
      assert G[1..] == A[1..|A| - 1] + [A[|A| - 1] + B[0]] + B[1..];
    }
  }

  // ---------------------------------------------------------------------
  // Trailing newlines and surrounding whitespace
  // ---------------------------------------------------------------------

  /** `s.rstrip("\n")`: drops every trailing newline and nothing else. */
  function RStripNewlines(s: string): (r: string)
    ensures |r| <= |s| && r == s[..|r|]
    ensures forall i :: |r| <= i < |s| ==> s[i] == '\n'
    ensures r == [] || r[|r| - 1] != '\n'
    decreases |s|
  {
    if |s| > 0 && s[|s| - 1] == '\n' then RStripNewlines(s[..|s| - 1]) else s
  }

  /** A newline appended to a string is stripped again. */
  lemma RStripAppendedNewline(s: string)
    ensures RStripNewlines(s + "\n") == RStripNewlines(s)
  {
    assert (s + "\n")[..|s|] == s;
  }

  /** Drops the leading whitespace. */
  function StripLeft(s: string): (r: string)
    ensures |r| <= |s| && r == s[|s| - |r|..]
    ensures forall i :: 0 <= i < |s| - |r| ==> IsSpace(s[i])
    ensures r == [] || !IsSpace(r[0])
    decreases |s|
  {
    if |s| > 0 && IsSpace(s[0]) then StripLeft(s[1..]) else s
  }

  /** Drops the trailing whitespace. */
  function StripRight(s: string): (r: string)
    ensures |r| <= |s| && r == s[..|r|]
    ensures forall i :: |r| <= i < |s| ==> IsSpace(s[i])
    ensures r == [] || !IsSpace(r[|r| - 1])
    decreases |s|
  {
    if |s| > 0 && IsSpace(s[|s| - 1]) then StripRight(s[..|s| - 1]) else s
  }

  /** Nothing is left after the leading whitespace exactly when the whole
      text is whitespace. */
  lemma StripLeftEmpty(s: string)
    ensures StripLeft(s) == [] <==> forall i :: 0 <= i < |s| ==> IsSpace(s[i])
  {
    if StripLeft(s) != [] {
      assert StripLeft(s)[0] == s[|s| - |StripLeft(s)|];
    }
  }

  /** `s.strip()`: removes whitespace at both ends. */
  function Strip(s: string): (r: string)
    ensures |r| <= |s|
    ensures r == [] <==> forall i :: 0 <= i < |s| ==> IsSpace(s[i])
    ensures r != [] ==> !IsSpace(r[0]) && !IsSpace(r[|r| - 1])
  {
    StripLeftEmpty(s);
    StripRight(StripLeft(s))
  }

  /** Strip removes exactly the whitespace padding around a text that
      neither starts nor ends with whitespace. */
  lemma {:induction false} StripPadded(pre: string, w: string, post: string)
    requires forall i :: 0 <= i < |pre| ==> IsSpace(pre[i])
    requires forall i :: 0 <= i < |post| ==> IsSpace(post[i])
    requires w == [] || (!IsSpace(w[0]) && !IsSpace(w[|w| - 1]))
    ensures Strip(pre + w + post) == w
  {
    if w == [] {
      assert pre + w + post == pre + post;
      forall i | 0 <= i < |pre + post| ensures IsSpace((pre + post)[i]) {
        if i >= |pre| { assert (pre + post)[i] == post[i - |pre|]; }
      }
    } else {
      assert pre + w + post == pre + (w + post);
      StripLeftPadded(pre, w + post);
      StripRightPadded(w, post);
    }
  }

  lemma {:induction false} StripLeftPadded(pre: string, t: string)
    requires forall i :: 0 <= i < |pre| ==> IsSpace(pre[i])
    requires t == [] || !IsSpace(t[0])
    ensures StripLeft(pre + t) == t
    decreases |pre|
  {
    if |pre| > 0 {
      assert (pre + t)[1..] == pre[1..] + t;
      StripLeftPadded(pre[1..], t);
    } else {
      assert pre + t == t;
    }
  }

  lemma {:induction false} StripRightPadded(t: string, post: string)
    requires forall i :: 0 <= i < |post| ==> IsSpace(post[i])
    requires t == [] || !IsSpace(t[|t| - 1])
    ensures StripRight(t + post) == t
    decreases |post|
  {
    if |post| > 0 {
      assert (t + post)[..|t + post| - 1] == t + post[..|post| - 1];
      StripRightPadded(t, post[..|post| - 1]);
    } else {
      assert t + post == t;
    }
  }

  // ---------------------------------------------------------------------
  // Upper case
  // ---------------------------------------------------------------------

  function UpperChar(c: char): char {
    if 'a' <= c <= 'z' then (c as int - 32) as char else c
  }

  /** `s.upper()`, restricted to the ASCII letters. */
  function Upper(s: string): (r: string)
    ensures |r| == |s|
    ensures forall i :: 0 <= i < |s| ==> r[i] == UpperChar(s[i])
    decreases |s|
  {
    if |s| == 0 then [] else [UpperChar(s[0])] + Upper(s[1..])
  }

  // ---------------------------------------------------------------------
  // Lines of a text file
  // ---------------------------------------------------------------------

  /** One line as Python's file iteration yields it: non-empty, and a
      newline, if any, only at its end. */
  predicate IsLine(s: string) {
    |s| > 0 && forall i :: 0 <= i < |s| - 1 ==> s[i] != '\n'
  }

  predicate EndsWithNewline(s: string) {
    |s| > 0 && s[|s| - 1] == '\n'
  }

  function Concat(ls: seq<string>): string
    decreases |ls|
  {
    if |ls| == 0 then [] else ls[0] + Concat(ls[1..])
  }

  /** `for raw in f`: the file's text cut after every newline; every line
      but possibly the last ends with its newline. */
  function Lines(c: string): (ls: seq<string>)
    ensures Concat(ls) == c
    ensures forall i :: 0 <= i < |ls| ==> IsLine(ls[i])
    ensures forall i :: 0 <= i < |ls| - 1 ==> EndsWithNewline(ls[i])
    decreases |c|
  {
    if |c| == 0 then []
    else
      var rest := Lines(c[1..]);
      if c[0] == '\n' then
        assert c == "\n" + c[1..];
        ["\n"] + rest
      else if |rest| == 0 then
        assert c == [c[0]] + c[1..];
        [[c[0]]]
      else
        var ls := [[c[0]] + rest[0]] + rest[1..];
        assert ls[1..] == rest[1..];
        assert Concat(ls) == c by {
          assert c == [c[0]] + c[1..];
        }
        ls
  }

  /** A file with a complete last line is read as its own lines followed by
      the lines of whatever is appended to it. */
  lemma {:induction false} LinesConcat(a: string, b: string)
    requires a == [] || EndsWithNewline(a)
    ensures Lines(a + b) == Lines(a) + Lines(b)
    decreases |a|
  {
    if |a| > 0 {
      assert (a + b)[1..] == a[1..] + b;
      assert (a + b)[0] == a[0];
      if a[0] == '\n' {
        assert a[1..] == [] || EndsWithNewline(a[1..]);
        LinesConcat(a[1..], b);
      } else {
        assert EndsWithNewline(a[1..]);
        LinesConcat(a[1..], b);
        assert |Lines(a[1..])| > 0;
      }
    } else {
      assert a + b == b;
    }
  }

  /** A single line is read back as exactly that line. */
  lemma {:induction false} LinesOfLine(s: string)
    requires IsLine(s)
    ensures Lines(s) == [s]
    decreases |s|
  {
    if |s| > 1 {
      LinesOfLine(s[1..]);
      assert s[0] != '\n';
      assert [s[0]] + s[1..] == s;
    } else {
      assert Lines(s[1..]) == [];
      assert s == [s[0]];
    }
  }

  /** The position just after the last newline of `c` (0 when there is none):
      `c[LastBreak(c)..]` is the last, unterminated line. */
  function LastBreak(c: string): (r: nat)
    ensures r <= |c|
    ensures r == 0 || c[r - 1] == '\n'
    ensures forall i :: r <= i < |c| ==> c[i] != '\n'
    decreases |c|
  {
    if |c| == 0 then 0
    else if c[|c| - 1] == '\n' then |c|
    else LastBreak(c[..|c| - 1])
  }

  /** Each line keeps at most one trailing newline, so `rstrip("\n")`
      removes one newline or nothing. */
  lemma RStripLine(l: string)
    requires IsLine(l)
    ensures RStripNewlines(l) == if EndsWithNewline(l) then l[..|l| - 1] else l
  {
    if EndsWithNewline(l) {
      var r := l[..|l| - 1];
      assert r == [] || r[|r| - 1] != '\n' by {
        if |r| > 0 { assert r[|r| - 1] == l[|l| - 2]; }
      }
    }
  }
}
