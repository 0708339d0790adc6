/**
 * String helpers shared by the renderer, the cell layout and the config tokenizer:
 * right alignment (Rust's `{:>width$}`), joining and splitting on a separator,
 * `str::lines`, `str::trim_start` and `str::split_ascii_whitespace`.
 * Strings are sequences of Unicode scalar values, as Rust's `chars()` sees them.
 */
module Text {

  /** `n` blanks. */
  function Spaces(n: nat): (r: string)
    ensures |r| == n
    ensures forall i :: 0 <= i < n ==> r[i] == ' '
  {
    if n == 0 then "" else Spaces(n - 1) + " "
  }

  /** Rust's `format!("{s:>width$}")`: `s` right-aligned in a field of `width` characters;
      a string already as wide as the field is left alone. */
  function PadLeft(s: string, width: nat): (r: string)
    ensures |r| == if |s| >= width then |s| else width
    ensures r[|r| - |s|..] == s
    ensures forall i :: 0 <= i < |r| - |s| ==> r[i] == ' '
  {
    if |s| >= width then s else Spaces(width - |s|) + s
  }

  /** All the strings of `parts`, one after another. */
  function Flatten(parts: seq<string>): string
  {
    if |parts| == 0 then "" else parts[0] + Flatten(parts[1..])
  }

  lemma {:induction false} FlattenAppend(a: seq<string>, b: seq<string>)
    ensures Flatten(a + b) == Flatten(a) + Flatten(b)
    decreases |a|
  {
    if |a| == 0 {
      assert a + b == b;
    } else {
      assert (a + b)[1..] == a[1..] + b;
      FlattenAppend(a[1..], b);
    }
  }

  /** The strings of `parts` with `sep` between neighbours (Rust's `join`). */
  function JoinWith(parts: seq<string>, sep: string): string
  {
    if |parts| == 0 then ""
    else if |parts| == 1 then parts[0]
    else parts[0] + sep + JoinWith(parts[1..], sep)
  }

  /** Position of the first `c` in `s`, or `|s|` when there is none. */
  function IndexOf(s: string, c: char): (i: nat)
    ensures i <= |s|
    ensures c !in s[..i]
    ensures i < |s| ==> s[i] == c
  {
    if |s| == 0 then 0
    else if s[0] == c then 0
    else
      var j := IndexOf(s[1..], c);
      assert s[..j + 1] == [s[0]] + s[1..][..j];
      j + 1
  }

  /** Number of occurrences of `c` in `s`. */
  function Count(s: string, c: char): nat
  {
    if |s| == 0 then 0 else (if s[0] == c then 1 else 0) + Count(s[1..], c)
  }

  lemma {:induction false} CountAppend(a: string, b: string, c: char)
    ensures Count(a + b, c) == Count(a, c) + Count(b, c)
    decreases |a|
  {
    if |a| == 0 {
      assert a + b == b;
    } else {
      assert (a + b)[1..] == a[1..] + b;
      CountAppend(a[1..], b, c);
    }
  }

  lemma {:induction false} CountAbsent(s: string, c: char)
    requires c !in s
    ensures Count(s, c) == 0
    decreases |s|
  {
    if |s| > 0 {
      assert s[1..] <= s[1..];
      assert forall x :: x in s[1..] ==> x in s;
      CountAbsent(s[1..], c);
    }
  }

  /** Rust's `s.split(c)`: the maximal pieces of `s` between occurrences of `c`,
      empty pieces included. */
  function SplitOn(s: string, c: char): (r: seq<string>)
    ensures |r| >= 1
    ensures forall i :: 0 <= i < |r| ==> c !in r[i]
    ensures JoinWith(r, [c]) == s
    decreases |s|
  {
    var i := IndexOf(s, c);
    if i == |s| then
      assert s[..i] == s;
      [s]
    else
      var rest := SplitOn(s[i + 1..], c);
      assert s == s[..i] + [c] + s[i + 1..];
      [s[..i]] + rest
  }

  /** Splitting yields one piece more than there are separators. */
  lemma {:induction false} SplitOnCount(s: string, c: char)
    ensures |SplitOn(s, c)| == Count(s, c) + 1
    decreases |s|
  {
    var i := IndexOf(s, c);
    if i == |s| {
      assert s[..i] == s;
      CountAbsent(s, c);
    } else {
      assert s == s[..i] + ([c] + s[i + 1..]);
      CountAppend(s[..i], [c] + s[i + 1..], c);
      CountAppend([c], s[i + 1..], c);
      CountAbsent(s[..i], c);
      assert Count([c], c) == 1 by {
        assert [c][1..] == [];
      }
      SplitOnCount(s[i + 1..], c);
    }
  }

  /** Splitting undoes joining when no piece contains the separator. */
  lemma {:induction false} SplitOnJoin(parts: seq<string>, c: char)
    requires |parts| >= 1
    requires forall i :: 0 <= i < |parts| ==> c !in parts[i]
    ensures SplitOn(JoinWith(parts, [c]), c) == parts
    decreases |parts|
  {
    var s := JoinWith(parts, [c]);
    if |parts| == 1 {
      assert s == parts[0];
      assert IndexOf(s, c) == |s|;
    } else {
      var tail := JoinWith(parts[1..], [c]);
      assert s == parts[0] + [c] + tail;
      var i := IndexOf(s, c);
      assert s[|parts[0]|] == c;
      assert i == |parts[0]|;
      assert s[..i] == parts[0];
      assert s[i + 1..] == tail;
      SplitOnJoin(parts[1..], c);
      assert parts == [parts[0]] + parts[1..];
    }
  }

  /** ASCII whitespace as Rust's `u8::is_ascii_whitespace` defines it: space, tab,
      line feed, form feed and carriage return (not vertical tab). */
  predicate IsAsciiWhitespace(ch: char)
  {
    ch == ' ' || ch == '\t' || ch == '\n' || ch == '\U{000C}' || ch == '\r'
  }

  /** Unicode `White_Space`, as Rust's `char::is_whitespace` defines it. */
  predicate IsWhitespace(ch: char)
  {
    ('\U{0009}' <= ch <= '\U{000D}') || ch == ' ' || ch == '\U{0085}' || ch == '\U{00A0}'
    || ch == '\U{1680}' || ('\U{2000}' <= ch <= '\U{200A}') || ch == '\U{2028}'
    || ch == '\U{2029}' || ch == '\U{202F}' || ch == '\U{205F}' || ch == '\U{3000}'
  }

  /** Rust's `str::trim_start`: `s` without its leading Unicode whitespace. */
  function TrimStart(s: string): (r: string)
    ensures |r| <= |s| && r == s[|s| - |r|..]
    ensures forall i :: 0 <= i < |s| - |r| ==> IsWhitespace(s[i])
    ensures |r| > 0 ==> !IsWhitespace(r[0])
  {
    if |s| > 0 && IsWhitespace(s[0]) then TrimStart(s[1..]) else s
  }

  /** `s` with every ASCII whitespace character removed. */
  function RemoveAsciiWhitespace(s: string): (r: string)
  {
    if |s| == 0 then ""
    else (if IsAsciiWhitespace(s[0]) then "" else [s[0]]) + RemoveAsciiWhitespace(s[1..])
  }

  lemma {:induction false} RemoveAsciiWhitespaceAppend(a: string, b: string)
    ensures RemoveAsciiWhitespace(a + b) == RemoveAsciiWhitespace(a) + RemoveAsciiWhitespace(b)
    decreases |a|
  {
    if |a| == 0 {
      assert a + b == b;
    } else {
      assert (a + b)[1..] == a[1..] + b;
      RemoveAsciiWhitespaceAppend(a[1..], b);
    }
  }

  lemma {:induction false} RemoveAsciiWhitespaceFree(s: string)
    requires forall i :: 0 <= i < |s| ==> !IsAsciiWhitespace(s[i])
    ensures RemoveAsciiWhitespace(s) == s
    decreases |s|
  {
    if |s| > 0 {
      RemoveAsciiWhitespaceFree(s[1..]);
    }
  }

  /** The longest prefix of `s` free of ASCII whitespace. */
  function Word(s: string): (w: string)
    ensures |w| <= |s| && w == s[..|w|]
    ensures forall i :: 0 <= i < |w| ==> !IsAsciiWhitespace(w[i])
    ensures |w| < |s| ==> IsAsciiWhitespace(s[|w|])
  {
    if |s| == 0 || IsAsciiWhitespace(s[0]) then ""
    else
      var w := Word(s[1..]);
      assert [s[0]] + w == s[..|w| + 1];
      [s[0]] + w
  }

  /** Rust's `str::split_ascii_whitespace`: the maximal runs of characters that are not
      ASCII whitespace, in order. */
  function SplitAsciiWhitespace(s: string): (r: seq<string>)
    ensures forall i :: 0 <= i < |r| ==> |r[i]| > 0
    ensures forall i, j :: 0 <= i < |r| && 0 <= j < |r[i]| ==> !IsAsciiWhitespace(r[i][j])
    ensures Flatten(r) == RemoveAsciiWhitespace(s)
    decreases |s|
  {
    if |s| == 0 then []
    else if IsAsciiWhitespace(s[0]) then
      assert RemoveAsciiWhitespace(s) == RemoveAsciiWhitespace(s[1..]);
      SplitAsciiWhitespace(s[1..])
    else
      var w := Word(s);
      var rest := SplitAsciiWhitespace(s[|w|..]);
      assert s == w + s[|w|..];
      RemoveAsciiWhitespaceAppend(w, s[|w|..]);
      RemoveAsciiWhitespaceFree(w);
      [w] + rest
  }

  /** A token free of ASCII whitespace is split into itself. */
  lemma {:induction false} SplitAsciiWhitespaceWord(t: string)
    requires |t| > 0
    requires forall i :: 0 <= i < |t| ==> !IsAsciiWhitespace(t[i])
    ensures SplitAsciiWhitespace(t) == [t]
  {
    var w := Word(t);
    assert w == t;
    assert t[|w|..] == "";
    assert SplitAsciiWhitespace(t[|w|..]) == [];
  }

  /** Leading ASCII whitespace never changes the tokens. */
  lemma {:induction false} SplitAsciiWhitespaceSkip(ws: string, s: string)
    requires forall i :: 0 <= i < |ws| ==> IsAsciiWhitespace(ws[i])
    ensures SplitAsciiWhitespace(ws + s) == SplitAsciiWhitespace(s)
    decreases |ws|
  {
    if |ws| > 0 {
      assert (ws + s)[1..] == ws[1..] + s;
      SplitAsciiWhitespaceSkip(ws[1..], s);
    } else {
      assert ws + s == s;
    }
  }

  /** A whitespace character separates tokens: the tokens of `a ws b` are those of `a`
      followed by those of `b`. With `SplitAsciiWhitespaceWord` this pins the tokens down. */
  lemma {:induction false} SplitAsciiWhitespaceSeparates(a: string, ws: char, b: string)
    requires IsAsciiWhitespace(ws)
    ensures SplitAsciiWhitespace(a + [ws] + b) == SplitAsciiWhitespace(a) + SplitAsciiWhitespace(b)
    decreases |a|
  {
    var s := a + [ws] + b;
    if |a| == 0 {
      assert s == [ws] + b;
      assert s[1..] == b;
    } else if IsAsciiWhitespace(a[0]) {
      assert s[1..] == a[1..] + [ws] + b;
      SplitAsciiWhitespaceSeparates(a[1..], ws, b);
    } else {
      var wa := Word(a);
      var w := Word(s);
      WordOfPrefix(a, [ws] + b);
      assert s == a + ([ws] + b);
      assert w == wa;
      assert s[|w|..] == a[|wa|..] + [ws] + b;
      SplitAsciiWhitespaceSeparates(a[|wa|..], ws, b);
    }
  }

  /** The first word of `a ++ t` is the first word of `a` when `t` starts with whitespace. */
  lemma {:induction false} WordOfPrefix(a: string, t: string)
    requires |t| > 0 && IsAsciiWhitespace(t[0])
    ensures Word(a + t) == Word(a)
    decreases |a|
  {
    if |a| == 0 {
      assert a + t == t;
    } else if !IsAsciiWhitespace(a[0]) {
      assert (a + t)[1..] == a[1..] + t;
      WordOfPrefix(a[1..], t);
    }
  }

  /** `l` without one trailing carriage return. */
  function StripCarriageReturn(l: string): (r: string)
  {
    if |l| > 0 && l[|l| - 1] == '\r' then l[..|l| - 1] else l
  }

  /** Rust's `str::lines`: the pieces of `s` between line feeds; a line ended by a line
      feed loses one `\r` before it, and a final line feed does not start another, empty,
      line. */
  function Lines(s: string): seq<string>
    decreases |s|, 1
  {
    if |s| == 0 then [] else LinesFrom(s, IndexOf(s, '\n'))
  }

  /** The lines of a non-empty `s` whose first line feed is at `i` (`|s|` for none). */
  function LinesFrom(s: string, i: nat): seq<string>
    requires 0 < |s| && i <= |s|
    decreases |s|, 0
  {
    if i == |s| then [s] else [StripCarriageReturn(s[..i])] + Lines(s[i + 1..])
  }

  /** A character absent from `s` is absent from every slice of it. */
  lemma AbsentFromSlice(s: string, c: char, i: nat, j: nat)
    requires c !in s && i <= j <= |s|
    ensures c !in s[i..j]
  {
    assert forall x :: x in s[i..j] ==> x in s;
  }

  lemma StripCarriageReturnAbsent(l: string)
    requires '\r' !in l
    ensures StripCarriageReturn(l) == l
  {
    if |l| > 0 {
      assert l[|l| - 1] in l;
    }
  }

  lemma JoinWithCons(x: string, xs: seq<string>, sep: string)
    requires |xs| > 0
    ensures JoinWith([x] + xs, sep) == x + sep + JoinWith(xs, sep)
  {
    assert ([x] + xs)[1..] == xs;
  }

  /** The lines of a text whose first line feed is at `i`: the line before it, then the
      lines after it. */
  lemma LinesUnfold(s: string, i: nat)
    requires i < |s| && i == IndexOf(s, '\n')
    ensures Lines(s) == [StripCarriageReturn(s[..i])] + Lines(s[i + 1..])
  {
    assert Lines(s) == LinesFrom(s, i);
  }

  lemma SplitAround(s: string, i: nat)
    requires i < |s|
    ensures s == s[..i] + [s[i]] + s[i + 1..]
  {
  }

  /** One step of `LinesJoin`: a first line without carriage returns, then the rest. */
  lemma LinesJoinStep(s: string, i: nat)
    requires '\r' !in s && i < |s| - 1 && i == IndexOf(s, '\n')
    requires JoinWith(Lines(s[i + 1..]), "\n") == s[i + 1..]
    ensures JoinWith(Lines(s), "\n") == s
  {
    var head := s[..i];
    var rest := s[i + 1..];
    AbsentFromSlice(s, '\r', 0, i);
    StripCarriageReturnAbsent(head);
    LinesUnfold(s, i);
    assert |Lines(rest)| > 0;
    JoinWithCons(head, Lines(rest), "\n");
    SplitAround(s, i);
  }

  /** No line contains a line feed. */
  lemma {:induction false} LinesHaveNoNewline(s: string)
    ensures forall i :: 0 <= i < |Lines(s)| ==> '\n' !in Lines(s)[i]
    decreases |s|
  {
    if |s| > 0 {
      var i := IndexOf(s, '\n');
      if i == |s| {
        assert Lines(s) == [s];
      } else {
        LinesHaveNoNewline(s[i + 1..]);
        LinesUnfold(s, i);
        var head := s[..i];
        assert '\n' !in StripCarriageReturn(head) by {
          assert forall x :: x in StripCarriageReturn(head) ==> x in head;
        }
      }
    }
  }

  /** For text without carriage returns that does not end in a line feed, joining the lines
      with line feeds gives the text back. */
  lemma {:induction false} LinesJoin(s: string)
    requires '\r' !in s
    requires |s| == 0 || s[|s| - 1] != '\n'
    ensures JoinWith(Lines(s), "\n") == s
    decreases |s|
  {
    if |s| > 0 {
      var i := IndexOf(s, '\n');
      if i == |s| {
        assert Lines(s) == [s];
      } else {
        var rest := s[i + 1..];
        AbsentFromSlice(s, '\r', i + 1, |s|);
        assert |rest| > 0 && rest[|rest| - 1] == s[|s| - 1];
        LinesJoin(rest);
        LinesJoinStep(s, i);
      }
    }
  }
}
