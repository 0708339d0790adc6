/**
 * The tokenizer both generations of the configuration loader apply to the text of an
 * `.erdtreerc`: split into lines, drop every line whose first non-blank character is `#`,
 * and split what is left at ASCII whitespace into command-line arguments. The two
 * whitespace notions differ: a line is trimmed of Unicode whitespace before the `#` test,
 * but only ASCII whitespace separates arguments.
 */
module ConfigTokens {
  import opened Wrappers
  import opened Text

  /** The first character of `s` that is not Unicode whitespace, if there is one. */
  function FirstNonBlank(s: string): Option<char>
  {
    if |s| == 0 then None
    else if IsWhitespace(s[0]) then FirstNonBlank(s[1..])
    else Some(s[0])
  }

  /** The first non-blank character is the head of the trimmed line. */
  lemma {:induction false} FirstNonBlankTrim(s: string)
    ensures FirstNonBlank(s) == if |TrimStart(s)| > 0 then Some(TrimStart(s)[0]) else None
    decreases |s|
  {
    if |s| > 0 && IsWhitespace(s[0]) {
      FirstNonBlankTrim(s[1..]);
    }
  }

  /** A comment line: its first character that is not whitespace is `#`. */
  predicate IsComment(line: string)
  {
    FirstNonBlank(line) == Some('#')
  }

  /** The arguments one line contributes: none for a comment, its words otherwise. */
  function LineTokens(line: string): seq<string>
  {
    if IsComment(line) then [] else SplitAsciiWhitespace(line)
  }

  /** The pieces `f` makes of each line, one line after another (`flat_map`). */
  function FlatMap(f: string -> seq<string>, lines: seq<string>): seq<string>
  {
    if |lines| == 0 then []
    else FlatMap(f, lines[..|lines| - 1]) + f(lines[|lines| - 1])
  }

  lemma {:induction false} FlatMapAppend(f: string -> seq<string>, a: seq<string>, b: seq<string>)
    ensures FlatMap(f, a + b) == FlatMap(f, a) + FlatMap(f, b)
    decreases |b|
  {
    if |b| == 0 {
      assert a + b == a;
    } else {
      assert (a + b)[..|a + b| - 1] == a + b[..|b| - 1];
      FlatMapAppend(f, a, b[..|b| - 1]);
    }
  }

  /** The arguments of a sequence of lines, in line order. */
  function TokensOfLines(lines: seq<string>): seq<string>
  {
    FlatMap(LineTokens, lines)
  }

  /** Every argument is a non-empty run of characters that are not ASCII whitespace. */
  predicate WellFormed(tokens: seq<string>)
  {
    forall i :: 0 <= i < |tokens| ==> |tokens[i]| > 0 && forall j :: 0 <= j < |tokens[i]| ==> !IsAsciiWhitespace(tokens[i][j])
  }

  lemma {:induction false} TokensWellFormed(lines: seq<string>)
    ensures WellFormed(TokensOfLines(lines))
    decreases |lines|
  {
    if |lines| > 0 {
      TokensWellFormed(lines[..|lines| - 1]);
      var a := TokensOfLines(lines[..|lines| - 1]);
      var b := LineTokens(lines[|lines| - 1]);
      assert WellFormed(b);
      assert forall i :: 0 <= i < |a + b| ==> (a + b)[i] == if i < |a| then a[i] else b[i - |a|];
    }
  }

  /** The arguments of a configuration text. */
  function Tokens(config: string): seq<string>
  {
    TokensOfLines(Lines(config))
  }

  /** Reference definition: the lines that are not comments, in order. */
  function KeptLines(lines: seq<string>): (r: seq<string>)
    ensures |r| <= |lines|
    ensures forall i :: 0 <= i < |r| ==> !IsComment(r[i])
  {
    if |lines| == 0 then []
    else
      var last := lines[|lines| - 1];
      KeptLines(lines[..|lines| - 1]) + (if IsComment(last) then [] else [last])
  }

  lemma TokensOfLinesAppend(a: seq<string>, b: seq<string>)
    ensures TokensOfLines(a + b) == TokensOfLines(a) + TokensOfLines(b)
  {
    FlatMapAppend(LineTokens, a, b);
  }

  /** A comment line contributes nothing wherever it stands. */
  lemma CommentLineIgnored(a: seq<string>, line: string, b: seq<string>)
    requires IsComment(line)
    ensures TokensOfLines(a + [line] + b) == TokensOfLines(a + b)
  {
    var al := a + [line];
    assert al[..|al| - 1] == a && al[|al| - 1] == line;
    assert TokensOfLines(al) == TokensOfLines(a);
    TokensOfLinesAppend(al, b);
    TokensOfLinesAppend(a, b);
  }

  /** The arguments hold exactly the characters of the kept lines that are not ASCII
      whitespace, in order: nothing of a comment line survives and nothing else is lost. */
  lemma {:induction false} TokensAreKeptText(lines: seq<string>)
    ensures Flatten(TokensOfLines(lines)) == RemoveAsciiWhitespace(Flatten(KeptLines(lines)))
    decreases |lines|
  {
    if |lines| > 0 {
      var init := lines[..|lines| - 1];
      var last := lines[|lines| - 1];
      var kept := if IsComment(last) then [] else [last];
      TokensAreKeptText(init);
      assert TokensOfLines(lines) == TokensOfLines(init) + LineTokens(last);
      assert KeptLines(lines) == KeptLines(init) + kept;
      FlattenAppend(TokensOfLines(init), LineTokens(last));
      FlattenAppend(KeptLines(init), kept);
      RemoveAsciiWhitespaceAppend(Flatten(KeptLines(init)), Flatten(kept));
      if IsComment(last) {
        assert Flatten(kept) == "" && Flatten(LineTokens(last)) == "";
      } else {
        assert [last][1..] == [];
        assert Flatten(kept) == last;
        assert Flatten(LineTokens(last)) == RemoveAsciiWhitespace(last);
      }
    }
  }

  /** Trimming distributes over concatenation: leading whitespace of `b` is only trimmed
      when `a` is blank. */
  lemma {:induction false} TrimStartAppend(a: string, b: string)
    ensures TrimStart(a + b) == if |TrimStart(a)| > 0 then TrimStart(a) + b else TrimStart(b)
    decreases |a|
  {
    if |a| == 0 {
      assert a + b == b;
    } else if IsWhitespace(a[0]) {
      assert (a + b)[1..] == a[1..] + b;
      TrimStartAppend(a[1..], b);
    }
  }

  /** A blank at the end of a line never decides whether it is a comment. */
  lemma {:induction false} FirstNonBlankTrailing(a: string, c: char)
    requires IsWhitespace(c)
    ensures FirstNonBlank(a + [c]) == FirstNonBlank(a)
    decreases |a|
  {
    if |a| == 0 {
      assert (a + [c])[1..] == [];
    } else {
      assert (a + [c])[1..] == a[1..] + [c];
      FirstNonBlankTrailing(a[1..], c);
    }
  }

  /** The carriage return `str::lines` strips off a line changes none of its arguments. */
  lemma LineTokensCarriageReturn(line: string)
    ensures LineTokens(StripCarriageReturn(line)) == LineTokens(line)
  {
    if |line| > 0 && line[|line| - 1] == '\r' {
      var a := line[..|line| - 1];
      assert line == a + ['\r'];
      FirstNonBlankTrailing(a, '\r');
      SplitAsciiWhitespaceSeparates(a, '\r', "");
      assert a + ['\r'] + "" == line;
      assert SplitAsciiWhitespace("") == [];
    }
  }

  /** The lines of a text that starts with a full line. */
  lemma LinesCons(line: string, rest: string)
    requires '\n' !in line
    ensures Lines(line + "\n" + rest) == [StripCarriageReturn(line)] + Lines(rest)
  {
    var s := line + "\n" + rest;
    var i := IndexOf(s, '\n');
    assert s[|line|] == '\n';
    assert s[..|line|] == line;
    assert i == |line|;
    assert s[i + 1..] == rest;
  }

  /** A configuration text is read line by line: the arguments of a first line followed by
      the rest are that line's arguments followed by the rest's. */
  lemma TokensCons(line: string, rest: string)
    requires '\n' !in line
    ensures Tokens(line + "\n" + rest) == LineTokens(line) + Tokens(rest)
  {
    var head := StripCarriageReturn(line);
    var lines := Lines(line + "\n" + rest);
    LinesCons(line, rest);
    assert lines == [head] + Lines(rest);
    TokensOfLinesAppend([head], Lines(rest));
    TokensOfOneLine(head);
    LineTokensCarriageReturn(line);
  }

  lemma TokensOfOneLine(line: string)
    ensures TokensOfLines([line]) == LineTokens(line)
  {
    assert [line][..0] == [];
    assert FlatMap(LineTokens, [line]) == FlatMap(LineTokens, []) + LineTokens(line);
  }

  /** Indentation, even by a blank outside ASCII, does not hide a comment. */
  lemma IndentedComments()
    ensures LineTokens("  # set the depth") == []
    ensures LineTokens("\U{00A0}#x") == []
  {
    assert FirstNonBlank("# set the depth") == Some('#');
    assert FirstNonBlank(" # set the depth") == Some('#') by {
      assert " # set the depth"[1..] == "# set the depth";
    }
    assert FirstNonBlank("  # set the depth") == Some('#') by {
      assert "  # set the depth"[1..] == " # set the depth";
    }
    assert FirstNonBlank("\U{00A0}#x") == Some('#') by {
      assert "\U{00A0}#x"[1..] == "#x";
    }
  }

  /** A word followed by a space is the first argument of what follows it. */
  lemma WordThenSpace(w: string, rest: string)
    requires |w| > 0 && forall i :: 0 <= i < |w| ==> !IsAsciiWhitespace(w[i])
    ensures SplitAsciiWhitespace(w + " " + rest) == [w] + SplitAsciiWhitespace(rest)
  {
    SplitAsciiWhitespaceWord(w);
    SplitAsciiWhitespaceSeparates(w, ' ', rest);
    assert w + [' '] + rest == w + " " + rest;
  }

  /** Splitting undoes joining with single spaces, for words that are non-empty and free
      of ASCII whitespace. */
  lemma {:induction false} SplitJoinedWords(words: seq<string>)
    requires WellFormed(words)
    ensures SplitAsciiWhitespace(JoinWith(words, " ")) == words
    decreases |words|
  {
    if |words| == 1 {
      SplitAsciiWhitespaceWord(words[0]);
    } else if |words| > 1 {
      assert WellFormed(words[1..]) by {
        assert forall i :: 1 <= i < |words| ==> words[1..][i - 1] == words[i];
      }
      SplitJoinedWords(words[1..]);
      WordThenSpace(words[0], JoinWith(words[1..], " "));
      assert words == [words[0]] + words[1..];
    }
  }

  /** Whether a line is a comment is decided by its first word alone: a `#` anywhere
      after it starts no comment, and the rest of the line is passed on as arguments. */
  lemma CommentDecidedByFirstWord(words: seq<string>)
    requires WellFormed(words) && |words| > 0
    requires !IsWhitespace(words[0][0])
    ensures IsComment(JoinWith(words, " ")) <==> words[0][0] == '#'
    ensures words[0][0] != '#' ==> LineTokens(JoinWith(words, " ")) == words
  {
    var line := JoinWith(words, " ");
    JoinedHead(words, " ");
    assert FirstNonBlank(line) == Some(words[0][0]);
    SplitJoinedWords(words);
  }

  /** A joined line starts with the first character of its first word. */
  lemma JoinedHead(words: seq<string>, sep: string)
    requires |words| > 0 && |words[0]| > 0
    ensures |JoinWith(words, sep)| > 0 && JoinWith(words, sep)[0] == words[0][0]
  {
    if |words| > 1 {
      assert JoinWith(words, sep) == words[0] + (sep + JoinWith(words[1..], sep));
    }
  }

  /** A blank outside ASCII is trimmed before the comment test but does not separate
      arguments: it stays part of the argument it precedes. */
  lemma NonAsciiBlankKept()
    ensures LineTokens("\U{00A0}-L") == ["\U{00A0}-L"]
  {
    assert FirstNonBlank("\U{00A0}-L") == Some('-') by {
      assert "\U{00A0}-L"[1..] == "-L";
    }
    SplitAsciiWhitespaceWord("\U{00A0}-L");
  }
}
