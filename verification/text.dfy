/** The string operations the input checker and converter (TSP/InputVerification) apply to
    a line: `string.Split` on one character, `string.Trim`, and `Regex.Replace(s, @"\s+", " ")`.
    Next to them stands an independent description of a line's words, the maximal runs of
    non-white-space characters, and a proof that the three-step tokenisation yields them. */
module Text {

  /** The characters `char.IsWhiteSpace` accepts, which are also those the regular
      expression class `\s` matches: SPACE, the controls TAB to CR, NEL, and the Unicode
      space, line and paragraph separators. */
  const WhiteSpaceChars: string :=
    " \t\n\U{B}\U{C}\r\U{85}\U{A0}\U{1680}\U{2000}\U{2001}\U{2002}\U{2003}\U{2004}\U{2005}"
    + "\U{2006}\U{2007}\U{2008}\U{2009}\U{200A}\U{2028}\U{2029}\U{202F}\U{205F}\U{3000}"

  predicate Among(c: char, chars: string)
    decreases |chars|
  {
    |chars| > 0 && (chars[0] == c || Among(c, chars[1..]))
  }

  predicate IsWhiteSpace(c: char) {
    Among(c, WhiteSpaceChars)
  }

  lemma SpaceIsWhiteSpace()
    ensures IsWhiteSpace(' ')
  {
  }

  predicate AllWhiteSpace(s: string) {
    forall i :: 0 <= i < |s| ==> IsWhiteSpace(s[i])
  }

  predicate NoWhiteSpace(s: string) {
    forall i :: 0 <= i < |s| ==> !IsWhiteSpace(s[i])
  }

  lemma Assoc(a: string, b: string, c: string)
    ensures a + (b + c) == (a + b) + c
  {
  }

  /** How often `c` occurs in `s`. */
  function Count(s: string, c: char): nat
    decreases |s|
  {
    if |s| == 0 then 0 else (if s[0] == c then 1 else 0) + Count(s[1..], c)
  }

  // ---------------------------------------------------------------------------------------
  // string.Split(sep) and its inverse

  /** `s.Split(sep)`: the pieces between the separators, empty pieces included. */
  function Split(s: string, sep: char): (r: seq<string>)
    ensures |r| == Count(s, sep) + 1
    ensures forall k :: 0 <= k < |r| ==> sep !in r[k]
    decreases |s|
  {
    if |s| == 0 then [""]
    else
      var rest := Split(s[1..], sep);
      if s[0] == sep then [""] + rest
      else [[s[0]] + rest[0]] + rest[1..]
  }

  /** `string.Join(sep, parts)`. */
  function Join(parts: seq<string>, sep: char): string
    requires |parts| > 0
    decreases |parts|
  {
    if |parts| == 1 then parts[0] else parts[0] + [sep] + Join(parts[1..], sep)
  }

  /** Joining the pieces gives back the string. */
  lemma {:induction false} JoinSplit(s: string, sep: char)
    ensures Join(Split(s, sep), sep) == s
    decreases |s|
  {
    if |s| > 0 {
      var rest := Split(s[1..], sep);
      JoinSplit(s[1..], sep);
      if s[0] == sep {
        assert ([""] + rest)[1..] == rest;
      } else if |rest| > 1 {
        assert ([[s[0]] + rest[0]] + rest[1..])[1..] == rest[1..];
        assert Join(rest, sep) == rest[0] + [sep] + Join(rest[1..], sep);
      }
    }
  }

  /** Splitting a join of separator-free pieces gives back the pieces. */
  lemma {:induction false} SplitJoin(parts: seq<string>, sep: char)
    requires |parts| > 0
    requires forall k :: 0 <= k < |parts| ==> sep !in parts[k]
    ensures Split(Join(parts, sep), sep) == parts
    decreases |parts|
  {
    if |parts| == 1 {
      SplitFree(parts[0], [], sep);
      assert parts[0] + [] == parts[0] && parts[0] + "" == parts[0];
    } else {
      SplitJoin(parts[1..], sep);
      var tail := [sep] + Join(parts[1..], sep);
      assert Split(tail, sep) == [""] + parts[1..] by {
        assert tail[1..] == Join(parts[1..], sep);
      }
      assert parts[0] + [sep] + Join(parts[1..], sep) == parts[0] + tail;
      SplitFree(parts[0], tail, sep);
      assert parts[0] + "" == parts[0] && [parts[0]] + parts[1..] == parts;
    }
  }

  /** A separator-free prefix glues onto the first piece. */
  lemma {:induction false} SplitFree(w: string, s: string, sep: char)
    requires sep !in w
    ensures Split(w + s, sep) == [w + Split(s, sep)[0]] + Split(s, sep)[1..]
    decreases |w|
  {
    if |w| > 0 {
      assert (w + s)[0] == w[0] && (w + s)[1..] == w[1..] + s;
      SplitFree(w[1..], s, sep);
      assert [w[0]] + (w[1..] + Split(s, sep)[0]) == w + Split(s, sep)[0];
    } else {
      var r := Split(s, sep);
      assert w + s == s && w + r[0] == r[0];
      assert [r[0]] + r[1..] == r;
    }
  }

  /** A string that ends with the separator has an empty last piece. */
  lemma {:induction false} SplitLastEmpty(s: string, sep: char)
    requires |s| > 0 && s[|s| - 1] == sep
    ensures Split(s, sep)[|Split(s, sep)| - 1] == ""
    decreases |s|
  {
    if |s| > 1 {
      SplitLastEmpty(s[1..], sep);
    }
  }

  // ---------------------------------------------------------------------------------------
  // string.Trim()

  /** `s.TrimStart()`: the white space at the front removed. */
  function TrimStart(s: string): (r: string)
    ensures |r| <= |s|
    ensures |s| > 0 && IsWhiteSpace(s[0]) ==> |r| < |s|
    ensures |r| > 0 ==> !IsWhiteSpace(r[0])
    decreases |s|
  {
    if |s| > 0 && IsWhiteSpace(s[0]) then TrimStart(s[1..]) else s
  }

  /** `s.TrimEnd()`: the white space at the back removed. */
  function TrimEnd(s: string): (r: string)
    ensures |r| <= |s|
    ensures |r| > 0 ==> r[0] == s[0] && !IsWhiteSpace(r[|r| - 1])
    decreases |s|
  {
    if |s| > 0 && IsWhiteSpace(s[|s| - 1]) then TrimEnd(s[..|s| - 1]) else s
  }

  /** `s.Trim()`. */
  function Trim(s: string): (r: string)
    ensures |r| > 0 ==> !IsWhiteSpace(r[0]) && !IsWhiteSpace(r[|r| - 1])
  {
    TrimEnd(TrimStart(s))
  }

  /** What `TrimStart` removes is white space in front of what it keeps. */
  lemma {:induction false} TrimStartSplits(s: string)
    ensures s == s[..|s| - |TrimStart(s)|] + TrimStart(s)
    ensures AllWhiteSpace(s[..|s| - |TrimStart(s)|])
    decreases |s|
  {
    if |s| > 0 && IsWhiteSpace(s[0]) {
      TrimStartSplits(s[1..]);
      var n := |s| - |TrimStart(s)|;
      assert s[..n] == [s[0]] + s[1..][..n - 1];
    }
  }

  /** What `TrimEnd` removes is white space behind what it keeps. */
  lemma {:induction false} TrimEndSplits(s: string)
    ensures s == TrimEnd(s) + s[|TrimEnd(s)|..]
    ensures AllWhiteSpace(s[|TrimEnd(s)|..])
    decreases |s|
  {
    if |s| > 0 && IsWhiteSpace(s[|s| - 1]) {
      var init := s[..|s| - 1];
      TrimEndSplits(init);
      var n := |TrimEnd(s)|;
      assert s[n..] == init[n..] + [s[|s| - 1]];
      assert s == init + [s[|s| - 1]];
    }
  }

  /** `s` is `Trim(s)` with white space around it. */
  lemma TrimSplits(s: string) returns (front: string, back: string)
    ensures s == front + Trim(s) + back
    ensures AllWhiteSpace(front) && AllWhiteSpace(back)
  {
    var t := TrimStart(s);
    TrimStartSplits(s);
    TrimEndSplits(t);
    front := s[..|s| - |t|];
    back := t[|TrimEnd(t)|..];
    assert front + Trim(s) + back == front + t;
  }

  /** White space in front changes nothing. */
  lemma {:induction false} TrimStartPadded(pad: string, s: string)
    requires AllWhiteSpace(pad)
    ensures TrimStart(pad + s) == TrimStart(s)
    decreases |pad|
  {
    if |pad| > 0 {
      assert (pad + s)[1..] == pad[1..] + s;
      TrimStartPadded(pad[1..], s);
    } else {
      assert pad + s == s;
    }
  }

  lemma TrimStartNone(s: string)
    requires |s| == 0 || !IsWhiteSpace(s[0])
    ensures TrimStart(s) == s
  {
  }

  lemma TrimStartBlank(s: string)
    requires AllWhiteSpace(s)
    ensures TrimStart(s) == ""
  {
    TrimStartPadded(s, "");
    assert s + "" == s;
  }

  // ---------------------------------------------------------------------------------------
  // Regex.Replace(s, @"\s+", " ")

  /** Every maximal run of white space replaced by one space. */
  function Collapse(s: string): string
    decreases |s|
  {
    if |s| == 0 then ""
    else if IsWhiteSpace(s[0]) then " " + Collapse(TrimStart(s))
    else [s[0]] + Collapse(s[1..])
  }

  /** A run without white space passes through unchanged. */
  lemma {:induction false} CollapseWord(w: string, s: string)
    requires NoWhiteSpace(w)
    ensures Collapse(w + s) == w + Collapse(s)
    decreases |w|
  {
    if |w| > 0 {
      assert (w + s)[0] == w[0] && (w + s)[1..] == w[1..] + s;
      CollapseWord(w[1..], s);
      assert w == [w[0]] + w[1..];
      Assoc([w[0]], w[1..], Collapse(s));
    } else {
      assert w + s == s;
    }
  }

  // ---------------------------------------------------------------------------------------
  // The words of a line

  /** The leading run of non-white-space characters. */
  function TakeWord(s: string): (w: string)
    ensures |w| <= |s|
    ensures |s| > 0 && !IsWhiteSpace(s[0]) ==> |w| > 0
    decreases |s|
  {
    if |s| > 0 && !IsWhiteSpace(s[0]) then [s[0]] + TakeWord(s[1..]) else ""
  }

  /** `TakeWord` takes a prefix without white space, and stops at white space or the end. */
  lemma {:induction false} TakeWordSplits(s: string)
    ensures s == TakeWord(s) + s[|TakeWord(s)|..]
    ensures NoWhiteSpace(TakeWord(s))
    ensures |TakeWord(s)| < |s| ==> IsWhiteSpace(s[|TakeWord(s)|])
    decreases |s|
  {
    if |s| > 0 && !IsWhiteSpace(s[0]) {
      TakeWordSplits(s[1..]);
      assert s[|TakeWord(s)|..] == s[1..][|TakeWord(s[1..])|..];
    }
  }

  /** A word ends where white space or the string ends. */
  lemma {:induction false} TakeWordStops(w: string, s: string)
    requires NoWhiteSpace(w) && (|s| == 0 || IsWhiteSpace(s[0]))
    ensures TakeWord(w + s) == w
    decreases |w|
  {
    if |w| > 0 {
      assert (w + s)[0] == w[0] && (w + s)[1..] == w[1..] + s;
      TakeWordStops(w[1..], s);
    } else {
      assert w + s == s;
    }
  }

  predicate IsWord(w: string) {
    |w| > 0 && NoWhiteSpace(w)
  }

  /** The maximal runs of non-white-space characters, in order: the reference description of
      what the tokenisation should produce. */
  function Words(s: string): seq<string>
    decreases |s|
  {
    var t := TrimStart(s);
    if |t| == 0 then []
    else
      var w := TakeWord(t);
      [w] + Words(t[|w|..])
  }

  /** Every word is non-empty and free of white space. */
  lemma {:induction false} WordsAreWords(s: string)
    ensures forall k :: 0 <= k < |Words(s)| ==> IsWord(Words(s)[k])
    decreases |s|
  {
    var t := TrimStart(s);
    if |t| > 0 {
      var w := TakeWord(t);
      TakeWordSplits(t);
      WordsAreWords(t[|w|..]);
    }
  }

  lemma WordsPaddedFront(pad: string, s: string)
    requires AllWhiteSpace(pad)
    ensures Words(pad + s) == Words(s)
  {
    TrimStartPadded(pad, s);
  }

  /** White space at the back changes nothing. */
  lemma {:induction false} WordsPaddedBack(s: string, pad: string)
    requires AllWhiteSpace(pad)
    ensures Words(s + pad) == Words(s)
    decreases |s|
  {
    var t := TrimStart(s);
    var lead := s[..|s| - |t|];
    TrimStartSplits(s);
    Assoc(lead, t, pad);
    TrimStartPadded(lead, t + pad);
    if |t| == 0 {
      assert t + pad == pad;
      TrimStartBlank(pad);
    } else {
      WordsStep(t, pad);
      WordsPaddedBack(t[|TakeWord(t)|..], pad);
    }
  }

  /** One word of `WordsPaddedBack`: a padded string whose first character is not white
      space starts with the same word, followed by the padded rest. */
  lemma WordsStep(t: string, pad: string)
    requires |t| > 0 && !IsWhiteSpace(t[0]) && AllWhiteSpace(pad)
    ensures Words(t + pad) == [TakeWord(t)] + Words(t[|TakeWord(t)|..] + pad)
  {
    var w := TakeWord(t);
    var after := t[|w|..];
    TakeWordSplits(t);
    TrimStartNone(t + pad);
    Assoc(w, after, pad);
    TakeWordStops(w, after + pad);
    assert (t + pad)[|w|..] == after + pad;
  }

  /** A trimmed, non-blank string collapses to its words joined by single spaces. */
  lemma {:induction false} CollapseIsJoin(c: string)
    requires |c| > 0 && !IsWhiteSpace(c[0]) && !IsWhiteSpace(c[|c| - 1])
    ensures |Words(c)| > 0 && Collapse(c) == Join(Words(c), ' ')
    decreases |c|
  {
    TrimStartNone(c);
    var w := TakeWord(c);
    var rest := c[|w|..];
    TakeWordSplits(c);
    assert Words(c) == [w] + Words(rest);
    CollapseWord(w, rest);
    if |rest| > 0 {
      var next := TrimStart(rest);
      TrimStartSplits(rest);
      assert rest[|rest| - 1] == c[|c| - 1];
      assert |next| > 0 && next[|next| - 1] == c[|c| - 1];
      TrimStartNone(next);
      assert Words(rest) == Words(next);
      CollapseIsJoin(next);
      var joined := Join(Words(next), ' ');
      assert Collapse(rest) == " " + joined;
      JoinCons(w, Words(next), ' ');
      Assoc(w, " ", joined);
    } else {
      assert Words(rest) == [] && Collapse(rest) == "";
      assert w + "" == w;
    }
  }

  lemma JoinCons(w: string, ws: seq<string>, sep: char)
    requires |ws| > 0
    ensures Join([w] + ws, sep) == w + [sep] + Join(ws, sep)
  {
    assert ([w] + ws)[1..] == ws;
  }

  /** `Regex.Replace(line.Trim(), @"\s+", " ").Split(" ")`: the tokens of one input line. */
  function Tokens(line: string): seq<string> {
    Split(Collapse(Trim(line)), ' ')
  }

  /** The tokenisation of a line yields its words, or the single empty token when the line
      is blank (splitting the empty string gives one empty piece). */
  lemma TokensAreWords(line: string)
    ensures Tokens(line) == if |Words(line)| == 0 then [""] else Words(line)
  {
    var c := Trim(line);
    var front, back := TrimSplits(line);
    Assoc(front, c, back);
    WordsPaddedFront(front, c + back);
    WordsPaddedBack(c, back);
    if |c| > 0 {
      CollapseIsJoin(c);
      WordsAreWords(c);
      SpaceIsWhiteSpace();
      SplitJoin(Words(c), ' ');
    } else {
      assert Words(c) == [];
    }
  }

  /** Extra white space around a line does not change its tokens. */
  lemma TokensPadded(front: string, line: string, back: string)
    requires AllWhiteSpace(front) && AllWhiteSpace(back)
    ensures Tokens(front + line + back) == Tokens(line)
  {
    TokensAreWords(front + line + back);
    TokensAreWords(line);
    Assoc(front, line, back);
    WordsPaddedFront(front, line + back);
    WordsPaddedBack(line, back);
  }

  /** Two words with any white space between them are exactly two tokens. */
  lemma TokensOfPair(x: string, gap: string, y: string)
    requires IsWord(x) && IsWord(y)
    requires |gap| > 0 && AllWhiteSpace(gap)
    ensures Tokens(x + gap + y) == [x, y]
  {
    var s := x + gap + y;
    TokensAreWords(s);
    Assoc(x, gap, y);
    TrimStartNone(s);
    TakeWordStops(x, gap + y);
    assert s[|x|..] == gap + y;
    WordsPaddedFront(gap, y);
    TrimStartNone(y);
    TakeWordStops(y, "");
    assert y + "" == y;
    assert y[|y|..] == "";
  }

  /** A blank line is the single empty token. */
  lemma TokensOfBlank(line: string)
    requires AllWhiteSpace(line)
    ensures Tokens(line) == [""]
  {
    TokensAreWords(line);
    TrimStartBlank(line);
  }
}
